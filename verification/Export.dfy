/** The day list and the session index of `exportAttendanceRangeExcel` in
    src/attendance/attendance.service.ts. Sessions are found by a string key made of the staff id
    and the UTC date of the session's midnight. */
module Export {
  import opened OrgDays
  import opened Attendance

  // ---------- The day loop ----------

  /** The time of day, in milliseconds, at which each day begins: 0, unless the clocks skip midnight. */
  type Late = int -> nat

  /** A local date and time: a day and the time of day. */
  datatype Local = Local(day: int, wall: nat)

  /** `cur.plus({ days: 1 })`: the next day at the same time of day. A time that the clocks skip is
      moved on by as much as they skip. */
  function PlusDay(late: Late, cur: Local): Local {
    Local(cur.day + 1, if cur.wall < late(cur.day + 1) then cur.wall + late(cur.day + 1) else cur.wall)
  }

  function Instant(cal: Calendar, late: Late, cur: Local): int {
    cal(cur.day) + cur.wall - late(cur.day)
  }

  /** The local time that the loop has on day `d`, having started at the beginning of day `first`. */
  function Reached(late: Late, first: int, d: int): (r: Local)
    requires first <= d
    ensures r.day == d && late(d) <= r.wall
    decreases d - first
  {
    if d == first then Local(d, late(d)) else PlusDay(late, Reached(late, first, d - 1))
  }

  /** The times of day that the loop can reach occur before the day ends. */
  ghost predicate TimesOccur(cal: Calendar, late: Late) {
    forall first, d :: first <= d ==> Instant(cal, late, Reached(late, first, d)) < cal(d + 1)
  }

  lemma StaysInDay(cal: Calendar, late: Late, first: int, d: int)
    requires first <= d && TimesOccur(cal, late)
    ensures var now := Instant(cal, late, Reached(late, first, d));
      cal(d) <= now < cal(d + 1) && OrgDay(cal, now) == d
  {
    var cur := Reached(late, first, d);
    OrgDayIsUnique(cal, Instant(cal, late, cur), d);
  }

  lemma LoopGoesOnIff(cal: Calendar, late: Late, first: int, last: int, d: int)
    requires first <= d <= last + 1 && TimesOccur(cal, late)
    ensures Instant(cal, late, Reached(late, first, d)) <= cal(last)
       <==> d < last || (d == last && Reached(late, first, d).wall == late(last))
  {
    StaysInDay(cal, late, first, d);
    if d < last {
      CalendarInOrder(cal, d + 1, last);
    } else if d > last {
      CalendarInOrder(cal, d, last);
    }
  }

  /** The first `n` values that the loop appends. */
  function Appended(cal: Calendar, late: Late, first: int, n: nat): seq<int> {
    if n == 0 then [] else Appended(cal, late, first, n - 1) + [Instant(cal, late, Reached(late, first, first + n - 1))]
  }

  lemma {:induction false} AppendedDays(cal: Calendar, late: Late, first: int, n: nat)
    requires TimesOccur(cal, late)
    ensures |Appended(cal, late, first, n)| == n
    ensures forall i :: 0 <= i < n ==> OrgDay(cal, Appended(cal, late, first, n)[i]) == first + i
  {
    if n > 0 {
      AppendedDays(cal, late, first, n - 1);
      StaysInDay(cal, late, first, first + n - 1);
    }
  }

  /** `startDT` and `endDT` are the beginnings of two days. Each day is listed once, in order, except
      that the last day is missing if the loop reaches it at a later time of day than that at which
      it begins. */
  method DayList(cal: Calendar, late: Late, first: int, last: int) returns (days: seq<int>)
    requires first <= last && TimesOccur(cal, late)
    ensures |days| == last - first + if Reached(late, first, last).wall == late(last) then 1 else 0
    ensures forall i :: 0 <= i < |days| ==> OrgDay(cal, days[i]) == first + i
    ensures days == Appended(cal, late, first, |days|)
  {
    days := [];
    var cur := Local(first, late(first));
    var end := Instant(cal, late, Local(last, late(last)));
    LoopGoesOnIff(cal, late, first, last, first);
    while Instant(cal, late, cur) <= end
      invariant first <= cur.day <= last + 1 && cur == Reached(late, first, cur.day)
      invariant Instant(cal, late, cur) <= end
           <==> cur.day < last || (cur.day == last && cur.wall == late(last))
      invariant cur.day == last + 1 ==> Reached(late, first, last).wall == late(last)
      invariant days == Appended(cal, late, first, cur.day - first)
      decreases last + 1 - cur.day
    {
      days := days + [Instant(cal, late, cur)];
      cur := PlusDay(late, cur);
      LoopGoesOnIff(cal, late, first, last, cur.day);
    }
    AppendedDays(cal, late, first, cur.day - first);
  }

  /** The loop keeps its first time of day as long as no day begins late, and a later one for good. */
  lemma {:induction false} ReachedZeroIff(late: Late, first: int, d: int)
    requires first <= d
    ensures Reached(late, first, d).wall == 0 <==> forall e :: first <= e <= d ==> late(e) == 0
    decreases d - first
  {
    if first < d {
      ReachedZeroIff(late, first, d - 1);
    }
  }

  /** The last day is listed exactly if no day before it begins late, or the loop comes from the day
      before at the very time at which the last day begins. */
  lemma LastDayListedIff(late: Late, first: int, last: int)
    requires first <= last
    ensures Reached(late, first, last).wall == late(last)
       <==> || (forall d :: first <= d < last ==> late(d) == 0)
            || (first < last && Reached(late, first, last - 1).wall == late(last))
  {
    if first < last {
      ReachedZeroIff(late, first, last - 1);
    }
  }

  /** Midnights are skipped, if at all, by the same amount. */
  ghost predicate SameGaps(late: Late, gap: nat) {
    forall d :: late(d) == 0 || late(d) == gap
  }

  lemma {:induction false} ReachedWithSameGaps(late: Late, gap: nat, first: int, d: int)
    requires SameGaps(late, gap) && first <= d
    ensures Reached(late, first, d).wall == 0 || Reached(late, first, d).wall == gap
    decreases d - first
  {
    if first < d {
      ReachedWithSameGaps(late, gap, first, d - 1);
    }
  }

  /** Where all skipped midnights are skipped by the same amount, the last day is listed exactly if no
      earlier day of the range begins later in the day than it does. */
  lemma LastDayListedWithSameGaps(late: Late, gap: nat, first: int, last: int)
    requires SameGaps(late, gap) && first <= last
    ensures Reached(late, first, last).wall == late(last) <==> forall d :: first <= d < last ==> late(d) <= late(last)
  {
    LastDayListedIff(late, first, last);
    if first < last {
      ReachedWithSameGaps(late, gap, first, last - 1);
      ReachedZeroIff(late, first, last - 1);
    }
  }

  /** Such gaps fit if every day that begins at midnight is longer than the gap. */
  lemma SameGapsOccur(cal: Calendar, late: Late, gap: nat)
    requires SameGaps(late, gap) && forall d :: late(d) == 0 ==> cal(d) + gap < cal(d + 1)
    ensures TimesOccur(cal, late)
  {
    forall first, d | first <= d ensures Instant(cal, late, Reached(late, first, d)) < cal(d + 1) {
      ReachedWithSameGaps(late, gap, first, d);
      assert cal(d) < cal(d + 1);
    }
  }

  function AtMidnight(): Late {
    d => 0
  }

  /** In a zone that never skips a midnight, as with a fixed offset, every day is listed. */
  lemma MidnightsListAll(cal: Calendar, first: int, last: int)
    requires first <= last
    ensures TimesOccur(cal, AtMidnight()) && Reached(AtMidnight(), first, last).wall == AtMidnight()(last)
  {
    assert forall d :: cal(d) < cal(d + 1);
    SameGapsOccur(cal, AtMidnight(), 0);
    LastDayListedWithSameGaps(AtMidnight(), 0, first, last);
  }

  const MS_PER_HOUR := 60 * 60 * 1000

  /** UTC until the clocks go forward at the midnight of day 1, as in Cairo in April: day 1 begins at 01:00. */
  function SkippedMidnight(): Calendar {
    d => if d <= 1 then d * MS_PER_DAY else d * MS_PER_DAY - MS_PER_HOUR
  }

  function OneHourLateOnDayOne(): Late {
    d => if d == 1 then MS_PER_HOUR else 0
  }

  /** A range that contains that day and ends later loses its last day. */
  lemma SkippedMidnightDropsLastDay(first: int, last: int)
    requires first <= 1 < last
    ensures TimesOccur(SkippedMidnight(), OneHourLateOnDayOne())
    ensures Reached(OneHourLateOnDayOne(), first, last).wall != OneHourLateOnDayOne()(last)
  {
    var late := OneHourLateOnDayOne();
    SameGapsOccur(SkippedMidnight(), late, MS_PER_HOUR);
    LastDayListedWithSameGaps(late, MS_PER_HOUR, first, last);
    assert late(1) > late(last);
  }

  // ---------- Keys ----------

  /** Luxon's `toISODate` as far as the index depends on it: different dates give different texts, without a colon. */
  ghost predicate IsoDateFormat(iso: int -> string) {
    && (forall a, b :: iso(a) == iso(b) ==> a == b)
    && (forall a :: ':' !in iso(a))
  }

  function Key(iso: int -> string, staffId: StaffId, midnight: int): string {
    staffId + ":" + iso(UtcDate(midnight))
  }

  lemma ColonSplits(a: string, b: string, x: string, y: string)
    requires ':' !in x && ':' !in y
    ensures a + ":" + x == b + ":" + y <==> a == b && x == y
  {
    var s, t := a + ":" + x, b + ":" + y;
    if s == t {
      assert s[|a|] == ':' && t[|b|] == ':';
      assert forall i :: |a| < i < |s| ==> s[i] == x[i - |a| - 1];
      assert forall i :: |b| < i < |t| ==> t[i] == y[i - |b| - 1];
      assert |a| == |b|;
      assert a == s[..|a|] && b == t[..|b|];
      assert x == s[|a| + 1..] && y == t[|b| + 1..];
    }
  }

  lemma KeysAgreeIff(iso: int -> string, a: StaffId, m: int, b: StaffId, n: int)
    requires IsoDateFormat(iso)
    ensures Key(iso, a, m) == Key(iso, b, n) <==> a == b && UtcDate(m) == UtcDate(n)
  {
    ColonSplits(a, b, iso(UtcDate(m)), iso(UtcDate(n)));
  }

  // ---------- The index ----------

  ghost predicate LastWithKey(iso: int -> string, sessions: seq<Session>, key: string, i: int) {
    && 0 <= i < |sessions|
    && Key(iso, sessions[i].staffId, sessions[i].date) == key
    && forall j :: i < j < |sessions| ==> Key(iso, sessions[j].staffId, sessions[j].date) != key
  }

  /** What `sessionsByKey` holds: for every key of a fetched session the last session with that key. */
  ghost predicate IsIndexOf(iso: int -> string, sessions: seq<Session>, index: map<string, Session>) {
    && (forall i :: 0 <= i < |sessions| ==> Key(iso, sessions[i].staffId, sessions[i].date) in index)
    && (forall key :: key in index ==> exists i :: LastWithKey(iso, sessions, key, i) && index[key] == sessions[i])
  }

  lemma LastWithKeyStep(iso: int -> string, sessions: seq<Session>, n: nat, key: string, i: int)
    requires n < |sessions|
    ensures Key(iso, sessions[n].staffId, sessions[n].date) == key ==> LastWithKey(iso, sessions[..n + 1], key, n)
    ensures Key(iso, sessions[n].staffId, sessions[n].date) != key && LastWithKey(iso, sessions[..n], key, i)
        ==> LastWithKey(iso, sessions[..n + 1], key, i) && sessions[..n + 1][i] == sessions[..n][i]
  {
  }

  lemma IndexStep(iso: int -> string, sessions: seq<Session>, n: nat, index: map<string, Session>)
    requires n < |sessions| && IsIndexOf(iso, sessions[..n], index)
    ensures IsIndexOf(iso, sessions[..n + 1], index[Key(iso, sessions[n].staffId, sessions[n].date) := sessions[n]])
  {
    var before, after := sessions[..n], sessions[..n + 1];
    var key := Key(iso, sessions[n].staffId, sessions[n].date);
    var updated := index[key := sessions[n]];
    forall k | k in updated
      ensures exists i :: LastWithKey(iso, after, k, i) && updated[k] == after[i]
    {
      var i: int := n;
      if k != key {
        i :| LastWithKey(iso, before, k, i) && index[k] == before[i];
      }
      LastWithKeyStep(iso, sessions, n, k, i);
    }
    forall j | 0 <= j < n + 1
      ensures Key(iso, after[j].staffId, after[j].date) in updated
    {
      assert j < n ==> after[j] == before[j];
    }
  }

  method BuildIndex(iso: int -> string, sessions: seq<Session>) returns (sessionsByKey: map<string, Session>)
    ensures IsIndexOf(iso, sessions, sessionsByKey)
  {
    sessionsByKey := map[];
    for n := 0 to |sessions|
      invariant IsIndexOf(iso, sessions[..n], sessionsByKey)
    {
      var key := Key(iso, sessions[n].staffId, sessions[n].date);
      ghost var before := sessionsByKey;
      sessionsByKey := sessionsByKey[key := sessions[n]];
      IndexStep(iso, sessions, n, before);
    }
    assert sessions[..|sessions|] == sessions;
  }

  /** The sessions were fetched with a `date` among the midnights of the range. */
  ghost predicate FetchedForRange(cal: Calendar, first: int, last: int, sessions: seq<Session>) {
    forall i :: 0 <= i < |sessions| ==> exists d :: first <= d <= last && sessions[i].date == cal(d)
  }

  ghost predicate Fetched(sessions: seq<Session>, staffId: StaffId, date: int) {
    exists i :: 0 <= i < |sessions| && sessions[i].staffId == staffId && sessions[i].date == date
  }

  /** Looking up a staff member and a day finds a session of that member and day exactly if one was fetched. */
  ghost predicate FindsRightSession(cal: Calendar, iso: int -> string, sessions: seq<Session>,
                                    index: map<string, Session>,
                                    staffId: StaffId, day: int) {
    var key := Key(iso, staffId, cal(day));
    && (key in index <==> Fetched(sessions, staffId, cal(day)))
    && (key in index ==> index[key].staffId == staffId && index[key].date == cal(day))
  }

  ghost predicate IndexIsRight(cal: Calendar, iso: int -> string, first: int, last: int) {
    forall sessions, index, staffId, day ::
      FetchedForRange(cal, first, last, sessions) && IsIndexOf(iso, sessions, index) && first <= day <= last
      ==> FindsRightSession(cal, iso, sessions, index, staffId, day)
  }

  lemma DistinctDatesDetermineDay(cal: Calendar, first: int, last: int, a: int, b: int)
    requires DistinctUtcDates(cal, first, last) && first <= a <= last && first <= b <= last
    requires UtcDate(cal(a)) == UtcDate(cal(b))
    ensures a == b
  {
    if a < b {
      DistinctDatesIncrease(cal, first, last, a, b);
    } else if b < a {
      DistinctDatesIncrease(cal, first, last, b, a);
    }
  }

  lemma DistinctDatesSuffice(cal: Calendar, iso: int -> string, first: int, last: int,
                             sessions: seq<Session>, index: map<string, Session>, staffId: StaffId, day: int)
    requires IsoDateFormat(iso) && DistinctUtcDates(cal, first, last)
    requires FetchedForRange(cal, first, last, sessions) && IsIndexOf(iso, sessions, index) && first <= day <= last
    ensures FindsRightSession(cal, iso, sessions, index, staffId, day)
  {
    var key := Key(iso, staffId, cal(day));
    forall i | 0 <= i < |sessions| && Key(iso, sessions[i].staffId, sessions[i].date) == key
      ensures sessions[i].staffId == staffId && sessions[i].date == cal(day)
    {
      KeysAgreeIff(iso, sessions[i].staffId, sessions[i].date, staffId, cal(day));
      var d :| first <= d <= last && sessions[i].date == cal(d);
      DistinctDatesDetermineDay(cal, first, last, d, day);
    }
    if key in index {
      var i :| LastWithKey(iso, sessions, key, i) && index[key] == sessions[i];
    }
  }

  lemma SharedDateMisleads(cal: Calendar, iso: int -> string, first: int, last: int, d: int)
    requires first <= d < last && UtcDate(cal(d)) == UtcDate(cal(d + 1))
    ensures !IndexIsRight(cal, iso, first, last)
  {
    CalendarInOrder(cal, d, d + 1);
    var s := NewSession("s", cal(d + 1), cal(d + 1));
    var sessions := [s];
    var key := Key(iso, "s", cal(d));
    var index := map[key := s];
    assert LastWithKey(iso, sessions, key, 0);
    assert IsIndexOf(iso, sessions, index);
    assert FetchedForRange(cal, first, last, sessions);
    assert !FindsRightSession(cal, iso, sessions, index, "s", d);
  }

  /** The export finds the right session for every member and day, whatever was fetched, exactly if
      the days of the range begin on different UTC dates. */
  lemma IndexIsRightIff(cal: Calendar, iso: int -> string, first: int, last: int)
    requires IsoDateFormat(iso)
    ensures IndexIsRight(cal, iso, first, last) <==> DistinctUtcDates(cal, first, last)
  {
    if DistinctUtcDates(cal, first, last) {
      forall sessions, index, staffId, day |
        FetchedForRange(cal, first, last, sessions) && IsIndexOf(iso, sessions, index) && first <= day <= last
        ensures FindsRightSession(cal, iso, sessions, index, staffId, day)
      {
        DistinctDatesSuffice(cal, iso, first, last, sessions, index, staffId, day);
      }
    } else {
      var d :| first <= d < last && UtcDate(cal(d)) == UtcDate(cal(d + 1));
      SharedDateMisleads(cal, iso, first, last, d);
    }
  }

  /** Zones that never change their offset are safe. */
  lemma FixedOffsetIndexIsRight(offset: int, iso: int -> string, first: int, last: int)
    requires IsoDateFormat(iso)
    ensures IndexIsRight(FixedOffset(offset), iso, first, last)
  {
    FixedOffsetDatesAreDistinct(offset, first, last);
    IndexIsRightIff(FixedOffset(offset), iso, first, last);
  }

  /** UTC up to day 0, which is one hour short because clocks go forward, as in London in March. */
  function SpringForward(): Calendar {
    d => if d <= 0 then d * MS_PER_DAY else d * MS_PER_DAY - MS_PER_HOUR
  }

  /** In such a zone the export of the two days around the change is wrong for some sessions. */
  lemma SpringForwardBreaksIndex(iso: int -> string)
    requires IsoDateFormat(iso)
    ensures !IndexIsRight(SpringForward(), iso, 0, 1)
  {
    SharedUtcDateIff(SpringForward(), 0);
    SharedDateMisleads(SpringForward(), iso, 0, 1, 0);
  }
}
