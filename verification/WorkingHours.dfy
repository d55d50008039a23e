/** Weekly working hours: the seven-day upsert that src/organization/organization.service.ts and
    src/staff/staff.service.ts share, and the schedule lookup of the attendance export. */
module WorkingHours {
  import opened Basics

  datatype Weekday = Monday | Tuesday | Wednesday | Thursday | Friday | Saturday | Sunday

  const ALL_DAYS: seq<Weekday> := [Monday, Tuesday, Wednesday, Thursday, Friday, Saturday, Sunday]

  type OwnerId = string

  datatype Hours = Hours(startsAt: string, endsAt: string, isClosed: bool)

  /** The rows of one kind of owner (organizations or staff members), at most one per owner and weekday. */
  type Rows = map<(OwnerId, Weekday), Hours>

  // ---------- Times of day ----------

  predicate IsDigit(c: char) { '0' <= c <= '9' }

  /** The format that the request validation demands: /^([01]\d|2[0-3]):([0-5]\d)$/ */
  predicate IsTime(s: string) {
    && |s| == 5
    && IsDigit(s[1]) && IsDigit(s[4]) && s[2] == ':'
    && (s[0] == '0' || s[0] == '1' || (s[0] == '2' && s[1] <= '3'))
    && '0' <= s[3] <= '5'
  }

  function Digit(c: char): int { c as int - '0' as int }

  function Minutes(s: string): int
    requires IsTime(s)
  {
    60 * (10 * Digit(s[0]) + Digit(s[1])) + 10 * Digit(s[3]) + Digit(s[4])
  }

  /** JavaScript's `<` on strings. */
  predicate LexLess(a: string, b: string) {
    if a == [] || b == [] then a == [] && b != []
    else if a[0] != b[0] then a[0] < b[0]
    else LexLess(a[1..], b[1..])
  }

  lemma LexLessAt(a: string, b: string, k: nat)
    requires k < |a| && k < |b| && a[..k] == b[..k] && a[k] != b[k]
    ensures LexLess(a, b) <==> a[k] < b[k]
  {
    if k > 0 {
      assert a[0] == a[..k][0] && b[0] == b[..k][0];
      assert a[1..][..k - 1] == a[..k][1..] && b[1..][..k - 1] == b[..k][1..];
      LexLessAt(a[1..], b[1..], k - 1);
    }
  }

  lemma {:induction false} LexIrreflexive(a: string)
    ensures !LexLess(a, a)
  {
    if a != [] {
      LexIrreflexive(a[1..]);
    }
  }

  /** Comparing two HH:mm strings as text compares them as times. */
  lemma TextOrderIsTimeOrder(a: string, b: string)
    requires IsTime(a) && IsTime(b)
    ensures LexLess(a, b) <==> Minutes(a) < Minutes(b)
  {
    if a[0] != b[0] {
      LexLessAt(a, b, 0);
    } else if a[1] != b[1] {
      LexLessAt(a, b, 1);
    } else if a[3] != b[3] {
      LexLessAt(a, b, 3);
    } else if a[4] != b[4] {
      LexLessAt(a, b, 4);
    } else {
      assert a == b;
      LexIrreflexive(a);
    }
  }

  // ---------- The upsert ----------

  datatype Edit = Edit(startsAt: string, endsAt: string, days: seq<Weekday>)

  datatype Result = Success | Refused

  predicate Acceptable(edit: Edit) {
    LexLess(edit.startsAt, edit.endsAt) && edit.days != []
  }

  /** The row of one weekday after an edit, given the row before. */
  function Upserted(before: Option<Hours>, selected: bool, edit: Edit): Hours {
    if selected then Hours(edit.startsAt, edit.endsAt, false)
    else if before.Some? then before.value.(isClosed := true)
    else Hours("09:00", "18:00", true)
  }

  function Row(rows: Rows, owner: OwnerId, day: Weekday): Option<Hours> {
    if (owner, day) in rows then Some(rows[(owner, day)]) else None
  }

  /** `after` is `rows` with the owner's whole week upserted and everybody else's rows as they were. */
  ghost predicate IsWeekUpsert(rows: Rows, after: Rows, owner: OwnerId, edit: Edit) {
    && (forall day :: Row(after, owner, day) == Some(Upserted(Row(rows, owner, day), day in edit.days, edit)))
    && (forall other, day :: other != owner ==> Row(after, other, day) == Row(rows, other, day))
  }

  /** The loop over the seven weekdays. */
  method UpsertWeek(rows: Rows, owner: OwnerId, edit: Edit) returns (after: Rows)
    ensures IsWeekUpsert(rows, after, owner, edit)
  {
    after := rows;
    for n := 0 to |ALL_DAYS|
      invariant forall i :: 0 <= i < n ==>
        Row(after, owner, ALL_DAYS[i]) == Some(Upserted(Row(rows, owner, ALL_DAYS[i]), ALL_DAYS[i] in edit.days, edit))
      invariant forall i :: n <= i < |ALL_DAYS| ==> Row(after, owner, ALL_DAYS[i]) == Row(rows, owner, ALL_DAYS[i])
      invariant forall other, day :: other != owner ==> Row(after, other, day) == Row(rows, other, day)
    {
      var day := ALL_DAYS[n];
      var isSelected := day in edit.days;
      if (owner, day) in after {
        var row := after[(owner, day)].(isClosed := !isSelected);
        if isSelected {
          row := row.(startsAt := edit.startsAt, endsAt := edit.endsAt);
        }
        after := after[(owner, day) := row];
      } else {
        after := after[(owner, day) := Hours(if isSelected then edit.startsAt else "09:00",
                                             if isSelected then edit.endsAt else "18:00",
                                             !isSelected)];
      }
    }
    forall day
      ensures Row(after, owner, day) == Some(Upserted(Row(rows, owner, day), day in edit.days, edit))
    {
      AllDaysListed(day);
    }
  }

  lemma AllDaysListed(day: Weekday)
    ensures exists i :: 0 <= i < |ALL_DAYS| && ALL_DAYS[i] == day
  {
    assert ALL_DAYS[0] == Monday && ALL_DAYS[1] == Tuesday && ALL_DAYS[2] == Wednesday && ALL_DAYS[3] == Thursday
        && ALL_DAYS[4] == Friday && ALL_DAYS[5] == Saturday && ALL_DAYS[6] == Sunday;
  }

  class OrganizationService {
    var hours: Rows

    constructor ()
      ensures hours == map[]
    {
      hours := map[];
    }

    /** The working-hours part of editOrganizationDetails. */
    method EditWorkingHours(owner: OwnerId, edit: Edit) returns (r: Result)
      modifies this
      ensures Acceptable(edit) ==> r == Success && IsWeekUpsert(old(hours), hours, owner, edit)
      ensures !Acceptable(edit) ==> r == Refused && hours == old(hours)
    {
      if !LexLess(edit.startsAt, edit.endsAt) {
        return Refused;
      }
      if |edit.days| == 0 {
        return Refused;
      }
      hours := UpsertWeek(hours, owner, edit);
      r := Success;
    }
  }

  // ---------- Runs of edits ----------

  /** `table` is the history of a table: every edit was accepted and upserted, or refused and ignored. */
  ghost predicate IsHistory(table: seq<Rows>, edits: seq<(OwnerId, Edit)>) {
    && |table| == |edits| + 1
    && table[0] == map[]
    && forall i :: 0 <= i < |edits| ==>
         if Acceptable(edits[i].1) then IsWeekUpsert(table[i], table[i + 1], edits[i].0, edits[i].1)
         else table[i + 1] == table[i]
  }

  ghost predicate Validated(edits: seq<(OwnerId, Edit)>) {
    forall i :: 0 <= i < |edits| ==> IsTime(edits[i].1.startsAt) && IsTime(edits[i].1.endsAt)
  }

  /** The owner's last accepted edit. */
  ghost function LastEdit(edits: seq<(OwnerId, Edit)>, owner: OwnerId): Option<Edit> {
    if edits == [] then None
    else
      var (who, edit) := edits[|edits| - 1];
      if who == owner && Acceptable(edit) then Some(edit) else LastEdit(edits[..|edits| - 1], owner)
  }

  ghost predicate RowOk(row: Hours) {
    IsTime(row.startsAt) && IsTime(row.endsAt) && Minutes(row.startsAt) < Minutes(row.endsAt)
  }

  /** The row of one weekday of an owner whose last accepted edit is `last`. */
  ghost predicate DayOk(row: Option<Hours>, last: Option<Edit>, day: Weekday) {
    match last
    case None => row.None?
    case Some(edit) =>
      && row.Some? && RowOk(row.value)
      && (row.value.isClosed <==> day !in edit.days)
      && (day in edit.days ==> row.value == Hours(edit.startsAt, edit.endsAt, false))
  }

  ghost predicate WeekOk(rows: Rows, owner: OwnerId, last: Option<Edit>) {
    forall day :: DayOk(Row(rows, owner, day), last, day)
  }

  lemma UpsertedIsOk(before: Option<Hours>, last: Option<Edit>, day: Weekday, edit: Edit)
    requires DayOk(before, last, day)
    requires Acceptable(edit) && IsTime(edit.startsAt) && IsTime(edit.endsAt)
    ensures DayOk(Some(Upserted(before, day in edit.days, edit)), Some(edit), day)
  {
    TextOrderIsTimeOrder(edit.startsAt, edit.endsAt);
    assert RowOk(Hours("09:00", "18:00", true));
  }

  lemma UpsertKeepsWeekOk(rows: Rows, after: Rows, editor: OwnerId, edit: Edit, owner: OwnerId, last: Option<Edit>)
    requires WeekOk(rows, owner, last) && IsWeekUpsert(rows, after, editor, edit)
    requires Acceptable(edit) && IsTime(edit.startsAt) && IsTime(edit.endsAt)
    ensures WeekOk(after, owner, if editor == owner then Some(edit) else last)
  {
    forall day ensures DayOk(Row(after, owner, day), if editor == owner then Some(edit) else last, day) {
      assert DayOk(Row(rows, owner, day), last, day);
      if editor == owner {
        assert Row(after, owner, day) == Some(Upserted(Row(rows, owner, day), day in edit.days, edit));
        UpsertedIsOk(Row(rows, owner, day), last, day, edit);
      } else {
        assert Row(after, owner, day) == Row(rows, owner, day);
      }
    }
  }

  lemma HistoryPrefix(table: seq<Rows>, edits: seq<(OwnerId, Edit)>)
    requires IsHistory(table, edits) && edits != []
    ensures var n := |edits| - 1;
      && IsHistory(table[..n + 1], edits[..n]) && table[..n + 1][n] == table[n]
      && (Validated(edits) ==> Validated(edits[..n]))
  {
    var n := |edits| - 1;
    assert IsHistory(table[..n + 1], edits[..n]);
  }

  /** After any run of edits an owner has no rows or exactly one per weekday, closed exactly on the
      days that the last accepted edit did not select, and every row starts before it ends. */
  lemma {:induction false} HistoryKeepsWeekOk(table: seq<Rows>, edits: seq<(OwnerId, Edit)>, owner: OwnerId)
    requires IsHistory(table, edits) && Validated(edits)
    ensures WeekOk(table[|edits|], owner, LastEdit(edits, owner))
  {
    if edits != [] {
      var n := |edits| - 1;
      var init := edits[..n];
      HistoryPrefix(table, edits);
      HistoryKeepsWeekOk(table[..n + 1], init, owner);
      if Acceptable(edits[n].1) {
        assert IsWeekUpsert(table[n], table[n + 1], edits[n].0, edits[n].1);
        UpsertKeepsWeekOk(table[n], table[n + 1], edits[n].0, edits[n].1, owner, LastEdit(init, owner));
      } else {
        assert table[n + 1] == table[n];
      }
    }
  }

  /** The times of the last accepted edit that selected the day, or the times of a row that was created closed. */
  ghost function LastTimes(edits: seq<(OwnerId, Edit)>, owner: OwnerId, day: Weekday): (string, string) {
    if edits == [] then ("09:00", "18:00")
    else
      var (who, edit) := edits[|edits| - 1];
      if who == owner && Acceptable(edit) && day in edit.days then (edit.startsAt, edit.endsAt)
      else LastTimes(edits[..|edits| - 1], owner, day)
  }

  /** The history determines every row: whether it is open depends on the last accepted edit, its
      times on the last one that selected its day. */
  lemma {:induction false} HistoryDeterminesRow(table: seq<Rows>, edits: seq<(OwnerId, Edit)>, owner: OwnerId,
                                                day: Weekday)
    requires IsHistory(table, edits)
    ensures Row(table[|edits|], owner, day) ==
              match LastEdit(edits, owner)
              case None => None
              case Some(last) =>
                Some(Hours(LastTimes(edits, owner, day).0, LastTimes(edits, owner, day).1, day !in last.days))
  {
    if edits != [] {
      var n := |edits| - 1;
      var init := edits[..n];
      HistoryPrefix(table, edits);
      HistoryDeterminesRow(table[..n + 1], init, owner, day);
      NeverEdited(init, owner, day);
      if Acceptable(edits[n].1) {
        assert IsWeekUpsert(table[n], table[n + 1], edits[n].0, edits[n].1);
      } else {
        assert table[n + 1] == table[n];
      }
    }
  }

  lemma {:induction false} NeverEdited(edits: seq<(OwnerId, Edit)>, owner: OwnerId, day: Weekday)
    ensures LastEdit(edits, owner).None? ==> LastTimes(edits, owner, day) == ("09:00", "18:00")
  {
    if edits != [] {
      NeverEdited(edits[..|edits| - 1], owner, day);
    }
  }

  // ---------- The schedule of a day ----------

  /** `getScheduleFor`: the member's own rows if there are any, else the organization's. */
  function ScheduleFor(staffRows: Rows, orgRows: Rows, staffId: OwnerId, orgId: OwnerId, day: Weekday): Option<Hours> {
    if exists d :: (staffId, d) in staffRows then Row(staffRows, staffId, day) else Row(orgRows, orgId, day)
  }

  /** A member who was ever given working hours is scheduled by the last such edit on every day, with its
      times on the days it selects; any other by the organization's; and no day is without a schedule
      unless neither has any hours. */
  lemma ScheduleFollowsLastEdit(staffRows: Rows, orgRows: Rows, staffId: OwnerId, orgId: OwnerId,
                                staffLast: Option<Edit>, orgLast: Option<Edit>, day: Weekday)
    requires WeekOk(staffRows, staffId, staffLast) && WeekOk(orgRows, orgId, orgLast)
    ensures var schedule := ScheduleFor(staffRows, orgRows, staffId, orgId, day);
      var last := if staffLast.Some? then staffLast else orgLast;
      match last
      case None => schedule.None?
      case Some(edit) =>
        && schedule.Some? && RowOk(schedule.value)
        && (schedule.value.isClosed <==> day !in edit.days)
        && (day in edit.days ==> schedule.value.startsAt == edit.startsAt && schedule.value.endsAt == edit.endsAt)
  {
    assert staffLast.Some? ==> Row(staffRows, staffId, day).Some?;
    assert forall d :: (staffId, d) in staffRows ==> Row(staffRows, staffId, d).Some?;
  }

  /** On a closed day the schedule has the times of the last edit that selected the day, or 09:00 to 18:00. */
  lemma ScheduleFollowsHistory(staffTable: seq<Rows>, staffEdits: seq<(OwnerId, Edit)>, orgTable: seq<Rows>,
                               orgEdits: seq<(OwnerId, Edit)>, staffId: OwnerId, orgId: OwnerId, day: Weekday)
    requires IsHistory(staffTable, staffEdits) && IsHistory(orgTable, orgEdits)
    ensures var schedule := ScheduleFor(staffTable[|staffEdits|], orgTable[|orgEdits|], staffId, orgId, day);
      var own := LastEdit(staffEdits, staffId).Some?;
      var (edits, owner) := if own then (staffEdits, staffId) else (orgEdits, orgId);
      var last, times := LastEdit(edits, owner), LastTimes(edits, owner, day);
      schedule == if last.Some? then Some(Hours(times.0, times.1, day !in last.value.days)) else None
  {
    var staffRows := staffTable[|staffEdits|];
    HistoryDeterminesRow(orgTable, orgEdits, orgId, day);
    forall d ensures (staffId, d) in staffRows <==> LastEdit(staffEdits, staffId).Some? {
      HistoryDeterminesRow(staffTable, staffEdits, staffId, d);
      assert (staffId, d) in staffRows <==> Row(staffRows, staffId, d).Some?;
    }
    HistoryDeterminesRow(staffTable, staffEdits, staffId, day);
    assert LastEdit(staffEdits, staffId).Some? ==> (staffId, day) in staffRows;
  }

  /** An edit with well-formed times is accepted exactly if it starts before it ends and selects a day. */
  lemma AcceptableIff(edit: Edit)
    requires IsTime(edit.startsAt) && IsTime(edit.endsAt)
    ensures Acceptable(edit) <==>
              Minutes(edit.startsAt) < Minutes(edit.endsAt) && exists day :: day in edit.days
  {
    TextOrderIsTimeOrder(edit.startsAt, edit.endsAt);
    assert edit.days != [] ==> edit.days[0] in edit.days;
  }
}
