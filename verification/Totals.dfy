/** The time accounting of src/attendance/attendance.service.ts: `recalcTotals`, and the second
    copy of the same loop, `recalcTotalsLocal`, that the Excel export uses.

    The specification does not mention the loops. It says which whole seconds of the timeline
    count as work and which as break, and the totals are the sizes of those two sets. */
module Totals {
  import opened Basics
  import opened Sorting

  datatype EventType = PunchIn | PunchOut | BreakStart | BreakEnd | LatePunchOut {
    /** The two events after which the employee is working. */
    predicate StartsWork() { PunchIn? || BreakEnd? }

    predicate IsOut() { PunchOut? || LatePunchOut? }
  }

  /** An attendance event; the time is in milliseconds since the epoch, as in a JavaScript Date. */
  datatype Event = Event(kind: EventType, timestamp: int)

  function Timestamp(e: Event): int { e.timestamp }

  /** The whole second in which an event falls. */
  function Second(e: Event): int { e.timestamp / 1000 }

  function FloorToSecond(t: int): (r: int)
    ensures r % 1000 == 0 && r <= t < r + 1000
  {
    t / 1000 * 1000
  }

  function FloorEvent(e: Event): (r: Event)
    ensures r.kind == e.kind && Second(r) == Second(e) && r.timestamp == 1000 * Second(r)
  {
    e.(timestamp := FloorToSecond(e.timestamp))
  }

  function Floored(events: seq<Event>): (r: seq<Event>)
    ensures |r| == |events|
    ensures forall i :: 0 <= i < |r| ==> r[i] == FloorEvent(events[i])
  {
    Map(FloorEvent, events)
  }

  /** The list both loops run over. */
  function Timeline(events: seq<Event>): seq<Event> {
    Sort(Timestamp, Floored(events))
  }

  /** `orderBy: { timestamp: 'asc' }` */
  ghost predicate ListingRead(events: seq<Event>, listed: seq<Event>) {
    multiset(listed) == multiset(events) && Sorted(Timestamp, listed)
  }

  // ---------- Which seconds count ----------

  datatype Activity = Work | Break {
    predicate StartedBy(kind: EventType) {
      if Work? then kind.StartsWork() else kind.BreakStart?
    }
  }

  /** Seconds from `lo` up to but not including `hi`. */
  ghost function Span(lo: int, hi: int): (r: set<int>)
    ensures forall t :: t in r <==> lo <= t < hi
    ensures |r| == if lo <= hi then hi - lo else 0
    decreases hi - lo
  {
    if lo < hi then Span(lo, hi - 1) + {hi - 1} else {}
  }

  /** Second `t` lies between event `i`, which starts the activity, and its successor, which does not. */
  ghost predicate Counts(activity: Activity, line: seq<Event>, i: int, t: int) {
    && 0 <= i < |line| - 1
    && activity.StartedBy(line[i].kind) && !activity.StartedBy(line[i + 1].kind)
    && Second(line[i]) <= t < Second(line[i + 1])
  }

  ghost predicate Counted(activity: Activity, line: seq<Event>, t: int) {
    exists i :: Counts(activity, line, i, t)
  }

  /** All seconds of a timeline that count for an activity. */
  ghost function SecondsIn(activity: Activity, line: seq<Event>): set<int> {
    if line == [] then {}
    else set t | t in Span(Second(line[0]), Second(line[|line| - 1])) && Counted(activity, line, t)
  }

  ghost function Total(activity: Activity, events: seq<Event>): nat {
    |SecondsIn(activity, Timeline(events))|
  }

  // ---------- The accumulator loops ----------

  lemma CountsInPrefix(activity: Activity, line: seq<Event>, n: nat, i: int, t: int)
    requires 0 < n < |line|
    ensures Counts(activity, line[..n + 1], i, t)
        <==> Counts(activity, line[..n], i, t) || (i == n - 1 && Counts(activity, line, n - 1, t))
  {
    var before, after := line[..n], line[..n + 1];
    if 0 <= i < n - 1 {
      assert after[i] == before[i] && after[i + 1] == before[i + 1];
    }
  }

  lemma CountsInSpan(activity: Activity, line: seq<Event>, i: int, t: int)
    requires Sorted(Timestamp, line) && Counts(activity, line, i, t)
    ensures Second(line[0]) <= t < Second(line[|line| - 1])
  {
    assert 0 < i ==> Timestamp(line[0]) <= Timestamp(line[i]);
    assert i + 1 < |line| - 1 ==> Timestamp(line[i + 1]) <= Timestamp(line[|line| - 1]);
  }

  lemma InSecondsIn(activity: Activity, line: seq<Event>, t: int)
    requires Sorted(Timestamp, line)
    ensures t in SecondsIn(activity, line) <==> Counted(activity, line, t)
  {
    if i :| Counts(activity, line, i, t) {
      CountsInSpan(activity, line, i, t);
    }
  }

  lemma CountedStep(activity: Activity, line: seq<Event>, n: nat, t: int)
    requires 0 < n < |line| && Sorted(Timestamp, line)
    ensures Counted(activity, line[..n + 1], t) <==> Counted(activity, line[..n], t) || Counts(activity, line, n - 1, t)
    ensures !(Counted(activity, line[..n], t) && Counts(activity, line, n - 1, t))
  {
    var before, after := line[..n], line[..n + 1];
    if i :| Counts(activity, after, i, t) {
      CountsInPrefix(activity, line, n, i, t);
    }
    if i :| Counts(activity, before, i, t) {
      CountsInPrefix(activity, line, n, i, t);
      CountsInSpan(activity, before, i, t);
    }
    CountsInPrefix(activity, line, n, n - 1, t);
  }

  /** Seconds that event `n` adds: those since the event before it, or none. */
  ghost function Added(activity: Activity, line: seq<Event>, n: nat): set<int>
    requires 0 < n < |line|
  {
    if activity.StartedBy(line[n - 1].kind) && !activity.StartedBy(line[n].kind)
    then Span(Second(line[n - 1]), Second(line[n])) else {}
  }

  lemma SecondsInGrows(activity: Activity, line: seq<Event>, n: nat, t: int)
    requires 0 < n < |line| && Sorted(Timestamp, line)
    ensures t in SecondsIn(activity, line[..n + 1])
       <==> t in SecondsIn(activity, line[..n]) || t in Added(activity, line, n)
    ensures !(t in SecondsIn(activity, line[..n]) && t in Added(activity, line, n))
  {
    InSecondsIn(activity, line[..n], t);
    InSecondsIn(activity, line[..n + 1], t);
    CountedStep(activity, line, n, t);
    assert t in Added(activity, line, n) <==> Counts(activity, line, n - 1, t);
  }

  /** What the loop has accumulated after `n` events. */
  ghost function Accumulated(activity: Activity, line: seq<Event>, n: nat): int
    requires n <= |line|
  {
    if n <= 1 then 0
    else if activity.StartedBy(line[n - 2].kind) && !activity.StartedBy(line[n - 1].kind)
      then Accumulated(activity, line, n - 1) + Second(line[n - 1]) - Second(line[n - 2])
    else Accumulated(activity, line, n - 1)
  }

  lemma SecondsInStep(activity: Activity, line: seq<Event>, n: nat)
    requires 0 < n < |line| && Sorted(Timestamp, line)
    ensures |SecondsIn(activity, line[..n + 1])| == |SecondsIn(activity, line[..n])| + |Added(activity, line, n)|
  {
    var before, after := SecondsIn(activity, line[..n]), SecondsIn(activity, line[..n + 1]);
    var added := Added(activity, line, n);
    assert after == before + added && before * added == {} by {
      forall t
        ensures t in after <==> t in before || t in added
        ensures !(t in before && t in added)
      {
        SecondsInGrows(activity, line, n, t);
      }
    }
  }

  lemma AddedSize(activity: Activity, line: seq<Event>, n: nat)
    requires 0 < n < |line| && Sorted(Timestamp, line)
    ensures Accumulated(activity, line, n + 1) == Accumulated(activity, line, n) + |Added(activity, line, n)|
  {
    assert Timestamp(line[n - 1]) <= Timestamp(line[n]);
  }

  lemma NoneInFirst(activity: Activity, line: seq<Event>)
    requires line != []
    ensures SecondsIn(activity, line[..1]) == {}
  {
  }

  lemma {:induction false} AccumulatedCounts(activity: Activity, line: seq<Event>, n: nat)
    requires 0 < n <= |line| && Sorted(Timestamp, line)
    ensures Accumulated(activity, line, n) == |SecondsIn(activity, line[..n])|
  {
    if n == 1 {
      NoneInFirst(activity, line);
    } else {
      AccumulatedCounts(activity, line, n - 1);
      AddedSize(activity, line, n - 1);
      SecondsInStep(activity, line, n - 1);
    }
  }

  lemma TimelineFacts(events: seq<Event>)
    ensures |Timeline(events)| == |events|
    ensures Sorted(Timestamp, Timeline(events))
    ensures forall i :: 0 <= i < |events| ==> Timeline(events)[i].timestamp == 1000 * Second(Timeline(events)[i])
  {
    SortPermutes(Timestamp, Floored(events));
    forall i | 0 <= i < |events|
      ensures Timeline(events)[i].timestamp == 1000 * Second(Timeline(events)[i])
    {
      assert Timeline(events)[i] in multiset(Floored(events));
    }
  }

  lemma AllAccumulated(activity: Activity, events: seq<Event>)
    ensures Accumulated(activity, Timeline(events), |Timeline(events)|) == Total(activity, events)
  {
    var line := Timeline(events);
    TimelineFacts(events);
    if line != [] {
      AccumulatedCounts(activity, line, |line|);
      assert line[..|line|] == line;
    }
  }

  /** The difference of two floored times in seconds; no rounding happens. */
  function SecondsBetween(start: int, end: int): (r: int)
    ensures start % 1000 == 0 && end % 1000 == 0 ==> 1000 * r == end - start && r == end / 1000 - start / 1000
  {
    (end - start) / 1000
  }

  method RecalcTotals(events: seq<Event>) returns (totalWorkSeconds: int, totalBreakSeconds: int)
    ensures totalWorkSeconds == Total(Work, events)
    ensures totalBreakSeconds == Total(Break, events)
  {
    if |events| == 0 {
      return 0, 0;
    }
    var sorted := Timeline(events);
    TimelineFacts(events);
    totalWorkSeconds, totalBreakSeconds := 0, 0;
    var currentWorkStart: Option<int> := None;
    var currentBreakStart: Option<int> := None;
    for n := 0 to |sorted|
      invariant totalWorkSeconds == Accumulated(Work, sorted, n)
      invariant totalBreakSeconds == Accumulated(Break, sorted, n)
      invariant currentWorkStart == if 0 < n && sorted[n - 1].kind.StartsWork()
                                  then Some(sorted[n - 1].timestamp) else None
      invariant currentBreakStart == if 0 < n && sorted[n - 1].kind.BreakStart?
                                  then Some(sorted[n - 1].timestamp) else None
    {
      var e := sorted[n];
      match e.kind {
        case PunchIn | BreakEnd =>
          if currentBreakStart.Some? {
            totalBreakSeconds := totalBreakSeconds + SecondsBetween(currentBreakStart.value, e.timestamp);
          }
          currentBreakStart := None;
          currentWorkStart := Some(e.timestamp);
        case BreakStart =>
          if currentWorkStart.Some? {
            totalWorkSeconds := totalWorkSeconds + SecondsBetween(currentWorkStart.value, e.timestamp);
            currentWorkStart := None;
          }
          currentBreakStart := Some(e.timestamp);
        case PunchOut | LatePunchOut =>
          if currentBreakStart.Some? {
            totalBreakSeconds := totalBreakSeconds + SecondsBetween(currentBreakStart.value, e.timestamp);
            currentBreakStart := None;
          } else if currentWorkStart.Some? {
            totalWorkSeconds := totalWorkSeconds + SecondsBetween(currentWorkStart.value, e.timestamp);
            currentWorkStart := None;
          }
      }
    }
    AllAccumulated(Work, events);
    AllAccumulated(Break, events);
  }

  /** The export's copy: no shortcut for the empty list, and the break start is cleared in the guard. */
  method RecalcTotalsLocal(events: seq<Event>) returns (totalWorkSeconds: int, totalBreakSeconds: int)
    ensures totalWorkSeconds == Total(Work, events)
    ensures totalBreakSeconds == Total(Break, events)
  {
    totalWorkSeconds, totalBreakSeconds := 0, 0;
    var currentWorkStart: Option<int> := None;
    var currentBreakStart: Option<int> := None;
    var sorted := Timeline(events);
    TimelineFacts(events);
    for n := 0 to |sorted|
      invariant totalWorkSeconds == Accumulated(Work, sorted, n)
      invariant totalBreakSeconds == Accumulated(Break, sorted, n)
      invariant currentWorkStart == if 0 < n && sorted[n - 1].kind.StartsWork()
                                  then Some(sorted[n - 1].timestamp) else None
      invariant currentBreakStart == if 0 < n && sorted[n - 1].kind.BreakStart?
                                  then Some(sorted[n - 1].timestamp) else None
    {
      var e := sorted[n];
      match e.kind {
        case PunchIn | BreakEnd =>
          if currentBreakStart.Some? {
            totalBreakSeconds := totalBreakSeconds + SecondsBetween(currentBreakStart.value, e.timestamp);
            currentBreakStart := None;
          }
          currentWorkStart := Some(e.timestamp);
        case BreakStart =>
          if currentWorkStart.Some? {
            totalWorkSeconds := totalWorkSeconds + SecondsBetween(currentWorkStart.value, e.timestamp);
            currentWorkStart := None;
          }
          currentBreakStart := Some(e.timestamp);
        case PunchOut | LatePunchOut =>
          if currentBreakStart.Some? {
            totalBreakSeconds := totalBreakSeconds + SecondsBetween(currentBreakStart.value, e.timestamp);
            currentBreakStart := None;
          } else if currentWorkStart.Some? {
            totalWorkSeconds := totalWorkSeconds + SecondsBetween(currentWorkStart.value, e.timestamp);
            currentWorkStart := None;
          }
      }
    }
    AllAccumulated(Work, events);
    AllAccumulated(Break, events);
  }

  // ---------- What the totals mean ----------

  /** Event `i` is the latest one at second `t`. */
  ghost predicate LatestAt(line: seq<Event>, i: int, t: int) {
    0 <= i < |line| && Second(line[i]) <= t && forall j :: i < j < |line| ==> t < Second(line[j])
  }

  /** At second `t` the latest event started the activity. */
  ghost predicate ActiveAt(activity: Activity, line: seq<Event>, t: int) {
    exists i :: LatestAt(line, i, t) && activity.StartedBy(line[i].kind)
  }

  ghost function ActiveSeconds(activity: Activity, line: seq<Event>): set<int>
    requires line != []
  {
    set t | t in Span(Second(line[0]), Second(line[|line| - 1])) && ActiveAt(activity, line, t)
  }

  /** PUNCH_IN, then BREAK_START and BREAK_END in turn, then one out-event. */
  ghost predicate InProtocolOrder(events: seq<Event>) {
    && 2 <= |events|
    && events[0].kind.PunchIn?
    && events[|events| - 1].kind.IsOut()
    && (forall i :: 0 < i < |events| - 1 ==> events[i].kind == if i % 2 == 1 then BreakStart else BreakEnd)
  }

  /** Between any two neighbours that are at least a second apart one of the activities runs. */
  ghost predicate Gapless(line: seq<Event>) {
    forall i :: 0 <= i < |line| - 1 && Second(line[i]) < Second(line[i + 1]) ==>
      Counts(Work, line, i, Second(line[i])) || Counts(Break, line, i, Second(line[i]))
  }

  lemma {:induction false} LatestExists(line: seq<Event>, t: int) returns (i: int)
    requires line != [] && Second(line[0]) <= t
    ensures LatestAt(line, i, t)
  {
    i := |line| - 1;
    while t < Second(line[i])
      invariant 0 <= i < |line|
      invariant forall j :: i < j < |line| ==> t < Second(line[j])
      decreases i
    {
      i := i - 1;
    }
  }

  lemma CountsOnlyInOwnGap(activity: Activity, line: seq<Event>, i: int, j: int, t: int)
    requires Sorted(Timestamp, line)
    requires LatestAt(line, i, t) && Counts(activity, line, j, t)
    ensures i == j
  {
    assert j + 1 < i ==> Timestamp(line[j + 1]) <= Timestamp(line[i]);
  }

  lemma SecondsInOrder(line: seq<Event>)
    requires Sorted(Timestamp, line)
    ensures forall i, j :: 0 <= i <= j < |line| ==> Second(line[i]) <= Second(line[j])
  {
    forall i, j | 0 <= i < j < |line|
      ensures Second(line[i]) <= Second(line[j])
    {
      assert Timestamp(line[i]) <= Timestamp(line[j]);
    }
  }

  lemma NeverBoth(line: seq<Event>, t: int)
    requires Sorted(Timestamp, line)
    ensures !(Counted(Work, line, t) && Counted(Break, line, t))
  {
    SecondsInOrder(line);
    forall i, j | Counts(Work, line, i, t) && Counts(Break, line, j, t)
      ensures i == j
    {
    }
  }

  lemma SumOfTotals(line: seq<Event>)
    requires line != [] && Sorted(Timestamp, line)
    ensures |SecondsIn(Work, line)| + |SecondsIn(Break, line)| == |SecondsIn(Work, line) + SecondsIn(Break, line)|
    ensures SecondsIn(Work, line) + SecondsIn(Break, line) <= Span(Second(line[0]), Second(line[|line| - 1]))
  {
    forall t
      ensures !(t in SecondsIn(Work, line) && t in SecondsIn(Break, line))
    {
      NeverBoth(line, t);
      InSecondsIn(Work, line, t);
      InSecondsIn(Break, line, t);
    }
    assert SecondsIn(Work, line) * SecondsIn(Break, line) == {};
  }

  /** The totals never exceed the time from the earliest to the latest event, in any order and of any types. */
  lemma TotalsWithinSpan(events: seq<Event>, lo: int, hi: int)
    requires events != []
    requires forall e :: e in events ==> lo <= Second(e) <= hi
    ensures Total(Work, events) + Total(Break, events) <= hi - lo
  {
    var line := Timeline(events);
    TimelineFacts(events);
    SumOfTotals(line);
    forall i | 0 <= i < |line|
      ensures lo <= Second(line[i]) <= hi
    {
      SortPermutes(Timestamp, Floored(events));
      assert line[i] in multiset(Floored(events));
      var k :| 0 <= k < |events| && Floored(events)[k] == line[i];
      assert events[k] in events;
    }
    assert Timestamp(line[0]) <= Timestamp(line[|line| - 1]) || |line| == 1;
    SubsetSize(SecondsIn(Work, line) + SecondsIn(Break, line), Span(Second(line[0]), Second(line[|line| - 1])));
  }

  lemma GapLosesTime(line: seq<Event>, i: int)
    requires Sorted(Timestamp, line)
    requires 0 <= i < |line| - 1 && Second(line[i]) < Second(line[i + 1])
    requires !Counts(Work, line, i, Second(line[i])) && !Counts(Break, line, i, Second(line[i]))
    ensures !Counted(Work, line, Second(line[i])) && !Counted(Break, line, Second(line[i]))
  {
    var t := Second(line[i]);
    assert LatestAt(line, i, t) by {
      forall j | i < j < |line| ensures t < Second(line[j]) {
        assert Timestamp(line[i + 1]) <= Timestamp(line[j]) || i + 1 == j;
      }
    }
    forall activity, j | Counts(activity, line, j, t) ensures i == j {
      CountsOnlyInOwnGap(activity, line, i, j, t);
    }
  }

  lemma GaplessCountsAll(line: seq<Event>, t: int)
    requires line != [] && Sorted(Timestamp, line) && Gapless(line)
    requires Second(line[0]) <= t < Second(line[|line| - 1])
    ensures Counted(Work, line, t) || Counted(Break, line, t)
  {
    var i := LatestExists(line, t);
    assert i < |line| - 1;
    assert Second(line[i]) < Second(line[i + 1]);
    if Counts(Work, line, i, Second(line[i])) {
      assert Counts(Work, line, i, t);
    } else {
      assert Counts(Break, line, i, Second(line[i]));
      assert Counts(Break, line, i, t);
    }
  }

  /** Exactly when no time is lost: work and break together fill the whole span. */
  lemma TotalsFillSpanIffGapless(events: seq<Event>)
    requires events != []
    ensures |Timeline(events)| == |events|
    ensures Total(Work, events) + Total(Break, events)
        == Second(Timeline(events)[|events| - 1]) - Second(Timeline(events)[0])
       <==> Gapless(Timeline(events))
  {
    var line := Timeline(events);
    TimelineFacts(events);
    SumOfTotals(line);
    SecondsInOrder(line);
    SubsetSize(SecondsIn(Work, line) + SecondsIn(Break, line), Span(Second(line[0]), Second(line[|line| - 1])));
    SpanFilledIffGapless(line);
  }

  lemma SpanFilledIffGapless(line: seq<Event>)
    requires line != [] && Sorted(Timestamp, line)
    ensures SecondsIn(Work, line) + SecondsIn(Break, line) == Span(Second(line[0]), Second(line[|line| - 1]))
       <==> Gapless(line)
  {
    SumOfTotals(line);
    if Gapless(line) {
      GaplessFillsSpan(line);
    } else {
      var t := LostSecond(line);
    }
  }

  lemma GaplessFillsSpan(line: seq<Event>)
    requires line != [] && Sorted(Timestamp, line) && Gapless(line)
    ensures Span(Second(line[0]), Second(line[|line| - 1])) <= SecondsIn(Work, line) + SecondsIn(Break, line)
  {
    forall t | t in Span(Second(line[0]), Second(line[|line| - 1]))
      ensures t in SecondsIn(Work, line) || t in SecondsIn(Break, line)
    {
      GaplessCountsAll(line, t);
    }
  }

  lemma LostSecond(line: seq<Event>) returns (t: int)
    requires line != [] && Sorted(Timestamp, line) && !Gapless(line)
    ensures t in Span(Second(line[0]), Second(line[|line| - 1]))
    ensures t !in SecondsIn(Work, line) && t !in SecondsIn(Break, line)
  {
    SecondsInOrder(line);
    var i :| 0 <= i < |line| - 1 && Second(line[i]) < Second(line[i + 1])
             && !Counts(Work, line, i, Second(line[i])) && !Counts(Break, line, i, Second(line[i]));
    GapLosesTime(line, i);
    t := Second(line[i]);
  }

  lemma ProtocolSuccessor(events: seq<Event>, i: int)
    requires InProtocolOrder(events) && 0 <= i < |events| - 1
    ensures events[i].kind.StartsWork() <==> !events[i].kind.BreakStart?
    ensures events[i].kind.StartsWork() ==> !events[i + 1].kind.StartsWork()
    ensures events[i].kind.BreakStart? ==> !events[i + 1].kind.BreakStart?
  {
  }

  lemma FlooredInOrder(events: seq<Event>)
    requires Sorted(Timestamp, events)
    ensures Sorted(Timestamp, Floored(events)) && Timeline(events) == Floored(events)
  {
    var floored := Floored(events);
    forall i, j | 0 <= i < j < |events| ensures Timestamp(floored[i]) <= Timestamp(floored[j]) {
      assert Timestamp(events[i]) <= Timestamp(events[j]);
    }
    SortedIsFixpoint(Timestamp, floored);
  }

  lemma ProtocolTimeline(events: seq<Event>)
    requires InProtocolOrder(events)
    ensures InProtocolOrder(Floored(events))
  {
    var floored := Floored(events);
    assert floored[0].kind == events[0].kind;
    assert floored[|events| - 1].kind == events[|events| - 1].kind;
  }

  lemma ProtocolGapless(line: seq<Event>)
    requires InProtocolOrder(line)
    ensures Gapless(line)
  {
    forall i | 0 <= i < |line| - 1 && Second(line[i]) < Second(line[i + 1])
      ensures Counts(Work, line, i, Second(line[i])) || Counts(Break, line, i, Second(line[i]))
    {
      ProtocolSuccessor(line, i);
    }
  }

  lemma ProtocolCounted(activity: Activity, line: seq<Event>, t: int)
    requires InProtocolOrder(line) && Sorted(Timestamp, line)
    requires Second(line[0]) <= t < Second(line[|line| - 1])
    ensures Counted(activity, line, t) <==> ActiveAt(activity, line, t)
  {
    var i := LatestExists(line, t);
    ProtocolSuccessor(line, i);
    assert activity.StartedBy(line[i].kind) ==> Counts(activity, line, i, t);
    if j :| Counts(activity, line, j, t) {
      CountsOnlyInOwnGap(activity, line, i, j, t);
    }
    forall j | LatestAt(line, j, t) ensures i == j {
    }
  }

  /** A closed session in protocol order with non-decreasing times is accounted second by second:
      work is the number of seconds whose latest event started work, break the number whose latest
      event started a break, and together they are the floored time from first to last event. */
  lemma ProtocolTotals(events: seq<Event>)
    requires InProtocolOrder(events) && Sorted(Timestamp, events)
    ensures Total(Work, events) == |ActiveSeconds(Work, events)|
    ensures Total(Break, events) == |ActiveSeconds(Break, events)|
    ensures Total(Work, events) + Total(Break, events) == Second(events[|events| - 1]) - Second(events[0])
  {
    FlooredInOrder(events);
    ProtocolTimeline(events);
    ProtocolActive(Work, events);
    ProtocolActive(Break, events);
    ProtocolGapless(Floored(events));
    TotalsFillSpanIffGapless(events);
  }

  lemma ProtocolActive(activity: Activity, events: seq<Event>)
    requires InProtocolOrder(events) && Sorted(Timestamp, events)
    ensures Total(activity, events) == |ActiveSeconds(activity, events)|
  {
    FlooredInOrder(events);
    ProtocolTimeline(events);
    ProtocolSeconds(activity, Floored(events));
    FlooredActiveSeconds(activity, events);
  }

  lemma ProtocolSeconds(activity: Activity, line: seq<Event>)
    requires InProtocolOrder(line) && Sorted(Timestamp, line)
    ensures SecondsIn(activity, line) == ActiveSeconds(activity, line)
  {
    forall t | Second(line[0]) <= t < Second(line[|line| - 1])
      ensures Counted(activity, line, t) <==> ActiveAt(activity, line, t)
    {
      ProtocolCounted(activity, line, t);
    }
  }

  lemma FlooredActiveSeconds(activity: Activity, events: seq<Event>)
    requires events != []
    ensures ActiveSeconds(activity, Floored(events)) == ActiveSeconds(activity, events)
  {
    forall t
      ensures ActiveAt(activity, Floored(events), t) <==> ActiveAt(activity, events, t)
    {
      FlooredActive(activity, events, t);
    }
  }

  lemma FlooredActive(activity: Activity, events: seq<Event>, t: int)
    ensures ActiveAt(activity, Floored(events), t) <==> ActiveAt(activity, events, t)
  {
    var line := Floored(events);
    forall i
      ensures LatestAt(line, i, t) <==> LatestAt(events, i, t)
    {
    }
  }
}
