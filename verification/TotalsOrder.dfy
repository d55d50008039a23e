/** When the order in which events are listed matters to the totals of src/attendance/attendance.service.ts.

    Both accumulators floor the events to seconds and sort them stably, so a listing matters through
    the order of the events within each second. A family of listings is given here by a key: the
    listings sorted by it, in any order of the events that it does not tell apart. */
module TotalsOrder {
  import opened Basics
  import opened Sorting
  import opened Totals

  type Key = Event -> int

  /** The key keeps seconds apart and in order. */
  ghost predicate Refines(key: Key) {
    forall e, f :: key(e) <= key(f) ==> Second(e) <= Second(f)
  }

  ghost function PoolOf(events: seq<Event>): set<Event> {
    set e | e in events
  }

  // ---------- First and last events of a second ----------

  /** No event of the second comes later, or earlier, by the key. */
  ghost predicate IsLast(key: Key, pool: set<Event>, e: Event) {
    e in pool && forall f :: f in pool && Second(f) == Second(e) ==> key(f) <= key(e)
  }

  ghost predicate IsFirst(key: Key, pool: set<Event>, e: Event) {
    e in pool && forall f :: f in pool && Second(f) == Second(e) ==> key(e) <= key(f)
  }

  ghost predicate HasEvent(pool: set<Event>, s: int) {
    exists e :: e in pool && Second(e) == s
  }

  /** Two seconds with events and none between them. */
  ghost predicate Adjacent(pool: set<Event>, s: int, u: int) {
    s < u && HasEvent(pool, s) && HasEvent(pool, u) && forall e :: e in pool ==> Second(e) <= s || u <= Second(e)
  }

  /** In some listing of the family the time from `s` to `u` counts. */
  ghost predicate MayCount(activity: Activity, key: Key, pool: set<Event>, s: int, u: int) {
    && Adjacent(pool, s, u)
    && (exists e :: IsLast(key, pool, e) && Second(e) == s && activity.StartedBy(e.kind))
    && (exists e :: IsFirst(key, pool, e) && Second(e) == u && !activity.StartedBy(e.kind))
  }

  /** In every listing of the family the time from `s` to `u` counts. */
  ghost predicate MustCount(activity: Activity, key: Key, pool: set<Event>, s: int, u: int) {
    && Adjacent(pool, s, u)
    && (forall e :: IsLast(key, pool, e) && Second(e) == s ==> activity.StartedBy(e.kind))
    && (forall e :: IsFirst(key, pool, e) && Second(e) == u ==> !activity.StartedBy(e.kind))
  }

  /** Time that may count by the key `may` must count by the key `must`. */
  ghost predicate Settled(activity: Activity, may: Key, must: Key, pool: set<Event>) {
    forall s, u :: MayCount(activity, may, pool, s, u) ==> MustCount(activity, must, pool, s, u)
  }

  // ---------- One listing ----------

  /** `line` lists the events of `pool` as the key demands. */
  ghost predicate Lists(key: Key, pool: set<Event>, line: seq<Event>) {
    Sorted(key, line) && PoolOf(line) == pool
  }

  lemma LineInOrder(key: Key, line: seq<Event>)
    requires Refines(key) && Sorted(key, line)
    ensures forall i, j :: 0 <= i <= j < |line| ==> key(line[i]) <= key(line[j]) && Second(line[i]) <= Second(line[j])
  {
    forall i, j | 0 <= i < j < |line| ensures key(line[i]) <= key(line[j]) {
    }
  }

  /** Where second `t` lies between two adjacent seconds, the neighbours around it are a last and a first event. */
  lemma NeighboursOf(key: Key, pool: set<Event>, line: seq<Event>, s: int, u: int, t: int) returns (i: int)
    requires Refines(key) && Lists(key, pool, line) && Adjacent(pool, s, u) && s <= t < u
    ensures LatestAt(line, i, t) && i < |line| - 1 && Second(line[i]) == s && Second(line[i + 1]) == u
    ensures IsLast(key, pool, line[i]) && IsFirst(key, pool, line[i + 1])
  {
    LineInOrder(key, line);
    i := GapAround(pool, line, s, u, t);
    EdgesOfSecond(key, pool, line, i);
  }

  lemma GapAround(pool: set<Event>, line: seq<Event>, s: int, u: int, t: int) returns (i: int)
    requires forall k, l :: 0 <= k <= l < |line| ==> Second(line[k]) <= Second(line[l])
    requires PoolOf(line) == pool && Adjacent(pool, s, u) && s <= t < u
    ensures LatestAt(line, i, t) && i < |line| - 1 && Second(line[i]) == s && Second(line[i + 1]) == u
  {
    var e :| e in pool && Second(e) == s;
    var f :| f in pool && Second(f) == u;
    var k :| 0 <= k < |line| && line[k] == e;
    var l :| 0 <= l < |line| && line[l] == f;
    i := LatestExists(line, t);
    assert k <= i < l;
    assert line[i] in pool && line[i + 1] in pool;
  }

  lemma EdgesOfSecond(key: Key, pool: set<Event>, line: seq<Event>, i: int)
    requires Refines(key) && Lists(key, pool, line) && 0 <= i < |line| - 1 && Second(line[i]) < Second(line[i + 1])
    ensures IsLast(key, pool, line[i]) && IsFirst(key, pool, line[i + 1])
  {
    LineInOrder(key, line);
    forall f | f in pool
      ensures Second(f) == Second(line[i]) ==> key(f) <= key(line[i])
      ensures Second(f) == Second(line[i + 1]) ==> key(line[i + 1]) <= key(f)
    {
      assert f in line;
      var k :| 0 <= k < |line| && line[k] == f;
    }
    assert line[i] in pool && line[i + 1] in pool;
  }

  lemma CountsAreAdjacent(activity: Activity, key: Key, pool: set<Event>, line: seq<Event>, i: int, t: int)
    requires Refines(key) && Lists(key, pool, line) && Counts(activity, line, i, t)
    ensures Adjacent(pool, Second(line[i]), Second(line[i + 1]))
    ensures MayCount(activity, key, pool, Second(line[i]), Second(line[i + 1]))
  {
    LineInOrder(key, line);
    EdgesOfSecond(key, pool, line, i);
    forall f | f in pool ensures Second(f) <= Second(line[i]) || Second(line[i + 1]) <= Second(f) {
      assert f in line;
      var k :| 0 <= k < |line| && line[k] == f;
    }
  }

  lemma MustCountCounts(activity: Activity, key: Key, pool: set<Event>, line: seq<Event>, s: int, u: int, t: int)
    requires Refines(key) && Lists(key, pool, line) && MustCount(activity, key, pool, s, u) && s <= t < u
    ensures Counted(activity, line, t)
  {
    var i := NeighboursOf(key, pool, line, s, u, t);
    assert Counts(activity, line, i, t);
  }

  // ---------- The listings with the most and the least ----------

  /** The key refined so that among the events that it does not tell apart starts come last, or first. */
  function Refined(activity: Activity, key: Key, startsLast: bool): Key {
    (e: Event) => 2 * key(e) + if activity.StartedBy(e.kind) == startsLast then 1 else 0
  }

  lemma RefinedRefines(activity: Activity, key: Key, startsLast: bool)
    requires Refines(key)
    ensures Refines(Refined(activity, key, startsLast))
  {
  }

  lemma RefinedSorts(activity: Activity, key: Key, startsLast: bool, line: seq<Event>)
    requires Sorted(Refined(activity, key, startsLast), line)
    ensures Sorted(key, line)
  {
    var refined := Refined(activity, key, startsLast);
    forall i, j | 0 <= i < j < |line| ensures key(line[i]) <= key(line[j]) {
      assert refined(line[i]) <= refined(line[j]);
    }
  }

  /** With the starts last, all time counts that may count. */
  lemma StartsLastCountsAll(activity: Activity, key: Key, pool: set<Event>, line: seq<Event>, s: int, u: int, t: int)
    requires Refines(key) && Lists(Refined(activity, key, true), pool, line)
    requires MayCount(activity, key, pool, s, u) && s <= t < u
    ensures Counted(activity, line, t)
  {
    var refined := Refined(activity, key, true);
    RefinedRefines(activity, key, true);
    var i := NeighboursOf(refined, pool, line, s, u, t);
    var e :| IsLast(key, pool, e) && Second(e) == s && activity.StartedBy(e.kind);
    var f :| IsFirst(key, pool, f) && Second(f) == u && !activity.StartedBy(f.kind);
    assert refined(e) <= refined(line[i]) && key(line[i]) <= key(e);
    assert refined(line[i + 1]) <= refined(f) && key(f) <= key(line[i + 1]);
    assert Counts(activity, line, i, t);
  }

  /** With the starts first, only time counts that must count. */
  lemma StartsFirstCountsLeast(activity: Activity, key: Key, pool: set<Event>, line: seq<Event>, s: int, u: int)
    requires Refines(key) && Lists(Refined(activity, key, false), pool, line)
    requires Adjacent(pool, s, u) && !MustCount(activity, key, pool, s, u)
    ensures !Counted(activity, line, s)
  {
    var refined := Refined(activity, key, false);
    RefinedRefines(activity, key, false);
    LineInOrder(refined, line);
    var i := NeighboursOf(refined, pool, line, s, u, s);
    EdgesFail(activity, key, pool, line[i], line[i + 1]);
    forall j ensures !Counts(activity, line, j, s) {
      if Counts(activity, line, j, s) {
        OwnGap(line, i, j, s);
      }
    }
  }

  lemma EdgesFail(activity: Activity, key: Key, pool: set<Event>, before: Event, after: Event)
    requires Adjacent(pool, Second(before), Second(after))
    requires !MustCount(activity, key, pool, Second(before), Second(after))
    requires IsLast(Refined(activity, key, false), pool, before) && IsFirst(Refined(activity, key, false), pool, after)
    ensures !activity.StartedBy(before.kind) || activity.StartedBy(after.kind)
  {
    var refined := Refined(activity, key, false);
    if e :| IsLast(key, pool, e) && Second(e) == Second(before) && !activity.StartedBy(e.kind) {
      assert refined(e) <= refined(before) && key(before) <= key(e);
    } else {
      var f :| IsFirst(key, pool, f) && Second(f) == Second(after) && activity.StartedBy(f.kind);
      assert refined(after) <= refined(f) && key(f) <= key(after);
    }
  }

  lemma OwnGap(line: seq<Event>, i: int, j: int, t: int)
    requires forall k, l :: 0 <= k <= l < |line| ==> Second(line[k]) <= Second(line[l])
    requires LatestAt(line, i, t) && 0 <= j < |line| - 1 && Second(line[j]) <= t < Second(line[j + 1])
    ensures i == j
  {
  }

  // ---------- Totals of listings ----------

  /** Within each second the listing follows the key; seconds may come in any order. */
  ghost predicate Obeys(key: Key, listed: seq<Event>) {
    forall i, j :: 0 <= i < j < |listed| && Second(listed[i]) == Second(listed[j]) ==> key(listed[i]) <= key(listed[j])
  }

  lemma SortedObeys(key: Key, listed: seq<Event>)
    requires Sorted(key, listed)
    ensures Obeys(key, listed)
  {
  }

  lemma {:induction false} InsertFloored(x: Event, s: seq<Event>)
    ensures Insert(Timestamp, FloorEvent(x), Floored(s)) == Floored(Insert(Second, x, s))
  {
    if s != [] && Second(s[0]) < Second(x) {
      InsertFloored(x, s[1..]);
      assert Floored(s)[1..] == Floored(s[1..]);
    }
  }

  /** Flooring and then sorting is sorting by seconds and then flooring. */
  lemma {:induction false} TimelineSortsBySecond(listed: seq<Event>)
    ensures Timeline(listed) == Floored(Sort(Second, listed))
  {
    if listed != [] {
      TimelineSortsBySecond(listed[1..]);
      assert Floored(listed)[1..] == Floored(listed[1..]);
      InsertFloored(listed[0], Sort(Second, listed[1..]));
    }
  }

  function NotAfter(key: Key): (Event, Event) -> bool {
    (e: Event, f: Event) => key(e) <= key(f)
  }

  /** A listing that obeys a key is brought by the stable sort into a line that the key demands. */
  lemma LineOf(key: Key, listed: seq<Event>)
    requires Refines(key) && Obeys(key, listed)
    ensures Lists(key, PoolOf(listed), Sort(Second, listed))
  {
    var line := Sort(Second, listed);
    SortPermutes(Second, listed);
    SortKeepsTies(Second, NotAfter(key), listed);
    forall i, j | 0 <= i < j < |line| ensures key(line[i]) <= key(line[j]) {
      assert Second(line[i]) == Second(line[j]) ==> NotAfter(key)(line[i], line[j]);
    }
    SamePool(line, listed);
  }

  lemma SamePool(a: seq<Event>, b: seq<Event>)
    requires multiset(a) == multiset(b)
    ensures PoolOf(a) == PoolOf(b)
  {
    forall e ensures e in a <==> e in b {
      assert e in multiset(a) <==> e in multiset(b);
    }
  }

  lemma CountedInLine(activity: Activity, listed: seq<Event>, t: int)
    ensures t in SecondsIn(activity, Timeline(listed)) <==> Counted(activity, Sort(Second, listed), t)
  {
    var line := Sort(Second, listed);
    TimelineSortsBySecond(listed);
    SortPermutes(Timestamp, Floored(listed));
    InSecondsIn(activity, Timeline(listed), t);
    forall i ensures Counts(activity, Floored(line), i, t) <==> Counts(activity, line, i, t) {
    }
  }

  // ---------- Families of listings ----------

  /** What may count by `key` may count by `may`. */
  ghost predicate Wider(activity: Activity, may: Key, key: Key, pool: set<Event>) {
    forall s, u :: MayCount(activity, key, pool, s, u) ==> MayCount(activity, may, pool, s, u)
  }

  /** What may or must count by `key` lies between what must count by `must` and what may count by `may`. */
  ghost predicate Between(activity: Activity, may: Key, must: Key, key: Key, pool: set<Event>) {
    && Wider(activity, may, key, pool)
    && (forall s, u :: MustCount(activity, must, pool, s, u) ==> MustCount(activity, key, pool, s, u))
  }

  /** When all is settled, the key decides which time counts. */
  lemma SettledDecides(activity: Activity, may: Key, must: Key, key: Key, listed: seq<Event>, t: int)
    requires Refines(key) && Obeys(key, listed)
    requires Between(activity, may, must, key, PoolOf(listed)) && Settled(activity, may, must, PoolOf(listed))
    ensures t in SecondsIn(activity, Timeline(listed)) <==>
              exists s, u :: MayCount(activity, may, PoolOf(listed), s, u) && s <= t < u
  {
    var pool, line := PoolOf(listed), Sort(Second, listed);
    LineOf(key, listed);
    CountedInLine(activity, listed, t);
    if i :| Counts(activity, line, i, t) {
      CountsAreAdjacent(activity, key, pool, line, i, t);
    }
    if s, u :| MayCount(activity, may, pool, s, u) && s <= t < u {
      MustCountCounts(activity, key, pool, line, s, u, t);
    }
  }

  lemma SettledAgree(activity: Activity, may: Key, must: Key, keyA: Key, keyB: Key, a: seq<Event>, b: seq<Event>)
    requires Refines(keyA) && Refines(keyB) && Obeys(keyA, a) && Obeys(keyB, b) && multiset(a) == multiset(b)
    requires Between(activity, may, must, keyA, PoolOf(a)) && Between(activity, may, must, keyB, PoolOf(a))
    requires Settled(activity, may, must, PoolOf(a))
    ensures Total(activity, a) == Total(activity, b)
  {
    SamePool(a, b);
    forall t ensures t in SecondsIn(activity, Timeline(a)) <==> t in SecondsIn(activity, Timeline(b)) {
      SettledDecides(activity, may, must, keyA, a, t);
      SettledDecides(activity, may, must, keyB, b, t);
    }
    assert SecondsIn(activity, Timeline(a)) == SecondsIn(activity, Timeline(b));
  }

  /** When something is not settled, the listing with the starts first and the one with the starts last differ. */
  lemma UnsettledDiffer(activity: Activity, may: Key, must: Key, a: seq<Event>, b: seq<Event>)
    requires Refines(may) && Refines(must) && multiset(a) == multiset(b)
    requires Obeys(Refined(activity, must, false), a) && Obeys(Refined(activity, may, true), b)
    requires Wider(activity, may, must, PoolOf(a)) && !Settled(activity, may, must, PoolOf(a))
    ensures Total(activity, a) < Total(activity, b)
  {
    SamePool(a, b);
    RefinedRefines(activity, must, false);
    RefinedRefines(activity, may, true);
    LineOf(Refined(activity, must, false), a);
    LineOf(Refined(activity, may, true), b);
    LeastIsLess(activity, may, must, a, b);
  }

  lemma LeastIsLess(activity: Activity, may: Key, must: Key, a: seq<Event>, b: seq<Event>)
    requires Refines(may) && Refines(must)
    requires Lists(Refined(activity, must, false), PoolOf(a), Sort(Second, a))
    requires Lists(Refined(activity, may, true), PoolOf(a), Sort(Second, b))
    requires Wider(activity, may, must, PoolOf(a)) && !Settled(activity, may, must, PoolOf(a))
    ensures Total(activity, a) < Total(activity, b)
  {
    var s, u :| MayCount(activity, may, PoolOf(a), s, u) && !MustCount(activity, must, PoolOf(a), s, u);
    forall t | t in SecondsIn(activity, Timeline(a)) ensures t in SecondsIn(activity, Timeline(b)) {
      LeastInMost(activity, may, must, a, b, t);
    }
    OnlyInMost(activity, may, must, a, b, s, u);
    ProperSubsetSize(SecondsIn(activity, Timeline(a)), SecondsIn(activity, Timeline(b)), s);
  }

  lemma OnlyInMost(activity: Activity, may: Key, must: Key, a: seq<Event>, b: seq<Event>, s: int, u: int)
    requires Refines(may) && Refines(must)
    requires Lists(Refined(activity, must, false), PoolOf(a), Sort(Second, a))
    requires Lists(Refined(activity, may, true), PoolOf(a), Sort(Second, b))
    requires MayCount(activity, may, PoolOf(a), s, u) && !MustCount(activity, must, PoolOf(a), s, u)
    ensures s !in SecondsIn(activity, Timeline(a)) && s in SecondsIn(activity, Timeline(b))
  {
    StartsFirstCountsLeast(activity, must, PoolOf(a), Sort(Second, a), s, u);
    StartsLastCountsAll(activity, may, PoolOf(a), Sort(Second, b), s, u, s);
    CountedInLine(activity, a, s);
    CountedInLine(activity, b, s);
  }

  lemma LeastInMost(activity: Activity, may: Key, must: Key, a: seq<Event>, b: seq<Event>, t: int)
    requires Refines(may) && Refines(must)
    requires Lists(Refined(activity, must, false), PoolOf(a), Sort(Second, a))
    requires Lists(Refined(activity, may, true), PoolOf(a), Sort(Second, b))
    requires Wider(activity, may, must, PoolOf(a))
    requires t in SecondsIn(activity, Timeline(a))
    ensures t in SecondsIn(activity, Timeline(b))
  {
    var line := Sort(Second, a);
    CountedInLine(activity, a, t);
    CountedInLine(activity, b, t);
    RefinedSorts(activity, must, false, line);
    var i :| Counts(activity, line, i, t);
    CountsAreAdjacent(activity, must, PoolOf(a), line, i, t);
    StartsLastCountsAll(activity, may, PoolOf(a), Sort(Second, b), Second(line[i]), Second(line[i + 1]), t);
  }

  /** A key that tells all events apart settles everything. */
  lemma TellingKeySettles(activity: Activity, key: Key, pool: set<Event>)
    requires forall e, f :: e in pool && f in pool && key(e) == key(f) ==> e == f
    ensures Settled(activity, key, key, pool)
  {
    forall s, u | MayCount(activity, key, pool, s, u) ensures MustCount(activity, key, pool, s, u) {
      forall e, f | IsLast(key, pool, e) && IsLast(key, pool, f) && Second(e) == Second(f) ensures e == f {
        assert key(e) <= key(f) && key(f) <= key(e);
      }
      forall e, f | IsFirst(key, pool, e) && IsFirst(key, pool, f) && Second(e) == Second(f) ensures e == f {
        assert key(e) <= key(f) && key(f) <= key(e);
      }
    }
  }

  // ---------- Arbitrary orders ----------

  ghost predicate DistinctSeconds(events: seq<Event>) {
    forall e, f :: e in events && f in events && Second(e) == Second(f) ==> e == f
  }

  /** Events in distinct seconds settle everything, whatever the keys. */
  lemma DistinctSecondsSettle(activity: Activity, may: Key, must: Key, events: seq<Event>)
    requires DistinctSeconds(events)
    ensures Settled(activity, may, must, PoolOf(events))
  {
  }

  ghost predicate IgnoresOrder(activity: Activity, events: seq<Event>) {
    forall a, b :: multiset(a) == multiset(events) && multiset(b) == multiset(events) ==>
      Total(activity, a) == Total(activity, b)
  }

  /** The total of an activity is the same for every order of the events exactly if any time with a
      start in the second before it and something else in the second after it has nothing but
      starts before it and no start after it. */
  lemma IgnoresOrderIff(activity: Activity, events: seq<Event>)
    ensures IgnoresOrder(activity, events) <==> Settled(activity, Second, Second, PoolOf(events))
    ensures DistinctSeconds(events) ==> IgnoresOrder(activity, events)
  {
    if DistinctSeconds(events) {
      DistinctSecondsSettle(activity, Second, Second, events);
    }
    if Settled(activity, Second, Second, PoolOf(events)) {
      forall a, b | multiset(a) == multiset(events) && multiset(b) == multiset(events)
        ensures Total(activity, a) == Total(activity, b)
      {
        SamePool(a, events);
        SettledAgree(activity, Second, Second, Second, Second, a, b);
      }
    } else {
      var low, high := Refined(activity, Second, false), Refined(activity, Second, true);
      var a, b := Sort(low, events), Sort(high, events);
      SortPermutes(low, events);
      SortPermutes(high, events);
      SamePool(a, events);
      UnsettledDiffer(activity, Second, Second, a, b);
    }
  }
}
