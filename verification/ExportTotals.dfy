/** When the attendance export recomputes the stored totals of a session, whatever listings the
    database returned: src/attendance/attendance.service.ts.

    Closing a session appends the out-event to a listing of the other events by timestamp; the export
    lists all events by timestamp. So the two differ in the order of events with equal timestamps, and
    in that the out-event is the last of its second when the totals are stored. */
module ExportTotals {
  import opened Sorting
  import opened Totals
  import opened TotalsOrder

  /** Orders events as when the totals are stored: an out-event comes last in its second. */
  function StoredTime(e: Event): int {
    if e.kind.IsOut() then 2000 * Second(e) + 1999 else 2 * e.timestamp
  }

  lemma KeysRefine()
    ensures Refines(Timestamp) && Refines(StoredTime)
  {
  }

  ghost predicate OnlyOut(events: seq<Event>, out: Event) {
    out.kind.IsOut() && forall e :: e in events ==> !e.kind.IsOut()
  }

  /** Any time between two neighbouring seconds that has a start among the events with the greatest
      timestamp before it and something else among the events with the least timestamp after it is
      sure to count when the totals are stored: the second before it does not hold the out-event and
      all its events with the greatest timestamp are starts, and no start is among the events with
      the least timestamp after it, the out-event left aside unless it is alone. */
  ghost predicate ExportSettled(activity: Activity, events: seq<Event>, out: Event) {
    Settled(activity, Timestamp, StoredTime, PoolOf(events + [out]))
  }

  // ---------- The two keys ----------

  lemma StoredLastIsLast(events: seq<Event>, out: Event, e: Event)
    requires OnlyOut(events, out) && IsLast(StoredTime, PoolOf(events + [out]), e) && !e.kind.IsOut()
    ensures IsLast(Timestamp, PoolOf(events + [out]), e)
  {
    var pool := PoolOf(events + [out]);
    forall f | f in pool && Second(f) == Second(e) ensures Timestamp(f) <= Timestamp(e) {
      assert StoredTime(f) <= StoredTime(e);
    }
  }

  /** What may count when stored may count in the export. */
  lemma ExportIsWider(activity: Activity, events: seq<Event>, out: Event)
    requires OnlyOut(events, out)
    ensures Wider(activity, Timestamp, StoredTime, PoolOf(events + [out]))
  {
    var pool := PoolOf(events + [out]);
    forall s, u | MayCount(activity, StoredTime, pool, s, u) ensures MayCount(activity, Timestamp, pool, s, u) {
      var e :| IsLast(StoredTime, pool, e) && Second(e) == s && activity.StartedBy(e.kind);
      StoredLastIsLast(events, out, e);
      var f :| IsFirst(StoredTime, pool, f) && Second(f) == u && !activity.StartedBy(f.kind);
      OtherIsFirst(activity, events, out, f);
    }
  }

  lemma OtherIsFirst(activity: Activity, events: seq<Event>, out: Event, f: Event)
    requires OnlyOut(events, out) && IsFirst(StoredTime, PoolOf(events + [out]), f) && !activity.StartedBy(f.kind)
    ensures exists g ::
        IsFirst(Timestamp, PoolOf(events + [out]), g) && Second(g) == Second(f) && !activity.StartedBy(g.kind)
  {
    var pool := PoolOf(events + [out]);
    forall g | g in pool && Second(g) == Second(f) ensures g == out || Timestamp(f) <= Timestamp(g) {
      assert StoredTime(f) <= StoredTime(g);
    }
    if Second(out) == Second(f) && Timestamp(out) < Timestamp(f) {
      assert out in pool && IsFirst(Timestamp, pool, out);
    } else {
      assert IsFirst(Timestamp, pool, f);
    }
  }

  lemma OutIsLast(events: seq<Event>, out: Event)
    requires OnlyOut(events, out)
    ensures IsLast(StoredTime, PoolOf(events + [out]), out)
  {
    assert (events + [out])[|events|] == out;
  }

  /** What must count when stored must count in the export. */
  lemma StoredIsStricter(activity: Activity, events: seq<Event>, out: Event, s: int, u: int)
    requires OnlyOut(events, out) && MustCount(activity, StoredTime, PoolOf(events + [out]), s, u)
    ensures MustCount(activity, Timestamp, PoolOf(events + [out]), s, u)
  {
    var pool := PoolOf(events + [out]);
    OutIsLast(events, out);
    forall e | IsLast(Timestamp, pool, e) && Second(e) == s ensures activity.StartedBy(e.kind) {
      assert IsLast(StoredTime, pool, e);
    }
    forall f | IsFirst(Timestamp, pool, f) && Second(f) == u ensures !activity.StartedBy(f.kind) {
      assert !f.kind.IsOut() ==> IsFirst(StoredTime, pool, f);
    }
  }

  lemma KeysAreBetween(activity: Activity, events: seq<Event>, out: Event)
    requires OnlyOut(events, out)
    ensures Between(activity, Timestamp, StoredTime, Timestamp, PoolOf(events + [out]))
    ensures Between(activity, Timestamp, StoredTime, StoredTime, PoolOf(events + [out]))
  {
    var pool := PoolOf(events + [out]);
    ExportIsWider(activity, events, out);
    forall s, u | MustCount(activity, StoredTime, pool, s, u) ensures MustCount(activity, Timestamp, pool, s, u) {
      StoredIsStricter(activity, events, out, s, u);
    }
  }

  // ---------- The listings ----------

  lemma StoredListingObeys(listed: seq<Event>, out: Event)
    requires OnlyOut(listed, out) && Sorted(Timestamp, listed)
    ensures Obeys(StoredTime, listed + [out])
  {
    var a := listed + [out];
    forall i, j | 0 <= i < j < |a| && Second(a[i]) == Second(a[j]) ensures StoredTime(a[i]) <= StoredTime(a[j]) {
      assert a[i] in listed;
      assert j < |listed| ==> a[j] in listed && Timestamp(a[i]) <= Timestamp(a[j]);
    }
  }

  lemma PermutedListing(events: seq<Event>, out: Event, listed: seq<Event>)
    requires OnlyOut(events, out) && multiset(listed) == multiset(events)
    ensures OnlyOut(listed, out) && multiset(listed + [out]) == multiset(events + [out])
  {
    forall e | e in listed ensures !e.kind.IsOut() {
      assert e in multiset(events);
    }
  }

  /** Every allowed way to store the totals agrees with every allowed way to recompute them. */
  ghost predicate AlwaysAgree(activity: Activity, events: seq<Event>, out: Event) {
    forall listed, exported :: ListingRead(events, listed) && ListingRead(events + [out], exported) ==>
      Total(activity, listed + [out]) == Total(activity, exported)
  }

  lemma SettledListingsAgree(activity: Activity, events: seq<Event>, out: Event, listed: seq<Event>,
                             exported: seq<Event>)
    requires OnlyOut(events, out) && ExportSettled(activity, events, out)
    requires ListingRead(events, listed) && ListingRead(events + [out], exported)
    ensures Total(activity, listed + [out]) == Total(activity, exported)
  {
    KeysRefine();
    KeysAreBetween(activity, events, out);
    PermutedListing(events, out, listed);
    StoredListingObeys(listed, out);
    SortedObeys(Timestamp, exported);
    SamePool(listed + [out], events + [out]);
    SettledAgree(activity, Timestamp, StoredTime, StoredTime, Timestamp, listed + [out], exported);
  }

  /** The events with the starts first among equal timestamps, and the out-event appended. */
  lemma LeastListing(activity: Activity, events: seq<Event>, out: Event) returns (listed: seq<Event>)
    requires OnlyOut(events, out)
    ensures ListingRead(events, listed) && Obeys(Refined(activity, StoredTime, false), listed + [out])
  {
    var key := Refined(activity, Timestamp, false);
    listed := Sort(key, events);
    SortPermutes(key, events);
    RefinedSorts(activity, Timestamp, false, listed);
    PermutedListing(events, out, listed);
    var a, stored := listed + [out], Refined(activity, StoredTime, false);
    forall i, j | 0 <= i < j < |a| && Second(a[i]) == Second(a[j]) ensures stored(a[i]) <= stored(a[j]) {
      assert a[i] in listed;
      assert j < |listed| ==> a[j] in listed && key(a[i]) <= key(a[j]);
      StoredFollows(activity, a[i], a[j]);
    }
  }

  lemma StoredFollows(activity: Activity, e: Event, f: Event)
    requires !e.kind.IsOut() && Second(e) == Second(f)
    requires f.kind.IsOut() || Refined(activity, Timestamp, false)(e) <= Refined(activity, Timestamp, false)(f)
    ensures Refined(activity, StoredTime, false)(e) <= Refined(activity, StoredTime, false)(f)
  {
    assert StoredTime(e) == 2 * Timestamp(e) <= 2000 * Second(e) + 1998;
    if f.kind.IsOut() {
      assert StoredTime(f) == 2000 * Second(e) + 1999;
    } else {
      assert StoredTime(f) == 2 * Timestamp(f);
    }
  }

  lemma UnsettledListingsDiffer(activity: Activity, events: seq<Event>, out: Event)
    returns (listed: seq<Event>, exported: seq<Event>)
    requires OnlyOut(events, out) && !ExportSettled(activity, events, out)
    ensures ListingRead(events, listed) && ListingRead(events + [out], exported)
    ensures Total(activity, listed + [out]) < Total(activity, exported)
  {
    listed := LeastListing(activity, events, out);
    var key := Refined(activity, Timestamp, true);
    exported := Sort(key, events + [out]);
    SortPermutes(key, events + [out]);
    RefinedSorts(activity, Timestamp, true, exported);
    SortedObeys(key, exported);
    KeysRefine();
    ExportIsWider(activity, events, out);
    PermutedListing(events, out, listed);
    SamePool(listed + [out], events + [out]);
    UnsettledDiffer(activity, Timestamp, StoredTime, listed + [out], exported);
  }

  /** Stored and recomputed totals agree, whatever the database lists, exactly if all is settled. */
  lemma AlwaysAgreeIff(activity: Activity, events: seq<Event>, out: Event)
    requires OnlyOut(events, out)
    ensures AlwaysAgree(activity, events, out) <==> ExportSettled(activity, events, out)
  {
    if ExportSettled(activity, events, out) {
      forall listed, exported | ListingRead(events, listed) && ListingRead(events + [out], exported)
        ensures Total(activity, listed + [out]) == Total(activity, exported)
      {
        SettledListingsAgree(activity, events, out, listed, exported);
      }
    } else {
      var listed, exported := UnsettledListingsDiffer(activity, events, out);
    }
  }

  /** A break that starts and ends at one instant is not settled. */
  lemma InstantBreakIsUnsettled()
    ensures !ExportSettled(Break, [Event(PunchIn, 0), Event(BreakStart, 1000), Event(BreakEnd, 1000)],
                           Event(PunchOut, 5000))
  {
    var start, end, out := Event(BreakStart, 1000), Event(BreakEnd, 1000), Event(PunchOut, 5000);
    var all := [Event(PunchIn, 0), start, end] + [out];
    var pool := PoolOf(all);
    assert all == [Event(PunchIn, 0), start, end, out];
    assert all[1] in pool && all[2] in pool && all[3] in pool;
    assert IsLast(Timestamp, pool, start) && IsFirst(Timestamp, pool, out);
    assert MayCount(Break, Timestamp, pool, 1, 5);
    assert IsLast(StoredTime, pool, end);
  }
}
