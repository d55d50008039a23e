/** What holds in every reachable state of the attendance engine, and over whole runs of it. */
module AttendanceRuns {
  import opened Basics
  import opened Totals
  import opened TotalsOrder
  import opened ExportTotals
  import opened Sorting
  import opened OrgDays
  import opened Attendance

  // ---------- Sessions, with no assumption on times ----------

  function OutKind(closure: Closure): EventType {
    if closure.Normal? then PunchOut else LatePunchOut
  }

  /** The out-event of a closed session, and the events before it. */
  function OutEvent(s: Session): Event
    requires s.events != []
  {
    s.events[|s.events| - 1]
  }

  function Before(s: Session): seq<Event>
    requires s.events != []
  {
    s.events[..|s.events| - 1]
  }

  /** The stored totals are those of a listing of the other events with the out-event appended. */
  ghost predicate TotalsOf(s: Session, listed: seq<Event>)
    requires s.events != []
  {
    && ListingRead(Before(s), listed)
    && s.totalWorkSeconds == Total(Work, listed + [OutEvent(s)])
    && s.totalBreakSeconds == Total(Break, listed + [OutEvent(s)])
  }

  /** Event `i` is the PUNCH_IN exactly if it is the first, and an out-event exactly if it is the
      last one of a closed session; the fields of the row repeat both. */
  ghost predicate WellFormed(s: Session) {
    && s.events != []
    && s.firstPunchInAt == Some(s.events[0].timestamp)
    && (forall i :: 0 <= i < |s.events| ==> (s.events[i].kind.PunchIn? <==> i == 0))
    && (forall i :: 0 <= i < |s.events| ==> (s.events[i].kind.IsOut() <==> s.status.Closed? && i == |s.events| - 1))
    && (s.status.Open? ==> s.closureType.None? && s.lastPunchOutAt.None?)
    && (s.status.Closed? ==>
          && s.closureType.Some?
          && s.lastPunchOutAt == Some(OutEvent(s).timestamp)
          && OutEvent(s).kind == OutKind(s.closureType.value)
          && exists listed :: TotalsOf(s, listed))
  }

  ghost predicate AllWellFormed(db: Db) {
    forall id :: id in db ==> WellFormed(db[id])
  }

  lemma CloseKeepsWellFormed(s: Session, closure: Closure, out: Event, listed: seq<Event>)
    requires WellFormed(s) && s.status.Open? && ListingRead(s.events, listed) && out.kind == OutKind(closure)
    ensures WellFormed(ClosedSession(s, closure, out, listed))
  {
    var t := ClosedSession(s, closure, out, listed);
    assert t.events[0] == s.events[0];
    assert Before(t) == s.events;
    assert TotalsOf(t, listed);
  }

  lemma BreakKeepsWellFormed(s: Session, e: Event)
    requires WellFormed(s) && s.status.Open? && (e.kind.BreakStart? || e.kind.BreakEnd?)
    ensures WellFormed(s.(events := s.events + [e]))
  {
    assert (s.events + [e])[0] == s.events[0];
  }

  lemma UpdateKeepsAllWellFormed(db: Db, id: SessionId, s: Session)
    requires AllWellFormed(db) && WellFormed(s)
    ensures AllWellFormed(db[id := s])
  {
  }

  lemma NewIsWellFormed(staffId: StaffId, date: int, time: int)
    ensures WellFormed(NewSession(staffId, date, time))
  {
  }

  lemma StepKeepsWellFormed(cal: Calendar, db: Db, r: Request)
    requires AllWellFormed(db) && Feasible(db, r)
    ensures AllWellFormed(Apply(cal, db, r).0)
  {
    if Apply(cal, db, r).1.Done? {
      match r {
        case PunchInRequest(staffId, time, newId) =>
          NewIsWellFormed(staffId, StartOfOrgDay(cal, time.ms), time.ms);
        case BreakRequest(_, sessionId, time, starts, _) =>
          BreakKeepsWellFormed(db[sessionId.value], Event(if starts then BreakStart else BreakEnd, time.ms));
        case PunchOutRequest(_, sessionId, time, listed) =>
          CloseKeepsWellFormed(db[sessionId.value], Normal, Event(PunchOut, time.ms), listed);
        case LateRequest(staffId, sessionId, approxOut, punchIn, newId, listed) =>
          LateKeepsWellFormed(cal, db, r);
      }
    }
  }

  lemma LateKeepsWellFormed(cal: Calendar, db: Db, r: Request)
    requires AllWellFormed(db) && Feasible(db, r) && r.LateRequest? && Apply(cal, db, r).1.Done?
    ensures AllWellFormed(Apply(cal, db, r).0)
  {
    var s := db[r.sessionId.value];
    var out := Event(LatePunchOut, r.approxOut.value.ms);
    CloseKeepsWellFormed(s, Late, out, r.listed);
    UpdateKeepsAllWellFormed(db, r.sessionId.value, ClosedSession(s, Late, out, r.listed));
    var start := r.punchIn.value.ms;
    NewIsWellFormed(r.staffId, StartOfOrgDay(cal, start), start);
    UpdateKeepsAllWellFormed(db[r.sessionId.value := ClosedSession(s, Late, out, r.listed)], r.newId,
                             NewSession(r.staffId, StartOfOrgDay(cal, start), start));
  }

  /** Every state that a run from an empty table can reach is well formed, whatever times clients send. */
  lemma {:induction false} RunKeepsWellFormed(cal: Calendar, db: Db, rs: seq<Request>)
    requires AllWellFormed(db) && FeasibleRun(cal, db, rs)
    ensures AllWellFormed(Run(cal, db, rs))
    decreases |rs|
  {
    if rs != [] {
      StepKeepsWellFormed(cal, db, rs[0]);
      RunKeepsWellFormed(cal, Apply(cal, db, rs[0]).0, rs[1..]);
    }
  }

  /** No action touches a closed session. */
  lemma ClosedIsFinal(cal: Calendar, db: Db, r: Request, id: SessionId)
    requires Feasible(db, r) && id in db && db[id].status.Closed?
    ensures id in Apply(cal, db, r).0 && Apply(cal, db, r).0[id] == db[id]
  {
  }

  // ---------- Stored totals and the export ----------

  lemma ClosedHasOneOut(s: Session)
    requires WellFormed(s) && s.status.Closed?
    ensures OnlyOut(Before(s), OutEvent(s)) && Before(s) + [OutEvent(s)] == s.events
  {
    forall e | e in Before(s) ensures !e.kind.IsOut() {
      var i :| 0 <= i < |s.events| - 1 && s.events[i] == e;
    }
  }

  /** In every reachable state the export recomputes the stored totals of a closed session, however
      the database listed its events then and lists them now, if all is settled; events in distinct
      seconds are. */
  lemma ExportAgreesWithStored(cal: Calendar, rs: seq<Request>, id: SessionId, exported: seq<Event>)
    requires FeasibleRun(cal, map[], rs)
    requires var db := Run(cal, map[], rs);
      && id in db && db[id].status.Closed? && db[id].events != [] && ListingRead(db[id].events, exported)
      && (DistinctSeconds(db[id].events) || forall activity ::
          ExportSettled(activity, Before(db[id]), OutEvent(db[id])))
    ensures var s := Run(cal, map[], rs)[id];
      s.totalWorkSeconds == Total(Work, exported) && s.totalBreakSeconds == Total(Break, exported)
  {
    RunKeepsWellFormed(cal, map[], rs);
    var s := Run(cal, map[], rs)[id];
    var listed :| TotalsOf(s, listed);
    ClosedHasOneOut(s);
    forall activity: Activity ensures Total(activity, listed + [OutEvent(s)]) == Total(activity, exported) {
      if DistinctSeconds(s.events) {
        DistinctSecondsSettle(activity, Timestamp, StoredTime, s.events);
      }
      SettledListingsAgree(activity, Before(s), OutEvent(s), listed, exported);
    }
  }

  lemma OpenHasNoOut(s: Session, out: Event)
    requires WellFormed(s) && s.status.Open? && out.kind.IsOut()
    ensures OnlyOut(s.events, out)
  {
    forall e | e in s.events ensures !e.kind.IsOut() {
      var i :| 0 <= i < |s.events| && s.events[i] == e;
    }
  }

  ghost predicate StoresTotalsOf(closed: Session, exported: seq<Event>) {
    closed.totalWorkSeconds == Total(Work, exported) && closed.totalBreakSeconds == Total(Break, exported)
  }

  /** The totals that closing the session stores are the ones that the export recomputes, for every
      listing that either may read. */
  ghost predicate ClosesAlike(s: Session, closure: Closure, out: Event) {
    forall listed, exported :: ListingRead(s.events, listed) && ListingRead(s.events + [out], exported) ==>
      StoresTotalsOf(ClosedSession(s, closure, out, listed), exported)
  }

  lemma ClosesAlikeMeans(s: Session, closure: Closure, out: Event)
    ensures ClosesAlike(s, closure, out) <==> AlwaysAgree(Work, s.events, out) && AlwaysAgree(Break, s.events, out)
  {
    if ClosesAlike(s, closure, out) {
      forall listed, exported | ListingRead(s.events, listed) && ListingRead(s.events + [out], exported)
        ensures Total(Work, listed + [out]) == Total(Work, exported)
        ensures Total(Break, listed + [out]) == Total(Break, exported)
      {
        assert StoresTotalsOf(ClosedSession(s, closure, out, listed), exported);
      }
    } else {
      var listed, exported :| ListingRead(s.events, listed) && ListingRead(s.events + [out], exported)
                              && !StoresTotalsOf(ClosedSession(s, closure, out, listed), exported);
      assert Total(Work, listed + [out]) != Total(Work, exported)
          || Total(Break, listed + [out]) != Total(Break, exported);
    }
  }

  /** Closing an open session of a reachable state, in time or late, stores totals on which the export
      is sure to agree exactly if all is settled for work and for breaks. */
  lemma ClosesAlikeIff(cal: Calendar, rs: seq<Request>, id: SessionId, closure: Closure, t: int)
    requires FeasibleRun(cal, map[], rs) && id in Run(cal, map[], rs) && Run(cal, map[], rs)[id].status.Open?
    ensures var s, out := Run(cal, map[], rs)[id], Event(OutKind(closure), t);
      ClosesAlike(s, closure, out) <==> ExportSettled(Work, s.events, out) && ExportSettled(Break, s.events, out)
  {
    var s, out := Run(cal, map[], rs)[id], Event(OutKind(closure), t);
    RunKeepsWellFormed(cal, map[], rs);
    OpenHasNoOut(s, out);
    ClosesAlikeMeans(s, closure, out);
    AlwaysAgreeIff(Work, s.events, out);
    AlwaysAgreeIff(Break, s.events, out);
  }

  // ---------- Sessions whose times increase ----------

  ghost predicate StrictlyIncreasing(events: seq<Event>) {
    forall i, j :: 0 <= i < j < |events| ==> events[i].timestamp < events[j].timestamp
  }

  /** Between the PUNCH_IN and the out-event breaks start and end in turn. */
  ghost predicate Alternates(events: seq<Event>) {
    forall i :: 0 < i < |events| && !events[i].kind.IsOut() ==>
      events[i].kind == if i % 2 == 1 then BreakStart else BreakEnd
  }

  ghost predicate AllAlternate(db: Db) {
    forall id :: id in db && StrictlyIncreasing(db[id].events) ==> Alternates(db[id].events)
  }

  lemma AppendAlternates(events: seq<Event>, e: Event)
    requires Alternates(events) && (e.kind.IsOut() || e.kind == if |events| % 2 == 1 then BreakStart else BreakEnd)
    ensures Alternates(events + [e])
  {
  }

  /** While times increase, the latest event is the last one, so a break can only start or end in turn. */
  lemma BreakAlternates(s: Session, last: Event, e: Event)
    requires WellFormed(s) && s.status.Open? && IsLatest(s.events, last)
    requires (e.kind.BreakStart? || e.kind.BreakEnd?) && MayFollow(e.kind, last.kind)
    requires StrictlyIncreasing(s.events) ==> Alternates(s.events)
    requires StrictlyIncreasing(s.events + [e])
    ensures Alternates(s.events + [e])
  {
    var n := |s.events| - 1;
    PrefixIncreases(s.events, e);
    var i :| 0 <= i <= n && s.events[i] == last;
    forall j | 0 <= j < n ensures s.events[j].timestamp < s.events[n].timestamp {
    }
    assert s.events[n] in s.events;
    AppendAlternates(s.events, e);
  }

  lemma PrefixIncreases(events: seq<Event>, e: Event)
    requires StrictlyIncreasing(events + [e])
    ensures StrictlyIncreasing(events)
  {
    var all := events + [e];
    forall i, j | 0 <= i < j < |events| ensures events[i].timestamp < events[j].timestamp {
      assert all[i] == events[i] && all[j] == events[j];
    }
  }

  lemma AppendKeepsAlternation(s: Session, e: Event)
    requires StrictlyIncreasing(s.events) ==> Alternates(s.events)
    requires e.kind.IsOut() && StrictlyIncreasing(s.events + [e])
    ensures Alternates(s.events + [e])
  {
    PrefixIncreases(s.events, e);
    AppendAlternates(s.events, e);
  }

  lemma StepKeepsAlternation(cal: Calendar, db: Db, r: Request)
    requires AllWellFormed(db) && AllAlternate(db) && Feasible(db, r)
    ensures AllAlternate(Apply(cal, db, r).0)
  {
    var after := Apply(cal, db, r).0;
    forall id | id in after && StrictlyIncreasing(after[id].events) ensures Alternates(after[id].events) {
      if id in db && after[id] != db[id] {
        SessionKeepsAlternation(cal, db, r, id);
      }
    }
  }

  lemma SessionKeepsAlternation(cal: Calendar, db: Db, r: Request, id: SessionId)
    requires AllWellFormed(db) && Feasible(db, r) && id in db && Apply(cal, db, r).0[id] != db[id]
    requires StrictlyIncreasing(db[id].events) ==> Alternates(db[id].events)
    requires StrictlyIncreasing(Apply(cal, db, r).0[id].events)
    ensures Alternates(Apply(cal, db, r).0[id].events)
  {
    match r {
      case PunchInRequest(_, _, _) =>
      case BreakRequest(_, _, time, starts, last) =>
        BreakAlternates(db[id], last.value, Event(if starts then BreakStart else BreakEnd, time.ms));
      case PunchOutRequest(_, _, time, _) =>
        AppendKeepsAlternation(db[id], Event(PunchOut, time.ms));
      case LateRequest(_, _, approxOut, _, _, _) =>
        AppendKeepsAlternation(db[id], Event(LatePunchOut, approxOut.value.ms));
    }
  }

  lemma {:induction false} RunKeepsAlternation(cal: Calendar, db: Db, rs: seq<Request>)
    requires AllWellFormed(db) && AllAlternate(db) && FeasibleRun(cal, db, rs)
    ensures AllAlternate(Run(cal, db, rs))
    decreases |rs|
  {
    if rs != [] {
      StepKeepsWellFormed(cal, db, rs[0]);
      StepKeepsAlternation(cal, db, rs[0]);
      RunKeepsAlternation(cal, Apply(cal, db, rs[0]).0, rs[1..]);
    }
  }

  lemma AppendedOutIsLast(before: seq<Event>, out: Event, listed: seq<Event>)
    requires StrictlyIncreasing(before + [out]) && ListingRead(before, listed)
    ensures Sorted(Timestamp, listed + [out]) && multiset(listed + [out]) == multiset(before + [out])
  {
    var a, b := listed + [out], before + [out];
    forall i, j | 0 <= i < j < |a| ensures Timestamp(a[i]) <= Timestamp(a[j]) {
      assert listed[i] in multiset(before);
      var k :| 0 <= k < |before| && before[k] == listed[i];
      assert b[k] == listed[i] && b[|before|] == out;
    }
  }

  lemma IncreasingTimesTellApart(events: seq<Event>)
    requires StrictlyIncreasing(events)
    ensures forall e, f :: e in PoolOf(events) && f in PoolOf(events) && Timestamp(e) == Timestamp(f) ==> e == f
    ensures Sorted(Timestamp, events)
  {
  }

  /** Events with increasing times have only one listing as far as totals go. */
  lemma IncreasingTotals(activity: Activity, before: seq<Event>, out: Event, listed: seq<Event>)
    requires StrictlyIncreasing(before + [out]) && ListingRead(before, listed)
    ensures Total(activity, listed + [out]) == Total(activity, before + [out])
  {
    KeysRefine();
    AppendedOutIsLast(before, out, listed);
    IncreasingTimesTellApart(before + [out]);
    TellingKeySettles(activity, Timestamp, PoolOf(before + [out]));
    SamePool(listed + [out], before + [out]);
    SettledAgree(activity, Timestamp, Timestamp, Timestamp, Timestamp, listed + [out], before + [out]);
  }

  /** In every run, a closed session whose event times strictly increase is in protocol order: its
      stored totals count the seconds whose latest event is of the activity, and add up to the floored
      time from the punch-in to the out-event. */
  lemma IncreasingSessionsAreExact(cal: Calendar, rs: seq<Request>, id: SessionId)
    requires FeasibleRun(cal, map[], rs)
    requires var db := Run(cal, map[], rs); id in db && db[id].status.Closed? && StrictlyIncreasing(db[id].events)
    ensures var s := Run(cal, map[], rs)[id];
      && InProtocolOrder(s.events) && Sorted(Timestamp, s.events)
      && s.totalWorkSeconds == |ActiveSeconds(Work, s.events)|
      && s.totalBreakSeconds == |ActiveSeconds(Break, s.events)|
      && s.totalWorkSeconds + s.totalBreakSeconds == Second(OutEvent(s)) - Second(s.events[0])
  {
    var s := Run(cal, map[], rs)[id];
    RunKeepsWellFormed(cal, map[], rs);
    RunKeepsAlternation(cal, map[], rs);
    ClosedHasOneOut(s);
    StoredTotalsIncrease(s);
    ProtocolFromAlternation(s);
    ProtocolTotals(s.events);
  }

  lemma StoredTotalsIncrease(s: Session)
    requires WellFormed(s) && s.status.Closed? && StrictlyIncreasing(s.events)
    requires Before(s) + [OutEvent(s)] == s.events
    ensures s.totalWorkSeconds == Total(Work, s.events) && s.totalBreakSeconds == Total(Break, s.events)
  {
    var listed :| TotalsOf(s, listed);
    IncreasingTotals(Work, Before(s), OutEvent(s), listed);
    IncreasingTotals(Break, Before(s), OutEvent(s), listed);
  }

  lemma ProtocolFromAlternation(s: Session)
    requires WellFormed(s) && s.status.Closed? && StrictlyIncreasing(s.events) && Alternates(s.events)
    ensures InProtocolOrder(s.events) && Sorted(Timestamp, s.events)
  {
  }

  // ---------- Scan and the actions agree ----------

  /** A session of today is never taken for no session: the two fallback branches are unreachable. */
  lemma FallbacksAreUnreachable(id: SessionId, s: Session, last: Option<Event>)
    requires WellFormed(s) && (s.status.Open? ==> LastEventRead(s.events, last))
    ensures TodayState(id, s, last) == if s.status.Closed? then DayCompleted
                                       else if last.value.kind.BreakStart? then OnBreak(id) else Working(id)
  {
    if s.status.Open? {
      var i :| 0 <= i < |s.events| && s.events[i] == last.value;
      assert !s.events[i].kind.IsOut();
    }
  }

  /** NO_SESSION_TODAY is answered exactly if the staff member has no session of today and no older open one. */
  lemma NoSessionMeansNone(cal: Calendar, db: Db, staffId: StaffId, now: int, last: Option<Event>, state: ScanState)
    requires AllWellFormed(db) && MayScan(cal, db, staffId, now, last, state)
    ensures state.NoSessionToday? <==>
            forall id ::
              !Todays(db, staffId, StartOfOrgDay(cal, now), id) && !OldOpen(db, staffId, StartOfOrgDay(cal, now), id)
  {
    var today := StartOfOrgDay(cal, now);
    forall id | Todays(db, staffId, today, id) && (db[id].status.Open? ==> LastEventRead(db[id].events, last))
      ensures !TodayState(id, db[id], last).NoSessionToday?
    {
      FallbacksAreUnreachable(id, db[id], last);
    }
  }

  /** `r` is an action that scan offers in `state` on the day of `now`, with the session it returned. */
  ghost predicate Offers(cal: Calendar, state: ScanState, staffId: StaffId, now: int, r: Request) {
    && r.staffId == staffId
    && match r
       case PunchInRequest(_, time, _) => state.NoSessionToday? && time.At? && OrgDay(cal, time.ms) == OrgDay(cal, now)
       case BreakRequest(_, sessionId, time, starts, _) =>
         time.At? && (if starts then state.Working? else state.OnBreak?) && sessionId == Some(state.session)
       case PunchOutRequest(_, sessionId, time, _) => time.At? && state.Working? && sessionId == Some(state.session)
       case LateRequest(_, sessionId, approxOut, punchIn, _, _) =>
         && state.PreviousOpen? && sessionId == Some(state.session)
         && approxOut.Some? && punchIn.Some? && InOrder(approxOut.value, punchIn.value)
         && OrgDay(cal, punchIn.value.ms) == OrgDay(cal, now)
  }

  /** Every offered action is accepted: a break request if it reads the event that scan read, the
      late punch-out if its approximate time lies after the first punch-in. */
  lemma OfferedActionsAreAccepted(cal: Calendar, db: Db, staffId: StaffId, now: int, last: Option<Event>,
                                  state: ScanState, r: Request)
    requires AllWellFormed(db) && MayScan(cal, db, staffId, now, last, state)
    requires Offers(cal, state, staffId, now, r)
    requires r.BreakRequest? ==> r.last == last
    requires r.LateRequest? ==> db[state.session].firstPunchInAt.value < r.approxOut.value.ms
    ensures Apply(cal, db, r).1.Done?
  {
    var today := StartOfOrgDay(cal, now);
    if r.PunchInRequest? {
      NoSessionMeansNone(cal, db, staffId, now, last, state);
      forall id | id in db && IsOpenOf(db[id], staffId)
        ensures today < db[id].date
      {
        assert !OldOpen(db, staffId, today, id) && !Todays(db, staffId, today, id);
      }
    } else if !r.LateRequest? {
      OfferedSession(cal, db, staffId, now, last, state);
    }
  }

  /** WORKING and ON_BREAK name an open session of today and tell what the event that scan read was. */
  lemma OfferedSession(cal: Calendar, db: Db, staffId: StaffId, now: int, last: Option<Event>, state: ScanState)
    requires MayScan(cal, db, staffId, now, last, state) && (state.Working? || state.OnBreak?)
    ensures Todays(db, staffId, StartOfOrgDay(cal, now), state.session) && db[state.session].status.Open?
    ensures last.Some? && (if state.Working? then last.value.kind.StartsWork() else last.value.kind.BreakStart?)
  {
  }

  /** A break can start under every answer that the database may give exactly if no break start is
      among the events with the latest timestamp; it can end under every answer exactly if all are. */
  lemma BreakAcceptedUnderEveryReadIff(db: Db, staffId: StaffId, sessionId: SessionId, t: int)
    requires sessionId in db && IsOpenOf(db[sessionId], staffId) && WellFormed(db[sessionId])
    ensures (forall last :: LastEventRead(db[sessionId].events, last) ==>
             BreakSpec(db, staffId, Some(sessionId), At(t), BreakStart, last).1.Done?)
       <==> (forall e :: IsLatest(db[sessionId].events, e) ==> !e.kind.BreakStart?)
    ensures (forall last :: LastEventRead(db[sessionId].events, last) ==>
             BreakSpec(db, staffId, Some(sessionId), At(t), BreakEnd, last).1.Done?)
       <==> (forall e :: IsLatest(db[sessionId].events, e) ==> e.kind.BreakStart?)
  {
    var events := db[sessionId].events;
    forall e | IsLatest(events, e)
      ensures LastEventRead(events, Some(e))
      ensures e.kind.StartsWork() <==> !e.kind.BreakStart?
      ensures BreakSpec(db, staffId, Some(sessionId), At(t), BreakStart, Some(e)).1.Done? <==> !e.kind.BreakStart?
      ensures BreakSpec(db, staffId, Some(sessionId), At(t), BreakEnd, Some(e)).1.Done? <==> e.kind.BreakStart?
    {
      var i :| 0 <= i < |events| && events[i] == e;
      assert !events[i].kind.IsOut();
    }
  }

  // ---------- At most one open session ----------

  ghost predicate AtMostOneOpen(db: Db, staffId: StaffId) {
    forall a, b :: a in db && b in db && IsOpenOf(db[a], staffId) && IsOpenOf(db[b], staffId) ==> a == b
  }

  /** An accepted punch-in leaves at most one open session exactly if none of a later day was open. */
  lemma PunchInKeepsSingleOpenIff(cal: Calendar, db: Db, staffId: StaffId, time: Time, newId: SessionId)
    requires AtMostOneOpen(db, staffId) && newId !in db
    requires PunchInSpec(cal, db, staffId, time, newId).1.Done?
    ensures AtMostOneOpen(PunchInSpec(cal, db, staffId, time, newId).0, staffId)
       <==> !exists id :: id in db && IsOpenOf(db[id], staffId) && StartOfOrgDay(cal, time.ms) < db[id].date
  {
    var after := PunchInSpec(cal, db, staffId, time, newId).0;
    if id :| id in db && IsOpenOf(db[id], staffId) && StartOfOrgDay(cal, time.ms) < db[id].date {
      assert IsOpenOf(after[id], staffId) && IsOpenOf(after[newId], staffId);
    }
  }

  /** The day on which a request would punch the staff member in. */
  ghost function PunchInDay(cal: Calendar, staffId: StaffId, r: Request): Option<int> {
    if r.staffId != staffId then None
    else if r.PunchInRequest? && r.time.At? then Some(StartOfOrgDay(cal, r.time.ms))
    else if r.LateRequest? && r.punchIn.Some? && r.punchIn.value.At? then Some(StartOfOrgDay(cal, r.punchIn.value.ms))
    else None
  }

  /** The punch-in days of a staff member start at `day` or later and never go back. */
  ghost predicate PunchInDaysNeverGoBack(cal: Calendar, staffId: StaffId, day: int, rs: seq<Request>)
    decreases |rs|
  {
    rs == [] ||
    match PunchInDay(cal, staffId, rs[0])
    case None => PunchInDaysNeverGoBack(cal, staffId, day, rs[1..])
    case Some(d) => day <= d && PunchInDaysNeverGoBack(cal, staffId, d, rs[1..])
  }

  ghost predicate SingleOpenUpTo(db: Db, staffId: StaffId, day: int) {
    AtMostOneOpen(db, staffId) && forall id :: id in db && db[id].staffId == staffId ==> db[id].date <= day
  }

  /** Changing a session of the same member and day without reopening it. */
  lemma UpdateKeepsSingleOpen(db: Db, staffId: StaffId, day: int, id: SessionId, s: Session)
    requires SingleOpenUpTo(db, staffId, day) && id in db
    requires s.staffId == db[id].staffId && s.date == db[id].date && (s.status.Open? ==> db[id].status.Open?)
    ensures SingleOpenUpTo(db[id := s], staffId, day)
    ensures IsOpenOf(db[id], staffId) && s.status.Closed? ==> forall other :: other in db ==>
        !IsOpenOf(db[id := s][other], staffId)
  {
  }

  lemma AddKeepsSingleOpen(db: Db, staffId: StaffId, day: int, newId: SessionId, s: Session)
    requires SingleOpenUpTo(db, staffId, day) && newId !in db
    requires s.staffId == staffId ==> day <= s.date && forall id :: id in db ==> !IsOpenOf(db[id], staffId)
    ensures SingleOpenUpTo(db[newId := s], staffId, if s.staffId == staffId then s.date else day)
  {
  }

  lemma StepKeepsSingleOpen(cal: Calendar, db: Db, staffId: StaffId, day: int, r: Request)
    requires SingleOpenUpTo(db, staffId, day) && Feasible(db, r)
    requires var d := PunchInDay(cal, staffId, r); d.Some? ==> day <= d.value
    ensures var d := PunchInDay(cal, staffId, r);
      SingleOpenUpTo(Apply(cal, db, r).0, staffId, if d.Some? then d.value else day)
  {
    match r {
      case PunchInRequest(member, time, newId) =>
        if Apply(cal, db, r).1.Done? {
          AddKeepsSingleOpen(db, staffId, day, newId, NewSession(member, StartOfOrgDay(cal, time.ms), time.ms));
        }
      case BreakRequest(_, sessionId, _, _, _) =>
        if Apply(cal, db, r).1.Done? {
          UpdateKeepsSingleOpen(db, staffId, day, sessionId.value, Apply(cal, db, r).0[sessionId.value]);
        }
      case PunchOutRequest(_, sessionId, _, _) =>
        if Apply(cal, db, r).1.Done? {
          UpdateKeepsSingleOpen(db, staffId, day, sessionId.value, Apply(cal, db, r).0[sessionId.value]);
        }
      case LateRequest(member, sessionId, approxOut, punchIn, newId, listed) =>
        if Apply(cal, db, r).1.Done? {
          var closed := ClosedSession(db[sessionId.value], Late, Event(LatePunchOut, approxOut.value.ms), listed);
          UpdateKeepsSingleOpen(db, staffId, day, sessionId.value, closed);
          AddKeepsSingleOpen(db[sessionId.value := closed], staffId, day, newId,
                             NewSession(member, StartOfOrgDay(cal, punchIn.value.ms), punchIn.value.ms));
        }
    }
  }

  /** Any mix of actions, offered by scan or not, leaves a staff member with at most one open
      session as long as that member's punch-in days never go back. */
  lemma {:induction false} AnyMixKeepsSingleOpen(cal: Calendar, db: Db, staffId: StaffId, day: int, rs: seq<Request>)
    requires SingleOpenUpTo(db, staffId, day)
    requires FeasibleRun(cal, db, rs) && PunchInDaysNeverGoBack(cal, staffId, day, rs)
    ensures AtMostOneOpen(Run(cal, db, rs), staffId)
    decreases |rs|
  {
    if rs != [] {
      StepKeepsSingleOpen(cal, db, staffId, day, rs[0]);
      var d := PunchInDay(cal, staffId, rs[0]);
      AnyMixKeepsSingleOpen(cal, Apply(cal, db, rs[0]).0, staffId, if d.Some? then d.value else day, rs[1..]);
    }
  }

  // ---------- Runs that follow scan ----------

  /** A kiosk visit: scan at `now`, then one of the offered actions. */
  datatype Visit = Visit(now: int, last: Option<Event>, state: ScanState, request: Request)

  ghost predicate FollowsScan(cal: Calendar, db: Db, v: Visit) {
    && MayScan(cal, db, v.request.staffId, v.now, v.last, v.state)
    && Offers(cal, v.state, v.request.staffId, v.now, v.request)
    && Feasible(db, v.request)
  }

  ghost function Requests(vs: seq<Visit>): seq<Request> {
    if vs == [] then [] else [vs[0].request] + Requests(vs[1..])
  }

  ghost predicate GuidedRun(cal: Calendar, db: Db, clock: int, vs: seq<Visit>)
    decreases |vs|
  {
    vs == [] ||
    (clock <= vs[0].now && FollowsScan(cal, db, vs[0])
     && GuidedRun(cal, Apply(cal, db, vs[0].request).0, vs[0].now, vs[1..]))
  }

  /** One session per day, and the open one, if any, is the newest. */
  ghost predicate Tidy(db: Db, staffId: StaffId) {
    && AtMostOneOpen(db, staffId)
    && (forall a, b :: a in db && b in db && db[a].staffId == staffId && db[b].staffId == staffId ==>
          db[a].date == db[b].date ==> a == b)
    && (forall a, b :: a in db && b in db && IsOpenOf(db[a], staffId) && db[b].staffId == staffId ==>
          db[b].date <= db[a].date)
  }

  ghost predicate NoneAfter(db: Db, staffId: StaffId, day: int) {
    forall id :: id in db && db[id].staffId == staffId ==> db[id].date <= day
  }

  lemma UpdateKeepsTidy(db: Db, staffId: StaffId, id: SessionId, s: Session)
    requires Tidy(db, staffId) && id in db
    requires s.staffId == db[id].staffId && s.date == db[id].date && (s.status.Open? ==> db[id].status.Open?)
    ensures Tidy(db[id := s], staffId)
    ensures IsOpenOf(db[id], staffId) && s.status.Closed? ==> forall other :: other in db ==>
        !IsOpenOf(db[id := s][other], staffId)
  {
  }

  lemma AddKeepsTidy(db: Db, staffId: StaffId, newId: SessionId, s: Session)
    requires Tidy(db, staffId) && newId !in db
    requires s.staffId == staffId ==> forall id :: id in db && db[id].staffId == staffId ==>
        !db[id].status.Open? && db[id].date < s.date
    ensures Tidy(db[newId := s], staffId)
  {
  }

  lemma PunchInVisit(cal: Calendar, db: Db, staffId: StaffId, v: Visit)
    requires AllWellFormed(db) && FollowsScan(cal, db, v) && v.request.PunchInRequest? && v.request.staffId == staffId
    requires Tidy(db, staffId) && NoneAfter(db, staffId, StartOfOrgDay(cal, v.now))
    ensures Tidy(Apply(cal, db, v.request).0, staffId)
  {
    var today := StartOfOrgDay(cal, v.now);
    NoSessionMeansNone(cal, db, staffId, v.now, v.last, v.state);
    forall id | id in db && db[id].staffId == staffId
      ensures !db[id].status.Open? && db[id].date < today
    {
      assert !Todays(db, staffId, today, id) && !OldOpen(db, staffId, today, id);
    }
    AddKeepsTidy(db, staffId, v.request.newId, NewSession(staffId, today, v.request.time.ms));
  }

  /** The open session of an earlier day that scan returned is the newest of all. */
  lemma PreviousOpenIsNewest(cal: Calendar, db: Db, staffId: StaffId, v: Visit)
    requires FollowsScan(cal, db, v) && v.request.LateRequest? && v.request.staffId == staffId && Tidy(db, staffId)
    ensures OldOpen(db, staffId, StartOfOrgDay(cal, v.now), v.state.session)
    ensures NoneAfter(db, staffId, db[v.state.session].date)
  {
  }

  lemma LateVisit(cal: Calendar, db: Db, staffId: StaffId, v: Visit)
    requires FollowsScan(cal, db, v) && v.request.LateRequest? && v.request.staffId == staffId
    requires Tidy(db, staffId)
    ensures Tidy(Apply(cal, db, v.request).0, staffId)
  {
    var r := v.request;
    if Apply(cal, db, r).1.Done? {
      var prev := v.state.session;
      var closed := ClosedSession(db[prev], Late, Event(LatePunchOut, r.approxOut.value.ms), r.listed);
      PreviousOpenIsNewest(cal, db, staffId, v);
      UpdateKeepsTidy(db, staffId, prev, closed);
      AddKeepsTidy(db[prev := closed], staffId, r.newId,
                   NewSession(staffId, StartOfOrgDay(cal, r.punchIn.value.ms), r.punchIn.value.ms));
    }
  }

  /** A request of another member, or one that opens no session. */
  lemma OtherVisit(cal: Calendar, db: Db, staffId: StaffId, r: Request)
    requires Tidy(db, staffId) && Feasible(db, r)
    requires r.staffId != staffId || r.BreakRequest? || r.PunchOutRequest?
    ensures Tidy(Apply(cal, db, r).0, staffId)
  {
    if Apply(cal, db, r).1.Done? {
      match r {
        case PunchInRequest(member, time, newId) =>
          AddKeepsTidy(db, staffId, newId, NewSession(member, StartOfOrgDay(cal, time.ms), time.ms));
        case BreakRequest(_, sessionId, _, _, _) =>
          UpdateKeepsTidy(db, staffId, sessionId.value, Apply(cal, db, r).0[sessionId.value]);
        case PunchOutRequest(_, sessionId, _, _) =>
          UpdateKeepsTidy(db, staffId, sessionId.value, Apply(cal, db, r).0[sessionId.value]);
        case LateRequest(member, sessionId, approxOut, punchIn, newId, listed) =>
          var closed := ClosedSession(db[sessionId.value], Late, Event(LatePunchOut, approxOut.value.ms), listed);
          UpdateKeepsTidy(db, staffId, sessionId.value, closed);
          AddKeepsTidy(db[sessionId.value := closed], staffId, newId,
                       NewSession(member, StartOfOrgDay(cal, punchIn.value.ms), punchIn.value.ms));
      }
    }
  }

  /** New sessions carry the date of the punch-in; no other date changes. */
  lemma DatesAfter(cal: Calendar, db: Db, staffId: StaffId, day: int, r: Request)
    requires NoneAfter(db, staffId, day) && Feasible(db, r)
    requires var d := PunchInDay(cal, staffId, r); d.Some? ==> d.value <= day
    ensures NoneAfter(Apply(cal, db, r).0, staffId, day)
  {
  }

  /** In every run in which the clock never goes back and every action is one that scan has just
      offered, a staff member has at most one session per org day and at most one open session,
      and the open one has the latest date. */
  lemma {:induction false} GuidedRunStaysTidy(cal: Calendar, db: Db, staffId: StaffId, clock: int, vs: seq<Visit>)
    requires AllWellFormed(db) && Tidy(db, staffId) && NoneAfter(db, staffId, StartOfOrgDay(cal, clock))
    requires GuidedRun(cal, db, clock, vs)
    ensures Tidy(Run(cal, db, Requests(vs)), staffId)
    decreases |vs|
  {
    if vs != [] {
      var v := vs[0];
      StartOfOrgDayIsMonotone(cal, clock, v.now);
      StepKeepsWellFormed(cal, db, v.request);
      DatesAfter(cal, db, staffId, StartOfOrgDay(cal, v.now), v.request);
      if v.request.staffId != staffId || v.request.BreakRequest? || v.request.PunchOutRequest? {
        OtherVisit(cal, db, staffId, v.request);
      } else if v.request.PunchInRequest? {
        PunchInVisit(cal, db, staffId, v);
      } else {
        LateVisit(cal, db, staffId, v);
      }
      GuidedRunStaysTidy(cal, Apply(cal, db, v.request).0, staffId, v.now, vs[1..]);
      assert Requests(vs)[1..] == Requests(vs[1..]);
    }
  }

  /** Deleting a staff member, with that member's sessions, keeps all of this for everybody else. */
  lemma DeletingStaffKeepsTidy(db: Db, gone: StaffId, staffId: StaffId)
    ensures AllWellFormed(db) ==> AllWellFormed(WithoutStaff(db, gone))
    ensures AtMostOneOpen(db, staffId) ==> AtMostOneOpen(WithoutStaff(db, gone), staffId)
    ensures Tidy(db, staffId) ==> Tidy(WithoutStaff(db, gone), staffId)
    ensures forall id :: id in WithoutStaff(db, gone) <==> id in db && db[id].staffId != gone
    ensures forall id :: id in WithoutStaff(db, gone) ==> WithoutStaff(db, gone)[id] == db[id]
  {
  }

  // ---------- The hypotheses are needed ----------

  lemma RunCons(cal: Calendar, db: Db, r: Request, rs: seq<Request>)
    ensures Run(cal, db, [r] + rs) == Run(cal, Apply(cal, db, r).0, rs)
    ensures FeasibleRun(cal, db, [r] + rs) <==> Feasible(db, r) && FeasibleRun(cal, Apply(cal, db, r).0, rs)
  {
    assert ([r] + rs)[1..] == rs;
  }

  lemma RunOne(cal: Calendar, db: Db, r: Request)
    ensures Run(cal, db, [r]) == Apply(cal, db, r).0
    ensures FeasibleRun(cal, db, [r]) <==> Feasible(db, r)
  {
    assert [r] + [] == [r];
    RunCons(cal, db, r, []);
  }

  ghost predicate AllBefore(db: Db, staffId: StaffId, day: int) {
    forall id :: id in db && db[id].staffId == staffId ==> db[id].date < day
  }

  lemma AddIsTidyIff(db: Db, staffId: StaffId, newId: SessionId, s: Session)
    requires Tidy(db, staffId) && newId !in db && s.staffId == staffId && s.status.Open?
    requires forall id :: id in db ==> !IsOpenOf(db[id], staffId)
    ensures Tidy(db[newId := s], staffId) <==> AllBefore(db, staffId, s.date)
  {
    var after := db[newId := s];
    forall id | id in db && db[id].staffId == staffId
      ensures after[id] == db[id] && after[newId] == s && id != newId
    {
    }
    if AllBefore(db, staffId, s.date) {
      AddKeepsTidy(db, staffId, newId, s);
    }
  }

  /** Without scan, an accepted request that opens a session keeps one session per day and the open
      one newest exactly if all the member's sessions lie before its day. */
  lemma OpeningKeepsTidyIff(cal: Calendar, db: Db, staffId: StaffId, r: Request)
    requires Tidy(db, staffId) && Feasible(db, r) && r.staffId == staffId
    requires (r.PunchInRequest? || r.LateRequest?) && Apply(cal, db, r).1.Done?
    ensures Tidy(Apply(cal, db, r).0, staffId) <==> AllBefore(db, staffId, PunchInDay(cal, staffId, r).value)
  {
    var day := PunchInDay(cal, staffId, r).value;
    if r.LateRequest? {
      var prev := r.sessionId.value;
      var closed := ClosedSession(db[prev], Late, Event(LatePunchOut, r.approxOut.value.ms), r.listed);
      UpdateKeepsTidy(db, staffId, prev, closed);
      AddIsTidyIff(db[prev := closed], staffId, r.newId, NewSession(staffId, day, r.punchIn.value.ms));
      SameDates(db, prev, closed, staffId, day);
    } else {
      PunchInIsTidyIff(db, staffId, r.newId, NewSession(staffId, day, r.time.ms));
    }
  }

  lemma SameDates(db: Db, id: SessionId, s: Session, staffId: StaffId, day: int)
    requires id in db && s.staffId == db[id].staffId && s.date == db[id].date
    ensures AllBefore(db[id := s], staffId, day) <==> AllBefore(db, staffId, day)
  {
    var after := db[id := s];
    forall other | other in db
      ensures other in after && after[other].staffId == db[other].staffId && after[other].date == db[other].date
    {
    }
  }

  /** Sessions still open at an accepted punch-in are of a later day. */
  lemma PunchInIsTidyIff(db: Db, staffId: StaffId, newId: SessionId, s: Session)
    requires Tidy(db, staffId) && newId !in db && s.staffId == staffId && s.status.Open?
    requires MayPunchIn(db, staffId, s.date)
    ensures Tidy(db[newId := s], staffId) <==> AllBefore(db, staffId, s.date)
  {
    if forall id :: id in db ==> !IsOpenOf(db[id], staffId) {
      AddIsTidyIff(db, staffId, newId, s);
    } else {
      var id :| id in db && IsOpenOf(db[id], staffId);
      var after := db[newId := s];
      assert IsOpenOf(after[newId], staffId) && IsOpenOf(after[id], staffId) && id != newId;
    }
  }

  /** Once a day's session is closed, nothing in the punch-in action stops a second one on that day. */
  lemma SecondSessionIsAccepted(cal: Calendar, db: Db, staffId: StaffId, id: SessionId, t: int, newId: SessionId)
    requires Todays(db, staffId, StartOfOrgDay(cal, t), id) && newId !in db
    requires forall other :: other in db ==> !IsOpenOf(db[other], staffId)
    ensures PunchInSpec(cal, db, staffId, At(t), newId).1.Done?
    ensures !Tidy(PunchInSpec(cal, db, staffId, At(t), newId).0, staffId)
  {
    var after := PunchInSpec(cal, db, staffId, At(t), newId).0;
    assert after[id].date == after[newId].date;
  }

  function InstantBreak(): seq<Event> {
    [Event(PunchIn, 0), Event(BreakStart, 1000), Event(BreakEnd, 1000)]
  }

  lemma InstantBreakRun(cal: Calendar) returns (rs: seq<Request>, db: Db)
    ensures FeasibleRun(cal, map[], rs) && db == Run(cal, map[], rs)
    ensures "a" in db && db["a"].staffId == "s" && db["a"].status.Open? && db["a"].events == InstantBreak()
  {
    var punchIn, start := Event(PunchIn, 0), Event(BreakStart, 1000);
    var a := PunchInRequest("s", At(0), "a");
    var b := BreakRequest("s", Some("a"), At(1000), true, Some(punchIn));
    var c := BreakRequest("s", Some("a"), At(1000), false, Some(start));
    var db1 := Apply(cal, map[], a).0;
    var db2 := Apply(cal, db1, b).0;
    assert IsLatest(db1["a"].events, punchIn);
    assert db2["a"].events == [punchIn, start] && IsLatest(db2["a"].events, start);
    rs, db := [a] + ([b] + [c]), Apply(cal, db2, c).0;
    RunCons(cal, map[], a, [b] + [c]);
    RunCons(cal, db1, b, [c]);
    RunOne(cal, db2, c);
  }

  lemma {:induction false} RunAppend(cal: Calendar, db: Db, rs: seq<Request>, r: Request)
    ensures Run(cal, db, rs + [r]) == Apply(cal, Run(cal, db, rs), r).0
    ensures FeasibleRun(cal, db, rs + [r]) <==> FeasibleRun(cal, db, rs) && Feasible(Run(cal, db, rs), r)
    decreases |rs|
  {
    if rs == [] {
      RunOne(cal, db, r);
      assert rs + [r] == [r];
    } else {
      RunAppend(cal, Apply(cal, db, rs[0]).0, rs[1..], r);
      assert rs + [r] == [rs[0]] + (rs[1..] + [r]);
      RunCons(cal, db, rs[0], rs[1..] + [r]);
    }
  }

  lemma PunchOutRun(cal: Calendar, before: seq<Request>, db: Db, id: SessionId, t: int, listed: seq<Event>)
    returns (rs: seq<Request>)
    requires FeasibleRun(cal, map[], before) && db == Run(cal, map[], before)
    requires id in db && db[id].status.Open? && ListingRead(db[id].events, listed)
    ensures FeasibleRun(cal, map[], rs)
    ensures Run(cal, map[], rs) == db[id := ClosedSession(db[id], Normal, Event(PunchOut, t), listed)]
  {
    var r := PunchOutRequest(db[id].staffId, Some(id), At(t), listed);
    rs := before + [r];
    RunAppend(cal, map[], before, r);
  }

  /** A run in which a break starts and ends at one instant, after which the export may recompute a
      break time other than the stored one. */
  lemma InstantBreakDisagrees(cal: Calendar) returns (rs: seq<Request>, exported: seq<Event>)
    ensures FeasibleRun(cal, map[], rs)
    ensures var db := Run(cal, map[], rs);
      "a" in db && db["a"].status.Closed? && ListingRead(db["a"].events, exported)
        && db["a"].totalBreakSeconds != Total(Break, exported)
  {
    var before, db := InstantBreakRun(cal);
    InstantBreakIsUnsettled();
    var listed;
    listed, exported := UnsettledListingsDiffer(Break, db["a"].events, Event(PunchOut, 5000));
    rs := PunchOutRun(cal, before, db, "a", 5000, listed);
  }

  /** A run without scan that ends with two sessions of one member on one day. */
  lemma SecondSessionOnTheSameDay(cal: Calendar) returns (rs: seq<Request>)
    ensures FeasibleRun(cal, map[], rs) && !Tidy(Run(cal, map[], rs), "s")
  {
    var t := cal(0);
    var events := [Event(PunchIn, t)];
    var a := PunchInRequest("s", At(t), "a");
    var b := PunchOutRequest("s", Some("a"), At(t), events);
    var c := PunchInRequest("s", At(t), "b");
    var db1 := Apply(cal, map[], a).0;
    var db2 := Apply(cal, db1, b).0;
    SecondSessionIsAccepted(cal, db2, "s", "a", t, "b");
    rs := [a] + ([b] + [c]);
    RunCons(cal, map[], a, [b] + [c]);
    RunCons(cal, db1, b, [c]);
    RunOne(cal, db2, c);
  }

  /** A run in which a punch-in day goes back and two sessions end up open. */
  lemma BackdatedPunchInOpensTwo(cal: Calendar) returns (rs: seq<Request>)
    ensures FeasibleRun(cal, map[], rs) && !AtMostOneOpen(Run(cal, map[], rs), "s")
  {
    CalendarInOrder(cal, 0, 1);
    CalendarInOrder(cal, 1, 2);
    OrgDayIsUnique(cal, cal(0), 0);
    OrgDayIsUnique(cal, cal(1), 1);
    var a := PunchInRequest("s", At(cal(1)), "a");
    var b := PunchInRequest("s", At(cal(0)), "b");
    var db1 := Apply(cal, map[], a).0;
    PunchInKeepsSingleOpenIff(cal, db1, "s", At(cal(0)), "b");
    rs := [a] + [b];
    RunCons(cal, map[], a, [b]);
    RunOne(cal, db1, b);
  }
}
