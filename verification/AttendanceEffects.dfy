/** What each attendance action accepts and what it does to the table, and where the events of a
    session come from: src/attendance/attendance.service.ts. */
module AttendanceEffects {
  import opened Basics
  import opened Totals
  import opened OrgDays
  import opened Attendance
  import opened AttendanceRuns

  /** No session but those in `touched` was changed, added or removed. */
  ghost predicate SameElsewhere(db: Db, after: Db, touched: set<SessionId>) {
    && db.Keys <= after.Keys <= db.Keys + touched
    && forall id :: id in db && id !in touched ==> after[id] == db[id]
  }

  /** The instant at which the day that contains `t` begins. */
  ghost predicate DayStart(cal: Calendar, t: int, start: int) {
    exists d :: start == cal(d) && cal(d) <= t < cal(d + 1)
  }

  ghost predicate IsOpening(cal: Calendar, s: Session, staffId: StaffId, t: int) {
    && s.staffId == staffId && DayStart(cal, t, s.date) && s.status == Open && s.closureType == None
    && s.firstPunchInAt == Some(t) && s.lastPunchOutAt == None && s.events == [Event(PunchIn, t)]
    && s.totalWorkSeconds == 0 && s.totalBreakSeconds == 0
  }

  ghost predicate IsClosing(s: Session, closed: Session, closure: Closure, out: Event, listed: seq<Event>) {
    && closed.staffId == s.staffId && closed.date == s.date && closed.firstPunchInAt == s.firstPunchInAt
    && closed.status == Closed && closed.closureType == Some(closure) && closed.lastPunchOutAt == Some(out.timestamp)
    && closed.events == s.events + [out]
    && closed.totalWorkSeconds == Total(Work, listed + [out])
    && closed.totalBreakSeconds == Total(Break, listed + [out])
  }

  ghost predicate IsOpenSessionOf(db: Db, staffId: StaffId, id: SessionId) {
    id in db && db[id].staffId == staffId && db[id].status == Open
  }

  // ---------- What each action accepts and changes ----------

  lemma DayStartIs(cal: Calendar, t: int, start: int)
    ensures DayStart(cal, t, start) <==> start == StartOfOrgDay(cal, t)
  {
    if d :| start == cal(d) && cal(d) <= t < cal(d + 1) {
      OrgDayIsUnique(cal, t, d);
    }
  }

  /** A punch-in is accepted exactly at a valid time, with no open session of the member on its day or
      before. It opens a session of its day and touches nothing else. */
  lemma PunchInEffect(cal: Calendar, db: Db, staffId: StaffId, time: Time, newId: SessionId, today: int)
    requires newId !in db && (time.At? ==> DayStart(cal, time.ms, today))
    ensures var (after, outcome) := Apply(cal, db, PunchInRequest(staffId, time, newId));
      if time == Invalid || exists id :: IsOpenSessionOf(db, staffId, id) && db[id].date <= today then
        after == db && outcome == Failed(BadRequest)
      else
        && outcome == Done(newId) && SameElsewhere(db, after, {newId})
        && newId in after && IsOpening(cal, after[newId], staffId, time.ms)
  {
    if time.At? {
      DayStartIs(cal, time.ms, today);
      DayStartIs(cal, time.ms, StartOfOrgDay(cal, time.ms));
      if id :| IsOpenSessionOf(db, staffId, id) && db[id].date <= today {
        assert IsOpenOf(db[id], staffId);
      }
    }
  }

  /** What an action on a session of the member answers when it is refused before it looks at events. */
  ghost predicate RefusedWith(db: Db, staffId: StaffId, sessionId: Option<SessionId>, time: Time, error: Error) {
    || (error == BadRequest && (sessionId == None || time == Invalid))
    || (error == NotFound && sessionId != None && time != Invalid
        && (sessionId.value !in db || db[sessionId.value].staffId != staffId))
    || (error == BadRequest && sessionId != None && time != Invalid
        && sessionId.value in db && db[sessionId.value].staffId == staffId && db[sessionId.value].status == Closed)
  }

  lemma RefusedOrOpen(db: Db, staffId: StaffId, sessionId: Option<SessionId>, time: Time)
    ensures forall error :: RefusedWith(db, staffId, sessionId, time, error) <==>
              SessionError(db, staffId, sessionId, time) == Some(error)
    ensures SessionError(db, staffId, sessionId, time) == None <==>
              sessionId.Some? && time.At? && IsOpenSessionOf(db, staffId, sessionId.value)
  {
  }

  /** A break is accepted exactly on an open session of the member whose latest event is a punch-in or
      break end, to start it, or a break start, to end it. It appends one event of its kind at the
      time of the request, and changes no other field and no other session. */
  lemma BreakEffect(cal: Calendar, db: Db, staffId: StaffId, sessionId: Option<SessionId>, time: Time, starts: bool,
                    last: Option<Event>)
    ensures var (after, outcome) := Apply(cal, db, BreakRequest(staffId, sessionId, time, starts, last));
      if && sessionId.Some? && time.At? && IsOpenSessionOf(db, staffId, sessionId.value) && last.Some?
         && last.value.kind in (if starts then {PunchIn, BreakEnd} else {BreakStart}) then
        var e := Event(if starts then BreakStart else BreakEnd, time.ms);
        && outcome == Done(sessionId.value) && SameElsewhere(db, after, {sessionId.value})
        && after[sessionId.value] == db[sessionId.value].(events := db[sessionId.value].events + [e])
      else
        && after == db && outcome.Failed?
        && ((exists error :: RefusedWith(db, staffId, sessionId, time, error)) ==>
              RefusedWith(db, staffId, sessionId, time, outcome.error))
        && ((forall error :: !RefusedWith(db, staffId, sessionId, time, error)) ==> outcome.error == BadRequest)
  {
    RefusedOrOpen(db, staffId, sessionId, time);
  }

  /** A punch-out is accepted exactly on an open session of the member, and closes it as NORMAL. */
  lemma PunchOutEffect(cal: Calendar, db: Db, staffId: StaffId, sessionId: Option<SessionId>, time: Time,
                       listed: seq<Event>)
    ensures var (after, outcome) := Apply(cal, db, PunchOutRequest(staffId, sessionId, time, listed));
      if sessionId.Some? && time.At? && IsOpenSessionOf(db, staffId, sessionId.value) then
        && outcome == Done(sessionId.value) && SameElsewhere(db, after, {sessionId.value})
        && IsClosing(db[sessionId.value], after[sessionId.value], Normal, Event(PunchOut, time.ms), listed)
      else
        after == db && outcome.Failed? && RefusedWith(db, staffId, sessionId, time, outcome.error)
  {
    RefusedOrOpen(db, staffId, sessionId, time);
  }

  /** The two times of a late punch-out are there, valid, and in order. */
  ghost predicate TimesFit(approxOut: Option<Time>, punchIn: Option<Time>) {
    && approxOut.Some? && punchIn.Some? && approxOut.value.At? && punchIn.value.At?
    && approxOut.value.ms < punchIn.value.ms
  }

  /** A late punch-out is accepted exactly on an open session of the member, at an approximate time after
      its first punch-in and before the new one. It closes that session as LATE and opens one for the
      new punch-in, whatever other sessions are open. */
  lemma LateEffect(cal: Calendar, db: Db, staffId: StaffId, previousId: Option<SessionId>, approxOut: Option<Time>,
                   punchIn: Option<Time>, newId: SessionId, listed: seq<Event>)
    requires newId !in db
    ensures var (after, outcome) := Apply(cal, db, LateRequest(staffId, previousId, approxOut, punchIn, newId, listed));
      if && previousId.Some? && TimesFit(approxOut, punchIn) && IsOpenSessionOf(db, staffId, previousId.value)
         && (db[previousId.value].firstPunchInAt.Some? ==>
               db[previousId.value].firstPunchInAt.value < approxOut.value.ms) then
        && outcome == Done(newId) && SameElsewhere(db, after, {previousId.value, newId}) && newId in after
        && IsClosing(db[previousId.value], after[previousId.value], Late,
                     Event(LatePunchOut, approxOut.value.ms), listed)
        && IsOpening(cal, after[newId], staffId, punchIn.value.ms)
      else
        && after == db && outcome.Failed?
        && (outcome.error == NotFound <==>
              && previousId.Some? && TimesFit(approxOut, punchIn)
              && (previousId.value !in db || db[previousId.value].staffId != staffId))
  {
    if approxOut.Some? {
      RefusedOrOpen(db, staffId, previousId, approxOut.value);
    }
    if TimesFit(approxOut, punchIn) {
      DayStartIs(cal, punchIn.value.ms, StartOfOrgDay(cal, punchIn.value.ms));
    }
  }

  // ---------- Where events come from ----------

  /** What an accepted request records in session `id`. */
  ghost function Recorded(r: Request, id: SessionId): seq<Event> {
    match r
    case PunchInRequest(_, time, newId) => if newId == id && time.At? then [Event(PunchIn, time.ms)] else []
    case BreakRequest(_, sessionId, time, starts, _) =>
      if sessionId == Some(id) && time.At? then [Event(if starts then BreakStart else BreakEnd, time.ms)] else []
    case PunchOutRequest(_, sessionId, time, _) =>
      if sessionId == Some(id) && time.At? then [Event(PunchOut, time.ms)] else []
    case LateRequest(_, sessionId, approxOut, punchIn, newId, _) =>
      if sessionId == Some(id) && approxOut.Some? && approxOut.value.At? then
        [Event(LatePunchOut, approxOut.value.ms)]
      else if newId == id && punchIn.Some? && punchIn.value.At? then
        [Event(PunchIn, punchIn.value.ms)]
      else []
  }

  /** What the accepted requests of a run record in a session, in order. */
  ghost function Records(cal: Calendar, db: Db, rs: seq<Request>, id: SessionId): seq<Event>
    decreases |rs|
  {
    if rs == [] then [] else RecordedBy(cal, db, rs[0], id) + Records(cal, Apply(cal, db, rs[0]).0, rs[1..], id)
  }

  ghost function RecordedBy(cal: Calendar, db: Db, r: Request, id: SessionId): seq<Event> {
    if Apply(cal, db, r).1.Done? then Recorded(r, id) else []
  }

  ghost function EventsOf(db: Db, id: SessionId): seq<Event> {
    if id in db then db[id].events else []
  }

  lemma PunchInRecords(cal: Calendar, db: Db, r: Request, id: SessionId)
    requires Feasible(db, r) && r.PunchInRequest?
    ensures EventsOf(Apply(cal, db, r).0, id) == EventsOf(db, id) + RecordedBy(cal, db, r, id)
    ensures id in Apply(cal, db, r).0 <==> id in db || RecordedBy(cal, db, r, id) != []
  {
    if r.time.At? {
      DayStartIs(cal, r.time.ms, StartOfOrgDay(cal, r.time.ms));
    }
    PunchInEffect(cal, db, r.staffId, r.time, r.newId, if r.time.At? then StartOfOrgDay(cal, r.time.ms) else 0);
  }

  lemma BreakRecords(cal: Calendar, db: Db, r: Request, id: SessionId)
    requires Feasible(db, r) && r.BreakRequest?
    ensures EventsOf(Apply(cal, db, r).0, id) == EventsOf(db, id) + RecordedBy(cal, db, r, id)
    ensures id in Apply(cal, db, r).0 <==> id in db || RecordedBy(cal, db, r, id) != []
  {
    BreakEffect(cal, db, r.staffId, r.sessionId, r.time, r.starts, r.last);
  }

  lemma PunchOutRecords(cal: Calendar, db: Db, r: Request, id: SessionId)
    requires Feasible(db, r) && r.PunchOutRequest?
    ensures EventsOf(Apply(cal, db, r).0, id) == EventsOf(db, id) + RecordedBy(cal, db, r, id)
    ensures id in Apply(cal, db, r).0 <==> id in db || RecordedBy(cal, db, r, id) != []
  {
    PunchOutEffect(cal, db, r.staffId, r.sessionId, r.time, r.listed);
  }

  lemma LateRecords(cal: Calendar, db: Db, r: Request, id: SessionId)
    requires Feasible(db, r) && r.LateRequest?
    ensures EventsOf(Apply(cal, db, r).0, id) == EventsOf(db, id) + RecordedBy(cal, db, r, id)
    ensures id in Apply(cal, db, r).0 <==> id in db || RecordedBy(cal, db, r, id) != []
  {
    LateEffect(cal, db, r.staffId, r.sessionId, r.approxOut, r.punchIn, r.newId, r.listed);
  }

  lemma StepRecords(cal: Calendar, db: Db, r: Request, id: SessionId)
    requires Feasible(db, r)
    ensures EventsOf(Apply(cal, db, r).0, id) == EventsOf(db, id) + RecordedBy(cal, db, r, id)
    ensures id in Apply(cal, db, r).0 <==> id in db || RecordedBy(cal, db, r, id) != []
  {
    match r {
      case PunchInRequest(_, _, _) => PunchInRecords(cal, db, r, id);
      case BreakRequest(_, _, _, _, _) => BreakRecords(cal, db, r, id);
      case PunchOutRequest(_, _, _, _) => PunchOutRecords(cal, db, r, id);
      case LateRequest(_, _, _, _, _, _) => LateRecords(cal, db, r, id);
    }
  }

  lemma {:induction false} RunRecords(cal: Calendar, db: Db, rs: seq<Request>, id: SessionId)
    requires FeasibleRun(cal, db, rs)
    ensures EventsOf(Run(cal, db, rs), id) == EventsOf(db, id) + Records(cal, db, rs, id)
    ensures id in Run(cal, db, rs) <==> id in db || Records(cal, db, rs, id) != []
    decreases |rs|
  {
    if rs != [] {
      StepRecords(cal, db, rs[0], id);
      RunRecords(cal, Apply(cal, db, rs[0]).0, rs[1..], id);
      Regroup(EventsOf(db, id), RecordedBy(cal, db, rs[0], id), Records(cal, Apply(cal, db, rs[0]).0, rs[1..], id));
    }
  }

  lemma Regroup(a: seq<Event>, b: seq<Event>, c: seq<Event>)
    ensures (a + b) + c == a + (b + c)
    ensures b + c != [] <==> b != [] || c != []
  {
    assert b + c == [] ==> |b + c| == 0;
  }

  /** In every run the events of a session are exactly those of the accepted requests that opened or
      named it, in their order, each with its kind and the time that its request gave. */
  lemma EventsAreRequested(cal: Calendar, rs: seq<Request>, id: SessionId)
    requires FeasibleRun(cal, map[], rs)
    ensures EventsOf(Run(cal, map[], rs), id) == Records(cal, map[], rs, id)
    ensures id in Run(cal, map[], rs) <==> Records(cal, map[], rs, id) != []
  {
    RunRecords(cal, map[], rs, id);
  }

  // ---------- What a session keeps ----------

  /** Member, day and first punch-in of a session never change, and only requests of its member touch it. */
  lemma SessionKeepsOwner(cal: Calendar, db: Db, r: Request, id: SessionId)
    requires Feasible(db, r) && id in db
    ensures var after := Apply(cal, db, r).0;
      && id in after && after[id].staffId == db[id].staffId && after[id].date == db[id].date
      && after[id].firstPunchInAt == db[id].firstPunchInAt
      && (after[id] != db[id] ==> r.staffId == db[id].staffId)
  {
  }

  ghost predicate AllDated(cal: Calendar, db: Db) {
    forall id :: id in db ==> db[id].events != [] && DayStart(cal, db[id].events[0].timestamp, db[id].date)
  }

  lemma StepKeepsDated(cal: Calendar, db: Db, r: Request)
    requires Feasible(db, r) && AllDated(cal, db)
    ensures AllDated(cal, Apply(cal, db, r).0)
  {
    var (after, outcome) := Apply(cal, db, r);
    forall id | id in after
      ensures after[id].events != [] && DayStart(cal, after[id].events[0].timestamp, after[id].date)
    {
      StepRecords(cal, db, r, id);
      if id in db {
        SessionKeepsOwner(cal, db, r, id);
      } else {
        NewSessionIsDated(cal, db, r, id);
      }
    }
  }

  lemma NewSessionIsDated(cal: Calendar, db: Db, r: Request, id: SessionId)
    requires Feasible(db, r) && id !in db && id in Apply(cal, db, r).0
    ensures var s := Apply(cal, db, r).0[id];
      s.staffId == r.staffId && s.events != [] && DayStart(cal, s.events[0].timestamp, s.date)
  {
    var t := if r.PunchInRequest? then r.time.ms else r.punchIn.value.ms;
    DayStartIs(cal, t, StartOfOrgDay(cal, t));
  }

  /** In every run the date of a session is the beginning of the day that contains its first punch-in. */
  lemma {:induction false} RunKeepsDated(cal: Calendar, db: Db, rs: seq<Request>)
    requires FeasibleRun(cal, db, rs) && AllDated(cal, db)
    ensures AllDated(cal, Run(cal, db, rs))
    decreases |rs|
  {
    if rs != [] {
      StepKeepsDated(cal, db, rs[0]);
      RunKeepsDated(cal, Apply(cal, db, rs[0]).0, rs[1..]);
    }
  }

  // ---------- Scan ----------

  ghost predicate IsOld(db: Db, staffId: StaffId, today: int, id: SessionId) {
    IsOpenSessionOf(db, staffId, id) && db[id].date < today
  }

  ghost predicate IsTodays(db: Db, staffId: StaffId, today: int, id: SessionId) {
    id in db && db[id].staffId == staffId && db[id].date == today
  }

  ghost predicate IsNewest(events: seq<Event>, e: Event) {
    e in events && forall f :: f in events ==> f.timestamp <= e.timestamp
  }

  /** What the session of today that scan looks at says. */
  lemma TodaysAnswer(db: Db, id: SessionId, last: Option<Event>, state: ScanState)
    requires id in db && WellFormed(db[id]) && (db[id].status.Open? ==> LastEventRead(db[id].events, last))
    requires state == TodayState(id, db[id], last)
    ensures match state
      case Working(i) =>
        i == id && db[id].status == Open && exists e :: IsNewest(db[id].events, e) && e.kind != BreakStart
      case OnBreak(i) =>
        i == id && db[id].status == Open && exists e :: IsNewest(db[id].events, e) && e.kind == BreakStart
      case DayCompleted => db[id].status == Closed
      case _ => false
  {
    FallbacksAreUnreachable(id, db[id], last);
    assert db[id].status.Open? ==> IsNewest(db[id].events, last.value);
  }

  /** What each answer of scan means for the sessions of the member, in a well-formed table: an open
      session of an earlier day comes first, and of those the newest; then a session of today, by its
      status and a latest event of it; and none only if there is neither. */
  lemma ScanMeans(cal: Calendar, db: Db, staffId: StaffId, now: int, last: Option<Event>, state: ScanState, today: int)
    requires AllWellFormed(db) && MayScan(cal, db, staffId, now, last, state) && DayStart(cal, now, today)
    ensures match state
      case PreviousOpen(id) =>
        && IsOld(db, staffId, today, id)
        && forall other :: IsOld(db, staffId, today, other) ==> db[other].date <= db[id].date
      case Working(id) =>
        && (forall other :: !IsOld(db, staffId, today, other))
        && IsTodays(db, staffId, today, id) && db[id].status == Open
        && exists e :: IsNewest(db[id].events, e) && e.kind != BreakStart
      case OnBreak(id) =>
        && (forall other :: !IsOld(db, staffId, today, other))
        && IsTodays(db, staffId, today, id) && db[id].status == Open
        && exists e :: IsNewest(db[id].events, e) && e.kind == BreakStart
      case DayCompleted =>
        && (forall other :: !IsOld(db, staffId, today, other))
        && exists id :: IsTodays(db, staffId, today, id) && db[id].status == Closed
      case NoSessionToday =>
        forall other :: !IsOld(db, staffId, today, other) && !IsTodays(db, staffId, today, other)
  {
    DayStartIs(cal, now, today);
    forall id ensures IsOld(db, staffId, today, id) <==> OldOpen(db, staffId, today, id) {
    }
    forall id ensures IsTodays(db, staffId, today, id) <==> Todays(db, staffId, today, id) {
    }
    if (forall id :: !OldOpen(db, staffId, today, id)) && exists id :: Todays(db, staffId, today, id) {
      var id :| && Todays(db, staffId, today, id) && (db[id].status.Open? ==> LastEventRead(db[id].events, last))
                && state == TodayState(id, db[id], last);
      TodaysAnswer(db, id, last, state);
    }
  }
}
