/** The attendance engine of src/attendance/attendance.service.ts: `scan` and the five actions over
    the table of attendance sessions with their events.

    Each action is a total function on the table (`PunchInSpec` and so on); the methods of
    `AttendanceService` change the table step by step and are proved to meet it. Where the database
    may answer in several ways (which of two events with the same timestamp comes first, which of
    several matching rows is found), the answer is an argument, and theorems hold for every answer
    that the query allows. */
module Attendance {
  import opened Basics
  import opened Totals
  import opened Sorting
  import opened OrgDays

  type StaffId = string
  type SessionId = string

  datatype Status = Open | Closed
  datatype Closure = Normal | Late

  datatype Session = Session(
    staffId: StaffId,
    date: int,
    status: Status,
    closureType: Option<Closure>,
    firstPunchInAt: Option<int>,
    lastPunchOutAt: Option<int>,
    totalWorkSeconds: int,
    totalBreakSeconds: int,
    events: seq<Event>)

  type Db = map<SessionId, Session>

  /** A parsed time: JavaScript's `Invalid Date` or milliseconds since the epoch. */
  datatype Time = Invalid | At(ms: int)

  datatype Error = BadRequest | NotFound
  datatype Outcome = Done(session: SessionId) | Failed(error: Error)

  // ---------- What the database may answer ----------

  ghost predicate IsLatest(events: seq<Event>, e: Event) {
    e in events && forall f :: f in events ==> f.timestamp <= e.timestamp
  }

  /** `orderBy: { timestamp: 'desc' }, take: 1` */
  ghost predicate LastEventRead(events: seq<Event>, last: Option<Event>) {
    if events == [] then last.None? else last.Some? && IsLatest(events, last.value)
  }

  predicate IsOpenOf(s: Session, staffId: StaffId) {
    s.staffId == staffId && s.status.Open?
  }

  // ---------- The actions ----------

  function NewSession(staffId: StaffId, date: int, punchIn: int): Session {
    Session(staffId, date, Open, None, Some(punchIn), None, 0, 0, [Event(PunchIn, punchIn)])
  }

  ghost function ClosedSession(s: Session, closure: Closure, out: Event, listed: seq<Event>): Session {
    s.(status := Closed,
       closureType := Some(closure),
       lastPunchOutAt := Some(out.timestamp),
       totalWorkSeconds := Total(Work, listed + [out]),
       totalBreakSeconds := Total(Break, listed + [out]),
       events := s.events + [out])
  }

  ghost predicate MayPunchIn(db: Db, staffId: StaffId, today: int) {
    forall id :: id in db && IsOpenOf(db[id], staffId) ==> today < db[id].date
  }

  ghost function PunchInSpec(cal: Calendar, db: Db, staffId: StaffId, time: Time, newId: SessionId): (Db, Outcome) {
    if time.Invalid? || !MayPunchIn(db, staffId, StartOfOrgDay(cal, time.ms)) then (db, Failed(BadRequest))
    else (db[newId := NewSession(staffId, StartOfOrgDay(cal, time.ms), time.ms)], Done(newId))
  }

  /** The checks that all actions on an existing session share. */
  function SessionError(db: Db, staffId: StaffId, sessionId: Option<SessionId>, time: Time): Option<Error> {
    if sessionId.None? || time.Invalid? then Some(BadRequest)
    else if sessionId.value !in db || db[sessionId.value].staffId != staffId then Some(NotFound)
    else if db[sessionId.value].status != Open then Some(BadRequest)
    else None
  }

  /** A break starts while working and ends while on break. */
  predicate MayFollow(kind: EventType, last: EventType) {
    if kind.BreakStart? then last.StartsWork() else last.BreakStart?
  }

  function BreakSpec(db: Db, staffId: StaffId, sessionId: Option<SessionId>, time: Time,
                     kind: EventType, last: Option<Event>): (Db, Outcome)
    requires kind.BreakStart? || kind.BreakEnd?
  {
    var error := SessionError(db, staffId, sessionId, time);
    if error.Some? then (db, Failed(error.value))
    else if last.None? || !MayFollow(kind, last.value.kind) then (db, Failed(BadRequest))
    else
      var s := db[sessionId.value];
      (db[sessionId.value := s.(events := s.events + [Event(kind, time.ms)])], Done(sessionId.value))
  }

  ghost function PunchOutSpec(db: Db, staffId: StaffId, sessionId: Option<SessionId>, time: Time,
                              listed: seq<Event>): (Db, Outcome) {
    var error := SessionError(db, staffId, sessionId, time);
    if error.Some? then (db, Failed(error.value))
    else (db[sessionId.value := ClosedSession(db[sessionId.value], Normal, Event(PunchOut, time.ms), listed)],
          Done(sessionId.value))
  }

  predicate InOrder(approxOut: Time, punchIn: Time) {
    approxOut.At? && punchIn.At? && approxOut.ms < punchIn.ms
  }

  ghost function LateSpec(cal: Calendar, db: Db, staffId: StaffId, previousId: Option<SessionId>,
                          approxOut: Option<Time>, punchIn: Option<Time>, newId: SessionId,
                          listed: seq<Event>): (Db, Outcome) {
    if previousId.None? || approxOut.None? || punchIn.None? then (db, Failed(BadRequest))
    else if !InOrder(approxOut.value, punchIn.value) then (db, Failed(BadRequest))
    else
      var error := SessionError(db, staffId, previousId, approxOut.value);
      if error.Some? then (db, Failed(error.value))
      else
        var prev := db[previousId.value];
        var out, start := approxOut.value.ms, punchIn.value.ms;
        if prev.firstPunchInAt.Some? && out <= prev.firstPunchInAt.value then (db, Failed(BadRequest))
        else
          (db[previousId.value := ClosedSession(prev, Late, Event(LatePunchOut, out), listed)]
             [newId := NewSession(staffId, StartOfOrgDay(cal, start), start)],
           Done(newId))
  }

  /** A request together with the identifier drawn for a new row and the database's answers. */
  datatype Request =
    | PunchInRequest(staffId: StaffId, time: Time, newId: SessionId)
    | BreakRequest(staffId: StaffId, sessionId: Option<SessionId>, time: Time, starts: bool, last: Option<Event>)
    | PunchOutRequest(staffId: StaffId, sessionId: Option<SessionId>, time: Time, listed: seq<Event>)
    | LateRequest(staffId: StaffId, sessionId: Option<SessionId>, approxOut: Option<Time>, punchIn: Option<Time>,
                  newId: SessionId, listed: seq<Event>)

  ghost function Apply(cal: Calendar, db: Db, r: Request): (Db, Outcome) {
    match r
    case PunchInRequest(staffId, time, newId) => PunchInSpec(cal, db, staffId, time, newId)
    case BreakRequest(staffId, sessionId, time, starts, last) =>
      BreakSpec(db, staffId, sessionId, time, if starts then BreakStart else BreakEnd, last)
    case PunchOutRequest(staffId, sessionId, time, listed) => PunchOutSpec(db, staffId, sessionId, time, listed)
    case LateRequest(staffId, sessionId, approxOut, punchIn, newId, listed) =>
      LateSpec(cal, db, staffId, sessionId, approxOut, punchIn, newId, listed)
  }

  /** The request passes the checks that come before the late punch-out looks at the session's events. */
  predicate LateReadsSession(db: Db, r: Request)
    requires r.LateRequest?
  {
    && r.approxOut.Some? && r.punchIn.Some? && InOrder(r.approxOut.value, r.punchIn.value)
    && SessionError(db, r.staffId, r.sessionId, r.approxOut.value).None?
  }

  /** New identifiers are fresh, and the answers are ones the queries allow. */
  ghost predicate Feasible(db: Db, r: Request) {
    match r
    case PunchInRequest(_, _, newId) => newId !in db
    case BreakRequest(staffId, sessionId, time, _, last) =>
      SessionError(db, staffId, sessionId, time).None? ==> LastEventRead(db[sessionId.value].events, last)
    case PunchOutRequest(staffId, sessionId, time, listed) =>
      SessionError(db, staffId, sessionId, time).None? ==> ListingRead(db[sessionId.value].events, listed)
    case LateRequest(staffId, sessionId, approxOut, punchIn, newId, listed) =>
      && newId !in db
      && (LateReadsSession(db, r) ==> ListingRead(db[sessionId.value].events, listed))
  }

  ghost function Run(cal: Calendar, db: Db, rs: seq<Request>): Db
    decreases |rs|
  {
    if rs == [] then db else Run(cal, Apply(cal, db, rs[0]).0, rs[1..])
  }

  ghost predicate FeasibleRun(cal: Calendar, db: Db, rs: seq<Request>)
    decreases |rs|
  {
    rs == [] || (Feasible(db, rs[0]) && FeasibleRun(cal, Apply(cal, db, rs[0]).0, rs[1..]))
  }

  /** Deleting a staff row cascades to the member's sessions with their events. */
  function WithoutStaff(db: Db, gone: StaffId): Db {
    map id | id in db && db[id].staffId != gone :: db[id]
  }

  // ---------- Scan ----------

  datatype ScanState =
    | NoSessionToday
    | Working(session: SessionId)
    | OnBreak(session: SessionId)
    | PreviousOpen(session: SessionId)
    | DayCompleted

  predicate OldOpen(db: Db, staffId: StaffId, today: int, id: SessionId) {
    id in db && IsOpenOf(db[id], staffId) && db[id].date < today
  }

  predicate Todays(db: Db, staffId: StaffId, today: int, id: SessionId) {
    id in db && db[id].staffId == staffId && db[id].date == today
  }

  /** What scan makes of a session of today, given its latest event. */
  function TodayState(id: SessionId, s: Session, last: Option<Event>): ScanState {
    if s.status.Closed? then DayCompleted
    else if last.None? then NoSessionToday
    else if last.value.kind.BreakStart? then OnBreak(id)
    else if last.value.kind.StartsWork() then Working(id)
    else NoSessionToday
  }

  /** `state` is an answer that scan may give, having read `last` if it looked at events at all:
      the newest open session of an earlier day comes first, then any one session of today. */
  ghost predicate MayScan(cal: Calendar, db: Db, staffId: StaffId, now: int, last: Option<Event>, state: ScanState) {
    var today := StartOfOrgDay(cal, now);
    if exists id :: OldOpen(db, staffId, today, id) then
      && state.PreviousOpen?
      && OldOpen(db, staffId, today, state.session)
      && forall id :: OldOpen(db, staffId, today, id) ==> db[id].date <= db[state.session].date
    else if exists id :: Todays(db, staffId, today, id) then
      exists id :: Todays(db, staffId, today, id)
                   && (db[id].status.Open? ==> LastEventRead(db[id].events, last))
                   && state == TodayState(id, db[id], last)
    else state == NoSessionToday
  }

  // ---------- The service ----------

  class AttendanceService {
    const cal: Calendar
    var sessions: Db

    constructor (cal: Calendar)
      ensures this.cal == cal && sessions == map[]
    {
      this.cal := cal;
      sessions := map[];
    }

    method HandlePunchIn(staffId: StaffId, time: Time, newId: SessionId) returns (r: Outcome)
      requires newId !in sessions
      modifies this
      ensures (sessions, r) == PunchInSpec(cal, old(sessions), staffId, time, newId)
    {
      if time.Invalid? {
        return Failed(BadRequest);
      }
      var today := StartOfOrgDay(cal, time.ms);
      var openOldSession := exists id :: id in sessions && IsOpenOf(sessions[id], staffId) && sessions[id].date < today;
      if openOldSession {
        return Failed(BadRequest);
      }
      var openToday := exists id :: id in sessions && IsOpenOf(sessions[id], staffId) && sessions[id].date == today;
      if openToday {
        return Failed(BadRequest);
      }
      assert MayPunchIn(sessions, staffId, today);
      OpenSession(staffId, today, time.ms, newId);
      r := Done(newId);
    }

    /** `attendanceEvent.create` */
    method AddEvent(sessionId: SessionId, e: Event)
      requires sessionId in sessions
      modifies this
      ensures sessions
          == old(sessions)[sessionId := old(sessions)[sessionId].(events := old(sessions)[sessionId].events + [e])]
    {
      var s := sessions[sessionId];
      sessions := sessions[sessionId := s.(events := s.events + [e])];
    }

    /** Creates a session and its punch-in event. */
    method OpenSession(staffId: StaffId, today: int, time: int, newId: SessionId)
      requires newId !in sessions
      modifies this
      ensures sessions == old(sessions)[newId := NewSession(staffId, today, time)]
    {
      sessions := sessions[newId := Session(staffId, today, Open, None, Some(time), None, 0, 0, [])];
      AddEvent(newId, Event(PunchIn, time));
      assert [] + [Event(PunchIn, time)] == [Event(PunchIn, time)];
      assert sessions == old(sessions)[newId := NewSession(staffId, today, time)];
    }

    method LastEvent(sessionId: SessionId) returns (last: Option<Event>)
      requires sessionId in sessions
      ensures LastEventRead(sessions[sessionId].events, last)
    {
      var events := sessions[sessionId].events;
      if |events| == 0 {
        return None;
      }
      var best := events[0];
      for i := 1 to |events|
        invariant best in events
        invariant forall j :: 0 <= j < i ==> events[j].timestamp <= best.timestamp
      {
        if best.timestamp < events[i].timestamp {
          best := events[i];
        }
      }
      last := Some(best);
    }

    method Listing(sessionId: SessionId) returns (listed: seq<Event>)
      requires sessionId in sessions
      ensures ListingRead(sessions[sessionId].events, listed)
    {
      listed := Sort(Timestamp, sessions[sessionId].events);
      SortPermutes(Timestamp, sessions[sessionId].events);
    }

    method HandleBreakStart(staffId: StaffId, sessionId: Option<SessionId>, time: Time)
      returns (r: Outcome, ghost last: Option<Event>)
      modifies this
      ensures (sessions, r) == BreakSpec(old(sessions), staffId, sessionId, time, BreakStart, last)
      ensures Feasible(old(sessions), BreakRequest(staffId, sessionId, time, true, last))
    {
      last := None;
      if sessionId.None? || time.Invalid? {
        return Failed(BadRequest), last;
      }
      if sessionId.value !in sessions || sessions[sessionId.value].staffId != staffId {
        return Failed(NotFound), last;
      }
      if sessions[sessionId.value].status != Open {
        return Failed(BadRequest), last;
      }
      var read := LastEvent(sessionId.value);
      last := read;
      if read.None? || (read.value.kind != PunchIn && read.value.kind != BreakEnd) {
        return Failed(BadRequest), last;
      }
      AddEvent(sessionId.value, Event(BreakStart, time.ms));
      r := Done(sessionId.value);
    }

    method HandleBreakEnd(staffId: StaffId, sessionId: Option<SessionId>, time: Time)
      returns (r: Outcome, ghost last: Option<Event>)
      modifies this
      ensures (sessions, r) == BreakSpec(old(sessions), staffId, sessionId, time, BreakEnd, last)
      ensures Feasible(old(sessions), BreakRequest(staffId, sessionId, time, false, last))
    {
      last := None;
      if sessionId.None? || time.Invalid? {
        return Failed(BadRequest), last;
      }
      if sessionId.value !in sessions || sessions[sessionId.value].staffId != staffId {
        return Failed(NotFound), last;
      }
      if sessions[sessionId.value].status != Open {
        return Failed(BadRequest), last;
      }
      var read := LastEvent(sessionId.value);
      last := read;
      if read.None? || read.value.kind != BreakStart {
        return Failed(BadRequest), last;
      }
      AddEvent(sessionId.value, Event(BreakEnd, time.ms));
      r := Done(sessionId.value);
    }

    /** Appends the out-event, recomputes the totals and closes the session. */
    method Close(sessionId: SessionId, closure: Closure, out: Event) returns (ghost listed: seq<Event>)
      requires sessionId in sessions
      modifies this
      ensures ListingRead(old(sessions)[sessionId].events, listed)
      ensures sessions == old(sessions)[sessionId := ClosedSession(old(sessions)[sessionId], closure, out, listed)]
    {
      var events := Listing(sessionId);
      listed := events;
      AddEvent(sessionId, out);
      var totalWorkSeconds, totalBreakSeconds := RecalcTotals(events + [out]);
      sessions := sessions[sessionId := sessions[sessionId].(
        status := Closed,
        closureType := Some(closure),
        lastPunchOutAt := Some(out.timestamp),
        totalWorkSeconds := totalWorkSeconds,
        totalBreakSeconds := totalBreakSeconds)];
    }

    method HandlePunchOut(staffId: StaffId, sessionId: Option<SessionId>, time: Time)
      returns (r: Outcome, ghost listed: seq<Event>)
      modifies this
      ensures (sessions, r) == PunchOutSpec(old(sessions), staffId, sessionId, time, listed)
      ensures Feasible(old(sessions), PunchOutRequest(staffId, sessionId, time, listed))
    {
      listed := [];
      if sessionId.None? || time.Invalid? {
        return Failed(BadRequest), listed;
      }
      if sessionId.value !in sessions || sessions[sessionId.value].staffId != staffId {
        return Failed(NotFound), listed;
      }
      if sessions[sessionId.value].status != Open {
        return Failed(BadRequest), listed;
      }
      listed := Close(sessionId.value, Normal, Event(PunchOut, time.ms));
      r := Done(sessionId.value);
    }

    method HandleLatePunchOutAndPunchIn(staffId: StaffId, previousId: Option<SessionId>, approxOut: Option<Time>,
                                        punchIn: Option<Time>, newId: SessionId)
      returns (r: Outcome, ghost listed: seq<Event>)
      requires newId !in sessions
      modifies this
      ensures (sessions, r) == LateSpec(cal, old(sessions), staffId, previousId, approxOut, punchIn, newId, listed)
      ensures Feasible(old(sessions), LateRequest(staffId, previousId, approxOut, punchIn, newId, listed))
    {
      listed := [];
      if previousId.None? || approxOut.None? || punchIn.None? {
        return Failed(BadRequest), listed;
      }
      if approxOut.value.At? && punchIn.value.At? && approxOut.value.ms >= punchIn.value.ms {
        return Failed(BadRequest), listed;
      }
      if approxOut.value.Invalid? {
        return Failed(BadRequest), listed;
      }
      if punchIn.value.Invalid? {
        return Failed(BadRequest), listed;
      }
      var out, start := approxOut.value.ms, punchIn.value.ms;
      var today := StartOfOrgDay(cal, start);
      if previousId.value !in sessions || sessions[previousId.value].staffId != staffId {
        return Failed(NotFound), listed;
      }
      if sessions[previousId.value].status != Open {
        return Failed(BadRequest), listed;
      }
      var prev := sessions[previousId.value];
      if prev.firstPunchInAt.Some? && out <= prev.firstPunchInAt.value {
        var events := Listing(previousId.value);
        listed := events;
        return Failed(BadRequest), listed;
      }
      listed := Close(previousId.value, Late, Event(LatePunchOut, out));
      OpenSession(staffId, today, start, newId);
      r := Done(newId);
    }

    /** `findFirst` over the open sessions before `today`, newest first. */
    method NewestOldOpen(staffId: StaffId, today: int) returns (newest: Option<SessionId>)
      ensures newest.None? ==> forall id :: !OldOpen(sessions, staffId, today, id)
      ensures newest.Some? ==> OldOpen(sessions, staffId, today, newest.value)
      ensures newest.Some? ==> forall id :: OldOpen(sessions, staffId, today, id) ==>
          sessions[id].date <= sessions[newest.value].date
    {
      newest := None;
      var rest := sessions.Keys;
      while rest != {}
        invariant rest <= sessions.Keys
        invariant newest.None? ==> forall id :: OldOpen(sessions, staffId, today, id) ==> id in rest
        invariant newest.Some? ==> OldOpen(sessions, staffId, today, newest.value)
        invariant newest.Some? ==> forall id :: OldOpen(sessions, staffId, today, id) && id !in rest ==>
            sessions[id].date <= sessions[newest.value].date
        decreases rest
      {
        var id :| id in rest;
        rest := rest - {id};
        if OldOpen(sessions, staffId, today, id) && (newest.None? || sessions[newest.value].date < sessions[id].date) {
          newest := Some(id);
        }
      }
    }

    method Scan(staffId: StaffId, now: int) returns (state: ScanState, ghost last: Option<Event>)
      ensures MayScan(cal, sessions, staffId, now, last, state)
      ensures state.PreviousOpen? <==> exists id :: OldOpen(sessions, staffId, StartOfOrgDay(cal, now), id)
    {
      last := None;
      var today := StartOfOrgDay(cal, now);
      var openOldSession := NewestOldOpen(staffId, today);
      if openOldSession.Some? {
        return PreviousOpen(openOldSession.value), last;
      }
      if !(exists id :: id in sessions && Todays(sessions, staffId, today, id)) {
        return NoSessionToday, last;
      }
      var id :| id in sessions && Todays(sessions, staffId, today, id);
      if sessions[id].status == Closed {
        return DayCompleted, last;
      }
      var lastEvent := LastEvent(id);
      last := lastEvent;
      state := TodayState(id, sessions[id], lastEvent);
    }
  }
}
