/** Visits and their notifications: src/visit/visit.service.ts and
    src/notifications/notifications.service.ts.

    Requests are total functions on the tables; the methods of `VisitService` are proved to meet
    them. The database's clock and the server's clock are one clock, in milliseconds. */
module Visits {
  import opened Basics

  type OrgId = string
  type StaffId = string
  type VisitId = string
  type NotificationId = string

  datatype Status = Pending | Accepted | Ongoing | Completed | Rejected {
    predicate Active() { Pending? || Accepted? || Ongoing? }
  }

  datatype Visit = Visit(
    orgId: OrgId,
    fullName: string,
    email: string,
    staffId: StaffId,
    status: Status,
    startTime: Option<int>,
    endTime: Option<int>)

  datatype Decision = Accept | Reject

  datatype NotificationType = VisitRequest | SystemMessage | Reminder

  /** `action` is None for the schema's PENDING. */
  datatype Notification = Notification(
    orgId: OrgId,
    staffId: StaffId,
    visitId: VisitId,
    kind: NotificationType,
    isRead: bool,
    action: Option<Decision>,
    createdAt: int)

  datatype Db = Db(
    staff: map<StaffId, OrgId>,
    visits: map<VisitId, Visit>,
    notifications: map<NotificationId, Notification>)

  datatype Error = NotFound | Unauthorized | BadRequest | Conflict
  datatype Result = Success | Failure(error: Error)

  const REMINDER_WINDOW := 5 * 60 * 1000

  // ---------- Normalization of names and e-mail addresses ----------

  function LowerChar(c: char): char {
    if 'A' <= c <= 'Z' then c - 'A' + 'a' else c
  }

  function ToLowerCase(s: string): (r: string)
    ensures |r| == |s|
    ensures forall i :: 0 <= i < |s| ==> r[i] == LowerChar(s[i])
  {
    seq(|s|, i requires 0 <= i < |s| => LowerChar(s[i]))
  }

  /** The white space and line terminators of ECMAScript. */
  predicate IsSpace(c: char) {
    || '\t' <= c <= '\r' || c == ' ' || c == '\U{00A0}' || c == '\U{1680}' || '\U{2000}' <= c <= '\U{200A}'
    || c == '\U{2028}' || c == '\U{2029}' || c == '\U{202F}' || c == '\U{205F}' || c == '\U{3000}' || c == '\U{FEFF}'
  }

  /** No white space at either end. */
  predicate IsTrimmed(s: string) {
    s != [] ==> !IsSpace(s[0]) && !IsSpace(s[|s| - 1])
  }

  function Trim(s: string): (r: string)
    ensures IsTrimmed(r)
    ensures IsTrimmed(s) ==> r == s
    decreases |s|
  {
    if s == [] then s
    else if IsSpace(s[0]) then Trim(s[1..])
    else if IsSpace(s[|s| - 1]) then Trim(s[..|s| - 1])
    else s
  }

  /** `email.toLowerCase().trim()` */
  function Normalize(email: string): string {
    Trim(ToLowerCase(email))
  }

  ghost predicate IsLower(s: string) {
    forall i :: 0 <= i < |s| ==> LowerChar(s[i]) == s[i]
  }

  lemma {:induction false} TrimKeepsLower(s: string)
    requires IsLower(s)
    ensures IsLower(Trim(s))
    decreases |s|
  {
    if s == [] {
    } else if IsSpace(s[0]) {
      TrimKeepsLower(s[1..]);
    } else if IsSpace(s[|s| - 1]) {
      TrimKeepsLower(s[..|s| - 1]);
    }
  }

  /** Normalizing twice is normalizing once, so stored addresses are their own normal forms. */
  lemma NormalizeIsIdempotent(email: string)
    ensures Normalize(Normalize(email)) == Normalize(email)
  {
    var lower := ToLowerCase(email);
    assert IsLower(lower);
    TrimKeepsLower(lower);
    assert ToLowerCase(Trim(lower)) == Trim(lower);
  }

  // ---------- Visits ----------

  predicate IsActiveVisitOf(v: Visit, orgId: OrgId, email: string) {
    v.orgId == orgId && v.email == email && v.status.Active()
  }

  predicate HasActiveVisit(db: Db, orgId: OrgId, email: string) {
    exists id :: id in db.visits && IsActiveVisitOf(db.visits[id], orgId, email)
  }

  predicate WorksFor(db: Db, staffId: StaffId, orgId: OrgId) {
    staffId in db.staff && db.staff[staffId] == orgId
  }

  function NewVisit(orgId: OrgId, staffId: StaffId, fullName: string, email: string): Visit {
    Visit(orgId, Trim(fullName), Normalize(email), staffId, Pending, None, None)
  }

  function NewNotification(v: Visit, visitId: VisitId, kind: NotificationType, now: int): Notification {
    Notification(v.orgId, v.staffId, visitId, kind, false, None, now)
  }

  function StartVisitSpec(db: Db, orgId: OrgId, staffId: StaffId, fullName: string, email: string,
                          visitId: VisitId, notificationId: NotificationId, now: int): (Db, Result) {
    if !WorksFor(db, staffId, orgId) then (db, Failure(Unauthorized))
    else if HasActiveVisit(db, orgId, Normalize(email)) then (db, Failure(BadRequest))
    else
      var v := NewVisit(orgId, staffId, fullName, email);
      (db.(visits := db.visits[visitId := v],
           notifications := db.notifications[notificationId := NewNotification(v, visitId, VisitRequest, now)]),
       Success)
  }

  /** A visit that endVisit may find for a name and an address. */
  predicate MatchesOngoing(v: Visit, orgId: OrgId, fullName: string, email: string) {
    v.orgId == orgId && v.fullName == Trim(fullName) && v.email == Normalize(email) && v.status.Ongoing?
  }

  function CheckOut(db: Db, visitId: VisitId, now: int): Db
    requires visitId in db.visits
  {
    db.(visits := db.visits[visitId := db.visits[visitId].(status := Completed, endTime := Some(now))])
  }

  /** `found` is the row that `findFirst` returned. */
  function EndVisitSpec(db: Db, found: Option<VisitId>, now: int): (Db, Result)
    requires found.Some? ==> found.value in db.visits
  {
    if found.None? then (db, Failure(BadRequest)) else (CheckOut(db, found.value, now), Success)
  }

  ghost predicate FindsOngoing(db: Db, orgId: OrgId, fullName: string, email: string, found: Option<VisitId>) {
    match found
    case None => forall id :: id in db.visits ==> !MatchesOngoing(db.visits[id], orgId, fullName, email)
    case Some(id) => id in db.visits && MatchesOngoing(db.visits[id], orgId, fullName, email)
  }

  function EndVisitQrError(db: Db, orgId: OrgId, visitId: VisitId): Option<Error> {
    if visitId !in db.visits || db.visits[visitId].status.Completed? then Some(BadRequest)
    else if db.visits[visitId].orgId != orgId then Some(Unauthorized)
    else None
  }

  function EndVisitQrSpec(db: Db, orgId: OrgId, visitId: VisitId, now: int): (Db, Result) {
    var error := EndVisitQrError(db, orgId, visitId);
    if error.Some? then (db, Failure(error.value)) else (CheckOut(db, visitId, now), Success)
  }

  // ---------- Decisions ----------

  /** What acceptVisit and rejectVisit check before their transaction; `admin` stands for the roles SuperAdmin and
      Admin. */
  function DecisionError(db: Db, orgId: OrgId, caller: StaffId, admin: bool, visitId: VisitId): Option<Error> {
    if !WorksFor(db, caller, orgId) then Some(NotFound)
    else if visitId !in db.visits || db.visits[visitId].status != Pending || db.visits[visitId].orgId != orgId then
      Some(NotFound)
    else if db.visits[visitId].staffId != caller && !admin then Some(Unauthorized)
    else None
  }

  function Decided(v: Visit, decision: Decision, now: int): Visit {
    if decision.Accept? then v.(status := Ongoing, startTime := Some(now)) else v.(status := Rejected)
  }

  function MarkNotifications(notifications: map<NotificationId, Notification>, visitId: VisitId, decision: Decision)
    : map<NotificationId, Notification>
  {
    map id | id in notifications ::
      if notifications[id].visitId == visitId then notifications[id].(action := Some(decision), isRead := true)
        else notifications[id]
  }

  /** The transaction: a conditional update of the visit, then the update of its notifications. */
  function CommitSpec(db: Db, visitId: VisitId, decision: Decision, now: int): (Db, Result) {
    if visitId !in db.visits || db.visits[visitId].status != Pending then (db, Failure(Conflict))
    else
      (db.(visits := db.visits[visitId := Decided(db.visits[visitId], decision, now)],
           notifications := MarkNotifications(db.notifications, visitId, decision)),
       Success)
  }

  function DecideSpec(db: Db, orgId: OrgId, caller: StaffId, admin: bool, visitId: VisitId, decision: Decision,
                      now: int): (Db, Result) {
    var error := DecisionError(db, orgId, caller, admin, visitId);
    if error.Some? then (db, Failure(error.value)) else CommitSpec(db, visitId, decision, now)
  }

  // ---------- Reminders and deletion ----------

  /** A request or reminder notification of the visit. */
  predicate Announces(n: Notification, visitId: VisitId) {
    n.visitId == visitId && (n.kind.VisitRequest? || n.kind.Reminder?)
  }

  predicate IsRecent(n: Notification, visitId: VisitId, now: int) {
    Announces(n, visitId) && now - n.createdAt < REMINDER_WINDOW
  }

  function ResendError(db: Db, orgId: OrgId, visitId: VisitId, now: int): Option<Error> {
    if visitId !in db.visits || db.visits[visitId].orgId != orgId then Some(NotFound)
    else if db.visits[visitId].status != Pending then Some(BadRequest)
    else if exists id :: id in db.notifications && IsRecent(db.notifications[id], visitId, now) then Some(BadRequest)
    else None
  }

  function ResendSpec(db: Db, orgId: OrgId, visitId: VisitId, notificationId: NotificationId, now: int): (Db, Result) {
    var error := ResendError(db, orgId, visitId, now);
    if error.Some? then (db, Failure(error.value))
    else
      (db.(notifications :=
           db.notifications[notificationId := NewNotification(db.visits[visitId], visitId, Reminder, now)]), Success)
  }

  /** Only a read notification with a decision, addressed to the caller, can be deleted. */
  predicate MayDelete(n: Notification, orgId: OrgId, caller: StaffId) {
    n.staffId == caller && n.orgId == orgId && n.isRead && n.action.Some?
  }

  function DeleteSpec(db: Db, orgId: OrgId, caller: StaffId, notificationId: NotificationId): (Db, Result) {
    if !WorksFor(db, caller, orgId) then (db, Failure(NotFound))
    else if notificationId !in db.notifications || !MayDelete(db.notifications[notificationId], orgId, caller) then
      (db, Failure(NotFound))
    else (db.(notifications := db.notifications - {notificationId}), Success)
  }

  /** The cascades of the schema when a staff row is deleted. */
  function WithoutStaff(db: Db, gone: StaffId): Db {
    var visits := map id | id in db.visits && db.visits[id].staffId != gone :: db.visits[id];
    Db(db.staff - {gone}, visits,
       map id | id in db.notifications && db.notifications[id].staffId != gone
         && db.notifications[id].visitId in visits :: db.notifications[id])
  }

  // ---------- The service ----------

  class VisitService {
    const staff: map<StaffId, OrgId>
    var visits: map<VisitId, Visit>
    var notifications: map<NotificationId, Notification>

    function State(): Db
      reads this
    {
      Db(staff, visits, notifications)
    }

    constructor (staff: map<StaffId, OrgId>)
      ensures State() == Db(staff, map[], map[])
    {
      this.staff := staff;
      visits, notifications := map[], map[];
    }

    method StartVisit(orgId: OrgId, staffId: StaffId, fullName: string, email: string,
                      visitId: VisitId, notificationId: NotificationId, now: int) returns (r: Result)
      requires visitId !in visits && notificationId !in notifications
      modifies this
      ensures (State(), r)
          == StartVisitSpec(old(State()), orgId, staffId, fullName, email, visitId, notificationId, now)
    {
      var normalizedEmail := Normalize(email);
      var normalizedFullName := Trim(fullName);
      if !WorksFor(State(), staffId, orgId) {
        return Failure(Unauthorized);
      }
      if HasActiveVisit(State(), orgId, normalizedEmail) {
        return Failure(BadRequest);
      }
      visits := visits[visitId := Visit(orgId, normalizedFullName, normalizedEmail, staffId, Pending, None, None)];
      notifications :=
        notifications[notificationId := Notification(orgId, staffId, visitId, VisitRequest, false, None, now)];
      r := Success;
    }

    method EndVisit(orgId: OrgId, fullName: string, email: string, now: int)
      returns (r: Result, ghost found: Option<VisitId>)
      modifies this`visits
      ensures FindsOngoing(old(State()), orgId, fullName, email, found)
      ensures (State(), r) == EndVisitSpec(old(State()), found, now)
    {
      if exists id :: id in visits && MatchesOngoing(visits[id], orgId, fullName, email) {
        var id :| id in visits && MatchesOngoing(visits[id], orgId, fullName, email);
        visits := visits[id := visits[id].(status := Completed, endTime := Some(now))];
        return Success, Some(id);
      }
      return Failure(BadRequest), None;
    }

    method EndVisitQr(orgId: OrgId, visitId: VisitId, now: int) returns (r: Result)
      modifies this`visits
      ensures (State(), r) == EndVisitQrSpec(old(State()), orgId, visitId, now)
    {
      if visitId !in visits || visits[visitId].status == Completed {
        return Failure(BadRequest);
      }
      if visits[visitId].orgId != orgId {
        return Failure(Unauthorized);
      }
      visits := visits[visitId := visits[visitId].(status := Completed, endTime := Some(now))];
      r := Success;
    }

    method AcceptVisit(orgId: OrgId, caller: StaffId, admin: bool, visitId: VisitId, now: int) returns (r: Result)
      modifies this
      ensures (State(), r) == DecideSpec(old(State()), orgId, caller, admin, visitId, Accept, now)
    {
      if !WorksFor(State(), caller, orgId) {
        return Failure(NotFound);
      }
      if visitId !in visits || visits[visitId].status != Pending || visits[visitId].orgId != orgId {
        return Failure(NotFound);
      }
      if visits[visitId].staffId != caller && !admin {
        return Failure(Unauthorized);
      }
      var count := 0;
      if visitId in visits && visits[visitId].status == Pending {
        visits := visits[visitId := visits[visitId].(status := Ongoing, startTime := Some(now))];
        count := 1;
      }
      if count == 0 {
        return Failure(Conflict);
      }
      notifications := MarkNotifications(notifications, visitId, Accept);
      r := Success;
    }

    method RejectVisit(orgId: OrgId, caller: StaffId, admin: bool, visitId: VisitId, now: int) returns (r: Result)
      modifies this
      ensures (State(), r) == DecideSpec(old(State()), orgId, caller, admin, visitId, Reject, now)
    {
      if !WorksFor(State(), caller, orgId) {
        return Failure(NotFound);
      }
      if visitId !in visits || visits[visitId].status != Pending || visits[visitId].orgId != orgId {
        return Failure(NotFound);
      }
      if visits[visitId].staffId != caller && !admin {
        return Failure(Unauthorized);
      }
      var count := 0;
      if visitId in visits && visits[visitId].status == Pending {
        visits := visits[visitId := visits[visitId].(status := Rejected)];
        count := 1;
      }
      if count == 0 {
        return Failure(Conflict);
      }
      notifications := MarkNotifications(notifications, visitId, Reject);
      r := Success;
    }

    /** The newest request or reminder notification of a visit. */
    method LastNotification(visitId: VisitId) returns (last: Option<Notification>)
      ensures last.None? ==> forall id, now :: id in notifications ==> !IsRecent(notifications[id], visitId, now)
      ensures last.Some? ==> forall now ::
                (IsRecent(last.value, visitId, now)
                 <==> exists id :: id in notifications && IsRecent(notifications[id], visitId, now))
      ensures last.Some? ==> Announces(last.value, visitId)
    {
      last := None;
      var rest := notifications.Keys;
      ghost var lastId: NotificationId := "";
      while rest != {}
        invariant rest <= notifications.Keys
        invariant last.None? ==> forall id :: id in notifications && id !in rest ==>
            !Announces(notifications[id], visitId)
        invariant last.Some? ==>
            lastId in notifications && last.value == notifications[lastId] && Announces(last.value, visitId)
        invariant last.Some? ==>
            forall id :: id in notifications && id !in rest && Announces(notifications[id], visitId) ==>
              notifications[id].createdAt <= last.value.createdAt
        decreases rest
      {
        var id :| id in rest;
        rest := rest - {id};
        var n := notifications[id];
        if Announces(n, visitId) && (last.None? || last.value.createdAt < n.createdAt) {
          last := Some(n);
          lastId := id;
        }
      }
      if last.Some? {
        forall now
          ensures IsRecent(last.value, visitId, now)
             <==> exists id :: id in notifications && IsRecent(notifications[id], visitId, now)
        {
          if id :| id in notifications && IsRecent(notifications[id], visitId, now) {
            assert Announces(notifications[id], visitId);
          }
        }
      }
    }

    method ResendVisitNotification(orgId: OrgId, visitId: VisitId, notificationId: NotificationId, now: int)
      returns (r: Result)
      requires notificationId !in notifications
      modifies this`notifications
      ensures (State(), r) == ResendSpec(old(State()), orgId, visitId, notificationId, now)
    {
      if visitId !in visits || visits[visitId].orgId != orgId {
        return Failure(NotFound);
      }
      if visits[visitId].status != Pending {
        return Failure(BadRequest);
      }
      var lastNotification := LastNotification(visitId);
      if lastNotification.Some? && now - lastNotification.value.createdAt < REMINDER_WINDOW {
        assert IsRecent(lastNotification.value, visitId, now);
        return Failure(BadRequest);
      }
      assert lastNotification.Some? ==> !IsRecent(lastNotification.value, visitId, now);
      var visit := visits[visitId];
      notifications :=
        notifications[notificationId := Notification(orgId, visit.staffId, visitId, Reminder, false, None, now)];
      r := Success;
    }

    method DeleteNotification(orgId: OrgId, caller: StaffId, notificationId: NotificationId) returns (r: Result)
      modifies this`notifications
      ensures (State(), r) == DeleteSpec(old(State()), orgId, caller, notificationId)
    {
      if !WorksFor(State(), caller, orgId) {
        return Failure(NotFound);
      }
      var notificationExists := notificationId in notifications
        && notifications[notificationId].staffId == caller
        && notifications[notificationId].orgId == orgId
        && notifications[notificationId].isRead;
      if !notificationExists || notifications[notificationId].action.None? {
        return Failure(NotFound);
      }
      notifications := notifications - {notificationId};
      r := Success;
    }
  }
}
