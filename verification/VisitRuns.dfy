/** What holds in every reachable state when requests run one after the other: the visit
    lifecycle, one active visit per person, and the limit on reminders. */
module VisitRuns {
  import opened Basics
  import opened Visits

  /** A request with the clock at which it runs, the identifiers drawn, and the row that a search returned. */
  datatype Request =
    | StartVisit(orgId: OrgId, staffId: StaffId, fullName: string, email: string, newVisitId: VisitId,
                 newNotificationId: NotificationId)
    | EndVisit(orgId: OrgId, fullName: string, email: string, found: Option<VisitId>)
    | EndVisitQr(orgId: OrgId, visitId: VisitId)
    | Decide(orgId: OrgId, caller: StaffId, admin: bool, visitId: VisitId, decision: Decision)
    | Resend(orgId: OrgId, visitId: VisitId, newNotificationId: NotificationId)
    | DeleteNotification(orgId: OrgId, caller: StaffId, notificationId: NotificationId)

  datatype Timed = Timed(now: int, request: Request)

  ghost function Apply(db: Db, t: Timed): (Db, Result)
    requires Feasible(db, t)
  {
    match t.request
    case StartVisit(orgId, staffId, fullName, email, visitId, notificationId) =>
      StartVisitSpec(db, orgId, staffId, fullName, email, visitId, notificationId, t.now)
    case EndVisit(_, _, _, found) => EndVisitSpec(db, found, t.now)
    case EndVisitQr(orgId, visitId) => EndVisitQrSpec(db, orgId, visitId, t.now)
    case Decide(orgId, caller, admin, visitId, decision) =>
      DecideSpec(db, orgId, caller, admin, visitId, decision, t.now)
    case Resend(orgId, visitId, notificationId) => ResendSpec(db, orgId, visitId, notificationId, t.now)
    case DeleteNotification(orgId, caller, notificationId) => DeleteSpec(db, orgId, caller, notificationId)
  }

  ghost predicate Feasible(db: Db, t: Timed) {
    match t.request
    case StartVisit(_, _, _, _, visitId, notificationId) => visitId !in db.visits && notificationId !in db.notifications
    case EndVisit(orgId, fullName, email, found) => FindsOngoing(db, orgId, fullName, email, found)
    case Resend(_, _, notificationId) => notificationId !in db.notifications
    case _ => true
  }

  /** Requests run one after the other and the clock never goes back. */
  ghost predicate SerialRun(db: Db, clock: int, ts: seq<Timed>)
    decreases |ts|
  {
    ts == [] || (clock <= ts[0].now && Feasible(db, ts[0]) && SerialRun(Apply(db, ts[0]).0, ts[0].now, ts[1..]))
  }

  ghost function Run(db: Db, clock: int, ts: seq<Timed>): Db
    requires SerialRun(db, clock, ts)
    decreases |ts|
  {
    if ts == [] then db else Run(Apply(db, ts[0]).0, ts[0].now, ts[1..])
  }

  // ---------- Lifecycle ----------

  ghost predicate VisitOk(v: Visit) {
    && (v.endTime.Some? <==> v.status.Completed?)
    && (v.status.Pending? || v.status.Rejected? ==> v.startTime.None?)
    && (v.status.Ongoing? ==> v.startTime.Some?)
    && !v.status.Accepted?
  }

  ghost predicate BothActive(v: Visit, w: Visit) {
    v.status.Active() && w.status.Active() && v.orgId == w.orgId && v.email == w.email
  }

  ghost predicate OneActiveVisit(visits: map<VisitId, Visit>) {
    forall a, b :: a in visits && b in visits && BothActive(visits[a], visits[b]) ==> a == b
  }

  /** A notification belongs to a visit; that of a pending visit is unread and undecided. */
  ghost predicate NotificationOk(visits: map<VisitId, Visit>, n: Notification) {
    n.visitId in visits && (visits[n.visitId].status.Pending? ==> !n.isRead && n.action.None?)
  }

  ghost predicate Inv(db: Db) {
    && (forall id :: id in db.visits ==> VisitOk(db.visits[id]))
    && OneActiveVisit(db.visits)
    && (forall id :: id in db.notifications ==> NotificationOk(db.visits, db.notifications[id]))
  }

  lemma UpdateKeepsOneActive(visits: map<VisitId, Visit>, id: VisitId, v: Visit)
    requires OneActiveVisit(visits) && id in visits
    requires v.orgId == visits[id].orgId && v.email == visits[id].email
    requires (v.status.Active() ==> visits[id].status.Active())
    ensures OneActiveVisit(visits[id := v])
  {
    var after := visits[id := v];
    forall a, b | a in after && b in after && BothActive(after[a], after[b])
      ensures a == b
    {
      assert BothActive(visits[a], visits[b]);
    }
  }

  /** Changing a visit that does not become active or pending, with its notifications. */
  lemma UpdateKeepsInv(db: Db, id: VisitId, v: Visit, notifications: map<NotificationId, Notification>)
    requires Inv(db) && id in db.visits && VisitOk(v) && !v.status.Pending?
    requires v.orgId == db.visits[id].orgId && v.email == db.visits[id].email
    requires v.status.Active() ==> db.visits[id].status.Active()
    requires forall n :: n in notifications ==>
        n in db.notifications && notifications[n].visitId == db.notifications[n].visitId
    requires forall n :: n in notifications && notifications[n].visitId != id ==>
        notifications[n] == db.notifications[n]
    ensures Inv(db.(visits := db.visits[id := v], notifications := notifications))
  {
    UpdateKeepsOneActive(db.visits, id, v);
    forall n | n in notifications ensures NotificationOk(db.visits[id := v], notifications[n]) {
      assert NotificationOk(db.visits, db.notifications[n]);
    }
  }

  lemma StartKeepsInv(db: Db, t: Timed)
    requires Inv(db) && t.request.StartVisit? && Feasible(db, t)
    ensures Inv(Apply(db, t).0)
  {
    var r := t.request;
    if Apply(db, t).1.Success? {
      forall id | id in db.visits && BothActive(db.visits[id], NewVisit(r.orgId, r.staffId, r.fullName, r.email))
        ensures false
      {
        assert IsActiveVisitOf(db.visits[id], r.orgId, Normalize(r.email));
      }
    }
  }

  lemma StepKeepsInv(db: Db, t: Timed)
    requires Inv(db) && Feasible(db, t)
    ensures Inv(Apply(db, t).0)
  {
    if Apply(db, t).1.Success? {
      match t.request {
        case StartVisit(_, _, _, _, _, _) => StartKeepsInv(db, t);
        case EndVisit(_, _, _, found) => CheckOutKeepsInv(db, found.value, t.now);
        case EndVisitQr(_, visitId) => CheckOutKeepsInv(db, visitId, t.now);
        case Decide(_, _, _, visitId, decision) => CommitKeepsInv(db, visitId, decision, t.now);
        case Resend(_, _, _) =>
        case DeleteNotification(_, _, _) =>
      }
    }
  }

  lemma CheckOutKeepsInv(db: Db, id: VisitId, now: int)
    requires Inv(db) && id in db.visits
    ensures Inv(CheckOut(db, id, now))
  {
    UpdateKeepsInv(db, id, CheckOut(db, id, now).visits[id], db.notifications);
  }

  lemma CommitKeepsInv(db: Db, id: VisitId, decision: Decision, now: int)
    requires Inv(db)
    ensures Inv(CommitSpec(db, id, decision, now).0)
  {
    if CommitSpec(db, id, decision, now).1.Success? {
      UpdateKeepsInv(db, id, Decided(db.visits[id], decision, now), MarkNotifications(db.notifications, id, decision));
    }
  }

  /** In every state that a serial run reaches: the times match the status, ACCEPTED never occurs, a
      person has at most one active visit per organization, and a pending visit's notifications are
      unread and undecided. */
  lemma {:induction false} RunKeepsInv(db: Db, clock: int, ts: seq<Timed>)
    requires Inv(db) && SerialRun(db, clock, ts)
    ensures Inv(Run(db, clock, ts))
    decreases |ts|
  {
    if ts != [] {
      StepKeepsInv(db, ts[0]);
      RunKeepsInv(Apply(db, ts[0]).0, ts[0].now, ts[1..]);
    }
  }

  /** Deleting a staff member, with that member's visits and notifications, keeps the invariant. */
  lemma DeletingStaffKeepsInv(db: Db, gone: StaffId)
    requires Inv(db)
    ensures Inv(WithoutStaff(db, gone))
  {
    var after := WithoutStaff(db, gone);
    forall a, b | a in after.visits && b in after.visits && BothActive(after.visits[a], after.visits[b])
      ensures a == b
    {
      assert BothActive(db.visits[a], db.visits[b]);
    }
    forall n | n in after.notifications ensures NotificationOk(after.visits, after.notifications[n]) {
      assert NotificationOk(db.visits, db.notifications[n]);
    }
  }

  ghost predicate EmailsNormal(db: Db) {
    forall id :: id in db.visits ==> IsNormal(db.visits[id].email)
  }

  ghost predicate IsNormal(email: string) {
    Normalize(email) == email
  }

  /** Stored addresses are in normal form, so two spellings of one address cannot both be active. */
  lemma {:induction false} RunKeepsEmailsNormal(db: Db, clock: int, ts: seq<Timed>)
    requires EmailsNormal(db) && SerialRun(db, clock, ts)
    ensures EmailsNormal(Run(db, clock, ts))
    decreases |ts|
  {
    if ts != [] {
      if ts[0].request.StartVisit? {
        NormalizeIsIdempotent(ts[0].request.email);
        assert IsNormal(Normalize(ts[0].request.email));
      }
      RunKeepsEmailsNormal(Apply(db, ts[0]).0, ts[0].now, ts[1..]);
    }
  }

  /** No request changes a completed visit. */
  lemma CompletedIsFinal(db: Db, t: Timed, id: VisitId)
    requires Feasible(db, t) && id in db.visits && db.visits[id].status.Completed?
    ensures id in Apply(db, t).0.visits && Apply(db, t).0.visits[id] == db.visits[id]
  {
  }

  /** The notifications of a pending visit cannot be deleted by anybody. */
  lemma PendingNotificationsStay(db: Db, orgId: OrgId, caller: StaffId, id: NotificationId)
    requires Inv(db) && id in db.notifications && db.visits[db.notifications[id].visitId].status.Pending?
    ensures DeleteSpec(db, orgId, caller, id) == (db, Failure(NotFound))
  {
  }

  // ---------- The limit on reminders ----------

  /** The time at which a request announces a visit, if it does. */
  ghost function AnnouncedAt(db: Db, t: Timed, id: VisitId): Option<int>
    requires Feasible(db, t)
  {
    if Apply(db, t).1.Success?
      && ((t.request.StartVisit? && t.request.newVisitId == id) || (t.request.Resend? && t.request.visitId == id))
    then Some(t.now) else None
  }

  /** The times at which request and reminder notifications of a visit are created in a run. */
  ghost function Announcements(db: Db, clock: int, ts: seq<Timed>, id: VisitId): seq<int>
    requires SerialRun(db, clock, ts)
    decreases |ts|
  {
    if ts == [] then []
    else
      var rest := Announcements(Apply(db, ts[0]).0, ts[0].now, ts[1..], id);
      var at := AnnouncedAt(db, ts[0], id);
      if at.Some? then [at.value] + rest else rest
  }

  /** Any two announcements are at least five minutes apart, in the order in which they were made. */
  ghost predicate Spaced(times: seq<int>) {
    forall i, j :: 0 <= i < j < |times| ==> times[i] + REMINDER_WINDOW <= times[j]
  }

  /** `announced` lists the announcements of a visit so far; while it is pending the last one is still stored. */
  ghost predicate History(db: Db, clock: int, id: VisitId, announced: seq<int>) {
    && Spaced(announced)
    && (announced != [] ==> announced[|announced| - 1] <= clock)
    && (id !in db.visits ==> announced == [])
    && (IsPending(db, id) ==> announced != [] && LastIsStored(db, id, announced[|announced| - 1]))
  }

  ghost predicate IsPending(db: Db, id: VisitId) {
    id in db.visits && db.visits[id].status.Pending?
  }

  ghost predicate LastIsStored(db: Db, id: VisitId, time: int) {
    exists n :: n in db.notifications && Announces(db.notifications[n], id) && db.notifications[n].createdAt == time
  }

  lemma AppendSpaced(times: seq<int>, t: int)
    requires Spaced(times) && (times != [] ==> times[|times| - 1] + REMINDER_WINDOW <= t)
    ensures Spaced(times + [t])
  {
  }

  lemma ResendKeepsHistory(db: Db, clock: int, t: Timed, id: VisitId, announced: seq<int>)
    requires Inv(db) && History(db, clock, id, announced) && clock <= t.now && Feasible(db, t)
    requires t.request.Resend? && t.request.visitId == id && Apply(db, t).1.Success?
    ensures History(Apply(db, t).0, t.now, id, announced + [t.now])
  {
    var n :| n in db.notifications && Announces(db.notifications[n], id)
        && db.notifications[n].createdAt == announced[|announced| - 1];
    assert !IsRecent(db.notifications[n], id, t.now);
    AppendSpaced(announced, t.now);
    var after := Apply(db, t).0;
    assert Announces(after.notifications[t.request.newNotificationId], id);
  }

  lemma QuietStepKeepsHistory(db: Db, clock: int, t: Timed, id: VisitId, announced: seq<int>)
    requires Inv(db) && History(db, clock, id, announced) && clock <= t.now && Feasible(db, t)
    requires AnnouncedAt(db, t, id).None?
    ensures History(Apply(db, t).0, t.now, id, announced)
  {
    if IsPending(Apply(db, t).0, id) {
      PendingStep(db, t, id);
      var n :| n in db.notifications && Announces(db.notifications[n], id)
          && db.notifications[n].createdAt == announced[|announced| - 1];
      assert Announces(Apply(db, t).0.notifications[n], id);
    }
  }

  /** A visit that is pending after a step that does not announce it was pending before, and keeps its notifications. */
  lemma PendingStep(db: Db, t: Timed, id: VisitId)
    requires Inv(db) && Feasible(db, t) && AnnouncedAt(db, t, id).None? && IsPending(Apply(db, t).0, id)
    ensures IsPending(db, id)
    ensures forall n :: n in db.notifications && db.notifications[n].visitId == id ==>
              n in Apply(db, t).0.notifications && Apply(db, t).0.notifications[n] == db.notifications[n]
  {
    if t.request.DeleteNotification? {
      forall n | n in db.notifications && db.notifications[n].visitId == id
        ensures n in Apply(db, t).0.notifications
      {
        assert NotificationOk(db.visits, db.notifications[n]);
      }
    }
  }

  lemma StepKeepsHistory(db: Db, clock: int, t: Timed, id: VisitId, announced: seq<int>)
    requires Inv(db) && History(db, clock, id, announced) && clock <= t.now && Feasible(db, t)
    ensures History(Apply(db, t).0, t.now, id, announced + if AnnouncedAt(db, t, id).Some? then [t.now] else [])
  {
    if AnnouncedAt(db, t, id).None? {
      QuietStepKeepsHistory(db, clock, t, id, announced);
      assert announced + [] == announced;
    } else if t.request.Resend? {
      ResendKeepsHistory(db, clock, t, id, announced);
    } else {
      assert announced + [t.now] == [t.now];
      assert Announces(Apply(db, t).0.notifications[t.request.newNotificationId], id);
    }
  }

  lemma {:induction false} AnnouncementsAreSpaced(db: Db, clock: int, ts: seq<Timed>, id: VisitId, announced: seq<int>)
    requires Inv(db) && SerialRun(db, clock, ts) && History(db, clock, id, announced)
    ensures Spaced(announced + Announcements(db, clock, ts, id))
    decreases |ts|
  {
    if ts == [] {
      assert announced + [] == announced;
    } else {
      var at := AnnouncedAt(db, ts[0], id);
      var now := announced + if at.Some? then [ts[0].now] else [];
      StepKeepsInv(db, ts[0]);
      StepKeepsHistory(db, clock, ts[0], id, announced);
      AnnouncementsAreSpaced(Apply(db, ts[0]).0, ts[0].now, ts[1..], id, now);
      var rest := Announcements(Apply(db, ts[0]).0, ts[0].now, ts[1..], id);
      Regroup(announced, if at.Some? then [ts[0].now] else [], rest);
    }
  }

  lemma Regroup(a: seq<int>, b: seq<int>, c: seq<int>)
    ensures (a + b) + c == a + (b + c)
    ensures b == [] ==> a + b == a && b + c == c
  {
  }

  lemma {:induction false} SpacedBound(times: seq<int>, i: int, j: int)
    requires Spaced(times) && 0 <= i <= j < |times|
    ensures times[i] + (j - i) * REMINDER_WINDOW <= times[j]
    decreases j - i
  {
    if i < j {
      SpacedBound(times, i, j - 1);
    }
  }

  /** However often a kiosk asks for a reminder, by time `t` at most 1 + (t - t0) / 5min request and
      reminder notifications of a visit were created since the first at `t0`, any two of them at
      least five minutes apart. */
  lemma ReminderLimit(staff: map<StaffId, OrgId>, clock: int, ts: seq<Timed>, id: VisitId, t: int)
    requires SerialRun(Db(staff, map[], map[]), clock, ts)
    requires forall i :: 0 <= i < |ts| ==> ts[i].now <= t
    ensures var times := Announcements(Db(staff, map[], map[]), clock, ts, id);
      && Spaced(times)
      && (times != [] ==> |times| <= 1 + (t - times[0]) / REMINDER_WINDOW)
  {
    var db := Db(staff, map[], map[]);
    var times := Announcements(db, clock, ts, id);
    AnnouncementsAreSpaced(db, clock, ts, id, []);
    assert [] + times == times;
    AnnouncementsInTime(db, clock, ts, id, t);
    SpacedLimit(times, t);
  }

  lemma SpacedLimit(times: seq<int>, t: int)
    requires Spaced(times) && forall i :: 0 <= i < |times| ==> times[i] <= t
    ensures times != [] ==> |times| <= 1 + (t - times[0]) / REMINDER_WINDOW
  {
    if times != [] {
      SpacedBound(times, 0, |times| - 1);
      BoundFromSpacing(|times| - 1, t - times[0]);
    }
  }

  lemma BoundFromSpacing(k: int, span: int)
    requires k * REMINDER_WINDOW <= span
    ensures k <= span / REMINDER_WINDOW
  {
  }

  lemma {:induction false} AnnouncementsInTime(db: Db, clock: int, ts: seq<Timed>, id: VisitId, t: int)
    requires SerialRun(db, clock, ts) && forall i :: 0 <= i < |ts| ==> ts[i].now <= t
    ensures forall i :: 0 <= i < |Announcements(db, clock, ts, id)| ==> Announcements(db, clock, ts, id)[i] <= t
    decreases |ts|
  {
    if ts != [] {
      AnnouncementsInTime(Apply(db, ts[0]).0, ts[0].now, ts[1..], id, t);
    }
  }
}
