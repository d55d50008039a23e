/** When each visit request succeeds, with which error it fails and what it does to the tables, and the
    visit that its history makes: src/visit/visit.service.ts and
    src/notifications/notifications.service.ts. */
module VisitEffects {
  import opened Basics
  import opened Visits
  import opened VisitRuns
  import Race = DecisionRace

  // ---------- Names and addresses ----------

  /** `cut` is `s` without the white space at its two ends. */
  ghost predicate IsCut(s: string, cut: string) {
    exists a, b :: IsCutAt(s, cut, a, b)
  }

  ghost predicate IsCutAt(s: string, cut: string, a: int, b: int) {
    && 0 <= a <= b <= |s| && cut == s[a..b]
    && (forall i :: 0 <= i < a || b <= i < |s| ==> IsSpace(s[i]))
    && (a < b ==> !IsSpace(s[a]) && !IsSpace(s[b - 1]))
  }

  lemma CutBehindSpace(s: string, cut: string)
    requires s != [] && IsSpace(s[0]) && IsCut(s[1..], cut)
    ensures IsCut(s, cut)
  {
    var a, b :| IsCutAt(s[1..], cut, a, b);
    forall i | 0 <= i < a + 1 || b + 1 <= i < |s| ensures IsSpace(s[i]) {
      if i > 0 {
        assert s[i] == s[1..][i - 1];
      }
    }
    assert IsCutAt(s, cut, a + 1, b + 1);
  }

  lemma CutBeforeSpace(s: string, cut: string)
    requires s != [] && IsSpace(s[|s| - 1]) && IsCut(s[..|s| - 1], cut)
    ensures IsCut(s, cut)
  {
    var a, b :| IsCutAt(s[..|s| - 1], cut, a, b);
    forall i | 0 <= i < a || b <= i < |s| ensures IsSpace(s[i]) {
      if i < |s| - 1 {
        assert s[i] == s[..|s| - 1][i];
      }
    }
    assert IsCutAt(s, cut, a, b);
  }

  lemma {:induction false} TrimCuts(s: string)
    ensures IsCut(s, Trim(s))
    decreases |s|
  {
    if s != [] && IsSpace(s[0]) {
      TrimCuts(s[1..]);
      CutBehindSpace(s, Trim(s[1..]));
    } else if s != [] && IsSpace(s[|s| - 1]) {
      TrimCuts(s[..|s| - 1]);
      CutBeforeSpace(s, Trim(s[..|s| - 1]));
    } else {
      assert IsCutAt(s, s, 0, |s|);
    }
  }

  lemma CutIsUnique(s: string, cut: string, other: string)
    requires IsCut(s, cut) && IsCut(s, other)
    ensures cut == other
  {
    var a, b :| IsCutAt(s, cut, a, b);
    var c, d :| IsCutAt(s, other, c, d);
    if a < b {
      assert !(a < c) && !(d < b);
    }
    if c < d {
      assert !(c < a) && !(b < d);
    }
  }

  /** Letters A to Z are replaced by small ones. */
  ghost predicate IsLowered(s: string, lower: string) {
    && |lower| == |s|
    && forall i :: 0 <= i < |s| ==> lower[i] == if 'A' <= s[i] <= 'Z' then s[i] - 'A' + 'a' else s[i]
  }

  /** The stored address is the given one in small letters, without the white space around it. */
  lemma NormalizeMeans(email: string)
    ensures exists lower :: IsLowered(email, lower) && IsCut(lower, Normalize(email))
  {
    TrimCuts(ToLowerCase(email));
    assert IsLowered(email, ToLowerCase(email));
  }

  // ---------- Registration ----------

  ghost predicate IsStaff(db: Db, staffId: StaffId, orgId: OrgId) {
    staffId in db.staff && db.staff[staffId] == orgId
  }

  ghost predicate IsExpected(v: Visit, orgId: OrgId, email: string) {
    v.orgId == orgId && v.email == Normalize(email) && v.status in {Pending, Accepted, Ongoing}
  }

  /** The host works for the organization and the visitor has no visit there that is not over. */
  ghost predicate MayStart(db: Db, orgId: OrgId, staffId: StaffId, email: string) {
    && IsStaff(db, staffId, orgId)
    && forall id :: id in db.visits ==> !IsExpected(db.visits[id], orgId, email)
  }

  lemma MayStartIff(db: Db, orgId: OrgId, staffId: StaffId, email: string)
    ensures MayStart(db, orgId, staffId, email)
       <==> WorksFor(db, staffId, orgId) && !HasActiveVisit(db, orgId, Normalize(email))
  {
    forall id | id in db.visits
      ensures IsExpected(db.visits[id], orgId, email) <==> IsActiveVisitOf(db.visits[id], orgId, Normalize(email))
    {
    }
  }

  /** A registration stores one pending visit and one unread request to its host. */
  lemma StartVisitEffect(db: Db, orgId: OrgId, staffId: StaffId, fullName: string, email: string,
                         visitId: VisitId, notificationId: NotificationId, now: int)
    ensures var (after, result) := StartVisitSpec(db, orgId, staffId, fullName, email, visitId, notificationId, now);
      if MayStart(db, orgId, staffId, email) then
        && result == Success && after.staff == db.staff
        && after.visits ==
             db.visits[visitId := Visit(orgId, Trim(fullName), Normalize(email), staffId, Pending, None, None)]
        && after.notifications ==
             db.notifications[notificationId :=
               Notification(orgId, staffId, visitId, VisitRequest, false, None, now)]
      else after == db && result == Failure(if IsStaff(db, staffId, orgId) then BadRequest else Unauthorized)
  {
    MayStartIff(db, orgId, staffId, email);
  }

  // ---------- Check-out ----------

  ghost predicate IsInside(v: Visit, orgId: OrgId, fullName: string, email: string) {
    v.orgId == orgId && v.fullName == Trim(fullName) && v.email == Normalize(email) && v.status == Ongoing
  }

  /** The visit is over, with `now` as its end, and nothing else has changed. */
  ghost predicate Completes(db: Db, after: Db, visitId: VisitId, now: int) {
    && visitId in db.visits && after.staff == db.staff && after.notifications == db.notifications
    && after.visits == db.visits[visitId := db.visits[visitId].(status := Completed, endTime := Some(now))]
  }

  /** A visitor is checked out exactly if an ongoing visit has the name and the address, and that visit is. */
  lemma EndVisitEffect(db: Db, orgId: OrgId, fullName: string, email: string, found: Option<VisitId>, now: int)
    requires FindsOngoing(db, orgId, fullName, email, found)
    ensures var (after, result) := EndVisitSpec(db, found, now);
      if exists id :: id in db.visits && IsInside(db.visits[id], orgId, fullName, email) then
        && result == Success && found.Some? && found.value in db.visits
        && IsInside(db.visits[found.value], orgId, fullName, email) && Completes(db, after, found.value, now)
      else after == db && result == Failure(BadRequest)
  {
    forall id | id in db.visits
      ensures IsInside(db.visits[id], orgId, fullName, email) <==> MatchesOngoing(db.visits[id], orgId, fullName, email)
    {
    }
  }

  /** The code of a visit checks it out, whatever its status, unless it is over or another organization's. */
  lemma EndVisitQrEffect(db: Db, orgId: OrgId, visitId: VisitId, now: int)
    ensures var (after, result) := EndVisitQrSpec(db, orgId, visitId, now);
      if visitId in db.visits && db.visits[visitId].status != Completed then
        if db.visits[visitId].orgId == orgId then result == Success && Completes(db, after, visitId, now)
        else after == db && result == Failure(Unauthorized)
      else after == db && result == Failure(BadRequest)
  {
  }

  // ---------- Decisions ----------

  ghost predicate IsPendingOf(db: Db, orgId: OrgId, visitId: VisitId) {
    visitId in db.visits && db.visits[visitId].orgId == orgId && db.visits[visitId].status == Pending
  }

  /** The caller works for the organization, the visit is one of its pending ones, and the caller is its
      host or an admin. */
  ghost predicate MayDecide(db: Db, orgId: OrgId, caller: StaffId, admin: bool, visitId: VisitId) {
    && IsStaff(db, caller, orgId) && IsPendingOf(db, orgId, visitId)
    && (db.visits[visitId].staffId == caller || admin)
  }

  /** The visit is decided and its notifications are read and carry the decision; nothing else has changed. */
  ghost predicate Decides(db: Db, after: Db, visitId: VisitId, decision: Decision, now: int) {
    && visitId in db.visits && after.staff == db.staff
    && after.visits == db.visits[visitId :=
         if decision == Accept then db.visits[visitId].(status := Ongoing, startTime := Some(now))
         else db.visits[visitId].(status := Rejected)]
    && after.notifications.Keys == db.notifications.Keys
    && forall id :: id in db.notifications ==>
         after.notifications[id] ==
           if db.notifications[id].visitId == visitId then
             db.notifications[id].(isRead := true, action := Some(decision))
           else db.notifications[id]
  }

  /** From any state, accepting and rejecting succeed exactly for the host or an admin of the visit's
      organization while the visit is pending. */
  lemma DecideEffect(db: Db, orgId: OrgId, caller: StaffId, admin: bool, visitId: VisitId, decision: Decision, now: int)
    ensures var (after, result) := DecideSpec(db, orgId, caller, admin, visitId, decision, now);
      if MayDecide(db, orgId, caller, admin, visitId) then
        result == Success && Decides(db, after, visitId, decision, now)
      else
        && after == db
        && result == Failure(if IsStaff(db, caller, orgId) && IsPendingOf(db, orgId, visitId) then Unauthorized
                             else NotFound)
  {
  }

  // ---------- Reminders and deletion ----------

  /** The visit was announced, or its host reminded, less than five minutes ago. */
  ghost predicate JustAnnounced(db: Db, visitId: VisitId, now: int) {
    exists id :: id in db.notifications && IsFresh(db.notifications[id], visitId, now)
  }

  ghost predicate IsFresh(n: Notification, visitId: VisitId, now: int) {
    n.visitId == visitId && n.kind in {VisitRequest, Reminder} && now < n.createdAt + 300000
  }

  lemma JustAnnouncedIff(db: Db, visitId: VisitId, now: int)
    ensures JustAnnounced(db, visitId, now)
       <==> exists id :: id in db.notifications && IsRecent(db.notifications[id], visitId, now)
  {
    forall id | id in db.notifications
      ensures IsFresh(db.notifications[id], visitId, now) <==> IsRecent(db.notifications[id], visitId, now)
    {
    }
  }

  /** A reminder is sent exactly for a pending visit of the organization that was not just announced. */
  lemma ResendEffect(db: Db, orgId: OrgId, visitId: VisitId, notificationId: NotificationId, now: int)
    ensures var (after, result) := ResendSpec(db, orgId, visitId, notificationId, now);
      if IsPendingOf(db, orgId, visitId) && !JustAnnounced(db, visitId, now) then
        && result == Success && after.staff == db.staff && after.visits == db.visits
        && after.notifications ==
             db.notifications[notificationId :=
               Notification(orgId, db.visits[visitId].staffId, visitId, Reminder, false, None, now)]
      else
        && after == db
        && result == Failure(if visitId in db.visits && db.visits[visitId].orgId == orgId then BadRequest else NotFound)
  {
    JustAnnouncedIff(db, visitId, now);
  }

  /** A notification is deleted exactly if it is the caller's, of the organization, read and decided. */
  lemma DeleteEffect(db: Db, orgId: OrgId, caller: StaffId, notificationId: NotificationId)
    ensures var (after, result) := DeleteSpec(db, orgId, caller, notificationId);
      if && IsStaff(db, caller, orgId) && notificationId in db.notifications
         && db.notifications[notificationId].staffId == caller && db.notifications[notificationId].orgId == orgId
         && db.notifications[notificationId].isRead && db.notifications[notificationId].action != None then
        && result == Success && after.staff == db.staff && after.visits == db.visits
        && after.notifications.Keys == db.notifications.Keys - {notificationId}
        && forall id :: id in after.notifications ==> after.notifications[id] == db.notifications[id]
      else after == db && result == Failure(NotFound)
  {
  }

  // ---------- Requests that overlap ----------

  /** A request goes on after its reads exactly if they find what the request needs, and until then it
      changes nothing. */
  lemma ReadForDecisionIff(sys: Race.Sys, request: Race.RequestId, orgId: OrgId, caller: StaffId, admin: bool,
                           visitId: VisitId, decision: Decision)
    ensures Race.Apply(sys, Race.ReadForDecision(request, orgId, caller, admin, visitId, decision))
         == if MayDecide(sys.db, orgId, caller, admin, visitId)
            then sys.(flights := sys.flights[request := Race.Deciding(visitId, decision)])
            else sys
  {
  }

  lemma ReadForStartIff(sys: Race.Sys, request: Race.RequestId, orgId: OrgId, staffId: StaffId, fullName: string,
                        email: string)
    ensures Race.Apply(sys, Race.ReadForStart(request, orgId, staffId, fullName, email))
         == if MayStart(sys.db, orgId, staffId, email)
            then sys.(flights := sys.flights[request := Race.Starting(orgId, staffId, fullName, email)])
            else sys
  {
    MayStartIff(sys.db, orgId, staffId, email);
  }

  lemma ReadForReminderIff(sys: Race.Sys, request: Race.RequestId, orgId: OrgId, visitId: VisitId, now: int)
    ensures Race.Apply(sys, Race.ReadForReminder(request, orgId, visitId, now))
         == if IsPendingOf(sys.db, orgId, visitId) && !JustAnnounced(sys.db, visitId, now)
            then sys.(flights := sys.flights[request := Race.Announcing(visitId, Reminder)])
            else sys
  {
    JustAnnouncedIff(sys.db, visitId, now);
  }

  lemma ReadForCheckOutIff(sys: Race.Sys, request: Race.RequestId, orgId: OrgId, visitId: VisitId, byQr: bool)
    ensures Race.Apply(sys, Race.ReadForCheckOut(request, orgId, visitId, byQr))
         == if && visitId in sys.db.visits && sys.db.visits[visitId].orgId == orgId
               && (byQr ==> sys.db.visits[visitId].status != Completed)
               && (!byQr ==> sys.db.visits[visitId].status == Ongoing)
            then sys.(flights := sys.flights[request := Race.CheckingOut(visitId)])
            else sys
  {
  }

  /** The transaction of a decision commits exactly while the visit is pending. */
  lemma CommitDecisionIff(sys: Race.Sys, request: Race.RequestId, visitId: VisitId, decision: Decision, now: int)
    requires request in sys.flights && sys.flights[request] == Race.Deciding(visitId, decision)
    ensures var after := Race.Apply(sys, Race.CommitDecision(request, now));
      && after.flights == sys.flights - {request}
      && if visitId in sys.db.visits && sys.db.visits[visitId].status == Pending
         then Decides(sys.db, after.db, visitId, decision, now) else after.db == sys.db
  {
  }

  /** A request whose steps are not interrupted does what it does in a serial run. */
  lemma UninterruptedDecision(sys: Race.Sys, request: Race.RequestId, orgId: OrgId, caller: StaffId, admin: bool,
                              visitId: VisitId, decision: Decision, now: int)
    requires request !in sys.flights
    ensures var read := Race.Apply(sys, Race.ReadForDecision(request, orgId, caller, admin, visitId, decision));
      var done := Race.Apply(read, Race.CommitDecision(request, now));
      && done.db == DecideSpec(sys.db, orgId, caller, admin, visitId, decision, now).0
      && done.flights == sys.flights
  {
  }

  lemma UninterruptedStart(sys: Race.Sys, request: Race.RequestId, orgId: OrgId, staffId: StaffId, fullName: string,
                           email: string, visitId: VisitId, notificationId: NotificationId, now: int)
    requires request !in sys.flights
    ensures var read := Race.Apply(sys, Race.ReadForStart(request, orgId, staffId, fullName, email));
      var inserted := Race.Apply(read, Race.InsertVisit(request, visitId));
      var done := Race.Apply(inserted, Race.InsertNotification(request, notificationId, now));
      && done.db == StartVisitSpec(sys.db, orgId, staffId, fullName, email, visitId, notificationId, now).0
      && done.flights == sys.flights
  {
  }

  lemma UninterruptedReminder(sys: Race.Sys, request: Race.RequestId, orgId: OrgId, visitId: VisitId,
                              notificationId: NotificationId, now: int)
    requires request !in sys.flights
    ensures var read := Race.Apply(sys, Race.ReadForReminder(request, orgId, visitId, now));
      var done := Race.Apply(read, Race.InsertNotification(request, notificationId, now));
      && done.db == ResendSpec(sys.db, orgId, visitId, notificationId, now).0
      && done.flights == sys.flights
  {
  }

  lemma UninterruptedCheckOut(sys: Race.Sys, request: Race.RequestId, orgId: OrgId, visitId: VisitId, now: int)
    requires request !in sys.flights
    ensures var read := Race.Apply(sys, Race.ReadForCheckOut(request, orgId, visitId, true));
      var done := Race.Apply(read, Race.WriteCheckOut(request, now));
      && done.db == EndVisitQrSpec(sys.db, orgId, visitId, now).0
      && done.flights == sys.flights
  {
  }

  // ---------- The history of a visit ----------

  /** What a request that succeeded makes of visit `id`. */
  ghost function Changed(v: Visit, id: VisitId, t: Timed): Visit {
    match t.request
    case Decide(_, _, _, visitId, decision) =>
      if visitId != id then v
      else if decision == Accept then v.(status := Ongoing, startTime := Some(t.now))
      else v.(status := Rejected)
    case EndVisit(_, _, _, found) => if found == Some(id) then v.(status := Completed, endTime := Some(t.now)) else v
    case EndVisitQr(_, visitId) => if visitId == id then v.(status := Completed, endTime := Some(t.now)) else v
    case _ => v
  }

  ghost function Replay(db: Db, clock: int, ts: seq<Timed>, id: VisitId, v: Visit): Visit
    requires SerialRun(db, clock, ts)
    decreases |ts|
  {
    if ts == [] then v
    else
      var (after, result) := VisitRuns.Apply(db, ts[0]);
      Replay(after, ts[0].now, ts[1..], id, if result == Success then Changed(v, id, ts[0]) else v)
  }

  lemma StepChanges(db: Db, t: Timed, id: VisitId)
    requires Feasible(db, t) && id in db.visits
    ensures var (after, result) := VisitRuns.Apply(db, t);
      id in after.visits
      && after.visits[id] == if result == Success then Changed(db.visits[id], id, t) else db.visits[id]
  {
    match t.request {
      case StartVisit(orgId, staffId, fullName, email, visitId, notificationId) =>
        StartVisitEffect(db, orgId, staffId, fullName, email, visitId, notificationId, t.now);
      case EndVisit(orgId, fullName, email, found) => EndVisitEffect(db, orgId, fullName, email, found, t.now);
      case EndVisitQr(orgId, visitId) => EndVisitQrEffect(db, orgId, visitId, t.now);
      case Decide(orgId, caller, admin, visitId, decision) =>
        DecideEffect(db, orgId, caller, admin, visitId, decision, t.now);
      case Resend(orgId, visitId, notificationId) => ResendEffect(db, orgId, visitId, notificationId, t.now);
      case DeleteNotification(orgId, caller, notificationId) => DeleteEffect(db, orgId, caller, notificationId);
    }
  }

  /** In every serial run a visit is what the requests that succeeded on it made of it: an accepted one
      started when it was accepted, a completed one ended when it was checked out, and visitor, host
      and organization stay. */
  lemma {:induction false} VisitFollowsHistory(db: Db, clock: int, ts: seq<Timed>, id: VisitId)
    requires SerialRun(db, clock, ts) && id in db.visits
    ensures var after := Run(db, clock, ts);
      id in after.visits && after.visits[id] == Replay(db, clock, ts, id, db.visits[id])
    decreases |ts|
  {
    if ts != [] {
      StepChanges(db, ts[0], id);
      VisitFollowsHistory(VisitRuns.Apply(db, ts[0]).0, ts[0].now, ts[1..], id);
    }
  }

  lemma {:induction false} ReplayKeepsVisitor(db: Db, clock: int, ts: seq<Timed>, id: VisitId, v: Visit)
    requires SerialRun(db, clock, ts)
    ensures var w := Replay(db, clock, ts, id, v);
      w.orgId == v.orgId && w.fullName == v.fullName && w.email == v.email && w.staffId == v.staffId
    decreases |ts|
  {
    if ts != [] {
      var (after, result) := VisitRuns.Apply(db, ts[0]);
      ReplayKeepsVisitor(after, ts[0].now, ts[1..], id, if result == Success then Changed(v, id, ts[0]) else v);
    }
  }

  /** A visit registered under a name and an address is the one that a check-out under the same name and
      address finds, in every later state of the run in which it has been accepted and is not over. */
  lemma CheckOutFindsRegistered(db: Db, clock: int, t: Timed, ts: seq<Timed>, found: Option<VisitId>)
    requires Inv(db) && t.request.StartVisit? && SerialRun(db, clock, [t] + ts)
    requires VisitRuns.Apply(db, t).1 == Success
    requires var after, r := Run(db, clock, [t] + ts), t.request;
      && FindsOngoing(after, r.orgId, r.fullName, r.email, found)
      && r.newVisitId in after.visits && after.visits[r.newVisitId].status == Ongoing
    ensures found == Some(t.request.newVisitId)
  {
    var r, after := t.request, Run(db, clock, [t] + ts);
    var started := VisitRuns.Apply(db, t).0;
    assert ([t] + ts)[1..] == ts;
    RunKeepsInv(db, clock, [t] + ts);
    StartVisitEffect(db, r.orgId, r.staffId, r.fullName, r.email, r.newVisitId, r.newNotificationId, t.now);
    VisitFollowsHistory(started, t.now, ts, r.newVisitId);
    ReplayKeepsVisitor(started, t.now, ts, r.newVisitId, started.visits[r.newVisitId]);
    assert IsInside(after.visits[r.newVisitId], r.orgId, r.fullName, r.email);
    EndVisitEffect(after, r.orgId, r.fullName, r.email, found, t.now);
    assert BothActive(after.visits[found.value], after.visits[r.newVisitId]);
  }

  /** The visits that stay when a staff member is deleted are those of other hosts, with their notifications. */
  lemma WithoutStaffEffect(db: Db, gone: StaffId)
    ensures var after := WithoutStaff(db, gone);
      && after.staff == db.staff - {gone}
      && (forall id :: id in after.visits <==> id in db.visits && db.visits[id].staffId != gone)
      && (forall id :: id in after.visits ==> after.visits[id] == db.visits[id])
      && (forall id :: id in after.notifications <==>
            id in db.notifications && db.notifications[id].staffId != gone
            && db.notifications[id].visitId in after.visits)
      && (forall id :: id in after.notifications ==> after.notifications[id] == db.notifications[id])
  {
  }
}
