/** Requests of src/visit/visit.service.ts that overlap in time. Every request is split at its
    database operations: what it reads first, and what it writes later, when other requests may
    have run in between. Only the transaction of acceptVisit and rejectVisit is atomic. */
module DecisionRace {
  import opened Basics
  import opened Visits

  type RequestId = int

  /** A request that has done its reads and not yet its write. */
  datatype Flight =
    | Starting(orgId: OrgId, staffId: StaffId, fullName: string, email: string)
    | Announcing(visitId: VisitId, kind: NotificationType)
    | Deciding(visitId: VisitId, decision: Decision)
    | CheckingOut(visitId: VisitId)

  /** The decision that committed for a visit and the notifications the visit had at that moment. */
  datatype Verdict = Verdict(decision: Decision, notified: set<NotificationId>)

  /** The tables, the requests under way, and for the statements below the verdicts so far and all
      notification identifiers ever drawn. */
  datatype Sys = Sys(db: Db, flights: map<RequestId, Flight>, verdicts: map<VisitId, Verdict>,
                     issued: set<NotificationId>)

  datatype Step =
    | ReadForStart(request: RequestId, orgId: OrgId, staffId: StaffId, fullName: string, email: string)
    | InsertVisit(request: RequestId, newVisitId: VisitId)
    | ReadForReminder(request: RequestId, orgId: OrgId, visitId: VisitId, now: int)
    | InsertNotification(request: RequestId, newNotificationId: NotificationId, now: int)
    | ReadForDecision(request: RequestId, orgId: OrgId, caller: StaffId, admin: bool, visitId: VisitId,
                      decision: Decision)
    | CommitDecision(request: RequestId, now: int)
    | ReadForCheckOut(request: RequestId, orgId: OrgId, visitId: VisitId, byQr: bool)
    | WriteCheckOut(request: RequestId, now: int)
    | Delete(orgId: OrgId, caller: StaffId, notificationId: NotificationId)

  ghost function Depart(sys: Sys, request: RequestId, passes: bool, flight: Flight): Sys {
    if passes then sys.(flights := sys.flights[request := flight]) else sys
  }

  ghost function Land(sys: Sys, request: RequestId): Sys {
    sys.(flights := sys.flights - {request})
  }

  ghost function NotificationsOf(db: Db, visitId: VisitId): set<NotificationId> {
    set id | id in db.notifications && db.notifications[id].visitId == visitId
  }

  /** The visit and decision that a step commits, if it does. */
  ghost function Commits(sys: Sys, step: Step): Option<(VisitId, Decision)> {
    if step.CommitDecision? && step.request in sys.flights && sys.flights[step.request].Deciding?
       && CommitSpec(sys.db, sys.flights[step.request].visitId, sys.flights[step.request].decision, step.now).1.Success?
    then Some((sys.flights[step.request].visitId, sys.flights[step.request].decision)) else None
  }

  /** The reads of a request let it go on. */
  ghost predicate Passes(sys: Sys, step: Step) {
    match step
    case ReadForStart(_, orgId, staffId, _, email) =>
      WorksFor(sys.db, staffId, orgId) && !HasActiveVisit(sys.db, orgId, Normalize(email))
    case ReadForReminder(_, orgId, visitId, now) => ResendError(sys.db, orgId, visitId, now).None?
    case ReadForDecision(_, orgId, caller, admin, visitId, _) =>
      DecisionError(sys.db, orgId, caller, admin, visitId).None?
    case ReadForCheckOut(_, orgId, visitId, byQr) =>
      if byQr then EndVisitQrError(sys.db, orgId, visitId).None?
      else visitId in sys.db.visits && sys.db.visits[visitId].orgId == orgId && sys.db.visits[visitId].status.Ongoing?
    case _ => false
  }

  ghost function Apply(sys: Sys, step: Step): Sys {
    match step
    case ReadForStart(request, orgId, staffId, fullName, email) =>
      Depart(sys, request, Passes(sys, step), Starting(orgId, staffId, fullName, email))
    case InsertVisit(request, newVisitId) =>
      if request in sys.flights && sys.flights[request].Starting? then
        var f := sys.flights[request];
        var v := NewVisit(f.orgId, f.staffId, f.fullName, f.email);
        sys.(db := sys.db.(visits := sys.db.visits[newVisitId := v]),
             flights := sys.flights[request := Announcing(newVisitId, VisitRequest)])
      else sys
    case ReadForReminder(request, orgId, visitId, now) =>
      Depart(sys, request, Passes(sys, step), Announcing(visitId, Reminder))
    case InsertNotification(request, newNotificationId, now) =>
      if request in sys.flights && sys.flights[request].Announcing?
        && sys.flights[request].visitId in sys.db.visits then
        var f := sys.flights[request];
        var n := NewNotification(sys.db.visits[f.visitId], f.visitId, f.kind, now);
        Land(sys, request).(db := sys.db.(notifications := sys.db.notifications[newNotificationId := n]),
                            issued := sys.issued + {newNotificationId})
      else sys
    case ReadForDecision(request, orgId, caller, admin, visitId, decision) =>
      Depart(sys, request, Passes(sys, step), Deciding(visitId, decision))
    case CommitDecision(request, now) =>
      if request in sys.flights && sys.flights[request].Deciding? then
        var f := sys.flights[request];
        var (db, result) := CommitSpec(sys.db, f.visitId, f.decision, now);
        Land(sys, request).(db := db,
          verdicts := if result.Success? then
            sys.verdicts[f.visitId := Verdict(f.decision, NotificationsOf(sys.db, f.visitId))]
                      else sys.verdicts)
      else sys
    case ReadForCheckOut(request, orgId, visitId, byQr) =>
      Depart(sys, request, Passes(sys, step), CheckingOut(visitId))
    case WriteCheckOut(request, now) =>
      if request in sys.flights && sys.flights[request].CheckingOut? && sys.flights[request].visitId in sys.db.visits
      then Land(sys, request).(db := CheckOut(sys.db, sys.flights[request].visitId, now))
      else sys
    case Delete(orgId, caller, notificationId) => sys.(db := DeleteSpec(sys.db, orgId, caller, notificationId).0)
  }

  ghost predicate Feasible(sys: Sys, step: Step) {
    && (step.InsertVisit? ==> step.newVisitId !in sys.db.visits)
    && (step.InsertNotification? ==> step.newNotificationId !in sys.issued)
  }

  ghost function Run(sys: Sys, steps: seq<Step>): Sys
    decreases |steps|
  {
    if steps == [] then sys else Run(Apply(sys, steps[0]), steps[1..])
  }

  ghost predicate FeasibleRun(sys: Sys, steps: seq<Step>)
    decreases |steps|
  {
    steps == [] || (Feasible(sys, steps[0]) && FeasibleRun(Apply(sys, steps[0]), steps[1..]))
  }

  /** The decisions that commit in a run, in order. */
  ghost function Committed(sys: Sys, steps: seq<Step>): seq<(VisitId, Decision)>
    decreases |steps|
  {
    if steps == [] then []
    else
      var rest := Committed(Apply(sys, steps[0]), steps[1..]);
      if Commits(sys, steps[0]).Some? then [Commits(sys, steps[0]).value] + rest else rest
  }

  // ---------- Invariant ----------

  /** A decided visit is no longer pending, and what remains of its notifications of that moment
      is read and carries the decision. */
  ghost predicate VerdictHolds(db: Db, id: VisitId, verdict: Verdict) {
    && id in db.visits && !db.visits[id].status.Pending?
    && forall n :: n in verdict.notified && n in db.notifications ==>
         db.notifications[n].visitId == id && db.notifications[n].action == Some(verdict.decision)
           && db.notifications[n].isRead
  }

  ghost predicate Inv(sys: Sys) {
    && (forall id :: id in sys.verdicts ==> VerdictHolds(sys.db, id, sys.verdicts[id]))
    && (forall id :: id in sys.verdicts ==> sys.verdicts[id].notified <= sys.issued)
    && sys.db.notifications.Keys <= sys.issued
  }

  /** No step makes a visit pending again, removes it, or takes it out of COMPLETED. */
  lemma StatusOnlyAdvances(sys: Sys, step: Step, id: VisitId)
    requires Feasible(sys, step) && id in sys.db.visits
    ensures id in Apply(sys, step).db.visits
    ensures !sys.db.visits[id].status.Pending? ==> !Apply(sys, step).db.visits[id].status.Pending?
    ensures sys.db.visits[id].status.Completed? ==> Apply(sys, step).db.visits[id].status.Completed?
  {
  }

  lemma CommitKeepsOthers(sys: Sys, step: Step, id: VisitId)
    requires Inv(sys) && step.CommitDecision? && id in sys.verdicts
    ensures VerdictHolds(Apply(sys, step).db, id, sys.verdicts[id])
    ensures Commits(sys, step).Some? ==> Commits(sys, step).value.0 != id
  {
    assert VerdictHolds(sys.db, id, sys.verdicts[id]);
  }

  lemma VerdictSurvives(sys: Sys, step: Step, id: VisitId)
    requires Inv(sys) && Feasible(sys, step) && id in sys.verdicts
    ensures VerdictHolds(Apply(sys, step).db, id, sys.verdicts[id])
    ensures id in Apply(sys, step).verdicts && Apply(sys, step).verdicts[id] == sys.verdicts[id]
  {
    assert VerdictHolds(sys.db, id, sys.verdicts[id]);
    if step.CommitDecision? {
      CommitKeepsOthers(sys, step, id);
    }
  }

  lemma StepKeepsInv(sys: Sys, step: Step)
    requires Inv(sys) && Feasible(sys, step)
    ensures Inv(Apply(sys, step))
    ensures forall id :: id in sys.verdicts ==>
        id in Apply(sys, step).verdicts && Apply(sys, step).verdicts[id] == sys.verdicts[id]
  {
    var after := Apply(sys, step);
    forall id | id in sys.verdicts
      ensures VerdictHolds(after.db, id, sys.verdicts[id])
      ensures id in after.verdicts && after.verdicts[id] == sys.verdicts[id]
    {
      VerdictSurvives(sys, step, id);
    }
    forall id | id in after.verdicts
      ensures VerdictHolds(after.db, id, after.verdicts[id]) && after.verdicts[id].notified <= after.issued
    {
    }
  }

  /** Under every interleaving: a committed decision is final, and every notification that the visit
      had at that commit and that still exists is read and carries the winner's action. */
  lemma {:induction false} VerdictsAreFinal(sys: Sys, steps: seq<Step>)
    requires Inv(sys) && FeasibleRun(sys, steps)
    ensures Inv(Run(sys, steps))
    ensures forall id :: id in sys.verdicts ==>
        id in Run(sys, steps).verdicts && Run(sys, steps).verdicts[id] == sys.verdicts[id]
    decreases |steps|
  {
    if steps != [] {
      StepKeepsInv(sys, steps[0]);
      VerdictsAreFinal(Apply(sys, steps[0]), steps[1..]);
    }
  }

  lemma {:induction false} DecidedNeverCommitsAgain(sys: Sys, steps: seq<Step>, id: VisitId)
    requires Inv(sys) && FeasibleRun(sys, steps) && id in sys.verdicts
    ensures forall i :: 0 <= i < |Committed(sys, steps)| ==> Committed(sys, steps)[i].0 != id
    decreases |steps|
  {
    if steps != [] {
      StepKeepsInv(sys, steps[0]);
      DecidedNeverCommitsAgain(Apply(sys, steps[0]), steps[1..], id);
      if steps[0].CommitDecision? {
        CommitKeepsOthers(sys, steps[0], id);
      }
    }
  }

  /** Under every interleaving of any number of accept and reject requests with check-outs,
      reminders, deletions and new visits, at most one decision ever commits for a visit. */
  lemma {:induction false} AtMostOneDecision(sys: Sys, steps: seq<Step>)
    requires Inv(sys) && FeasibleRun(sys, steps)
    ensures forall i, j :: 0 <= i < j < |Committed(sys, steps)| ==>
        Committed(sys, steps)[i].0 != Committed(sys, steps)[j].0
    decreases |steps|
  {
    if steps != [] {
      var after := Apply(sys, steps[0]);
      StepKeepsInv(sys, steps[0]);
      AtMostOneDecision(after, steps[1..]);
      if Commits(sys, steps[0]).Some? {
        DecidedNeverCommitsAgain(after, steps[1..], Commits(sys, steps[0]).value.0);
      }
    }
  }

  /** Once a decision has committed, the transaction of every other request for the visit fails and changes nothing. */
  lemma LaterDecisionsFail(sys: Sys, id: VisitId, decision: Decision, now: int)
    requires Inv(sys) && id in sys.verdicts
    ensures CommitSpec(sys.db, id, decision, now) == (sys.db, Failure(Conflict))
  {
    assert VerdictHolds(sys.db, id, sys.verdicts[id]);
  }

  /** The first to commit wins: a request under way commits exactly if its visit is still pending, and
      then the visit and all notifications it has show that request's decision. */
  lemma CommitWinsIff(sys: Sys, request: RequestId, now: int)
    requires Inv(sys) && request in sys.flights && sys.flights[request].Deciding?
    ensures var f := sys.flights[request];
      var after := Apply(sys, CommitDecision(request, now));
      if f.visitId in sys.db.visits && sys.db.visits[f.visitId].status.Pending? then
        && Commits(sys, CommitDecision(request, now)) == Some((f.visitId, f.decision))
        && after.db.visits[f.visitId].status == (if f.decision.Accept? then Ongoing else Rejected)
        && forall n :: n in after.db.notifications && after.db.notifications[n].visitId == f.visitId ==>
             after.db.notifications[n].action == Some(f.decision) && after.db.notifications[n].isRead
      else
        Commits(sys, CommitDecision(request, now)).None? && after.db == sys.db
  {
  }
}
