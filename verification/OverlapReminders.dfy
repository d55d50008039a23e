/** The five minutes between the requests and reminders of a visit when requests of
    src/visit/visit.service.ts overlap, counting all that were ever created. */
module OverlapReminders {
  import opened Visits
  import opened DecisionRace
  import opened OverlapRuns

  ghost predicate Creates(sys: Sys, step: Step, id: VisitId) {
    Notifies(sys, step) && sys.flights[step.request].visitId == id
  }

  /** The times at which request and reminder notifications of a visit are created in a run. */
  ghost function Created(sys: Sys, steps: seq<Step>, id: VisitId): seq<int>
    decreases |steps|
  {
    if steps == [] then []
    else (if Creates(sys, steps[0], id) then [steps[0].now] else []) + Created(Apply(sys, steps[0]), steps[1..], id)
  }

  ghost predicate LongAgo(created: seq<int>, clock: int) {
    created == [] || created[|created| - 1] + REMINDER_WINDOW <= clock
  }

  /** A request under way that inserts a notification of the visit and was not overtaken. */
  ghost predicate IsFresh(sys: Sys, overtaken: set<RequestId>, id: VisitId, r: RequestId) {
    r in sys.flights && sys.flights[r].Announcing? && sys.flights[r].visitId == id && r !in overtaken
  }

  /** `created` lists what was created for the visit so far. While the visit is pending the last one is
      stored; a request under way that was not overtaken found nothing recent. */
  ghost predicate History(sys: Sys, overtaken: set<RequestId>, clock: int, id: VisitId, created: seq<int>) {
    && VisitRuns.Spaced(created)
    && (created != [] ==> id in sys.db.visits && created[|created| - 1] <= clock)
    && (created != [] && VisitRuns.IsPending(sys.db, id) ==>
          VisitRuns.LastIsStored(sys.db, id, created[|created| - 1]))
    && (forall r :: IsFresh(sys, overtaken, id, r) ==> LongAgo(created, clock))
  }

  lemma CreatingKeepsHistory(sys: Sys, overtaken: set<RequestId>, clock: int, step: Step, id: VisitId,
                             created: seq<int>)
    requires History(sys, overtaken, clock, id, created) && DatedBy(sys, clock)
    requires Creates(sys, step, id) && step.request !in overtaken && clock <= step.now
    ensures History(Apply(sys, step), Overtaken(sys, overtaken, step), step.now, id, created + [step.now])
  {
    var after := Apply(sys, step);
    assert IsFresh(sys, overtaken, id, step.request);
    VisitRuns.AppendSpaced(created, step.now);
    var n := after.db.notifications[step.newNotificationId];
    assert Announces(n, id) && n.createdAt == step.now;
    forall r ensures !IsFresh(after, Overtaken(sys, overtaken, step), id, r) {
      assert r in after.flights && after.flights[r].Announcing? && after.flights[r].visitId == id ==>
          SameVisit(sys.flights[r], sys.flights[step.request]);
    }
  }

  /** A visit that is pending after a step was pending before, and its notifications are still stored. */
  lemma PendingKeepsLast(sys: Sys, step: Step, id: VisitId, time: int)
    requires LifeOk(sys.db) && Feasible(sys, step) && sys.db.notifications.Keys <= sys.issued
    requires id in sys.db.visits && VisitRuns.IsPending(Apply(sys, step).db, id)
    requires VisitRuns.IsPending(sys.db, id) ==> VisitRuns.LastIsStored(sys.db, id, time)
    ensures VisitRuns.IsPending(sys.db, id) && VisitRuns.LastIsStored(Apply(sys, step).db, id, time)
  {
    StatusOnlyAdvances(sys, step, id);
    var before, after := sys.db.notifications, Apply(sys, step).db.notifications;
    var n :| n in before && Announces(before[n], id) && before[n].createdAt == time;
    assert VisitRuns.NotificationOk(sys.db.visits, before[n]);
    assert n in after && Announces(after[n], id) && after[n].createdAt == time;
  }

  /** A reminder that passes its reads comes five minutes after everything created for the visit. */
  lemma PassingReminderIsLate(sys: Sys, overtaken: set<RequestId>, clock: int, step: Step, created: seq<int>)
    requires step.ReadForReminder? && Passes(sys, step) && History(sys, overtaken, clock, step.visitId, created)
    ensures LongAgo(created, step.now)
  {
    if created != [] {
      var n :| && n in sys.db.notifications && Announces(sys.db.notifications[n], step.visitId)
               && sys.db.notifications[n].createdAt == created[|created| - 1];
      assert !IsRecent(sys.db.notifications[n], step.visitId, step.now);
    }
  }

  lemma FreshStaysLate(sys: Sys, overtaken: set<RequestId>, clock: int, step: Step, id: VisitId,
                       created: seq<int>, r: RequestId)
    requires History(sys, overtaken, clock, id, created) && Feasible(sys, step)
    requires !Creates(sys, step, id) && clock <= TimeOf(step, clock)
    requires IsFresh(Apply(sys, step), Overtaken(sys, overtaken, step), id, r)
    ensures LongAgo(created, TimeOf(step, clock))
  {
    if step.ReadForReminder? && step.request == r && Passes(sys, step) {
      PassingReminderIsLate(sys, overtaken, clock, step, created);
    } else if Inserts(sys, step) && step.request == r {
      assert id !in sys.db.visits;
    } else {
      assert IsFresh(sys, overtaken, id, r);
    }
  }

  lemma QuietStepKeepsHistory(sys: Sys, overtaken: set<RequestId>, clock: int, step: Step, id: VisitId,
                              created: seq<int>)
    requires LifeOk(sys.db) && DatedBy(sys, clock) && History(sys, overtaken, clock, id, created)
    requires Feasible(sys, step) && !Creates(sys, step, id) && clock <= TimeOf(step, clock)
    ensures History(Apply(sys, step), Overtaken(sys, overtaken, step), TimeOf(step, clock), id, created)
  {
    var after, late, now := Apply(sys, step), Overtaken(sys, overtaken, step), TimeOf(step, clock);
    if created != [] {
      StatusOnlyAdvances(sys, step, id);
      if VisitRuns.IsPending(after.db, id) {
        PendingKeepsLast(sys, step, id, created[|created| - 1]);
      }
    }
    forall r | IsFresh(after, late, id, r) ensures LongAgo(created, now) {
      FreshStaysLate(sys, overtaken, clock, step, id, created, r);
    }
  }

  lemma {:induction false} CreatedAreSpaced(sys: Sys, overtaken: set<RequestId>, clock: int, steps: seq<Step>,
                                            id: VisitId, created: seq<int>)
    requires LifeOk(sys.db) && DatedBy(sys, clock) && History(sys, overtaken, clock, id, created)
    requires FeasibleRun(sys, steps) && ClockRuns(clock, steps) && NoReminderOvertaken(sys, overtaken, steps)
    ensures VisitRuns.Spaced(created + Created(sys, steps, id))
    decreases |steps|
  {
    if steps == [] {
      assert created + [] == created;
    } else {
      var step := steps[0];
      var after, late, now := Apply(sys, step), Overtaken(sys, overtaken, step), TimeOf(step, clock);
      var added := if Creates(sys, step, id) then [step.now] else [];
      StepKeepsLifeOk(sys, step);
      StepKeepsDated(sys, clock, step);
      if Creates(sys, step, id) {
        CreatingKeepsHistory(sys, overtaken, clock, step, id, created);
      } else {
        QuietStepKeepsHistory(sys, overtaken, clock, step, id, created);
        assert created + added == created;
      }
      CreatedAreSpaced(after, late, now, steps[1..], id, created + added);
      VisitRuns.Regroup(created, added, Created(after, steps[1..], id));
    }
  }

  /** Requests may overlap in any way: as long as no other notification of a visit is inserted between
      the reads of a request and the insertion of its own, all requests and reminders ever created for
      the visit are five minutes apart, and at most 1 + (t - t0) / 5min of them exist by time `t`. */
  lemma OverlapKeepsReminderLimit(staff: map<StaffId, OrgId>, clock: int, steps: seq<Step>, id: VisitId, t: int)
    requires FeasibleRun(Start(staff), steps) && ClockRuns(clock, steps)
    requires NoReminderOvertaken(Start(staff), {}, steps)
    requires forall i :: 0 <= i < |Created(Start(staff), steps, id)| ==> Created(Start(staff), steps, id)[i] <= t
    ensures var times := Created(Start(staff), steps, id);
      && VisitRuns.Spaced(times)
      && (times != [] ==> |times| <= 1 + (t - times[0]) / REMINDER_WINDOW)
  {
    CreatedAreSpaced(Start(staff), {}, clock, steps, id, []);
    var times := Created(Start(staff), steps, id);
    assert [] + times == times;
    VisitRuns.SpacedLimit(times, t);
  }
}
