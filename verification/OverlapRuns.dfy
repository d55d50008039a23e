/** What overlapping requests of src/visit/visit.service.ts can break, and exactly when: a registration
    or a reminder reads first and inserts later, and another request may insert in between. */
module OverlapRuns {
  import opened Visits
  import opened DecisionRace
  import VisitRuns

  // ---------- One active visit per person, step by step ----------

  ghost predicate OneActive(sys: Sys) {
    VisitRuns.OneActiveVisit(sys.db.visits)
  }

  predicate IsRegistering(sys: Sys, request: RequestId) {
    request in sys.flights && sys.flights[request].Starting?
  }

  /** No visit of the person of a registration under way is active. */
  ghost predicate IsFree(sys: Sys, request: RequestId)
    requires IsRegistering(sys, request)
  {
    !HasActiveVisit(sys.db, sys.flights[request].orgId, Normalize(sys.flights[request].email))
  }

  /** An insertion keeps one active visit per person exactly if the person has none at that moment. */
  lemma InsertKeepsOneActiveIff(sys: Sys, step: Step)
    requires OneActive(sys) && Feasible(sys, step) && step.InsertVisit? && IsRegistering(sys, step.request)
    ensures OneActive(Apply(sys, step)) <==> IsFree(sys, step.request)
  {
    var f := sys.flights[step.request];
    var visits, after := sys.db.visits, Apply(sys, step).db.visits;
    var v := NewVisit(f.orgId, f.staffId, f.fullName, f.email);
    assert after == visits[step.newVisitId := v];
    if id :| id in visits && IsActiveVisitOf(visits[id], f.orgId, Normalize(f.email)) {
      assert VisitRuns.BothActive(after[id], after[step.newVisitId]);
    } else {
      forall a, b | a in after && b in after && VisitRuns.BothActive(after[a], after[b]) ensures a == b {
        assert a in visits ==> !IsActiveVisitOf(visits[a], f.orgId, Normalize(f.email));
        assert b in visits ==> !IsActiveVisitOf(visits[b], f.orgId, Normalize(f.email));
        assert a in visits && b in visits ==> VisitRuns.BothActive(visits[a], visits[b]);
      }
    }
  }

  /** The step inserts a visit. */
  predicate Inserts(sys: Sys, step: Step) {
    step.InsertVisit? && IsRegistering(sys, step.request)
  }

  /** No step but an insertion adds a visit or makes one active. */
  lemma NothingBecomesActive(sys: Sys, step: Step, id: VisitId)
    requires Feasible(sys, step) && !Inserts(sys, step) && id in Apply(sys, step).db.visits
    ensures id in sys.db.visits
    ensures var v, w := sys.db.visits[id], Apply(sys, step).db.visits[id];
      w.orgId == v.orgId && w.email == v.email && (w.status.Active() ==> v.status.Active())
  {
  }

  lemma QuietStepKeepsOneActive(sys: Sys, step: Step)
    requires OneActive(sys) && Feasible(sys, step) && !Inserts(sys, step)
    ensures OneActive(Apply(sys, step))
  {
    var visits, after := sys.db.visits, Apply(sys, step).db.visits;
    forall a, b | a in after && b in after && VisitRuns.BothActive(after[a], after[b]) ensures a == b {
      NothingBecomesActive(sys, step, a);
      NothingBecomesActive(sys, step, b);
      assert VisitRuns.BothActive(visits[a], visits[b]);
    }
  }

  ghost predicate StaysUnique(sys: Sys, steps: seq<Step>)
    decreases |steps|
  {
    OneActive(sys) && (steps == [] || StaysUnique(Apply(sys, steps[0]), steps[1..]))
  }

  ghost predicate InsertsFreely(sys: Sys, steps: seq<Step>)
    decreases |steps|
  {
    steps == [] ||
    ((Inserts(sys, steps[0]) ==> IsFree(sys, steps[0].request)) && InsertsFreely(Apply(sys, steps[0]), steps[1..]))
  }

  /** An interleaved run has one active visit per person in every state exactly if every insertion
      finds no active visit of its person. */
  lemma {:induction false} StaysUniqueIff(sys: Sys, steps: seq<Step>)
    requires OneActive(sys) && FeasibleRun(sys, steps)
    ensures StaysUnique(sys, steps) <==> InsertsFreely(sys, steps)
    decreases |steps|
  {
    if steps != [] {
      if Inserts(sys, steps[0]) {
        InsertKeepsOneActiveIff(sys, steps[0]);
      } else {
        QuietStepKeepsOneActive(sys, steps[0]);
      }
      if OneActive(Apply(sys, steps[0])) {
        StaysUniqueIff(Apply(sys, steps[0]), steps[1..]);
      }
    }
  }

  // ---------- Overtaken requests ----------

  predicate SamePerson(f: Flight, g: Flight) {
    f.Starting? && g.Starting? && f.orgId == g.orgId && Normalize(f.email) == Normalize(g.email)
  }

  predicate SameVisit(f: Flight, g: Flight) {
    f.Announcing? && g.Announcing? && f.visitId == g.visitId
  }

  predicate Notifies(sys: Sys, step: Step) {
    && step.InsertNotification? && step.request in sys.flights && sys.flights[step.request].Announcing?
    && sys.flights[step.request].visitId in sys.db.visits
  }

  function Rivals(sys: Sys, request: RequestId, same: (Flight, Flight) -> bool): set<RequestId>
    requires request in sys.flights
  {
    set r | r in sys.flights && r != request && same(sys.flights[r], sys.flights[request])
  }

  /** The requests under way that were overtaken: since they read, another registration of the same
      person inserted its visit, or another request inserted a notification of the same visit. */
  ghost function Overtaken(sys: Sys, overtaken: set<RequestId>, step: Step): set<RequestId> {
    if Inserts(sys, step) then overtaken - {step.request} + Rivals(sys, step.request, SamePerson)
    else if Notifies(sys, step) then overtaken - {step.request} + Rivals(sys, step.request, SameVisit)
    else if Passes(sys, step) then overtaken - {step.request}
    else overtaken
  }

  /** No registration inserts its visit after having been overtaken. */
  ghost predicate NoRegistrationOvertaken(sys: Sys, overtaken: set<RequestId>, steps: seq<Step>)
    decreases |steps|
  {
    steps == [] ||
    ((Inserts(sys, steps[0]) ==> steps[0].request !in overtaken)
     && NoRegistrationOvertaken(Apply(sys, steps[0]), Overtaken(sys, overtaken, steps[0]), steps[1..]))
  }

  /** Registrations that were not overtaken still find what they read. */
  ghost predicate StillFree(sys: Sys, overtaken: set<RequestId>) {
    forall r :: IsRegistering(sys, r) && r !in overtaken ==> IsFree(sys, r)
  }

  lemma StepKeepsFree(sys: Sys, overtaken: set<RequestId>, step: Step)
    requires StillFree(sys, overtaken) && Feasible(sys, step)
    ensures StillFree(Apply(sys, step), Overtaken(sys, overtaken, step))
  {
    var after, now := Apply(sys, step), Overtaken(sys, overtaken, step);
    forall r | IsRegistering(after, r) && r !in now ensures IsFree(after, r) {
      if Inserts(sys, step) {
        InsertKeepsFree(sys, overtaken, step, r);
      } else {
        QuietKeepsFree(sys, overtaken, step, r);
      }
    }
  }

  lemma InsertKeepsFree(sys: Sys, overtaken: set<RequestId>, step: Step, r: RequestId)
    requires StillFree(sys, overtaken) && Inserts(sys, step)
    requires IsRegistering(Apply(sys, step), r) && r !in Overtaken(sys, overtaken, step)
    ensures IsFree(Apply(sys, step), r)
  {
    assert r != step.request && IsRegistering(sys, r) && IsFree(sys, r);
    var f, g := sys.flights[r], sys.flights[step.request];
    assert !SamePerson(f, g);
    forall id | id in Apply(sys, step).db.visits
      ensures !IsActiveVisitOf(Apply(sys, step).db.visits[id], f.orgId, Normalize(f.email))
    {
      assert id in sys.db.visits ==> !IsActiveVisitOf(sys.db.visits[id], f.orgId, Normalize(f.email));
    }
  }

  lemma QuietKeepsFree(sys: Sys, overtaken: set<RequestId>, step: Step, r: RequestId)
    requires StillFree(sys, overtaken) && Feasible(sys, step) && !Inserts(sys, step)
    requires IsRegistering(Apply(sys, step), r) && r !in Overtaken(sys, overtaken, step)
    ensures IsFree(Apply(sys, step), r)
  {
    var after := Apply(sys, step);
    var f := after.flights[r];
    assert !HasActiveVisit(sys.db, f.orgId, Normalize(f.email)) by {
      if !(step.ReadForStart? && Passes(sys, step) && step.request == r) {
        assert IsRegistering(sys, r) && sys.flights[r] == f && r !in overtaken;
        assert IsFree(sys, r);
      }
    }
    forall id | id in after.db.visits ensures !IsActiveVisitOf(after.db.visits[id], f.orgId, Normalize(f.email)) {
      NothingBecomesActive(sys, step, id);
      assert !IsActiveVisitOf(sys.db.visits[id], f.orgId, Normalize(f.email));
    }
  }

  lemma {:induction false} UntouchedRegistrationsInsertFreely(sys: Sys, overtaken: set<RequestId>, steps: seq<Step>)
    requires StillFree(sys, overtaken) && FeasibleRun(sys, steps) && NoRegistrationOvertaken(sys, overtaken, steps)
    ensures InsertsFreely(sys, steps)
    decreases |steps|
  {
    if steps != [] {
      StepKeepsFree(sys, overtaken, steps[0]);
      UntouchedRegistrationsInsertFreely(Apply(sys, steps[0]), Overtaken(sys, overtaken, steps[0]), steps[1..]);
    }
  }

  ghost function Start(staff: map<StaffId, OrgId>): Sys {
    Sys(Db(staff, map[], map[]), map[], map[], {})
  }

  /** Requests may overlap in any way: one active visit per person is kept as long as no other
      registration of the same organization and normalized address inserts its visit between the
      reads of a registration and its own insertion. */
  lemma OverlapKeepsOneActive(staff: map<StaffId, OrgId>, steps: seq<Step>)
    requires FeasibleRun(Start(staff), steps) && NoRegistrationOvertaken(Start(staff), {}, steps)
    ensures StaysUnique(Start(staff), steps)
  {
    UntouchedRegistrationsInsertFreely(Start(staff), {}, steps);
    StaysUniqueIff(Start(staff), steps);
  }

  /** Two overlapping registrations of one person both succeed: the check of each runs before the
      other's insertion, so the rule of one active visit needs serial requests. */
  lemma OverlappingStartsBreakUniqueness(staff: map<StaffId, OrgId>, orgId: OrgId, staffId: StaffId, email: string)
    requires WorksFor(Db(staff, map[], map[]), staffId, orgId)
    ensures var s0 := Sys(Db(staff, map[], map[]), map[], map[], {});
      var s1 := Apply(s0, ReadForStart(1, orgId, staffId, "n", email));
      var s2 := Apply(s1, ReadForStart(2, orgId, staffId, "n", email));
      var s3 := Apply(s2, InsertVisit(1, "a"));
      var s4 := Apply(s3, InsertVisit(2, "b"));
      && Feasible(s2, InsertVisit(1, "a")) && Feasible(s3, InsertVisit(2, "b"))
      && "a" in s4.db.visits && IsActiveVisitOf(s4.db.visits["a"], orgId, Normalize(email))
      && "b" in s4.db.visits && IsActiveVisitOf(s4.db.visits["b"], orgId, Normalize(email))
  {
  }

  // ---------- Five minutes between reminders ----------

  ghost predicate FarApart(a: Notification, b: Notification) {
    a.createdAt + REMINDER_WINDOW <= b.createdAt || b.createdAt + REMINDER_WINDOW <= a.createdAt
  }

  ghost predicate BothAnnounce(a: Notification, b: Notification) {
    Announces(a, a.visitId) && Announces(b, a.visitId)
  }

  /** The stored requests and reminders of each visit are pairwise at least five minutes apart. */
  ghost predicate StoredApart(db: Db) {
    forall m, n :: m in db.notifications && n in db.notifications && m != n ==>
      BothAnnounce(db.notifications[m], db.notifications[n]) ==> FarApart(db.notifications[m], db.notifications[n])
  }

  ghost predicate AnyRecent(db: Db, visitId: VisitId, now: int) {
    exists id :: id in db.notifications && IsRecent(db.notifications[id], visitId, now)
  }

  /** Notifications belong to visits and are not dated later than the clock. */
  ghost predicate DatedBy(sys: Sys, clock: int) {
    && (forall id :: id in sys.db.notifications ==>
        sys.db.notifications[id].createdAt <= clock && sys.db.notifications[id].visitId in sys.db.visits)
    && sys.db.notifications.Keys <= sys.issued
    && (forall r :: r in sys.flights && sys.flights[r].Announcing? ==> !sys.flights[r].kind.SystemMessage?)
  }

  /** An insertion keeps the five minutes exactly if no request or reminder of the visit is recent at that moment. */
  lemma NotifyKeepsApartIff(sys: Sys, step: Step)
    requires StoredApart(sys.db) && Feasible(sys, step) && Notifies(sys, step) && DatedBy(sys, step.now)
    ensures StoredApart(Apply(sys, step).db) <==> !AnyRecent(sys.db, sys.flights[step.request].visitId, step.now)
  {
    var f := sys.flights[step.request];
    var before, after := sys.db.notifications, Apply(sys, step).db.notifications;
    var n := NewNotification(sys.db.visits[f.visitId], f.visitId, f.kind, step.now);
    assert after == before[step.newNotificationId := n] && step.newNotificationId !in before;
    if id :| id in before && IsRecent(before[id], f.visitId, step.now) {
      assert BothAnnounce(after[id], after[step.newNotificationId])
          && !FarApart(after[id], after[step.newNotificationId]);
    } else {
      forall a, b | a in after && b in after && a != b && BothAnnounce(after[a], after[b])
        ensures FarApart(after[a], after[b])
      {
        assert a in before ==> !IsRecent(before[a], f.visitId, step.now);
        assert b in before ==> !IsRecent(before[b], f.visitId, step.now);
        assert a in before && b in before ==> BothAnnounce(before[a], before[b]);
      }
    }
  }

  /** No request inserts its notification after having been overtaken. */
  ghost predicate NoReminderOvertaken(sys: Sys, overtaken: set<RequestId>, steps: seq<Step>)
    decreases |steps|
  {
    steps == [] ||
    ((Notifies(sys, steps[0]) ==> steps[0].request !in overtaken)
     && NoReminderOvertaken(Apply(sys, steps[0]), Overtaken(sys, overtaken, steps[0]), steps[1..]))
  }

  function TimeOf(step: Step, clock: int): int {
    match step
    case ReadForReminder(_, _, _, now) => now
    case InsertNotification(_, _, now) => now
    case CommitDecision(_, now) => now
    case WriteCheckOut(_, now) => now
    case _ => clock
  }

  ghost predicate ClockRuns(clock: int, steps: seq<Step>)
    decreases |steps|
  {
    steps == [] || (clock <= TimeOf(steps[0], clock) && ClockRuns(TimeOf(steps[0], clock), steps[1..]))
  }

  /** Requests under way that were not overtaken may still insert their notification. */
  ghost predicate StillQuiet(sys: Sys, overtaken: set<RequestId>, clock: int) {
    forall r :: r in sys.flights && sys.flights[r].Announcing? && r !in overtaken ==>
      !AnyRecent(sys.db, sys.flights[r].visitId, clock)
  }

  lemma RecentFades(db: Db, visitId: VisitId, clock: int, now: int)
    requires clock <= now && !AnyRecent(db, visitId, clock)
    ensures !AnyRecent(db, visitId, now)
  {
    forall id | id in db.notifications ensures !IsRecent(db.notifications[id], visitId, now) {
      assert !IsRecent(db.notifications[id], visitId, clock);
    }
  }

  /** Steps that insert no notification at most delete some or mark them. */
  lemma NoNewNotification(sys: Sys, step: Step, id: NotificationId)
    requires !Notifies(sys, step) && id in Apply(sys, step).db.notifications
    ensures id in sys.db.notifications
    ensures var m, n := sys.db.notifications[id], Apply(sys, step).db.notifications[id];
      n.visitId == m.visitId && n.kind == m.kind && n.createdAt == m.createdAt
  {
  }

  lemma StepKeepsDated(sys: Sys, clock: int, step: Step)
    requires DatedBy(sys, clock) && Feasible(sys, step) && clock <= TimeOf(step, clock)
    ensures DatedBy(Apply(sys, step), TimeOf(step, clock))
  {
    var after := Apply(sys, step);
    forall id | id in after.db.notifications
      ensures after.db.notifications[id].createdAt <= TimeOf(step, clock)
      ensures after.db.notifications[id].visitId in after.db.visits
    {
      if !Notifies(sys, step) {
        NoNewNotification(sys, step, id);
      }
    }
  }

  lemma QuietStepKeepsApart(sys: Sys, step: Step)
    requires StoredApart(sys.db) && !Notifies(sys, step)
    ensures StoredApart(Apply(sys, step).db)
  {
    var before, after := sys.db.notifications, Apply(sys, step).db.notifications;
    forall m, n | m in after && n in after && m != n && BothAnnounce(after[m], after[n])
      ensures FarApart(after[m], after[n])
    {
      NoNewNotification(sys, step, m);
      NoNewNotification(sys, step, n);
      assert BothAnnounce(before[m], before[n]);
    }
  }

  lemma QuietStepKeepsQuiet(sys: Sys, overtaken: set<RequestId>, clock: int, step: Step, r: RequestId)
    requires StillQuiet(sys, overtaken, clock) && DatedBy(sys, clock) && Feasible(sys, step)
    requires clock <= TimeOf(step, clock)
    requires !Notifies(sys, step)
    requires r in Apply(sys, step).flights && Apply(sys, step).flights[r].Announcing?
    requires r !in Overtaken(sys, overtaken, step)
    ensures !AnyRecent(Apply(sys, step).db, Apply(sys, step).flights[r].visitId, TimeOf(step, clock))
  {
    var after := Apply(sys, step);
    var visitId := after.flights[r].visitId;
    assert !AnyRecent(sys.db, visitId, TimeOf(step, clock)) by {
      if step.ReadForReminder? && step.request == r && Passes(sys, step) {
        assert !AnyRecent(sys.db, visitId, step.now);
      } else if Inserts(sys, step) && step.request == r {
        assert visitId !in sys.db.visits;
      } else {
        assert r in sys.flights && sys.flights[r] == after.flights[r] && r !in overtaken;
        RecentFades(sys.db, visitId, clock, TimeOf(step, clock));
      }
    }
    forall id | id in after.db.notifications
      ensures !IsRecent(after.db.notifications[id], visitId, TimeOf(step, clock))
    {
      NoNewNotification(sys, step, id);
      assert !IsRecent(sys.db.notifications[id], visitId, TimeOf(step, clock));
    }
  }

  lemma NotifyKeepsQuiet(sys: Sys, overtaken: set<RequestId>, clock: int, step: Step, r: RequestId)
    requires StillQuiet(sys, overtaken, clock) && Notifies(sys, step) && clock <= step.now
    requires r in Apply(sys, step).flights && Apply(sys, step).flights[r].Announcing?
    requires r !in Overtaken(sys, overtaken, step)
    ensures !AnyRecent(Apply(sys, step).db, Apply(sys, step).flights[r].visitId, step.now)
  {
    var after := Apply(sys, step);
    var visitId := after.flights[r].visitId;
    assert r in sys.flights && sys.flights[r] == after.flights[r] && r != step.request && r !in overtaken;
    assert !SameVisit(sys.flights[r], sys.flights[step.request]);
    RecentFades(sys.db, visitId, clock, step.now);
    forall id | id in after.db.notifications ensures !IsRecent(after.db.notifications[id], visitId, step.now) {
      assert id in sys.db.notifications ==> !IsRecent(sys.db.notifications[id], visitId, step.now);
    }
  }

  lemma {:induction false} RunKeepsApart(sys: Sys, overtaken: set<RequestId>, clock: int, steps: seq<Step>)
    requires StoredApart(sys.db) && DatedBy(sys, clock) && StillQuiet(sys, overtaken, clock)
    requires FeasibleRun(sys, steps) && ClockRuns(clock, steps) && NoReminderOvertaken(sys, overtaken, steps)
    ensures StoredApart(Run(sys, steps).db)
    decreases |steps|
  {
    if steps != [] {
      var step := steps[0];
      var after, late, now := Apply(sys, step), Overtaken(sys, overtaken, step), TimeOf(step, clock);
      StepKeepsDated(sys, clock, step);
      forall r | r in after.flights && after.flights[r].Announcing? && r !in late
        ensures !AnyRecent(after.db, after.flights[r].visitId, now)
      {
        if Notifies(sys, step) {
          NotifyKeepsQuiet(sys, overtaken, clock, step, r);
        } else {
          QuietStepKeepsQuiet(sys, overtaken, clock, step, r);
        }
      }
      if Notifies(sys, step) {
        RecentFades(sys.db, sys.flights[step.request].visitId, clock, step.now);
        NotifyKeepsApartIff(sys, step);
      } else {
        QuietStepKeepsApart(sys, step);
      }
      RunKeepsApart(after, late, now, steps[1..]);
    }
  }

  /** Requests may overlap in any way: the stored requests and reminders of a visit stay five minutes
      apart as long as no other notification of the visit is inserted between the reads of a request
      and the insertion of its own. */
  lemma OverlapKeepsApart(staff: map<StaffId, OrgId>, clock: int, steps: seq<Step>)
    requires FeasibleRun(Start(staff), steps) && ClockRuns(clock, steps) && NoReminderOvertaken(Start(staff), {}, steps)
    ensures StoredApart(Run(Start(staff), steps).db)
  {
    RunKeepsApart(Start(staff), {}, clock, steps);
  }

  /** Wherever one reminder may be sent, two overlapping ones are sent at once. */
  lemma OverlappingRemindersBreakSpacing(sys: Sys, orgId: OrgId, visitId: VisitId, now: int, a: NotificationId,
                                         b: NotificationId)
    requires ResendError(sys.db, orgId, visitId, now).None? && a !in sys.issued && b !in sys.issued && a != b
    ensures var s1 := Apply(sys, ReadForReminder(1, orgId, visitId, now));
      var s2 := Apply(s1, ReadForReminder(2, orgId, visitId, now));
      var s3 := Apply(s2, InsertNotification(1, a, now));
      var s4 := Apply(s3, InsertNotification(2, b, now));
      && Feasible(s2, InsertNotification(1, a, now)) && Feasible(s3, InsertNotification(2, b, now))
      && !StoredApart(s4.db)
  {
    var s1 := Apply(sys, ReadForReminder(1, orgId, visitId, now));
    var s2 := Apply(s1, ReadForReminder(2, orgId, visitId, now));
    var s3 := Apply(s2, InsertNotification(1, a, now));
    var s4 := Apply(s3, InsertNotification(2, b, now));
    assert BothAnnounce(s4.db.notifications[a], s4.db.notifications[b]);
    assert !FarApart(s4.db.notifications[a], s4.db.notifications[b]);
  }

  // ---------- The lifecycle under overlap ----------

  ghost predicate LifeOk(db: Db) {
    && (forall id :: id in db.visits ==> VisitRuns.VisitOk(db.visits[id]))
    && (forall n :: n in db.notifications ==> VisitRuns.NotificationOk(db.visits, db.notifications[n]))
  }

  lemma StepKeepsVisitsOk(sys: Sys, step: Step, id: VisitId)
    requires LifeOk(sys.db) && Feasible(sys, step) && id in Apply(sys, step).db.visits
    ensures VisitRuns.VisitOk(Apply(sys, step).db.visits[id])
  {
    assert id in sys.db.visits ==> VisitRuns.VisitOk(sys.db.visits[id]);
  }

  lemma StepKeepsNotificationsOk(sys: Sys, step: Step, n: NotificationId)
    requires LifeOk(sys.db) && Feasible(sys, step) && n in Apply(sys, step).db.notifications
    ensures VisitRuns.NotificationOk(Apply(sys, step).db.visits, Apply(sys, step).db.notifications[n])
  {
    assert n in sys.db.notifications ==> VisitRuns.NotificationOk(sys.db.visits, sys.db.notifications[n]);
  }

  lemma StepKeepsLifeOk(sys: Sys, step: Step)
    requires LifeOk(sys.db) && Feasible(sys, step)
    ensures LifeOk(Apply(sys, step).db)
  {
    forall id | id in Apply(sys, step).db.visits ensures VisitRuns.VisitOk(Apply(sys, step).db.visits[id]) {
      StepKeepsVisitsOk(sys, step, id);
    }
    forall n | n in Apply(sys, step).db.notifications
      ensures VisitRuns.NotificationOk(Apply(sys, step).db.visits, Apply(sys, step).db.notifications[n])
    {
      StepKeepsNotificationsOk(sys, step, n);
    }
  }

  /** Under every interleaving the times of a visit match its status, and a pending visit's
      notifications are unread and undecided, so that nobody can delete them. */
  lemma {:induction false} OverlapKeepsLifeOk(sys: Sys, steps: seq<Step>)
    requires LifeOk(sys.db) && FeasibleRun(sys, steps)
    ensures LifeOk(Run(sys, steps).db)
    decreases |steps|
  {
    if steps != [] {
      StepKeepsLifeOk(sys, steps[0]);
      OverlapKeepsLifeOk(Apply(sys, steps[0]), steps[1..]);
    }
  }
}
