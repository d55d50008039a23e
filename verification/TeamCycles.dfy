/** When the reporting graph of a team stays free of cycles: src/team/team.service.ts checks a request
    for reversed pairs only. */
module TeamCycles {
  import opened Graphs
  import opened Teams
  import opened TeamRuns

  /** Who reports to whom in a team. */
  ghost function EdgesOf(db: Db, teamId: TeamId): Graph<StaffId> {
    set r | r in db.reporting && r.teamId == teamId :: (r.staffId, r.managerId)
  }

  lemma EdgesAreReports(db: Db, teamId: TeamId, staffId: StaffId, managerId: StaffId)
    ensures (staffId, managerId) in EdgesOf(db, teamId) <==> Reports(db, teamId, staffId, managerId)
  {
    if r :| r in db.reporting && r.teamId == teamId && r.staffId == staffId && r.managerId == managerId {
      assert (r.staffId, r.managerId) in EdgesOf(db, teamId);
    }
  }

  ghost predicate AllAcyclic(db: Db) {
    forall teamId :: Acyclic(EdgesOf(db, teamId))
  }

  // ---------- One request ----------

  /** The staff members of a request whom setReporting accepts. */
  ghost function Accepted(db: Db, orgId: OrgId, teamId: TeamId, staffIds: seq<StaffId>,
                          managerIds: seq<StaffId>): set<StaffId> {
    set s | s in staffIds && Accepts(db, orgId, teamId, managerIds, s)
  }

  lemma BulkJoins(db: Db, orgId: OrgId, teamId: TeamId, staffIds: seq<StaffId>, managerIds: seq<StaffId>, after: Db)
    requires Consistent(db) && RequestedAdded(db, after, orgId, teamId, staffIds, managerIds)
    ensures Joins(EdgesOf(db, teamId), EdgesOf(after, teamId), Accepted(db, orgId, teamId, staffIds, managerIds),
                  set m | m in managerIds)
  {
    forall a, b
      ensures (a, b) in EdgesOf(after, teamId) <==>
                (a, b) in EdgesOf(db, teamId)
                  || (a in Accepted(db, orgId, teamId, staffIds, managerIds) && b in managerIds)
    {
      EdgesAreReports(db, teamId, a, b);
      EdgesAreReports(after, teamId, a, b);
      ReportsAfter(db, after, orgId, teamId, staffIds, managerIds, a, b);
    }
  }

  lemma OtherTeamsStay(db: Db, orgId: OrgId, teamId: TeamId, staffIds: seq<StaffId>, managerIds: seq<StaffId>,
                       after: Db, other: TeamId)
    requires RequestedAdded(db, after, orgId, teamId, staffIds, managerIds) && other != teamId
    ensures EdgesOf(after, other) == EdgesOf(db, other)
  {
    forall r: Reporting | r.teamId == other ensures r in after.reporting <==> r in db.reporting {
    }
  }

  /** A bulk request keeps a team free of cycles exactly if none of its managers already reports,
      directly or through others, to a staff member whom it accepts. */
  lemma BulkKeepsAcyclicIff(db: Db, orgId: OrgId, teamId: TeamId, staffIds: seq<StaffId>, managerIds: seq<StaffId>)
    requires Consistent(db) && Acyclic(EdgesOf(db, teamId))
    ensures Acyclic(EdgesOf(Bulk(db, orgId, teamId, staffIds, managerIds).0, teamId))
       <==> forall s, m :: s in Accepted(db, orgId, teamId, staffIds, managerIds) && m in managerIds ==>
         !Reaches(EdgesOf(db, teamId), m, s)
  {
    var after := Bulk(db, orgId, teamId, staffIds, managerIds).0;
    var managers := set m | m in managerIds;
    BulkMeaning(db, orgId, teamId, staffIds, managerIds);
    BulkJoins(db, orgId, teamId, staffIds, managerIds, after);
    JoinsKeepsAcyclicIff(EdgesOf(db, teamId), EdgesOf(after, teamId),
                         Accepted(db, orgId, teamId, staffIds, managerIds), managers);
    assert forall m :: m in managers <==> m in managerIds;
  }

  lemma SetAddsRequested(db: Db, orgId: OrgId, teamId: TeamId, staffId: StaffId, managerIds: seq<StaffId>)
    requires Consistent(db)
    ensures RequestedAdded(db, SetReportingSpec(db, orgId, teamId, staffId, managerIds).0, orgId, teamId, [staffId],
                           managerIds)
  {
    StepAddsRequested(db, db, orgId, teamId, [], managerIds, staffId);
    assert [] + [staffId] == [staffId];
  }

  lemma SetJoins(db: Db, orgId: OrgId, teamId: TeamId, staffId: StaffId, managerIds: seq<StaffId>)
    requires Consistent(db) && Accepts(db, orgId, teamId, managerIds, staffId)
    ensures var after := SetReportingSpec(db, orgId, teamId, staffId, managerIds).0;
      Joins(EdgesOf(db, teamId), EdgesOf(after, teamId), {staffId}, NewManagers(db, teamId, staffId, managerIds))
  {
    var after := SetReportingSpec(db, orgId, teamId, staffId, managerIds).0;
    SetAddsRequested(db, orgId, teamId, staffId, managerIds);
    AcceptedManagers(db, orgId, teamId, staffId, managerIds);
    forall a, b
      ensures (a, b) in EdgesOf(after, teamId) <==>
                (a, b) in EdgesOf(db, teamId) || (a == staffId && b in NewManagers(db, teamId, staffId, managerIds))
    {
      EdgesAreReports(db, teamId, a, b);
      EdgesAreReports(after, teamId, a, b);
      ReportsAfter(db, after, orgId, teamId, [staffId], managerIds, a, b);
    }
  }

  /** An accepted request keeps a team free of cycles exactly if none of the managers who are new to
      the staff member already reports, directly or through others, to the staff member. */
  lemma SetReportingKeepsAcyclicIff(db: Db, orgId: OrgId, teamId: TeamId, staffId: StaffId, managerIds: seq<StaffId>)
    requires Consistent(db) && Acyclic(EdgesOf(db, teamId)) && Accepts(db, orgId, teamId, managerIds, staffId)
    ensures Acyclic(EdgesOf(SetReportingSpec(db, orgId, teamId, staffId, managerIds).0, teamId))
       <==> forall m :: m in NewManagers(db, teamId, staffId, managerIds) ==> !Reaches(EdgesOf(db, teamId), m, staffId)
  {
    var after := SetReportingSpec(db, orgId, teamId, staffId, managerIds).0;
    SetJoins(db, orgId, teamId, staffId, managerIds);
    JoinsKeepsAcyclicIff(EdgesOf(db, teamId), EdgesOf(after, teamId), {staffId},
                         NewManagers(db, teamId, staffId, managerIds));
    assert staffId in {staffId};
  }

  // ---------- Runs ----------

  /** The request adds no edge from a staff member to a manager who already reaches that staff member. */
  ghost predicate NoLoop(db: Db, r: Request) {
    match r
    case SetReporting(orgId, teamId, staffId, managerIds) =>
      Accepts(db, orgId, teamId, managerIds, staffId) ==>
        forall m :: m in NewManagers(db, teamId, staffId, managerIds) ==> !Reaches(EdgesOf(db, teamId), m, staffId)
    case SetReportingBulk(orgId, teamId, staffIds, managerIds) =>
      forall s, m :: s in Accepted(db, orgId, teamId, staffIds, managerIds) && m in managerIds ==>
        !Reaches(EdgesOf(db, teamId), m, s)
    case _ => true
  }

  lemma OneTeamDecides(db: Db, orgId: OrgId, teamId: TeamId, staffIds: seq<StaffId>, managerIds: seq<StaffId>,
                       after: Db)
    requires AllAcyclic(db) && RequestedAdded(db, after, orgId, teamId, staffIds, managerIds)
    ensures AllAcyclic(after) <==> Acyclic(EdgesOf(after, teamId))
  {
    forall other | other != teamId ensures Acyclic(EdgesOf(after, other)) {
      OtherTeamsStay(db, orgId, teamId, staffIds, managerIds, after, other);
    }
  }

  lemma FewerRowsKeepAcyclic(db: Db, after: Db)
    requires AllAcyclic(db) && forall r :: r in after.reporting ==> r in db.reporting
    ensures AllAcyclic(after)
  {
    forall teamId ensures Acyclic(EdgesOf(after, teamId)) {
      FewerEdgesKeepAcyclic(EdgesOf(db, teamId), EdgesOf(after, teamId));
    }
  }

  lemma StepKeepsAcyclicIff(db: Db, r: Request)
    requires Consistent(db) && AllAcyclic(db)
    ensures AllAcyclic(Apply(db, r)) <==> NoLoop(db, r)
  {
    var after := Apply(db, r);
    match r {
      case SetReporting(orgId, teamId, staffId, managerIds) =>
        if Accepts(db, orgId, teamId, managerIds, staffId) {
          SetAddsRequested(db, orgId, teamId, staffId, managerIds);
          OneTeamDecides(db, orgId, teamId, [staffId], managerIds, after);
          SetReportingKeepsAcyclicIff(db, orgId, teamId, staffId, managerIds);
        }
      case SetReportingBulk(orgId, teamId, staffIds, managerIds) =>
        BulkMeaning(db, orgId, teamId, staffIds, managerIds);
        OneTeamDecides(db, orgId, teamId, staffIds, managerIds, after);
        BulkKeepsAcyclicIff(db, orgId, teamId, staffIds, managerIds);
      case _ =>
        FewerRowsKeepAcyclic(db, after);
    }
  }

  ghost predicate StaysAcyclic(db: Db, rs: seq<Request>)
    decreases |rs|
  {
    AllAcyclic(db) && (rs == [] || StaysAcyclic(Apply(db, rs[0]), rs[1..]))
  }

  ghost predicate NeverLoops(db: Db, rs: seq<Request>)
    decreases |rs|
  {
    rs == [] || (NoLoop(db, rs[0]) && NeverLoops(Apply(db, rs[0]), rs[1..]))
  }

  /** A run keeps all teams free of cycles in every state exactly if no request of it makes a loop. */
  lemma {:induction false} RunStaysAcyclicIff(db: Db, rs: seq<Request>)
    requires Consistent(db) && AllAcyclic(db) && FeasibleRun(db, rs)
    ensures StaysAcyclic(db, rs) <==> NeverLoops(db, rs)
    decreases |rs|
  {
    if rs != [] {
      StepKeepsConsistent(db, rs[0]);
      StepKeepsAcyclicIff(db, rs[0]);
      if NoLoop(db, rs[0]) {
        RunStaysAcyclicIff(Apply(db, rs[0]), rs[1..]);
      }
    }
  }

  // ---------- A cycle of three ----------

  lemma LoopIsMade(db: Db, orgId: OrgId, teamId: TeamId, staffId: StaffId, managerIds: seq<StaffId>, m: StaffId)
    requires Consistent(db) && Accepts(db, orgId, teamId, managerIds, staffId)
    requires m in NewManagers(db, teamId, staffId, managerIds) && Reaches(EdgesOf(db, teamId), m, staffId)
    ensures !NoLoop(db, SetReporting(orgId, teamId, staffId, managerIds))
    ensures !Acyclic(EdgesOf(SetReportingSpec(db, orgId, teamId, staffId, managerIds).0, teamId))
  {
    var after := SetReportingSpec(db, orgId, teamId, staffId, managerIds).0;
    SetJoins(db, orgId, teamId, staffId, managerIds);
    WayBackMakesCycle(EdgesOf(db, teamId), EdgesOf(after, teamId), {staffId},
                      NewManagers(db, teamId, staffId, managerIds), staffId, m);
  }

  lemma TwoSteps(db: Db, teamId: TeamId, a: StaffId, b: StaffId, c: StaffId)
    requires Reports(db, teamId, a, b) && Reports(db, teamId, b, c)
    ensures Reaches(EdgesOf(db, teamId), a, c)
  {
    EdgesAreReports(db, teamId, a, b);
    EdgesAreReports(db, teamId, b, c);
    var p := [a, b, c];
    assert Path(EdgesOf(db, teamId), p) && p[0] == a && p[|p| - 1] == c;
  }

  lemma SetOne(db: Db, orgId: OrgId, teamId: TeamId, staffId: StaffId, managerId: StaffId)
    requires Consistent(db) && teamId in db.teams && db.teams[teamId].orgId == orgId
    requires IsMember(db, teamId, staffId) && IsMember(db, teamId, managerId) && staffId != managerId
    requires db.teams[teamId].masterManagerId != staffId && !Reports(db, teamId, managerId, staffId)
    ensures var (after, result) := SetReportingSpec(db, orgId, teamId, staffId, [managerId]);
      && result.Success? && Consistent(after) && after.teams == db.teams && after.members == db.members
      && forall s, m :: Reports(after, teamId, s, m)
          <==> (Reports(db, teamId, s, m) || (s == staffId && m == managerId))
  {
    LengthCheckIff(db, teamId, [managerId]);
    assert Accepts(db, orgId, teamId, [managerId], staffId);
    StepAddsRequested(db, db, orgId, teamId, [], [managerId], staffId);
    SetReportingConsistent(db, orgId, teamId, staffId, [managerId]);
    assert [] + [staffId] == [staffId];
    forall s, m
      ensures Reports(SetReportingSpec(db, orgId, teamId, staffId, [managerId]).0, teamId, s, m)
         <==> (Reports(db, teamId, s, m) || (s == staffId && m == managerId))
    {
      ReportsAfter(db, SetReportingSpec(db, orgId, teamId, staffId, [managerId]).0, orgId, teamId, [staffId],
                   [managerId], s, m);
    }
  }

  /** Only pairs are kept apart: three ordinary members can be made to report to each other in a
      circle. The third request is accepted although it meets the condition of a loop. */
  lemma CycleIsAccepted(db: Db, orgId: OrgId, teamId: TeamId, a: StaffId, b: StaffId, c: StaffId)
    requires Consistent(db) && teamId in db.teams && db.teams[teamId].orgId == orgId
    requires a != b && b != c && c != a && db.teams[teamId].masterManagerId !in {a, b, c}
    requires IsMember(db, teamId, a) && IsMember(db, teamId, b) && IsMember(db, teamId, c)
    requires forall s, m :: s in {a, b, c} && m in {a, b, c} ==> !Reports(db, teamId, s, m)
    ensures var (db1, r1) := SetReportingSpec(db, orgId, teamId, a, [b]);
      var (db2, r2) := SetReportingSpec(db1, orgId, teamId, b, [c]);
      var (db3, r3) := SetReportingSpec(db2, orgId, teamId, c, [a]);
      && r1.Success? && r2.Success? && r3.Success?
      && Reports(db3, teamId, a, b) && Reports(db3, teamId, b, c) && Reports(db3, teamId, c, a)
      && !NoLoop(db2, SetReporting(orgId, teamId, c, [a])) && !Acyclic(EdgesOf(db3, teamId))
  {
    SetOne(db, orgId, teamId, a, b);
    var db1 := SetReportingSpec(db, orgId, teamId, a, [b]).0;
    SameMembership(db, db1, teamId, b);
    SameMembership(db, db1, teamId, c);
    SetOne(db1, orgId, teamId, b, c);
    var db2 := SetReportingSpec(db1, orgId, teamId, b, [c]).0;
    SameMembership(db, db2, teamId, c);
    SameMembership(db, db2, teamId, a);
    SetOne(db2, orgId, teamId, c, a);
    TwoSteps(db2, teamId, a, b, c);
    assert a in NewManagers(db2, teamId, c, [a]);
    LoopIsMade(db2, orgId, teamId, c, [a], a);
  }
}
