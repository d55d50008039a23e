/** What every request keeps of the reporting graph, and what a bulk request amounts to. */
module TeamRuns {
  import opened Basics
  import opened Teams

  // ---------- Every request keeps the graph consistent ----------

  lemma KeepIsConsistent(db: Db, kept: seq<Reporting>)
    requires Consistent(db) && NoDuplicates(kept) && forall r :: r in kept ==> r in db.reporting
    ensures Consistent(db.(reporting := kept))
  {
    forall r | r in kept ensures RowOk(db.(reporting := kept), r) {
      SameMembers(db, db.(reporting := kept), r);
    }
  }

  /** Whether a row is in order depends on the teams and members only. */
  lemma SameMembers(db: Db, after: Db, r: Reporting)
    requires db.members == after.members && db.teams == after.teams
    ensures RowOk(db, r) <==> RowOk(after, r)
  {
    assert IsMember(db, r.teamId, r.managerId) <==> IsMember(after, r.teamId, r.managerId) by {
      if id :| id in db.members && IsMemberRow(db, id, r.teamId, r.managerId) {
        assert IsMemberRow(after, id, r.teamId, r.managerId);
      }
      if id :| id in after.members && IsMemberRow(after, id, r.teamId, r.managerId) {
        assert IsMemberRow(db, id, r.teamId, r.managerId);
      }
    }
  }

  /** Rows stay in order when members are added and no row's team changes its master manager. */
  lemma MoreMembers(db: Db, after: Db, r: Reporting)
    requires RowOk(db, r)
    requires forall id :: id in db.members ==> id in after.members && after.members[id] == db.members[id]
    requires r.teamId in after.teams && after.teams[r.teamId].masterManagerId != r.staffId
    ensures RowOk(after, r)
  {
    var id :| id in db.members && IsMemberRow(db, id, r.teamId, r.managerId);
    assert IsMemberRow(after, id, r.teamId, r.managerId);
  }

  lemma AddTeamConsistent(db: Db, orgId: OrgId, master: StaffId, teamId: TeamId, memberId: MemberId)
    requires Consistent(db) && teamId !in db.teams && memberId !in db.members
    ensures Consistent(AddTeamSpec(db, orgId, master, teamId, memberId).0)
  {
    var after := AddTeamSpec(db, orgId, master, teamId, memberId).0;
    forall r | r in after.reporting ensures RowOk(after, r) {
      MoreMembers(db, after, r);
    }
  }

  lemma DetachRemoves(db: Db, teamId: TeamId, staffId: StaffId)
    requires Consistent(db)
    ensures Consistent(db.(reporting := Detach(db, teamId, staffId)))
    ensures forall r :: r in Detach(db, teamId, staffId) <==>
              r in db.reporting && !(r.teamId == teamId && (r.staffId == staffId || r.managerId == staffId))
  {
    if IsMember(db, teamId, staffId) {
      var id := MemberIdOf(db, teamId, staffId);
      KeepIsConsistent(db, WithoutMember(db.reporting, teamId, staffId, id));
      forall r | r in db.reporting && r.teamMemberId == id
        ensures r.staffId == staffId
      {
        assert RowOk(db, r);
      }
    } else {
      forall r | r in db.reporting && r.teamId == teamId
        ensures r.staffId != staffId && r.managerId != staffId
      {
        assert RowOk(db, r);
      }
    }
  }

  lemma EditTeamConsistent(db: Db, orgId: OrgId, teamId: TeamId, master: Option<StaffId>)
    requires Consistent(db)
    ensures Consistent(EditTeamSpec(db, orgId, teamId, master).0)
  {
    var (after, result) := EditTeamSpec(db, orgId, teamId, master);
    if result.Success? {
      var former := db.teams[teamId].masterManagerId;
      var db1 := db;
      if master.Some? {
        DetachRemoves(db, teamId, master.value);
        db1 := db.(reporting := Detach(db, teamId, master.value));
      }
      var db2 := db1;
      if master != Some(former) {
        DetachRemoves(db1, teamId, former);
        db2 := db1.(reporting := Detach(db1, teamId, former));
      }
      forall r | r in after.reporting ensures RowOk(after, r) {
        assert r in db2.reporting && r in db1.reporting;
        MoreMembers(db2, after, r);
      }
    }
  }

  lemma MoreMembersConsistent(db: Db, after: Db)
    requires Consistent(db) && after.teams == db.teams && after.reporting == db.reporting
    requires forall id :: id in db.members ==> id in after.members && after.members[id] == db.members[id]
    requires UniqueMembers(after.members) && forall id :: id in after.members ==> after.members[id].teamId in db.teams
    ensures Consistent(after)
  {
    forall r | r in after.reporting ensures RowOk(after, r) {
      MoreMembers(db, after, r);
    }
  }

  /** New memberships of one team for distinct staff who are not members yet. */
  lemma UnionIsUnique(db: Db, teamId: TeamId, extra: map<MemberId, Member>)
    requires UniqueMembers(db.members) && UniqueMembers(extra) && extra.Keys !! db.members.Keys
    requires forall id :: id in extra ==> extra[id].teamId == teamId && !IsMember(db, teamId, extra[id].staffId)
    ensures UniqueMembers(db.members + extra)
  {
    forall a, b | a in extra && b in db.members ensures extra[a] != db.members[b] {
      assert IsMemberRow(db, b, teamId, extra[a].staffId) <==> db.members[b] == extra[a];
    }
  }

  lemma MembershipsAreUnique(db: Db, teamId: TeamId, staffIds: seq<StaffId>, ids: map<MemberId, StaffId>,
                             who: set<StaffId>)
    requires UniqueMembers(db.members) && FreshIds(db, staffIds, ids)
    requires forall s :: s in who ==> !IsMember(db, teamId, s)
    ensures UniqueMembers(db.members + Memberships(teamId, ids, who))
  {
    UnionIsUnique(db, teamId, Memberships(teamId, ids, who));
  }

  /** The counters of addMembers account for every id in the request. */
  lemma AddMembersCounters(db: Db, orgId: OrgId, teamId: TeamId, staffIds: seq<StaffId>, ids: map<MemberId, StaffId>)
    requires AddMembersSpec(db, orgId, teamId, staffIds, ids).1.Success?
    ensures var c := AddMembersSpec(db, orgId, teamId, staffIds, ids).1.value;
      c.created + c.duplicates + c.skippedMasterManager + c.skippedInvalidStaff == |staffIds|
  {
    ValidStaffSplits(db, orgId, teamId, staffIds);
  }

  lemma ValidStaffSplits(db: Db, orgId: OrgId, teamId: TeamId, staffIds: seq<StaffId>)
    requires teamId in db.teams
    ensures var master := db.teams[teamId].masterManagerId;
      |ValidStaff(db, orgId, staffIds)|
        == |NewStaff(db, orgId, teamId, staffIds)| + |Existing(db, orgId, teamId, staffIds)|
                                           + (if master in ValidStaff(db, orgId, staffIds) then 1 else 0)
  {
    ThreePartSize(ValidStaff(db, orgId, staffIds), NewStaff(db, orgId, teamId, staffIds),
                  Existing(db, orgId, teamId, staffIds),
                  db.teams[teamId].masterManagerId);
  }

  lemma ThreePartSize<T(!new)>(all: set<T>, a: set<T>, b: set<T>, x: T)
    requires forall y :: y in all && y != x <==> y in a || y in b
    requires forall y :: !(y in a && y in b)
    ensures |all| == |a| + |b| + (if x in all then 1 else 0)
  {
    assert a * b == {};
    assert all - {x} == a + b;
    assert x !in all ==> all - {x} == all;
    assert |a + b| == |a| + |b|;
  }

  /** After addMembers exactly the former members and the valid staff other than the master manager are members. */
  lemma AddMembersMembers(db: Db, orgId: OrgId, teamId: TeamId, staffIds: seq<StaffId>, ids: map<MemberId, StaffId>,
                          s: StaffId)
    requires FreshIds(db, staffIds, ids)
    requires AddMembersSpec(db, orgId, teamId, staffIds, ids).1.Success?
    ensures IsMember(AddMembersSpec(db, orgId, teamId, staffIds, ids).0, teamId, s)
       <==> (IsMember(db, teamId, s)
             || (s in staffIds && InOrganization(db, orgId, s) && s != db.teams[teamId].masterManagerId))
  {
    NewMembersAre(db, teamId, staffIds, ids, NewStaff(db, orgId, teamId, staffIds), s);
  }

  lemma NewMembersAre(db: Db, teamId: TeamId, staffIds: seq<StaffId>, ids: map<MemberId, StaffId>, who: set<StaffId>,
                      s: StaffId)
    requires FreshIds(db, staffIds, ids) && forall x :: x in who ==> x in staffIds
    ensures IsMember(db.(members := db.members + Memberships(teamId, ids, who)), teamId, s)
       <==> IsMember(db, teamId, s) || s in who
  {
    var after := db.(members := db.members + Memberships(teamId, ids, who));
    if id :| id in db.members && IsMemberRow(db, id, teamId, s) {
      assert IsMemberRow(after, id, teamId, s);
    }
    if s in who {
      var id :| id in ids && ids[id] == s;
      assert IsMemberRow(after, id, teamId, s);
    }
    if id :| id in after.members && IsMemberRow(after, id, teamId, s) {
      assert id in db.members ==> IsMemberRow(db, id, teamId, s);
    }
  }

  lemma AddMembersConsistent(db: Db, orgId: OrgId, teamId: TeamId, staffIds: seq<StaffId>, ids: map<MemberId, StaffId>)
    requires Consistent(db) && FreshIds(db, staffIds, ids)
    ensures Consistent(AddMembersSpec(db, orgId, teamId, staffIds, ids).0)
  {
    var (after, result) := AddMembersSpec(db, orgId, teamId, staffIds, ids);
    if result.Success? {
      MembershipsAreUnique(db, teamId, staffIds, ids, NewStaff(db, orgId, teamId, staffIds));
      MoreMembersConsistent(db, after);
    }
  }

  lemma RemoveMemberConsistent(db: Db, teamId: TeamId, memberId: MemberId)
    requires Consistent(db)
    ensures Consistent(RemoveMemberSpec(db, teamId, memberId).0)
  {
    var (after, result) := RemoveMemberSpec(db, teamId, memberId);
    if result.Success? {
      forall r | r in after.reporting ensures RowOk(after, r) {
        assert RowOk(db, r);
        var id :| id in db.members && IsMemberRow(db, id, r.teamId, r.managerId);
        assert id != memberId;
        assert IsMemberRow(after, id, r.teamId, r.managerId);
      }
    }
  }

  lemma DeleteTeamConsistent(db: Db, teamId: TeamId)
    requires Consistent(db)
    ensures Consistent(DeleteTeamSpec(db, teamId).0)
  {
    var (after, result) := DeleteTeamSpec(db, teamId);
    if result.Success? {
      forall r | r in after.reporting ensures RowOk(after, r) {
        assert RowOk(db, r);
        var id :| id in db.members && IsMemberRow(db, id, r.teamId, r.managerId);
        assert IsMemberRow(after, id, r.teamId, r.managerId);
      }
    }
  }

  /** Deleting a staff member removes the teams of which the member is master manager and everything
      that mentions the member, and leaves the rest in order. */
  lemma DeleteStaffConsistent(db: Db, staffId: StaffId)
    requires Consistent(db)
    ensures Consistent(DeleteStaffSpec(db, staffId))
  {
    var after := DeleteStaffSpec(db, staffId);
    if staffId in db.staff {
      forall r | r in after.reporting ensures RowOk(after, r) {
        assert RowOk(db, r);
        var id :| id in db.members && IsMemberRow(db, id, r.teamId, r.managerId);
        assert IsMemberRow(after, id, r.teamId, r.managerId);
      }
    }
  }

  lemma AcceptedManagers(db: Db, orgId: OrgId, teamId: TeamId, staffId: StaffId, managerIds: seq<StaffId>)
    requires SetReportingError(db, orgId, teamId, staffId, managerIds).None?
    ensures NoDuplicates(managerIds)
    ensures forall m :: m in managerIds ==> IsMember(db, teamId, m) && m != staffId
    ensures forall m :: m in managerIds && !Reports(db, teamId, staffId, m) ==> !Reports(db, teamId, m, staffId)
  {
    LengthCheckIff(db, teamId, managerIds);
    forall m | m in managerIds && !Reports(db, teamId, staffId, m)
      ensures !Reports(db, teamId, m, staffId)
    {
      assert m in NewManagers(db, teamId, staffId, managerIds);
    }
  }

  lemma AppendNoDuplicates<T>(a: seq<T>, b: seq<T>)
    requires NoDuplicates(a) && NoDuplicates(b) && forall x :: x in a ==> x !in b
    ensures NoDuplicates(a + b)
  {
    var s := a + b;
    forall i, j | 0 <= i < j < |s| ensures s[i] != s[j] {
      if i < |a| <= j {
        assert s[i] in a && s[j] in b;
      }
    }
  }

  lemma SetReportingConsistent(db: Db, orgId: OrgId, teamId: TeamId, staffId: StaffId, managerIds: seq<StaffId>)
    requires Consistent(db)
    ensures Consistent(SetReportingSpec(db, orgId, teamId, staffId, managerIds).0)
  {
    var (after, result) := SetReportingSpec(db, orgId, teamId, staffId, managerIds);
    if result.Success? {
      AcceptedManagers(db, orgId, teamId, staffId, managerIds);
      var rows := NewRows(db, teamId, staffId, MemberIdOf(db, teamId, staffId), managerIds);
      forall r | r in rows ensures RowOk(db, r) && r !in db.reporting {
      }
      forall r | r in after.reporting ensures RowOk(after, r) {
        assert RowOk(db, r);
        SameMembers(db, after, r);
      }
      forall a, b | a in after.reporting && b in after.reporting ensures !Reversed(a, b) {
        NewRowsNotReversed(db, orgId, teamId, staffId, managerIds, a, b);
      }
      AppendNoDuplicates(db.reporting, rows);
    }
  }

  lemma NewRowsNotReversed(db: Db, orgId: OrgId, teamId: TeamId, staffId: StaffId, managerIds: seq<StaffId>,
                           a: Reporting, b: Reporting)
    requires Consistent(db) && SetReportingError(db, orgId, teamId, staffId, managerIds).None?
    requires var rows := NewRows(db, teamId, staffId, MemberIdOf(db, teamId, staffId), managerIds);
      (a in db.reporting || a in rows) && (b in db.reporting || b in rows)
    ensures !Reversed(a, b)
  {
    AcceptedManagers(db, orgId, teamId, staffId, managerIds);
    forall r, m | r in db.reporting && m in managerIds && !Reports(db, teamId, staffId, m)
      ensures !IsEdge(r, teamId, m, staffId)
    {
      assert IsEdge(r, teamId, m, staffId) ==> Reports(db, teamId, m, staffId);
    }
  }

  lemma {:induction false} BulkConsistent(db: Db, orgId: OrgId, teamId: TeamId, staffIds: seq<StaffId>,
                                          managerIds: seq<StaffId>)
    requires Consistent(db)
    ensures Consistent(Bulk(db, orgId, teamId, staffIds, managerIds).0)
  {
    if staffIds != [] {
      var last := |staffIds| - 1;
      BulkConsistent(db, orgId, teamId, staffIds[..last], managerIds);
      SetReportingConsistent(Bulk(db, orgId, teamId, staffIds[..last], managerIds).0, orgId, teamId, staffIds[last],
                             managerIds);
    }
  }

  lemma StepKeepsConsistent(db: Db, r: Request)
    requires Consistent(db) && Feasible(db, r)
    ensures Consistent(Apply(db, r))
  {
    match r {
      case AddTeam(orgId, master, teamId, memberId) => AddTeamConsistent(db, orgId, master, teamId, memberId);
      case EditTeam(orgId, teamId, master) => EditTeamConsistent(db, orgId, teamId, master);
      case AddMembers(orgId, teamId, staffIds, ids) => AddMembersConsistent(db, orgId, teamId, staffIds, ids);
      case RemoveMember(teamId, memberId) => RemoveMemberConsistent(db, teamId, memberId);
      case SetReporting(orgId, teamId, staffId, managerIds) =>
        SetReportingConsistent(db, orgId, teamId, staffId, managerIds);
      case SetReportingBulk(orgId, teamId, staffIds, managerIds) =>
        BulkConsistent(db, orgId, teamId, staffIds, managerIds);
      case RemoveReporting(orgId, teamId, staffId, managerId) =>
        KeepIsConsistent(db, WithoutEdge(db.reporting, teamId, staffId, managerId));
      case DeleteTeam(teamId) => DeleteTeamConsistent(db, teamId);
      case DeleteStaff(staffId) => DeleteStaffConsistent(db, staffId);
    }
  }

  /** In every state that requests and deletions of staff can reach, the reporting graph of every team is consistent. */
  lemma {:induction false} RunKeepsConsistent(db: Db, rs: seq<Request>)
    requires Consistent(db) && FeasibleRun(db, rs)
    ensures Consistent(Run(db, rs))
    decreases |rs|
  {
    if rs != [] {
      StepKeepsConsistent(db, rs[0]);
      RunKeepsConsistent(Apply(db, rs[0]), rs[1..]);
    }
  }

  // ---------- What a bulk request amounts to ----------

  ghost predicate Accepts(db: Db, orgId: OrgId, teamId: TeamId, managerIds: seq<StaffId>, staffId: StaffId) {
    SetReportingError(db, orgId, teamId, staffId, managerIds).None?
  }

  /** A row that joins an accepted staff member of the request to one of the managers. */
  ghost predicate Requested(db: Db, orgId: OrgId, teamId: TeamId, staffIds: seq<StaffId>, managerIds: seq<StaffId>,
                            r: Reporting) {
    && r.teamId == teamId && r.staffId in staffIds && r.managerId in managerIds
    && IsMemberRow(db, r.teamMemberId, teamId, r.staffId)
    && Accepts(db, orgId, teamId, managerIds, r.staffId)
  }

  /** `after` has the rows of `db` and the requested ones, and is otherwise the same. */
  ghost predicate RequestedAdded(db: Db, after: Db, orgId: OrgId, teamId: TeamId, staffIds: seq<StaffId>,
                                 managerIds: seq<StaffId>) {
    && after.staff == db.staff && after.teams == db.teams && after.members == db.members
    && forall r :: r in after.reporting <==> r in db.reporting || Requested(db, orgId, teamId, staffIds, managerIds, r)
  }

  /** The rejected entries in order, each with the error that setReporting gives on the initial state. */
  ghost function Failures(db: Db, orgId: OrgId, teamId: TeamId, staffIds: seq<StaffId>,
                          managerIds: seq<StaffId>): seq<(StaffId, Error)> {
    if staffIds == [] then []
    else
      var last := |staffIds| - 1;
      var error := SetReportingError(db, orgId, teamId, staffIds[last], managerIds);
      var before := Failures(db, orgId, teamId, staffIds[..last], managerIds);
      if error.Some? then before + [(staffIds[last], error.value)] else before
  }

  /** The distinct staff members who get at least one new manager. */
  ghost function Productive(db: Db, orgId: OrgId, teamId: TeamId, staffIds: seq<StaffId>,
                            managerIds: seq<StaffId>): set<StaffId> {
    set s | s in staffIds && Accepts(db, orgId, teamId, managerIds, s) && NewManagers(db, teamId, s, managerIds) != {}
  }

  lemma SameMembership(db: Db, after: Db, teamId: TeamId, staffId: StaffId)
    requires db.members == after.members
    ensures IsMember(db, teamId, staffId) <==> IsMember(after, teamId, staffId)
  {
    if id :| id in db.members && IsMemberRow(db, id, teamId, staffId) {
      assert IsMemberRow(after, id, teamId, staffId);
    }
    if id :| id in after.members && IsMemberRow(after, id, teamId, staffId) {
      assert IsMemberRow(db, id, teamId, staffId);
    }
  }

  lemma ReportsAfter(db: Db, after: Db, orgId: OrgId, teamId: TeamId, staffIds: seq<StaffId>, managerIds: seq<StaffId>,
                     staffId: StaffId, managerId: StaffId)
    requires Consistent(db) && RequestedAdded(db, after, orgId, teamId, staffIds, managerIds)
    ensures Reports(after, teamId, staffId, managerId)
       <==> (Reports(db, teamId, staffId, managerId)
             || (staffId in staffIds && managerId in managerIds && Accepts(db, orgId, teamId, managerIds, staffId)))
  {
    if staffId in staffIds && managerId in managerIds && Accepts(db, orgId, teamId, managerIds, staffId) {
      var r := Reporting(teamId, staffId, managerId, MemberIdOf(db, teamId, staffId));
      assert Requested(db, orgId, teamId, staffIds, managerIds, r);
      assert r in after.reporting;
    }
  }

  lemma ValidManagersAfter(db: Db, after: Db, teamId: TeamId, managerIds: seq<StaffId>)
    requires db.members == after.members
    ensures ValidManagers(after, teamId, managerIds) == ValidManagers(db, teamId, managerIds)
  {
    forall m ensures IsMember(db, teamId, m) <==> IsMember(after, teamId, m) {
      SameMembership(db, after, teamId, m);
    }
  }

  lemma NewManagersAfter(db: Db, after: Db, orgId: OrgId, teamId: TeamId, staffIds: seq<StaffId>,
                         managerIds: seq<StaffId>, staffId: StaffId)
    requires Consistent(db) && RequestedAdded(db, after, orgId, teamId, staffIds, managerIds)
    ensures NewManagers(after, teamId, staffId, managerIds)
         == if staffId in staffIds && Accepts(db, orgId, teamId, managerIds, staffId) then {}
            else NewManagers(db, teamId, staffId, managerIds)
  {
    ValidManagersAfter(db, after, teamId, managerIds);
    forall m | m in managerIds
      ensures Reports(after, teamId, staffId, m)
         <==> (Reports(db, teamId, staffId, m)
               || (staffId in staffIds && Accepts(db, orgId, teamId, managerIds, staffId)))
    {
      ReportsAfter(db, after, orgId, teamId, staffIds, managerIds, staffId, m);
    }
  }

  /** Earlier entries of a bulk request never change the verdict on a later one: they could only
      matter to somebody who is among the managers, and such a person is rejected anyway. */
  lemma VerdictUnchanged(db: Db, after: Db, orgId: OrgId, teamId: TeamId, staffIds: seq<StaffId>,
                         managerIds: seq<StaffId>, staffId: StaffId)
    requires Consistent(db) && RequestedAdded(db, after, orgId, teamId, staffIds, managerIds)
    ensures SetReportingError(after, orgId, teamId, staffId, managerIds)
        == SetReportingError(db, orgId, teamId, staffId, managerIds)
  {
    SameMembership(db, after, teamId, staffId);
    ValidManagersAfter(db, after, teamId, managerIds);
    NewManagersAfter(db, after, orgId, teamId, staffIds, managerIds, staffId);
    forall m
      ensures staffId !in managerIds ==> (Reports(after, teamId, m, staffId) <==> Reports(db, teamId, m, staffId))
    {
      ReportsAfter(db, after, orgId, teamId, staffIds, managerIds, m, staffId);
    }
  }

  lemma NoNewRowsIff(db: Db, orgId: OrgId, teamId: TeamId, staffId: StaffId, managerIds: seq<StaffId>)
    requires Accepts(db, orgId, teamId, managerIds, staffId)
    ensures NewRows(db, teamId, staffId, MemberIdOf(db, teamId, staffId), managerIds) == []
       <==> NewManagers(db, teamId, staffId, managerIds) == {}
  {
    AcceptedManagers(db, orgId, teamId, staffId, managerIds);
    var id := MemberIdOf(db, teamId, staffId);
    var rows := NewRows(db, teamId, staffId, id, managerIds);
    forall m | m in NewManagers(db, teamId, staffId, managerIds) ensures Reporting(teamId, staffId, m, id) in rows {
    }
    forall r | r in rows ensures r.managerId in NewManagers(db, teamId, staffId, managerIds) {
    }
    assert rows != [] ==> rows[0] in rows;
  }

  lemma StepAddsRequested(db: Db, mid: Db, orgId: OrgId, teamId: TeamId, staffIds: seq<StaffId>,
                          managerIds: seq<StaffId>, staffId: StaffId)
    requires Consistent(db) && RequestedAdded(db, mid, orgId, teamId, staffIds, managerIds)
    ensures RequestedAdded(db, SetReportingSpec(mid, orgId, teamId, staffId, managerIds).0, orgId, teamId,
                           staffIds + [staffId], managerIds)
  {
    VerdictUnchanged(db, mid, orgId, teamId, staffIds, managerIds, staffId);
    var after := SetReportingSpec(mid, orgId, teamId, staffId, managerIds).0;
    if Accepts(db, orgId, teamId, managerIds, staffId) {
      var id := MemberIdOf(mid, teamId, staffId);
      assert IsMemberRow(db, id, teamId, staffId);
      forall r
        ensures r in after.reporting
           <==> r in db.reporting || Requested(db, orgId, teamId, staffIds + [staffId], managerIds, r)
      {
        ReportsAfter(db, mid, orgId, teamId, staffIds, managerIds, staffId, r.managerId);
        if r.staffId == staffId && r in mid.reporting && r !in db.reporting {
          assert Requested(db, orgId, teamId, staffIds, managerIds, r);
        }
        if r == Reporting(teamId, staffId, r.managerId, id) && Reports(db, teamId, staffId, r.managerId) {
          var q :| q in db.reporting && q.teamId == teamId && q.staffId == staffId && q.managerId == r.managerId;
          assert RowOk(db, q);
        }
      }
    }
  }

  lemma {:induction false} BulkMeaning(db: Db, orgId: OrgId, teamId: TeamId, staffIds: seq<StaffId>,
                                       managerIds: seq<StaffId>)
    requires Consistent(db)
    ensures var (after, sum) := Bulk(db, orgId, teamId, staffIds, managerIds);
      && RequestedAdded(db, after, orgId, teamId, staffIds, managerIds)
      && sum.failed == Failures(db, orgId, teamId, staffIds, managerIds)
      && sum.assignments == |after.reporting| - |db.reporting|
      && sum.skipped + |sum.failed| + |Productive(db, orgId, teamId, staffIds, managerIds)| == |staffIds|
  {
    if staffIds == [] {
      assert Productive(db, orgId, teamId, staffIds, managerIds) == {};
    } else {
      var last := |staffIds| - 1;
      var init, s := staffIds[..last], staffIds[last];
      var mid := Bulk(db, orgId, teamId, init, managerIds).0;
      BulkMeaning(db, orgId, teamId, init, managerIds);
      assert staffIds == init + [s];
      StepAddsRequested(db, mid, orgId, teamId, init, managerIds, s);
      VerdictUnchanged(db, mid, orgId, teamId, init, managerIds, s);
      ProductiveStep(db, mid, orgId, teamId, init, managerIds, s);
    }
  }

  lemma ProductiveStep(db: Db, mid: Db, orgId: OrgId, teamId: TeamId, init: seq<StaffId>, managerIds: seq<StaffId>,
                       s: StaffId)
    requires Consistent(db) && RequestedAdded(db, mid, orgId, teamId, init, managerIds)
    ensures var (after, result) := SetReportingSpec(mid, orgId, teamId, s, managerIds);
      var before := Productive(db, orgId, teamId, init, managerIds);
      var now := Productive(db, orgId, teamId, init + [s], managerIds);
      |now| == |before| + if result.Success? && result.value.assignments != 0 then 1 else 0
  {
    var before := Productive(db, orgId, teamId, init, managerIds);
    var now := Productive(db, orgId, teamId, init + [s], managerIds);
    VerdictUnchanged(db, mid, orgId, teamId, init, managerIds, s);
    NewManagersAfter(db, mid, orgId, teamId, init, managerIds, s);
    if Accepts(db, orgId, teamId, managerIds, s) {
      NoNewRowsIff(mid, orgId, teamId, s, managerIds);
      if s !in init && NewManagers(db, teamId, s, managerIds) != {} {
        assert now == before + {s};
      } else {
        assert now == before;
      }
    } else {
      assert now == before;
    }
  }

  ghost function Edges(db: Db): set<Reporting> {
    set r | r in db.reporting
  }

  lemma {:induction false} FailureCount(db: Db, orgId: OrgId, teamId: TeamId, staffIds: seq<StaffId>,
                                        managerIds: seq<StaffId>, f: (StaffId, Error))
    ensures multiset(Failures(db, orgId, teamId, staffIds, managerIds))[f]
         == if SetReportingError(db, orgId, teamId, f.0, managerIds) == Some(f.1) then multiset(staffIds)[f.0] else 0
  {
    if staffIds != [] {
      var last := |staffIds| - 1;
      var init, s := staffIds[..last], staffIds[last];
      FailureCount(db, orgId, teamId, init, managerIds, f);
      assert staffIds == init + [s];
      AppendCount(init, s, f.0);
      var error := SetReportingError(db, orgId, teamId, s, managerIds);
      if error.Some? {
        AppendCount(Failures(db, orgId, teamId, init, managerIds), (s, error.value), f);
      }
    }
  }

  lemma AppendCount<T>(s: seq<T>, x: T, y: T)
    ensures multiset(s + [x])[y] == multiset(s)[y] + if x == y then 1 else 0
  {
  }

  lemma PermutedMembership(a: seq<StaffId>, b: seq<StaffId>)
    requires multiset(a) == multiset(b)
    ensures |a| == |b| && forall s :: s in a <==> s in b
  {
    assert |a| == |multiset(a)| == |multiset(b)| == |b|;
    forall s ensures s in a <==> s in b {
      assert (s in a <==> s in multiset(a)) && (s in b <==> s in multiset(b));
    }
  }

  lemma PermutedFailures(db: Db, orgId: OrgId, teamId: TeamId, staffIds: seq<StaffId>, permuted: seq<StaffId>,
                         managerIds: seq<StaffId>)
    requires multiset(staffIds) == multiset(permuted)
    ensures multiset(Failures(db, orgId, teamId, staffIds, managerIds))
        == multiset(Failures(db, orgId, teamId, permuted, managerIds))
    ensures |Failures(db, orgId, teamId, staffIds, managerIds)| == |Failures(db, orgId, teamId, permuted, managerIds)|
  {
    var a, b := Failures(db, orgId, teamId, staffIds, managerIds), Failures(db, orgId, teamId, permuted, managerIds);
    forall f ensures multiset(a)[f] == multiset(b)[f] {
      FailureCount(db, orgId, teamId, staffIds, managerIds, f);
      FailureCount(db, orgId, teamId, permuted, managerIds, f);
    }
    assert multiset(a) == multiset(b);
    assert |a| == |multiset(a)| == |multiset(b)| == |b|;
  }

  lemma PermutedProductive(db: Db, orgId: OrgId, teamId: TeamId, staffIds: seq<StaffId>, permuted: seq<StaffId>,
                           managerIds: seq<StaffId>)
    requires forall s :: s in staffIds <==> s in permuted
    ensures Productive(db, orgId, teamId, staffIds, managerIds) == Productive(db, orgId, teamId, permuted, managerIds)
  {
  }

  lemma PermutedEdges(db: Db, a: Db, b: Db, orgId: OrgId, teamId: TeamId, staffIds: seq<StaffId>,
                      permuted: seq<StaffId>, managerIds: seq<StaffId>)
    requires forall s :: s in staffIds <==> s in permuted
    requires RequestedAdded(db, a, orgId, teamId, staffIds, managerIds)
    requires RequestedAdded(db, b, orgId, teamId, permuted, managerIds)
    ensures Edges(a) == Edges(b)
  {
    forall r
      ensures Requested(db, orgId, teamId, staffIds, managerIds, r)
         <==> Requested(db, orgId, teamId, permuted, managerIds, r)
    {
    }
  }

  /** A bulk request gives the same edges, counters and failures for every order of its staff ids. */
  lemma BulkIgnoresOrder(db: Db, orgId: OrgId, teamId: TeamId, staffIds: seq<StaffId>, permuted: seq<StaffId>,
                         managerIds: seq<StaffId>)
    requires Consistent(db) && multiset(staffIds) == multiset(permuted)
    ensures var (after, sum) := Bulk(db, orgId, teamId, staffIds, managerIds);
      var (after', sum') := Bulk(db, orgId, teamId, permuted, managerIds);
      && Edges(after) == Edges(after')
      && sum.assignments == sum'.assignments
      && sum.skipped == sum'.skipped
      && multiset(sum.failed) == multiset(sum'.failed)
  {
    BulkMeaning(db, orgId, teamId, staffIds, managerIds);
    BulkMeaning(db, orgId, teamId, permuted, managerIds);
    PermutedMembership(staffIds, permuted);
    PermutedFailures(db, orgId, teamId, staffIds, permuted, managerIds);
    PermutedProductive(db, orgId, teamId, staffIds, permuted, managerIds);
    PermutedEdges(db, Bulk(db, orgId, teamId, staffIds, managerIds).0, Bulk(db, orgId, teamId, permuted, managerIds).0,
                  orgId, teamId, staffIds, permuted, managerIds);
    EdgeCount(db, orgId, teamId, staffIds, managerIds);
    EdgeCount(db, orgId, teamId, permuted, managerIds);
  }

  /** Each member of the request is accepted exactly if setReporting would accept that member on the initial state. */
  lemma BulkAcceptsIff(db: Db, orgId: OrgId, teamId: TeamId, staffIds: seq<StaffId>, managerIds: seq<StaffId>,
                       s: StaffId)
    requires Consistent(db) && s in staffIds
    ensures (exists f :: f in Bulk(db, orgId, teamId, staffIds, managerIds).1.failed && f.0 == s)
       <==> SetReportingSpec(db, orgId, teamId, s, managerIds).1.Failure?
  {
    BulkMeaning(db, orgId, teamId, staffIds, managerIds);
    FailedIff(db, orgId, teamId, staffIds, managerIds, s);
  }

  lemma FailedIff(db: Db, orgId: OrgId, teamId: TeamId, staffIds: seq<StaffId>, managerIds: seq<StaffId>, s: StaffId)
    requires s in staffIds
    ensures (exists f :: f in Failures(db, orgId, teamId, staffIds, managerIds) && f.0 == s)
       <==> !Accepts(db, orgId, teamId, managerIds, s)
  {
    var failures := Failures(db, orgId, teamId, staffIds, managerIds);
    forall f: (StaffId, Error) | f.0 == s
      ensures f in failures <==> SetReportingError(db, orgId, teamId, s, managerIds) == Some(f.1)
    {
      FailureCount(db, orgId, teamId, staffIds, managerIds, f);
      assert f in failures <==> f in multiset(failures);
      assert s in multiset(staffIds);
    }
    if !Accepts(db, orgId, teamId, managerIds, s) {
      assert (s, SetReportingError(db, orgId, teamId, s, managerIds).value) in failures;
    }
  }

  lemma EdgeCount(db: Db, orgId: OrgId, teamId: TeamId, staffIds: seq<StaffId>, managerIds: seq<StaffId>)
    requires Consistent(db)
    ensures Bulk(db, orgId, teamId, staffIds, managerIds).1.assignments
         == |Edges(Bulk(db, orgId, teamId, staffIds, managerIds).0)| - |Edges(db)|
  {
    BulkMeaning(db, orgId, teamId, staffIds, managerIds);
    BulkConsistent(db, orgId, teamId, staffIds, managerIds);
    SetOfSeqSize(db.reporting);
    SetOfSeqSize(Bulk(db, orgId, teamId, staffIds, managerIds).0.reporting);
  }

  // ---------- What one call undoes ----------

  /** Removing a relation that setReporting has just created restores the table. */
  lemma RemoveUndoesSet(db: Db, orgId: OrgId, teamId: TeamId, staffId: StaffId, managerId: StaffId)
    requires Consistent(db)
    requires SetReportingSpec(db, orgId, teamId, staffId, [managerId]).1.Success?
    requires SetReportingSpec(db, orgId, teamId, staffId, [managerId]).1.value.assignments == 1
    ensures RemoveReportingSpec(SetReportingSpec(db, orgId, teamId, staffId, [managerId]).0, orgId, teamId, staffId,
                                managerId) == (db, Success(()))
  {
    var after := SetReportingSpec(db, orgId, teamId, staffId, [managerId]).0;
    var row := Reporting(teamId, staffId, managerId, MemberIdOf(db, teamId, staffId));
    SingleRow(db, teamId, staffId, MemberIdOf(db, teamId, staffId), managerId);
    AcceptedManagers(db, orgId, teamId, staffId, [managerId]);
    assert IsMember(db, teamId, managerId) by { assert managerId in [managerId]; }
    SameMembership(db, after, teamId, staffId);
    SameMembership(db, after, teamId, managerId);
    assert row in after.reporting;
    RemoveAppended(db, row);
  }

  lemma SingleRow(db: Db, teamId: TeamId, staffId: StaffId, memberId: MemberId, managerId: StaffId)
    ensures NewRows(db, teamId, staffId, memberId, [managerId])
         == if Reports(db, teamId, staffId, managerId) then [] else [Reporting(teamId, staffId, managerId, memberId)]
  {
    assert [managerId][1..] == [];
  }

  lemma RemoveAppended(db: Db, row: Reporting)
    requires !Reports(db, row.teamId, row.staffId, row.managerId)
    ensures WithoutEdge(db.reporting + [row], row.teamId, row.staffId, row.managerId) == db.reporting
  {
    WithoutEdgeAppend(db.reporting, row, row.teamId, row.staffId, row.managerId);
  }

  lemma {:induction false} WithoutEdgeAppend(rows: seq<Reporting>, row: Reporting, teamId: TeamId, staffId: StaffId,
                                             managerId: StaffId)
    requires IsEdge(row, teamId, staffId, managerId) && forall r :: r in rows ==> !IsEdge(r, teamId, staffId, managerId)
    ensures WithoutEdge(rows + [row], teamId, staffId, managerId) == rows
  {
    if rows == [] {
      assert [row][1..] == [];
    } else {
      WithoutEdgeAppend(rows[1..], row, teamId, staffId, managerId);
      assert (rows + [row])[1..] == rows[1..] + [row];
    }
  }

  // ---------- What the code does not prevent ----------

  /** Every accepted edit, even one that only renames the team, removes all rows of the former
      master manager and of the new one, and no others. */
  lemma EditTeamRows(db: Db, orgId: OrgId, teamId: TeamId, master: Option<StaffId>, r: Reporting)
    requires Consistent(db) && EditTeamSpec(db, orgId, teamId, master).1.Success?
    ensures var former := db.teams[teamId].masterManagerId;
      r in EditTeamSpec(db, orgId, teamId, master).0.reporting <==>
        (r in db.reporting && (r.teamId == teamId ==>
          && r.staffId != former && r.managerId != former
          && (master.Some? ==> r.staffId != master.value && r.managerId != master.value)))
  {
    var former := db.teams[teamId].masterManagerId;
    if master.Some? {
      DetachRemoves(db, teamId, master.value);
      DetachRemoves(db.(reporting := Detach(db, teamId, master.value)), teamId, former);
    } else {
      DetachRemoves(db, teamId, former);
    }
  }
}
