/** When each team request succeeds, with which error it fails, and what it does to the tables:
    src/team/team.service.ts. */
module TeamEffects {
  import opened Basics
  import opened Teams
  import opened TeamRuns

  /** A membership of the team, and a reporting row, in the tables' own terms. */
  ghost predicate Belongs(db: Db, teamId: TeamId, staffId: StaffId) {
    exists id :: id in db.members && db.members[id].teamId == teamId && db.members[id].staffId == staffId
  }

  ghost predicate ReportsTo(db: Db, teamId: TeamId, staffId: StaffId, managerId: StaffId) {
    exists r :: r in db.reporting && r.teamId == teamId && r.staffId == staffId && r.managerId == managerId
  }

  lemma BelongsIs(db: Db, teamId: TeamId, staffId: StaffId)
    ensures Belongs(db, teamId, staffId) <==> IsMember(db, teamId, staffId)
  {
    if id :| id in db.members && db.members[id].teamId == teamId && db.members[id].staffId == staffId {
      assert IsMemberRow(db, id, teamId, staffId);
    }
  }

  lemma ReportsToIs(db: Db, teamId: TeamId, staffId: StaffId, managerId: StaffId)
    ensures ReportsTo(db, teamId, staffId, managerId) <==> Reports(db, teamId, staffId, managerId)
  {
  }

  ghost predicate IsTeamOf(db: Db, orgId: OrgId, teamId: TeamId) {
    teamId in db.teams && db.teams[teamId].orgId == orgId
  }

  ghost predicate WorksFor(db: Db, orgId: OrgId, staffId: StaffId) {
    staffId in db.staff && db.staff[staffId] == orgId
  }

  // ---------- setReporting ----------

  /** The managers may be set: no repetition, and each a member who does not report to the staff member. */
  ghost predicate ManagersFit(db: Db, teamId: TeamId, staffId: StaffId, managerIds: seq<StaffId>) {
    && (forall i, j :: 0 <= i < j < |managerIds| ==> managerIds[i] != managerIds[j])
    && (forall m :: m in managerIds ==> Belongs(db, teamId, m))
  }

  ghost predicate NoneReversed(db: Db, teamId: TeamId, staffId: StaffId, managerIds: seq<StaffId>) {
    forall m :: m in managerIds ==> !ReportsTo(db, teamId, m, staffId)
  }

  /** The request is in order: the team is the organization's, the staff member belongs to it and is not
      its master manager, and the managers, however many, are distinct other members of the team of
      whom none reports to the staff member. */
  ghost predicate MaySet(db: Db, orgId: OrgId, teamId: TeamId, staffId: StaffId, managerIds: seq<StaffId>) {
    && IsTeamOf(db, orgId, teamId) && Belongs(db, teamId, staffId) && staffId !in managerIds
    && db.teams[teamId].masterManagerId != staffId
    && ManagersFit(db, teamId, staffId, managerIds) && NoneReversed(db, teamId, staffId, managerIds)
  }

  lemma ManagersFitIff(db: Db, teamId: TeamId, staffId: StaffId, managerIds: seq<StaffId>)
    ensures ManagersFit(db, teamId, staffId, managerIds)
       <==> |ValidManagers(db, teamId, managerIds)| == |managerIds|
  {
    LengthCheckIff(db, teamId, managerIds);
    forall m ensures Belongs(db, teamId, m) <==> IsMember(db, teamId, m) {
      BelongsIs(db, teamId, m);
    }
  }

  /** Existing managers are never reversed, so checking the new ones is checking all. */
  lemma NoneReversedIff(db: Db, teamId: TeamId, staffId: StaffId, managerIds: seq<StaffId>)
    requires Consistent(db) && ManagersFit(db, teamId, staffId, managerIds)
    ensures NoneReversed(db, teamId, staffId, managerIds)
       <==> !exists m :: m in NewManagers(db, teamId, staffId, managerIds) && Reports(db, teamId, m, staffId)
  {
    forall m | m in managerIds
      ensures m in ValidManagers(db, teamId, managerIds)
      ensures ReportsTo(db, teamId, m, staffId) <==> Reports(db, teamId, m, staffId)
      ensures Reports(db, teamId, staffId, m) ==> !Reports(db, teamId, m, staffId)
    {
      BelongsIs(db, teamId, m);
      ReportsToIs(db, teamId, m, staffId);
      NotBothWays(db, teamId, staffId, m);
    }
    if m :| m in managerIds && ReportsTo(db, teamId, m, staffId) {
      assert m in NewManagers(db, teamId, staffId, managerIds);
    }
  }

  lemma NotBothWays(db: Db, teamId: TeamId, a: StaffId, b: StaffId)
    requires Consistent(db)
    ensures !(Reports(db, teamId, a, b) && Reports(db, teamId, b, a))
  {
    forall r, q | r in db.reporting && q in db.reporting ensures !Reversed(r, q) {
    }
  }

  /** setReporting succeeds exactly if the request is in order, and otherwise names the first check that
      fails. */
  lemma SetReportingVerdict(db: Db, orgId: OrgId, teamId: TeamId, staffId: StaffId, managerIds: seq<StaffId>)
    requires Consistent(db)
    ensures var result := SetReportingSpec(db, orgId, teamId, staffId, managerIds).1;
      if MaySet(db, orgId, teamId, staffId, managerIds) then result.Success?
      else
        && result.Failure?
        && result.error ==
             if !IsTeamOf(db, orgId, teamId) then TeamNotFound
             else if !Belongs(db, teamId, staffId) then NotAMember
             else if staffId in managerIds then SelfReporting
             else if db.teams[teamId].masterManagerId == staffId then MasterManagerReports
             else if !ManagersFit(db, teamId, staffId, managerIds) then InvalidManagers
             else ReverseReporting
  {
    BelongsIs(db, teamId, staffId);
    ManagersFitIff(db, teamId, staffId, managerIds);
    if ManagersFit(db, teamId, staffId, managerIds) {
      NoneReversedIff(db, teamId, staffId, managerIds);
    }
  }

  lemma AcceptsIffMaySet(db: Db, orgId: OrgId, teamId: TeamId, staffId: StaffId, managerIds: seq<StaffId>)
    requires Consistent(db)
    ensures Accepts(db, orgId, teamId, managerIds, staffId) <==> MaySet(db, orgId, teamId, staffId, managerIds)
  {
    SetReportingVerdict(db, orgId, teamId, staffId, managerIds);
  }

  /** The rows between staff members whose entries are in order and the managers. */
  ghost predicate IsAsked(db: Db, orgId: OrgId, teamId: TeamId, staffIds: seq<StaffId>, managerIds: seq<StaffId>,
                          r: Reporting) {
    && r.teamId == teamId && r.staffId in staffIds && r.managerId in managerIds
    && r.teamMemberId in db.members && db.members[r.teamMemberId].teamId == teamId
    && db.members[r.teamMemberId].staffId == r.staffId
    && MaySet(db, orgId, teamId, r.staffId, managerIds)
  }

  lemma AskedIsRequested(db: Db, orgId: OrgId, teamId: TeamId, staffIds: seq<StaffId>, managerIds: seq<StaffId>,
                         r: Reporting)
    requires Consistent(db)
    ensures IsAsked(db, orgId, teamId, staffIds, managerIds, r)
       <==> Requested(db, orgId, teamId, staffIds, managerIds, r)
  {
    AcceptsIffMaySet(db, orgId, teamId, r.staffId, managerIds);
  }

  /** `after` has the rows of `db` and the asked ones, in no duplicate, and nothing else has changed. */
  ghost predicate AddsAsked(db: Db, after: Db, orgId: OrgId, teamId: TeamId, staffIds: seq<StaffId>,
                            managerIds: seq<StaffId>) {
    && after.staff == db.staff && after.teams == db.teams && after.members == db.members
    && (forall r :: r in after.reporting <==> r in db.reporting || IsAsked(db, orgId, teamId, staffIds, managerIds, r))
    && (forall i, j :: 0 <= i < j < |after.reporting| ==> after.reporting[i] != after.reporting[j])
  }

  lemma RequestedAddedIsAsked(db: Db, after: Db, orgId: OrgId, teamId: TeamId, staffIds: seq<StaffId>,
                              managerIds: seq<StaffId>)
    requires Consistent(db) && Consistent(after) && RequestedAdded(db, after, orgId, teamId, staffIds, managerIds)
    ensures AddsAsked(db, after, orgId, teamId, staffIds, managerIds)
  {
    forall r ensures IsAsked(db, orgId, teamId, staffIds, managerIds, r)
                <==> Requested(db, orgId, teamId, staffIds, managerIds, r) {
      AskedIsRequested(db, orgId, teamId, staffIds, managerIds, r);
    }
  }

  /** An accepted request adds one row for each manager whom the member did not report to yet, with the
      member's own membership, and counts them; a request without such a manager counts them as skipped. */
  lemma SetReportingEffect(db: Db, orgId: OrgId, teamId: TeamId, staffId: StaffId, managerIds: seq<StaffId>)
    requires Consistent(db)
    ensures var (after, result) := SetReportingSpec(db, orgId, teamId, staffId, managerIds);
      && AddsAsked(db, after, orgId, teamId, [staffId], managerIds)
      && (result.Success? ==>
            && result.value.assignments == |after.reporting| - |db.reporting|
            && result.value.skipped == if after == db then |managerIds| else 0)
  {
    var (after, result) := SetReportingSpec(db, orgId, teamId, staffId, managerIds);
    StepAddsRequested(db, db, orgId, teamId, [], managerIds, staffId);
    assert [] + [staffId] == [staffId];
    SetReportingConsistent(db, orgId, teamId, staffId, managerIds);
    RequestedAddedIsAsked(db, after, orgId, teamId, [staffId], managerIds);
    if result.Success? {
      var rows := NewRows(db, teamId, staffId, MemberIdOf(db, teamId, staffId), managerIds);
      assert |after.reporting| == |db.reporting| + |rows|;
      if rows == [] {
        AllSkipped(db, orgId, teamId, staffId, managerIds);
        assert after.reporting == db.reporting;
      }
    }
  }

  /** The rows of a staff member to managers differ in the manager only. */
  lemma RowsOfMember(db: Db, teamId: TeamId, staffId: StaffId, r: Reporting)
    requires Consistent(db) && IsMember(db, teamId, staffId)
    requires r in db.reporting && r.teamId == teamId && r.staffId == staffId
    ensures r == Reporting(teamId, staffId, r.managerId, MemberIdOf(db, teamId, staffId))
  {
    assert RowOk(db, r);
    MemberIdUnique(db, r.teamMemberId, teamId, staffId);
  }

  /** Where no manager is new, each has one row. */
  lemma AllSkipped(db: Db, orgId: OrgId, teamId: TeamId, staffId: StaffId, managerIds: seq<StaffId>)
    requires Consistent(db) && Accepts(db, orgId, teamId, managerIds, staffId)
    requires NewRows(db, teamId, staffId, MemberIdOf(db, teamId, staffId), managerIds) == []
    ensures |AssignedRows(db, teamId, staffId, ValidManagers(db, teamId, managerIds))| == |managerIds|
  {
    NoNewRowsIff(db, orgId, teamId, staffId, managerIds);
    var valid := ValidManagers(db, teamId, managerIds);
    var rows := AssignedRows(db, teamId, staffId, valid);
    forall r | r in rows ensures r == Reporting(teamId, staffId, r.managerId, MemberIdOf(db, teamId, staffId)) {
      RowsOfMember(db, teamId, staffId, r);
    }
    RowsCountManagers(rows, teamId, staffId, MemberIdOf(db, teamId, staffId));
    assert (set r | r in rows :: r.managerId) == valid by {
      forall m | m in valid ensures exists r :: r in rows && r.managerId == m {
        assert m !in NewManagers(db, teamId, staffId, managerIds);
      }
    }
  }

  lemma {:induction false} RowsCountManagers(rows: seq<Reporting>, teamId: TeamId, staffId: StaffId, memberId: MemberId)
    requires NoDuplicates(rows) && forall r :: r in rows ==> r == Reporting(teamId, staffId, r.managerId, memberId)
    ensures |set r | r in rows :: r.managerId| == |rows|
  {
    var managers := set r | r in rows :: r.managerId;
    if rows == [] {
      assert managers == {};
    } else {
      var first, rest := rows[0], rows[1..];
      assert rows == [first] + rest;
      RowsCountManagers(rest, teamId, staffId, memberId);
      var others := set r | r in rest :: r.managerId;
      assert first !in rest;
      assert managers == {first.managerId} + others;
      assert first.managerId !in others;
    }
  }

  // ---------- setReportingBulk ----------

  /** A bulk request adds exactly the rows between the staff members whose entries are in order and the
      managers. It lists as failed, in the order of the request, exactly the other entries, each with
      the error of the first check that fails. */
  lemma BulkEffect(db: Db, orgId: OrgId, teamId: TeamId, staffIds: seq<StaffId>, managerIds: seq<StaffId>)
    requires Consistent(db)
    ensures var (after, sum) := Bulk(db, orgId, teamId, staffIds, managerIds);
      && AddsAsked(db, after, orgId, teamId, staffIds, managerIds)
      && sum.assignments == |after.reporting| - |db.reporting|
      && sum.failed == Unfit(db, orgId, teamId, staffIds, managerIds)
  {
    var (after, sum) := Bulk(db, orgId, teamId, staffIds, managerIds);
    BulkMeaning(db, orgId, teamId, staffIds, managerIds);
    BulkConsistent(db, orgId, teamId, staffIds, managerIds);
    RequestedAddedIsAsked(db, after, orgId, teamId, staffIds, managerIds);
    UnfitAreFailures(db, orgId, teamId, staffIds, managerIds);
  }

  /** The entries that are not in order, with the first check that fails. */
  ghost function Unfit(db: Db, orgId: OrgId, teamId: TeamId, staffIds: seq<StaffId>, managerIds: seq<StaffId>)
    : seq<(StaffId, Error)>
  {
    if staffIds == [] then []
    else
      var s := staffIds[|staffIds| - 1];
      Unfit(db, orgId, teamId, staffIds[..|staffIds| - 1], managerIds) +
      if MaySet(db, orgId, teamId, s, managerIds) then []
      else if !IsTeamOf(db, orgId, teamId) then [(s, TeamNotFound)]
      else if !Belongs(db, teamId, s) then [(s, NotAMember)]
      else if s in managerIds then [(s, SelfReporting)]
      else if db.teams[teamId].masterManagerId == s then [(s, MasterManagerReports)]
      else if !ManagersFit(db, teamId, s, managerIds) then [(s, InvalidManagers)]
      else [(s, ReverseReporting)]
  }

  lemma {:induction false} UnfitAreFailures(db: Db, orgId: OrgId, teamId: TeamId, staffIds: seq<StaffId>,
                                            managerIds: seq<StaffId>)
    requires Consistent(db)
    ensures Unfit(db, orgId, teamId, staffIds, managerIds) == Failures(db, orgId, teamId, staffIds, managerIds)
  {
    if staffIds != [] {
      var last := |staffIds| - 1;
      UnfitAreFailures(db, orgId, teamId, staffIds[..last], managerIds);
      SetReportingVerdict(db, orgId, teamId, staffIds[last], managerIds);
    }
  }

  // ---------- The other requests ----------

  /** The master manager of a new team must work for the organization; the team has that one member. */
  lemma AddTeamEffect(db: Db, orgId: OrgId, master: StaffId, teamId: TeamId, memberId: MemberId)
    requires teamId !in db.teams && memberId !in db.members
    ensures var (after, result) := AddTeamSpec(db, orgId, master, teamId, memberId);
      if WorksFor(db, orgId, master) then
        && result.Success? && after.staff == db.staff && after.reporting == db.reporting
        && after.teams == db.teams[teamId := Team(orgId, master)]
        && after.members == db.members[memberId := Member(teamId, master)]
      else after == db && result == Failure(NotInOrganization)
  {
  }

  /** An edit needs a team of the organization, and a new master manager must work for it and be a member.
      Only the master manager changes, apart from the reporting rows. */
  lemma EditTeamEffect(db: Db, orgId: OrgId, teamId: TeamId, master: Option<StaffId>)
    ensures var (after, result) := EditTeamSpec(db, orgId, teamId, master);
      if && IsTeamOf(db, orgId, teamId)
         && (master.Some? ==> WorksFor(db, orgId, master.value) && Belongs(db, teamId, master.value)) then
        && result.Success? && after.staff == db.staff && after.members == db.members
        && after.teams.Keys == db.teams.Keys
        && (forall t :: t in db.teams && t != teamId ==> after.teams[t] == db.teams[t])
        && after.teams[teamId].orgId == orgId
        && (master.Some? ==> after.teams[teamId].masterManagerId == master.value)
        && (master.None? ==> after.teams[teamId].masterManagerId == db.teams[teamId].masterManagerId)
      else
        && after == db
        && result == Failure(if !IsTeamOf(db, orgId, teamId) then TeamNotFound
                             else if !WorksFor(db, orgId, master.value) then NotInOrganization
                             else NotAMember)
  {
    if master.Some? {
      BelongsIs(db, teamId, master.value);
    }
  }

  /** Staff ids of the request that work for the organization. */
  ghost function Valid(db: Db, orgId: OrgId, staffIds: seq<StaffId>): set<StaffId> {
    set s | s in staffIds && WorksFor(db, orgId, s)
  }

  /** Those that are members already, apart from the master manager. */
  ghost function Already(db: Db, orgId: OrgId, teamId: TeamId, master: StaffId, staffIds: seq<StaffId>): set<StaffId> {
    set s | s in Valid(db, orgId, staffIds) && s != master && Belongs(db, teamId, s)
  }

  lemma AlreadyIsExisting(db: Db, orgId: OrgId, teamId: TeamId, staffIds: seq<StaffId>)
    requires teamId in db.teams
    ensures Already(db, orgId, teamId, db.teams[teamId].masterManagerId, staffIds)
         == Existing(db, orgId, teamId, staffIds)
  {
    forall s ensures Belongs(db, teamId, s) <==> IsMember(db, teamId, s) {
      BelongsIs(db, teamId, s);
    }
  }

  /** addMembers needs a team and one valid staff id. It counts the memberships it creates, the valid
      staff who were members, the master manager and the invalid ids. */
  lemma AddMembersEffect(db: Db, orgId: OrgId, teamId: TeamId, staffIds: seq<StaffId>, ids: map<MemberId, StaffId>)
    requires Consistent(db) && FreshIds(db, staffIds, ids)
    ensures var (after, result) := AddMembersSpec(db, orgId, teamId, staffIds, ids);
      if teamId in db.teams && Valid(db, orgId, staffIds) != {} then
        var valid, master := Valid(db, orgId, staffIds), db.teams[teamId].masterManagerId;
        && result.Success? && after.staff == db.staff && after.teams == db.teams && after.reporting == db.reporting
        && result.value.created == |after.members| - |db.members|
        && result.value.duplicates == |Already(db, orgId, teamId, master, staffIds)|
        && result.value.skippedMasterManager == (if master in valid then 1 else 0)
        && result.value.skippedInvalidStaff == |staffIds| - |valid|
      else after == db && result == Failure(if teamId in db.teams then NoValidStaff else TeamNotFound)
  {
    assert Valid(db, orgId, staffIds) == ValidStaff(db, orgId, staffIds);
    if teamId in db.teams {
      AlreadyIsExisting(db, orgId, teamId, staffIds);
      OneRowEach(db, teamId, staffIds, ids, NewStaff(db, orgId, teamId, staffIds));
    }
  }

  /** The memberships that were there stay, and the others make exactly the valid staff other than the
      master manager members of the team. */
  lemma AddMembersRows(db: Db, orgId: OrgId, teamId: TeamId, staffIds: seq<StaffId>, ids: map<MemberId, StaffId>,
                       s: StaffId, id: MemberId)
    requires FreshIds(db, staffIds, ids) && AddMembersSpec(db, orgId, teamId, staffIds, ids).1.Success?
    ensures var after := AddMembersSpec(db, orgId, teamId, staffIds, ids).0;
      && (Belongs(after, teamId, s) <==>
            || Belongs(db, teamId, s)
            || (s in staffIds && WorksFor(db, orgId, s) && s != db.teams[teamId].masterManagerId))
      && (id in db.members ==> id in after.members && after.members[id] == db.members[id])
      && (id in after.members && id !in db.members ==> after.members[id].teamId == teamId)
  {
    AddMembersMembers(db, orgId, teamId, staffIds, ids, s);
    BelongsIs(db, teamId, s);
    BelongsIs(AddMembersSpec(db, orgId, teamId, staffIds, ids).0, teamId, s);
  }

  lemma OneRowEach(db: Db, teamId: TeamId, staffIds: seq<StaffId>, ids: map<MemberId, StaffId>, who: set<StaffId>)
    requires FreshIds(db, staffIds, ids) && forall s :: s in who ==> s in staffIds
    ensures |db.members + Memberships(teamId, ids, who)| == |db.members| + |who|
  {
    var extra := Memberships(teamId, ids, who);
    assert (db.members + extra).Keys == db.members.Keys + extra.Keys;
    KeysCount(ids, who, extra.Keys);
  }

  /** One identifier is drawn for each of the staff ids. */
  lemma {:induction false} KeysCount(ids: map<MemberId, StaffId>, who: set<StaffId>, keys: set<MemberId>)
    requires forall a, b :: a in ids && b in ids && ids[a] == ids[b] ==> a == b
    requires forall s :: s in who ==> exists id :: id in ids && ids[id] == s
    requires keys == set id | id in ids && ids[id] in who
    ensures |keys| == |who|
    decreases |who|
  {
    if who == {} {
      assert keys == {};
    } else {
      var s :| s in who;
      var id :| id in ids && ids[id] == s;
      KeysCount(ids, who - {s}, keys - {id});
    }
  }

  /** A removed member leaves with the rows of the team that name the member, and nobody else does. */
  lemma RemoveMemberEffect(db: Db, teamId: TeamId, memberId: MemberId)
    requires Consistent(db)
    ensures var (after, result) := RemoveMemberSpec(db, teamId, memberId);
      if memberId in db.members && db.members[memberId].teamId == teamId then
        var s := db.members[memberId].staffId;
        && result.Success? && after.staff == db.staff && after.teams == db.teams
        && after.members == db.members - {memberId}
        && forall r :: r in after.reporting <==>
             r in db.reporting && !(r.teamId == teamId && (r.staffId == s || r.managerId == s))
      else after == db && result == Failure(MemberNotFound)
  {
    forall r | r in db.reporting ensures RowOk(db, r) {
    }
  }

  /** Only an existing relation between two members of a team of the organization is removed. */
  lemma RemoveReportingEffect(db: Db, orgId: OrgId, teamId: TeamId, staffId: StaffId, managerId: StaffId)
    ensures var (after, result) := RemoveReportingSpec(db, orgId, teamId, staffId, managerId);
      if && IsTeamOf(db, orgId, teamId) && Belongs(db, teamId, staffId) && Belongs(db, teamId, managerId)
         && ReportsTo(db, teamId, staffId, managerId) then
        && result.Success? && after.staff == db.staff && after.teams == db.teams && after.members == db.members
        && forall r :: r in after.reporting <==>
             r in db.reporting && !(r.teamId == teamId && r.staffId == staffId && r.managerId == managerId)
      else
        && after == db
        && result == Failure(if !IsTeamOf(db, orgId, teamId) then TeamNotFound
                             else if !Belongs(db, teamId, staffId) || !Belongs(db, teamId, managerId) then NotAMember
                             else NoSuchRelation)
  {
    BelongsIs(db, teamId, staffId);
    BelongsIs(db, teamId, managerId);
  }

  lemma DeleteTeamEffect(db: Db, teamId: TeamId)
    ensures var (after, result) := DeleteTeamSpec(db, teamId);
      if teamId in db.teams then
        && result.Success? && after.staff == db.staff && after.teams == db.teams - {teamId}
        && (forall id :: id in after.members <==> id in db.members && db.members[id].teamId != teamId)
        && (forall id :: id in after.members ==> after.members[id] == db.members[id])
        && (forall r :: r in after.reporting <==> r in db.reporting && r.teamId != teamId)
      else after == db && result == Failure(TeamNotFound)
  {
  }

  /** Deleting a staff member deletes the teams the member is master manager of, and from the other teams
      the membership and the rows that name the member. */
  lemma DeleteStaffEffect(db: Db, gone: StaffId)
    requires Consistent(db) && gone in db.staff
    ensures var after := DeleteStaffSpec(db, gone);
      && after.staff == db.staff - {gone}
      && (forall t :: t in after.teams <==> t in db.teams && db.teams[t].masterManagerId != gone)
      && (forall t :: t in after.teams ==> after.teams[t] == db.teams[t])
      && (forall id :: id in after.members <==>
            id in db.members && db.members[id].staffId != gone && db.members[id].teamId in after.teams)
      && (forall id :: id in after.members ==> after.members[id] == db.members[id])
      && (forall r :: r in after.reporting <==>
            r in db.reporting && r.staffId != gone && r.managerId != gone && r.teamId in after.teams)
  {
    forall r | r in db.reporting ensures RowOk(db, r) {
    }
  }
}
