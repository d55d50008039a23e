/** Team membership and the reporting graph of src/team/team.service.ts.

    Each request is a total function on the tables (`SetReportingSpec` and so on); the methods of
    `TeamService` are proved to meet it. Identifiers that the database draws for new rows are
    arguments. Role and credential checks come before everything modelled here. */
module Teams {
  import opened Basics

  type StaffId = string
  type OrgId = string
  type TeamId = string
  type MemberId = string

  datatype Team = Team(orgId: OrgId, masterManagerId: StaffId)
  datatype Member = Member(teamId: TeamId, staffId: StaffId)
  datatype Reporting = Reporting(teamId: TeamId, staffId: StaffId, managerId: StaffId, teamMemberId: MemberId)

  /** The tables. Reporting rows have no uniqueness rule in the schema, so they form a list. */
  datatype Db = Db(
    staff: map<StaffId, OrgId>,
    teams: map<TeamId, Team>,
    members: map<MemberId, Member>,
    reporting: seq<Reporting>)

  datatype Error =
    | TeamNotFound
    | NotInOrganization
    | NotAMember
    | MemberNotFound
    | SelfReporting
    | MasterManagerReports
    | InvalidManagers
    | ReverseReporting
    | NoValidStaff
    | NoSuchRelation

  // ---------- Queries ----------

  predicate IsMemberRow(db: Db, id: MemberId, teamId: TeamId, staffId: StaffId) {
    id in db.members && db.members[id] == Member(teamId, staffId)
  }

  predicate IsMember(db: Db, teamId: TeamId, staffId: StaffId) {
    exists id :: id in db.members && IsMemberRow(db, id, teamId, staffId)
  }

  /** `@@unique([teamId, staffId])` */
  ghost predicate UniqueMembers(members: map<MemberId, Member>) {
    forall a, b :: a in members && b in members && members[a] == members[b] ==> a == b
  }

  ghost predicate NoDuplicates<T>(s: seq<T>) {
    forall i, j :: 0 <= i < j < |s| ==> s[i] != s[j]
  }

  /** `deleteMany` keeps the rows that do not match. */
  function Keep(rows: seq<Reporting>, keep: Reporting -> bool): (kept: seq<Reporting>)
    ensures forall r :: r in kept <==> r in rows && keep(r)
    ensures NoDuplicates(rows) ==> NoDuplicates(kept)
    ensures |kept| <= |rows|
  {
    if rows == [] then []
    else
      var rest := Keep(rows[1..], keep);
      assert rows == [rows[0]] + rows[1..];
      if keep(rows[0]) then [rows[0]] + rest else rest
  }

  predicate Reports(db: Db, teamId: TeamId, staffId: StaffId, managerId: StaffId) {
    exists r :: r in db.reporting && r.teamId == teamId && r.staffId == staffId && r.managerId == managerId
  }

  /** Rows of a team that name a member in any of their three columns. */
  predicate Mentions(r: Reporting, teamId: TeamId, staffId: StaffId, memberId: MemberId) {
    r.teamId == teamId && (r.staffId == staffId || r.managerId == staffId || r.teamMemberId == memberId)
  }

  function WithoutMember(rows: seq<Reporting>, teamId: TeamId, staffId: StaffId, memberId: MemberId): seq<Reporting> {
    Keep(rows, r => !Mentions(r, teamId, staffId, memberId))
  }

  /** The rows left when a membership is deleted and the deletion cascades. */
  function WithoutMembership(rows: seq<Reporting>, memberId: MemberId): seq<Reporting> {
    Keep(rows, (r: Reporting) => r.teamMemberId != memberId)
  }

  function WithoutTeam(rows: seq<Reporting>, teamId: TeamId): seq<Reporting> {
    Keep(rows, (r: Reporting) => r.teamId != teamId)
  }

  predicate IsEdge(r: Reporting, teamId: TeamId, staffId: StaffId, managerId: StaffId) {
    r.teamId == teamId && r.staffId == staffId && r.managerId == managerId
  }

  function WithoutEdge(rows: seq<Reporting>, teamId: TeamId, staffId: StaffId, managerId: StaffId): seq<Reporting> {
    Keep(rows, r => !IsEdge(r, teamId, staffId, managerId))
  }

  // ---------- Consistency ----------

  ghost predicate RowOk(db: Db, r: Reporting) {
    && r.teamId in db.teams
    && IsMemberRow(db, r.teamMemberId, r.teamId, r.staffId)
    && IsMember(db, r.teamId, r.managerId)
    && r.staffId != r.managerId
    && r.staffId != db.teams[r.teamId].masterManagerId
  }

  ghost predicate Reversed(a: Reporting, b: Reporting) {
    a.teamId == b.teamId && a.staffId == b.managerId && a.managerId == b.staffId
  }

  /** Each row joins two current members of its team and points at the reportee's own membership;
      nobody reports to themselves, the master manager reports to nobody, no pair is reversed and
      no row occurs twice. */
  ghost predicate Consistent(db: Db) {
    && UniqueMembers(db.members)
    && (forall id :: id in db.members ==> db.members[id].teamId in db.teams)
    && (forall r :: r in db.reporting ==> RowOk(db, r))
    && (forall a, b :: a in db.reporting && b in db.reporting ==> !Reversed(a, b))
    && NoDuplicates(db.reporting)
  }

  // ---------- setReporting ----------

  /** `findMany` over the members of the team among the given ids: each is found once. */
  function ValidManagers(db: Db, teamId: TeamId, managerIds: seq<StaffId>): set<StaffId> {
    set m | m in managerIds && IsMember(db, teamId, m)
  }

  function NewManagers(db: Db, teamId: TeamId, staffId: StaffId, managerIds: seq<StaffId>): set<StaffId> {
    set m | m in ValidManagers(db, teamId, managerIds) && !Reports(db, teamId, staffId, m)
  }

  /** The rows by which the member reports to one of the managers already. */
  function AssignedRows(db: Db, teamId: TeamId, staffId: StaffId, managerIds: set<StaffId>): seq<Reporting> {
    Keep(db.reporting, (r: Reporting) => r.teamId == teamId && r.staffId == staffId && r.managerId in managerIds)
  }

  function SetReportingError(db: Db, orgId: OrgId, teamId: TeamId, staffId: StaffId,
                             managerIds: seq<StaffId>): Option<Error> {
    if teamId !in db.teams || db.teams[teamId].orgId != orgId then Some(TeamNotFound)
    else if !IsMember(db, teamId, staffId) then Some(NotAMember)
    else if staffId in managerIds then Some(SelfReporting)
    else if db.teams[teamId].masterManagerId == staffId then Some(MasterManagerReports)
    else if |ValidManagers(db, teamId, managerIds)| != |managerIds| then Some(InvalidManagers)
    else if exists m :: m in NewManagers(db, teamId, staffId, managerIds) && Reports(db, teamId, m, staffId)
      then Some(ReverseReporting)
    else None
  }

  /** The rows that `createMany` inserts, in the order of the request. */
  function NewRows(db: Db, teamId: TeamId, staffId: StaffId, memberId: MemberId,
                   managerIds: seq<StaffId>): (rows: seq<Reporting>)
    ensures forall r :: r in rows <==> (&& r.managerId in managerIds
                                        && r == Reporting(teamId, staffId, r.managerId, memberId)
                                        && !Reports(db, teamId, staffId, r.managerId))
    ensures NoDuplicates(managerIds) ==> NoDuplicates(rows)
  {
    if managerIds == [] then []
    else
      var rest := NewRows(db, teamId, staffId, memberId, managerIds[1..]);
      if Reports(db, teamId, staffId, managerIds[0]) then rest
      else [Reporting(teamId, staffId, managerIds[0], memberId)] + rest
  }

  datatype Result<+T> = Success(value: T) | Failure(error: Error)

  datatype Counts = Counts(assignments: nat, skipped: nat)

  ghost function MemberIdOf(db: Db, teamId: TeamId, staffId: StaffId): MemberId
    requires IsMember(db, teamId, staffId)
  {
    var id :| IsMemberRow(db, id, teamId, staffId); id
  }

  ghost function SetReportingSpec(db: Db, orgId: OrgId, teamId: TeamId, staffId: StaffId,
                                  managerIds: seq<StaffId>): (Db, Result<Counts>) {
    var error := SetReportingError(db, orgId, teamId, staffId, managerIds);
    if error.Some? then (db, Failure(error.value))
    else
      var rows := NewRows(db, teamId, staffId, MemberIdOf(db, teamId, staffId), managerIds);
      var already := AssignedRows(db, teamId, staffId, ValidManagers(db, teamId, managerIds));
      (db.(reporting := db.reporting + rows), Success(Counts(|rows|, if rows == [] then |already| else 0)))
  }

  lemma MemberIdUnique(db: Db, id: MemberId, teamId: TeamId, staffId: StaffId)
    requires UniqueMembers(db.members) && IsMemberRow(db, id, teamId, staffId)
    ensures MemberIdOf(db, teamId, staffId) == id
  {
  }

  // ---------- The length check ----------

  ghost function Elements<T>(s: seq<T>): set<T> {
    set x | x in s
  }

  lemma {:induction false} SetOfSeqSize<T>(s: seq<T>)
    ensures |Elements(s)| <= |s|
    ensures |Elements(s)| == |s| <==> NoDuplicates(s)
  {
    if s == [] {
      assert Elements(s) == {};
    } else {
      var rest := s[1..];
      SetOfSeqSize(rest);
      assert Elements(s) == {s[0]} + Elements(rest);
      if s[0] in rest {
        assert Elements(s) == Elements(rest);
        var k :| 0 <= k < |rest| && rest[k] == s[0];
        assert s[k + 1] == s[0];
      } else {
        HeadIsNew(s);
      }
    }
  }

  lemma HeadIsNew<T>(s: seq<T>)
    requires s != [] && s[0] !in s[1..]
    ensures |Elements(s)| == |Elements(s[1..])| + 1
    ensures NoDuplicates(s) <==> NoDuplicates(s[1..])
  {
    assert Elements(s) == {s[0]} + Elements(s[1..]);
    forall j | 0 < j < |s| ensures s[0] != s[j] {
      assert s[j] == s[1..][j - 1];
    }
    if NoDuplicates(s[1..]) {
      forall i, j | 0 < i < j < |s| ensures s[i] != s[j] {
        assert s[i] == s[1..][i - 1] && s[j] == s[1..][j - 1];
      }
    }
  }

  /** Comparing the number of members found with the number of ids asked for rejects repeated ids as well as
      strangers. */
  lemma LengthCheckIff(db: Db, teamId: TeamId, managerIds: seq<StaffId>)
    ensures |ValidManagers(db, teamId, managerIds)| == |managerIds|
       <==> NoDuplicates(managerIds) && forall m :: m in managerIds ==> IsMember(db, teamId, m)
  {
    SetOfSeqSize(managerIds);
    var all := Elements(managerIds);
    var valid := ValidManagers(db, teamId, managerIds);
    assert valid <= all;
    assert all == valid + (all - valid);
    assert |all| == |valid| + |all - valid|;
    if |valid| == |managerIds| {
      assert all - valid == {};
      forall m | m in managerIds ensures IsMember(db, teamId, m) {
        assert m in all;
      }
    } else if forall m :: m in managerIds ==> IsMember(db, teamId, m) {
      assert all == valid;
    }
  }

  // ---------- The other requests ----------

  predicate InOrganization(db: Db, orgId: OrgId, staffId: StaffId) {
    staffId in db.staff && db.staff[staffId] == orgId
  }

  function AddTeamSpec(db: Db, orgId: OrgId, masterManagerId: StaffId, teamId: TeamId,
                       memberId: MemberId): (Db, Result<()>) {
    if !InOrganization(db, orgId, masterManagerId) then (db, Failure(NotInOrganization))
    else
      (db.(teams := db.teams[teamId := Team(orgId, masterManagerId)],
           members := db.members[memberId := Member(teamId, masterManagerId)]),
       Success(()))
  }

  /** Removes every row that mentions a current member. */
  ghost function Detach(db: Db, teamId: TeamId, staffId: StaffId): seq<Reporting> {
    if IsMember(db, teamId, staffId)
    then WithoutMember(db.reporting, teamId, staffId, MemberIdOf(db, teamId, staffId))
    else db.reporting
  }

  /** A new master manager must be a member and loses all reporting rows; so does the old one
      unless the request names the same person again. */
  ghost function EditTeamSpec(db: Db, orgId: OrgId, teamId: TeamId,
                              masterManagerId: Option<StaffId>): (Db, Result<()>) {
    if teamId !in db.teams || db.teams[teamId].orgId != orgId then (db, Failure(TeamNotFound))
    else if masterManagerId.Some? && !InOrganization(db, orgId, masterManagerId.value) then
      (db, Failure(NotInOrganization))
    else if masterManagerId.Some? && !IsMember(db, teamId, masterManagerId.value) then (db, Failure(NotAMember))
    else
      var former := db.teams[teamId].masterManagerId;
      var db1 := if masterManagerId.Some? then db.(reporting := Detach(db, teamId, masterManagerId.value)) else db;
      var db2 := if masterManagerId != Some(former) then db1.(reporting := Detach(db1, teamId, former)) else db1;
      var team := if masterManagerId.Some? then db.teams[teamId].(masterManagerId := masterManagerId.value)
          else db.teams[teamId];
      (db2.(teams := db.teams[teamId := team]), Success(()))
  }

  datatype AddedMembers = AddedMembers(created: nat, duplicates: nat, skippedMasterManager: nat,
                                       skippedInvalidStaff: int)

  function ValidStaff(db: Db, orgId: OrgId, staffIds: seq<StaffId>): set<StaffId> {
    set s | s in staffIds && InOrganization(db, orgId, s)
  }

  /** Valid staff other than the master manager who are members already, and who are not. */
  function Existing(db: Db, orgId: OrgId, teamId: TeamId, staffIds: seq<StaffId>): set<StaffId>
    requires teamId in db.teams
  {
    set s | s in staffIds && InOrganization(db, orgId, s) && s != db.teams[teamId].masterManagerId
      && IsMember(db, teamId, s)
  }

  function NewStaff(db: Db, orgId: OrgId, teamId: TeamId, staffIds: seq<StaffId>): set<StaffId>
    requires teamId in db.teams
  {
    set s | s in staffIds && InOrganization(db, orgId, s) && s != db.teams[teamId].masterManagerId
      && !IsMember(db, teamId, s)
  }

  function AddCounts(db: Db, orgId: OrgId, teamId: TeamId, staffIds: seq<StaffId>): AddedMembers
    requires teamId in db.teams
  {
    var valid := ValidStaff(db, orgId, staffIds);
    AddedMembers(|NewStaff(db, orgId, teamId, staffIds)|, |Existing(db, orgId, teamId, staffIds)|,
                 if db.teams[teamId].masterManagerId in valid then 1 else 0, |staffIds| - |valid|)
  }

  function Memberships(teamId: TeamId, ids: map<MemberId, StaffId>, who: set<StaffId>): map<MemberId, Member> {
    map id | id in ids && ids[id] in who :: Member(teamId, ids[id])
  }

  /** `ids` gives the identifier drawn for each new membership. */
  function AddMembersSpec(db: Db, orgId: OrgId, teamId: TeamId, staffIds: seq<StaffId>,
                          ids: map<MemberId, StaffId>): (Db, Result<AddedMembers>) {
    if teamId !in db.teams then (db, Failure(TeamNotFound))
    else if ValidStaff(db, orgId, staffIds) == {} then (db, Failure(NoValidStaff))
    else
      (db.(members := db.members + Memberships(teamId, ids, NewStaff(db, orgId, teamId, staffIds))),
       Success(AddCounts(db, orgId, teamId, staffIds)))
  }

  function RemoveMemberSpec(db: Db, teamId: TeamId, memberId: MemberId): (Db, Result<()>) {
    if memberId !in db.members || db.members[memberId].teamId != teamId then (db, Failure(MemberNotFound))
    else
      (db.(members := db.members - {memberId},
           reporting := WithoutMember(WithoutMembership(db.reporting, memberId), teamId,
                                      db.members[memberId].staffId, memberId)),
       Success(()))
  }

  function RemoveReportingSpec(db: Db, orgId: OrgId, teamId: TeamId, staffId: StaffId,
                               managerId: StaffId): (Db, Result<()>) {
    if teamId !in db.teams || db.teams[teamId].orgId != orgId then (db, Failure(TeamNotFound))
    else if !IsMember(db, teamId, staffId) || !IsMember(db, teamId, managerId) then (db, Failure(NotAMember))
    else if !Reports(db, teamId, staffId, managerId) then (db, Failure(NoSuchRelation))
    else (db.(reporting := WithoutEdge(db.reporting, teamId, staffId, managerId)), Success(()))
  }

  /** Deleting a team cascades to its members and reporting rows. */
  function DeleteTeamSpec(db: Db, teamId: TeamId): (Db, Result<()>) {
    if teamId !in db.teams then (db, Failure(TeamNotFound))
    else
      (db.(teams := db.teams - {teamId},
           members := map id | id in db.members && db.members[id].teamId != teamId :: db.members[id],
           reporting := WithoutTeam(db.reporting, teamId)),
       Success(()))
  }

  // ---------- Deleting a staff member ----------

  /** Teams whose master manager is deleted are deleted too. */
  predicate TeamStays(db: Db, staffId: StaffId, teamId: TeamId) {
    teamId in db.teams ==> db.teams[teamId].masterManagerId != staffId
  }

  predicate MemberStays(db: Db, staffId: StaffId, id: MemberId) {
    id in db.members ==> db.members[id].staffId != staffId && TeamStays(db, staffId, db.members[id].teamId)
  }

  predicate RowStays(db: Db, staffId: StaffId, r: Reporting) {
    && r.staffId != staffId && r.managerId != staffId
    && TeamStays(db, staffId, r.teamId) && MemberStays(db, staffId, r.teamMemberId)
  }

  /** The cascades of the schema when a staff row is deleted. */
  function DeleteStaffSpec(db: Db, staffId: StaffId): Db {
    if staffId !in db.staff then db
    else
      Db(db.staff - {staffId},
         map t | t in db.teams && TeamStays(db, staffId, t) :: db.teams[t],
         map id | id in db.members && MemberStays(db, staffId, id) :: db.members[id],
         Keep(db.reporting, r => RowStays(db, staffId, r)))
  }

  // ---------- setReportingBulk ----------

  datatype Summary = Summary(assignments: nat, skipped: nat, failed: seq<(StaffId, Error)>)

  /** The loop over `staffIds`, as a recursion on the list from its end. */
  ghost function Bulk(db: Db, orgId: OrgId, teamId: TeamId, staffIds: seq<StaffId>,
                      managerIds: seq<StaffId>): (Db, Summary) {
    if staffIds == [] then (db, Summary(0, 0, []))
    else
      var last := |staffIds| - 1;
      var (db1, sum) := Bulk(db, orgId, teamId, staffIds[..last], managerIds);
      var (db2, result) := SetReportingSpec(db1, orgId, teamId, staffIds[last], managerIds);
      match result
      case Success(counts) =>
        if counts.assignments == 0 then (db2, sum.(skipped := sum.skipped + 1))
        else (db2, sum.(assignments := sum.assignments + counts.assignments))
      case Failure(error) => (db2, sum.(failed := sum.failed + [(staffIds[last], error)]))
  }

  // ---------- Requests and runs ----------

  datatype Request =
    | AddTeam(orgId: OrgId, masterManagerId: StaffId, newTeamId: TeamId, newMemberId: MemberId)
    | EditTeam(orgId: OrgId, teamId: TeamId, newMasterManagerId: Option<StaffId>)
    | AddMembers(orgId: OrgId, teamId: TeamId, staffIds: seq<StaffId>, ids: map<MemberId, StaffId>)
    | RemoveMember(teamId: TeamId, memberId: MemberId)
    | SetReporting(orgId: OrgId, teamId: TeamId, staffId: StaffId, managerIds: seq<StaffId>)
    | SetReportingBulk(orgId: OrgId, teamId: TeamId, staffIds: seq<StaffId>, managerIds: seq<StaffId>)
    | RemoveReporting(orgId: OrgId, teamId: TeamId, staffId: StaffId, managerId: StaffId)
    | DeleteTeam(teamId: TeamId)
    | DeleteStaff(staffId: StaffId)

  ghost function Apply(db: Db, r: Request): Db {
    match r
    case AddTeam(orgId, master, newTeamId, newMemberId) => AddTeamSpec(db, orgId, master, newTeamId, newMemberId).0
    case EditTeam(orgId, teamId, master) => EditTeamSpec(db, orgId, teamId, master).0
    case AddMembers(orgId, teamId, staffIds, ids) => AddMembersSpec(db, orgId, teamId, staffIds, ids).0
    case RemoveMember(teamId, memberId) => RemoveMemberSpec(db, teamId, memberId).0
    case SetReporting(orgId, teamId, staffId, managerIds) => SetReportingSpec(db, orgId, teamId, staffId, managerIds).0
    case SetReportingBulk(orgId, teamId, staffIds, managerIds) => Bulk(db, orgId, teamId, staffIds, managerIds).0
    case RemoveReporting(orgId, teamId, staffId, managerId) =>
      RemoveReportingSpec(db, orgId, teamId, staffId, managerId).0
    case DeleteTeam(teamId) => DeleteTeamSpec(db, teamId).0
    case DeleteStaff(staffId) => DeleteStaffSpec(db, staffId)
  }

  /** New identifiers are fresh, and one is drawn for every staff id in an addMembers request. */
  ghost predicate FreshIds(db: Db, staffIds: seq<StaffId>, ids: map<MemberId, StaffId>) {
    && ids.Keys !! db.members.Keys
    && (forall a, b :: a in ids && b in ids && ids[a] == ids[b] ==> a == b)
    && (forall s :: s in staffIds ==> exists id :: id in ids && ids[id] == s)
  }

  ghost predicate Feasible(db: Db, r: Request) {
    match r
    case AddTeam(_, _, newTeamId, newMemberId) => newTeamId !in db.teams && newMemberId !in db.members
    case AddMembers(_, _, staffIds, ids) => FreshIds(db, staffIds, ids)
    case _ => true
  }

  ghost function Run(db: Db, rs: seq<Request>): Db
    decreases |rs|
  {
    if rs == [] then db else Run(Apply(db, rs[0]), rs[1..])
  }

  ghost predicate FeasibleRun(db: Db, rs: seq<Request>)
    decreases |rs|
  {
    rs == [] || (Feasible(db, rs[0]) && FeasibleRun(Apply(db, rs[0]), rs[1..]))
  }

  // ---------- The service ----------

  class TeamService {
    var staff: map<StaffId, OrgId>
    var teams: map<TeamId, Team>
    var members: map<MemberId, Member>
    var reporting: seq<Reporting>

    function State(): Db
      reads this
    {
      Db(staff, teams, members, reporting)
    }

    constructor (staff: map<StaffId, OrgId>)
      ensures State() == Db(staff, map[], map[], [])
    {
      this.staff := staff;
      teams, members, reporting := map[], map[], [];
    }

    method AddTeam(orgId: OrgId, masterManagerId: StaffId, teamId: TeamId, memberId: MemberId) returns (r: Result<()>)
      requires teamId !in teams && memberId !in members
      modifies this
      ensures (State(), r) == AddTeamSpec(old(State()), orgId, masterManagerId, teamId, memberId)
    {
      if masterManagerId !in staff || staff[masterManagerId] != orgId {
        return Failure(NotInOrganization);
      }
      teams := teams[teamId := Team(orgId, masterManagerId)];
      members := members[memberId := Member(teamId, masterManagerId)];
      r := Success(());
    }

    /** `teamReporting.deleteMany` over the rows that mention a member, if there is one. */
    method DetachMember(teamId: TeamId, staffId: StaffId)
      requires UniqueMembers(members)
      modifies this`reporting
      ensures reporting == Detach(old(State()), teamId, staffId)
    {
      if IsMember(State(), teamId, staffId) {
        var id :| id in members && IsMemberRow(State(), id, teamId, staffId);
        MemberIdUnique(State(), id, teamId, staffId);
        reporting := WithoutMember(reporting, teamId, staffId, id);
      }
    }

    method EditTeam(orgId: OrgId, teamId: TeamId, masterManagerId: Option<StaffId>) returns (r: Result<()>)
      requires UniqueMembers(members)
      modifies this
      ensures (State(), r) == EditTeamSpec(old(State()), orgId, teamId, masterManagerId)
    {
      if teamId !in teams || teams[teamId].orgId != orgId {
        return Failure(TeamNotFound);
      }
      var team := teams[teamId];
      if masterManagerId.Some? {
        if !InOrganization(State(), orgId, masterManagerId.value) {
          return Failure(NotInOrganization);
        }
        if !IsMember(State(), teamId, masterManagerId.value) {
          return Failure(NotAMember);
        }
        DetachMember(teamId, masterManagerId.value);
      }
      if masterManagerId != Some(team.masterManagerId) {
        DetachMember(teamId, team.masterManagerId);
      }
      if masterManagerId.Some? {
        team := team.(masterManagerId := masterManagerId.value);
      }
      teams := teams[teamId := team];
      r := Success(());
    }

    method AddMembers(orgId: OrgId, teamId: TeamId, staffIds: seq<StaffId>, ids: map<MemberId, StaffId>)
      returns (r: Result<AddedMembers>)
      requires FreshIds(State(), staffIds, ids)
      modifies this`members
      ensures (State(), r) == AddMembersSpec(old(State()), orgId, teamId, staffIds, ids)
    {
      if teamId !in teams {
        return Failure(TeamNotFound);
      }
      var validIds := ValidStaff(State(), orgId, staffIds);
      if validIds == {} {
        return Failure(NoValidStaff);
      }
      var duplicates := Existing(State(), orgId, teamId, staffIds);
      var newStaffIds := NewStaff(State(), orgId, teamId, staffIds);
      var skippedMasterManager := if teams[teamId].masterManagerId in validIds then 1 else 0;
      members := members + Memberships(teamId, ids, newStaffIds);
      r := Success(AddedMembers(|newStaffIds|, |duplicates|, skippedMasterManager, |staffIds| - |validIds|));
    }

    /** Deleting the membership cascades to the rows that point at it. */
    method RemoveMember(teamId: TeamId, memberId: MemberId) returns (r: Result<()>)
      modifies this
      ensures (State(), r) == RemoveMemberSpec(old(State()), teamId, memberId)
    {
      if memberId !in members || members[memberId].teamId != teamId {
        return Failure(MemberNotFound);
      }
      var staffId := members[memberId].staffId;
      members := members - {memberId};
      reporting := WithoutMembership(reporting, memberId);
      reporting := WithoutMember(reporting, teamId, staffId, memberId);
      r := Success(());
    }

    method SetReporting(orgId: OrgId, teamId: TeamId, staffId: StaffId, managerIds: seq<StaffId>)
      returns (r: Result<Counts>)
      requires UniqueMembers(members)
      modifies this`reporting
      ensures (State(), r) == SetReportingSpec(old(State()), orgId, teamId, staffId, managerIds)
    {
      if teamId !in teams || teams[teamId].orgId != orgId {
        return Failure(TeamNotFound);
      }
      if !IsMember(State(), teamId, staffId) {
        return Failure(NotAMember);
      }
      var memberId :| memberId in members && IsMemberRow(State(), memberId, teamId, staffId);
      MemberIdUnique(State(), memberId, teamId, staffId);
      if staffId in managerIds {
        return Failure(SelfReporting);
      }
      if teams[teamId].masterManagerId == staffId {
        return Failure(MasterManagerReports);
      }
      var validManagerIds := ValidManagers(State(), teamId, managerIds);
      if |validManagerIds| != |managerIds| {
        return Failure(InvalidManagers);
      }
      var alreadyAssigned := AssignedRows(State(), teamId, staffId, validManagerIds);
      var newManagerIds := set m | m in validManagerIds && !Reports(State(), teamId, staffId, m);
      assert newManagerIds == NewManagers(State(), teamId, staffId, managerIds);
      var rows := NewRows(State(), teamId, staffId, memberId, managerIds);
      NewRowsCount(State(), teamId, staffId, memberId, managerIds);
      if |newManagerIds| == 0 {
        assert reporting + rows == reporting;
        return Success(Counts(0, |alreadyAssigned|));
      }
      if exists m :: m in newManagerIds && Reports(State(), teamId, m, staffId) {
        return Failure(ReverseReporting);
      }
      reporting := reporting + rows;
      r := Success(Counts(|newManagerIds|, 0));
    }

    method SetReportingBulk(orgId: OrgId, teamId: TeamId, staffIds: seq<StaffId>, managerIds: seq<StaffId>)
      returns (summary: Summary)
      requires UniqueMembers(members)
      modifies this`reporting
      ensures (State(), summary) == Bulk(old(State()), orgId, teamId, staffIds, managerIds)
    {
      summary := Summary(0, 0, []);
      for n := 0 to |staffIds|
        invariant (State(), summary) == Bulk(old(State()), orgId, teamId, staffIds[..n], managerIds)
      {
        var staffId := staffIds[n];
        assert staffIds[..n + 1][..n] == staffIds[..n];
        var result := SetReporting(orgId, teamId, staffId, managerIds);
        match result
        case Success(counts) =>
          if counts.assignments == 0 {
            summary := summary.(skipped := summary.skipped + 1);
          } else {
            summary := summary.(assignments := summary.assignments + counts.assignments);
          }
        case Failure(error) =>
          summary := summary.(failed := summary.failed + [(staffId, error)]);
      }
      assert staffIds[..|staffIds|] == staffIds;
    }

    method RemoveReporting(orgId: OrgId, teamId: TeamId, staffId: StaffId, managerId: StaffId) returns (r: Result<()>)
      modifies this`reporting
      ensures (State(), r) == RemoveReportingSpec(old(State()), orgId, teamId, staffId, managerId)
    {
      if teamId !in teams || teams[teamId].orgId != orgId {
        return Failure(TeamNotFound);
      }
      if !IsMember(State(), teamId, staffId) {
        return Failure(NotAMember);
      }
      if !IsMember(State(), teamId, managerId) {
        return Failure(NotAMember);
      }
      if !Reports(State(), teamId, staffId, managerId) {
        return Failure(NoSuchRelation);
      }
      reporting := WithoutEdge(reporting, teamId, staffId, managerId);
      r := Success(());
    }

    method DeleteTeam(teamId: TeamId) returns (r: Result<()>)
      modifies this
      ensures (State(), r) == DeleteTeamSpec(old(State()), teamId)
    {
      if teamId !in teams {
        return Failure(TeamNotFound);
      }
      teams := teams - {teamId};
      members := map id | id in members && members[id].teamId != teamId :: members[id];
      reporting := WithoutTeam(reporting, teamId);
      r := Success(());
    }

    /** What `staff.delete` does to the tables of this service. */
    method DeleteStaff(staffId: StaffId)
      modifies this
      ensures State() == DeleteStaffSpec(old(State()), staffId)
    {
      if staffId !in staff {
        return;
      }
      var db := State();
      reporting := DeleteStaffSpec(db, staffId).reporting;
      members := map id | id in members && MemberStays(db, staffId, id) :: members[id];
      teams := map t | t in teams && teams[t].masterManagerId != staffId :: teams[t];
      staff := staff - {staffId};
    }
  }

  /** When the ids are distinct members, one row is new for each new manager. */
  lemma NewRowsCount(db: Db, teamId: TeamId, staffId: StaffId, memberId: MemberId, managerIds: seq<StaffId>)
    requires |ValidManagers(db, teamId, managerIds)| == |managerIds|
    ensures |NewRows(db, teamId, staffId, memberId, managerIds)| == |NewManagers(db, teamId, staffId, managerIds)|
  {
    LengthCheckIff(db, teamId, managerIds);
    NewRowsAre(db, teamId, staffId, memberId, managerIds);
    assert NewManagers(db, teamId, staffId, managerIds) == set m | m in managerIds && !Reports(db, teamId, staffId, m);
  }

  lemma {:induction false} NewRowsAre(db: Db, teamId: TeamId, staffId: StaffId, memberId: MemberId,
                                      managerIds: seq<StaffId>)
    requires NoDuplicates(managerIds)
    ensures |NewRows(db, teamId, staffId, memberId, managerIds)|
         == |set m | m in managerIds && !Reports(db, teamId, staffId, m)|
  {
    var all := set m | m in managerIds && !Reports(db, teamId, staffId, m);
    if managerIds == [] {
      assert all == {};
    } else {
      var m0, rest := managerIds[0], managerIds[1..];
      NewRowsAre(db, teamId, staffId, memberId, rest);
      var others := set m | m in rest && !Reports(db, teamId, staffId, m);
      assert managerIds == [m0] + rest && m0 !in rest;
      assert all == if Reports(db, teamId, staffId, m0) then others else {m0} + others;
    }
  }
}