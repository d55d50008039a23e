/** Whether the members of a team work for its organization: addMembers of src/team/team.service.ts checks
    the staff against the caller's organization, and the team against none. */
module TeamHomes {
  import opened Teams
  import opened TeamRuns

  ghost predicate IsHome(db: Db, id: MemberId)
    requires id in db.members
  {
    var m := db.members[id];
    m.teamId in db.teams && InOrganization(db, db.teams[m.teamId].orgId, m.staffId)
  }

  /** Every member works for the organization of the team. */
  ghost predicate AllHome(db: Db) {
    forall id :: id in db.members ==> IsHome(db, id)
  }

  /** The request adds nobody to a team of another organization. */
  ghost predicate StaysHome(db: Db, r: Request) {
    r.AddMembers? && r.teamId in db.teams && db.teams[r.teamId].orgId != r.orgId ==>
      NewStaff(db, r.orgId, r.teamId, r.staffIds) == {}
  }

  lemma AddMembersIff(db: Db, r: Request)
    requires AllHome(db) && Feasible(db, r) && r.AddMembers?
    ensures AllHome(Apply(db, r)) <==> StaysHome(db, r)
  {
    var after := Apply(db, r);
    if r.teamId in db.teams && ValidStaff(db, r.orgId, r.staffIds) != {} {
      var who := NewStaff(db, r.orgId, r.teamId, r.staffIds);
      var extra := Memberships(r.teamId, r.ids, who);
      assert after.members == db.members + extra;
      forall id | id in db.members ensures id in after.members && (IsHome(after, id) <==> IsHome(db, id)) {
      }
      if !StaysHome(db, r) {
        var s :| s in who;
        var id :| id in r.ids && r.ids[id] == s;
        assert id in extra && !IsHome(after, id);
      }
    } else if r.teamId in db.teams {
      forall s ensures s !in NewStaff(db, r.orgId, r.teamId, r.staffIds) {
        assert s !in ValidStaff(db, r.orgId, r.staffIds);
      }
    }
  }

  lemma OtherRequestsStayHome(db: Db, r: Request, id: MemberId)
    requires Consistent(db) && AllHome(db) && Feasible(db, r) && !r.AddMembers? && id in Apply(db, r).members
    ensures IsHome(Apply(db, r), id)
  {
    assert id in db.members ==> IsHome(db, id) && db.members[id].teamId in db.teams;
    match r {
      case EditTeam(orgId, teamId, master) =>
        assert Apply(db, r).staff == db.staff && Apply(db, r).members == db.members;
      case SetReportingBulk(orgId, teamId, staffIds, managerIds) =>
        BulkMeaning(db, orgId, teamId, staffIds, managerIds);
      case _ =>
    }
  }

  /** A request keeps every member in the team's organization exactly if it adds nobody to a team of
      another organization. */
  lemma StepKeepsHomeIff(db: Db, r: Request)
    requires Consistent(db) && AllHome(db) && Feasible(db, r)
    ensures AllHome(Apply(db, r)) <==> StaysHome(db, r)
  {
    if r.AddMembers? {
      AddMembersIff(db, r);
    } else {
      forall id | id in Apply(db, r).members ensures IsHome(Apply(db, r), id) {
        OtherRequestsStayHome(db, r, id);
      }
    }
  }

  ghost predicate AlwaysHome(db: Db, rs: seq<Request>)
    decreases |rs|
  {
    AllHome(db) && (rs == [] || AlwaysHome(Apply(db, rs[0]), rs[1..]))
  }

  ghost predicate AlwaysStaysHome(db: Db, rs: seq<Request>)
    decreases |rs|
  {
    rs == [] || (StaysHome(db, rs[0]) && AlwaysStaysHome(Apply(db, rs[0]), rs[1..]))
  }

  /** In a run every member works for the organization of the team in every state exactly if no request
      adds anybody to a team of another organization. */
  lemma {:induction false} RunStaysHomeIff(db: Db, rs: seq<Request>)
    requires Consistent(db) && AllHome(db) && FeasibleRun(db, rs)
    ensures AlwaysHome(db, rs) <==> AlwaysStaysHome(db, rs)
    decreases |rs|
  {
    if rs != [] {
      StepKeepsConsistent(db, rs[0]);
      StepKeepsHomeIff(db, rs[0]);
      if StaysHome(db, rs[0]) {
        RunStaysHomeIff(Apply(db, rs[0]), rs[1..]);
      }
    }
  }
}
