/** What every staff request keeps: staff members and credentials in step, and one SuperAdmin per organization. */
module StaffRuns {
  import opened Basics
  import opened WorkingHours
  import opened StaffAccounts

  /** Every member has a credential of its own that agrees on organization, e-mail and role. */
  ghost predicate MemberOk(db: Db, id: StaffId) {
    && id in db.staff
    && db.staff[id].userId.Some? && db.staff[id].userId.value in db.credentials
    && var c := db.credentials[db.staff[id].userId.value];
       c.orgId == db.staff[id].orgId && c.email == db.staff[id].email && c.role == db.staff[id].role
  }

  ghost predicate Owns(db: Db, id: StaffId, c: CredentialId) {
    id in db.staff && db.staff[id].userId == Some(c)
  }

  ghost predicate Linked(db: Db) {
    && (forall id :: id in db.staff ==> MemberOk(db, id))
    && (forall a, b, c :: Owns(db, a, c) && Owns(db, b, c) ==> a == b)
    && (forall c :: c in db.credentials ==> exists id :: Owns(db, id, c))
  }

  ghost predicate BothSuperAdmins(db: Db, a: StaffId, b: StaffId) {
    && a in db.staff && b in db.staff && db.staff[a].orgId == db.staff[b].orgId
    && db.staff[a].role == SuperAdmin && db.staff[b].role == SuperAdmin
  }

  ghost predicate OneSuperAdmin(db: Db) {
    forall a, b :: BothSuperAdmins(db, a, b) ==> a == b
  }

  ghost predicate Inv(db: Db) {
    Linked(db) && OneSuperAdmin(db)
  }

  lemma NewPairKeepsLinked(db: Db, after: Db, id: StaffId, c: CredentialId, member: StaffMember, credential: Credential)
    requires Linked(db) && id !in db.staff && c !in db.credentials && member.userId == Some(c)
    requires credential.orgId == member.orgId && credential.email == member.email && credential.role == member.role
    requires after.staff == db.staff[id := member] && after.credentials == db.credentials[c := credential]
    ensures Linked(after)
  {
    forall other | other in after.staff ensures MemberOk(after, other) {
      assert other != id ==> MemberOk(db, other);
    }
    forall other ensures !Owns(db, other, c) {
      assert other in db.staff ==> MemberOk(db, other);
    }
    assert Owns(after, id, c);
    forall other, d | Owns(after, other, d) ensures Owns(db, other, d) || (other == id && d == c) {
    }
    forall d | d in db.credentials ensures exists other :: Owns(after, other, d) {
      var other :| Owns(db, other, d);
      assert Owns(after, other, d);
    }
  }

  lemma AddKeepsInv(db: Db, orgId: OrgId, email: string, staffId: StaffId, credentialId: CredentialId)
    requires Inv(db) && staffId !in db.staff && credentialId !in db.credentials
    ensures Inv(AddSpec(db, orgId, email, staffId, credentialId).0)
  {
    var after := AddSpec(db, orgId, email, staffId, credentialId).0;
    if AddSpec(db, orgId, email, staffId, credentialId).1.Done? {
      NewPairKeepsLinked(db, after, staffId, credentialId, after.staff[staffId], after.credentials[credentialId]);
      forall a, b | BothSuperAdmins(after, a, b) ensures a == b {
        assert BothSuperAdmins(db, a, b);
      }
    }
  }

  lemma DeleteKeepsInv(db: Db, caller: Caller, orgId: OrgId, staffId: StaffId)
    requires Inv(db)
    ensures Inv(DeleteSpec(db, caller, orgId, staffId).0)
  {
    var after := DeleteSpec(db, caller, orgId, staffId).0;
    forall id | id in after.staff ensures MemberOk(after, id) {
      assert MemberOk(db, id);
      assert Owns(db, id, db.staff[id].userId.value);
      assert staffId in db.staff ==> MemberOk(db, staffId) && Owns(db, staffId, db.staff[staffId].userId.value);
    }
    forall c | c in after.credentials ensures exists id :: Owns(after, id, c) {
      var id :| Owns(db, id, c);
      assert Owns(after, id, c);
    }
    forall a, b, c | Owns(after, a, c) && Owns(after, b, c) ensures a == b {
      assert Owns(db, a, c) && Owns(db, b, c);
    }
    forall a, b | BothSuperAdmins(after, a, b) ensures a == b {
      assert BothSuperAdmins(db, a, b);
    }
  }

  /** Changing a member together with the member's credential. */
  lemma UpdateKeepsLinked(db: Db, after: Db, id: StaffId, c: CredentialId, member: StaffMember, credential: Credential)
    requires Linked(db) && Owns(db, id, c) && member.userId == Some(c)
    requires credential.orgId == member.orgId && credential.email == member.email && credential.role == member.role
    requires after.staff == db.staff[id := member] && after.credentials == db.credentials[c := credential]
    ensures Linked(after)
  {
    assert MemberOk(db, id);
    forall other, d ensures Owns(after, other, d) <==> Owns(db, other, d) {
    }
    forall other | other in after.staff ensures MemberOk(after, other) {
      assert MemberOk(db, other);
      assert Owns(db, other, db.staff[other].userId.value);
    }
    forall d | d in after.credentials ensures exists other :: Owns(after, other, d) {
      var other :| Owns(db, other, d);
      assert Owns(after, other, d);
    }
  }

  /** `after` is `db` with the member `holder` and the member's credential `c` made Admin. */
  ghost predicate Demoted(db: Db, after: Db, holder: StaffId, c: CredentialId) {
    && Owns(db, holder, c) && c in db.credentials
    && after.staff == db.staff[holder := db.staff[holder].(role := Admin)]
    && after.credentials == db.credentials[c := db.credentials[c].(role := Admin)]
  }

  lemma DemoteKeepsInv(db: Db, after: Db, holder: StaffId, c: CredentialId)
    requires Inv(db) && Demoted(db, after, holder, c)
    ensures Inv(after)
  {
    assert MemberOk(db, holder);
    UpdateKeepsLinked(db, after, holder, c, after.staff[holder], after.credentials[c]);
    forall a, b | BothSuperAdmins(after, a, b) ensures a == b {
      assert BothSuperAdmins(db, a, b);
    }
  }

  /** The found SuperAdmin credential belongs to the one SuperAdmin of the organization, who is demoted. */
  lemma HandOverDemotes(db: Db, orgId: OrgId, c: CredentialId, staffId: StaffId) returns (holder: StaffId)
    requires Inv(db) && IsSuperAdminCredential(db, orgId, c)
    requires staffId in db.staff && db.staff[staffId].role != SuperAdmin
    ensures Demoted(db, HandOver(db, Some(c), staffId), holder, c) && holder != staffId
    ensures db.staff[holder].orgId == orgId && db.staff[holder].role == SuperAdmin
  {
    holder :| Owns(db, holder, c);
    assert MemberOk(db, holder);
    var after := HandOver(db, Some(c), staffId);
    forall id | id in db.staff && id != holder ensures db.staff[id].userId != Some(c) {
      assert Owns(db, id, c) ==> id == holder;
    }
    assert after.staff == db.staff[holder := db.staff[holder].(role := Admin)];
  }

  function DemotedIn(orgId: OrgId, member: StaffMember): StaffMember {
    if member.orgId == orgId && member.role == SuperAdmin then member.(role := Admin) else member
  }

  /** The organization has no SuperAdmin, and nobody but the former one has changed. */
  ghost predicate Cleared(db: Db, after: Db, orgId: OrgId) {
    && after.staff.Keys == db.staff.Keys
    && forall id :: id in db.staff ==> after.staff[id] == DemotedIn(orgId, db.staff[id])
  }

  lemma HandOverClears(db: Db, orgId: OrgId, found: Option<CredentialId>, staffId: StaffId)
    requires Inv(db) && FindsSuperAdmin(db, orgId, found)
    requires staffId in db.staff && db.staff[staffId].orgId == orgId && db.staff[staffId].role != SuperAdmin
    ensures Inv(HandOver(db, found, staffId)) && Cleared(db, HandOver(db, found, staffId), orgId)
  {
    if found.None? {
      NoneFoundMeansNone(db, orgId);
    } else {
      var after := HandOver(db, found, staffId);
      var holder := HandOverDemotes(db, orgId, found.value, staffId);
      DemoteKeepsInv(db, after, holder, found.value);
      DemoteClears(db, after, holder, found.value);
    }
  }

  lemma DemoteClears(db: Db, after: Db, holder: StaffId, c: CredentialId)
    requires OneSuperAdmin(db) && Demoted(db, after, holder, c) && db.staff[holder].role == SuperAdmin
    ensures Cleared(db, after, db.staff[holder].orgId)
  {
    OnlySuperAdmin(db, holder);
  }

  lemma NoneFoundMeansNone(db: Db, orgId: OrgId)
    requires Linked(db) && FindsSuperAdmin(db, orgId, None)
    ensures forall id :: id in db.staff && db.staff[id].orgId == orgId ==> db.staff[id].role != SuperAdmin
  {
    forall id | id in db.staff && db.staff[id].orgId == orgId ensures db.staff[id].role != SuperAdmin {
      assert MemberOk(db, id);
      assert !IsSuperAdminCredential(db, orgId, db.staff[id].userId.value);
    }
  }

  lemma OnlySuperAdmin(db: Db, holder: StaffId)
    requires OneSuperAdmin(db) && holder in db.staff && db.staff[holder].role == SuperAdmin
    ensures forall id :: id in db.staff && db.staff[id].orgId == db.staff[holder].orgId && id != holder ==>
        db.staff[id].role != SuperAdmin
  {
    forall id | id in db.staff && db.staff[id].orgId == db.staff[holder].orgId && id != holder
      ensures db.staff[id].role != SuperAdmin
    {
      assert !BothSuperAdmins(db, id, holder);
    }
  }

  ghost predicate NoOtherSuperAdmin(db: Db, staffId: StaffId)
    requires staffId in db.staff
  {
    forall id :: id in db.staff && db.staff[id].orgId == db.staff[staffId].orgId && id != staffId ==>
      db.staff[id].role != SuperAdmin
  }

  /** Giving a member whose organization has no other SuperAdmin any role. */
  lemma UpdateKeepsOneSuperAdmin(db: Db, after: Db, staffId: StaffId, member: StaffMember)
    requires OneSuperAdmin(db) && staffId in db.staff && after.staff == db.staff[staffId := member]
    requires member.orgId == db.staff[staffId].orgId
    requires member.role == SuperAdmin ==> NoOtherSuperAdmin(db, staffId)
    ensures OneSuperAdmin(after)
  {
    forall a, b | BothSuperAdmins(after, a, b) ensures a == b {
      assert a != staffId && b != staffId ==> BothSuperAdmins(db, a, b);
    }
  }

  /** The tables after the hand-over step of an edit. */
  function AfterHandOver(db: Db, staffId: StaffId, e: StaffEdit, found: Option<CredentialId>): Db
    requires staffId in db.staff
  {
    if e.role == Some(SuperAdmin) && db.staff[staffId].role != SuperAdmin then HandOver(db, found, staffId) else db
  }

  lemma HandOverKeepsInv(db: Db, orgId: OrgId, staffId: StaffId, e: StaffEdit, found: Option<CredentialId>)
    returns (handed: Db)
    requires Inv(db) && FindsSuperAdmin(db, orgId, found) && staffId in db.staff && db.staff[staffId].orgId == orgId
    ensures handed == AfterHandOver(db, staffId, e, found) && Inv(handed) && staffId in handed.staff
    ensures handed.staff[staffId] == db.staff[staffId]
    ensures e.role == Some(SuperAdmin) ==> NoOtherSuperAdmin(handed, staffId)
    ensures forall id :: id in db.staff && id != staffId ==>
              && id in handed.staff
              && handed.staff[id] == if e.role == Some(SuperAdmin) then DemotedIn(orgId, db.staff[id]) else db.staff[id]
  {
    handed := AfterHandOver(db, staffId, e, found);
    if e.role == Some(SuperAdmin) {
      if db.staff[staffId].role != SuperAdmin {
        HandOverClears(db, orgId, found, staffId);
      } else {
        OnlySuperAdmin(db, staffId);
      }
    }
  }

  /** An accepted edit of a member with a credential, in terms of the tables after the hand-over. */
  lemma EditWrites(db: Db, orgId: OrgId, staffId: StaffId, e: StaffEdit, found: Option<CredentialId>,
                   newCredentialId: CredentialId)
    requires staffId in db.staff && staffId in AfterHandOver(db, staffId, e, found).staff
    requires db.staff[staffId].userId.Some?
    requires EditAccountSpec(db, orgId, staffId, e, found, newCredentialId).1.Done?
    ensures Writes(AfterHandOver(db, staffId, e, found),
                   EditAccountSpec(db, orgId, staffId, e, found, newCredentialId).0,
                   staffId, db.staff[staffId].userId.value, e, db.staff[staffId].role)
  {
  }

  ghost predicate Writes(db: Db, after: Db, staffId: StaffId, c: CredentialId, e: StaffEdit, former: Role) {
    && staffId in db.staff && c in db.credentials
    && after.staff == db.staff[staffId := UpdatedStaff(db.staff[staffId], e)]
    && after.credentials == db.credentials[c := UpdatedCredential(db.credentials[c], former, e)]
  }

  lemma WritesKeepsInv(db: Db, after: Db, staffId: StaffId, c: CredentialId, e: StaffEdit, former: Role)
    requires Inv(db) && Owns(db, staffId, c) && Writes(db, after, staffId, c, e, former)
    requires UpdatedStaff(db.staff[staffId], e).role == SuperAdmin ==> NoOtherSuperAdmin(db, staffId)
    ensures Inv(after)
  {
    assert MemberOk(db, staffId);
    UpdateKeepsLinked(db, after, staffId, c, after.staff[staffId], after.credentials[c]);
    UpdateKeepsOneSuperAdmin(db, after, staffId, after.staff[staffId]);
  }

  lemma EditKeepsInv(db: Db, orgId: OrgId, staffId: StaffId, e: StaffEdit, found: Option<CredentialId>,
                     newCredentialId: CredentialId)
    requires Inv(db) && FindsSuperAdmin(db, orgId, found)
    requires staffId in db.staff && db.staff[staffId].orgId == orgId
    ensures Inv(EditAccountSpec(db, orgId, staffId, e, found, newCredentialId).0)
  {
    assert MemberOk(db, staffId);
    var after := EditAccountSpec(db, orgId, staffId, e, found, newCredentialId).0;
    if EditAccountSpec(db, orgId, staffId, e, found, newCredentialId).1.Done? {
      var handed := HandOverKeepsInv(db, orgId, staffId, e, found);
      EditWrites(db, orgId, staffId, e, found, newCredentialId);
      if handed.staff[staffId].role == SuperAdmin {
        OnlySuperAdmin(handed, staffId);
      }
      WritesKeepsInv(handed, after, staffId, db.staff[staffId].userId.value, e, db.staff[staffId].role);
    }
  }

  // ---------- Runs ----------

  datatype Request =
    | Add(orgId: OrgId, email: string, newStaffId: StaffId, newCredentialId: CredentialId)
    | EditMember(orgId: OrgId, staffId: StaffId, edit: StaffEdit, found: Option<CredentialId>,
                 newCredentialId: CredentialId)
    | Delete(caller: Caller, orgId: OrgId, staffId: StaffId)

  /** A request with fresh identifiers and an answer that the query allows takes `db` to `after`. */
  ghost predicate Step(db: Db, r: Request, after: Db) {
    match r
    case Add(orgId, email, newStaffId, newCredentialId) =>
      newStaffId !in db.staff && newCredentialId !in db.credentials
        && after == AddSpec(db, orgId, email, newStaffId, newCredentialId).0
    case EditMember(orgId, staffId, edit, found, newCredentialId) =>
      newCredentialId !in db.credentials && FindsSuperAdmin(db, orgId, found)
      && exists outcome :: IsEdit(db, after, outcome, orgId, staffId, edit, found, newCredentialId)
    case Delete(caller, orgId, staffId) => after == DeleteSpec(db, caller, orgId, staffId).0
  }

  ghost predicate IsRun(states: seq<Db>, requests: seq<Request>) {
    && |states| == |requests| + 1
    && forall i :: 0 <= i < |requests| ==> Step(states[i], requests[i], states[i + 1])
  }

  lemma StepKeepsInv(db: Db, r: Request, after: Db)
    requires Inv(db) && Step(db, r, after)
    ensures Inv(after)
  {
    match r {
      case Add(orgId, email, newStaffId, newCredentialId) => AddKeepsInv(db, orgId, email, newStaffId, newCredentialId);
      case EditMember(orgId, staffId, edit, found, newCredentialId) =>
        if EditError(db, orgId, staffId, edit).None? {
          EditKeepsInv(db, orgId, staffId, edit, found, newCredentialId);
          OnlyAccountsMatter(EditAccountSpec(db, orgId, staffId, edit, found, newCredentialId).0, after);
        }
      case Delete(caller, orgId, staffId) => DeleteKeepsInv(db, caller, orgId, staffId);
    }
  }

  lemma OnlyAccountsMatter(db: Db, after: Db)
    requires Inv(db) && after.staff == db.staff && after.credentials == db.credentials
    ensures Inv(after)
  {
    forall id | id in after.staff ensures MemberOk(after, id) {
      assert MemberOk(db, id);
    }
    forall id, c ensures Owns(after, id, c) <==> Owns(db, id, c) {
    }
    forall c | c in after.credentials ensures exists id :: Owns(after, id, c) {
      var id :| Owns(db, id, c);
      assert Owns(after, id, c);
    }
    forall a, b | BothSuperAdmins(after, a, b) ensures a == b {
      assert BothSuperAdmins(db, a, b);
    }
  }

  /** In every state of every run from empty tables, each staff member agrees with a credential of
      its own on organization, e-mail and role, and each organization has at most one SuperAdmin. */
  lemma {:induction false} RunKeepsInv(states: seq<Db>, requests: seq<Request>, i: nat)
    requires IsRun(states, requests) && states[0] == Db(map[], map[], map[]) && i < |states|
    ensures Inv(states[i])
  {
    if i > 0 {
      RunKeepsInv(states, requests, i - 1);
      assert Step(states[i - 1], requests[i - 1], states[i - 1 + 1]);
      StepKeepsInv(states[i - 1], requests[i - 1], states[i]);
    }
  }

  /** The working hours that the last accepted edit gave to a member who has not been deleted since. */
  ghost function LastHours(states: seq<Db>, requests: seq<Request>, n: nat, id: StaffId): Option<Edit>
    requires IsRun(states, requests) && n < |states|
  {
    if n == 0 then None
    else
      var db, r := states[n - 1], requests[n - 1];
      match r
      case EditMember(orgId, staffId, edit, found, newCredentialId) =>
        if staffId == id && edit.workingHours.Some? && EditError(db, orgId, staffId, edit).None?
           && EditAccountSpec(db, orgId, staffId, edit, found, newCredentialId).1.Done?
        then edit.workingHours else LastHours(states, requests, n - 1, id)
      case Delete(caller, orgId, staffId) =>
        if staffId == id && DeleteError(db, caller, orgId, staffId).None? then None
          else LastHours(states, requests, n - 1, id)
      case Add(_, _, _, _) => LastHours(states, requests, n - 1, id)
  }

  /** Request validation lets only HH:mm texts through. */
  ghost predicate ValidatedRequest(r: Request) {
    r.EditMember? && r.edit.workingHours.Some? ==>
      IsTime(r.edit.workingHours.value.startsAt) && IsTime(r.edit.workingHours.value.endsAt)
  }

  /** In every run a member has no working hours or exactly one row per weekday, as the last accepted
      edit of the hours demands, and every row starts before it ends. */
  lemma {:induction false} RunKeepsWeeks(states: seq<Db>, requests: seq<Request>, n: nat, id: StaffId)
    requires IsRun(states, requests) && states[0].hours == map[] && n < |states|
    requires forall i :: 0 <= i < |requests| ==> ValidatedRequest(requests[i])
    ensures WeekOk(states[n].hours, id, LastHours(states, requests, n, id))
  {
    if n > 0 {
      var m := n - 1;
      RunKeepsWeeks(states, requests, m, id);
      assert ValidatedRequest(requests[m]) && Step(states[m], requests[m], states[m + 1]);
      WeekStep(states, requests, m, id);
    }
  }

  lemma WeekStep(states: seq<Db>, requests: seq<Request>, m: nat, id: StaffId)
    requires IsRun(states, requests) && m < |requests| && ValidatedRequest(requests[m])
    requires Step(states[m], requests[m], states[m + 1])
    requires WeekOk(states[m].hours, id, LastHours(states, requests, m, id))
    ensures WeekOk(states[m + 1].hours, id, LastHours(states, requests, m + 1, id))
  {
    var db, r, after := states[m], requests[m], states[m + 1];
    var last := LastHours(states, requests, m, id);
    match r {
      case EditMember(orgId, staffId, edit, found, newCredentialId) =>
        if edit.workingHours.Some? && EditError(db, orgId, staffId, edit).None?
           && EditAccountSpec(db, orgId, staffId, edit, found, newCredentialId).1.Done? {
          UpsertKeepsWeekOk(db.hours, after.hours, staffId, edit.workingHours.value, id, last);
        } else {
          assert after.hours == db.hours;
        }
      case Delete(caller, orgId, staffId) =>
        if DeleteError(db, caller, orgId, staffId).None? {
          forall day ensures Row(after.hours, id, day) == if staffId == id then None else Row(db.hours, id, day) {
          }
        }
      case Add(_, _, _, _) =>
        assert after.hours == db.hours;
    }
  }

  /** An accepted edit changes the member as asked, and nobody else except that the former SuperAdmin
      of the organization becomes Admin when the member becomes SuperAdmin. */
  lemma EditChangesOnly(db: Db, orgId: OrgId, staffId: StaffId, e: StaffEdit, found: Option<CredentialId>,
                        newCredentialId: CredentialId, id: StaffId) returns (after: Db)
    requires Inv(db) && FindsSuperAdmin(db, orgId, found)
    requires staffId in db.staff && db.staff[staffId].orgId == orgId && id in db.staff
    requires EditAccountSpec(db, orgId, staffId, e, found, newCredentialId).1.Done?
    ensures after == EditAccountSpec(db, orgId, staffId, e, found, newCredentialId).0 && id in after.staff
    ensures id == staffId ==>
        after.staff[id] == db.staff[id].(email := if e.email.Some? then e.email.value else db.staff[id].email,
                                         role := if e.role.Some? then e.role.value else db.staff[id].role)
    ensures id != staffId ==>
        after.staff[id] == if e.role == Some(SuperAdmin) then DemotedIn(orgId, db.staff[id]) else db.staff[id]
  {
    assert MemberOk(db, staffId);
    after := EditAccountSpec(db, orgId, staffId, e, found, newCredentialId).0;
    var handed := HandOverKeepsInv(db, orgId, staffId, e, found);
    EditWrites(db, orgId, staffId, e, found, newCredentialId);
  }

  /** In a reachable state every member has a credential, so an edit never has to create one. */
  lemma EditNeverLacksCredential(db: Db, orgId: OrgId, staffId: StaffId, e: StaffEdit, found: Option<CredentialId>,
                                 newCredentialId: CredentialId)
    requires Inv(db) && staffId in db.staff
    ensures db.staff[staffId].userId.Some?
    ensures EditAccountSpec(db, orgId, staffId, e, found, newCredentialId).1 != Failed(MissingField)
  {
    assert MemberOk(db, staffId);
  }
}
