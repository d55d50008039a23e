/** When adding, editing and deleting a staff member succeed, with which error they fail, and what they
    do to the tables of a reachable state: src/staff/staff.service.ts. */
module StaffEffects {
  import opened Basics
  import opened WorkingHours
  import opened StaffAccounts
  import opened StaffRuns

  /** Nobody but the member and the member's credential uses the address. */
  ghost predicate AddressFree(db: Db, email: string, staffId: StaffId, credentialId: CredentialId) {
    && (forall id :: id in db.staff && db.staff[id].email == email ==> id == staffId)
    && (forall c :: c in db.credentials && db.credentials[c].email == email ==> c == credentialId)
  }

  // ---------- addStaffMember ----------

  ghost predicate InOrganization(db: Db, orgId: OrgId, email: string) {
    exists id :: id in db.staff && db.staff[id].orgId == orgId && db.staff[id].email == email
  }

  /** A member is added exactly under an address that nobody uses, as Staff with an active account. */
  lemma AddEffect(db: Db, orgId: OrgId, email: string, staffId: StaffId, credentialId: CredentialId)
    requires staffId !in db.staff && credentialId !in db.credentials
    ensures var (after, outcome) := AddSpec(db, orgId, email, staffId, credentialId);
      if AddressFree(db, email, staffId, credentialId) then
        && outcome == Done && after.hours == db.hours
        && after.staff == db.staff[staffId := StaffMember(orgId, email, Staff, Some(credentialId))]
        && after.credentials == db.credentials[credentialId := Credential(orgId, email, Staff, Active)]
      else
        && after == db
        && outcome == Failed(if InOrganization(db, orgId, email) then BadRequest else UniqueViolation)
  {
  }

  // ---------- editStaffMemberDetails ----------

  ghost predicate IsMemberOf(db: Db, orgId: OrgId, staffId: StaffId) {
    staffId in db.staff && db.staff[staffId].orgId == orgId
  }

  /** Requested working hours start before they end and have a day. */
  ghost predicate HoursFit(e: StaffEdit) {
    e.workingHours.Some? ==>
      LexLess(e.workingHours.value.startsAt, e.workingHours.value.endsAt) && e.workingHours.value.days != []
  }

  /** An edit of a reachable state succeeds exactly for a member of the organization, with hours that fit and
      an address that nobody else uses; otherwise it changes nothing. */
  lemma EditVerdict(db: Db, after: Db, outcome: Outcome, orgId: OrgId, staffId: StaffId, e: StaffEdit,
                    found: Option<CredentialId>, newCredentialId: CredentialId)
    requires Inv(db) && FindsSuperAdmin(db, orgId, found)
    requires IsEdit(db, after, outcome, orgId, staffId, e, found, newCredentialId)
    ensures staffId in db.staff ==> db.staff[staffId].userId.Some?
    ensures outcome ==
              if staffId !in db.staff then Failed(NotFound)
              else if db.staff[staffId].orgId != orgId then Failed(Unauthorized)
              else if !HoursFit(e) then Failed(BadRequest)
              else if e.email.Some? && !AddressFree(db, e.email.value, staffId, db.staff[staffId].userId.value) then
                Failed(UniqueViolation)
              else Done
    ensures outcome != Done ==> after == db
  {
    if IsMemberOf(db, orgId, staffId) {
      assert MemberOk(db, staffId);
      HandOverKeepsAddresses(db, orgId, staffId, e, found);
      if e.email.Some? {
        var handed, own := AfterHandOver(db, staffId, e, found), db.staff[staffId].userId.value;
        AddressFreeIff(db, handed, e.email.value, staffId, own);
      }
    }
  }

  lemma AddressFreeIff(db: Db, handed: Db, email: string, staffId: StaffId, c: CredentialId)
    requires SameAddresses(db, handed)
    ensures AddressFree(db, email, staffId, c)
       <==> StaffEmailFree(handed, email, staffId) && CredentialEmailFree(handed, email, c)
  {
  }

  ghost predicate SameAddresses(db: Db, after: Db) {
    && after.staff.Keys == db.staff.Keys && after.credentials.Keys == db.credentials.Keys
    && (forall id :: id in db.staff ==> after.staff[id].email == db.staff[id].email)
    && (forall c :: c in db.credentials ==> after.credentials[c].email == db.credentials[c].email)
  }

  lemma HandOverKeepsAddresses(db: Db, orgId: OrgId, staffId: StaffId, e: StaffEdit, found: Option<CredentialId>)
    requires Inv(db) && FindsSuperAdmin(db, orgId, found) && IsMemberOf(db, orgId, staffId)
    ensures SameAddresses(db, AfterHandOver(db, staffId, e, found))
  {
  }

  /** The status of an account after its member of role `former` was asked to have role `asked`: becoming
      SuperAdmin, or Admin from Staff, enables it, becoming Staff from either disables it. */
  ghost predicate StatusFollows(former: Role, asked: Option<Role>, before: AccountStatus, after: AccountStatus) {
    match asked
    case Some(SuperAdmin) => after == Active
    case Some(Admin) => after == if former == Staff then Active else before
    case Some(Staff) => after == if former == Staff then before else Disabled
    case None => after == before
  }

  /** An accepted edit gives the member and the member's credential the role and the address that it
      names, and leaves them those that it does not name. */
  lemma EditChangesMember(db: Db, after: Db, orgId: OrgId, staffId: StaffId, e: StaffEdit,
                          found: Option<CredentialId>, newCredentialId: CredentialId)
    requires Inv(db) && FindsSuperAdmin(db, orgId, found)
    requires IsEdit(db, after, Done, orgId, staffId, e, found, newCredentialId)
    ensures IsMemberOf(db, orgId, staffId) && staffId in after.staff
    ensures var s, t := db.staff[staffId], after.staff[staffId];
      && t.orgId == orgId && t.userId == s.userId && s.userId.Some?
      && (e.role.Some? ==> t.role == e.role.value) && (e.role.None? ==> t.role == s.role)
      && (e.email.Some? ==> t.email == e.email.value) && (e.email.None? ==> t.email == s.email)
      && s.userId.value in db.credentials && s.userId.value in after.credentials
      && var before, c := db.credentials[s.userId.value], after.credentials[s.userId.value];
         && c.orgId == orgId && c.role == t.role && c.email == t.email
         && StatusFollows(s.role, e.role, before.status, c.status)
  {
    assert MemberOk(db, staffId);
    var handed := HandOverKeepsInv(db, orgId, staffId, e, found);
    EditWrites(db, orgId, staffId, e, found, newCredentialId);
    OwnCredentialStays(db, orgId, staffId, e, found);
  }

  lemma OwnCredentialStays(db: Db, orgId: OrgId, staffId: StaffId, e: StaffEdit, found: Option<CredentialId>)
    requires Inv(db) && FindsSuperAdmin(db, orgId, found) && IsMemberOf(db, orgId, staffId)
    requires db.staff[staffId].userId.Some? && db.staff[staffId].userId.value in db.credentials
    ensures var c, handed := db.staff[staffId].userId.value, AfterHandOver(db, staffId, e, found);
      c in handed.credentials && handed.credentials[c] == db.credentials[c]
  {
    assert MemberOk(db, staffId);
    OthersCredentials(db, orgId, staffId, e, found, db.staff[staffId].userId.value);
  }

  /** The hand-over makes the one SuperAdmin credential of the organization an Admin credential. */
  lemma OthersCredentials(db: Db, orgId: OrgId, staffId: StaffId, e: StaffEdit, found: Option<CredentialId>,
                          c: CredentialId)
    requires Inv(db) && FindsSuperAdmin(db, orgId, found) && IsMemberOf(db, orgId, staffId) && c in db.credentials
    ensures var handed := AfterHandOver(db, staffId, e, found);
      && c in handed.credentials
      && handed.credentials[c] ==
           if && e.role == Some(SuperAdmin) && db.staff[staffId].role != SuperAdmin
              && db.credentials[c].orgId == orgId && db.credentials[c].role == SuperAdmin
           then db.credentials[c].(role := Admin) else db.credentials[c]
  {
    if e.role == Some(SuperAdmin) && db.staff[staffId].role != SuperAdmin {
      if found.None? {
        assert !IsSuperAdminCredential(db, orgId, c);
      } else {
        var holder := HandOverDemotes(db, orgId, found.value, staffId);
        if IsSuperAdminCredential(db, orgId, c) {
          OwnerIsHolder(db, orgId, holder, c);
        }
      }
    }
  }

  lemma OwnerIsHolder(db: Db, orgId: OrgId, holder: StaffId, c: CredentialId)
    requires Inv(db) && IsMemberOf(db, orgId, holder) && db.staff[holder].role == SuperAdmin
    requires IsSuperAdminCredential(db, orgId, c)
    ensures Owns(db, holder, c)
  {
    var owner :| Owns(db, owner, c);
    assert MemberOk(db, owner);
    assert BothSuperAdmins(db, owner, holder);
  }

  /** Of the rows after the hand-over, an accepted edit writes the member's own two. */
  lemma EditWritesOwnRows(db: Db, after: Db, orgId: OrgId, staffId: StaffId, e: StaffEdit,
                          found: Option<CredentialId>, newCredentialId: CredentialId)
    requires IsEdit(db, after, Done, orgId, staffId, e, found, newCredentialId)
    requires MemberOk(db, staffId) && SameAddresses(db, AfterHandOver(db, staffId, e, found))
    ensures var own, handed := db.staff[staffId].userId.value, AfterHandOver(db, staffId, e, found);
      && staffId in after.staff && own in after.credentials
      && after.staff == handed.staff[staffId := after.staff[staffId]]
      && after.credentials == handed.credentials[own := after.credentials[own]]
  {
    EditWrites(db, orgId, staffId, e, found, newCredentialId);
  }

  /** It changes nobody else, except that the former SuperAdmin of the organization becomes Admin when
      the edited member becomes SuperAdmin. */
  lemma EditKeepsOthers(db: Db, after: Db, orgId: OrgId, staffId: StaffId, e: StaffEdit,
                        found: Option<CredentialId>, newCredentialId: CredentialId, id: StaffId)
    requires Inv(db) && FindsSuperAdmin(db, orgId, found)
    requires IsEdit(db, after, Done, orgId, staffId, e, found, newCredentialId)
    ensures after.staff.Keys == db.staff.Keys
    ensures id in db.staff && id != staffId ==>
        after.staff[id] ==
          if e.role == Some(SuperAdmin) && db.staff[id].orgId == orgId && db.staff[id].role == SuperAdmin
          then db.staff[id].(role := Admin) else db.staff[id]
  {
    assert MemberOk(db, staffId);
    HandOverKeepsAddresses(db, orgId, staffId, e, found);
    EditWritesOwnRows(db, after, orgId, staffId, e, found, newCredentialId);
    if id in db.staff && id != staffId {
      OthersAfterHandOver(db, orgId, staffId, e, found, id);
    }
  }

  lemma OthersAfterHandOver(db: Db, orgId: OrgId, staffId: StaffId, e: StaffEdit, found: Option<CredentialId>,
                            id: StaffId)
    requires Inv(db) && FindsSuperAdmin(db, orgId, found) && IsMemberOf(db, orgId, staffId)
    requires id in db.staff && id != staffId
    ensures var handed := AfterHandOver(db, staffId, e, found);
      && id in handed.staff
      && handed.staff[id] ==
           if e.role == Some(SuperAdmin) && db.staff[id].orgId == orgId && db.staff[id].role == SuperAdmin
           then db.staff[id].(role := Admin) else db.staff[id]
  {
    var handed := HandOverKeepsInv(db, orgId, staffId, e, found);
  }

  /** Nor does it change any other account, except that of the former SuperAdmin. */
  lemma EditKeepsOtherAccounts(db: Db, after: Db, orgId: OrgId, staffId: StaffId, e: StaffEdit,
                               found: Option<CredentialId>, newCredentialId: CredentialId, c: CredentialId)
    requires Inv(db) && FindsSuperAdmin(db, orgId, found)
    requires IsEdit(db, after, Done, orgId, staffId, e, found, newCredentialId)
    ensures staffId in db.staff && after.credentials.Keys == db.credentials.Keys
    ensures c in db.credentials && db.staff[staffId].userId != Some(c) ==>
        after.credentials[c] ==
          if e.role == Some(SuperAdmin) && db.credentials[c].orgId == orgId && db.credentials[c].role == SuperAdmin
          then db.credentials[c].(role := Admin) else db.credentials[c]
  {
    assert MemberOk(db, staffId);
    HandOverKeepsAddresses(db, orgId, staffId, e, found);
    EditWritesOwnRows(db, after, orgId, staffId, e, found, newCredentialId);
    if c in db.credentials && db.staff[staffId].userId != Some(c) {
      OthersCredentials(db, orgId, staffId, e, found, c);
      if IsSuperAdminCredential(db, orgId, c) && db.staff[staffId].role == SuperAdmin {
        OwnerIsHolder(db, orgId, staffId, c);
      }
    }
  }

  /** After a member was made SuperAdmin, the member is the one SuperAdmin of the organization, in both
      tables. */
  lemma OneSuperAdminAfterwards(db: Db, after: Db, orgId: OrgId, staffId: StaffId, e: StaffEdit,
                                found: Option<CredentialId>, newCredentialId: CredentialId)
    requires Inv(db) && FindsSuperAdmin(db, orgId, found) && e.role == Some(SuperAdmin)
    requires IsEdit(db, after, Done, orgId, staffId, e, found, newCredentialId)
    ensures forall id :: id in after.staff && after.staff[id].orgId == orgId ==>
              (after.staff[id].role == SuperAdmin <==> id == staffId)
    ensures forall c :: c in after.credentials && after.credentials[c].orgId == orgId && staffId in after.staff ==>
              (after.credentials[c].role == SuperAdmin <==> after.staff[staffId].userId == Some(c))
  {
    EditChangesMember(db, after, orgId, staffId, e, found, newCredentialId);
    forall id | id in after.staff && after.staff[id].orgId == orgId
      ensures after.staff[id].role == SuperAdmin <==> id == staffId
    {
      EditKeepsOthers(db, after, orgId, staffId, e, found, newCredentialId, id);
    }
    forall c | c in after.credentials && after.credentials[c].orgId == orgId
      ensures after.credentials[c].role == SuperAdmin <==> after.staff[staffId].userId == Some(c)
    {
      EditKeepsOtherAccounts(db, after, orgId, staffId, e, found, newCredentialId, c);
    }
  }

  /** Only the hours of the member change, and only if the edit names hours. */
  lemma EditChangesHours(db: Db, after: Db, orgId: OrgId, staffId: StaffId, e: StaffEdit,
                         found: Option<CredentialId>, newCredentialId: CredentialId, owner: OwnerId, day: Weekday)
    requires IsEdit(db, after, Done, orgId, staffId, e, found, newCredentialId)
    ensures Row(after.hours, owner, day) ==
              if owner != staffId || e.workingHours.None? then Row(db.hours, owner, day)
              else if day in e.workingHours.value.days then
                Some(Hours(e.workingHours.value.startsAt, e.workingHours.value.endsAt, false))
              else if (owner, day) in db.hours then Some(db.hours[(owner, day)].(isClosed := true))
              else Some(Hours("09:00", "18:00", true))
  {
  }

  // ---------- deleteStaffMember ----------

  /** Root may delete anybody, a SuperAdmin the organization's Admins and Staff, an Admin its Staff. */
  ghost predicate MayDelete(caller: Caller, orgId: OrgId, s: StaffMember) {
    match caller
    case RootCaller => true
    case SuperAdminCaller => s.orgId == orgId && s.role in {Admin, Staff}
    case AdminCaller => s.orgId == orgId && s.role == Staff
  }

  /** A member is deleted exactly by a caller who may, with the credential and the working hours, and
      nobody else is. */
  lemma DeleteEffect(db: Db, caller: Caller, orgId: OrgId, staffId: StaffId)
    requires Inv(db)
    ensures var (after, outcome) := DeleteSpec(db, caller, orgId, staffId);
      if staffId in db.staff && MayDelete(caller, orgId, db.staff[staffId]) then
        && outcome == Done
        && after.staff.Keys == db.staff.Keys - {staffId}
        && (forall id :: id in after.staff ==> after.staff[id] == db.staff[id])
        && (forall c :: c in after.credentials <==> c in db.credentials && !Owns(db, staffId, c))
        && (forall c :: c in after.credentials ==> after.credentials[c] == db.credentials[c])
        && (forall owner, day :: Row(after.hours, owner, day) ==
              if owner == staffId then None else Row(db.hours, owner, day))
      else after == db && outcome == Failed(if staffId in db.staff then Unauthorized else NotFound)
  {
    assert staffId in db.staff ==> MemberOk(db, staffId);
  }

  // ---------- Runs ----------

  ghost predicate PrivilegedAreActive(db: Db) {
    forall c :: c in db.credentials && db.credentials[c].role != Staff ==> db.credentials[c].status == Active
  }

  lemma EditKeepsPrivilegedActive(db: Db, after: Db, orgId: OrgId, staffId: StaffId, e: StaffEdit,
                                  found: Option<CredentialId>, newCredentialId: CredentialId)
    requires Inv(db) && FindsSuperAdmin(db, orgId, found) && PrivilegedAreActive(db)
    requires IsEdit(db, after, Done, orgId, staffId, e, found, newCredentialId)
    ensures PrivilegedAreActive(after)
  {
    EditChangesMember(db, after, orgId, staffId, e, found, newCredentialId);
    assert MemberOk(db, staffId);
    forall c | c in after.credentials && after.credentials[c].role != Staff
      ensures after.credentials[c].status == Active
    {
      EditKeepsOtherAccounts(db, after, orgId, staffId, e, found, newCredentialId, c);
    }
  }

  /** In every state of every run from empty tables, the account of each SuperAdmin and Admin is active. */
  lemma {:induction false} RunKeepsPrivilegedActive(states: seq<Db>, requests: seq<Request>, i: nat)
    requires IsRun(states, requests) && states[0] == Db(map[], map[], map[]) && i < |states|
    ensures PrivilegedAreActive(states[i])
  {
    if i > 0 {
      RunKeepsPrivilegedActive(states, requests, i - 1);
      RunKeepsInv(states, requests, i - 1);
      assert Step(states[i - 1], requests[i - 1], states[i - 1 + 1]);
      StepKeepsPrivilegedActive(states[i - 1], requests[i - 1], states[i]);
    }
  }

  lemma StepKeepsPrivilegedActive(db: Db, r: Request, after: Db)
    requires Inv(db) && PrivilegedAreActive(db) && Step(db, r, after)
    ensures PrivilegedAreActive(after)
  {
    match r {
      case Add(orgId, email, newStaffId, newCredentialId) => AddEffect(db, orgId, email, newStaffId, newCredentialId);
      case EditMember(orgId, staffId, edit, found, newCredentialId) =>
        var outcome :| IsEdit(db, after, outcome, orgId, staffId, edit, found, newCredentialId);
        EditVerdict(db, after, outcome, orgId, staffId, edit, found, newCredentialId);
        if outcome == Done {
          EditKeepsPrivilegedActive(db, after, orgId, staffId, edit, found, newCredentialId);
        }
      case Delete(caller, orgId, staffId) => DeleteEffect(db, caller, orgId, staffId);
    }
  }
}
