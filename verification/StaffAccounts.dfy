/** Staff members and their login credentials: addStaffMember, editStaffMemberDetails and
    deleteStaffMember of src/staff/staff.service.ts.

    `Root` credentials belong to no organization and no staff member; they are not in these tables.
    Each request runs as one step; a request that throws leaves the tables as they were. */
module StaffAccounts {
  import opened Basics
  import opened WorkingHours

  type OrgId = string
  type StaffId = string
  type CredentialId = string

  datatype Role = SuperAdmin | Admin | Staff
  datatype AccountStatus = Active | Disabled

  datatype StaffMember = StaffMember(orgId: OrgId, email: string, role: Role, userId: Option<CredentialId>)
  datatype Credential = Credential(orgId: OrgId, email: string, role: Role, status: AccountStatus)

  datatype Db = Db(staff: map<StaffId, StaffMember>, credentials: map<CredentialId, Credential>, hours: Rows)

  datatype Error = BadRequest | Unauthorized | NotFound | UniqueViolation | MissingField
  datatype Outcome = Done | Failed(error: Error)

  // ---------- Queries ----------

  /** The schema's `@unique` on the e-mail columns, apart from the row to be written. */
  predicate StaffEmailFree(db: Db, email: string, except: StaffId) {
    forall id :: id in db.staff && id != except ==> db.staff[id].email != email
  }

  predicate CredentialEmailFree(db: Db, email: string, except: CredentialId) {
    forall id :: id in db.credentials && id != except ==> db.credentials[id].email != email
  }

  predicate IsSuperAdminCredential(db: Db, orgId: OrgId, id: CredentialId) {
    id in db.credentials && db.credentials[id].orgId == orgId && db.credentials[id].role == SuperAdmin
  }

  /** An answer of `findFirst` for a SuperAdmin credential of the organization. */
  ghost predicate FindsSuperAdmin(db: Db, orgId: OrgId, found: Option<CredentialId>) {
    match found
    case None => forall id :: !IsSuperAdminCredential(db, orgId, id)
    case Some(id) => IsSuperAdminCredential(db, orgId, id)
  }

  // ---------- addStaffMember ----------

  /** `email` is already normalized. */
  function AddSpec(db: Db, orgId: OrgId, email: string, staffId: StaffId, credentialId: CredentialId): (Db, Outcome) {
    if exists id :: id in db.staff && db.staff[id].email == email && db.staff[id].orgId == orgId
      then (db, Failed(BadRequest))
    else if !StaffEmailFree(db, email, staffId) || !CredentialEmailFree(db, email, credentialId) then
      (db, Failed(UniqueViolation))
    else
      (db.(staff := db.staff[staffId := StaffMember(orgId, email, Staff, Some(credentialId))],
           credentials := db.credentials[credentialId := Credential(orgId, email, Staff, Active)]),
       Done)
  }

  // ---------- editStaffMemberDetails ----------

  datatype StaffEdit = StaffEdit(email: Option<string>, role: Option<Role>, workingHours: Option<Edit>)

  function GetOr<T>(o: Option<T>, default: T): T {
    if o.Some? then o.value else default
  }

  /** The staff member of the found credential hands the SuperAdmin role over and becomes Admin. */
  function HandOver(db: Db, found: Option<CredentialId>, staffId: StaffId): Db {
    if found.None? || found.value !in db.credentials then db
    else if exists id :: id in db.staff && db.staff[id].userId == found && id != staffId then
      db.(credentials := db.credentials[found.value := db.credentials[found.value].(role := Admin)],
          staff := map id | id in db.staff ::
            if db.staff[id].userId == found && id != staffId then db.staff[id].(role := Admin) else db.staff[id])
    else db
  }

  function UpdatedStaff(s: StaffMember, e: StaffEdit): StaffMember {
    s.(email := GetOr(e.email, s.email), role := GetOr(e.role, s.role))
  }

  /** Losing all privileges disables the account; becoming Admin from Staff, or SuperAdmin at all, enables it. */
  function UpdatedStatus(former: Role, e: StaffEdit, status: AccountStatus): AccountStatus {
    if (former == Staff && e.role == Some(Admin)) || e.role == Some(SuperAdmin) then Active
    else if former != Staff && e.role == Some(Staff) then Disabled
    else status
  }

  function UpdatedCredential(c: Credential, former: Role, e: StaffEdit): Credential {
    c.(email := GetOr(e.email, c.email), role := GetOr(e.role, c.role), status := UpdatedStatus(former, e, c.status))
  }

  /** Steps 2 to 5 of the transaction, after the working hours. */
  function EditAccountSpec(db: Db, orgId: OrgId, staffId: StaffId, e: StaffEdit,
                           found: Option<CredentialId>, newCredentialId: CredentialId): (Db, Outcome)
    requires staffId in db.staff
  {
    var former := db.staff[staffId];
    var db1 := if e.role == Some(SuperAdmin) && former.role != SuperAdmin then HandOver(db, found, staffId) else db;
    if e.email.Some? && !StaffEmailFree(db1, e.email.value, staffId) then (db, Failed(UniqueViolation))
    else
      var member := if staffId in db1.staff then UpdatedStaff(db1.staff[staffId], e) else UpdatedStaff(former, e);
      if former.userId.Some? then
        if former.userId.value !in db1.credentials then (db, Failed(NotFound))
        else if e.email.Some? && !CredentialEmailFree(db1, e.email.value, former.userId.value) then
          (db, Failed(UniqueViolation))
        else
          var credential := UpdatedCredential(db1.credentials[former.userId.value], former.role, e);
          (db1.(staff := db1.staff[staffId := member],
                credentials := db1.credentials[former.userId.value := credential]), Done)
      else if e.email.None? || e.role.None? then (db, Failed(MissingField))
      else if !CredentialEmailFree(db1, e.email.value, newCredentialId) then (db, Failed(UniqueViolation))
      else
        (db1.(staff := db1.staff[staffId := member.(userId := Some(newCredentialId))],
              credentials := db1.credentials[newCredentialId :=
                               Credential(orgId, e.email.value, e.role.value, Active)]),
         Done)
  }

  function EditError(db: Db, orgId: OrgId, staffId: StaffId, e: StaffEdit): Option<Error> {
    if staffId !in db.staff then Some(NotFound)
    else if db.staff[staffId].orgId != orgId then Some(Unauthorized)
    else if e.workingHours.Some? && !Acceptable(e.workingHours.value) then Some(BadRequest)
    else None
  }

  /** The whole request: nothing is kept unless every step succeeds. */
  ghost predicate IsEdit(db: Db, after: Db, outcome: Outcome, orgId: OrgId, staffId: StaffId, e: StaffEdit,
                         found: Option<CredentialId>, newCredentialId: CredentialId) {
    var error := EditError(db, orgId, staffId, e);
    if error.Some? then after == db && outcome == Failed(error.value)
    else
      var (edited, result) := EditAccountSpec(db, orgId, staffId, e, found, newCredentialId);
      && outcome == result
      && after.staff == edited.staff && after.credentials == edited.credentials
      && if result.Done? && e.workingHours.Some? then IsWeekUpsert(db.hours, after.hours, staffId, e.workingHours.value)
         else after.hours == db.hours
  }

  // ---------- deleteStaffMember ----------

  datatype Caller = RootCaller | SuperAdminCaller | AdminCaller

  function DeleteError(db: Db, caller: Caller, orgId: OrgId, staffId: StaffId): Option<Error> {
    if staffId !in db.staff then Some(NotFound)
    else if !caller.RootCaller? && db.staff[staffId].orgId != orgId then Some(Unauthorized)
    else if caller.SuperAdminCaller? && db.staff[staffId].role == SuperAdmin then Some(Unauthorized)
    else if caller.AdminCaller? && db.staff[staffId].role != Staff then Some(Unauthorized)
    else None
  }

  function DeleteSpec(db: Db, caller: Caller, orgId: OrgId, staffId: StaffId): (Db, Outcome) {
    var error := DeleteError(db, caller, orgId, staffId);
    if error.Some? then (db, Failed(error.value))
    else
      var userId := db.staff[staffId].userId;
      (Db(db.staff - {staffId},
          if userId.Some? then db.credentials - {userId.value} else db.credentials,
          map k | k in db.hours && k.0 != staffId :: db.hours[k]),
       Done)
  }

  // ---------- The service ----------

  class StaffService {
    var staff: map<StaffId, StaffMember>
    var credentials: map<CredentialId, Credential>
    var hours: Rows

    function State(): Db
      reads this
    {
      Db(staff, credentials, hours)
    }

    constructor ()
      ensures State() == Db(map[], map[], map[])
    {
      staff, credentials, hours := map[], map[], map[];
    }

    method AddStaffMember(orgId: OrgId, email: string, staffId: StaffId, credentialId: CredentialId)
      returns (r: Outcome)
      requires staffId !in staff && credentialId !in credentials
      modifies this
      ensures (State(), r) == AddSpec(old(State()), orgId, email, staffId, credentialId)
    {
      if exists id :: id in staff && staff[id].email == email && staff[id].orgId == orgId {
        return Failed(BadRequest);
      }
      if !StaffEmailFree(State(), email, staffId) || !CredentialEmailFree(State(), email, credentialId) {
        return Failed(UniqueViolation);
      }
      staff := staff[staffId := StaffMember(orgId, email, Staff, None)];
      credentials := credentials[credentialId := Credential(orgId, email, Staff, Active)];
      staff := staff[staffId := staff[staffId].(userId := Some(credentialId))];
      assert staff == old(staff)[staffId := StaffMember(orgId, email, Staff, Some(credentialId))];
      r := Done;
    }

    method FindSuperAdmin(orgId: OrgId) returns (found: Option<CredentialId>)
      ensures FindsSuperAdmin(State(), orgId, found)
    {
      if exists id :: id in credentials && IsSuperAdminCredential(State(), orgId, id) {
        var id :| id in credentials && IsSuperAdminCredential(State(), orgId, id);
        return Some(id);
      }
      return None;
    }

    /** Steps 2 to 5 of the transaction, on a copy of the tables that is kept only if they succeed. */
    method EditAccount(orgId: OrgId, staffId: StaffId, e: StaffEdit, existing: Option<CredentialId>,
                       newCredentialId: CredentialId)
      returns (db: Db, r: Outcome)
      requires staffId in staff
      ensures (if r.Done? then db else State(), r)
          == EditAccountSpec(State(), orgId, staffId, e, existing, newCredentialId)
    {
      db := State();
      var former := staff[staffId];
      if e.role == Some(SuperAdmin) && former.role != SuperAdmin {
        db := HandOver(db, existing, staffId);
      }
      if e.email.Some? && !StaffEmailFree(db, e.email.value, staffId) {
        return db, Failed(UniqueViolation);
      }
      var members := db.staff[staffId := UpdatedStaff(db.staff[staffId], e)];
      if former.userId.Some? {
        var id := former.userId.value;
        if id !in db.credentials {
          return db, Failed(NotFound);
        }
        if e.email.Some? && !CredentialEmailFree(db, e.email.value, id) {
          return db, Failed(UniqueViolation);
        }
        return db.(staff := members,
                   credentials := db.credentials[id := UpdatedCredential(db.credentials[id], former.role, e)]), Done;
      }
      if e.email.None? || e.role.None? {
        return db, Failed(MissingField);
      }
      if !CredentialEmailFree(db, e.email.value, newCredentialId) {
        return db, Failed(UniqueViolation);
      }
      members := members[staffId := members[staffId].(userId := Some(newCredentialId))];
      assert members == db.staff[staffId := UpdatedStaff(db.staff[staffId], e).(userId := Some(newCredentialId))];
      db := db.(staff := members,
                credentials := db.credentials[newCredentialId :=
                                 Credential(orgId, e.email.value, e.role.value, Active)]);
      r := Done;
    }

    method EditStaffMemberDetails(orgId: OrgId, staffId: StaffId, e: StaffEdit, newCredentialId: CredentialId)
      returns (r: Outcome, ghost found: Option<CredentialId>)
      requires newCredentialId !in credentials
      modifies this
      ensures FindsSuperAdmin(old(State()), orgId, found)
      ensures IsEdit(old(State()), State(), r, orgId, staffId, e, found, newCredentialId)
    {
      var existing := FindSuperAdmin(orgId);
      found := existing;
      if staffId !in staff {
        return Failed(NotFound), found;
      }
      if staff[staffId].orgId != orgId {
        return Failed(Unauthorized), found;
      }
      var week := hours;
      if e.workingHours.Some? {
        if !LexLess(e.workingHours.value.startsAt, e.workingHours.value.endsAt) || |e.workingHours.value.days| == 0 {
          return Failed(BadRequest), found;
        }
        week := UpsertWeek(hours, staffId, e.workingHours.value);
      }
      var db: Db;
      db, r := EditAccount(orgId, staffId, e, existing, newCredentialId);
      if r.Done? {
        staff, credentials, hours := db.staff, db.credentials, week;
      }
    }

    method DeleteStaffMember(caller: Caller, orgId: OrgId, staffId: StaffId) returns (r: Outcome)
      modifies this
      ensures (State(), r) == DeleteSpec(old(State()), caller, orgId, staffId)
    {
      if staffId !in staff {
        return Failed(NotFound);
      }
      var member := staff[staffId];
      if !caller.RootCaller? && member.orgId != orgId {
        return Failed(Unauthorized);
      }
      match caller {
        case RootCaller =>
        case SuperAdminCaller =>
          if member.role == SuperAdmin {
            return Failed(Unauthorized);
          }
        case AdminCaller =>
          if member.role != Staff {
            return Failed(Unauthorized);
          }
      }
      staff := staff - {staffId};
      hours := map k | k in hours && k.0 != staffId :: hours[k];
      if member.userId.Some? {
        credentials := credentials - {member.userId.value};
      }
      r := Done;
    }
  }
}
