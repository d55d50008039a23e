/** Kiosk accounts and their sessions: src/system/system.service.ts and the guard of
    src/guard/auth.guard.ts, with the account limit of src/organization/organization.service.ts.

    An access token is the payload that the guard reads back from it: signing and checking a token
    are not modelled. Session ids, refresh tokens and account ids are values that the request
    brings with it. Times are in milliseconds. */
module SystemSessions {
  import opened Basics

  type OrgId = string
  type SystemId = string
  type SessionId = string
  type RefreshToken = string

  datatype ActivityStatus = LoggedIn | LoggedOut

  datatype Account = Account(orgId: OrgId, email: string, status: ActivityStatus, sessionId: Option<SessionId>)

  /** A refresh token of another kind of user has no `systemId`. */
  datatype RefreshRow = RefreshRow(systemId: Option<SystemId>, expiryDate: int)

  /** `limits` holds the account limit of each organization. */
  datatype Db = Db(limits: map<OrgId, nat>, accounts: map<SystemId, Account>,
                   refreshTokens: map<RefreshToken, RefreshRow>)

  /** What checking a bearer token yields. */
  datatype Token =
    | Expired
    | Malformed
    | Payload(orgId: Option<OrgId>, userId: Option<string>, systemId: Option<SystemId>, sessionId: Option<SessionId>)

  datatype Error = NotFound | Unauthorized | BadRequest
  datatype Result = Done | Issued(access: Token, refresh: RefreshToken) | Failed(error: Error)

  const REFRESH_LIFETIME := 30 * 24 * 60 * 60 * 1000

  // ---------- Queries ----------

  ghost predicate FindsEmail(db: Db, email: string, found: Option<SystemId>) {
    match found
    case None => forall id :: id in db.accounts ==> db.accounts[id].email != email
    case Some(id) => id in db.accounts && db.accounts[id].email == email
  }

  predicate ActiveIn(db: Db, orgId: OrgId, id: SystemId) {
    id in db.accounts && db.accounts[id].orgId == orgId && db.accounts[id].status == LoggedIn
  }

  function AccountsOf(db: Db, orgId: OrgId): set<SystemId> {
    set id | id in db.accounts && db.accounts[id].orgId == orgId
  }

  // ---------- Requests ----------

  /** The limit of a new organization. */
  function CreateOrganizationSpec(db: Db, orgId: OrgId, limit: nat): (Db, Result) {
    (db.(limits := db.limits[orgId := limit]), Done)
  }

  /** A limit below the present number of accounts is refused. */
  function EditLimitSpec(db: Db, orgId: OrgId, limit: nat): (Db, Result) {
    if orgId !in db.limits then (db, Failed(NotFound))
    else if |AccountsOf(db, orgId)| > limit then (db, Failed(BadRequest))
    else (db.(limits := db.limits[orgId := limit]), Done)
  }

  /** `email` is already normalized. */
  function RegisterSpec(db: Db, orgId: OrgId, email: string, id: SystemId): (Db, Result) {
    if orgId !in db.limits then (db, Failed(BadRequest))
    else if |AccountsOf(db, orgId)| >= db.limits[orgId] then (db, Failed(BadRequest))
    else if exists other :: other in db.accounts && db.accounts[other].email == email then (db, Failed(BadRequest))
    else (db.(accounts := db.accounts[id := Account(orgId, email, LoggedOut, None)]), Done)
  }

  function LoginSpec(db: Db, found: Option<SystemId>, passwordOk: bool, sessionId: SessionId, refresh: RefreshToken,
                     now: int): (Db, Result) {
    if found.None? || found.value !in db.accounts then (db, Failed(NotFound))
    else
      var account := db.accounts[found.value];
      if !passwordOk then (db, Failed(Unauthorized))
      else if account.status == LoggedIn then (db, Failed(Unauthorized))
      else
        (Db(db.limits,
            db.accounts[found.value := account.(status := LoggedIn, sessionId := Some(sessionId))],
            db.refreshTokens[refresh := RefreshRow(found, now + REFRESH_LIFETIME)]),
         Issued(Payload(Some(account.orgId), None, found, Some(sessionId)), refresh))
  }

  /** The new access token names the account, but no session. */
  function RefreshSpec(db: Db, token: RefreshToken, newToken: RefreshToken, now: int): (Db, Result) {
    if token !in db.refreshTokens || db.refreshTokens[token].expiryDate < now then (db, Failed(NotFound))
    else
      var row := db.refreshTokens[token];
      var known := row.systemId.Some? && row.systemId.value in db.accounts;
      (db.(refreshTokens := (db.refreshTokens - {token})[newToken := row.(expiryDate := now + REFRESH_LIFETIME)]),
       Issued(Payload(if known then Some(db.accounts[row.systemId.value].orgId) else None, None,
                      if known then row.systemId else None, None),
              newToken))
  }

  function EndSession(account: Account): Account {
    account.(status := LoggedOut, sessionId := None)
  }

  predicate IsTokenOf(row: RefreshRow, ids: set<SystemId>) {
    row.systemId.Some? && row.systemId.value in ids
  }

  function TokensExcept(db: Db, ids: set<SystemId>): map<RefreshToken, RefreshRow> {
    map t | t in db.refreshTokens && !IsTokenOf(db.refreshTokens[t], ids) :: db.refreshTokens[t]
  }

  function LogoutSpec(db: Db, orgId: OrgId, id: SystemId): (Db, Result) {
    if id !in db.accounts then (db, Failed(BadRequest))
    else if db.accounts[id].orgId != orgId then (db, Failed(Unauthorized))
    else if db.accounts[id].status != LoggedIn then (db, Failed(BadRequest))
    else (Db(db.limits, db.accounts[id := EndSession(db.accounts[id])], TokensExcept(db, {id})), Done)
  }

  /** The logout from the dashboard leaves the refresh tokens where they are. */
  function LogoutWebSpec(db: Db, id: SystemId): (Db, Result) {
    if id !in db.accounts then (db, Failed(NotFound))
    else if db.accounts[id].status == LoggedOut then (db, Failed(BadRequest))
    else (db.(accounts := db.accounts[id := EndSession(db.accounts[id])]), Done)
  }

  function LogoutAllSpec(db: Db, orgId: OrgId): (Db, Result) {
    var active := set id | id in db.accounts && ActiveIn(db, orgId, id);
    if active == {} then (db, Failed(NotFound))
    else
      (Db(db.limits,
          map id | id in db.accounts ::
            if ActiveIn(db, orgId, id) then EndSession(db.accounts[id]) else db.accounts[id],
          TokensExcept(db, active)),
       Done)
  }

  function DeleteSpec(db: Db, id: SystemId): (Db, Result) {
    if id !in db.accounts then (db, Failed(NotFound))
    else (Db(db.limits, db.accounts - {id}, TokensExcept(db, {id})), Done)
  }

  // ---------- The guard ----------

  /** What the guard writes on the request. */
  datatype Context = Context(orgId: Option<OrgId>, userId: Option<string>, systemId: Option<SystemId>,
                             sessionId: Option<SessionId>)

  /** An absent field and an empty one are treated alike. */
  predicate Truthy(o: Option<string>) {
    o.Some? && o.value != ""
  }

  /** The account is logged in, and `sessionId` is its session. */
  predicate IsLiveSession(db: Db, id: SystemId, sessionId: Option<SessionId>) {
    id in db.accounts && db.accounts[id].status == LoggedIn && Truthy(sessionId)
      && db.accounts[id].sessionId == sessionId
  }

  predicate Accepts(db: Db, token: Token) {
    && token.Payload?
    && (Truthy(token.systemId) || Truthy(token.userId))
    && (Truthy(token.systemId) ==> IsLiveSession(db, token.systemId.value, token.sessionId))
  }

  // ---------- The service ----------

  class SystemService {
    var limits: map<OrgId, nat>
    var accounts: map<SystemId, Account>
    var refreshTokens: map<RefreshToken, RefreshRow>

    function State(): Db
      reads this
    {
      Db(limits, accounts, refreshTokens)
    }

    constructor ()
      ensures State() == Db(map[], map[], map[])
    {
      limits, accounts, refreshTokens := map[], map[], map[];
    }

    /** What createOrganization does to the tables of this service. */
    method CreateOrganization(orgId: OrgId, limit: nat) returns (r: Result)
      requires orgId !in limits
      modifies this`limits
      ensures (State(), r) == CreateOrganizationSpec(old(State()), orgId, limit)
    {
      limits := limits[orgId := limit];
      r := Done;
    }

    /** The account limit part of editOrganizationDetails. */
    method EditAccountLimit(orgId: OrgId, limit: nat) returns (r: Result)
      modifies this`limits
      ensures (State(), r) == EditLimitSpec(old(State()), orgId, limit)
    {
      if orgId !in limits {
        return Failed(NotFound);
      }
      var systemAccountCount := |AccountsOf(State(), orgId)|;
      if systemAccountCount > limit {
        return Failed(BadRequest);
      }
      limits := limits[orgId := limit];
      r := Done;
    }

    method RegisterSystemUser(orgId: OrgId, email: string, id: SystemId) returns (r: Result)
      requires id !in accounts
      modifies this`accounts
      ensures (State(), r) == RegisterSpec(old(State()), orgId, email, id)
    {
      if orgId !in limits {
        return Failed(BadRequest);
      }
      if |AccountsOf(State(), orgId)| >= limits[orgId] {
        return Failed(BadRequest);
      }
      if exists other :: other in accounts && accounts[other].email == email {
        return Failed(BadRequest);
      }
      accounts := accounts[id := Account(orgId, email, LoggedOut, None)];
      r := Done;
    }

    method FindUnique(email: string) returns (found: Option<SystemId>)
      ensures FindsEmail(State(), email, found)
    {
      if exists id :: id in accounts && accounts[id].email == email {
        var id :| id in accounts && accounts[id].email == email;
        return Some(id);
      }
      return None;
    }

    method LoginSystemUser(email: string, passwordOk: bool, sessionId: SessionId, refresh: RefreshToken, now: int)
      returns (r: Result, ghost found: Option<SystemId>)
      requires refresh !in refreshTokens
      modifies this`accounts, this`refreshTokens
      ensures FindsEmail(old(State()), email, found)
      ensures (State(), r) == LoginSpec(old(State()), found, passwordOk, sessionId, refresh, now)
    {
      var existing := FindUnique(email);
      found := existing;
      if existing.None? {
        return Failed(NotFound), found;
      }
      var id := existing.value;
      if !passwordOk {
        return Failed(Unauthorized), found;
      }
      if accounts[id].status == LoggedIn {
        return Failed(Unauthorized), found;
      }
      var access := Payload(Some(accounts[id].orgId), None, Some(id), Some(sessionId));
      refreshTokens := refreshTokens[refresh := RefreshRow(Some(id), now + REFRESH_LIFETIME)];
      accounts := accounts[id := accounts[id].(status := LoggedIn, sessionId := Some(sessionId))];
      r := Issued(access, refresh);
    }

    method RefreshSystemAccessToken(token: RefreshToken, newToken: RefreshToken, now: int) returns (r: Result)
      requires newToken !in refreshTokens
      modifies this`refreshTokens
      ensures (State(), r) == RefreshSpec(old(State()), token, newToken, now)
    {
      if token !in refreshTokens || !(refreshTokens[token].expiryDate >= now) {
        return Failed(NotFound);
      }
      var row := refreshTokens[token];
      var access := Payload(None, None, None, None);
      if row.systemId.Some? && row.systemId.value in accounts {
        access := Payload(Some(accounts[row.systemId.value].orgId), None, row.systemId, None);
      }
      refreshTokens := (refreshTokens - {token})[newToken := row.(expiryDate := now + REFRESH_LIFETIME)];
      r := Issued(access, newToken);
    }

    method LogoutSystemAccount(orgId: OrgId, id: SystemId) returns (r: Result)
      modifies this`accounts, this`refreshTokens
      ensures (State(), r) == LogoutSpec(old(State()), orgId, id)
    {
      if id !in accounts {
        return Failed(BadRequest);
      }
      if accounts[id].orgId != orgId {
        return Failed(Unauthorized);
      }
      if accounts[id].status != LoggedIn {
        return Failed(BadRequest);
      }
      accounts := accounts[id := accounts[id].(status := LoggedOut, sessionId := None)];
      refreshTokens := TokensExcept(State(), {id});
      r := Done;
    }

    method LogoutSystemAccountWeb(id: SystemId) returns (r: Result)
      modifies this`accounts
      ensures (State(), r) == LogoutWebSpec(old(State()), id)
    {
      if id !in accounts {
        return Failed(NotFound);
      }
      if accounts[id].status == LoggedOut {
        return Failed(BadRequest);
      }
      accounts := accounts[id := accounts[id].(status := LoggedOut, sessionId := None)];
      r := Done;
    }

    method LogoutAllSystemAccounts(orgId: OrgId) returns (r: Result)
      modifies this`accounts, this`refreshTokens
      ensures (State(), r) == LogoutAllSpec(old(State()), orgId)
    {
      var active := set id | id in accounts && ActiveIn(State(), orgId, id);
      if active == {} {
        return Failed(NotFound);
      }
      assert active == set id | id in old(State()).accounts && ActiveIn(old(State()), orgId, id);
      refreshTokens := TokensExcept(State(), active);
      accounts := map id | id in accounts ::
        if accounts[id].orgId == orgId && accounts[id].status == LoggedIn then
          accounts[id].(status := LoggedOut, sessionId := None)
        else accounts[id];
      assert accounts == LogoutAllSpec(old(State()), orgId).0.accounts;
      r := Done;
    }

    method DeleteSystemAccount(id: SystemId) returns (r: Result)
      modifies this`accounts, this`refreshTokens
      ensures (State(), r) == DeleteSpec(old(State()), id)
    {
      if id !in accounts {
        return Failed(NotFound);
      }
      refreshTokens := TokensExcept(State(), {id});
      accounts := accounts - {id};
      r := Done;
    }

    /** The context is None when the guard throws, which it does as Unauthorized in every case. */
    method CanActivate(token: Token) returns (context: Option<Context>)
      ensures context.Some? <==> Accepts(State(), token)
      ensures context.Some? && Truthy(token.systemId) ==>
                context.value.systemId == token.systemId && context.value.sessionId == token.sessionId
      ensures context.Some? && !Truthy(token.systemId) ==>
          context.value.systemId == None && context.value.sessionId == None
      ensures context.Some? ==> context.value.userId == (if Truthy(token.userId) then token.userId else None)
      ensures context.Some? ==> context.value.orgId == token.orgId
    {
      if !token.Payload? {
        return None;
      }
      var request := Context(None, None, None, None);
      if Truthy(token.systemId) {
        var id := token.systemId.value;
        if id !in accounts {
          return None;
        }
        if accounts[id].status != LoggedIn {
          return None;
        }
        if !Truthy(accounts[id].sessionId) || !Truthy(token.sessionId) || accounts[id].sessionId != token.sessionId {
          return None;
        }
        request := request.(systemId := token.systemId, sessionId := token.sessionId);
      }
      if Truthy(token.userId) {
        request := request.(userId := token.userId);
      }
      request := request.(orgId := token.orgId);
      if !Truthy(token.systemId) && !Truthy(token.userId) {
        return None;
      }
      return Some(request);
    }
  }
}
