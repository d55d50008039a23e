/** When each kiosk request succeeds, with which error it fails and what it does to the tables, who opened
    a session, and how long a refresh token lasts: src/system/system.service.ts,
    src/guard/auth.guard.ts and src/organization/organization.service.ts. */
module SystemEffects {
  import opened Basics
  import opened SystemSessions
  import opened SystemRuns

  // ---------- Organizations and accounts ----------

  ghost predicate AddressUsed(db: Db, email: string) {
    exists id :: id in db.accounts && db.accounts[id].email == email
  }

  ghost function InOrganization(db: Db, orgId: OrgId): set<SystemId> {
    set id | id in db.accounts && db.accounts[id].orgId == orgId
  }

  lemma LimitEffects(db: Db, orgId: OrgId, limit: nat)
    ensures CreateOrganizationSpec(db, orgId, limit) == (db.(limits := db.limits[orgId := limit]), Done)
    ensures EditLimitSpec(db, orgId, limit) ==
              if orgId in db.limits && |InOrganization(db, orgId)| <= limit then
                (db.(limits := db.limits[orgId := limit]), Done)
              else (db, Failed(if orgId in db.limits then BadRequest else NotFound))
  {
    assert InOrganization(db, orgId) == AccountsOf(db, orgId);
  }

  /** An account is registered exactly below the limit of its organization, under an unused address, and
      logged out. */
  lemma RegisterEffect(db: Db, orgId: OrgId, email: string, id: SystemId)
    ensures RegisterSpec(db, orgId, email, id) ==
              if && orgId in db.limits && |InOrganization(db, orgId)| < db.limits[orgId]
                 && !AddressUsed(db, email) then
                (db.(accounts := db.accounts[id := Account(orgId, email, LoggedOut, None)]), Done)
              else (db, Failed(BadRequest))
  {
    assert InOrganization(db, orgId) == AccountsOf(db, orgId);
  }

  // ---------- Sessions ----------

  /** The account can be logged in: the address is its, the password is right and it is logged out. */
  ghost predicate MayLogin(db: Db, email: string, passwordOk: bool, id: SystemId) {
    id in db.accounts && db.accounts[id].email == email && passwordOk && db.accounts[id].status == LoggedOut
  }

  /** A login is issued exactly if an account has the address, the password is right and the account is
      logged out. It opens the session, and its refresh token lasts 30 days. */
  lemma LoginEffect(db: Db, email: string, found: Option<SystemId>, passwordOk: bool, sessionId: SessionId,
                    refresh: RefreshToken, now: int)
    requires EmailsUnique(db) && FindsEmail(db, email, found)
    ensures var (after, result) := LoginSpec(db, found, passwordOk, sessionId, refresh, now);
      if exists id :: MayLogin(db, email, passwordOk, id) then
        && found.Some? && MayLogin(db, email, passwordOk, found.value)
        && var a := db.accounts[found.value];
           && after.limits == db.limits
           && after.accounts == db.accounts[found.value := Account(a.orgId, a.email, LoggedIn, Some(sessionId))]
           && after.refreshTokens == db.refreshTokens[refresh := RefreshRow(found, now + 2592000000)]
           && result == Issued(Payload(Some(a.orgId), None, found, Some(sessionId)), refresh)
      else after == db && result == Failed(if AddressUsed(db, email) then Unauthorized else NotFound)
  {
    if found.Some? {
      assert AddressUsed(db, email);
      assert passwordOk && db.accounts[found.value].status != LoggedIn ==> MayLogin(db, email, passwordOk, found.value);
    }
  }

  /** The account without its session. */
  ghost predicate LogsOut(before: Account, after: Account) {
    after == Account(before.orgId, before.email, LoggedOut, None)
  }

  /** Exactly the refresh tokens of the accounts are gone. */
  ghost predicate DropsTokens(db: Db, after: Db, ids: set<SystemId>) {
    && (forall t :: t in after.refreshTokens <==>
          t in db.refreshTokens && forall id :: id in ids ==> db.refreshTokens[t].systemId != Some(id))
    && (forall t :: t in after.refreshTokens ==> after.refreshTokens[t] == db.refreshTokens[t])
  }

  lemma DroppedTokens(db: Db, ids: set<SystemId>)
    ensures DropsTokens(db, db.(refreshTokens := TokensExcept(db, ids)), ids)
  {
  }

  ghost predicate IsLoggedIn(db: Db, id: SystemId) {
    id in db.accounts && db.accounts[id].status == LoggedIn
  }

  /** A kiosk is logged out exactly by its own organization while it is logged in. */
  lemma LogoutEffect(db: Db, orgId: OrgId, id: SystemId)
    ensures var (after, result) := LogoutSpec(db, orgId, id);
      if IsLoggedIn(db, id) && db.accounts[id].orgId == orgId then
        && result == Done && after.limits == db.limits && id in after.accounts
        && LogsOut(db.accounts[id], after.accounts[id])
        && after.accounts == db.accounts[id := after.accounts[id]]
        && DropsTokens(db, after, {id})
      else
        && after == db
        && result == Failed(if id in db.accounts && db.accounts[id].orgId != orgId then Unauthorized else BadRequest)
  {
    DroppedTokens(db, {id});
  }

  lemma LogoutWebEffect(db: Db, id: SystemId)
    ensures var (after, result) := LogoutWebSpec(db, id);
      if IsLoggedIn(db, id) then
        && result == Done && after.limits == db.limits && after.refreshTokens == db.refreshTokens
        && id in after.accounts && LogsOut(db.accounts[id], after.accounts[id])
        && after.accounts == db.accounts[id := after.accounts[id]]
      else after == db && result == Failed(if id in db.accounts then BadRequest else NotFound)
  {
  }

  ghost function LoggedInOf(db: Db, orgId: OrgId): set<SystemId> {
    set id | id in db.accounts && IsLoggedIn(db, id) && db.accounts[id].orgId == orgId
  }

  /** A logout of all succeeds exactly if an account of the organization is logged in, and logs out each. */
  lemma LogoutAllEffect(db: Db, orgId: OrgId)
    ensures var (after, result) := LogoutAllSpec(db, orgId);
      var active := LoggedInOf(db, orgId);
      if active != {} then
        && result == Done && after.limits == db.limits && after.accounts.Keys == db.accounts.Keys
        && (forall id :: id in active ==> LogsOut(db.accounts[id], after.accounts[id]))
        && (forall id :: id in db.accounts && id !in active ==> after.accounts[id] == db.accounts[id])
        && DropsTokens(db, after, active)
      else after == db && result == Failed(NotFound)
  {
    var active := LoggedInOf(db, orgId);
    assert active == set id | id in db.accounts && ActiveIn(db, orgId, id);
    DroppedTokens(db, active);
  }

  lemma DeleteEffect(db: Db, id: SystemId)
    ensures var (after, result) := DeleteSpec(db, id);
      if id in db.accounts then
        && result == Done && after.limits == db.limits && after.accounts == db.accounts - {id}
        && DropsTokens(db, after, {id})
      else after == db && result == Failed(NotFound)
  {
    DroppedTokens(db, {id});
  }

  // ---------- The guard ----------

  ghost predicate IsText(o: Option<string>) {
    o != None && o != Some("")
  }

  /** A token is accepted exactly if it is valid and names an account or a user, and the account it names,
      if any, is logged in with the session of the token. */
  lemma AcceptsIff(db: Db, token: Token)
    ensures Accepts(db, token) <==>
              && token.Payload? && (IsText(token.systemId) || IsText(token.userId))
              && (IsText(token.systemId) ==>
                    && IsText(token.sessionId) && IsLoggedIn(db, token.systemId.value)
                    && db.accounts[token.systemId.value].sessionId == token.sessionId)
  {
  }

  // ---------- Who opened a session ----------

  /** At step `i` the account was logged out and a login with its address and the right password drew
      session `k`. */
  ghost predicate LoggedInAt(states: seq<Db>, requests: seq<Request>, i: nat, id: SystemId, k: SessionId)
    requires |states| == |requests| + 1 && i < |requests|
  {
    && requests[i].Login? && requests[i].sessionId == k
    && MayLogin(states[i], requests[i].email, requests[i].passwordOk, id)
  }

  /** The request ends the session of the account. */
  ghost predicate Closes(db: Db, r: Request, id: SystemId) {
    && id in db.accounts
    && match r
       case Logout(orgId, target) => target == id && db.accounts[id].orgId == orgId && IsLoggedIn(db, id)
       case LogoutWeb(target) => target == id && IsLoggedIn(db, id)
       case LogoutAll(orgId) => db.accounts[id].orgId == orgId && IsLoggedIn(db, id)
       case Delete(target) => target == id
       case _ => false
  }

  lemma OpensIff(db: Db, r: Request, id: SystemId, k: SessionId)
    requires EmailsUnique(db) && Feasible(db, r)
    ensures Opens(db, r, id, k) <==> r.Login? && r.sessionId == k && MayLogin(db, r.email, r.passwordOk, id)
  {
    if r.Login? {
      LoginEffect(db, r.email, r.found, r.passwordOk, r.sessionId, r.refresh, r.now);
    }
  }

  lemma ClosesEnds(db: Db, r: Request, id: SystemId)
    requires Closes(db, r, id)
    ensures Ends(db, r, id)
  {
    match r {
      case Logout(orgId, target) => LogoutEffect(db, orgId, target);
      case LogoutWeb(target) => LogoutWebEffect(db, target);
      case LogoutAll(orgId) =>
        LogoutAllEffect(db, orgId);
        assert id in LoggedInOf(db, orgId);
      case Delete(target) => DeleteEffect(db, target);
      case _ =>
    }
  }

  lemma EndsCloses(db: Db, r: Request, id: SystemId)
    requires Ends(db, r, id) && IsLoggedIn(db, id)
    ensures Closes(db, r, id)
  {
    match r {
      case Logout(orgId, target) => LogoutEffect(db, orgId, target);
      case LogoutWeb(target) => LogoutWebEffect(db, target);
      case LogoutAll(_) =>
      case Delete(target) =>
      case _ =>
    }
  }

  /** Session `k` was opened by the login at step `i`, and nothing has ended it before step `n`. */
  ghost predicate OpenFrom(states: seq<Db>, requests: seq<Request>, i: nat, n: nat, id: SystemId, k: SessionId)
    requires |states| == |requests| + 1 && n < |states|
  {
    && i < n && LoggedInAt(states, requests, i, id, k)
    && forall j :: i < j < n ==> !Closes(states[j], requests[j], id)
  }

  ghost predicate IsOpen(states: seq<Db>, requests: seq<Request>, n: nat, id: SystemId, k: SessionId)
    requires |states| == |requests| + 1 && n < |states|
  {
    exists i :: OpenFrom(states, requests, i, n, id, k)
  }

  /** A session stored at any step of a run is one that a login with the right password opened, and that
      nothing has ended since. */
  lemma {:induction false} StoredIffOpen(states: seq<Db>, requests: seq<Request>, n: nat, id: SystemId, k: SessionId)
    requires IsRun(states, requests) && n < |states|
    ensures SessionOf(states[n], id) == Some(k) <==> IsOpen(states, requests, n, id, k)
  {
    if n > 0 {
      var m := n - 1;
      StoredIffOpen(states, requests, m, id, k);
      RunKeepsInv(states, requests, m);
      assert Feasible(states[m], requests[m]) && states[m + 1] == SystemRuns.Apply(states[m], requests[m]).0;
      SessionStep(states[m], requests[m], id, k);
      OpenStep(states, requests, m, id, k);
    }
  }

  /** What one request makes of the stored session. */
  lemma SessionStep(db: Db, r: Request, id: SystemId, k: SessionId)
    requires Inv(db) && Feasible(db, r)
    ensures SessionOf(SystemRuns.Apply(db, r).0, id) == Some(k) <==>
              || (r.Login? && r.sessionId == k && MayLogin(db, r.email, r.passwordOk, id))
              || (SessionOf(db, id) == Some(k) && !Closes(db, r, id))
  {
    StepSession(db, r, id);
    OpensIff(db, r, id, k);
    if r.Login? {
      OpensIff(db, r, id, r.sessionId);
    }
    if Closes(db, r, id) {
      ClosesEnds(db, r, id);
    }
    if Ends(db, r, id) && SessionOf(db, id) == Some(k) {
      assert AccountOk(db.accounts[id]);
      EndsCloses(db, r, id);
    }
  }

  lemma OpenStep(states: seq<Db>, requests: seq<Request>, m: nat, id: SystemId, k: SessionId)
    requires |states| == |requests| + 1 && m < |requests|
    ensures IsOpen(states, requests, m + 1, id, k) <==>
              LoggedInAt(states, requests, m, id, k)
                || (IsOpen(states, requests, m, id, k) && !Closes(states[m], requests[m], id))
  {
    if LoggedInAt(states, requests, m, id, k) {
      assert OpenFrom(states, requests, m, m + 1, id, k);
    }
    if IsOpen(states, requests, m, id, k) && !Closes(states[m], requests[m], id) {
      var i: nat :| OpenFrom(states, requests, i, m, id, k);
      assert OpenFrom(states, requests, i, m + 1, id, k);
    }
    if IsOpen(states, requests, m + 1, id, k) {
      var i: nat :| OpenFrom(states, requests, i, m + 1, id, k);
      assert i < m ==> OpenFrom(states, requests, i, m, id, k);
    }
  }

  /** At every step of a run, a kiosk token is accepted exactly if it is the token of a session that a login
      with the account's address and the right password opened and nothing has ended since. */
  lemma AcceptedIffOpen(states: seq<Db>, requests: seq<Request>, n: nat, token: Token)
    requires IsRun(states, requests) && n < |states|
    requires token.Payload? && IsText(token.systemId)
    ensures Accepts(states[n], token) <==>
              token.sessionId.Some? && IsOpen(states, requests, n, token.systemId.value, token.sessionId.value)
  {
    AcceptedIffLive(states, requests, n, token);
    if token.sessionId.Some? {
      StoredIffLive(states, requests, n, token.systemId.value, token.sessionId.value);
      StoredIffOpen(states, requests, n, token.systemId.value, token.sessionId.value);
    }
  }

  // ---------- Refresh tokens ----------

  /** The payload that a refresh issues names the account of the row, and no session. */
  ghost function RefreshedPayload(db: Db, id: Option<SystemId>): Token {
    if id.Some? && id.value in db.accounts then Payload(Some(db.accounts[id.value].orgId), None, id, None)
    else Payload(None, None, None, None)
  }

  /** A stored token is refreshed exactly until its expiry, which moves to 30 days later, and replaced. */
  lemma RefreshEffect(db: Db, token: RefreshToken, newToken: RefreshToken, now: int)
    requires newToken !in db.refreshTokens
    ensures var (after, result) := RefreshSpec(db, token, newToken, now);
      if token in db.refreshTokens && now <= db.refreshTokens[token].expiryDate then
        && after.limits == db.limits && after.accounts == db.accounts
        && after.refreshTokens.Keys == db.refreshTokens.Keys - {token} + {newToken}
        && after.refreshTokens[newToken] == RefreshRow(db.refreshTokens[token].systemId, now + 2592000000)
        && (forall t :: t in db.refreshTokens && t != token ==> after.refreshTokens[t] == db.refreshTokens[t])
        && result == Issued(RefreshedPayload(db, db.refreshTokens[token].systemId), newToken)
      else after == db && result == Failed(NotFound)
  {
  }

  /** When the token was issued, by a login or by the refresh of another. */
  ghost function IssuedAt(states: seq<Db>, requests: seq<Request>, n: nat, t: RefreshToken): Option<int>
    requires |states| == |requests| + 1 && n < |states|
  {
    if n == 0 then None
    else
      var r := requests[n - 1];
      if !SystemRuns.Apply(states[n - 1], r).1.Issued? then IssuedAt(states, requests, n - 1, t)
      else if r.Login? && r.refresh == t then Some(r.now)
      else if r.Refresh? && r.newToken == t then Some(r.now)
      else IssuedAt(states, requests, n - 1, t)
  }

  /** In every run each stored token expires 30 days after it was issued. */
  lemma {:induction false} ExpiresAfterThirtyDays(states: seq<Db>, requests: seq<Request>, n: nat, t: RefreshToken)
    requires IsRun(states, requests) && n < |states| && t in states[n].refreshTokens
    ensures IssuedAt(states, requests, n, t).Some?
    ensures states[n].refreshTokens[t].expiryDate == IssuedAt(states, requests, n, t).value + 2592000000
  {
    if n > 0 {
      var m := n - 1;
      var db, r := states[m], requests[m];
      assert Feasible(db, r) && states[m + 1] == SystemRuns.Apply(db, r).0;
      RunKeepsInv(states, requests, m);
      ExpiryStep(db, r, t);
      if t in db.refreshTokens {
        ExpiresAfterThirtyDays(states, requests, m, t);
      }
    }
  }

  lemma ExpiryStep(db: Db, r: Request, t: RefreshToken)
    requires Inv(db) && Feasible(db, r) && t in SystemRuns.Apply(db, r).0.refreshTokens
    ensures var (after, result) := SystemRuns.Apply(db, r);
      if result.Issued? && r.Login? && r.refresh == t then after.refreshTokens[t].expiryDate == r.now + 2592000000
      else if result.Issued? && r.Refresh? && r.newToken == t then
        after.refreshTokens[t].expiryDate == r.now + 2592000000
      else t in db.refreshTokens && after.refreshTokens[t] == db.refreshTokens[t]
  {
    match r {
      case Login(email, found, ok, k, refresh, now) => LoginEffect(db, email, found, ok, k, refresh, now);
      case Refresh(token, newToken, now) => RefreshEffect(db, token, newToken, now);
      case _ =>
    }
  }

  /** So a token is refreshed exactly up to 30 days after it was issued, as long as it is stored. */
  lemma RefreshedIffInTime(states: seq<Db>, requests: seq<Request>, n: nat, token: RefreshToken,
                           newToken: RefreshToken, now: int)
    requires IsRun(states, requests) && n < |states|
    ensures RefreshSpec(states[n], token, newToken, now).1.Issued? <==>
              && token in states[n].refreshTokens && IssuedAt(states, requests, n, token).Some?
              && now <= IssuedAt(states, requests, n, token).value + 2592000000
  {
    if token in states[n].refreshTokens {
      ExpiresAfterThirtyDays(states, requests, n, token);
    }
  }
}
