/** Which tokens the guard accepts after an arbitrary run of kiosk requests. */
module SystemRuns {
  import opened Basics
  import opened SystemSessions

  datatype Request =
    | CreateOrganization(newOrgId: OrgId, limit: nat)
    | EditLimit(orgId: OrgId, limit: nat)
    | Register(orgId: OrgId, email: string, id: SystemId)
    | Login(email: string, found: Option<SystemId>, passwordOk: bool, sessionId: SessionId, refresh: RefreshToken,
            now: int)
    | Refresh(token: RefreshToken, newToken: RefreshToken, now: int)
    | Logout(orgId: OrgId, id: SystemId)
    | LogoutWeb(id: SystemId)
    | LogoutAll(orgId: OrgId)
    | Delete(id: SystemId)

  function Apply(db: Db, r: Request): (Db, Result) {
    match r
    case CreateOrganization(orgId, limit) => CreateOrganizationSpec(db, orgId, limit)
    case EditLimit(orgId, limit) => EditLimitSpec(db, orgId, limit)
    case Register(orgId, email, id) => RegisterSpec(db, orgId, email, id)
    case Login(_, found, passwordOk, sessionId, refresh, now) =>
      LoginSpec(db, found, passwordOk, sessionId, refresh, now)
    case Refresh(token, newToken, now) => RefreshSpec(db, token, newToken, now)
    case Logout(orgId, id) => LogoutSpec(db, orgId, id)
    case LogoutWeb(id) => LogoutWebSpec(db, id)
    case LogoutAll(orgId) => LogoutAllSpec(db, orgId)
    case Delete(id) => DeleteSpec(db, id)
  }

  /** Generated identifiers are new and not empty, and a lookup answers what the table says. */
  ghost predicate Feasible(db: Db, r: Request) {
    match r
    case CreateOrganization(orgId, _) => orgId !in db.limits
    case Register(_, _, id) => id !in db.accounts && id != ""
    case Login(email, found, _, sessionId, refresh, _) =>
      FindsEmail(db, email, found) && sessionId != "" && refresh !in db.refreshTokens
    case Refresh(_, newToken, _) => newToken !in db.refreshTokens
    case _ => true
  }

  ghost predicate IsRun(states: seq<Db>, requests: seq<Request>) {
    && |states| == |requests| + 1
    && states[0] == Db(map[], map[], map[])
    && forall i :: 0 <= i < |requests| ==>
        Feasible(states[i], requests[i]) && states[i + 1] == Apply(states[i], requests[i]).0
  }

  // ---------- What every request keeps ----------

  predicate AccountOk(account: Account) {
    (account.status == LoggedIn <==> account.sessionId.Some?)
      && (account.sessionId.Some? ==> account.sessionId.value != "")
  }

  ghost predicate AccountsOk(db: Db) {
    forall id :: id in db.accounts ==> id != "" && AccountOk(db.accounts[id]) && db.accounts[id].orgId in db.limits
  }

  ghost predicate EmailsUnique(db: Db) {
    forall a, b :: a in db.accounts && b in db.accounts && db.accounts[a].email == db.accounts[b].email ==> a == b
  }

  ghost predicate TokensOwned(db: Db) {
    forall t :: t in db.refreshTokens && db.refreshTokens[t].systemId.Some? ==>
      db.refreshTokens[t].systemId.value in db.accounts
  }

  /** A session id is stored exactly for logged-in accounts; e-mails are unique; accounts belong to
      organizations and their refresh tokens to accounts that exist. */
  ghost predicate Inv(db: Db) {
    AccountsOk(db) && EmailsUnique(db) && TokensOwned(db)
  }

  lemma StepKeepsEmailsUnique(db: Db, r: Request)
    requires EmailsUnique(db) && Feasible(db, r)
    ensures EmailsUnique(Apply(db, r).0)
  {
  }

  lemma StepKeepsInv(db: Db, r: Request)
    requires Inv(db) && Feasible(db, r)
    ensures Inv(Apply(db, r).0)
  {
    StepKeepsEmailsUnique(db, r);
  }

  lemma {:induction false} RunKeepsInv(states: seq<Db>, requests: seq<Request>, n: nat)
    requires IsRun(states, requests) && n < |states|
    ensures Inv(states[n])
  {
    if n > 0 {
      RunKeepsInv(states, requests, n - 1);
      assert states[n - 1 + 1] == Apply(states[n - 1], requests[n - 1]).0;
      StepKeepsInv(states[n - 1], requests[n - 1]);
    }
  }

  // ---------- Sessions as seen from the history of requests ----------

  predicate Opens(db: Db, r: Request, id: SystemId, k: SessionId) {
    r.Login? && r.found == Some(id) && r.sessionId == k && Apply(db, r).1.Issued?
  }

  /** A granted logout, of whatever kind, or the deletion of the account. */
  predicate Ends(db: Db, r: Request, id: SystemId) {
    && Apply(db, r).1.Done?
    && match r
       case Logout(_, target) => target == id
       case LogoutWeb(target) => target == id
       case LogoutAll(orgId) => id in db.accounts && db.accounts[id].orgId == orgId
       case Delete(target) => target == id
       case _ => false
  }

  /** The login at step `i` opened session `k`, and nothing has ended it before step `n`. */
  ghost predicate OpenSince(states: seq<Db>, requests: seq<Request>, i: nat, n: nat, id: SystemId, k: SessionId)
    requires |states| == |requests| + 1 && n < |states|
  {
    i < n && Opens(states[i], requests[i], id, k) && forall j :: i < j < n ==> !Ends(states[j], requests[j], id)
  }

  ghost predicate Live(states: seq<Db>, requests: seq<Request>, n: nat, id: SystemId, k: SessionId)
    requires |states| == |requests| + 1 && n < |states|
  {
    exists i :: OpenSince(states, requests, i, n, id, k)
  }

  function SessionOf(db: Db, id: SystemId): Option<SessionId> {
    if id in db.accounts then db.accounts[id].sessionId else None
  }

  lemma StepSession(db: Db, r: Request, id: SystemId)
    requires Inv(db) && Feasible(db, r)
    ensures r.Login? && Opens(db, r, id, r.sessionId) ==>
              SessionOf(db, id) == None && SessionOf(Apply(db, r).0, id) == Some(r.sessionId)
    ensures Ends(db, r, id) ==> SessionOf(Apply(db, r).0, id) == None
    ensures !(r.Login? && Opens(db, r, id, r.sessionId)) && !Ends(db, r, id) ==>
        SessionOf(Apply(db, r).0, id) == SessionOf(db, id)
  {
    assert id in db.accounts ==> AccountOk(db.accounts[id]);
  }

  /** The stored session is the one that the history says is open. */
  lemma {:induction false} StoredIffLive(states: seq<Db>, requests: seq<Request>, n: nat, id: SystemId, k: SessionId)
    requires IsRun(states, requests) && n < |states|
    ensures SessionOf(states[n], id) == Some(k) <==> Live(states, requests, n, id, k)
  {
    if n > 0 {
      var m := n - 1;
      var db, r := states[m], requests[m];
      StoredIffLive(states, requests, m, id, k);
      RunKeepsInv(states, requests, m);
      assert Feasible(db, r) && states[m + 1] == Apply(db, r).0;
      StepSession(db, r, id);
      LiveStep(states, requests, m, id, k);
    }
  }

  lemma LiveStep(states: seq<Db>, requests: seq<Request>, m: nat, id: SystemId, k: SessionId)
    requires |states| == |requests| + 1 && m < |requests|
    ensures Live(states, requests, m + 1, id, k) <==>
              Opens(states[m], requests[m], id, k)
                || (Live(states, requests, m, id, k) && !Ends(states[m], requests[m], id))
  {
    if Opens(states[m], requests[m], id, k) {
      assert OpenSince(states, requests, m, m + 1, id, k);
    }
    if Live(states, requests, m, id, k) && !Ends(states[m], requests[m], id) {
      var i: nat :| OpenSince(states, requests, i, m, id, k);
      assert OpenSince(states, requests, i, m + 1, id, k);
    }
    if Live(states, requests, m + 1, id, k) {
      var i: nat :| OpenSince(states, requests, i, m + 1, id, k);
      assert i < m ==> OpenSince(states, requests, i, m, id, k);
    }
  }

  // ---------- What the guard accepts ----------

  /** A kiosk token is accepted exactly while the login that opened its session is not followed by
      a logout, a logout of all, a logout from the dashboard or the deletion of the account. */
  lemma AcceptedIffLive(states: seq<Db>, requests: seq<Request>, n: nat, token: Token)
    requires IsRun(states, requests) && n < |states|
    requires token.Payload? && Truthy(token.systemId)
    ensures Accepts(states[n], token) <==>
              token.sessionId.Some? && Live(states, requests, n, token.systemId.value, token.sessionId.value)
  {
    RunKeepsInv(states, requests, n);
    if token.sessionId.Some? {
      StoredIffLive(states, requests, n, token.systemId.value, token.sessionId.value);
      assert token.systemId.value in states[n].accounts ==> AccountOk(states[n].accounts[token.systemId.value]);
    }
  }

  /** At no time is more than one session of an account open, although logins and logouts of all kinds mix. */
  lemma OneLiveSession(states: seq<Db>, requests: seq<Request>, n: nat, id: SystemId, k: SessionId, l: SessionId)
    requires IsRun(states, requests) && n < |states|
    requires Live(states, requests, n, id, k) && Live(states, requests, n, id, l)
    ensures k == l
  {
    StoredIffLive(states, requests, n, id, k);
    StoredIffLive(states, requests, n, id, l);
  }

  /** No two logins of the run drew the same session id. */
  ghost predicate FreshSessions(requests: seq<Request>) {
    forall i, j :: 0 <= i < j < |requests| && requests[i].Login? && requests[j].Login? ==>
      requests[i].sessionId != requests[j].sessionId
  }

  /** The token of a login is dead for good once the account was logged out, even after later logins. */
  lemma LogoutIsFinal(states: seq<Db>, requests: seq<Request>, i: nat, j: nat, n: nat, id: SystemId)
    requires IsRun(states, requests) && FreshSessions(requests) && i < j < n < |states|
    requires requests[i].Login? && Opens(states[i], requests[i], id, requests[i].sessionId)
    requires Ends(states[j], requests[j], id)
    ensures Apply(states[i], requests[i]).1.access.systemId == Some(id)
    ensures !Accepts(states[n], Apply(states[i], requests[i]).1.access)
  {
    var k := requests[i].sessionId;
    var token := Apply(states[i], requests[i]).1.access;
    RunKeepsInv(states, requests, i);
    AcceptedIffLive(states, requests, n, token);
    forall p: nat ensures !OpenSince(states, requests, p, n, id, k) {
      assert p < n && Opens(states[p], requests[p], id, k) ==> p == i;
    }
  }

  /** While the account stays logged in, the token that its login issued is the one accepted. */
  lemma LoginTokenLives(states: seq<Db>, requests: seq<Request>, i: nat, n: nat, id: SystemId)
    requires IsRun(states, requests) && i < n < |states|
    requires requests[i].Login? && OpenSince(states, requests, i, n, id, requests[i].sessionId)
    ensures Apply(states[i], requests[i]).1.Issued? && Accepts(states[n], Apply(states[i], requests[i]).1.access)
    ensures forall email, ok, k, t, now ::
              Apply(states[n], Login(email, Some(id), ok, k, t, now)).1 == Failed(Unauthorized)
  {
    RunKeepsInv(states, requests, i);
    RunKeepsInv(states, requests, n);
    var token := Apply(states[i], requests[i]).1.access;
    AcceptedIffLive(states, requests, n, token);
  }

  /** A refreshed access token carries no session: the guard accepts it in no state at all. */
  lemma RefreshedTokenIsRefused(db: Db, token: RefreshToken, newToken: RefreshToken, now: int, later: Db)
    requires RefreshSpec(db, token, newToken, now).1.Issued?
    ensures !Accepts(later, RefreshSpec(db, token, newToken, now).1.access)
  {
    assert !Truthy(RefreshSpec(db, token, newToken, now).1.access.sessionId);
  }

  // ---------- Refresh tokens and the account limit ----------

  ghost predicate HasRefreshToken(db: Db, id: SystemId) {
    exists t :: t in db.refreshTokens && db.refreshTokens[t].systemId == Some(id)
  }

  /** Ending a session drops the account's refresh tokens, except from the dashboard, which keeps
      them. A logout of all touches the tokens of the active accounts only. */
  lemma TokensAfterEnd(db: Db, r: Request, id: SystemId)
    requires Inv(db) && Ends(db, r, id)
    ensures HasRefreshToken(Apply(db, r).0, id) <==>
              HasRefreshToken(db, id) && (r.LogoutWeb? || (r.LogoutAll? && db.accounts[id].status == LoggedOut))
  {
    var after := Apply(db, r).0;
    if HasRefreshToken(db, id) && (r.LogoutWeb? || (r.LogoutAll? && db.accounts[id].status == LoggedOut)) {
      var t :| t in db.refreshTokens && db.refreshTokens[t].systemId == Some(id);
      assert t in after.refreshTokens && after.refreshTokens[t].systemId == Some(id);
    }
  }

  ghost predicate WithinLimits(db: Db) {
    forall orgId :: orgId in db.limits ==> |AccountsOf(db, orgId)| <= db.limits[orgId]
  }

  lemma StepKeepsWithinLimits(db: Db, r: Request)
    requires Inv(db) && WithinLimits(db) && Feasible(db, r)
    ensures WithinLimits(Apply(db, r).0)
  {
    var after := Apply(db, r).0;
    forall orgId | orgId in after.limits ensures |AccountsOf(after, orgId)| <= after.limits[orgId] {
      AccountsStep(db, r, orgId);
      if r.CreateOrganization? && r.newOrgId == orgId {
        assert AccountsOf(db, orgId) == {};
      }
    }
  }

  /** No request but a registration within the limit adds an account. */
  lemma AccountsStep(db: Db, r: Request, orgId: OrgId)
    ensures |AccountsOf(Apply(db, r).0, orgId)| <= |AccountsOf(db, orgId)|
         || (&& r.Register? && r.orgId == orgId && orgId in db.limits
             && |AccountsOf(db, orgId)| < db.limits[orgId]
             && |AccountsOf(Apply(db, r).0, orgId)| <= |AccountsOf(db, orgId)| + 1)
  {
    var before, after := AccountsOf(db, orgId), AccountsOf(Apply(db, r).0, orgId);
    if r.Register? && r.orgId == orgId && Apply(db, r).1.Done? {
      assert after <= before + {r.id};
      SubsetSize(after, before + {r.id});
    } else if after <= before {
      SubsetSize(after, before);
    }
  }

  /** In every run, with any edits of the limits, no organization ever has more accounts than its
      limit at that moment. */
  lemma {:induction false} AccountLimitHolds(states: seq<Db>, requests: seq<Request>, n: nat)
    requires IsRun(states, requests) && n < |states|
    ensures WithinLimits(states[n])
  {
    if n > 0 {
      var m := n - 1;
      AccountLimitHolds(states, requests, m);
      RunKeepsInv(states, requests, m);
      assert Feasible(states[m], requests[m]) && states[m + 1] == Apply(states[m], requests[m]).0;
      StepKeepsWithinLimits(states[m], requests[m]);
    }
  }

  /** A limit is accepted exactly if the organization exists and the limit can be kept. */
  lemma LimitAcceptedIff(db: Db, orgId: OrgId, limit: nat)
    requires WithinLimits(db)
    ensures EditLimitSpec(db, orgId, limit).1.Done?
       <==> orgId in db.limits && WithinLimits(db.(limits := db.limits[orgId := limit]))
  {
    var edited := db.(limits := db.limits[orgId := limit]);
    forall other ensures AccountsOf(edited, other) == AccountsOf(db, other) {
    }
    assert orgId in edited.limits;
  }
}
