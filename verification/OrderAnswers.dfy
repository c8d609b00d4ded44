/**
  What every request of a signed-in user is answered and what it leaves behind,
  in terms of the stored rows alone: who gets past the session check, what an
  order needs to go through, and which rows it changes.
*/
module OrderAnswers {
  import opened Options
  import opened Clock
  import opened Counting
  import opened AccessTables
  import opened AttemptLog
  import opened AccessSpec
  import opened LoginAnswers
  import opened FactorChecks

  // ---- the session check ----

  predicate Carries(env: Env, s: Session, cookie: string) {
    !s.purged && s.tokenHash == env.hash(cookie)
  }

  /** The cookie names session `i`, which is live, of an account that is neither disabled nor locked. */
  predicate Opens(env: Env, c: Core, at: Time, cookie: string, i: nat) {
    && cookie != "" && i < |c.sessions| && Carries(env, c.sessions[i], cookie)
    && (forall j :: 0 <= j < i ==> !Carries(env, c.sessions[j], cookie))
    && c.sessions[i].revoked.None? && at < c.sessions[i].expires && at < c.sessions[i].idleExpires
    && c.sessions[i].user < |c.users|
    && c.users[c.sessions[i].user].status != Disabled && c.users[c.sessions[i].user].status != Locked
  }

  /** A use is recorded once a minute, and moves the idle deadline, never past the end of the session. */
  predicate Refreshed(env: Env, s: Session, t: Session, at: Time) {
    if at < s.lastSeen + 60 * SECOND then t == s
    else t == s.(lastSeen := at, idleExpires := if at + env.idle < s.expires then at + env.idle else s.expires)
  }

  lemma FoundCarries(env: Env, c: Core, cookie: string, i: nat)
    ensures FindSession(c.sessions, env.hash(cookie)) == Some(i) <==>
            i < |c.sessions| && Carries(env, c.sessions[i], cookie) && forall j :: 0 <= j < i ==> !Carries(env, c.sessions[j], cookie)
  {
    hide FindSession;
    var r := FindSession(c.sessions, env.hash(cookie));
    assert forall j :: 0 <= j < |c.sessions| ==> (Bears(c.sessions[j], env.hash(cookie)) <==> Carries(env, c.sessions[j], cookie));
  }

  /** Exactly the live session of an account that is not barred is entered; an expired one is revoked; nothing else is touched. */
  lemma GateIsExact(env: Env, c: Core, at: Time, cookie: string, i: nat)
    ensures var (c1, entered) := Lookup(env, c, at, cookie);
            && (entered == Some(i) <==> Opens(env, c, at, cookie, i))
            && c1 == c.(sessions := c1.sessions) && |c1.sessions| == |c.sessions|
            && (Opens(env, c, at, cookie, i) ==> Refreshed(env, c.sessions[i], c1.sessions[i], at))
            && (forall j :: 0 <= j < |c.sessions| && entered != Some(j) ==>
                  || c1.sessions[j] == c.sessions[j]
                  || (c.sessions[j].revoked.None? && (c.sessions[j].expires <= at || c.sessions[j].idleExpires <= at)
                      && c1.sessions[j] == c.sessions[j].(revoked := Some(Revocation(at, "expired")))))
  {
    hide FindSession;
    FoundCarries(env, c, cookie, i);
    var found := FindSession(c.sessions, env.hash(cookie));
    if found.Some? { FoundCarries(env, c, cookie, found.value); }
  }

  function CookieOf(call: Call): string
    requires call.Signed? || call.Manage? || call.Retain?
  {
    match call
    case Signed(cookie, _, _) => cookie
    case Manage(cookie, _, _, _) => cookie
    case Retain(cookie, _, _) => cookie
  }

  /** Without a live session, or without permission, a request is refused and changes nothing but what looking the session up does. */
  lemma ClosedGate(env: Env, w: World, req: Request)
    requires req.call.Signed? || req.call.Manage? || req.call.Retain?
    ensures var (c1, entered) := Lookup(env, w.core, req.at, CookieOf(req.call));
            && (entered.None? ==> Next(env, w, req) == Step(w.(core := c1), Refused(401), NoFactor))
            && (entered.Some? && !req.call.permitted ==> Next(env, w, req) == Step(w.(core := c1), Refused(403), NoFactor))
  {
    hide Lookup;
  }

  // ---- revoking ----

  predicate NowRevoked(s: Session, t: Session, at: Time, reason: string) {
    t == if s.revoked.Some? then s else s.(revoked := Some(Revocation(at, reason)))
  }

  /** Exactly the sessions of `user`, apart from `spare`, are revoked. */
  ghost predicate UserRevoked(before: seq<Session>, after: seq<Session>, user: nat, at: Time, reason: string, spare: Option<nat>) {
    && |after| == |before|
    && (forall i :: 0 <= i < |before| && before[i].user == user && spare != Some(i) ==> NowRevoked(before[i], after[i], at, reason))
    && (forall i :: 0 <= i < |before| && (before[i].user != user || spare == Some(i)) ==> after[i] == before[i])
  }

  lemma RevokeAllIsExact(ss: seq<Session>, user: nat, at: Time, reason: string, spare: Option<nat>)
    ensures UserRevoked(ss, RevokeAll(ss, user, at, reason, spare), user, at, reason, spare)
  {
  }

  /** Exactly session `i` is revoked. */
  ghost predicate OneRevoked(before: seq<Session>, after: seq<Session>, i: nat, at: Time, reason: string) {
    && |after| == |before| && i < |before| && NowRevoked(before[i], after[i], at, reason)
    && forall j :: 0 <= j < |before| && j != i ==> after[j] == before[j]
  }

  // ---- the user's own sessions and password ----

  /** Logging out, logging out everywhere, changing the password, and deleting a session of one's own. */
  lemma OwnActionIsExact(env: Env, w: World, req: Request, current: nat, me: nat)
    requires ComesFrom(env, w, req, current, me) && req.call.action.Own?
    ensures var (c, s, own) := (Admitted(env, w, req), Next(env, w, req), req.call.action.own);
            var (c1, a) := (s.world.core, w.core.users[me]);
            && s.world.log == w.log && c1 == c.(users := c1.users, sessions := c1.sessions)
            && (!s.outcome.Done? ==> c1 == c)
            && match own {
                 case Browse => s.outcome.Done? && c1 == c
                 case Logout =>
                   (s.outcome.Done? <==> !c.sessions[current].purged)
                   && (s.outcome.Done? ==> c1.users == c.users && OneRevoked(c.sessions, c1.sessions, current, req.at, "logout"))
                 case LogoutAll(preserve) =>
                   s.outcome.Done? && c1.users == c.users
                   && UserRevoked(c.sessions, c1.sessions, me, req.at, "logout_all", if preserve then Some(current) else None)
                 case ChangePassword(oldText, newHash, policyOk) =>
                   && (s.outcome.Done? <==> env.verifyPassword(a.passwordHash, oldText) && policyOk)
                   && (s.outcome.Done? ==>
                         && |c1.users| == |c.users| && (forall u :: 0 <= u < |c.users| && u != me ==> c1.users[u] == c.users[u])
                         && c1.users[me] == a.(passwordHash := newHash, mustChange := false,
                                               status := if a.status in {Disabled, PendingApproval, Rejected} then a.status else Active)
                         && UserRevoked(c.sessions, c1.sessions, me, req.at, "password_changed", Some(current)))
                 case DeleteSession(i) =>
                   && (s.outcome.Done? <==> i < |c.sessions| && !c.sessions[i].purged && c.sessions[i].user == me)
                   && (s.outcome.Done? ==> c1.users == c.users && OneRevoked(c.sessions, c1.sessions, i, req.at, "user_revoked"))
               }
  {
    hide RevokeAll, Lookup;
    AdmittedState(env, w, req, current, me);
    var c := Admitted(env, w, req);
    RevokeAllIsExact(c.sessions, me, req.at, "password_changed", Some(current));
    if req.call.action.own.LogoutAll? {
      RevokeAllIsExact(c.sessions, me, req.at, "logout_all", if req.call.action.own.preserveCurrent then Some(current) else None);
    }
  }

  /** Of the requests about one's own second factor only switching it off touches sessions: all of the user's but the current one go. */
  lemma SwitchOffRevokes(env: Env, w: World, req: Request, current: nat, me: nat)
    requires ComesFrom(env, w, req, current, me) && req.call.action.Mfa?
    ensures var (c, s) := (Admitted(env, w, req), Next(env, w, req));
            if req.call.action.mfa.DisableMfa? && s.outcome.Done?
            then UserRevoked(c.sessions, s.world.core.sessions, me, req.at, "mfa_disabled", Some(current))
            else s.world.core.sessions == c.sessions
  {
    hide RevokeAll, Lookup, VerifyFactor, Confirm, Enroll, UserRevoked, DropCodes, SwitchOffDevices, DropOpenChallenges, ReplaceCodes;
    AdmittedState(env, w, req, current, me);
    var (c, mfa) := (Admitted(env, w, req), req.call.action.mfa);
    RevokeAllIsExact(c.sessions, me, req.at, "mfa_disabled", Some(current));
    match mfa
    case EnrollMfa(password, restart, secret) => EnrollKeepsSessions(env, c, me, req.at, password, restart, secret);
    case ConfirmMfa(code, device, newCodes) => ConfirmKeepsSessions(env, c, me, req.at, code, device, newCodes);
    case RegenerateCodes(_, _, code, newCodes) => ReplacingKeepsSessions(env, VerifyFactor(env, c, me, req.at, code, false).0, me, newCodes);
    case _ =>
  }

  lemma EnrollKeepsSessions(env: Env, c: Core, me: nat, at: Time, password: string, restart: bool, secret: string)
    requires me < |c.users|
    ensures Enroll(env, c, me, at, password, restart, secret).0.sessions == c.sessions
  {
  }

  lemma ReplacingKeepsSessions(env: Env, c: Core, user: nat, texts: seq<string>)
    ensures var r := ReplaceCodes(env, c, user, texts); r.Some? ==> r.value.sessions == c.sessions
  {
  }

  lemma ConfirmKeepsSessions(env: Env, c: Core, me: nat, at: Time, code: string, device: Option<nat>, newCodes: seq<string>)
    requires me < |c.users|
    ensures Confirm(env, c, me, at, code, device, newCodes).core.sessions == c.sessions
  {
    hide AcceptedCounter;
  }

  // ---- orders on an account ----

  /** Another administrator who is active or only has a password change due. */
  predicate AnotherAdministers(users: seq<Account>, u: nat) {
    exists j :: 0 <= j < |users| && j != u && users[j].isAdmin && (users[j].status == Active || users[j].status == PendingPasswordChange)
  }

  lemma LastAdminIsAlone(users: seq<Account>, u: nat)
    requires u < |users|
    ensures IsLastAdmin(users, u) <==> users[u].isAdmin && !AnotherAdministers(users, u)
  {
    var s := CountedAdmins(users, u);
    if AnotherAdministers(users, u) {
      var j :| 0 <= j < |users| && j != u && users[j].isAdmin && (users[j].status == Active || users[j].status == PendingPasswordChange);
      assert j in s;
    } else {
      assert s == {};
    }
  }

  predicate EmailUsed(users: seq<Account>, email: Option<string>, u: nat) {
    email.Some? && exists j :: 0 <= j < |users| && j != u && users[j].email == email
  }

  predicate AllEnabled(roles: map<string, Role>, keys: set<string>) {
    forall k :: k in keys ==> k in roles && roles[k].enabled
  }

  /** What an order needs to go through. */
  predicate MayOrder(c: Core, u: nat, order: AdminAction)
    requires u < |c.users|
  {
    match order
    case UpdateUser(email, _) => email.Some? ==> !EmailUsed(c.users, email.value, u)
    case DisableUser => c.users[u].isAdmin ==> AnotherAdministers(c.users, u)
    case EnableUser => true
    case ResetPassword(_, policyOk) => policyOk
    case ResetMfa => true
    case RevokeSessions => true
    case SetRoles(keys) => AllEnabled(c.roles, keys) && (c.users[u].isAdmin && "administrator" !in keys ==> AnotherAdministers(c.users, u))
  }

  /** The account after an order: only what the order is about differs. */
  predicate ObeysOrder(a: Account, b: Account, order: AdminAction) {
    match order
    case UpdateUser(email, mustChange) =>
      && b == a.(email := b.email, mustChange := b.mustChange, status := b.status)
      && b.email == (if email.Some? then email.value else a.email)
      && (mustChange.None? ==> b.mustChange == a.mustChange && b.status == a.status)
      && (mustChange == Some(true) ==> b.mustChange && b.status == PendingPasswordChange)
      && (mustChange == Some(false) ==> !b.mustChange && b.status == Active)
    case DisableUser => b == a.(status := Disabled)
    case EnableUser => b == a.(status := b.status) && (b.status == PendingPasswordChange <==> a.mustChange) && (b.status == Active <==> !a.mustChange)
    case ResetPassword(newHash, _) =>
      && b == a.(passwordHash := newHash, mustChange := true, status := b.status)
      && b.status == if a.status in {Disabled, PendingApproval, Rejected} then a.status else PendingPasswordChange
    case ResetMfa =>
      && b == a.(mfaEnabled := false, mustChange := true, status := b.status)
      && b.status == if a.status == Disabled then Disabled else PendingPasswordChange
    case RevokeSessions => b == a
    case SetRoles(keys) => b == a.(roles := keys, isAdmin := "administrator" in keys)
  }

  /** Why an order revokes the sessions of the account, if it does. */
  function ReasonOf(order: AdminAction): Option<string> {
    match order
    case UpdateUser(_, _) => None
    case EnableUser => None
    case DisableUser => Some("account_disabled")
    case ResetPassword(_, _) => Some("administrator_password_reset")
    case ResetMfa => Some("administrator_mfa_reset")
    case RevokeSessions => Some("administrator_revoked_all")
    case SetRoles(_) => Some("role_assignment_changed")
  }

  lemma RefusalIsExact(c: Core, u: nat, order: AdminAction)
    requires u < |c.users|
    ensures OrderRefused(c, u, order) <==> !MayOrder(c, u, order)
  {
    hide IsLastAdmin;
    LastAdminIsAlone(c.users, u);
  }

  /** An administrator's order goes through exactly when it may, and then changes that account, its sessions and its factors, and nothing else. */
  lemma OrderIsExact(env: Env, w: World, req: Request, current: nat, me: nat)
    requires ComesFrom(env, w, req, current, me) && req.call.action.Admin?
    ensures var (c, s, u, order) := (Admitted(env, w, req), Next(env, w, req), req.call.action.target, req.call.action.order);
            var c1 := s.world.core;
            && s.world.log == w.log && s.factor == NoFactor
            && (s.outcome.Done? <==> u < |c.users| && MayOrder(c, u, order)) && (!s.outcome.Done? ==> c1 == c)
            && (s.outcome.Done? ==>
                  && |c1.users| == |c.users| && (forall v :: 0 <= v < |c.users| && v != u ==> c1.users[v] == c.users[v])
                  && ObeysOrder(c.users[u], c1.users[u], order)
                  && (ReasonOf(order).None? ==> c1.sessions == c.sessions)
                  && (ReasonOf(order).Some? ==> UserRevoked(c.sessions, c1.sessions, u, req.at, ReasonOf(order).value, None))
                  && (order.ResetMfa? ==> FactorsGone(c, c1, u))
                  && (!order.ResetMfa? ==> c1.devices == c.devices && c1.codes == c.codes)
                  && c1.challenges == c.challenges && c1.roles == c.roles && c1.nextId == c.nextId)
  {
    hide RevokeAll, Lookup, OrderRefused, MayOrder, SwitchOffDevices, DropCodes, FactorsGone, UserRevoked;
    AdmittedState(env, w, req, current, me);
    var (c, u, order) := (Admitted(env, w, req), req.call.action.target, req.call.action.order);
    if u < |c.users| {
      RefusalIsExact(c, u, order);
      if ReasonOf(order).Some? { RevokeAllIsExact(c.sessions, u, req.at, ReasonOf(order).value, None); }
      var c1 := Next(env, w, req).world.core;
      if order.ResetMfa? && MayOrder(c, u, order) { SwitchedOffFactorsAreGone(c, c1, u); }
    }
  }

  /** No device of the user is enabled and no recovery code of theirs is left; the others' are as they were. */
  ghost predicate FactorsGone(c: Core, c1: Core, u: nat) {
    && c1.devices.Keys == c.devices.Keys
    && (forall d :: d in c.devices ==> c1.devices[d] == if c.devices[d].user == u then c.devices[d].(enabled := false) else c.devices[d])
    && (forall k :: k in c1.codes <==> k in c.codes && c.codes[k].user != u)
    && (forall k :: k in c1.codes ==> c1.codes[k] == c.codes[k])
  }

  lemma SwitchedOffFactorsAreGone(c: Core, c1: Core, u: nat)
    requires c1.devices == SwitchOffDevices(c.devices, u) && c1.codes == DropCodes(c.codes, u)
    ensures FactorsGone(c, c1, u)
  {
  }

  /** Revoking one session by its owner and number, and creating an account. */
  lemma SingleOrderIsExact(env: Env, w: World, req: Request, current: nat, me: nat)
    requires ComesFrom(env, w, req, current, me) && (req.call.action.RevokeSession? || req.call.action.CreateUser?)
    ensures var (c, s, act) := (Admitted(env, w, req), Next(env, w, req), req.call.action);
            var c1 := s.world.core;
            && s.world.log == w.log && c1 == c.(users := c1.users, sessions := c1.sessions) && (!s.outcome.Done? ==> c1 == c)
            && (act.RevokeSession? ==>
                  && (s.outcome.Done? <==> act.session < |c.sessions| && !c.sessions[act.session].purged && c.sessions[act.session].user == act.owner)
                  && (s.outcome.Done? ==> c1.users == c.users && OneRevoked(c.sessions, c1.sessions, act.session, req.at, "administrator_revoked")))
            && (act.CreateUser? ==>
                  var granted := if act.keys == {} && act.admin then {"administrator"} else act.keys;
                  && (s.outcome.Done? <==>
                        && act.wellFormed && AllEnabled(c.roles, granted)
                        && (forall j :: 0 <= j < |c.users| ==> c.users[j].username != act.username)
                        && (act.email.Some? ==> forall j :: 0 <= j < |c.users| ==> c.users[j].email != act.email))
                  && (s.outcome.Done? ==>
                        && c1.sessions == c.sessions
                        && c1.users == c.users + [Account(act.username, act.email, act.passwordHash, PendingPasswordChange, act.admin, 0, None, true, false, granted)]))
  {
    hide Lookup, FindAccount;
    AdmittedState(env, w, req, current, me);
    var c := Admitted(env, w, req);
    if req.call.action.CreateUser? { UsernameIsTaken(c.users, false, req.call.action.username); }
  }

  lemma UsernameIsTaken(users: seq<Account>, isEmail: bool, identifier: string)
    ensures FindAccount(users, isEmail, identifier).Some? <==> exists j :: 0 <= j < |users| && Matches(users[j], isEmail, identifier)
  {
    var r := FindAccount(users, isEmail, identifier);
    assert forall j :: 0 <= j < |users| ==> (Named(users[j], isEmail, identifier) <==> Matches(users[j], isEmail, identifier));
    if r.Some? { assert Matches(users[r.value], isEmail, identifier); }
  }
}
