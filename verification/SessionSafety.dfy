/**
  Sessions over whole runs: revocation is final, and idle expiry has a bound on
  both sides.  Sessions are appended, only revoked ones are ever deleted, and a
  request can move the timing of no session but the one whose cookie it
  presents.  A revocation keeps its time for good; its reason is overwritten by
  a playbook that selects the session and by nothing else.
*/
module SessionSafety {
  import opened Options
  import opened Clock
  import opened AccessTables
  import opened AttemptLog
  import opened AccessSpec

  function Min(a: Time, b: Time): Time {
    if a <= b then a else b
  }

  /** Creation does not cap the idle deadline by the lifetime and refresh does; the earlier of the two agrees in both cases. */
  predicate Sound(env: Env, s: Session) {
    s.expires == s.createdAt + env.lifetime && Min(s.expires, s.idleExpires) == Min(s.expires, s.lastSeen + env.idle)
  }

  predicate Kept(env: Env, s: Session, t: Session) {
    && t.user == s.user && t.tokenHash == s.tokenHash && t.createdAt == s.createdAt && t.expires == s.expires
    && (s.revoked.Some? ==> t.revoked.Some? && t.revoked.value.at == s.revoked.value.at)
    && (s.purged ==> t.purged) && (t.purged ==> s.purged || t.revoked.Some?)
    && (Sound(env, s) ==> Sound(env, t))
  }

  predicate SameTiming(s: Session, t: Session) {
    t.lastSeen == s.lastSeen && t.idleExpires == s.idleExpires
  }

  /** The session table after a request that presents session `touched` and tells a playbook to revoke session `selected`. */
  ghost predicate Evolves(env: Env, before: seq<Session>, after: seq<Session>, touched: Option<nat>, selected: Option<nat>, at: Time) {
    && |before| <= |after|
    && (forall i :: 0 <= i < |before| ==> Kept(env, before[i], after[i]))
    && (forall i :: 0 <= i < |before| && touched != Some(i) ==> SameTiming(before[i], after[i]))
    && (forall i :: 0 <= i < |before| && selected != Some(i) && before[i].revoked.Some? ==> after[i].revoked == before[i].revoked)
    && (forall i :: 0 <= i < |before| ==> after[i].lastSeen == before[i].lastSeen || after[i].lastSeen == at)
    && (forall i :: 0 <= i < |before| && after[i].purged ==> before[i].purged || before[i].expires < at)
    && (forall i :: |before| <= i < |after| ==> Sound(env, after[i]) && after[i].lastSeen == at && !after[i].purged)
  }

  ghost predicate AllSound(env: Env, sessions: seq<Session>) {
    forall i :: 0 <= i < |sessions| ==> Sound(env, sessions[i])
  }

  // ---- every request lets the session table evolve ----

  lemma RevokeAllEvolves(env: Env, ss: seq<Session>, user: nat, at: Time, reason: string, spare: Option<nat>)
    ensures Evolves(env, ss, RevokeAll(ss, user, at, reason, spare), None, None, at)
  {
  }

  lemma RevokeAllRevokes(ss: seq<Session>, user: nat, at: Time, reason: string, spare: Option<nat>, i: nat)
    requires i < |ss| && ss[i].user == user && spare != Some(i)
    ensures RevokeAll(ss, user, at, reason, spare)[i].revoked.Some?
  {
  }

  lemma RevokeAllSpares(ss: seq<Session>, user: nat, at: Time, reason: string, i: nat)
    requires i < |ss|
    ensures RevokeAll(ss, user, at, reason, Some(i))[i] == ss[i]
  {
  }

  lemma RevokeOneEvolves(env: Env, c: Core, owner: nat, session: nat, at: Time, reason: string)
    ensures Evolves(env, c.sessions, RevokeOne(c, owner, session, at, reason).0.sessions, None, None, at)
  {
    hide Evolves;
    UnchangedEvolves(env, c.sessions, at);
    if session < |c.sessions| { OneEvolves(env, c.sessions, session, Revoke(c.sessions[session], at, reason), at); }
  }

  lemma OpenSessionEvolves(env: Env, c: Core, user: nat, token: string, at: Time, via: Option<nat>)
    ensures Evolves(env, c.sessions, OpenSession(env, c, user, token, at, via).0.sessions, None, None, at)
  {
  }

  lemma OwnEvolves(env: Env, c: Core, me: nat, current: nat, at: Time, own: OwnAction)
    requires me < |c.users|
    ensures Evolves(env, c.sessions, PerformOwn(env, c, me, current, at, own).0.sessions, None, None, at)
  {
    hide RevokeAll, RevokeOne, NewPassword;
    match own
    case Browse =>
    case Logout => RevokeOneEvolves(env, c, me, current, at, "logout");
    case LogoutAll(preserve) => RevokeAllEvolves(env, c.sessions, me, at, "logout_all", if preserve then Some(current) else None);
    case ChangePassword(_, _, _) => RevokeAllEvolves(env, c.sessions, me, at, "password_changed", Some(current));
    case DeleteSession(s) => RevokeOneEvolves(env, c, me, s, at, "user_revoked");
  }

  /** Of a user's own second-factor requests only turning it off touches sessions, and it spares the current one. */
  lemma MfaSessions(env: Env, c: Core, me: nat, current: nat, at: Time, mfa: MfaAction)
    requires me < |c.users|
    ensures var after := PerformMfa(env, c, me, current, at, mfa).core.sessions;
            after == c.sessions || (mfa.DisableMfa? && after == RevokeAll(c.sessions, me, at, "mfa_disabled", Some(current)))
  {
    hide RevokeAll, VerifyFactor, DropCodes, SwitchOffDevices, DropOpenChallenges, AcceptedCounter;
  }

  /** The session a playbook is told to revoke. */
  function Selected(action: Action): Option<nat> {
    if action.Playbook? && action.step.RevokeSelected? then Some(action.step.session) else None
  }

  lemma StepEvolves(env: Env, c: Core, me: nat, current: nat, at: Time, step: PlaybookStep, reasoned: bool)
    requires me < |c.users|
    ensures Evolves(env, c.sessions, PerformStep(c, me, current, at, step, reasoned).0.sessions, None, Selected(Playbook(step, reasoned)), at)
  {
    hide RevokeAll, ActiveAdmins;
    match step
    case RevokeOthers(u) => RevokeAllEvolves(env, c.sessions, u, at, PLAYBOOK_REASON, None);
    case SuspendUser(u) => RevokeAllEvolves(env, c.sessions, u, at, "user_disabled_by_soar", None);
    case _ =>
  }

  lemma RevokeHoldersEvolves(env: Env, ss: seq<Session>, users: seq<Account>, key: string, at: Time, reason: string)
    ensures Evolves(env, ss, RevokeHolders(ss, users, key, at, reason), None, None, at)
  {
  }

  lemma ChangeRoleEvolves(env: Env, c: Core, at: Time, key: string, change: RoleOrder)
    ensures Evolves(env, c.sessions, ChangeRole(c, at, key, change).0.sessions, None, None, at)
  {
    hide RevokeHolders, RoleHeld, Evolves;
    UnchangedEvolves(env, c.sessions, at);
    RevokeHoldersEvolves(env, c.sessions, c.users, key, at, "role_changed");
    RevokeHoldersEvolves(env, c.sessions, c.users, key, at, "role_permissions_changed");
  }

  lemma RetainEvolves(env: Env, w: World, at: Time, rows: Retention)
    ensures Evolves(env, w.core.sessions, RetainRows(w, at, rows).world.core.sessions, None, None, at)
  {
    hide Purge, PurgeChallenges, Evolves, PurgeSessions;
    UnchangedEvolves(env, w.core.sessions, at);
    if rows.OldSessions? { PurgeEvolves(env, w.core.sessions, rows.doomed, at); }
  }

  lemma PurgeEvolves(env: Env, ss: seq<Session>, doomed: set<nat>, at: Time)
    ensures Evolves(env, ss, PurgeSessions(ss, doomed, at), None, None, at)
  {
  }

  lemma PerformEvolves(env: Env, c: Core, at: Time, current: nat, action: Action)
    requires current < |c.sessions| && c.sessions[current].user < |c.users|
    ensures Evolves(env, c.sessions, Perform(env, c, at, current, action).core.sessions, None, Selected(action), at)
  {
    hide RevokeAll, RevokeOne, PerformOwn, PerformMfa, PerformStep, ChangeRole, Ordered, OrderRefused;
    var me := c.sessions[current].user;
    match action
    case Own(own) => OwnEvolves(env, c, me, current, at, own);
    case Mfa(mfa) =>
      MfaSessions(env, c, me, current, at, mfa);
      RevokeAllEvolves(env, c.sessions, me, at, "mfa_disabled", Some(current));
    case Admin(u, order) =>
      if OrderRevokes(order).Some? { RevokeAllEvolves(env, c.sessions, u, at, OrderRevokes(order).value, None); }
    case Playbook(step, reasoned) => StepEvolves(env, c, me, current, at, step, reasoned);
    case ManageRole(key, change) => ChangeRoleEvolves(env, c, at, key, change);
    case RevokeSession(owner, s) => RevokeOneEvolves(env, c, owner, s, at, "administrator_revoked");
    case CreateUser(_, _, _, _, _, _) =>
  }

  /** The session whose cookie the request presents. */
  function Presented(env: Env, c: Core, req: Request): Option<nat> {
    match req.call
    case Signed(cookie, _, _) => if cookie == "" then None else FindSession(c.sessions, env.hash(cookie))
    case Manage(cookie, _, _, _) => if cookie == "" then None else FindSession(c.sessions, env.hash(cookie))
    case Retain(cookie, _, _) => if cookie == "" then None else FindSession(c.sessions, env.hash(cookie))
    case _ => None
  }

  function SelectedBy(req: Request): Option<nat> {
    if req.call.Signed? then Selected(req.call.action) else None
  }

  /** One session is replaced by a later state of it. */
  lemma OneEvolves(env: Env, ss: seq<Session>, i: nat, t: Session, at: Time)
    requires i < |ss| && Kept(env, ss[i], t) && t.purged == ss[i].purged && (ss[i].revoked.Some? ==> t.revoked == ss[i].revoked)
    requires t.lastSeen == ss[i].lastSeen || t.lastSeen == at
    ensures Evolves(env, ss, ss[i := t], Some(i), None, at)
    ensures SameTiming(ss[i], t) ==> Evolves(env, ss, ss[i := t], None, None, at)
  {
    hide Sound;
  }

  lemma LookupEvolves(env: Env, c: Core, at: Time, cookie: string)
    ensures |Lookup(env, c, at, cookie).0.sessions| == |c.sessions|
    ensures Evolves(env, c.sessions, Lookup(env, c, at, cookie).0.sessions, if cookie == "" then None else FindSession(c.sessions, env.hash(cookie)), None, at)
  {
    hide Evolves, FindSession;
    UnchangedEvolves(env, c.sessions, at);
    var found := if cookie == "" then None else FindSession(c.sessions, env.hash(cookie));
    if found.Some? {
      var s := c.sessions[found.value];
      UntouchedEvolves(env, c.sessions, found.value, at);
      if s.revoked.None? { OneEvolves(env, c.sessions, found.value, Revoke(s, at, "expired"), at); }
      OneEvolves(env, c.sessions, found.value, Touch(env, s, at), at);
    }
  }

  lemma UntouchedEvolves(env: Env, ss: seq<Session>, i: nat, at: Time)
    ensures Evolves(env, ss, ss, Some(i), None, at)
  {
  }

  lemma LookupPurgesNothing(env: Env, c: Core, at: Time, cookie: string, i: nat)
    requires i < |c.sessions|
    ensures var after := Lookup(env, c, at, cookie).0.sessions; i < |after| && after[i].purged == c.sessions[i].purged
  {
  }

  lemma LookupOpensPresented(env: Env, c: Core, at: Time, cookie: string)
    ensures var (c1, current) := Lookup(env, c, at, cookie);
            |c1.sessions| == |c.sessions|
            && (current.Some? ==> cookie != "" && current == FindSession(c.sessions, env.hash(cookie)) && c1.sessions[current.value].revoked.None?)
  {
  }

  lemma CompleteLoginEvolves(env: Env, c: Core, at: Time, challengeToken: string, code: string, recovery: bool, token: string)
    ensures Evolves(env, c.sessions, CompleteLogin(env, c, at, challengeToken, code, recovery, token).core.sessions, None, None, at)
  {
    hide VerifyFactor, OpenSession;
    var found := ChallengesFor(c.challenges, env.hash(challengeToken));
    if found != {} {
      var k := First(found);
      var (c1, factor) := VerifyFactor(env, c, c.challenges[k].user, at, code, recovery);
      OpenSessionEvolves(env, c1, c.challenges[k].user, token, at, Some(k));
    }
  }

  lemma LoginEvolves(env: Env, w: World, req: Request)
    requires req.call.Login?
    ensures Evolves(env, w.core.sessions, Next(env, w, req).world.core.sessions, None, None, req.at)
  {
    hide OpenSession, Authenticate, Evolves;
    var call := req.call;
    UnchangedEvolves(env, w.core.sessions, req.at);
    var (w1, verdict) := Authenticate(env, w, req.at, IpHash(env, req.ip), call.isEmail, call.identifier, call.password);
    if verdict.Accepted? { OpenSessionEvolves(env, w1.core, verdict.user, call.token, req.at, None); }
  }

  lemma ManageEvolves(env: Env, w: World, at: Time, ip: Option<string>, actor: nat, u: nat, m: Management)
    ensures Evolves(env, w.core.sessions, ManageAccount(env, w, at, ip, actor, u, m).world.core.sessions, None, None, at)
  {
    hide RevokeAll, Forget, Count, Managed, ManagementRefused, ManagementThrottled, Evolves;
    UnchangedEvolves(env, w.core.sessions, at);
    RevokeAllEvolves(env, w.core.sessions, u, at, "registration_rejected", None);
  }

  lemma EvolvesOn(env: Env, a: seq<Session>, b: seq<Session>, c: seq<Session>, touched: Option<nat>, selected: Option<nat>, at: Time)
    requires Evolves(env, a, b, touched, None, at) && |a| == |b|
    requires Evolves(env, b, c, None, selected, at) || b == c
    ensures Evolves(env, a, c, touched, selected, at)
  {
    hide Sound;
  }

  lemma UnchangedEvolves(env: Env, a: seq<Session>, at: Time)
    ensures Evolves(env, a, a, None, None, at)
  {
  }

  lemma NextEvolves(env: Env, w: World, req: Request)
    ensures Evolves(env, w.core.sessions, Next(env, w, req).world.core.sessions, Presented(env, w.core, req), SelectedBy(req), req.at)
  {
    hide Perform, CompleteLogin, Lookup, LogIn, ManageAccount, RetainRows, Forget, Count, RolesAssignable, Evolves;
    var at, after := req.at, Next(env, w, req).world.core.sessions;
    match req.call
    case Login(_, _, _, _) => LoginEvolves(env, w, req);
    case Register(_, _, _, _) => UnchangedEvolves(env, w.core.sessions, at);
    case VerifyMfa(challengeToken, code, recovery, token) => CompleteLoginEvolves(env, w.core, at, challengeToken, code, recovery, token);
    case Signed(cookie, _, action) =>
      LookupEvolves(env, w.core, at, cookie);
      var (c, current) := Lookup(env, w.core, at, cookie);
      if current.Some? { PerformEvolves(env, c, at, current.value, action); }
      EvolvesOn(env, w.core.sessions, c.sessions, after, Presented(env, w.core, req), SelectedBy(req), at);
    case Manage(cookie, _, target, m) =>
      LookupEvolves(env, w.core, at, cookie);
      var (c, current) := Lookup(env, w.core, at, cookie);
      if current.Some? { ManageEvolves(env, w.(core := c), at, IpHash(env, req.ip), c.sessions[current.value].user, target, m); }
      EvolvesOn(env, w.core.sessions, c.sessions, after, Presented(env, w.core, req), SelectedBy(req), at);
    case Retain(cookie, _, rows) =>
      LookupEvolves(env, w.core, at, cookie);
      var (c, current) := Lookup(env, w.core, at, cookie);
      if current.Some? { RetainEvolves(env, w.(core := c), at, rows); }
      EvolvesOn(env, w.core.sessions, c.sessions, after, Presented(env, w.core, req), SelectedBy(req), at);
  }

  // ---- runs ----

  /** A session, once stored, keeps its identity, and stays revoked since its first revocation, in every run. */
  lemma {:induction false} SessionsAreKept(env: Env, w: World, reqs: seq<Request>, i: nat)
    requires i < |w.core.sessions|
    ensures i < |Run(env, w, reqs).core.sessions| && Kept(env, w.core.sessions[i], Run(env, w, reqs).core.sessions[i])
    decreases |reqs|
  {
    hide Next;
    if reqs != [] {
      NextEvolves(env, w, reqs[0]);
      SessionsAreKept(env, Next(env, w, reqs[0]).world, reqs[1..], i);
    }
  }

  // ---- the reason of a revocation ----

  /** The request makes a playbook revoke session `i`, and nothing stands in its way. */
  predicate Overwrites(env: Env, w: World, req: Request, i: nat) {
    && SelectedBy(req) == Some(i) && req.call.permitted && req.call.action.reasoned
    && i < |w.core.sessions| && !w.core.sessions[i].purged
    && var current := Lookup(env, w.core, req.at, req.call.cookie).1; current.Some? && current != Some(i)
  }

  lemma OverwriteStep(env: Env, w: World, req: Request, i: nat)
    requires i < |w.core.sessions| && w.core.sessions[i].revoked.Some?
    ensures i < |Next(env, w, req).world.core.sessions|
    ensures Next(env, w, req).world.core.sessions[i].revoked ==
            Some(Revocation(w.core.sessions[i].revoked.value.at,
                            if Overwrites(env, w, req, i) then PLAYBOOK_REASON else w.core.sessions[i].revoked.value.reason))
  {
    hide Sound, Lookup, RevokeAll, FindSession;
    if SelectedBy(req) == Some(i) {
      LookupEvolves(env, w.core, req.at, req.call.cookie);
      LookupPurgesNothing(env, w.core, req.at, req.call.cookie, i);
    } else {
      hide Next;
      NextEvolves(env, w, req);
    }
  }

  /** Some request of the run overwrites the reason of session `i`. */
  ghost predicate Overwritten(env: Env, w: World, reqs: seq<Request>, i: nat)
    decreases |reqs|
  {
    reqs != [] && (Overwrites(env, w, reqs[0], i) || Overwritten(env, Next(env, w, reqs[0]).world, reqs[1..], i))
  }

  /**
    In every run the time of a revocation never changes, and its reason is kept
    exactly when no playbook selects the session.
  */
  lemma {:induction false} RevocationIsPermanent(env: Env, w: World, reqs: seq<Request>, i: nat)
    requires i < |w.core.sessions| && w.core.sessions[i].revoked.Some?
    ensures i < |Run(env, w, reqs).core.sessions|
    ensures Run(env, w, reqs).core.sessions[i].revoked ==
            Some(Revocation(w.core.sessions[i].revoked.value.at,
                            if Overwritten(env, w, reqs, i) then PLAYBOOK_REASON else w.core.sessions[i].revoked.value.reason))
    decreases |reqs|
  {
    hide Next, Overwrites;
    if reqs != [] {
      OverwriteStep(env, w, reqs[0], i);
      RevocationIsPermanent(env, Next(env, w, reqs[0]).world, reqs[1..], i);
    }
  }

  /** The reason does change: a session that was logged out, and then selected by an administrator's playbook. */
  lemma ReasonCanChange(env: Env, admin: Account, at: Time)
    requires admin.status == Active && 0 < env.idle && 0 < env.lifetime
    ensures var live := Session(0, env.hash("cookie"), at, at, at + env.lifetime, at + env.idle, None, true, false);
            var ended := live.(tokenHash := env.hash("cookie") + "'", revoked := Some(Revocation(at, "logout")));
            var w := World(Core([admin], map[], [live, ended], map[], map[], map[], 0), [], true);
            var s := Next(env, w, Request(at, None, Signed("cookie", true, Playbook(RevokeSelected(1), true))));
            s.outcome == Done && s.world.core.sessions == [live, ended.(revoked := Some(Revocation(at, PLAYBOOK_REASON)))]
  {
    var live := Session(0, env.hash("cookie"), at, at, at + env.lifetime, at + env.idle, None, true, false);
    var ended := live.(tokenHash := env.hash("cookie") + "'", revoked := Some(Revocation(at, "logout")));
    var c := Core([admin], map[], [live, ended], map[], map[], map[], 0);
    assert Bears(c.sessions[0], env.hash("cookie"));
    assert FindSession(c.sessions, env.hash("cookie")) == Some(0);
    assert Lookup(env, c, at, "cookie") == (c, Some(0)) by { assert c.sessions[0 := live] == c.sessions; }
  }

  /** A revoked session opens nothing, whichever cookie is presented. */
  lemma RevokedOpensNothing(env: Env, c: Core, at: Time, cookie: string, i: nat)
    requires i < |c.sessions| && c.sessions[i].revoked.Some?
    ensures Lookup(env, c, at, cookie).1 != Some(i)
  {
  }

  /** The user whose sessions an order revokes, and the reason it gives. */
  function RevokesUser(action: Action): Option<(nat, string)> {
    match action
    case Admin(u, order) => if OrderRevokes(order).Some? then Some((u, OrderRevokes(order).value)) else None
    case Playbook(RevokeOthers(u), _) => Some((u, PLAYBOOK_REASON))
    case Playbook(SuspendUser(u), _) => Some((u, "user_disabled_by_soar"))
    case _ => None
  }

  lemma OrderRevokesSessions(env: Env, c: Core, at: Time, current: nat, action: Action)
    requires current < |c.sessions| && c.sessions[current].user < |c.users| && RevokesUser(action).Some?
    ensures var s := Perform(env, c, at, current, action);
            s.outcome.Done? ==> s.core.sessions == RevokeAll(c.sessions, RevokesUser(action).value.0, at, RevokesUser(action).value.1, None)
  {
    hide RevokeAll, Ordered, OrderRefused, ActiveAdmins;
  }

  /**
    The sessions an account had when it was disabled, by an administrator or by a
    playbook, stay unusable in every later run, re-enabled or not.  The same
    holds for every other order that revokes an account's sessions.
  */
  lemma RevokingOrderIsFinal(env: Env, w: World, order: Request, reqs: seq<Request>, i: nat, at: Time, cookie: string)
    requires order.call.Signed? && RevokesUser(order.call.action).Some?
    requires Next(env, w, order).outcome.Done?
    requires i < |w.core.sessions| && w.core.sessions[i].user == RevokesUser(order.call.action).value.0
    ensures Lookup(env, Run(env, Next(env, w, order).world, reqs).core, at, cookie).1 != Some(i)
  {
    hide Run, Lookup, Perform, RevokesUser, FindSession, Sound, RevokeAll;
    var w1 := Next(env, w, order).world;
    var (u, reason) := RevokesUser(order.call.action).value;
    var (c, current) := Lookup(env, w.core, order.at, order.call.cookie);
    LookupEvolves(env, w.core, order.at, order.call.cookie);
    OrderRevokesSessions(env, c, order.at, current.value, order.call.action);
    RevokeAllRevokes(c.sessions, u, order.at, reason, None, i);
    SessionsAreKept(env, w1, reqs, i);
    RevokedOpensNothing(env, Run(env, w1, reqs).core, at, cookie, i);
  }

  /** After a password change no other session of that user is ever usable again, and the current one is not revoked. */
  lemma PasswordChangeIsFinal(env: Env, w: World, change: Request, reqs: seq<Request>, i: nat, at: Time, cookie: string)
    requires change.call.Signed? && change.call.action.Own? && change.call.action.own.ChangePassword?
    requires Next(env, w, change).outcome.Done?
    requires i < |w.core.sessions|
    ensures var (w1, current) := (Next(env, w, change).world, Presented(env, w.core, change));
            && current.Some? && |w1.core.sessions| == |w.core.sessions|
            && w1.core.sessions[current.value].revoked.None?
            && (i != current.value && w.core.sessions[i].user == w.core.sessions[current.value].user ==>
                  Lookup(env, Run(env, w1, reqs).core, at, cookie).1 != Some(i))
  {
    hide Run, NewPassword, Sound, RevokeAll, Lookup;
    var w1 := Next(env, w, change).world;
    var (c, current) := Lookup(env, w.core, change.at, change.call.cookie);
    LookupEvolves(env, w.core, change.at, change.call.cookie);
    LookupOpensPresented(env, w.core, change.at, change.call.cookie);
    var j := current.value;
    assert w1.core.sessions == RevokeAll(c.sessions, c.sessions[j].user, change.at, "password_changed", Some(j));
    RevokeAllSpares(c.sessions, c.sessions[j].user, change.at, "password_changed", j);
    if i != j && w.core.sessions[i].user == w.core.sessions[j].user {
      RevokeAllRevokes(c.sessions, c.sessions[j].user, change.at, "password_changed", Some(j), i);
      SessionsAreKept(env, w1, reqs, i);
      RevokedOpensNothing(env, Run(env, w1, reqs).core, at, cookie, i);
    }
  }

  lemma {:induction false} SessionsStaySound(env: Env, w: World, reqs: seq<Request>)
    requires AllSound(env, w.core.sessions)
    ensures AllSound(env, Run(env, w, reqs).core.sessions)
    decreases |reqs|
  {
    hide Next, Sound;
    if reqs != [] {
      NextEvolves(env, w, reqs[0]);
      SessionsStaySound(env, Next(env, w, reqs[0]).world, reqs[1..]);
    }
  }

  ghost predicate SeenBy(sessions: seq<Session>, now: Time) {
    forall i :: 0 <= i < |sessions| ==> sessions[i].lastSeen <= now
  }

  /** The time of the last request of a run that started at `now`. */
  function EndOf(now: Time, reqs: seq<Request>): Time {
    if reqs == [] then now else reqs[|reqs| - 1].at
  }

  /** No session was last seen in the future. */
  lemma {:induction false} SessionsSeenInThePast(env: Env, w: World, reqs: seq<Request>, now: Time)
    requires SeenBy(w.core.sessions, now) && Timed(now, reqs)
    ensures SeenBy(Run(env, w, reqs).core.sessions, EndOf(now, reqs))
    decreases |reqs|
  {
    hide Next, Sound;
    if reqs != [] {
      NextEvolves(env, w, reqs[0]);
      SessionsSeenInThePast(env, Next(env, w, reqs[0]).world, reqs[1..], reqs[0].at);
    }
  }

  /** No request of the run presents the cookie of session `i`. */
  ghost predicate Unused(env: Env, w: World, reqs: seq<Request>, i: nat)
    decreases |reqs|
  {
    reqs != [] ==> Presented(env, w.core, reqs[0]) != Some(i) && Unused(env, Next(env, w, reqs[0]).world, reqs[1..], i)
  }

  lemma {:induction false} UnusedKeepsTiming(env: Env, w: World, reqs: seq<Request>, i: nat)
    requires i < |w.core.sessions| && Unused(env, w, reqs, i)
    ensures i < |Run(env, w, reqs).core.sessions| && SameTiming(w.core.sessions[i], Run(env, w, reqs).core.sessions[i])
    decreases |reqs|
  {
    hide Next;
    if reqs != [] {
      NextEvolves(env, w, reqs[0]);
      UnusedKeepsTiming(env, Next(env, w, reqs[0]).world, reqs[1..], i);
    }
  }

  /** Stored sessions keep their token hashes, so a cookie that names a session names it until the row is deleted. */
  lemma {:induction false} CookieKeepsNaming(env: Env, w: World, reqs: seq<Request>, hash: string, i: nat)
    requires FindSession(w.core.sessions, hash) == Some(i)
    requires var end := Run(env, w, reqs).core.sessions; i < |end| && !end[i].purged
    ensures FindSession(Run(env, w, reqs).core.sessions, hash) == Some(i)
    decreases |reqs|
  {
    hide Next, Sound;
    if reqs != [] {
      NextEvolves(env, w, reqs[0]);
      var w1 := Next(env, w, reqs[0]).world;
      SessionsAreKept(env, w1, reqs[1..], i);
      NamedStays(env, w.core.sessions, w1.core.sessions, hash, i);
      CookieKeepsNaming(env, w1, reqs[1..], hash, i);
    }
  }

  lemma NamedStays(env: Env, before: seq<Session>, after: seq<Session>, hash: string, i: nat)
    requires FindSession(before, hash) == Some(i) && |before| <= |after| && !after[i].purged
    requires forall j :: 0 <= j < |before| ==> Kept(env, before[j], after[j])
    ensures FindSession(after, hash) == Some(i)
  {
    hide Sound, FindSession;
    assert Bears(after[i], hash);
    forall j | 0 <= j < i ensures !Bears(after[j], hash) {
      assert !Bears(before[j], hash) && Kept(env, before[j], after[j]);
    }
    hide Kept, Bears;
  }

  // ---- idle expiry ----

  /** The cookie that opens the session a request uses: the one it presents, or the one it is given. */
  function CookieOf(req: Request): string {
    match req.call
    case Login(_, _, _, token) => token
    case VerifyMfa(_, _, _, token) => token
    case Register(_, _, _, _) => ""
    case Signed(cookie, _, _) => cookie
    case Manage(cookie, _, _, _) => cookie
    case Retain(cookie, _, _) => cookie
  }

  /** The request enters session `i` with its cookie, or opens it. */
  predicate Uses(env: Env, w: World, req: Request, i: nat) {
    match req.call
    case Login(_, _, _, _) => Opens(Next(env, w, req).outcome, i)
    case VerifyMfa(_, _, _, _) => Opens(Next(env, w, req).outcome, i)
    case Register(_, _, _, _) => false
    case _ => Lookup(env, w.core, req.at, CookieOf(req)).1 == Some(i)
  }

  predicate Opens(outcome: Outcome, i: nat) {
    outcome.SessionOpened? && outcome.session == i
  }

  /** Session `i` is stored under this cookie and was last seen at `at`, to the minute. */
  ghost predicate JustSeen(env: Env, c: Core, cookie: string, i: nat, at: Time) {
    && FindSession(c.sessions, env.hash(cookie)) == Some(i)
    && Sound(env, c.sessions[i]) && at - MINUTE < c.sessions[i].lastSeen <= at
  }

  lemma OpenedIsJustSeen(env: Env, c: Core, user: nat, token: string, at: Time, via: Option<nat>)
    ensures var (c1, outcome) := OpenSession(env, c, user, token, at, via);
            outcome.SessionOpened? ==> JustSeen(env, c1, token, outcome.session, at)
  {
    var s := NewSession(env, user, token, at, via.Some?);
    assert c.sessions == (c.sessions + [s])[..|c.sessions|];
  }

  lemma LoginIsJustSeen(env: Env, w: World, req: Request, i: nat)
    requires (req.call.Login? || req.call.VerifyMfa?) && Opens(Next(env, w, req).outcome, i)
    ensures JustSeen(env, Next(env, w, req).world.core, CookieOf(req), i, req.at)
  {
    hide OpenSession, Authenticate, VerifyFactor, JustSeen;
    var at := req.at;
    match req.call
    case Login(isEmail, identifier, password, token) =>
      var (w1, verdict) := Authenticate(env, w, at, IpHash(env, req.ip), isEmail, identifier, password);
      OpenedIsJustSeen(env, w1.core, verdict.user, token, at, None);
    case VerifyMfa(challengeToken, code, recovery, token) => CompletedIsJustSeen(env, w.core, at, challengeToken, code, recovery, token);
    case _ => assert false;
  }

  lemma CompletedIsJustSeen(env: Env, c: Core, at: Time, challengeToken: string, code: string, recovery: bool, token: string)
    ensures var s := CompleteLogin(env, c, at, challengeToken, code, recovery, token);
            s.outcome.SessionOpened? ==> JustSeen(env, s.core, token, s.outcome.session, at)
  {
    hide OpenSession, VerifyFactor;
    var found := ChallengesFor(c.challenges, env.hash(challengeToken));
    if found != {} {
      var k := First(found);
      var (c1, factor) := VerifyFactor(env, c, c.challenges[k].user, at, code, recovery);
      OpenedIsJustSeen(env, c1, c.challenges[k].user, token, at, Some(k));
    }
  }

  lemma LookupIsJustSeen(env: Env, c: Core, at: Time, cookie: string, i: nat)
    requires Lookup(env, c, at, cookie).1 == Some(i) && AllSound(env, c.sessions) && c.sessions[i].lastSeen <= at
    ensures JustSeen(env, Lookup(env, c, at, cookie).0, cookie, i, at)
    ensures at < Lookup(env, c, at, cookie).0.sessions[i].expires
  {
    LookupEvolves(env, c, at, cookie);
    assert Lookup(env, c, at, cookie).0.sessions == c.sessions[i := Touch(env, c.sessions[i], at)];
  }

  /** What the request does after its session was looked up leaves that session stored and its timing alone. */
  lemma JustSeenStays(env: Env, c: Core, c1: Core, cookie: string, i: nat, selected: Option<nat>, at: Time)
    requires JustSeen(env, c, cookie, i, at) && at < c.sessions[i].expires
    requires c1 == c || Evolves(env, c.sessions, c1.sessions, None, selected, at)
    ensures JustSeen(env, c1, cookie, i, at)
  {
    hide Sound, FindSession;
    if c1 != c { NamedStays(env, c.sessions, c1.sessions, env.hash(cookie), i); }
  }

  lemma UseIsRecorded(env: Env, w: World, req: Request, i: nat)
    requires Uses(env, w, req, i) && AllSound(env, w.core.sessions) && SeenBy(w.core.sessions, req.at)
    ensures JustSeen(env, Next(env, w, req).world.core, CookieOf(req), i, req.at)
  {
    if req.call.Login? || req.call.VerifyMfa? {
      LoginIsJustSeen(env, w, req, i);
    } else {
      hide Perform, ManageAccount, RetainRows, Evolves, JustSeen, Sound;
      var at, cookie := req.at, CookieOf(req);
      LookupOpensPresented(env, w.core, at, cookie);
      LookupIsJustSeen(env, w.core, at, cookie, i);
      var c := Lookup(env, w.core, at, cookie).0;
      hide Lookup;
      match req.call {
        case Signed(_, _, action) => PerformEvolves(env, c, at, i, action);
        case Manage(_, _, target, m) => ManageEvolves(env, w.(core := c), at, IpHash(env, req.ip), c.sessions[i].user, target, m);
        case Retain(_, _, rows) => RetainEvolves(env, w.(core := c), at, rows);
        case _ =>
      }
      JustSeenStays(env, c, Next(env, w, req).world.core, cookie, i, SelectedBy(req), at);
    }
  }

  /** The session is not revoked and its account is neither disabled nor locked. */
  predicate Usable(c: Core, i: nat)
    requires i < |c.sessions|
  {
    c.sessions[i].revoked.None? && c.sessions[i].user < |c.users| && !Barred(c.users[c.sessions[i].user])
  }

  /**
    Two consecutive uses of a session, the first of which may be the login that
    opened it.  The later one fails if `idle` or more has passed, and succeeds if
    at least a minute less than `idle` has passed, the lifetime is not over, the
    session was not revoked and the account is usable.
  */
  lemma IdleExpiryIsTwoSided(env: Env, w: World, first: Request, i: nat, reqs: seq<Request>, later: Time)
    requires Uses(env, w, first, i) && CookieOf(first) != ""
    requires AllSound(env, w.core.sessions) && SeenBy(w.core.sessions, first.at)
    requires Unused(env, Next(env, w, first).world, reqs, i)
    ensures var c := Run(env, Next(env, w, first).world, reqs).core;
            var entered := Lookup(env, c, later, CookieOf(first)).1;
            && i < |c.sessions|
            && (first.at + env.idle <= later ==> entered != Some(i) && (!c.sessions[i].purged ==> entered.None?))
            && (later <= first.at + env.idle - MINUTE && later < c.sessions[i].expires && Usable(c, i) ==> entered == Some(i))
  {
    hide Run, Next, Unused, Uses;
    var w1, cookie := Next(env, w, first).world, CookieOf(first);
    UseIsRecorded(env, w, first, i);
    SessionsAreKept(env, w1, reqs, i);
    UnusedKeepsTiming(env, w1, reqs, i);
    if !Run(env, w1, reqs).core.sessions[i].purged { CookieKeepsNaming(env, w1, reqs, env.hash(cookie), i); }
  }

  /** No use succeeds once the session's lifetime is over, counted from its creation. */
  lemma LifetimeIsAbsolute(env: Env, w: World, reqs: seq<Request>, at: Time, cookie: string)
    requires AllSound(env, w.core.sessions)
    ensures var c := Run(env, w, reqs).core;
            var entered := Lookup(env, c, at, cookie).1;
            entered.Some? ==> at < Lookup(env, c, at, cookie).0.sessions[entered.value].createdAt + env.lifetime
  {
    hide Run;
    SessionsStaySound(env, w, reqs);
    LookupEvolves(env, Run(env, w, reqs).core, at, cookie);
  }
}
