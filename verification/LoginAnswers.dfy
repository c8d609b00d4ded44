/**
  What a login is answered, in terms of the stored rows and the presented
  password alone: both steps, for every state, with the rows they leave behind.
*/
module LoginAnswers {
  import opened Options
  import opened Clock
  import opened Counting
  import opened AccessTables
  import opened AttemptLog
  import opened AccessSpec
  import AccountEffects
  import LockoutSafety
  import Throttling

  // ---- the vocabulary ----

  predicate Matches(a: Account, isEmail: bool, identifier: string) {
    (isEmail && a.email == Some(identifier)) || (!isEmail && a.username == identifier)
  }

  /** `u` is the account the identifier names. */
  predicate Names(users: seq<Account>, isEmail: bool, identifier: string, u: nat) {
    u < |users| && Matches(users[u], isEmail, identifier) && forall i :: 0 <= i < u ==> !Matches(users[i], isEmail, identifier)
  }

  /** The account's lock has run out. */
  predicate RunOut(a: Account, at: Time) {
    a.status == Locked && a.lockedUntil.Some? && a.lockedUntil.value <= at
  }

  /** The account is disabled, or under a lock that has not run out. */
  predicate Shut(a: Account, at: Time) {
    a.status == Disabled || (a.status == Locked && !RunOut(a, at))
  }

  predicate Undecided(a: Account) {
    a.status == PendingApproval || a.status == Rejected
  }

  function ClientOf(env: Env, req: Request): Option<string> {
    if req.ip.None? then None else Some(env.hash("ip:" + req.ip.value))
  }

  /** The failures that count against a login: of its identifier, from its address if known, in fifteen minutes. */
  ghost function RecentFailures(env: Env, w: World, req: Request): nat
    requires req.call.Login?
  {
    Number(w.log, (a: Attempt) =>
      a.key == env.hash("username:" + req.call.identifier) && !a.success && req.at - 15 * MINUTE <= a.at
      && (req.ip.Some? ==> a.ip == ClientOf(env, req)))
  }

  ghost predicate LockHasRunOut(w: World, req: Request)
    requires req.call.Login?
  {
    exists u: nat :: Names(w.core.users, req.call.isEmail, req.call.identifier, u) && RunOut(w.core.users[u], req.at)
  }

  /** The login is turned away unexamined. */
  ghost predicate Throttles(env: Env, w: World, req: Request)
    requires req.call.Login?
  {
    env.maxAttempts <= RecentFailures(env, w, req) && !LockHasRunOut(w, req)
  }

  /** The identifier names account `u`, its stored hash accepts the password, and it is not shut. */
  predicate Admits(env: Env, w: World, req: Request, u: nat)
    requires req.call.Login?
  {
    && Names(w.core.users, req.call.isEmail, req.call.identifier, u)
    && env.verifyPassword(w.core.users[u].passwordHash, req.call.password)
    && !Shut(w.core.users[u], req.at)
  }

  /** A token that no stored session or challenge bears. */
  predicate TokenIsFree(env: Env, c: Core, token: string) {
    && (forall i :: 0 <= i < |c.sessions| && !c.sessions[i].purged ==> c.sessions[i].tokenHash != env.hash(token))
    && (forall k :: k in c.challenges ==> c.challenges[k].tokenHash != env.hash(token))
  }

  // ---- the first step ----

  lemma FoundIsNamed(users: seq<Account>, isEmail: bool, identifier: string, u: nat)
    ensures FindAccount(users, isEmail, identifier) == Some(u) <==> Names(users, isEmail, identifier, u)
  {
    hide FindAccount;
    var r := FindAccount(users, isEmail, identifier);
    assert forall i :: 0 <= i < |users| ==> (Named(users[i], isEmail, identifier) <==> Matches(users[i], isEmail, identifier));
  }

  lemma ThrottledMeansThrottles(env: Env, w: World, req: Request)
    requires Configured(env) && req.call.Login?
    ensures var found := FindAccount(w.core.users, req.call.isEmail, req.call.identifier);
            var w1 := LiftExpiredLock(env, w, found, req.call.identifier, req.at);
            LoginThrottled(env, w1.log, req.call.identifier, IpHash(env, req.ip), req.at) <==> Throttles(env, w, req)
  {
    hide FindAccount, Forget, AccountKeys, Count, Number, Names;
    var found := FindAccount(w.core.users, req.call.isEmail, req.call.identifier);
    forall u: nat ensures found == Some(u) <==> Names(w.core.users, req.call.isEmail, req.call.identifier, u) {
      FoundIsNamed(w.core.users, req.call.isEmail, req.call.identifier, u);
    }
    if found.Some? && LockExpired(w.core.users[found.value], req.at) {
      LockoutSafety.LiftedIsNotThrottled(env, w, found.value, req.call.identifier, IpHash(env, req.ip), req.at);
      assert LockHasRunOut(w, req);
    } else {
      FailuresAreCounted(env, w, req);
    }
  }

  lemma FailuresAreCounted(env: Env, w: World, req: Request)
    requires req.call.Login?
    ensures LoginThrottled(env, w.log, req.call.identifier, IpHash(env, req.ip), req.at) <==> env.maxAttempts <= RecentFailures(env, w, req)
  {
    hide Count, Number;
    var q := FailureQuery(LoginKey(env, req.call.identifier), IpHash(env, req.ip), req.at - LOGIN_WINDOW);
    CountIsNumber(w.log, q);
    NumberSame(w.log,
      (a: Attempt) => a.key == q.key && q.since <= a.at && (q.exactIp ==> a.ip == q.ip) && (q.failuresOnly ==> !a.success),
      (a: Attempt) =>
        a.key == env.hash("username:" + req.call.identifier) && !a.success && req.at - 15 * MINUTE <= a.at
        && (req.ip.Some? ==> a.ip == ClientOf(env, req)));
  }

  lemma VerdictIsExact(env: Env, w: World, req: Request)
    requires Configured(env) && req.call.Login?
    ensures var v := Authenticate(env, w, req.at, IpHash(env, req.ip), req.call.isEmail, req.call.identifier, req.call.password).1;
            && (v.Throttled? <==> Throttles(env, w, req))
            && (forall u: nat :: v == Accepted(u) <==> !Throttles(env, w, req) && Admits(env, w, req, u))
  {
    hide FindAccount, LoginThrottled, Throttles, Names, RecordLogin, RegisterFailure, AccountKeys, Forget, LiftExpiredLock;
    var found := FindAccount(w.core.users, req.call.isEmail, req.call.identifier);
    forall u: nat ensures found == Some(u) <==> Names(w.core.users, req.call.isEmail, req.call.identifier, u) {
      FoundIsNamed(w.core.users, req.call.isEmail, req.call.identifier, u);
    }
    ThrottledMeansThrottles(env, w, req);
    AccountEffects.LiftAccount(env, w, found, req.call.identifier, req.at);
  }

  /** The answer to a login that is admitted. */
  predicate LetInAs(env: Env, c: Core, req: Request, u: nat, outcome: Outcome)
    requires req.call.Login? && u < |c.users|
  {
    if Undecided(c.users[u]) then outcome == NotActivated
    else if c.users[u].mfaEnabled then outcome == ChallengeIssued(c.nextId)
    else outcome == SessionOpened(|c.sessions|, None)
  }

  lemma FreeTokenIsNotFound(env: Env, c: Core, token: string)
    requires TokenIsFree(env, c, token)
    ensures FindSession(c.sessions, env.hash(token)).None? && ChallengesFor(c.challenges, env.hash(token)) == {}
  {
  }

  /**
    The answer to every login: turned away for too many failures, refused exactly
    when the password of an account that is not shut is not presented, and
    otherwise let in, held back or asked for a second factor by the account alone.
  */
  lemma LoginIsExact(env: Env, w: World, req: Request)
    requires Configured(env) && env.localLogin && req.call.Login?
    ensures var outcome := Next(env, w, req).outcome;
            && (outcome == Refused(429) <==> Throttles(env, w, req))
            && (outcome.BadCredentials? <==> !Throttles(env, w, req) && forall u: nat :: !Admits(env, w, req, u))
            && (outcome.SessionOpened? || outcome.ChallengeIssued? || outcome.NotActivated? ==>
                  !Throttles(env, w, req) && exists u: nat :: Admits(env, w, req, u) && LetInAs(env, w.core, req, u, outcome))
            && (forall u: nat :: !Throttles(env, w, req) && Admits(env, w, req, u) && (TokenIsFree(env, w.core, req.call.token) || Undecided(w.core.users[u])) ==>
                  LetInAs(env, w.core, req, u, outcome))
  {
    hide Authenticate, Throttles, Admits, FindSession, ChallengesFor, TokenIsFree;
    var call := req.call;
    VerdictIsExact(env, w, req);
    AccountEffects.AuthenticateAccount(env, w, req.at, IpHash(env, req.ip), call.isEmail, call.identifier, call.password);
    var (w1, v) := Authenticate(env, w, req.at, IpHash(env, req.ip), call.isEmail, call.identifier, call.password);
    forall u: nat | Admits(env, w, req, u)
      ensures u < |w.core.users| && FindAccount(w.core.users, call.isEmail, call.identifier) == Some(u)
    {
      AdmittedIsNamed(env, w, req, u);
    }
    if TokenIsFree(env, w.core, call.token) { FreeTokenIsNotFound(env, w.core, call.token); }
  }

  lemma AdmittedIsNamed(env: Env, w: World, req: Request, u: nat)
    requires req.call.Login? && Admits(env, w, req, u)
    ensures u < |w.core.users| && FindAccount(w.core.users, req.call.isEmail, req.call.identifier) == Some(u)
  {
    FoundIsNamed(w.core.users, req.call.isEmail, req.call.identifier, u);
  }

  // ---- the rows a login leaves behind ----

  /** The account after a login that was examined. */
  predicate CountedLogin(env: Env, a: Account, b: Account, at: Time, success: bool) {
    var failures := if RunOut(a, at) then 0 else a.failedLogins;
    var status := if a.status == Locked then Active else a.status;
    if success then b == a.(failedLogins := 0, lockedUntil := None, status := status)
    else if Shut(a, at) then b == a
    else if env.maxAttempts <= failures + 1 then b == a.(failedLogins := failures + 1, status := Locked, lockedUntil := Some(at + env.lockout))
    else b == a.(failedLogins := failures + 1, status := status, lockedUntil := if RunOut(a, at) then None else a.lockedUntil)
  }

  /** A wrong password is counted once and locks at the limit; a right one clears the count; the lock lasts its full time. */
  lemma LoginCounts(env: Env, w: World, req: Request, u: nat)
    requires Configured(env) && env.localLogin && req.call.Login?
    requires Names(w.core.users, req.call.isEmail, req.call.identifier, u) && !Throttles(env, w, req)
    ensures var users := Next(env, w, req).world.core.users;
            u < |users| && CountedLogin(env, w.core.users[u], users[u], req.at, Admits(env, w, req, u))
  {
    hide Authenticate, Throttles, Names, FindAccount, EnterAccount;
    var call := req.call;
    FoundIsNamed(w.core.users, call.isEmail, call.identifier, u);
    VerdictIsExact(env, w, req);
    AccountEffects.AuthenticateAccount(env, w, req.at, IpHash(env, req.ip), call.isEmail, call.identifier, call.password);
    var (w1, v) := Authenticate(env, w, req.at, IpHash(env, req.ip), call.isEmail, call.identifier, call.password);
    if v.Accepted? { EnteringKeepsUsers(env, w1.core, v.user, call.token, req.at); }
    assert v.Accepted? <==> Admits(env, w, req, u) by { AdmittedIsUnique(env, w, req, v, u); }
  }

  lemma AdmittedIsUnique(env: Env, w: World, req: Request, v: Verdict, u: nat)
    requires req.call.Login? && Names(w.core.users, req.call.isEmail, req.call.identifier, u) && !Throttles(env, w, req)
    requires forall x: nat :: v == Accepted(x) <==> !Throttles(env, w, req) && Admits(env, w, req, x)
    ensures v.Accepted? <==> Admits(env, w, req, u)
  {
    hide Throttles;
    if v.Accepted? {
      assert Admits(env, w, req, v.user);
      assert v.user == u;
    }
  }

  lemma EnteringKeepsUsers(env: Env, c: Core, u: nat, token: string, at: Time)
    requires u < |c.users|
    ensures EnterAccount(env, c, u, token, at).0.users == c.users
  {
  }

  /** A session or a challenge that a login yields is for the account it named and the password it presented. */
  lemma LoginStores(env: Env, w: World, req: Request)
    requires Configured(env) && env.localLogin && req.call.Login?
    ensures var s := Next(env, w, req);
            var (c, c1) := (w.core, s.world.core);
            && c1 == c.(users := c1.users, sessions := c1.sessions, challenges := c1.challenges, nextId := c1.nextId)
            && (s.outcome.SessionOpened? ==>
                  exists u: nat :: Admits(env, w, req, u) && c1.challenges == c.challenges && c1.nextId == c.nextId
                    && c1.sessions == c.sessions + [Session(u, env.hash(req.call.token), req.at, req.at, req.at + env.lifetime, req.at + env.idle, None, false, false)])
            && (s.outcome.ChallengeIssued? ==>
                  exists u: nat :: Admits(env, w, req, u) && c1.sessions == c.sessions && c1.nextId == c.nextId + 1
                    && c1.challenges == c.challenges[c.nextId := Challenge(u, env.hash(req.call.token), req.at + 5 * MINUTE, None, 0)])
            && (!s.outcome.SessionOpened? && !s.outcome.ChallengeIssued? ==>
                  c1.sessions == c.sessions && c1.challenges == c.challenges && c1.nextId == c.nextId)
  {
    hide Authenticate, Throttles, Admits, FindSession, ChallengesFor;
    VerdictIsExact(env, w, req);
    var v := Authenticate(env, w, req.at, IpHash(env, req.ip), req.call.isEmail, req.call.identifier, req.call.password).1;
    if v.Accepted? { assert Admits(env, w, req, v.user); }
  }

  /** A failure that an admitted login, or one after a lock ran out, wipes out: of the account, or of the identifier itself. */
  predicate Wiped(env: Env, a: Account, identifier: string, r: Attempt) {
    !r.success
    && (r.key == env.hash("username:" + a.username) || (a.email.Some? && r.key == env.hash("username:" + a.email.value))
        || r.key == env.hash("username:" + identifier))
  }

  /** The log after an examined login: its own row is new, wiped failures and rows older than thirty days are gone, and all else is as it was. */
  lemma LoginLogs(env: Env, w: World, req: Request, r: Attempt)
    requires Configured(env) && env.localLogin && req.call.Login? && w.prunes && !Throttles(env, w, req)
    ensures var (call, users, log) := (req.call, w.core.users, multiset(Next(env, w, req).world.log));
            var row := Attempt(env.hash("username:" + call.identifier), ClientOf(env, req), exists u: nat :: Admits(env, w, req, u), req.at);
            var wiped := exists u: nat :: Names(users, call.isEmail, call.identifier, u) && Wiped(env, users[u], call.identifier, r)
                                     && (row.success || RunOut(users[u], req.at));
            log[r] == (if r.at < req.at - 30 * DAY || wiped then 0 else multiset(w.log)[r]) + if r == row then 1 else 0
  {
    hide Next, Authenticate, Throttles, Admits, Forget, Since, FindAccount, AccountKeys, Names;
    var (call, users) := (req.call, w.core.users);
    var found := FindAccount(users, call.isEmail, call.identifier);
    VerdictIsExact(env, w, req);
    forall u: nat ensures found == Some(u) <==> Names(users, call.isEmail, call.identifier, u) {
      FoundIsNamed(users, call.isEmail, call.identifier, u);
    }
    var v := Authenticate(env, w, req.at, IpHash(env, req.ip), call.isEmail, call.identifier, call.password).1;
    assert v.Accepted? <==> exists u: nat :: Admits(env, w, req, u) by {
      if v.Accepted? { assert Admits(env, w, req, v.user); }
    }
    var e := Throttling.LoginEffect(env, w, req);
    var kept := Forget(w.log, e.cleared);
    SinceDeletes(kept + [e.row.value], req.at - RETENTION, r);
    ForgetDeletes(w.log, e.cleared, r);
    if found.Some? { ClearedAreWiped(env, users[found.value], call.identifier, r); }
  }

  lemma ClearedAreWiped(env: Env, a: Account, identifier: string, r: Attempt)
    ensures !r.success && r.key in AccountKeys(env, a) + {LoginKey(env, identifier)} <==> Wiped(env, a, identifier, r)
  {
  }

  // ---- the second step ----

  /** Challenge `k` is the one the token names, and still takes guesses for an account that is not barred. */
  predicate Challenges(env: Env, c: Core, req: Request, k: nat)
    requires req.call.VerifyMfa?
  {
    && k in c.challenges && c.challenges[k].tokenHash == env.hash(req.call.challengeToken)
    && (forall j :: j in c.challenges && c.challenges[j].tokenHash == env.hash(req.call.challengeToken) ==> k <= j)
    && c.challenges[k].usedAt.None? && req.at < c.challenges[k].expires && c.challenges[k].failedAttempts < 5
    && c.challenges[k].user < |c.users|
    && c.users[c.challenges[k].user].status != Disabled && c.users[c.challenges[k].user].status != Locked
  }

  lemma ChallengeIsFound(env: Env, c: Core, req: Request, k: nat)
    requires req.call.VerifyMfa?
    ensures var found := ChallengesFor(c.challenges, env.hash(req.call.challengeToken));
            Challenges(env, c, req, k) <==>
              && found != {} && k == First(found) && ChallengeOpen(c.challenges[k], req.at)
              && c.challenges[k].user < |c.users| && !Barred(c.users[c.challenges[k].user])
  {
    var found := ChallengesFor(c.challenges, env.hash(req.call.challengeToken));
    assert forall j :: j in found <==> j in c.challenges && c.challenges[j].tokenHash == env.hash(req.call.challengeToken);
    if k in found {
      assert IsFirst(First(found), found);
      assert k == First(found) <==> forall j :: j in found ==> k <= j;
    }
  }

  /**
    The answer to every second step: an open challenge takes the guess, which
    opens a session for the account of the challenge and uses it up, or is
    counted against it; nothing else is let in.
  */
  lemma SecondStepIsExact(env: Env, w: World, req: Request, k: nat)
    requires req.call.VerifyMfa?
    ensures var s := Next(env, w, req);
            var (c, c1, token) := (w.core, s.world.core, req.call.token);
            && s.world.log == w.log && c1.users == c.users
            && (s.outcome == Refused(401) <==> forall j: nat :: !Challenges(env, c, req, j))
            && (Challenges(env, c, req, k) ==>
                  var ch := c.challenges[k];
                  if s.factor.NoFactor? then
                    s.outcome == GuessRefused(k) && c1.sessions == c.sessions
                    && c1.challenges == c.challenges[k := ch.(failedAttempts := ch.failedAttempts + 1)]
                  else if TokenIsFree(env, c, token) then
                    && s.outcome == SessionOpened(|c.sessions|, Some(k))
                    && c1.sessions == c.sessions + [Session(ch.user, env.hash(token), req.at, req.at, req.at + env.lifetime, req.at + env.idle, None, true, false)]
                    && c1.challenges == c.challenges[k := ch.(usedAt := Some(req.at))]
                  else s.outcome == Refused(500) || s.outcome == SessionOpened(|c.sessions|, Some(k)))
  {
    hide VerifyFactor, FindSession, TokenIsFree, Challenges, Barred, ChallengeOpen;
    var found := ChallengesFor(w.core.challenges, env.hash(req.call.challengeToken));
    forall j: nat ensures Challenges(env, w.core, req, j) <==>
      && found != {} && j == First(found) && ChallengeOpen(w.core.challenges[j], req.at)
      && w.core.challenges[j].user < |w.core.users| && !Barred(w.core.users[w.core.challenges[j].user])
    {
      ChallengeIsFound(env, w.core, req, j);
    }
    if TokenIsFree(env, w.core, req.call.token) { FreeTokenIsNotFound(env, w.core, req.call.token); }
  }
}
