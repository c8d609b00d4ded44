/**
  A lockout always has an end, nothing but an administrator's order on that
  account can move it, and a correct password at or after the end is accepted
  without being throttled.
*/
module LockoutSafety {
  import opened Options
  import opened Clock
  import opened AccessTables
  import opened AttemptLog
  import opened AccessSpec
  import opened AccountEffects

  ghost predicate LocksTimed(users: seq<Account>) {
    forall i :: 0 <= i < |users| && users[i].status == Locked ==> users[i].lockedUntil.Some?
  }

  /** In every reachable state a locked account knows when its lock ends. */
  lemma {:induction false} LockedAccountsHaveAnEnd(env: Env, w: World, reqs: seq<Request>)
    requires LocksTimed(w.core.users)
    ensures LocksTimed(Run(env, w, reqs).core.users)
    decreases |reqs|
  {
    hide Next, IsLastAdmin;
    if reqs != [] {
      var e := NextEdit(env, w, reqs[0]);
      LockedAccountsHaveAnEnd(env, Next(env, w, reqs[0]).world, reqs[1..]);
    }
  }

  /** Requests made before a lock ends, other than orders on that account, leave the account exactly as it is. */
  lemma {:induction false} LockHolds(env: Env, w: World, reqs: seq<Request>, u: nat)
    requires u < |w.core.users| && HeldThroughout(w.core.users[u], u, reqs)
    ensures u < |Run(env, w, reqs).core.users| && Run(env, w, reqs).core.users[u] == w.core.users[u]
    decreases |reqs|
  {
    hide Next, IsLastAdmin, Lawful;
    if reqs != [] {
      var e := NextEdit(env, w, reqs[0]);
      var w1 := Next(env, w, reqs[0]).world;
      assert w1.core.users[u] == w.core.users[u];
      LockHolds(env, w1, reqs[1..], u);
    }
  }

  lemma FindStaysFirst(users: seq<Account>, after: seq<Account>, isEmail: bool, identifier: string, u: nat)
    requires FindAccount(users, isEmail, identifier) == Some(u) && |users| <= |after| && after[u] == users[u]
    requires forall i :: 0 <= i < u && Named(after[i], isEmail, identifier) ==> Named(users[i], isEmail, identifier)
    ensures FindAccount(after, isEmail, identifier) == Some(u)
  {
    hide Named;
  }

  /** Nobody takes over the name or the email of an account that stays as it is. */
  lemma EditKeepsNaming(users: seq<Account>, e: Edit, after: seq<Account>, isEmail: bool, identifier: string, u: nat)
    requires Becomes(users, e, after) && LawfulEdit(users, e) && u < |users| && after[u] == users[u]
    requires FindAccount(users, isEmail, identifier) == Some(u)
    ensures FindAccount(after, isEmail, identifier) == Some(u)
  {
    hide FindAccount, Administers, IsLastAdmin;
    FindStaysFirst(users, after, isEmail, identifier, u);
  }

  /** The identifier that names a held account goes on naming it while the lock lasts. */
  lemma {:induction false} NamingHolds(env: Env, w: World, reqs: seq<Request>, u: nat, isEmail: bool, identifier: string)
    requires FindAccount(w.core.users, isEmail, identifier) == Some(u) && HeldThroughout(w.core.users[u], u, reqs)
    ensures FindAccount(Run(env, w, reqs).core.users, isEmail, identifier) == Some(u)
    decreases |reqs|
  {
    hide Next, FindAccount, IsLastAdmin, Lawful;
    if reqs != [] {
      var e := NextEdit(env, w, reqs[0]);
      var w1 := Next(env, w, reqs[0]).world;
      EditKeepsNaming(w.core.users, e, w1.core.users, isEmail, identifier, u);
      NamingHolds(env, w1, reqs[1..], u, isEmail, identifier);
    }
  }

  predicate LetIn(outcome: Outcome) {
    outcome.SessionOpened? || outcome.ChallengeIssued?
  }

  lemma LiftedIsNotThrottled(env: Env, w: World, u: nat, identifier: string, ip: Option<string>, at: Time)
    requires Configured(env) && u < |w.core.users| && LockExpired(w.core.users[u], at)
    ensures !LoginThrottled(env, LiftExpiredLock(env, w, Some(u), identifier, at).log, identifier, ip, at)
  {
    var key := LoginKey(env, identifier);
    CountForget(Forget(w.log, AccountKeys(env, w.core.users[u])), {key}, FailureQuery(key, ip, at - LOGIN_WINDOW));
  }

  /** A correct password at or after the end of a lock is accepted, whatever was logged meanwhile. */
  lemma ExpiredLockAccepts(env: Env, w: World, u: nat, req: Request)
    requires Configured(env) && env.localLogin && req.call.Login?
    requires FindAccount(w.core.users, req.call.isEmail, req.call.identifier) == Some(u)
    requires LockExpired(w.core.users[u], req.at)
    requires env.verifyPassword(w.core.users[u].passwordHash, req.call.password)
    requires FindSession(w.core.sessions, env.hash(req.call.token)).None? && ChallengesFor(w.core.challenges, env.hash(req.call.token)) == {}
    ensures LetIn(Next(env, w, req).outcome)
    ensures var users := Next(env, w, req).world.core.users; u < |users| && users[u] == ClearFailures(w.core.users[u])
  {
    hide Forget, Count, Since, AccountKeys;
    var at, ip := req.at, IpHash(env, req.ip);
    var w1 := LiftExpiredLock(env, w, Some(u), req.call.identifier, at);
    LiftedIsNotThrottled(env, w, u, req.call.identifier, ip, at);
    assert w1.core.users[u] == ClearFailures(w.core.users[u]);
    var (w2, verdict) := Authenticate(env, w, at, ip, req.call.isEmail, req.call.identifier, req.call.password);
    assert verdict == Accepted(u) && w2.core.users[u] == w1.core.users[u];
  }

  /**
    The whole life of a lock: whatever happens before it ends, short of an order
    on the account, it neither moves nor lifts; then the correct password works.
  */
  lemma LockEndsOnTime(env: Env, w: World, reqs: seq<Request>, u: nat, login: Request)
    requires Configured(env) && env.localLogin
    requires login.call.Login? && FindAccount(w.core.users, login.call.isEmail, login.call.identifier) == Some(u)
    requires w.core.users[u].status == Locked && w.core.users[u].lockedUntil.Some?
    requires forall i :: 0 <= i < |reqs| ==> reqs[i].at < w.core.users[u].lockedUntil.value && !AimsAt(reqs[i], u)
    requires w.core.users[u].lockedUntil.value <= login.at
    requires env.verifyPassword(w.core.users[u].passwordHash, login.call.password)
    requires var w1 := Run(env, w, reqs).core;
             FindSession(w1.sessions, env.hash(login.call.token)).None? && ChallengesFor(w1.challenges, env.hash(login.call.token)) == {}
    ensures u < |Run(env, w, reqs).core.users| && Run(env, w, reqs).core.users[u] == w.core.users[u]
    ensures LetIn(Next(env, Run(env, w, reqs), login).outcome)
  {
    hide Next, Run, FindAccount, FindSession;
    LockHolds(env, w, reqs, u);
    NamingHolds(env, w, reqs, u, login.call.isEmail, login.call.identifier);
    ExpiredLockAccepts(env, Run(env, w, reqs), u, login);
  }
}
