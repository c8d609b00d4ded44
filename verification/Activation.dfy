/**
  Who lets a waiting account in.  A registration is meant to become active by an
  administrator's approval, but enough wrong passwords turn a waiting account
  into a locked one, and a locked account becomes active when its lock runs out.
  This module says exactly when that happens.
*/
module Activation {
  import opened Options
  import opened Clock
  import opened AccessTables
  import opened AttemptLog
  import opened AccessSpec
  import opened AccountEffects
  import opened LockoutSafety

  /** The wrong password that locks a waiting account. */
  predicate LocksWaiting(env: Env, w: World, req: Request, u: nat) {
    && TriesLogin(env, w, req, u) && Waiting(w.core.users[u])
    && !LoginThrottled(env, w.log, req.call.identifier, IpHash(env, req.ip), req.at)
    && !env.verifyPassword(w.core.users[u].passwordHash, req.call.password)
    && w.core.users[u].failedLogins + 1 >= env.maxAttempts
  }

  /** A login, with whatever password, tries the account at or after `t`. */
  ghost predicate TriedAfter(env: Env, w: World, reqs: seq<Request>, u: nat, t: Time)
    decreases |reqs|
  {
    reqs != [] &&
    ((TriesLogin(env, w, reqs[0], u) && t <= reqs[0].at) || TriedAfter(env, Next(env, w, reqs[0]).world, reqs[1..], u, t))
  }

  /** The run locks the account by wrong passwords and tries it again once that lock has run out. */
  ghost predicate LockedThenTried(env: Env, w: World, reqs: seq<Request>, u: nat)
    decreases |reqs|
  {
    reqs != [] &&
    var w1 := Next(env, w, reqs[0]).world;
    if LocksWaiting(env, w, reqs[0], u) then TriedAfter(env, w1, reqs[1..], u, reqs[0].at + env.lockout)
    else LockedThenTried(env, w1, reqs[1..], u)
  }

  /** The account is active in some state of the run. */
  ghost predicate EverActive(env: Env, w: World, reqs: seq<Request>, u: nat)
    decreases |reqs|
  {
    || (u < |w.core.users| && w.core.users[u].status == Active)
    || (reqs != [] && EverActive(env, Next(env, w, reqs[0]).world, reqs[1..], u))
  }

  ghost predicate Unordered(reqs: seq<Request>, u: nat) {
    forall i :: 0 <= i < |reqs| ==> !AimsAt(reqs[i], u)
  }

  // ---- one request ----

  lemma UntriedStep(env: Env, w: World, req: Request, u: nat)
    requires u < |w.core.users| && !AimsAt(req, u) && !TriesLogin(env, w, req, u)
    ensures var users := Next(env, w, req).world.core.users;
            && u < |users| && SameStanding(w.core.users[u], users[u])
            && (Barred(w.core.users[u]) ==> users[u] == w.core.users[u])
  {
    hide Next, TriesLogin, Lawful;
    var e := NextEdit(env, w, req);
  }

  lemma TriedStep(env: Env, w: World, req: Request, u: nat)
    requires TriesLogin(env, w, req, u)
    ensures var v := Authenticate(env, w, req.at, IpHash(env, req.ip), req.call.isEmail, req.call.identifier, req.call.password).1;
            var users := Next(env, w, req).world.core.users;
            u < |users| && users[u] == AfterLogin(env, w.core.users[u], req.at, v)
  {
    hide Authenticate, AfterLogin, FindAccount;
    AuthenticateAccount(env, w, req.at, IpHash(env, req.ip), req.call.isEmail, req.call.identifier, req.call.password);
  }

  lemma WaitingVerdict(env: Env, w: World, at: Time, ip: Option<string>, isEmail: bool, identifier: string, password: string, u: nat)
    requires FindAccount(w.core.users, isEmail, identifier) == Some(u) && Waiting(w.core.users[u])
    ensures Authenticate(env, w, at, ip, isEmail, identifier, password).1 ==
            if LoginThrottled(env, w.log, identifier, ip, at) then Throttled
            else if env.verifyPassword(w.core.users[u].passwordHash, password) then Accepted(u) else Wrong
  {
    hide LoginThrottled, RecordLogin, RegisterFailure, ClearFailures, AccountKeys, Forget, FindAccount;
  }

  /** A waiting account stays as it is, apart from its count of failures, unless the request locks it. */
  lemma WaitingStep(env: Env, w: World, req: Request, u: nat)
    requires u < |w.core.users| && Waiting(w.core.users[u]) && !AimsAt(req, u)
    ensures var users := Next(env, w, req).world.core.users;
            && u < |users|
            && if LocksWaiting(env, w, req, u) then users[u].status == Locked && users[u].lockedUntil == Some(req.at + env.lockout)
               else users[u].status == w.core.users[u].status
  {
    hide Next, LoginThrottled, Authenticate, FindAccount;
    if TriesLogin(env, w, req, u) {
      TriedStep(env, w, req, u);
      WaitingVerdict(env, w, req.at, IpHash(env, req.ip), req.call.isEmail, req.call.identifier, req.call.password, u);
    } else {
      UntriedStep(env, w, req, u);
    }
  }

  /** A locked account stays exactly as it is until a login tries it at or after the end of the lock, and is then active. */
  lemma LockedStep(env: Env, w: World, req: Request, u: nat, t: Time)
    requires Configured(env) && u < |w.core.users| && !AimsAt(req, u)
    requires w.core.users[u].status == Locked && w.core.users[u].lockedUntil == Some(t)
    ensures var users := Next(env, w, req).world.core.users;
            && u < |users|
            && if TriesLogin(env, w, req, u) && t <= req.at then users[u].status == Active else users[u] == w.core.users[u]
  {
    hide Next, Authenticate, FindAccount;
    if TriesLogin(env, w, req, u) {
      if t <= req.at {
        TriedStep(env, w, req, u);
      } else {
        LockHolds(env, w, [req], u);
        assert Run(env, w, [req]) == Next(env, w, req).world;
      }
    } else {
      UntriedStep(env, w, req, u);
    }
  }

  // ---- runs ----

  lemma {:induction false} LockedUntilTried(env: Env, w: World, reqs: seq<Request>, u: nat, t: Time)
    requires Configured(env) && u < |w.core.users| && Unordered(reqs, u)
    requires w.core.users[u].status == Locked && w.core.users[u].lockedUntil == Some(t)
    ensures EverActive(env, w, reqs, u) <==> TriedAfter(env, w, reqs, u, t)
    decreases |reqs|
  {
    hide Next, TriesLogin;
    if reqs != [] {
      LockedStep(env, w, reqs[0], u, t);
      if !(TriesLogin(env, w, reqs[0], u) && t <= reqs[0].at) {
        LockedUntilTried(env, Next(env, w, reqs[0]).world, reqs[1..], u, t);
      }
    }
  }

  /**
    Without an order on it, a waiting account becomes active in a run exactly when
    wrong passwords lock it and a later login tries it after that lock.
  */
  lemma {:induction false} WaitingIsActivatedExactlyBy(env: Env, w: World, reqs: seq<Request>, u: nat)
    requires Configured(env) && u < |w.core.users| && Waiting(w.core.users[u]) && Unordered(reqs, u)
    ensures EverActive(env, w, reqs, u) <==> LockedThenTried(env, w, reqs, u)
    decreases |reqs|
  {
    hide Next, LocksWaiting;
    if reqs != [] {
      var w1 := Next(env, w, reqs[0]).world;
      WaitingStep(env, w, reqs[0], u);
      if LocksWaiting(env, w, reqs[0], u) {
        LockedUntilTried(env, w1, reqs[1..], u, reqs[0].at + env.lockout);
      } else {
        WaitingIsActivatedExactlyBy(env, w1, reqs[1..], u);
      }
    }
  }

  // ---- a registration that lets itself in ----

  lemma {:induction false} CountAtMost(log: seq<Attempt>, q: Query, cutoff: Time)
    ensures Count(log, q) <= |log| && |Since(log, cutoff)| <= |log|
  {
    if log != [] { CountAtMost(log[..|log| - 1], q, cutoff); }
  }

  /** One more wrong password on the only account, with few enough failures logged. */
  lemma WrongPassword(env: Env, w: World, req: Request)
    requires Configured(env) && |w.core.users| == 1 && Waiting(w.core.users[0]) && TriesLogin(env, w, req, 0)
    requires !env.verifyPassword(w.core.users[0].passwordHash, req.call.password) && |w.log| < env.maxAttempts
    ensures var w1 := Next(env, w, req).world;
            && w1.core == w.core.(users := [RegisterFailure(env, w.core.users[0], req.at)])
            && |w1.log| <= |w.log| + 1
  {
    hide FindAccount, AccountKeys;
    var row := Attempt(LoginKey(env, req.call.identifier), IpHash(env, req.ip), false, req.at);
    CountAtMost(w.log, FailureQuery(row.key, row.ip, req.at - LOGIN_WINDOW), req.at);
    CountAtMost(w.log + [row], FailureQuery(row.key, row.ip, req.at), req.at - RETENTION);
  }

  /** An account pending approval, two wrong passwords, and the right one when the lock has run out: a session, and no approval. */
  lemma PendingLetsItselfIn(env: Env, at: Time)
    requires Configured(env) && env.localLogin && env.maxAttempts == 2
    requires env.verifyPassword("hash", "right") && !env.verifyPassword("hash", "wrong")
    ensures var ann := Account("ann", None, "hash", PendingApproval, false, 0, None, false, false, {"registered_user"});
            var w := World(Core([ann], map[], [], map[], map[], map[], 0), [], true);
            var wrong := Request(at, None, Login(false, "ann", "wrong", "a"));
            var right := Request(at + env.lockout, None, Login(false, "ann", "right", "b"));
            LetIn(Next(env, Run(env, w, [wrong, wrong]), right).outcome)
  {
    hide Next, FindAccount;
    var ann := Account("ann", None, "hash", PendingApproval, false, 0, None, false, false, {"registered_user"});
    var w := World(Core([ann], map[], [], map[], map[], map[], 0), [], true);
    var wrong := Request(at, None, Login(false, "ann", "wrong", "a"));
    var right := Request(at + env.lockout, None, Login(false, "ann", "right", "b"));
    forall users: seq<Account> | |users| == 1 && users[0].username == "ann" ensures FindAccount(users, false, "ann") == Some(0) {
      assert Named(users[0], false, "ann");
    }
    WrongPassword(env, w, wrong);
    var w1 := Next(env, w, wrong).world;
    WrongPassword(env, w1, wrong);
    var w2 := Next(env, w1, wrong).world;
    assert Run(env, w, [wrong, wrong]) == w2 by {
      assert [wrong, wrong][1..] == [wrong];
      assert Run(env, w1, [wrong]) == Run(env, w2, []);
    }
    assert w2.core.users[0].status == Locked && w2.core.users[0].lockedUntil == Some(at + env.lockout);
    assert w2.core.sessions == [] && w2.core.challenges == map[];
    ExpiredLockAccepts(env, w2, 0, right);
  }
}
