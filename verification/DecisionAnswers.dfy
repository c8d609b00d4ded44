/**
  What registrations, decisions about them, playbook steps, role changes and
  retention are answered and what they leave behind, in terms of the stored rows
  alone; and how many registrations and decisions fit in a span of time.
*/
module DecisionAnswers {
  import opened Options
  import opened Clock
  import opened Counting
  import opened AccessTables
  import opened AttemptLog
  import opened AccessSpec
  import opened LoginAnswers
  import opened FactorChecks
  import opened OrderAnswers
  import AccountEffects

  // ---- playbook steps ----

  predicate TwoActiveAdmins(users: seq<Account>) {
    exists i, j :: 0 <= i < j < |users| && users[i].isAdmin && users[i].status == Active && users[j].isAdmin && users[j].status == Active
  }

  lemma {:induction false} TwoOrMore(s: set<nat>)
    ensures |s| > 1 <==> exists i, j :: i in s && j in s && i < j
  {
    if i, j :| i in s && j in s && i < j {
      assert {i, j} <= s;
      assert |s - {i, j}| == |s| - 2;
    }
    if |s| > 1 {
      var i :| i in s;
      assert |s - {i}| >= 1;
      var j :| j in s - {i};
      assert (if i < j then i else j) in s && (if i < j then j else i) in s;
    }
  }

  lemma GuardIsExact(users: seq<Account>)
    ensures |ActiveAdmins(users)| > 1 <==> TwoActiveAdmins(users)
  {
    TwoOrMore(ActiveAdmins(users));
    if TwoActiveAdmins(users) {
      var i: nat, j: nat :| i < j < |users| && users[i].isAdmin && users[i].status == Active && users[j].isAdmin && users[j].status == Active;
      assert i in ActiveAdmins(users) && j in ActiveAdmins(users);
    }
  }

  /** A playbook step goes through exactly when it has a reason, a target and its own guard; then it changes that target alone. */
  lemma StepIsExact(env: Env, w: World, req: Request, current: nat, me: nat)
    requires ComesFrom(env, w, req, current, me) && req.call.action.Playbook?
    ensures var (c, s, step, reasoned) := (Admitted(env, w, req), Next(env, w, req), req.call.action.step, req.call.action.reasoned);
            var c1 := s.world.core;
            && s.world.log == w.log && c1 == c.(users := c1.users, sessions := c1.sessions) && (!s.outcome.Done? ==> c1 == c)
            && match step {
                 case RevokeSelected(i) =>
                   && (s.outcome.Done? <==> reasoned && i < |c.sessions| && !c.sessions[i].purged && i != current)
                   && (s.outcome.Done? ==>
                         var since := if c.sessions[i].revoked.Some? then c.sessions[i].revoked.value.at else req.at;
                         c1.users == c.users && c1.sessions == c.sessions[i := c.sessions[i].(revoked := Some(Revocation(since, "soar_sensitive_action")))])
                 case RevokeOthers(u) =>
                   && (s.outcome.Done? <==> reasoned && u < |c.users| && u != me)
                   && (s.outcome.Done? ==> c1.users == c.users && UserRevoked(c.sessions, c1.sessions, u, req.at, "soar_sensitive_action", None))
                 case SuspendUser(u) =>
                   && (s.outcome.Done? <==> reasoned && u < |c.users| && u != me && (c.users[u].isAdmin ==> TwoActiveAdmins(c.users)))
                   && (s.outcome.Done? ==>
                         && c1.users == c.users[u := c.users[u].(status := Disabled)]
                         && UserRevoked(c.sessions, c1.sessions, u, req.at, "user_disabled_by_soar", None))
                 case ReinstateUser(u) =>
                   && (s.outcome.Done? <==> reasoned && u < |c.users|)
                   && (s.outcome.Done? ==> c1.users == c.users[u := c.users[u].(status := Active)] && c1.sessions == c.sessions)
               }
  {
    hide RevokeAll, Lookup, ActiveAdmins, TwoActiveAdmins, UserRevoked;
    AdmittedState(env, w, req, current, me);
    var (c, step) := (Admitted(env, w, req), req.call.action.step);
    GuardIsExact(c.users);
    match step
    case RevokeOthers(u) => RevokeAllIsExact(c.sessions, u, req.at, "soar_sensitive_action", None);
    case SuspendUser(u) => RevokeAllIsExact(c.sessions, u, req.at, "user_disabled_by_soar", None);
    case _ =>
  }

  // ---- roles ----

  predicate Holds(users: seq<Account>, u: nat, key: string) {
    u < |users| && key in users[u].roles
  }

  /** Exactly the sessions of the users who hold the role are revoked. */
  ghost predicate HoldersRevoked(c: Core, after: seq<Session>, key: string, at: Time, reason: string) {
    && |after| == |c.sessions|
    && (forall i :: 0 <= i < |after| && Holds(c.users, c.sessions[i].user, key) ==> NowRevoked(c.sessions[i], after[i], at, reason))
    && (forall i :: 0 <= i < |after| && !Holds(c.users, c.sessions[i].user, key) ==> after[i] == c.sessions[i])
  }

  lemma RevokeHoldersIsExact(c: Core, key: string, at: Time, reason: string)
    ensures HoldersRevoked(c, RevokeHolders(c.sessions, c.users, key, at, reason), key, at, reason)
  {
  }

  /** System roles keep their name, stay enabled and cannot go, nor can a role somebody holds; a changed role logs its holders out. */
  lemma RoleChangeIsExact(env: Env, w: World, req: Request, current: nat, me: nat)
    requires ComesFrom(env, w, req, current, me) && req.call.action.ManageRole?
    ensures var (c, s, key, change) := (Admitted(env, w, req), Next(env, w, req), req.call.action.key, req.call.action.change);
            var c1 := s.world.core;
            && s.world.log == w.log && c1 == c.(roles := c1.roles, sessions := c1.sessions) && (!s.outcome.Done? ==> c1 == c)
            && match change {
                 case CreateRole(enabled, ok) =>
                   && (s.outcome.Done? <==> key !in c.roles && ok)
                   && (s.outcome.Done? ==> c1.sessions == c.sessions && c1.roles == c.roles[key := Role(enabled, false)])
                 case UpdateRole(renames, enabled) =>
                   && (s.outcome.Done? <==> key in c.roles && (c.roles[key].system ==> !renames && enabled != Some(false)))
                   && (s.outcome.Done? ==>
                         && c1.roles == c.roles[key := Role(if enabled.Some? then enabled.value else c.roles[key].enabled, c.roles[key].system)]
                         && HoldersRevoked(c, c1.sessions, key, req.at, "role_changed"))
                 case DeleteRole =>
                   && (s.outcome.Done? <==> key in c.roles && !c.roles[key].system && forall u: nat :: !Holds(c.users, u, key))
                   && (s.outcome.Done? ==> c1.sessions == c.sessions && c1.roles == c.roles - {key})
                 case SetPermissions(valid) =>
                   && (s.outcome.Done? <==> key in c.roles && !c.roles[key].system && valid)
                   && (s.outcome.Done? ==> c1.roles == c.roles && HoldersRevoked(c, c1.sessions, key, req.at, "role_permissions_changed"))
               }
  {
    hide RevokeHolders, Lookup, HoldersRevoked;
    AdmittedState(env, w, req, current, me);
    var (c, key) := (Admitted(env, w, req), req.call.action.key);
    RevokeHoldersIsExact(c, key, req.at, "role_changed");
    RevokeHoldersIsExact(c, key, req.at, "role_permissions_changed");
    assert RoleHeld(c.users, key) <==> exists u: nat :: Holds(c.users, u, key) by {
      if RoleHeld(c.users, key) {
        var u: nat :| u < |c.users| && key in c.users[u].roles;
        assert Holds(c.users, u, key);
      }
    }
  }

  // ---- retention ----

  /** Retention deletes the rows it was told to, of those that are old enough and done with, and touches nothing else. */
  lemma RetentionIsExact(env: Env, w: World, req: Request)
    requires req.call.Retain? && req.call.permitted && Lookup(env, w.core, req.at, req.call.cookie).1.Some?
    ensures var (c, s, rows) := (Lookup(env, w.core, req.at, req.call.cookie).0, Next(env, w, req), req.call.rows);
            var c1 := s.world.core;
            && (!s.outcome.Done? ==> s.world == w.(core := c))
            && c1 == c.(sessions := c1.sessions, challenges := c1.challenges)
            && match rows {
                 case OldSessions(doomed) =>
                   && s.outcome.Done? && s.world.log == w.log && c1.challenges == c.challenges && |c1.sessions| == |c.sessions|
                   && forall i :: 0 <= i < |c.sessions| ==>
                        c1.sessions[i] == if i in doomed && c.sessions[i].revoked.Some? && c.sessions[i].expires < req.at
                                          then c.sessions[i].(purged := true) else c.sessions[i]
                 case OldChallenges(days, doomed) =>
                   && (s.outcome.Done? <==> days >= 1) && s.world.log == w.log && c1.sessions == c.sessions
                   && (s.outcome.Done? ==>
                         forall k :: (k in c.challenges && k !in c1.challenges <==>
                                        k in c.challenges && k in doomed && c.challenges[k].usedAt.Some? && c.challenges[k].usedAt.value < req.at - days * DAY)
                                     && (k in c1.challenges ==> k in c.challenges && c1.challenges[k] == c.challenges[k]))
                 case OldAttempts(days, doomed) =>
                   && (s.outcome.Done? <==> days >= 1) && c1 == c
                   && (s.outcome.Done? && w.prunes ==>
                         |w.log| == |s.world.log| + |Doomed(w.log, doomed, req.at - days * DAY)|)
               }
  {
    hide Lookup, Purge;
    if req.call.rows.OldAttempts? {
      PurgeDeletes(w.log, req.call.rows.doomed, req.at - req.call.rows.days * DAY);
    }
  }

  // ---- decisions about registrations ----

  function NameOf(m: Management): string {
    match m
    case Approve(_, _) => "approve"
    case Reject(_) => "reject"
    case Reopen => "reopen"
    case Unlock => "unlock"
  }

  function DecisionKey(env: Env, actor: nat, m: Management): string {
    env.hash("registration-management:" + Decimal(actor) + ":" + NameOf(m))
  }

  /** The decisions of this kind by this actor from this address in five minutes. */
  ghost function RecentDecisions(env: Env, w: World, req: Request, actor: nat): nat
    requires req.call.Manage?
  {
    Number(w.log, (a: Attempt) => a.key == DecisionKey(env, actor, req.call.managed) && a.ip == ClientOf(env, req) && req.at - 5 * MINUTE <= a.at)
  }

  function Granted(keys: set<string>): set<string> {
    if keys == {} then {"registered_user"} else keys
  }

  predicate MayDecide(c: Core, u: nat, m: Management)
    requires u < |c.users|
  {
    match m
    case Approve(keys, confirmed) =>
      Undecided(c.users[u]) && AllEnabled(c.roles, Granted(keys)) && ("administrator" in Granted(keys) ==> confirmed)
    case Reject(reasonOk) =>
      reasonOk && (c.users[u].status == PendingApproval || c.users[u].status == Active) && (c.users[u].isAdmin ==> AnotherAdministers(c.users, u))
    case Reopen => c.users[u].status == Rejected
    case Unlock => true
  }

  /** The account after a decision about it. */
  predicate ObeysDecision(a: Account, b: Account, m: Management) {
    match m
    case Approve(keys, _) => b == a.(status := Active, isAdmin := "administrator" in Granted(keys), roles := Granted(keys))
    case Reject(_) => b == a.(status := Rejected)
    case Reopen => b == a.(status := PendingApproval)
    case Unlock => b == a.(failedLogins := 0, lockedUntil := None, status := if a.status == Locked then Active else a.status)
  }

  lemma DecideIsExact(c: Core, u: nat, at: Time, m: Management)
    requires u < |c.users|
    ensures var (c1, outcome) := Decide(c, u, at, m);
            && (outcome.Done? <==> MayDecide(c, u, m)) && (!outcome.Done? ==> outcome == Refused(422) && c1 == c)
            && (outcome.Done? ==>
                  && c1 == c.(users := c1.users, sessions := c1.sessions)
                  && |c1.users| == |c.users| && (forall v :: 0 <= v < |c.users| && v != u ==> c1.users[v] == c.users[v])
                  && ObeysDecision(c.users[u], c1.users[u], m)
                  && (m.Reject? ==> UserRevoked(c.sessions, c1.sessions, u, at, "registration_rejected", None))
                  && (!m.Reject? ==> c1.sessions == c.sessions))
  {
    hide RevokeAll, IsLastAdmin, UserRevoked, AnotherAdministers;
    LastAdminIsAlone(c.users, u);
    RevokeAllIsExact(c.sessions, u, at, "registration_rejected", None);
  }

  lemma DecisionsAreCounted(env: Env, w: World, req: Request, actor: nat)
    requires req.call.Manage?
    ensures ManagementThrottled(env, w.log, actor, ManagementName(req.call.managed), IpHash(env, req.ip), req.at) <==> 20 <= RecentDecisions(env, w, req, actor)
  {
    hide Count, Number, Decimal;
    var q := Query(ManagementKey(env, actor, ManagementName(req.call.managed)), IpHash(env, req.ip), true, false, req.at - MANAGEMENT_WINDOW);
    CountIsNumber(w.log, q);
    NumberSame(w.log,
      (a: Attempt) => a.key == q.key && q.since <= a.at && (q.exactIp ==> a.ip == q.ip) && (q.failuresOnly ==> !a.success),
      (a: Attempt) => a.key == DecisionKey(env, actor, req.call.managed) && a.ip == ClientOf(env, req) && req.at - 5 * MINUTE <= a.at);
  }

  /**
    Approving, rejecting and reopening: refused after twenty in five minutes, and
    otherwise recorded, whether or not they go through; they go through exactly
    from the statuses that allow them.  Unlocking is neither limited nor recorded.
  */
  lemma DecisionIsExact(env: Env, w: World, req: Request, i: nat)
    requires req.call.Manage? && req.call.permitted && Lookup(env, w.core, req.at, req.call.cookie).1 == Some(i)
    ensures var (c, s, u, m) := (Lookup(env, w.core, req.at, req.call.cookie).0, Next(env, w, req), req.call.target, req.call.managed);
            i < |c.sessions| &&
            var actor := c.sessions[i].user;
            if u >= |c.users| then s == Step(w.(core := c), Refused(404), NoFactor)
            else if m.Unlock? then
              s.outcome.Done? && (s.world.core, s.outcome) == Decide(c, u, req.at, m) && MayDecide(c, u, m)
              && forall a: Attempt :: multiset(s.world.log)[a] == if !a.success && FiledUnder(env, a.key, c.users[u]) then 0 else multiset(w.log)[a]
            else if 20 <= RecentDecisions(env, w, req, actor) then s == Step(w.(core := c), Refused(429), NoFactor)
            else
              && s.world.log == w.log + [Attempt(DecisionKey(env, actor, m), ClientOf(env, req), true, req.at)]
              && (s.world.core, s.outcome) == Decide(c, u, req.at, m) && (s.outcome.Done? <==> MayDecide(c, u, m))
  {
    hide Lookup, Decide, Count, RecentDecisions, ManagementThrottled, Forget, AccountKeys, Decimal, MayDecide;
    var (c, u, m) := (Lookup(env, w.core, req.at, req.call.cookie).0, req.call.target, req.call.managed);
    DecisionsAreCounted(env, w, req, c.sessions[i].user);
    if u < |c.users| {
      DecideIsExact(c, u, req.at, m);
      forall a: Attempt ensures multiset(Forget(w.log, AccountKeys(env, c.users[u])))[a] ==
        if !a.success && FiledUnder(env, a.key, c.users[u]) then 0 else multiset(w.log)[a]
      {
        ForgetDeletes(w.log, AccountKeys(env, c.users[u]), a);
        KeysOfAccount(env, c.users[u], a.key);
      }
      UnlockMayAlways(c, u);
    }
  }

  lemma UnlockMayAlways(c: Core, u: nat)
    requires u < |c.users|
    ensures MayDecide(c, u, Unlock)
  {
  }

  /** Failed logins of the account are filed under its name and under its email. */
  predicate FiledUnder(env: Env, key: string, a: Account) {
    key == env.hash("username:" + a.username) || (a.email.Some? && key == env.hash("username:" + a.email.value))
  }

  lemma KeysOfAccount(env: Env, a: Account, key: string)
    ensures key in AccountKeys(env, a) <==> FiledUnder(env, key, a)
  {
  }

  // ---- registering ----

  /** The failed registrations of this email, from this address if known, in fifteen minutes. */
  ghost function RecentRegistrations(env: Env, w: World, req: Request): nat
    requires req.call.Register?
  {
    Number(w.log, (a: Attempt) =>
      a.key == env.hash("registration:" + req.call.email) && !a.success && req.at - 15 * MINUTE <= a.at
      && (req.ip.Some? ==> a.ip == ClientOf(env, req)))
  }

  lemma RegistrationsAreCounted(env: Env, w: World, req: Request)
    requires req.call.Register?
    ensures RegistrationThrottled(env, w.log, req.call.email, IpHash(env, req.ip), req.at) <==> 5 <= RecentRegistrations(env, w, req)
  {
    hide Count, Number;
    var q := FailureQuery(RegistrationKey(env, req.call.email), IpHash(env, req.ip), req.at - LOGIN_WINDOW);
    CountIsNumber(w.log, q);
    NumberSame(w.log,
      (a: Attempt) => a.key == q.key && q.since <= a.at && (q.exactIp ==> a.ip == q.ip) && (q.failuresOnly ==> !a.success),
      (a: Attempt) =>
        a.key == env.hash("registration:" + req.call.email) && !a.success && req.at - 15 * MINUTE <= a.at
        && (req.ip.Some? ==> a.ip == ClientOf(env, req)));
  }

  /** The registration can become an account. */
  predicate MayRegister(c: Core, call: Call)
    requires call.Register?
  {
    && call.wellFormed && "registered_user" in c.roles && c.roles["registered_user"].enabled
    && forall j :: 0 <= j < |c.users| ==> c.users[j].email != Some(call.email) && c.users[j].username != call.username
  }

  /**
    Registering oneself: off when registration is, refused after five failures in
    fifteen minutes, recorded either way, and never more than an ordinary account,
    which waits for approval where approval is required.
  */
  lemma RegistrationIsExact(env: Env, w: World, req: Request)
    requires req.call.Register?
    ensures var (s, call) := (Next(env, w, req), req.call);
            var key := env.hash("registration:" + call.email);
            if env.registration == RegistrationDisabled || !env.localLogin then s == Step(w, Refused(403), NoFactor)
            else if 5 <= RecentRegistrations(env, w, req) then s == Step(w, Refused(429), NoFactor)
            else if !MayRegister(w.core, call) then
              s == Step(w.(log := w.log + [Attempt(key, ClientOf(env, req), false, req.at)]), Refused(422), NoFactor)
            else
              var status := if env.registration == ApprovalRequired then PendingApproval else Active;
              var a := Account(call.username, Some(call.email), call.passwordHash, status, false, 0, None, false, false, {"registered_user"});
              && s.outcome.Done? && s.world.core == w.core.(users := w.core.users + [a])
              && s.world.log != [] && s.world.log[|s.world.log| - 1] == Attempt(key, ClientOf(env, req), true, req.at)
              && forall r: Attempt :: multiset(s.world.log[..|s.world.log| - 1])[r] == if !r.success && FiledUnder(env, r.key, a) then 0 else multiset(w.log)[r]
  {
    hide FindAccount, Forget, AccountKeys, Count, RecentRegistrations, RegistrationThrottled;
    var call := req.call;
    RegistrationsAreCounted(env, w, req);
    UsernameIsTaken(w.core.users, true, call.email);
    UsernameIsTaken(w.core.users, false, call.username);
    var status := if env.registration == ApprovalRequired then PendingApproval else Active;
    var a := Account(call.username, Some(call.email), call.passwordHash, status, false, 0, None, false, false, {"registered_user"});
    var kept := Forget(w.log, AccountKeys(env, a));
    forall r: Attempt ensures multiset(kept)[r] == if !r.success && FiledUnder(env, r.key, a) then 0 else multiset(w.log)[r] {
      ForgetDeletes(w.log, AccountKeys(env, a), r);
      KeysOfAccount(env, a, r.key);
    }
    var row := Attempt(RegistrationKey(env, call.email), IpHash(env, req.ip), true, req.at);
    assert (kept + [row])[..|kept + [row]| - 1] == kept;
  }
}
