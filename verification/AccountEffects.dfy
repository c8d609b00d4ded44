/**
  What one request can do to the account table: nothing, add one account, or
  rewrite one account within limits.  The safety arguments about administrators
  and lockouts rest on this alone.
*/
module AccountEffects {
  import opened Options
  import opened Clock
  import opened AccessTables
  import opened AttemptLog
  import opened AccessSpec

  predicate Administers(a: Account) {
    a.isAdmin && (a.status == Active || a.status == PendingPasswordChange || a.status == Locked)
  }

  /** The account is under a lock that has not run out. */
  predicate Held(a: Account, at: Time) {
    a.status == Locked && a.lockedUntil.Some? && at < a.lockedUntil.value
  }

  /** The account an action gives an order about: an administrator's, or a playbook's. */
  function Subject(action: Action): Option<nat> {
    match action
    case Admin(u, _) => Some(u)
    case Playbook(SuspendUser(u), _) => Some(u)
    case Playbook(ReinstateUser(u), _) => Some(u)
    case _ => None
  }

  /** The request is an order on account `u`. */
  predicate AimsAt(req: Request, u: nat) {
    || (req.call.Signed? && Subject(req.call.action) == Some(u))
    || (req.call.Manage? && req.call.target == u)
  }

  /** The account, found as `a`, is under a lock that no request of the run outlasts or orders about. */
  ghost predicate HeldThroughout(a: Account, u: nat, reqs: seq<Request>) {
    forall i :: 0 <= i < |reqs| ==> Held(a, reqs[i].at) && !AimsAt(reqs[i], u)
  }

  datatype Edit = Same | Added(a: Account) | Replaced(u: nat, a: Account)

  ghost predicate Becomes(users: seq<Account>, e: Edit, after: seq<Account>) {
    match e
    case Same => after == users
    case Added(a) => after == users + [a]
    case Replaced(u, a) => u < |users| && after == users[u := a]
  }

  /** The name stays, and a new email is not one that another account uses. */
  predicate KeepsNames(users: seq<Account>, u: nat, a: Account)
    requires u < |users|
  {
    a.username == users[u].username && (a.email == users[u].email || !EmailTaken(users, a.email, Some(u)))
  }

  /** An administrator is only lost when it was not the last one counted, a lock always carries its end, and no name is taken over. */
  ghost predicate Lawful(users: seq<Account>, u: nat, a: Account)
    requires u < |users|
  {
    && (Administers(users[u]) ==> Administers(a) || !IsLastAdmin(users, u))
    && (a.status == Locked ==> a.lockedUntil.Some? || (users[u].status == Locked && a.lockedUntil == users[u].lockedUntil))
    && KeepsNames(users, u, a)
  }

  ghost predicate LawfulEdit(users: seq<Account>, e: Edit) {
    match e
    case Same => true
    case Added(a) => a.status != Locked
    case Replaced(u, a) => u < |users| && Lawful(users, u, a)
  }

  /** The edit leaves a held account as it is, unless the request is an order on that account. */
  ghost predicate RespectsLocks(users: seq<Account>, e: Edit, req: Request) {
    e.Replaced? && e.u < |users| && Held(users[e.u], req.at) ==> e.a == users[e.u] || AimsAt(req, e.u)
  }

  /** Registered but not let in: an administrator has not decided, or has decided against it. */
  predicate Waiting(a: Account) {
    a.status == PendingApproval || a.status == Rejected
  }

  predicate SameStanding(a: Account, b: Account) {
    b.failedLogins == a.failedLogins && b.lockedUntil == a.lockedUntil && (Waiting(a) ==> b.status == a.status)
  }

  /** The request is a login that is attempted on account `u`. */
  predicate TriesLogin(env: Env, w: World, req: Request, u: nat) {
    env.localLogin && req.call.Login? && FindAccount(w.core.users, req.call.isEmail, req.call.identifier) == Some(u)
  }

  /** Without an order or a login attempt, an account that is barred or waits stays so. */
  ghost predicate RespectsStanding(env: Env, w: World, e: Edit, req: Request) {
    e.Replaced? && e.u < |w.core.users| ==>
      AimsAt(req, e.u) || TriesLogin(env, w, req, e.u) || (!Barred(w.core.users[e.u]) && SameStanding(w.core.users[e.u], e.a))
  }

  lemma OwnEdit(env: Env, c: Core, me: nat, current: nat, at: Time, own: OwnAction) returns (e: Edit)
    requires me < |c.users|
    ensures Becomes(c.users, e, PerformOwn(env, c, me, current, at, own).0.users) && LawfulEdit(c.users, e)
    ensures e.Replaced? ==> e.u == me && SameStanding(c.users[me], e.a)
  {
    hide RevokeAll, IsLastAdmin;
    e := if own.ChangePassword? && PerformOwn(env, c, me, current, at, own).1.Done?
      then Replaced(me, NewPassword(c.users[me], own.newHash, false)) else Same;
  }

  lemma MfaEdit(env: Env, c: Core, me: nat, current: nat, at: Time, mfa: MfaAction) returns (e: Edit)
    requires me < |c.users|
    ensures Becomes(c.users, e, PerformMfa(env, c, me, current, at, mfa).core.users) && LawfulEdit(c.users, e)
    ensures e.Replaced? ==> e.u == me && e.a == c.users[me].(mfaEnabled := e.a.mfaEnabled)
  {
    hide RevokeAll, IsLastAdmin, VerifyFactor, DropCodes, SwitchOffDevices, DropOpenChallenges, AcceptedCounter;
    var after := PerformMfa(env, c, me, current, at, mfa).core.users;
    match mfa
    case ConfirmMfa(_, _, _) =>
      e := if after == c.users then Same else Replaced(me, c.users[me].(mfaEnabled := true));
    case DisableMfa(_, _, _, _) =>
      e := if after == c.users then Same else Replaced(me, c.users[me].(mfaEnabled := false));
    case _ => e := Same;
  }

  lemma AdminEdit(c: Core, u: nat, at: Time, order: AdminAction) returns (e: Edit)
    requires u < |c.users|
    ensures Becomes(c.users, e, PerformAdmin(c, u, at, order).0.users) && LawfulEdit(c.users, e)
    ensures e.Replaced? ==> e.u == u
  {
    hide RevokeAll, CountedAdmins;
    e := if OrderRefused(c, u, order) then Same else Replaced(u, Ordered(c.users[u], order));
  }

  /** Whatever the guard of a playbook lets through, the last-administrator check would let through too. */
  lemma PlaybookGuardIsStronger(users: seq<Account>, u: nat)
    requires u < |users| && (users[u].isAdmin ==> |ActiveAdmins(users)| > 1)
    ensures !IsLastAdmin(users, u)
  {
    if users[u].isAdmin {
      var admins := ActiveAdmins(users);
      assert |admins - {u}| >= |admins| - 1;
      var other :| other in admins - {u};
      assert other in CountedAdmins(users, u);
    }
  }

  lemma StepEdit(c: Core, me: nat, current: nat, at: Time, step: PlaybookStep, reasoned: bool) returns (e: Edit)
    requires me < |c.users|
    ensures Becomes(c.users, e, PerformStep(c, me, current, at, step, reasoned).0.users) && LawfulEdit(c.users, e)
    ensures e.Replaced? ==> Subject(Playbook(step, reasoned)) == Some(e.u)
  {
    hide RevokeAll, IsLastAdmin, ActiveAdmins;
    e := Same;
    if PerformStep(c, me, current, at, step, reasoned).1.Done? {
      match step
      case SuspendUser(u) =>
        PlaybookGuardIsStronger(c.users, u);
        e := Replaced(u, c.users[u].(status := Disabled));
      case ReinstateUser(u) => e := Replaced(u, c.users[u].(status := Active));
      case _ =>
    }
  }

  lemma ManageEdit(c: Core, u: nat, at: Time, m: Management) returns (e: Edit)
    requires u < |c.users|
    ensures Becomes(c.users, e, Decide(c, u, at, m).0.users) && LawfulEdit(c.users, e)
    ensures e.Replaced? ==> e.u == u
  {
    hide RevokeAll, CountedAdmins;
    e := if ManagementRefused(c, u, m) then Same else Replaced(u, Managed(c.users[u], m));
  }

  /** The account a login names, after the attempt. */
  function AfterLogin(env: Env, a: Account, at: Time, v: Verdict): Account {
    var lifted := if LockExpired(a, at) then ClearFailures(a) else a;
    match v
    case Throttled => lifted
    case Accepted(_) => ClearFailures(lifted)
    case Wrong => if Barred(lifted) then lifted else RegisterFailure(env, lifted, at)
  }

  /** A login keeps an administrator one, gives every lock an end, and cannot touch a lock in force. */
  lemma LoginIsLawful(env: Env, a: Account, at: Time, v: Verdict)
    ensures var b := AfterLogin(env, a, at, v);
            && (Administers(a) ==> Administers(b))
            && (b.status == Locked ==> b.lockedUntil.Some? || (a.status == Locked && b.lockedUntil == a.lockedUntil))
            && (Held(a, at) && !v.Accepted? ==> b == a)
            && b.username == a.username && b.email == a.email
  {
  }

  lemma LiftAccount(env: Env, w: World, found: Option<nat>, identifier: string, at: Time)
    requires found.Some? ==> found.value < |w.core.users|
    ensures var users, after := w.core.users, LiftExpiredLock(env, w, found, identifier, at).core.users;
            match found
            case None => after == users
            case Some(u) => after == users[u := if LockExpired(users[u], at) then ClearFailures(users[u]) else users[u]]
  {
    hide Forget, AccountKeys, ClearFailures, LoginKey;
  }

  lemma AuthenticateOthers(env: Env, w: World, at: Time, ip: Option<string>, isEmail: bool, identifier: string, password: string)
    ensures var users, after := w.core.users, Authenticate(env, w, at, ip, isEmail, identifier, password).0.core.users;
            && |after| == |users|
            && (forall i :: 0 <= i < |users| && FindAccount(users, isEmail, identifier) != Some(i) ==> after[i] == users[i])
  {
    hide RecordLogin, LoginThrottled, AccountKeys, RegisterFailure, ClearFailures, LiftExpiredLock, FindAccount, LockExpired, Barred;
    LiftAccount(env, w, FindAccount(w.core.users, isEmail, identifier), identifier, at);
  }

  lemma AuthenticateAccount(env: Env, w: World, at: Time, ip: Option<string>, isEmail: bool, identifier: string, password: string)
    ensures var (w1, v) := Authenticate(env, w, at, ip, isEmail, identifier, password);
            var found := FindAccount(w.core.users, isEmail, identifier);
            && |w1.core.users| == |w.core.users|
            && (found.Some? ==> w1.core.users[found.value] == AfterLogin(env, w.core.users[found.value], at, v))
            && (found.Some? && v.Accepted? ==> !Held(w.core.users[found.value], at))
  {
    hide Forget, RecordLogin, LoginThrottled, AccountKeys, RegisterFailure, ClearFailures, LiftExpiredLock, FindAccount;
    LiftAccount(env, w, FindAccount(w.core.users, isEmail, identifier), identifier, at);
  }

  lemma AuthenticateEdit(env: Env, w: World, at: Time, ip: Option<string>, isEmail: bool, identifier: string, password: string)
    returns (e: Edit)
    ensures Becomes(w.core.users, e, Authenticate(env, w, at, ip, isEmail, identifier, password).0.core.users)
    ensures LawfulEdit(w.core.users, e)
    ensures e.Replaced? && Held(w.core.users[e.u], at) ==> e.a == w.core.users[e.u]
    ensures e.Replaced? ==> FindAccount(w.core.users, isEmail, identifier) == Some(e.u)
  {
    hide IsLastAdmin, Authenticate, AfterLogin, Administers, Held;
    AuthenticateOthers(env, w, at, ip, isEmail, identifier, password);
    AuthenticateAccount(env, w, at, ip, isEmail, identifier, password);
    var (w1, v) := Authenticate(env, w, at, ip, isEmail, identifier, password);
    var found := FindAccount(w.core.users, isEmail, identifier);
    e := Same;
    if found.Some? {
      LoginIsLawful(env, w.core.users[found.value], at, v);
      e := Replaced(found.value, w1.core.users[found.value]);
    }
  }

  lemma PerformEdit(env: Env, c: Core, at: Time, current: nat, action: Action) returns (e: Edit)
    requires current < |c.sessions| && c.sessions[current].user < |c.users|
    ensures Becomes(c.users, e, Perform(env, c, at, current, action).core.users) && LawfulEdit(c.users, e)
    ensures e.Replaced? && Subject(action).Some? ==> Some(e.u) == Subject(action)
    ensures e.Replaced? && Subject(action).None? ==> e.u == c.sessions[current].user && SameStanding(c.users[e.u], e.a)
  {
    hide PerformOwn, PerformMfa, PerformAdmin, PerformStep, RevokeHolders, Lawful;
    var me := c.sessions[current].user;
    e := Same;
    match action
    case Own(own) => e := OwnEdit(env, c, me, current, at, own);
    case Mfa(mfa) => e := MfaEdit(env, c, me, current, at, mfa);
    case Admin(u, order) => if u < |c.users| { e := AdminEdit(c, u, at, order); }
    case Playbook(step, reasoned) => e := StepEdit(c, me, current, at, step, reasoned);
    case ManageRole(_, _) =>
    case RevokeSession(_, _) =>
    case CreateUser(_, _, _, _, _, _) =>
      var after := Perform(env, c, at, current, action).core.users;
      if after != c.users { e := Added(after[|c.users|]); }
  }

  lemma LookupKeepsUsers(env: Env, c: Core, at: Time, cookie: string)
    ensures var (c1, current) := Lookup(env, c, at, cookie);
            c1.users == c.users && (current.Some? ==> !Barred(c.users[c1.sessions[current.value].user]))
  {
  }

  lemma CompleteLoginKeepsUsers(env: Env, c: Core, at: Time, challengeToken: string, code: string, recovery: bool, token: string)
    ensures CompleteLogin(env, c, at, challengeToken, code, recovery, token).core.users == c.users
  {
    hide VerifyFactor;
  }

  /** Every request makes one lawful edit that respects the locks in force. */
  lemma NextEdit(env: Env, w: World, req: Request) returns (e: Edit)
    ensures Becomes(w.core.users, e, Next(env, w, req).world.core.users)
    ensures LawfulEdit(w.core.users, e) && RespectsLocks(w.core.users, e, req) && RespectsStanding(env, w, e, req)
  {
    hide Perform, Authenticate, Decide, Lookup, CompleteLogin, Lawful, Forget, Count, Purge, PurgeSessions;
    var at, users := req.at, w.core.users;
    e := Same;
    match req.call
    case Login(isEmail, identifier, password, token) =>
      if env.localLogin { e := AuthenticateEdit(env, w, at, IpHash(env, req.ip), isEmail, identifier, password); }
    case Register(email, username, passwordHash, wellFormed) =>
      var after := Next(env, w, req).world.core.users;
      if after != users { e := Added(after[|users|]); }
    case VerifyMfa(challengeToken, code, recovery, token) =>
      CompleteLoginKeepsUsers(env, w.core, at, challengeToken, code, recovery, token);
    case Signed(cookie, permitted, action) =>
      LookupKeepsUsers(env, w.core, at, cookie);
      var (c, current) := Lookup(env, w.core, at, cookie);
      if current.Some? && permitted { e := PerformEdit(env, c, at, current.value, action); }
    case Manage(cookie, permitted, target, managed) =>
      LookupKeepsUsers(env, w.core, at, cookie);
      var (c, current) := Lookup(env, w.core, at, cookie);
      if Next(env, w, req).world.core.users != users { e := ManageEdit(c, target, at, managed); }
    case Retain(cookie, _, _) => LookupKeepsUsers(env, w.core, at, cookie);
  }
}
