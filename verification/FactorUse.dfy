/**
  How often a one-time code, a recovery code or a login challenge can be used
  over a whole run.  Each has an allowance that no request raises and every use
  lowers, so the number of uses in a run is at most the allowance it starts with.
*/
module FactorUse {
  import opened Options
  import opened Clock
  import opened AccessTables
  import opened AttemptLog
  import opened AccessSpec
  import opened MfaSafety

  // ---- what one request consumes ----

  predicate Above(counter: int, last: Option<int>) {
    last.Some? ==> last.value < counter
  }

  predicate CountsFor(f: Factor, d: nat) {
    f.Totp? && f.device == d
  }

  ghost predicate DevicesStep(c: Core, c1: Core, f: Factor, at: Time) {
    && (forall d :: d in c1.devices ==> d in c.devices || c.nextId <= d)
    && (forall d :: d in c1.devices && d in c.devices && !CountsFor(f, d) ==> c1.devices[d].lastCounter == c.devices[d].lastCounter)
    && (f.Totp? ==>
          && f.device in c.devices && Above(f.counter, c.devices[f.device].lastCounter)
          && f.device in c1.devices && c1.devices[f.device].lastCounter == Some(f.counter)
          && Counter(at) - 1 <= f.counter <= Counter(at) + 1)
  }

  ghost predicate CodesStep(c: Core, c1: Core, f: Factor) {
    && (forall k :: k in c1.codes ==> k in c.codes || c.nextId <= k)
    && (forall k :: k in c1.codes && k in c.codes && c.codes[k].usedAt.Some? ==> c1.codes[k].usedAt.Some?)
    && (f.Recovery? ==>
          && f.code in c.codes && c.codes[f.code].usedAt.None?
          && (f.code in c1.codes ==> c1.codes[f.code].usedAt.Some?))
  }

  ghost predicate ChallengesStep(c: Core, c1: Core, o: Outcome) {
    && (forall k :: k in c1.challenges ==> k in c.challenges || c.nextId <= k)
    && (forall k :: k in c1.challenges && k in c.challenges ==>
          && (c.challenges[k].usedAt.Some? ==> c1.challenges[k].usedAt.Some?)
          && c.challenges[k].failedAttempts <= c1.challenges[k].failedAttempts)
    && (o.GuessRefused? ==>
          && o.challenge in c.challenges && c.challenges[o.challenge].usedAt.None? && c.challenges[o.challenge].failedAttempts < 5
          && o.challenge in c1.challenges && c.challenges[o.challenge].failedAttempts < c1.challenges[o.challenge].failedAttempts)
    && (o.SessionOpened? && o.via.Some? ==>
          && o.via.value in c.challenges && c.challenges[o.via.value].usedAt.None?
          && o.via.value in c1.challenges && c1.challenges[o.via.value].usedAt.Some?)
  }

  ghost predicate Consumes(c: Core, c1: Core, o: Outcome, f: Factor, at: Time) {
    c.nextId <= c1.nextId && DevicesStep(c, c1, f, at) && CodesStep(c, c1, f) && ChallengesStep(c, c1, o)
  }

  predicate NoChallengeUse(o: Outcome) {
    !o.GuessRefused? && (o.SessionOpened? ==> o.via.None?)
  }

  lemma UntouchedConsumes(c: Core, c1: Core, o: Outcome, at: Time)
    requires c1.devices == c.devices && c1.codes == c.codes && c1.challenges == c.challenges && c1.nextId == c.nextId
    requires NoChallengeUse(o)
    ensures Consumes(c, c1, o, NoFactor, at)
  {
  }

  lemma VerifyFactorConsumes(env: Env, c: Core, user: nat, at: Time, value: string, recovery: bool)
    ensures var (c1, f) := VerifyFactor(env, c, user, at, value, recovery);
            DevicesStep(c, c1, f, at) && CodesStep(c, c1, f) && c1.nextId == c.nextId
  {
  }

  lemma EnrollConsumes(env: Env, c: Core, me: nat, at: Time, password: string, restart: bool, secret: string)
    requires me < |c.users| && Fresh(c)
    ensures var (c1, o) := Enroll(env, c, me, at, password, restart, secret);
            Consumes(c, c1, o, NoFactor, at) && NoChallengeUse(o)
  {
    hide PendingDevices;
  }

  lemma ReplaceCodesConsumes(env: Env, c: Core, c1: Core, user: nat, texts: seq<string>, f: Factor)
    requires Fresh(c) && CodesStep(c, c1, f) && c1.nextId == c.nextId
    ensures var r := ReplaceCodes(env, c1, user, texts);
            r.Some? ==> CodesStep(c, r.value, f) && c.nextId <= r.value.nextId && r.value.devices == c1.devices && r.value.challenges == c1.challenges
  {
  }

  lemma AcceptedIsNew(env: Env, d: Device, at: Time, code: string)
    ensures var x := AcceptedCounter(env, d, at, code);
            x.Some? ==> Above(x.value, d.lastCounter) && Counter(at) - 1 <= x.value <= Counter(at) + 1
  {
  }

  lemma ConfirmDeviceConsumes(env: Env, c: Core, me: nat, d: nat, at: Time, code: string, newCodes: seq<string>)
    requires me < |c.users| && d in c.devices && Fresh(c)
    ensures var s := ConfirmDevice(env, c, me, d, at, code, newCodes);
            Consumes(c, s.core, s.outcome, s.factor, at)
  {
    hide ReplaceCodes, AcceptedCounter, Above, Counter;
    AcceptedIsNew(env, c.devices[d], at, code);
    var s := ConfirmDevice(env, c, me, d, at, code, newCodes);
    if s.factor.Totp? {
      var enabled := c.devices[d].(enabled := true, lastCounter := Some(s.factor.counter), enrollmentExpires := None, failedAttempts := 0);
      var c1 := c.(devices := c.devices[d := enabled], users := c.users[me := c.users[me].(mfaEnabled := true)]);
      ReplaceCodesConsumes(env, c, c1, me, newCodes, s.factor);
    }
  }

  lemma ConfirmConsumes(env: Env, c: Core, me: nat, at: Time, code: string, device: Option<nat>, newCodes: seq<string>)
    requires me < |c.users| && Fresh(c)
    ensures var s := Confirm(env, c, me, at, code, device, newCodes);
            Consumes(c, s.core, s.outcome, s.factor, at)
  {
    hide ConfirmDevice, Consumes;
    var s, pending := Confirm(env, c, me, at, code, device, newCodes), NamedPending(c.devices, me, device);
    if MfaEligible(c.users[me], at) && !c.users[me].mfaEnabled && pending != {} {
      ConfirmDeviceConsumes(env, c, me, Newest(pending), at, code, newCodes);
    } else {
      UntouchedConsumes(c, s.core, s.outcome, at);
    }
  }

  lemma SwitchedOffConsumes(c: Core, c1: Core, c2: Core, me: nat, f: Factor, at: Time)
    requires DevicesStep(c, c1, f, at) && CodesStep(c, c1, f) && c1.challenges == c.challenges && c.nextId == c1.nextId == c2.nextId
    requires c2.devices == SwitchOffDevices(c1.devices, me) && c2.codes == DropCodes(c1.codes, me)
    requires c2.challenges == DropOpenChallenges(c1.challenges, me)
    ensures Consumes(c, c2, Done, f, at)
  {
    hide Above, CountsFor, Counter;
  }

  lemma TurnOffConsumes(env: Env, c: Core, me: nat, current: nat, at: Time, confirm: bool, password: string, code: string, recovery: bool)
    requires me < |c.users|
    ensures var s := TurnOffMfa(env, c, me, current, at, confirm, password, code, recovery);
            Consumes(c, s.core, s.outcome, s.factor, at)
  {
    hide VerifyFactor, RevokeAll, Above, Counter;
    VerifyFactorConsumes(env, c, me, at, code, recovery);
    var (c1, f) := VerifyFactor(env, c, me, at, code, recovery);
    hide DevicesStep, CodesStep, SwitchOffDevices, DropCodes, DropOpenChallenges;
    var s := TurnOffMfa(env, c, me, current, at, confirm, password, code, recovery);
    UntouchedConsumes(c, c, s.outcome, at);
    if s.outcome == Done { SwitchedOffConsumes(c, c1, s.core, me, f, at); }
  }

  lemma RegenerateConsumes(env: Env, c: Core, me: nat, at: Time, asRecovery: bool, password: string, code: string, newCodes: seq<string>)
    requires me < |c.users| && Fresh(c)
    ensures var s := Regenerate(env, c, me, at, asRecovery, password, code, newCodes);
            Consumes(c, s.core, s.outcome, s.factor, at)
  {
    hide VerifyFactor, ReplaceCodes, Above, CountsFor, Counter;
    VerifyFactorConsumes(env, c, me, at, code, false);
    var (c1, f) := VerifyFactor(env, c, me, at, code, false);
    ReplaceCodesConsumes(env, c, c1, me, newCodes, f);
  }

  lemma PerformMfaConsumes(env: Env, c: Core, me: nat, current: nat, at: Time, mfa: MfaAction)
    requires me < |c.users| && Fresh(c)
    ensures var s := PerformMfa(env, c, me, current, at, mfa);
            Consumes(c, s.core, s.outcome, s.factor, at)
  {
    hide Enroll, Confirm, TurnOffMfa, Regenerate;
    match mfa
    case EnrollMfa(password, restart, secret) => EnrollConsumes(env, c, me, at, password, restart, secret);
    case MfaStatus =>
    case ConfirmMfa(code, device, newCodes) => ConfirmConsumes(env, c, me, at, code, device, newCodes);
    case CancelMfa =>
    case DisableMfa(confirm, password, code, recovery) => TurnOffConsumes(env, c, me, current, at, confirm, password, code, recovery);
    case RegenerateCodes(asRecovery, password, code, newCodes) => RegenerateConsumes(env, c, me, at, asRecovery, password, code, newCodes);
  }

  lemma AdminConsumes(c: Core, u: nat, at: Time, order: AdminAction)
    requires u < |c.users|
    ensures var (c1, o) := PerformAdmin(c, u, at, order);
            Consumes(c, c1, o, NoFactor, at)
  {
    hide OrderRefused, RevokeAll, Ordered;
  }

  /** The tables behind a second factor are the same. */
  predicate SameFactors(c: Core, c1: Core) {
    c1.devices == c.devices && c1.codes == c.codes && c1.challenges == c.challenges && c1.nextId == c.nextId
  }

  lemma OwnKeepsFactors(env: Env, c: Core, me: nat, current: nat, at: Time, own: OwnAction)
    requires me < |c.users|
    ensures var (c1, o) := PerformOwn(env, c, me, current, at, own);
            SameFactors(c, c1) && NoChallengeUse(o)
  {
    hide RevokeAll, NewPassword;
  }

  lemma StepKeepsFactors(c: Core, me: nat, current: nat, at: Time, step: PlaybookStep, reasoned: bool)
    requires me < |c.users|
    ensures var (c1, o) := PerformStep(c, me, current, at, step, reasoned);
            SameFactors(c, c1) && NoChallengeUse(o)
  {
    hide RevokeAll, ActiveAdmins, Overwrite;
  }

  lemma RoleKeepsFactors(c: Core, at: Time, key: string, change: RoleOrder)
    ensures var (c1, o) := ChangeRole(c, at, key, change);
            SameFactors(c, c1) && NoChallengeUse(o)
  {
    hide RevokeHolders, RoleHeld;
  }

  lemma PerformConsumes(env: Env, c: Core, at: Time, current: nat, action: Action)
    requires current < |c.sessions| && c.sessions[current].user < |c.users| && Fresh(c)
    ensures var s := Perform(env, c, at, current, action);
            Consumes(c, s.core, s.outcome, s.factor, at)
  {
    hide PerformMfa, PerformAdmin, PerformOwn, PerformStep, ChangeRole, Consumes, FindAccount;
    var me, s := c.sessions[current].user, Perform(env, c, at, current, action);
    match action
    case Own(own) =>
      OwnKeepsFactors(env, c, me, current, at, own);
      UntouchedConsumes(c, s.core, s.outcome, at);
    case Mfa(mfa) => PerformMfaConsumes(env, c, me, current, at, mfa);
    case Admin(u, order) => if u < |c.users| { AdminConsumes(c, u, at, order); } else { UntouchedConsumes(c, s.core, s.outcome, at); }
    case Playbook(step, reasoned) =>
      StepKeepsFactors(c, me, current, at, step, reasoned);
      UntouchedConsumes(c, s.core, s.outcome, at);
    case ManageRole(key, change) =>
      RoleKeepsFactors(c, at, key, change);
      UntouchedConsumes(c, s.core, s.outcome, at);
    case RevokeSession(_, _) => UntouchedConsumes(c, s.core, s.outcome, at);
    case CreateUser(_, _, _, _, _, _) => UntouchedConsumes(c, s.core, s.outcome, at);
  }

  lemma CompleteLoginConsumes(env: Env, c: Core, at: Time, challengeToken: string, code: string, recovery: bool, token: string)
    ensures var s := CompleteLogin(env, c, at, challengeToken, code, recovery, token);
            Consumes(c, s.core, s.outcome, s.factor, at)
  {
    hide VerifyFactor, Above, CountsFor, Counter, FindSession;
    var found := ChallengesFor(c.challenges, env.hash(challengeToken));
    if found != {} { VerifyFactorConsumes(env, c, c.challenges[First(found)].user, at, code, recovery); }
  }

  lemma EnterConsumes(env: Env, c: Core, u: nat, token: string, at: Time)
    requires u < |c.users| && Fresh(c)
    ensures var (c1, o) := EnterAccount(env, c, u, token, at);
            Consumes(c, c1, o, NoFactor, at)
  {
    hide FindSession, ChallengesFor;
  }

  lemma ConsumesFrom(c: Core, c0: Core, c1: Core, o: Outcome, f: Factor, at: Time)
    requires SameFactors(c, c0) && Consumes(c0, c1, o, f, at)
    ensures Consumes(c, c1, o, f, at)
  {
  }

  lemma LookupKeepsFactors(env: Env, c: Core, at: Time, cookie: string)
    ensures SameFactors(c, Lookup(env, c, at, cookie).0)
  {
  }

  lemma ManageKeepsFactors(env: Env, w: World, at: Time, ip: Option<string>, actor: nat, u: nat, m: Management)
    ensures var s := ManageAccount(env, w, at, ip, actor, u, m);
            SameFactors(w.core, s.world.core) && s.factor == NoFactor && NoChallengeUse(s.outcome)
  {
    hide Forget, Count, RevokeAll, ManagementRefused, ManagementThrottled;
  }

  lemma RegisterKeepsFactors(env: Env, w: World, req: Request)
    requires req.call.Register?
    ensures var s := Next(env, w, req);
            SameFactors(w.core, s.world.core) && s.factor == NoFactor && NoChallengeUse(s.outcome)
  {
    hide Forget, Count, RolesAssignable, FindAccount;
  }

  lemma RetainConsumes(w: World, at: Time, rows: Retention)
    ensures var s := RetainRows(w, at, rows);
            Consumes(w.core, s.world.core, s.outcome, s.factor, at)
  {
    hide Purge, PurgeSessions;
  }

  lemma LogInConsumes(env: Env, w: World, req: Request)
    requires req.call.Login? && Fresh(w.core)
    ensures var s := Next(env, w, req);
            Consumes(w.core, s.world.core, s.outcome, s.factor, req.at)
  {
    hide Authenticate, EnterAccount, Consumes;
    var at, call, s := req.at, req.call, Next(env, w, req);
    var (w1, verdict) := Authenticate(env, w, at, IpHash(env, req.ip), call.isEmail, call.identifier, call.password);
    if env.localLogin && verdict.Accepted? {
      EnterConsumes(env, w1.core, verdict.user, call.token, at);
      ConsumesFrom(w.core, w1.core, s.world.core, s.outcome, NoFactor, at);
    } else {
      UntouchedConsumes(w.core, s.world.core, s.outcome, at);
    }
  }

  lemma NextConsumes(env: Env, w: World, req: Request)
    requires Fresh(w.core)
    ensures var s := Next(env, w, req);
            Consumes(w.core, s.world.core, s.outcome, s.factor, req.at)
  {
    hide LogIn, SelfRegister, CompleteLogin, Lookup, Perform, ManageAccount, RetainRows, Consumes, FindSession;
    var at, s := req.at, Next(env, w, req);
    match req.call
    case Login(_, _, _, _) => LogInConsumes(env, w, req);
    case Register(_, _, _, _) =>
      RegisterKeepsFactors(env, w, req);
      UntouchedConsumes(w.core, s.world.core, s.outcome, at);
    case VerifyMfa(challengeToken, code, recovery, token) => CompleteLoginConsumes(env, w.core, at, challengeToken, code, recovery, token);
    case Signed(cookie, permitted, action) =>
      LookupKeepsFactors(env, w.core, at, cookie);
      var (c, current) := Lookup(env, w.core, at, cookie);
      if current.Some? && permitted {
        PerformConsumes(env, c, at, current.value, action);
        ConsumesFrom(w.core, c, s.world.core, s.outcome, s.factor, at);
      } else {
        UntouchedConsumes(w.core, s.world.core, s.outcome, at);
      }
    case Manage(cookie, permitted, target, m) =>
      LookupKeepsFactors(env, w.core, at, cookie);
      var (c, current) := Lookup(env, w.core, at, cookie);
      if current.Some? && permitted { ManageKeepsFactors(env, w.(core := c), at, IpHash(env, req.ip), c.sessions[current.value].user, target, m); }
      UntouchedConsumes(w.core, s.world.core, s.outcome, at);
    case Retain(cookie, permitted, rows) =>
      LookupKeepsFactors(env, w.core, at, cookie);
      var (c, current) := Lookup(env, w.core, at, cookie);
      if current.Some? && permitted {
        RetainConsumes(w.(core := c), at, rows);
        ConsumesFrom(w.core, c, s.world.core, s.outcome, s.factor, at);
      } else {
        UntouchedConsumes(w.core, s.world.core, s.outcome, at);
      }
  }

  // ---- one-time codes ----

  /** Every code the device accepts in the run has a counter above `x`. */
  ghost predicate AcceptsOnlyAbove(env: Env, w: World, reqs: seq<Request>, d: nat, x: int)
    decreases |reqs|
  {
    reqs != [] ==>
      var s := Next(env, w, reqs[0]);
      (CountsFor(s.factor, d) ==> x < s.factor.counter) && AcceptsOnlyAbove(env, s.world, reqs[1..], d, x)
  }

  /** The counters the device accepts along the run are strictly increasing. */
  ghost predicate AcceptsIncreasing(env: Env, w: World, reqs: seq<Request>, d: nat)
    decreases |reqs|
  {
    reqs != [] ==>
      var s := Next(env, w, reqs[0]);
      (CountsFor(s.factor, d) ==> AcceptsOnlyAbove(env, s.world, reqs[1..], d, s.factor.counter)) && AcceptsIncreasing(env, s.world, reqs[1..], d)
  }

  /** The device has used counter `x` or a later one, or is gone for good. */
  predicate PastCounter(c: Core, d: nat, x: int) {
    if d in c.devices then c.devices[d].lastCounter.Some? && x <= c.devices[d].lastCounter.value else d < c.nextId
  }

  lemma {:induction false} PastCounterStays(env: Env, w: World, reqs: seq<Request>, d: nat, x: int)
    requires MfaOk(w.core) && PastCounter(w.core, d, x)
    ensures AcceptsOnlyAbove(env, w, reqs, d, x)
    decreases |reqs|
  {
    hide Next, CodesStep, ChallengesStep, FlagsMatch, CodesOwned, CodesDistinct, DevicesOwned;
    if reqs != [] {
      NextConsumes(env, w, reqs[0]);
      NextKeepsMfa(env, w, reqs[0]);
      PastCounterStays(env, Next(env, w, reqs[0]).world, reqs[1..], d, x);
    }
  }

  /** A device accepts each counter at most once, and only in increasing order (section 5.2 of RFC 6238). */
  lemma {:induction false} TotpIsOneTime(env: Env, w: World, reqs: seq<Request>, d: nat)
    requires MfaOk(w.core)
    ensures AcceptsIncreasing(env, w, reqs, d)
    decreases |reqs|
  {
    hide Next, CodesStep, ChallengesStep, MfaOk;
    if reqs != [] {
      var s := Next(env, w, reqs[0]);
      MfaOkIsFresh(w.core);
      NextConsumes(env, w, reqs[0]);
      NextKeepsMfa(env, w, reqs[0]);
      if CountsFor(s.factor, d) { PastCounterStays(env, s.world, reqs[1..], d, s.factor.counter); }
      TotpIsOneTime(env, s.world, reqs[1..], d);
    }
  }

  lemma MfaOkIsFresh(c: Core)
    requires MfaOk(c)
    ensures Fresh(c)
  {
  }

  function AtLeastZero(x: int): nat {
    if x < 0 then 0 else x
  }

  /** How many counters the device can still accept while the clock's counter is in [a, b]. */
  function TotpRoom(c: Core, d: nat, a: int, b: int): nat {
    if d in c.devices then
      var last := c.devices[d].lastCounter;
      AtLeastZero(b + 1 - if last.Some? && a - 2 < last.value then last.value else a - 2)
    else if d < c.nextId then 0
    else AtLeastZero(b - a + 3)
  }

  function TotpUses(env: Env, w: World, reqs: seq<Request>, d: nat, a: int, b: int): nat
    decreases |reqs|
  {
    if reqs == [] then 0
    else
      var s := Next(env, w, reqs[0]);
      TotpUses(env, s.world, reqs[1..], d, a, b) + if CountsFor(s.factor, d) && a <= Counter(reqs[0].at) <= b then 1 else 0
  }

  lemma {:induction false} TotpUsesFitRoom(env: Env, w: World, reqs: seq<Request>, d: nat, a: int, b: int)
    requires MfaOk(w.core)
    ensures TotpUses(env, w, reqs, d, a, b) <= TotpRoom(w.core, d, a, b)
    decreases |reqs|
  {
    hide Next, CodesStep, ChallengesStep, MfaOk;
    if reqs != [] {
      MfaOkIsFresh(w.core);
      NextConsumes(env, w, reqs[0]);
      NextKeepsMfa(env, w, reqs[0]);
      TotpUsesFitRoom(env, Next(env, w, reqs[0]).world, reqs[1..], d, a, b);
    }
  }

  /** A device accepts at most b - a + 3 codes while the clock's counter lies in [a, b]. */
  lemma TotpUsesAreBounded(env: Env, w: World, reqs: seq<Request>, d: nat, a: int, b: int)
    requires MfaOk(w.core) && a <= b
    ensures TotpUses(env, w, reqs, d, a, b) <= b - a + 3
  {
    TotpUsesFitRoom(env, w, reqs, d, a, b);
  }

  // ---- recovery codes ----

  function CodeAllowance(c: Core, k: nat): nat {
    if k in c.codes then (if c.codes[k].usedAt.Some? then 0 else 1) else if k < c.nextId then 0 else 1
  }

  function CodeUses(env: Env, w: World, reqs: seq<Request>, k: nat): nat
    decreases |reqs|
  {
    if reqs == [] then 0
    else
      var s := Next(env, w, reqs[0]);
      CodeUses(env, s.world, reqs[1..], k) + if s.factor == Recovery(k) then 1 else 0
  }

  /** A stored recovery code is accepted at most once in any run, and never again once it was used or replaced. */
  lemma {:induction false} RecoveryCodeIsOneTime(env: Env, w: World, reqs: seq<Request>, k: nat)
    requires MfaOk(w.core)
    ensures CodeUses(env, w, reqs, k) <= CodeAllowance(w.core, k) <= 1
    decreases |reqs|
  {
    hide Next, DevicesStep, ChallengesStep, MfaOk;
    if reqs != [] {
      MfaOkIsFresh(w.core);
      NextConsumes(env, w, reqs[0]);
      NextKeepsMfa(env, w, reqs[0]);
      RecoveryCodeIsOneTime(env, Next(env, w, reqs[0]).world, reqs[1..], k);
    }
  }

  // ---- login challenges ----

  function GuessAllowance(c: Core, k: nat): nat {
    if k in c.challenges then (if c.challenges[k].usedAt.Some? then 0 else AtLeastZero(5 - c.challenges[k].failedAttempts))
    else if k < c.nextId then 0
    else 5
  }

  function SessionAllowance(c: Core, k: nat): nat {
    if k in c.challenges then (if c.challenges[k].usedAt.Some? then 0 else 1) else if k < c.nextId then 0 else 1
  }

  /** The wrong guesses made against a challenge, and the sessions it opened, along a run. */
  function ChallengeUses(env: Env, w: World, reqs: seq<Request>, k: nat): (nat, nat)
    decreases |reqs|
  {
    if reqs == [] then (0, 0)
    else
      var s := Next(env, w, reqs[0]);
      var (guesses, sessions) := ChallengeUses(env, s.world, reqs[1..], k);
      (guesses + (if s.outcome == GuessRefused(k) then 1 else 0),
       sessions + (if s.outcome.SessionOpened? && s.outcome.via == Some(k) then 1 else 0))
  }

  /** A challenge takes at most five wrong guesses and opens at most one session, and none after it was used or dropped. */
  lemma {:induction false} ChallengeIsBounded(env: Env, w: World, reqs: seq<Request>, k: nat)
    requires MfaOk(w.core)
    ensures ChallengeUses(env, w, reqs, k).0 <= GuessAllowance(w.core, k) <= 5
    ensures ChallengeUses(env, w, reqs, k).1 <= SessionAllowance(w.core, k) <= 1
    decreases |reqs|
  {
    hide Next, DevicesStep, CodesStep, MfaOk;
    if reqs != [] {
      MfaOkIsFresh(w.core);
      NextConsumes(env, w, reqs[0]);
      NextKeepsMfa(env, w, reqs[0]);
      ChallengeIsBounded(env, Next(env, w, reqs[0]).world, reqs[1..], k);
    }
  }
}
