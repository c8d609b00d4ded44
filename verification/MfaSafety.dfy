/**
  The second factor over whole runs: every user has at most one device, the
  account flag says whether it is enabled, and recovery codes exist only then.
*/
module MfaSafety {
  import opened Options
  import opened Clock
  import opened AccessTables
  import opened AttemptLog
  import opened AccessSpec
  import AccountEffects

  ghost predicate Fresh(c: Core) {
    && (forall d :: d in c.devices ==> d < c.nextId)
    && (forall k :: k in c.codes ==> k < c.nextId)
    && (forall k :: k in c.challenges ==> k < c.nextId)
  }

  // ---- the flag, the devices and the codes ----

  ghost predicate DevicesOwned(users: seq<Account>, devices: map<nat, Device>) {
    && (forall d :: d in devices ==> devices[d].user < |users|)
    && (forall d, e :: d in devices && e in devices && devices[d].user == devices[e].user ==> d == e)
  }

  ghost predicate FlagsMatch(users: seq<Account>, devices: map<nat, Device>) {
    && (forall d :: d in devices && devices[d].enabled && devices[d].user < |users| ==> users[devices[d].user].mfaEnabled)
    && (forall u :: 0 <= u < |users| && users[u].mfaEnabled ==> EnabledDevices(devices, u) != {})
  }

  ghost predicate CodesOwned(users: seq<Account>, codes: map<nat, RecoveryCode>) {
    forall k :: k in codes ==> codes[k].user < |users| && users[codes[k].user].mfaEnabled
  }

  ghost predicate CodesDistinct(codes: map<nat, RecoveryCode>) {
    forall j, k :: j in codes && k in codes && codes[j].hash == codes[k].hash ==> j == k
  }

  ghost predicate MfaOk(c: Core) {
    Fresh(c) && DevicesOwned(c.users, c.devices) && FlagsMatch(c.users, c.devices) && CodesOwned(c.users, c.codes) && CodesDistinct(c.codes)
  }

  /** Accounts keep their flags, and new accounts start without a second factor. */
  ghost predicate FlagsKept(before: seq<Account>, after: seq<Account>) {
    && |before| <= |after|
    && (forall u :: 0 <= u < |before| ==> after[u].mfaEnabled == before[u].mfaEnabled)
    && (forall u :: |before| <= u < |after| ==> !after[u].mfaEnabled)
  }

  lemma OtherTablesKeep(c: Core, c1: Core)
    requires MfaOk(c) && FlagsKept(c.users, c1.users)
    requires c1.devices == c.devices && c1.codes == c.codes && c.nextId <= c1.nextId
    requires forall k :: k in c1.challenges ==> k < c1.nextId
    ensures MfaOk(c1)
  {
    hide CodesDistinct, EnabledDevices;
  }

  /** The devices kept, or added without being enabled, leave every enabled device in place. */
  lemma FlagsMatchAfter(users: seq<Account>, before: map<nat, Device>, after: map<nat, Device>)
    requires FlagsMatch(users, before)
    requires forall d :: d in before && before[d].enabled ==> d in after && after[d].enabled && after[d].user == before[d].user
    requires forall d :: d in after && after[d].enabled ==> d in before && before[d].enabled && after[d].user == before[d].user
    ensures FlagsMatch(users, after)
  {
    forall u | 0 <= u < |users| && users[u].mfaEnabled ensures EnabledDevices(after, u) != {} {
      var d :| d in EnabledDevices(before, u);
      assert d in EnabledDevices(after, u);
    }
  }

  lemma RewriteDeviceKeeps(c: Core, d: nat, row: Device)
    requires MfaOk(c) && d in c.devices && row.user == c.devices[d].user && row.enabled == c.devices[d].enabled
    ensures MfaOk(c.(devices := c.devices[d := row]))
  {
    hide CodesOwned, CodesDistinct, FlagsMatch;
    FlagsMatchAfter(c.users, c.devices, c.devices[d := row]);
  }

  lemma RewriteCodeKeeps(c: Core, k: nat, row: RecoveryCode)
    requires MfaOk(c) && k in c.codes && row.user == c.codes[k].user && row.hash == c.codes[k].hash
    ensures MfaOk(c.(codes := c.codes[k := row]))
  {
    hide DevicesOwned, FlagsMatch;
  }

  lemma VerifyFactorKeeps(env: Env, c: Core, user: nat, at: Time, value: string, recovery: bool)
    requires MfaOk(c)
    ensures MfaOk(VerifyFactor(env, c, user, at, value, recovery).0)
  {
    hide MfaOk, AcceptedCounter;
    var usable, enabled := UnusedCodes(c.codes, user, RecoveryHash(env, value)), EnabledDevices(c.devices, user);
    if recovery && usable != {} {
      var k := First(usable);
      RewriteCodeKeeps(c, k, c.codes[k].(usedAt := Some(at)));
    } else if !recovery && enabled != {} {
      var d := First(enabled);
      RewriteDeviceKeeps(c, d, c.devices[d].(lastCounter := AcceptedCounter(env, c.devices[d], at, value)));
    }
  }

  lemma ReplaceCodesKeeps(env: Env, c: Core, user: nat, texts: seq<string>)
    requires MfaOk(c) && user < |c.users| && c.users[user].mfaEnabled
    ensures var r := ReplaceCodes(env, c, user, texts);
            r.Some? ==> MfaOk(r.value)
  {
    hide DevicesOwned, FlagsMatch, CodesDistinct;
    ReplacedAreDistinct(env, c, user, texts);
  }

  lemma ReplacedAreDistinct(env: Env, c: Core, user: nat, texts: seq<string>)
    requires CodesDistinct(c.codes)
    ensures var r := ReplaceCodes(env, c, user, texts);
            r.Some? ==> CodesDistinct(r.value.codes)
  {
    hide CodeHashes;
  }

  lemma DropPendingKeeps(c: Core, c1: Core)
    requires MfaOk(c) && c1 == c.(devices := c1.devices)
    requires forall d :: d in c1.devices ==> d in c.devices && c1.devices[d] == c.devices[d]
    requires forall d :: d in c.devices && c.devices[d].enabled ==> d in c1.devices
    ensures MfaOk(c1)
  {
    hide CodesOwned, CodesDistinct, FlagsMatch;
    FlagsMatchAfter(c.users, c.devices, c1.devices);
  }

  lemma AddDeviceKeeps(c: Core, row: Device)
    requires MfaOk(c) && row.user < |c.users| && !row.enabled
    requires forall d :: d in c.devices ==> c.devices[d].user != row.user
    ensures MfaOk(c.(devices := c.devices[c.nextId := row], nextId := c.nextId + 1))
  {
    hide CodesOwned, CodesDistinct, FlagsMatch;
    FlagsMatchAfter(c.users, c.devices, c.devices[c.nextId := row]);
  }

  lemma NoDeviceLeft(c: Core, me: nat)
    requires MfaOk(c) && me < |c.users| && !c.users[me].mfaEnabled
    ensures forall d :: d in DropPending(c.devices, me) ==> c.devices[d].user != me
  {
  }

  lemma EnrollKeeps(env: Env, c: Core, me: nat, at: Time, password: string, restart: bool, secret: string)
    requires MfaOk(c) && me < |c.users|
    ensures MfaOk(Enroll(env, c, me, at, password, restart, secret).0)
  {
    hide MfaOk;
    var c1 := c.(devices := DropPending(c.devices, me));
    if !c.users[me].mfaEnabled {
      NoDeviceLeft(c, me);
      DropPendingKeeps(c, c1);
      AddDeviceKeeps(c1, Device(me, secret, false, None, Some(at + 10 * MINUTE), 0));
    }
  }

  lemma SwitchedOffFlags(users: seq<Account>, after: seq<Account>, devices: map<nat, Device>, user: nat)
    requires FlagsMatch(users, devices) && user < |users| && |after| == |users| && !after[user].mfaEnabled
    requires forall u :: 0 <= u < |users| && u != user ==> after[u].mfaEnabled == users[u].mfaEnabled
    ensures FlagsMatch(after, SwitchOffDevices(devices, user))
  {
    forall u | 0 <= u < |after| && after[u].mfaEnabled ensures EnabledDevices(SwitchOffDevices(devices, user), u) != {} {
      var d :| d in EnabledDevices(devices, u);
      assert d in EnabledDevices(SwitchOffDevices(devices, user), u);
    }
  }

  /** Devices, codes and the flag of `user` are switched off together. */
  lemma SwitchedOffKeeps(c: Core, c1: Core, user: nat)
    requires MfaOk(c) && user < |c.users| && c1.nextId == c.nextId
    requires c1.devices == SwitchOffDevices(c.devices, user) && c1.codes == DropCodes(c.codes, user)
    requires forall k :: k in c1.challenges ==> k in c.challenges
    requires |c1.users| == |c.users| && !c1.users[user].mfaEnabled
    requires forall u :: 0 <= u < |c.users| && u != user ==> c1.users[u].mfaEnabled == c.users[u].mfaEnabled
    ensures MfaOk(c1)
  {
    hide FlagsMatch;
    SwitchedOffFlags(c.users, c1.users, c.devices, user);
  }

  /** Enabling a user's only device, and raising the flag with it. */
  lemma EnableKeeps(c: Core, me: nat, d: nat, row: Device)
    requires MfaOk(c) && me < |c.users| && d in c.devices && c.devices[d].user == me && row.user == me && row.enabled
    ensures MfaOk(c.(devices := c.devices[d := row], users := c.users[me := c.users[me].(mfaEnabled := true)]))
  {
    hide CodesDistinct, EnabledDevices;
    var users, after := c.users[me := c.users[me].(mfaEnabled := true)], c.devices[d := row];
    forall u | 0 <= u < |users| && users[u].mfaEnabled ensures EnabledDevices(after, u) != {} {
      EnabledAfter(c.devices, d, row, u);
    }
  }

  lemma EnabledAfter(devices: map<nat, Device>, d: nat, row: Device, u: nat)
    requires d in devices && devices[d].user == row.user && row.enabled
    ensures u != row.user && EnabledDevices(devices, u) != {} ==> EnabledDevices(devices[d := row], u) != {}
    ensures EnabledDevices(devices[d := row], row.user) != {}
  {
    assert d in EnabledDevices(devices[d := row], row.user);
    if u != row.user && EnabledDevices(devices, u) != {} {
      var e :| e in EnabledDevices(devices, u);
      assert e in EnabledDevices(devices[d := row], u);
    }
  }

  lemma ConfirmKeeps(env: Env, c: Core, me: nat, at: Time, code: string, device: Option<nat>, newCodes: seq<string>)
    requires MfaOk(c) && me < |c.users|
    ensures MfaOk(Confirm(env, c, me, at, code, device, newCodes).core)
  {
    hide MfaOk, AcceptedCounter, ReplaceCodes;
    var pending := NamedPending(c.devices, me, device);
    if MfaEligible(c.users[me], at) && !c.users[me].mfaEnabled && pending != {} {
      var d := Newest(pending);
      var row := c.devices[d];
      DropPendingKeeps(c, c.(devices := c.devices - {d}));
      RewriteDeviceKeeps(c, d, row.(failedAttempts := row.failedAttempts + 1));
      var enabled := row.(enabled := true, lastCounter := AcceptedCounter(env, row, at, code), enrollmentExpires := None, failedAttempts := 0);
      EnableKeeps(c, me, d, enabled);
      ReplaceCodesKeeps(env, c.(devices := c.devices[d := enabled], users := c.users[me := c.users[me].(mfaEnabled := true)]), me, newCodes);
    }
  }

  lemma TurnOffKeeps(env: Env, c: Core, me: nat, current: nat, at: Time, confirm: bool, password: string, code: string, recovery: bool)
    requires MfaOk(c) && me < |c.users|
    ensures MfaOk(TurnOffMfa(env, c, me, current, at, confirm, password, code, recovery).core)
  {
    hide MfaOk, VerifyFactor, RevokeAll, SwitchOffDevices, DropCodes;
    VerifyFactorKeeps(env, c, me, at, code, recovery);
    var (c1, factor) := VerifyFactor(env, c, me, at, code, recovery);
    var c2 := TurnOffMfa(env, c, me, current, at, confirm, password, code, recovery).core;
    if c2 != c && c2 != c1 { SwitchedOffKeeps(c1, c2, me); }
  }

  lemma RegenerateKeeps(env: Env, c: Core, me: nat, at: Time, asRecovery: bool, password: string, code: string, newCodes: seq<string>)
    requires MfaOk(c) && me < |c.users|
    ensures MfaOk(Regenerate(env, c, me, at, asRecovery, password, code, newCodes).core)
  {
    hide VerifyFactor, ReplaceCodes;
    VerifyFactorKeeps(env, c, me, at, code, false);
    var (c1, factor) := VerifyFactor(env, c, me, at, code, false);
    if factor != NoFactor {
      FactorNeedsFlag(env, c, me, at, code, false);
      ReplaceCodesKeeps(env, c1, me, newCodes);
    }
  }

  /** A one-time code is only accepted for a user whose second factor is on, and so is a recovery code. */
  lemma FactorNeedsFlag(env: Env, c: Core, user: nat, at: Time, value: string, recovery: bool)
    requires MfaOk(c) && user < |c.users|
    ensures VerifyFactor(env, c, user, at, value, recovery).1 != NoFactor ==> c.users[user].mfaEnabled
  {
  }

  lemma PerformMfaKeeps(env: Env, c: Core, me: nat, current: nat, at: Time, mfa: MfaAction)
    requires MfaOk(c) && me < |c.users|
    ensures MfaOk(PerformMfa(env, c, me, current, at, mfa).core)
  {
    hide MfaOk, Confirm, TurnOffMfa, Regenerate, Enroll;
    match mfa
    case EnrollMfa(password, restart, secret) => EnrollKeeps(env, c, me, at, password, restart, secret);
    case MfaStatus => if PendingDevices(c.devices, me) != {} { DropPendingKeeps(c, c.(devices := c.devices - {Newest(PendingDevices(c.devices, me))})); }
    case ConfirmMfa(code, device, newCodes) => ConfirmKeeps(env, c, me, at, code, device, newCodes);
    case CancelMfa => DropPendingKeeps(c, c.(devices := DropPending(c.devices, me)));
    case DisableMfa(confirm, password, code, recovery) => TurnOffKeeps(env, c, me, current, at, confirm, password, code, recovery);
    case RegenerateCodes(asRecovery, password, code, newCodes) => RegenerateKeeps(env, c, me, at, asRecovery, password, code, newCodes);
  }

  lemma AdminKeepsMfa(c: Core, u: nat, at: Time, order: AdminAction)
    requires MfaOk(c) && u < |c.users|
    ensures MfaOk(PerformAdmin(c, u, at, order).0)
  {
    hide MfaOk, IsLastAdmin, EmailTaken, RolesAssignable, RevokeAll, SwitchOffDevices, DropCodes;
    ChallengesFresh(c);
    var c1 := PerformAdmin(c, u, at, order).0;
    if order.ResetMfa? { SwitchedOffKeeps(c, c1, u); } else { OtherTablesKeep(c, c1); }
  }

  lemma OwnKeepsMfa(env: Env, c: Core, me: nat, current: nat, at: Time, own: OwnAction)
    requires MfaOk(c) && me < |c.users|
    ensures MfaOk(PerformOwn(env, c, me, current, at, own).0)
  {
    hide MfaOk, RevokeAll;
    ChallengesFresh(c);
    OtherTablesKeep(c, PerformOwn(env, c, me, current, at, own).0);
  }

  lemma StepKeepsMfa(c: Core, me: nat, current: nat, at: Time, step: PlaybookStep, reasoned: bool)
    requires MfaOk(c) && me < |c.users|
    ensures MfaOk(PerformStep(c, me, current, at, step, reasoned).0)
  {
    hide MfaOk, RevokeAll, ActiveAdmins;
    ChallengesFresh(c);
    OtherTablesKeep(c, PerformStep(c, me, current, at, step, reasoned).0);
  }

  lemma RetainKeepsMfa(w: World, at: Time, rows: Retention)
    requires MfaOk(w.core)
    ensures MfaOk(RetainRows(w, at, rows).world.core)
  {
    hide MfaOk, Purge, PurgeSessions;
    ChallengesFresh(w.core);
    OtherTablesKeep(w.core, RetainRows(w, at, rows).world.core);
  }

  lemma PerformKeepsMfa(env: Env, c: Core, at: Time, current: nat, action: Action)
    requires current < |c.sessions| && c.sessions[current].user < |c.users| && MfaOk(c)
    ensures MfaOk(Perform(env, c, at, current, action).core)
  {
    hide MfaOk, PerformMfa, PerformAdmin, PerformOwn, PerformStep, EmailTaken, RolesAssignable, RevokeHolders, RoleHeld;
    ChallengesFresh(c);
    var me, c1 := c.sessions[current].user, Perform(env, c, at, current, action).core;
    match action
    case Own(own) => OwnKeepsMfa(env, c, me, current, at, own);
    case Mfa(mfa) => PerformMfaKeeps(env, c, me, current, at, mfa);
    case Admin(u, order) => if u < |c.users| { AdminKeepsMfa(c, u, at, order); }
    case Playbook(step, reasoned) => StepKeepsMfa(c, me, current, at, step, reasoned);
    case ManageRole(_, _) => OtherTablesKeep(c, c1);
    case RevokeSession(_, _) => OtherTablesKeep(c, c1);
    case CreateUser(_, _, _, _, _, _) => OtherTablesKeep(c, c1);
  }

  lemma ChallengesFresh(c: Core)
    requires MfaOk(c)
    ensures forall k :: k in c.challenges ==> k < c.nextId
  {
  }

  lemma EnterKeeps(env: Env, c: Core, u: nat, token: string, at: Time)
    requires MfaOk(c) && u < |c.users|
    ensures MfaOk(EnterAccount(env, c, u, token, at).0)
  {
    hide MfaOk;
    ChallengesFresh(c);
    OtherTablesKeep(c, EnterAccount(env, c, u, token, at).0);
  }

  lemma LogInKeeps(env: Env, w: World, req: Request)
    requires req.call.Login? && MfaOk(w.core)
    ensures MfaOk(Next(env, w, req).world.core)
  {
    hide MfaOk, Authenticate, EnterAccount;
    var at, ip, call := req.at, IpHash(env, req.ip), req.call;
    AuthenticateKeepsFlags(env, w, at, ip, call.isEmail, call.identifier, call.password);
    var (w1, verdict) := Authenticate(env, w, at, ip, call.isEmail, call.identifier, call.password);
    ChallengesFresh(w.core);
    OtherTablesKeep(w.core, w1.core);
    if verdict.Accepted? { EnterKeeps(env, w1.core, verdict.user, call.token, at); }
  }

  lemma AuthenticateKeepsFlags(env: Env, w: World, at: Time, ip: Option<string>, isEmail: bool, identifier: string, password: string)
    ensures FlagsKept(w.core.users, Authenticate(env, w, at, ip, isEmail, identifier, password).0.core.users)
  {
    hide Authenticate, FindAccount;
    AccountEffects.AuthenticateOthers(env, w, at, ip, isEmail, identifier, password);
    AccountEffects.AuthenticateAccount(env, w, at, ip, isEmail, identifier, password);
  }

  lemma CompleteLoginKeeps(env: Env, c: Core, at: Time, challengeToken: string, code: string, recovery: bool, token: string)
    requires MfaOk(c)
    ensures MfaOk(CompleteLogin(env, c, at, challengeToken, code, recovery, token).core)
  {
    hide MfaOk, VerifyFactor;
    var found := ChallengesFor(c.challenges, env.hash(challengeToken));
    if found != {} {
      var k := First(found);
      var (c1, factor) := VerifyFactor(env, c, c.challenges[k].user, at, code, recovery);
      VerifyFactorKeeps(env, c, c.challenges[k].user, at, code, recovery);
      ChallengesFresh(c1);
      var c2 := CompleteLogin(env, c, at, challengeToken, code, recovery, token).core;
      if c2 != c { OtherTablesKeep(c1, c2); }
    }
  }

  lemma DecideKeepsFlags(c: Core, u: nat, at: Time, m: Management)
    requires u < |c.users|
    ensures var c1 := Decide(c, u, at, m).0;
            FlagsKept(c.users, c1.users) && c1 == c.(users := c1.users, sessions := c1.sessions)
  {
    hide RevokeAll, ManagementRefused;
  }

  lemma ManageKeepsMfa(env: Env, w: World, at: Time, ip: Option<string>, actor: nat, u: nat, m: Management)
    requires MfaOk(w.core)
    ensures MfaOk(ManageAccount(env, w, at, ip, actor, u, m).world.core)
  {
    hide MfaOk, Forget, Count, Decide, ManagementThrottled, FlagsKept;
    if u < |w.core.users| {
      ChallengesFresh(w.core);
      DecideKeepsFlags(w.core, u, at, m);
      OtherTablesKeep(w.core, Decide(w.core, u, at, m).0);
    }
  }

  lemma LookupKeepsMfa(env: Env, c: Core, at: Time, cookie: string)
    requires MfaOk(c)
    ensures MfaOk(Lookup(env, c, at, cookie).0)
  {
    hide MfaOk;
    ChallengesFresh(c);
    OtherTablesKeep(c, Lookup(env, c, at, cookie).0);
  }

  lemma NextKeepsMfa(env: Env, w: World, req: Request)
    requires MfaOk(w.core)
    ensures MfaOk(Next(env, w, req).world.core)
  {
    hide MfaOk, Perform, CompleteLogin, LogIn, ManageAccount, RetainRows, Lookup, Forget, Count, RolesAssignable, FlagsKept;
    var at := req.at;
    match req.call
    case Login(_, _, _, _) => LogInKeeps(env, w, req);
    case Register(_, _, _, _) => RegisterKeepsMfa(env, w, req);
    case VerifyMfa(challengeToken, code, recovery, token) => CompleteLoginKeeps(env, w.core, at, challengeToken, code, recovery, token);
    case Signed(cookie, _, action) =>
      LookupKeepsMfa(env, w.core, at, cookie);
      var (c, current) := Lookup(env, w.core, at, cookie);
      if current.Some? { PerformKeepsMfa(env, c, at, current.value, action); }
    case Manage(cookie, _, target, m) =>
      LookupKeepsMfa(env, w.core, at, cookie);
      var (c, current) := Lookup(env, w.core, at, cookie);
      if current.Some? { ManageKeepsMfa(env, w.(core := c), at, IpHash(env, req.ip), c.sessions[current.value].user, target, m); }
    case Retain(cookie, _, rows) =>
      LookupKeepsMfa(env, w.core, at, cookie);
      RetainKeepsMfa(w.(core := Lookup(env, w.core, at, cookie).0), at, rows);
  }

  lemma RegisterKeepsMfa(env: Env, w: World, req: Request)
    requires MfaOk(w.core) && req.call.Register?
    ensures MfaOk(Next(env, w, req).world.core)
  {
    hide MfaOk, Forget, Count, RolesAssignable, FindAccount;
    ChallengesFresh(w.core);
    OtherTablesKeep(w.core, Next(env, w, req).world.core);
  }

  lemma {:induction false} MfaStaysConsistent(env: Env, w: World, reqs: seq<Request>)
    requires MfaOk(w.core)
    ensures MfaOk(Run(env, w, reqs).core)
    decreases |reqs|
  {
    hide Next, MfaOk;
    if reqs != [] {
      NextKeepsMfa(env, w, reqs[0]);
      MfaStaysConsistent(env, Next(env, w, reqs[0]).world, reqs[1..]);
    }
  }

  /** In every reachable state the flag is on exactly when exactly one device is, and recovery codes exist only then. */
  lemma FlagMeansOneDevice(env: Env, w: World, reqs: seq<Request>, u: nat)
    requires MfaOk(w.core)
    ensures var c := Run(env, w, reqs).core;
            u < |c.users| ==>
              && (c.users[u].mfaEnabled <==> |EnabledDevices(c.devices, u)| == 1)
              && (!c.users[u].mfaEnabled ==> EnabledDevices(c.devices, u) == {} && forall k :: k in c.codes ==> c.codes[k].user != u)
  {
    hide Run;
    MfaStaysConsistent(env, w, reqs);
    var c := Run(env, w, reqs).core;
    if u < |c.users| && c.users[u].mfaEnabled {
      var d :| d in EnabledDevices(c.devices, u);
      assert EnabledDevices(c.devices, u) == {d};
    }
  }
}
