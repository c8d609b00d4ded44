/**
  The database as the handlers change it, statement by statement.  Every method
  is proved to have exactly the effect the specification gives that request, and
  `ServeAll` carries what is proved of runs of the specification over to the
  store itself.
*/
module AccessStore {
  import opened Options
  import opened Clock
  import opened AccessTables
  import opened AttemptLog
  import opened AccessSpec
  import AccessRuns
  import AccountEffects
  import AdminSafety
  import LockoutSafety
  import SessionSafety

  lemma RunUnfolds(env: Env, w: World, reqs: seq<Request>)
    ensures Run(env, w, reqs) == if reqs == [] then w else Run(env, Next(env, w, reqs[0]).world, reqs[1..])
    ensures Outcomes(env, w, reqs) ==
      if reqs == [] then [] else [Next(env, w, reqs[0]).outcome] + Outcomes(env, Next(env, w, reqs[0]).world, reqs[1..])
  {
  }

  /** Sessions revoked at the start of a run keep the time of it and open nothing at its end. */
  lemma RevokedStayShut(env: Env, w: World, reqs: seq<Request>)
    ensures var before, c := w.core.sessions, Run(env, w, reqs).core;
            forall i :: 0 <= i < |before| && before[i].revoked.Some? ==>
              && i < |c.sessions| && c.sessions[i].revoked.Some? && c.sessions[i].revoked.value.at == before[i].revoked.value.at
              && forall at, cookie :: Lookup(env, c, at, cookie).1 != Some(i)
  {
    hide Run, Lookup;
    var before, c := w.core.sessions, Run(env, w, reqs).core;
    forall i | 0 <= i < |before| && before[i].revoked.Some?
      ensures i < |c.sessions| && c.sessions[i].revoked.Some? && c.sessions[i].revoked.value.at == before[i].revoked.value.at
      ensures forall at, cookie :: Lookup(env, c, at, cookie).1 != Some(i)
    {
      SessionSafety.RevocationIsPermanent(env, w, reqs, i);
      forall at, cookie ensures Lookup(env, c, at, cookie).1 != Some(i) {
        SessionSafety.RevokedOpensNothing(env, c, at, cookie, i);
      }
    }
  }

  class Store {
    const env: Env
    var roles: map<string, Role>
    var users: seq<Account>
    var sessions: seq<Session>
    var devices: map<nat, Device>
    var codes: map<nat, RecoveryCode>
    var challenges: map<nat, Challenge>
    var nextId: nat
    var log: seq<Attempt>

    ghost function Tables(): Core
      reads this
    {
      Core(users, roles, sessions, devices, codes, challenges, nextId)
    }

    ghost function View(): World
      reads this
    {
      World(Tables(), log, true)
    }

    constructor (env: Env, roles: map<string, Role>, accounts: seq<Account>)
      ensures this.env == env
      ensures View() == World(Core(accounts, roles, [], map[], map[], map[], 0), [], true)
    {
      this.env, this.roles, users := env, roles, accounts;
      sessions, devices, codes, challenges, nextId, log := [], map[], map[], map[], 0, [];
    }

    // ---- rate_limit_service.py ----

    method ClearLoginAttempts(a: Account)
      modifies this`log
      ensures log == Forget(old(log), AccountKeys(env, a))
    {
      var hashes := {LoginKey(env, a.username)};
      if a.email.Some? {
        hashes := hashes + {LoginKey(env, a.email.value)};
      }
      assert hashes == AccountKeys(env, a);
      log := Forget(log, hashes);
    }

    method ClearFailuresOf(u: nat)
      requires u < |users|
      modifies this`log, this`users
      ensures log == Forget(old(log), AccountKeys(env, old(users[u])))
      ensures users == old(users)[u := ClearFailures(old(users[u]))]
    {
      ClearLoginAttempts(users[u]);
      users := users[u := users[u].(failedLogins := 0)];
      users := users[u := users[u].(lockedUntil := None)];
      if users[u].status == Locked {
        users := users[u := users[u].(status := Active)];
      }
    }

    method UnlockIfExpired(u: nat, at: Time) returns (unlocked: bool)
      requires u < |users|
      modifies this`log, this`users
      ensures unlocked == LockExpired(old(users[u]), at)
      ensures log == if unlocked then Forget(old(log), AccountKeys(env, old(users[u]))) else old(log)
      ensures users == if unlocked then old(users)[u := ClearFailures(old(users[u]))] else old(users)
    {
      unlocked := false;
      if users[u].status == Locked && users[u].lockedUntil.Some? && users[u].lockedUntil.value <= at {
        ClearFailuresOf(u);
        unlocked := true;
      }
    }

    method RegisterUserFailure(u: nat, at: Time)
      requires u < |users|
      modifies this`users
      ensures users == old(users)[u := RegisterFailure(env, old(users[u]), at)]
    {
      users := users[u := users[u].(failedLogins := users[u].failedLogins + 1)];
      if users[u].failedLogins >= env.maxAttempts {
        users := users[u := users[u].(status := Locked)];
        users := users[u := users[u].(lockedUntil := Some(at + env.lockout))];
      }
    }

    method RecordAttempt(identifier: string, ip: Option<string>, success: bool, at: Time)
      modifies this`log
      ensures log == RecordLogin(env, old(log), identifier, ip, success, at, true)
    {
      if success {
        log := Forget(log, {LoginKey(env, identifier)});
      }
      log := log + [Attempt(LoginKey(env, identifier), ip, success, at)];
      log := Since(log, at - RETENTION);
    }

    // ---- authentication.py ----

    method AuthenticatePassword(isEmail: bool, identifier: string, password: string, ip: Option<string>, at: Time) returns (verdict: Verdict)
      modifies this`log, this`users
      ensures (View(), verdict) == Authenticate(env, old(View()), at, ip, isEmail, identifier, password)
    {
      hide RegisterFailure, ClearFailures, Forget, Since, Count, AccountKeys, LockExpired, RecordLogin;
      var found := FindAccount(users, isEmail, identifier);
      if found.Some? {
        var expired := UnlockIfExpired(found.value, at);
        if expired {
          log := Forget(log, {LoginKey(env, identifier)});
        }
      }
      ghost var lifted := View();
      assert lifted == LiftExpiredLock(env, old(View()), found, identifier, at);
      if LoginThrottled(env, log, identifier, ip, at) {
        return Throttled;
      }
      if found.None? || !env.verifyPassword(users[found.value].passwordHash, password) || Barred(users[found.value]) {
        if found.Some? && !Barred(users[found.value]) {
          RegisterUserFailure(found.value, at);
        }
        RecordAttempt(identifier, ip, false, at);
        return Wrong;
      }
      ClearFailuresOf(found.value);
      RecordAttempt(identifier, ip, true, at);
      return Accepted(found.value);
    }

    // ---- session_service.py ----

    method CreateSession(user: nat, token: string, at: Time, via: Option<nat>) returns (outcome: Outcome)
      modifies this`sessions
      ensures (Tables(), outcome) == OpenSession(env, old(Tables()), user, token, at, via)
    {
      var s := Session(user, env.hash(token), at, at, at + env.lifetime, at + env.idle, None, via.Some?, false);
      if FindSession(sessions, s.tokenHash).Some? {
        return Refused(500);
      }
      outcome := SessionOpened(|sessions|, via);
      sessions := sessions + [s];
    }

    method LookupSession(cookie: string, at: Time) returns (current: Option<nat>)
      modifies this`sessions
      ensures (Tables(), current) == Lookup(env, old(Tables()), at, cookie)
      ensures current.Some? ==> current.value < |sessions| && sessions[current.value].user < |users|
    {
      if cookie == "" {
        return None;
      }
      var found := FindSession(sessions, env.hash(cookie));
      if found.None? || sessions[found.value].revoked.Some? {
        return None;
      }
      var i := found.value;
      if sessions[i].expires <= at || sessions[i].idleExpires <= at {
        sessions := sessions[i := sessions[i].(revoked := Some(Revocation(at, "expired")))];
        return None;
      }
      if sessions[i].user >= |users| || Barred(users[sessions[i].user]) {
        return None;
      }
      if at - sessions[i].lastSeen >= MINUTE {
        sessions := sessions[i := sessions[i].(lastSeen := at)];
        var capped := if sessions[i].expires <= at + env.idle then sessions[i].expires else at + env.idle;
        sessions := sessions[i := sessions[i].(idleExpires := capped)];
      }
      assert sessions == old(sessions)[i := Touch(env, old(sessions[i]), at)];
      return found;
    }

    method RevokeUserSessions(user: nat, at: Time, reason: string, spare: Option<nat>)
      modifies this`sessions
      ensures sessions == RevokeAll(old(sessions), user, at, reason, spare)
    {
      var before := sessions;
      sessions := seq(|before|, i requires 0 <= i < |before| =>
        if before[i].user == user && before[i].revoked.None? && spare != Some(i)
        then before[i].(revoked := Some(Revocation(at, reason))) else before[i]);
    }

    method RevokeOneSession(owner: nat, session: nat, at: Time, reason: string) returns (outcome: Outcome)
      modifies this`sessions
      ensures (Tables(), outcome) == RevokeOne(old(Tables()), owner, session, at, reason)
    {
      if session >= |sessions| || sessions[session].purged || sessions[session].user != owner {
        return Refused(404);
      }
      if sessions[session].revoked.None? {
        sessions := sessions[session := sessions[session].(revoked := Some(Revocation(at, reason)))];
      }
      assert sessions == old(sessions)[session := Revoke(old(sessions[session]), at, reason)];
      return Done;
    }

    // ---- user_service.py ----

    method ReplacePassword(u: nat, newHash: string, mustChange: bool, at: Time, reason: string, spare: Option<nat>)
      requires u < |users|
      modifies this`users, this`sessions
      ensures Tables() == SetPassword(old(Tables()), u, at, newHash, mustChange, reason, spare)
    {
      var status := users[u].status;
      users := users[u := users[u].(passwordHash := newHash)];
      users := users[u := users[u].(mustChange := mustChange)];
      if !(status == Disabled || status == PendingApproval || status == Rejected) {
        users := users[u := users[u].(status := if mustChange then PendingPasswordChange else Active)];
      }
      assert users == old(users)[u := NewPassword(old(users[u]), newHash, mustChange)];
      RevokeUserSessions(u, at, reason, spare);
    }

    method CreateAccountRow(username: string, email: Option<string>, keys: set<string>, admin: bool, passwordHash: string, wellFormed: bool)
      returns (outcome: Outcome)
      modifies this`users
      ensures (Tables(), outcome) == CreateAccount(old(Tables()), username, email, keys, admin, passwordHash, wellFormed)
    {
      if !wellFormed || FindAccount(users, false, username).Some? || EmailTaken(users, email, None) {
        return Refused(422);
      }
      var granted := keys;
      if granted == {} && admin {
        granted := {"administrator"};
      }
      if !RolesAssignable(roles, granted) {
        return Refused(422);
      }
      users := users + [Account(username, email, passwordHash, PendingPasswordChange, admin, 0, None, true, false, granted)];
      return Done;
    }

    // ---- mfa_service.py ----

    /** The loop over the three counters around the current one. */
    method VerifyTotp(d: nat, code: string, at: Time) returns (accepted: Option<int>)
      requires d in devices
      modifies this`devices
      ensures accepted == AcceptedCounter(env, old(devices[d]), at, code)
      ensures devices == if accepted.Some? then old(devices)[d := old(devices[d]).(lastCounter := accepted)] else old(devices)
    {
      if !SixDigits(code) {
        return None;
      }
      var secret, current := devices[d].secret, Counter(at);
      var matched: Option<int> := None;
      for offset := -1 to 2
        invariant matched.None?
        invariant forall k :: current - 1 <= k < current + offset ==> env.otp(secret, k) != code
      {
        if env.otp(secret, current + offset) == code {
          matched := Some(current + offset);
          break;
        }
      }
      assert matched == MatchingCounter(env, secret, code, current);
      if matched.None? || (devices[d].lastCounter.Some? && matched.value <= devices[d].lastCounter.value) {
        return None;
      }
      devices := devices[d := devices[d].(lastCounter := matched)];
      return matched;
    }

    method VerifyUserFactor(user: nat, value: string, recovery: bool, at: Time) returns (factor: Factor)
      modifies this`devices, this`codes
      ensures (Tables(), factor) == VerifyFactor(env, old(Tables()), user, at, value, recovery)
    {
      hide AcceptedCounter;
      if recovery {
        var usable := set k | k in codes && codes[k].user == user && codes[k].hash == RecoveryHash(env, value) && codes[k].usedAt.None?;
        assert usable == UnusedCodes(codes, user, RecoveryHash(env, value));
        if usable == {} {
          return NoFactor;
        }
        var k := First(usable);
        codes := codes[k := codes[k].(usedAt := Some(at))];
        return Recovery(k);
      }
      var enabled := set d | d in devices && devices[d].user == user && devices[d].enabled;
      assert enabled == EnabledDevices(devices, user);
      if enabled == {} {
        return NoFactor;
      }
      var d := First(enabled);
      var accepted := VerifyTotp(d, value, at);
      if accepted.None? {
        return NoFactor;
      }
      return Totp(d, accepted.value);
    }

    method DeleteCodesOf(user: nat)
      modifies this`codes
      ensures codes == DropCodes(old(codes), user)
    {
      codes := map k | k in codes && codes[k].user != user :: codes[k];
    }

    method SwitchOffDevicesOf(user: nat)
      modifies this`devices
      ensures devices == SwitchOffDevices(old(devices), user)
    {
      devices := map d | d in devices :: if devices[d].user == user then devices[d].(enabled := false) else devices[d];
    }

    method GenerateRecoveryCodes(user: nat, texts: seq<string>) returns (stored: bool)
      modifies this`codes, this`nextId
      ensures var r := ReplaceCodes(env, old(Tables()), user, texts);
              stored == r.Some? && Tables() == if r.Some? then r.value else old(Tables())
    {
      var saved := codes;
      DeleteCodesOf(user);
      var hashes := CodeHashes(env, texts);
      stored := CodesInsertable(codes, hashes);
      if stored {
        codes := codes + FreshCodes(nextId, user, hashes);
        nextId := nextId + |hashes|;
      } else {
        codes := saved;
      }
    }

    method BeginEnrollment(me: nat, password: string, restart: bool, secret: string, at: Time) returns (outcome: Outcome)
      requires me < |users|
      modifies this`devices, this`nextId
      ensures (Tables(), outcome) == Enroll(env, old(Tables()), me, at, password, restart, secret)
    {
      if !MfaEligible(users[me], at) {
        return Refused(403);
      }
      if !env.verifyPassword(users[me].passwordHash, password) {
        return Refused(400);
      }
      if users[me].mfaEnabled {
        return Refused(409);
      }
      var pending := set d | d in devices && devices[d].user == me && !devices[d].enabled;
      assert pending == PendingDevices(devices, me);
      if pending != {} && !EnrollmentLapsed(devices[Newest(pending)], at) && !restart {
        return Done;
      }
      devices := map d | d in devices && (devices[d].user != me || devices[d].enabled) :: devices[d];
      devices := devices[nextId := Device(me, secret, false, None, Some(at + 10 * MINUTE), 0)];
      nextId := nextId + 1;
      return Done;
    }

    /** Rolling back restores the device and the account that were changed before the codes failed to insert. */
    method ConfirmPending(me: nat, d: nat, code: string, newCodes: seq<string>, at: Time) returns (outcome: Outcome, factor: Factor)
      requires me < |users| && d in devices
      modifies this`devices, this`users, this`codes, this`nextId
      ensures CoreStep(Tables(), outcome, factor) == ConfirmDevice(env, old(Tables()), me, d, at, code, newCodes)
    {
      hide AcceptedCounter, ReplaceCodes;
      if EnrollmentLapsed(devices[d], at) {
        devices := devices - {d};
        return Refused(409), NoFactor;
      }
      if devices[d].failedAttempts >= 5 {
        return Refused(429), NoFactor;
      }
      var savedDevices, savedUsers := devices, users;
      var accepted := VerifyTotp(d, code, at);
      if accepted.None? {
        devices := devices[d := devices[d].(failedAttempts := devices[d].failedAttempts + 1)];
        return Refused(if devices[d].failedAttempts >= 5 then 429 else 422), NoFactor;
      }
      devices := devices[d := devices[d].(enabled := true)];
      devices := devices[d := devices[d].(enrollmentExpires := None)];
      devices := devices[d := devices[d].(failedAttempts := 0)];
      users := users[me := users[me].(mfaEnabled := true)];
      assert devices == savedDevices[d := savedDevices[d].(enabled := true, lastCounter := accepted, enrollmentExpires := None, failedAttempts := 0)];
      var stored := GenerateRecoveryCodes(me, newCodes);
      if !stored {
        devices, users := savedDevices, savedUsers;
        return Refused(500), NoFactor;
      }
      return Done, Totp(d, accepted.value);
    }

    method ConfirmEnrollment(me: nat, code: string, device: Option<nat>, newCodes: seq<string>, at: Time)
      returns (outcome: Outcome, factor: Factor)
      requires me < |users|
      modifies this`devices, this`users, this`codes, this`nextId
      ensures CoreStep(Tables(), outcome, factor) == Confirm(env, old(Tables()), me, at, code, device, newCodes)
    {
      hide ConfirmDevice;
      if !MfaEligible(users[me], at) {
        return Refused(403), NoFactor;
      }
      if users[me].mfaEnabled {
        return Refused(409), NoFactor;
      }
      var pending := set d | d in devices && devices[d].user == me && !devices[d].enabled && (device.Some? ==> d == device.value);
      assert pending == NamedPending(devices, me, device);
      if pending == {} {
        return Refused(409), NoFactor;
      }
      outcome, factor := ConfirmPending(me, Newest(pending), code, newCodes, at);
    }

    // ---- router.py: multi-factor handlers ----

    method DisableMfaFor(me: nat, current: nat, confirm: bool, password: string, code: string, recovery: bool, at: Time)
      returns (outcome: Outcome, factor: Factor)
      requires me < |users|
      modifies this`users, this`sessions, this`devices, this`codes, this`challenges
      ensures CoreStep(Tables(), outcome, factor) == TurnOffMfa(env, old(Tables()), me, current, at, confirm, password, code, recovery)
    {
      hide VerifyFactor, RevokeAll, SwitchOffDevices, DropCodes;
      if !confirm {
        return Refused(422), NoFactor;
      }
      if !users[me].mfaEnabled {
        return Refused(409), NoFactor;
      }
      if !env.verifyPassword(users[me].passwordHash, password) {
        return Refused(400), NoFactor;
      }
      factor := VerifyUserFactor(me, code, recovery, at);
      if factor.NoFactor? {
        return Refused(400), NoFactor;
      }
      SwitchOffDevicesOf(me);
      DeleteCodesOf(me);
      challenges := map k | k in challenges && !(challenges[k].user == me && challenges[k].usedAt.None?) :: challenges[k];
      users := users[me := users[me].(mfaEnabled := false)];
      RevokeUserSessions(me, at, "mfa_disabled", Some(current));
      return Done, factor;
    }

    method RegenerateRecovery(me: nat, asRecovery: bool, password: string, code: string, newCodes: seq<string>, at: Time)
      returns (outcome: Outcome, factor: Factor)
      requires me < |users|
      modifies this`devices, this`codes, this`nextId
      ensures CoreStep(Tables(), outcome, factor) == Regenerate(env, old(Tables()), me, at, asRecovery, password, code, newCodes)
    {
      hide VerifyFactor, ReplaceCodes;
      if asRecovery {
        return Refused(422), NoFactor;
      }
      if !env.verifyPassword(users[me].passwordHash, password) {
        return Refused(400), NoFactor;
      }
      factor := VerifyUserFactor(me, code, false, at);
      if factor.NoFactor? {
        return Refused(400), NoFactor;
      }
      var stored := GenerateRecoveryCodes(me, newCodes);
      return if stored then Done else Refused(500), factor;
    }

    method VerifyMfaLogin(challengeToken: string, code: string, recovery: bool, token: string, at: Time)
      returns (outcome: Outcome, factor: Factor)
      modifies this`sessions, this`devices, this`codes, this`challenges
      ensures CoreStep(Tables(), outcome, factor) == CompleteLogin(env, old(Tables()), at, challengeToken, code, recovery, token)
    {
      hide VerifyFactor, FindSession;
      var found := set k | k in challenges && challenges[k].tokenHash == env.hash(challengeToken);
      assert found == ChallengesFor(challenges, env.hash(challengeToken));
      if found == {} || !ChallengeOpen(challenges[First(found)], at) {
        return Refused(401), NoFactor;
      }
      var k := First(found);
      var user := challenges[k].user;
      if user >= |users| || Barred(users[user]) {
        return Refused(401), NoFactor;
      }
      factor := VerifyUserFactor(user, code, recovery, at);
      if factor.NoFactor? {
        challenges := challenges[k := challenges[k].(failedAttempts := challenges[k].failedAttempts + 1)];
        return GuessRefused(k), NoFactor;
      }
      outcome := CreateSession(user, token, at, Some(k));
      if !outcome.Refused? {
        challenges := challenges[k := challenges[k].(usedAt := Some(at))];
      }
    }

    // ---- router.py: login and registration ----

    method LoginRequest(isEmail: bool, identifier: string, password: string, token: string, ip: Option<string>, at: Time)
      returns (outcome: Outcome)
      modifies this`log, this`users, this`sessions, this`challenges, this`nextId
      ensures Step(View(), outcome, NoFactor) == LogIn(env, old(View()), at, ip, isEmail, identifier, password, token)
    {
      hide Authenticate, FindSession;
      if !env.localLogin {
        return Refused(403);
      }
      var verdict := AuthenticatePassword(isEmail, identifier, password, ip, at);
      if verdict.Throttled? {
        return Refused(429);
      }
      if verdict.Wrong? {
        return BadCredentials;
      }
      var u := verdict.user;
      if users[u].status == PendingApproval || users[u].status == Rejected {
        return NotActivated;
      }
      if users[u].mfaEnabled {
        var taken := set k | k in challenges && challenges[k].tokenHash == env.hash(token);
        assert taken == ChallengesFor(challenges, env.hash(token));
        if taken != {} {
          return Refused(500);
        }
        outcome := ChallengeIssued(nextId);
        challenges := challenges[nextId := Challenge(u, env.hash(token), at + 5 * MINUTE, None, 0)];
        nextId := nextId + 1;
        return;
      }
      outcome := CreateSession(u, token, at, None);
    }

    method RegisterLocalAccount(email: string, username: string, passwordHash: string, wellFormed: bool, ip: Option<string>, at: Time)
      returns (outcome: Outcome)
      modifies this`log, this`users
      ensures Step(View(), outcome, NoFactor) == SelfRegister(env, old(View()), at, ip, email, username, passwordHash, wellFormed)
    {
      hide Forget, Count, AccountKeys, RolesAssignable;
      if env.registration == RegistrationDisabled || !env.localLogin {
        return Refused(403);
      }
      if RegistrationThrottled(env, log, email, ip, at) {
        return Refused(429);
      }
      var refused := !wellFormed || FindAccount(users, true, email).Some? || FindAccount(users, false, username).Some?;
      if refused || !RolesAssignable(roles, {"registered_user"}) {
        log := log + [Attempt(RegistrationKey(env, email), ip, false, at)];
        return Refused(422);
      }
      var status := if env.registration == ApprovalRequired then PendingApproval else Active;
      var a := Account(username, Some(email), passwordHash, status, false, 0, None, false, false, {"registered_user"});
      users := users + [a];
      ClearLoginAttempts(a);
      log := log + [Attempt(RegistrationKey(env, email), ip, true, at)];
      return Done;
    }

    // ---- router.py: administration ----

    method ActiveAdministratorCount(except: nat) returns (count: nat)
      ensures count == |CountedAdmins(users, except)|
    {
      var counted := {};
      for i := 0 to |users|
        invariant counted == set j | 0 <= j < i && j != except && users[j].isAdmin
                                     && (users[j].status == Active || users[j].status == PendingPasswordChange)
      {
        if i != except && users[i].isAdmin && (users[i].status == Active || users[i].status == PendingPasswordChange) {
          counted := counted + {i};
        }
      }
      assert counted == CountedAdmins(users, except);
      return |counted|;
    }

    method EnsureNotLastAdmin(u: nat) returns (ok: bool)
      requires u < |users|
      ensures ok == !IsLastAdmin(users, u)
    {
      ok := true;
      if users[u].isAdmin {
        var count := ActiveAdministratorCount(u);
        ok := count != 0;
      }
    }

    method DisableOrDemote(u: nat, order: AdminAction, at: Time) returns (outcome: Outcome)
      requires u < |users| && (order.DisableUser? || order.SetRoles?)
      modifies this`users, this`sessions
      ensures (Tables(), outcome) == PerformAdmin(old(Tables()), u, at, order)
    {
      hide RevokeAll, IsLastAdmin, RolesAssignable;
      var demotes := order.DisableUser? || (users[u].isAdmin && "administrator" !in order.keys);
      if demotes {
        var ok := EnsureNotLastAdmin(u);
        if !ok {
          return Refused(422);
        }
      }
      if order.DisableUser? {
        users := users[u := users[u].(status := Disabled)];
        RevokeUserSessions(u, at, "account_disabled", None);
      } else {
        if !RolesAssignable(roles, order.keys) {
          return Refused(422);
        }
        users := users[u := users[u].(roles := order.keys)];
        users := users[u := users[u].(isAdmin := "administrator" in order.keys)];
        RevokeUserSessions(u, at, "role_assignment_changed", None);
      }
      assert users == old(users)[u := Ordered(old(users[u]), order)];
      return Done;
    }

    method ResetMfaFor(u: nat, at: Time)
      requires u < |users|
      modifies this`users, this`sessions, this`devices, this`codes
      ensures (Tables(), Done) == PerformAdmin(old(Tables()), u, at, ResetMfa)
    {
      hide RevokeAll, SwitchOffDevices, DropCodes;
      var wasDisabled := users[u].status == Disabled;
      SwitchOffDevicesOf(u);
      DeleteCodesOf(u);
      users := users[u := users[u].(mfaEnabled := false)];
      users := users[u := users[u].(mustChange := true)];
      users := users[u := users[u].(status := if wasDisabled then Disabled else PendingPasswordChange)];
      assert users == old(users)[u := Ordered(old(users[u]), ResetMfa)];
      RevokeUserSessions(u, at, "administrator_mfa_reset", None);
    }

    method OrderAccount(u: nat, order: AdminAction, at: Time) returns (outcome: Outcome)
      requires u < |users|
      modifies this`users, this`sessions, this`devices, this`codes
      ensures (Tables(), outcome) == PerformAdmin(old(Tables()), u, at, order)
    {
      hide RevokeAll, IsLastAdmin, EmailTaken;
      match order
      case DisableUser => outcome := DisableOrDemote(u, order, at);
      case SetRoles(_) => outcome := DisableOrDemote(u, order, at);
      case UpdateUser(newEmail, mustChange) =>
        if newEmail.Some? && EmailTaken(users, newEmail.value, Some(u)) {
          return Refused(422);
        }
        if newEmail.Some? {
          users := users[u := users[u].(email := newEmail.value)];
        }
        if mustChange.Some? {
          users := users[u := users[u].(mustChange := mustChange.value)];
          users := users[u := users[u].(status := if mustChange.value then PendingPasswordChange else Active)];
        }
        assert users == old(users)[u := Ordered(old(users[u]), order)];
        outcome := Done;
      case EnableUser =>
        users := users[u := users[u].(status := if users[u].mustChange then PendingPasswordChange else Active)];
        outcome := Done;
      case ResetPassword(newHash, policyOk) =>
        if !policyOk {
          return Refused(422);
        }
        ReplacePassword(u, newHash, true, at, "administrator_password_reset", None);
        outcome := Done;
      case ResetMfa =>
        ResetMfaFor(u, at);
        outcome := Done;
      case RevokeSessions =>
        RevokeUserSessions(u, at, "administrator_revoked_all", None);
        assert users == users[u := users[u]];
        outcome := Done;
    }

    method DecideRegistration(u: nat, m: Management, at: Time) returns (outcome: Outcome)
      requires u < |users| && !m.Unlock?
      modifies this`users, this`sessions
      ensures (Tables(), outcome) == Decide(old(Tables()), u, at, m)
    {
      hide RevokeAll, IsLastAdmin, RolesAssignable;
      match m
      case Approve(keys, confirmAdmin) =>
        var granted := if keys == {} then {"registered_user"} else keys;
        if users[u].status != PendingApproval && users[u].status != Rejected {
          return Refused(422);
        }
        if ("administrator" in granted && !confirmAdmin) || !RolesAssignable(roles, granted) {
          return Refused(422);
        }
        users := users[u := users[u].(roles := granted)];
        users := users[u := users[u].(status := Active)];
        users := users[u := users[u].(isAdmin := "administrator" in granted)];
        assert users == old(users)[u := Managed(old(users[u]), m)];
        outcome := Done;
      case Reject(reasonOk) =>
        if !reasonOk || (users[u].status != PendingApproval && users[u].status != Active) {
          return Refused(422);
        }
        var ok := EnsureNotLastAdmin(u);
        if !ok {
          return Refused(422);
        }
        users := users[u := users[u].(status := Rejected)];
        RevokeUserSessions(u, at, "registration_rejected", None);
        outcome := Done;
      case Reopen =>
        if users[u].status != Rejected {
          return Refused(422);
        }
        users := users[u := users[u].(status := PendingApproval)];
        outcome := Done;
    }

    method Administer(actor: nat, u: nat, m: Management, ip: Option<string>, at: Time) returns (outcome: Outcome)
      modifies this`log, this`users, this`sessions
      ensures Step(View(), outcome, NoFactor) == ManageAccount(env, old(View()), at, ip, actor, u, m)
    {
      hide Forget, Count, AccountKeys, IsLastAdmin, RolesAssignable, RevokeAll, Decimal;
      if u >= |users| {
        return Refused(404);
      }
      if m.Unlock? {
        ClearFailuresOf(u);
        return Done;
      }
      if ManagementThrottled(env, log, actor, ManagementName(m), ip, at) {
        return Refused(429);
      }
      log := log + [Attempt(ManagementKey(env, actor, ManagementName(m)), ip, true, at)];
      outcome := DecideRegistration(u, m, at);
    }

    // ---- router.py: the signed-in user ----

    method PerformOwnAction(me: nat, current: nat, own: OwnAction, at: Time) returns (outcome: Outcome)
      requires me < |users|
      modifies this`users, this`sessions
      ensures (Tables(), outcome) == PerformOwn(env, old(Tables()), me, current, at, own)
    {
      hide RevokeAll, NewPassword, RevokeOne;
      match own
      case Browse => outcome := Done;
      case Logout => outcome := RevokeOneSession(me, current, at, "logout");
      case LogoutAll(preserve) =>
        RevokeUserSessions(me, at, "logout_all", if preserve then Some(current) else None);
        outcome := Done;
      case ChangePassword(oldText, newHash, policyOk) =>
        if !env.verifyPassword(users[me].passwordHash, oldText) {
          return Refused(400);
        }
        if !policyOk {
          return Refused(422);
        }
        ReplacePassword(me, newHash, false, at, "password_changed", Some(current));
        outcome := Done;
      case DeleteSession(s) => outcome := RevokeOneSession(me, s, at, "user_revoked");
    }

    method PerformMfaAction(me: nat, current: nat, mfa: MfaAction, at: Time) returns (outcome: Outcome, factor: Factor)
      requires me < |users|
      modifies this`users, this`sessions, this`devices, this`codes, this`challenges, this`nextId
      ensures CoreStep(Tables(), outcome, factor) == PerformMfa(env, old(Tables()), me, current, at, mfa)
    {
      hide Enroll, Confirm, TurnOffMfa, Regenerate;
      outcome, factor := Done, NoFactor;
      match mfa
      case EnrollMfa(password, restart, secret) => outcome := BeginEnrollment(me, password, restart, secret, at);
      case MfaStatus =>
        var pending := set d | d in devices && devices[d].user == me && !devices[d].enabled;
        assert pending == PendingDevices(devices, me);
        if pending != {} && EnrollmentLapsed(devices[Newest(pending)], at) {
          devices := devices - {Newest(pending)};
        }
      case ConfirmMfa(code, device, newCodes) => outcome, factor := ConfirmEnrollment(me, code, device, newCodes, at);
      case CancelMfa => devices := map d | d in devices && (devices[d].user != me || devices[d].enabled) :: devices[d];
      case DisableMfa(confirm, password, code, recovery) =>
        outcome, factor := DisableMfaFor(me, current, confirm, password, code, recovery, at);
      case RegenerateCodes(asRecovery, password, code, newCodes) =>
        outcome, factor := RegenerateRecovery(me, asRecovery, password, code, newCodes, at);
    }

    // ---- soar/service.py, role administration and retention ----

    method CountActiveAdmins() returns (count: nat)
      ensures count == |ActiveAdmins(users)|
    {
      var counted := {};
      for i := 0 to |users|
        invariant counted == set j | 0 <= j < i && users[j].isAdmin && users[j].status == Active
      {
        if users[i].isAdmin && users[i].status == Active {
          counted := counted + {i};
        }
      }
      assert counted == ActiveAdmins(users);
      return |counted|;
    }

    method RunStep(me: nat, current: nat, step: PlaybookStep, reasoned: bool, at: Time) returns (outcome: Outcome)
      requires me < |users|
      modifies this`users, this`sessions
      ensures (Tables(), outcome) == PerformStep(old(Tables()), me, current, at, step, reasoned)
    {
      hide RevokeAll, ActiveAdmins;
      if !reasoned {
        return StepFailed;
      }
      if step.RevokeSelected? {
        var s := step.session;
        if s >= |sessions| || sessions[s].purged || s == current {
          return StepFailed;
        }
        var since := if sessions[s].revoked.Some? then sessions[s].revoked.value.at else at;
        sessions := sessions[s := sessions[s].(revoked := Some(Revocation(since, PLAYBOOK_REASON)))];
        return Done;
      }
      var u := step.user;
      if u >= |users| {
        return StepFailed;
      }
      var admins := CountActiveAdmins();
      match step {
        case SuspendUser(_) =>
          if u == me || (users[u].isAdmin && admins <= 1) {
            return Refused(409);
          }
          users := users[u := users[u].(status := Disabled)];
          RevokeUserSessions(u, at, "user_disabled_by_soar", None);
        case ReinstateUser(_) => users := users[u := users[u].(status := Active)];
        case RevokeOthers(_) =>
          if u == me {
            return Refused(409);
          }
          RevokeUserSessions(u, at, PLAYBOOK_REASON, None);
      }
      return Done;
    }

    /** The loop over the users who hold the role. */
    method RevokeRoleHolders(key: string, at: Time, reason: string)
      modifies this`sessions
      ensures sessions == RevokeHolders(old(sessions), users, key, at, reason)
    {
      for u := 0 to |users|
        invariant sessions == RevokeHolders(old(sessions), users[..u], key, at, reason)
      {
        if key in users[u].roles {
          RevokeUserSessions(u, at, reason, None);
        }
      }
      assert users[..|users|] == users;
    }

    method AdministerRole(key: string, change: RoleOrder, at: Time) returns (outcome: Outcome)
      modifies this`roles, this`sessions
      ensures (Tables(), outcome) == ChangeRole(old(Tables()), at, key, change)
    {
      hide RevokeHolders;
      if change.CreateRole? {
        if key in roles {
          return Refused(409);
        }
        if !change.permissionsOk {
          return Refused(422);
        }
        roles := roles[key := Role(change.newEnabled, false)];
        return Done;
      }
      if key !in roles {
        return Refused(404);
      }
      match change {
        case UpdateRole(renames, enabled) =>
          if roles[key].system && renames {
            return Refused(422);
          }
          if enabled.Some? {
            if roles[key].system && !enabled.value {
              return Refused(422);
            }
            roles := roles[key := roles[key].(enabled := enabled.value)];
          }
          assert roles == old(roles)[key := roles[key]];
          RevokeRoleHolders(key, at, "role_changed");
        case DeleteRole =>
          if roles[key].system || RoleHeld(users, key) {
            return Refused(422);
          }
          roles := roles - {key};
        case SetPermissions(valid) =>
          if roles[key].system || !valid {
            return Refused(422);
          }
          RevokeRoleHolders(key, at, "role_permissions_changed");
      }
      return Done;
    }

    method ApplyRetention(rows: Retention, at: Time) returns (outcome: Outcome)
      modifies this`log, this`sessions, this`challenges
      ensures Step(View(), outcome, NoFactor) == RetainRows(old(View()), at, rows)
    {
      hide Purge, PurgeSessions;
      match rows {
        case OldAttempts(days, doomed) =>
          if days == 0 {
            return Refused(422);
          }
          log := Purge(log, doomed, at - days * DAY);
        case OldSessions(doomed) => sessions := PurgeSessions(sessions, doomed, at);
        case OldChallenges(days, doomed) =>
          if days == 0 {
            return Refused(422);
          }
          challenges := PurgeChallenges(challenges, doomed, at - days * DAY);
      }
      return Done;
    }

    // ---- requests ----

    /** Serving a request has exactly the specified effect and answer. */
    method Serve(req: Request) returns (outcome: Outcome, factor: Factor)
      modifies this
      ensures Step(View(), outcome, factor) == Next(env, old(View()), req)
    {
      hide LogIn, SelfRegister, CompleteLogin, Lookup, Perform, ManageAccount, RetainRows;
      var at, ip := req.at, IpHash(env, req.ip);
      outcome, factor := Refused(401), NoFactor;
      match req.call
      case Login(isEmail, identifier, password, token) =>
        outcome := LoginRequest(isEmail, identifier, password, token, ip, at);
      case Register(email, username, passwordHash, wellFormed) =>
        outcome := RegisterLocalAccount(email, username, passwordHash, wellFormed, ip, at);
      case VerifyMfa(challengeToken, code, recovery, token) =>
        outcome, factor := VerifyMfaLogin(challengeToken, code, recovery, token, at);
      case Signed(cookie, permitted, action) =>
        var current := LookupSession(cookie, at);
        if current.None? {
          return;
        }
        if !permitted {
          return Refused(403), NoFactor;
        }
        outcome, factor := PerformAction(current.value, action, at);
      case Manage(cookie, permitted, target, managed) =>
        var current := LookupSession(cookie, at);
        if current.None? {
          return;
        }
        if !permitted {
          return Refused(403), NoFactor;
        }
        outcome := Administer(sessions[current.value].user, target, managed, ip, at);
      case Retain(cookie, permitted, rows) =>
        var current := LookupSession(cookie, at);
        if current.None? {
          return;
        }
        if !permitted {
          return Refused(403), NoFactor;
        }
        outcome := ApplyRetention(rows, at);
    }

    /**
      Serving requests one after another.  The store ends where the run ends, and
      so keeps an administrator, the joint invariant, every revocation, and every
      account under a lock that no request outlasts or orders about.
    */
    method ServeAll(reqs: seq<Request>, ghost now: Time) returns (outcomes: seq<Outcome>)
      modifies this
      ensures View() == Run(env, old(View()), reqs) && outcomes == Outcomes(env, old(View()), reqs)
      ensures AdminSafety.HasAdmin(old(users)) ==> AdminSafety.HasAdmin(users)
      ensures AccessRuns.Sound(env, old(View()), now) && Timed(now, reqs) ==> AccessRuns.Sound(env, View(), SessionSafety.EndOf(now, reqs))
      ensures forall i :: 0 <= i < |old(sessions)| && old(sessions)[i].revoked.Some? ==>
                && i < |sessions| && sessions[i].revoked.Some? && sessions[i].revoked.value.at == old(sessions)[i].revoked.value.at
                && forall at, cookie :: Lookup(env, Tables(), at, cookie).1 != Some(i)
      ensures forall u :: 0 <= u < |old(users)| && AccountEffects.HeldThroughout(old(users)[u], u, reqs) ==>
                u < |users| && users[u] == old(users)[u]
    {
      hide Run, Outcomes, Next, Lookup, AccessRuns.Sound, AdminSafety.HasAdmin;
      outcomes := [];
      for i := 0 to |reqs|
        invariant Run(env, View(), reqs[i..]) == Run(env, old(View()), reqs)
        invariant outcomes + Outcomes(env, View(), reqs[i..]) == Outcomes(env, old(View()), reqs)
      {
        RunUnfolds(env, View(), reqs[i..]);
        assert reqs[i..][1..] == reqs[i + 1..];
        var outcome, factor := Serve(reqs[i]);
        outcomes := outcomes + [outcome];
      }
      RunUnfolds(env, View(), []);
      ghost var w := old(View());
      if AdminSafety.HasAdmin(old(users)) { AdminSafety.AdministratorSurvives(env, w, reqs); }
      if AccessRuns.Sound(env, w, now) && Timed(now, reqs) { AccessRuns.ReachableStatesAreSound(env, w, reqs, now); }
      RevokedStayShut(env, w, reqs);
      forall u | 0 <= u < |old(users)| && AccountEffects.HeldThroughout(old(users)[u], u, reqs)
        ensures u < |users| && users[u] == old(users)[u]
      {
        LockoutSafety.LockHolds(env, w, reqs, u);
      }
    }

    method PerformAction(current: nat, action: Action, at: Time) returns (outcome: Outcome, factor: Factor)
      requires current < |sessions| && sessions[current].user < |users|
      modifies this`users, this`roles, this`sessions, this`devices, this`codes, this`challenges, this`nextId
      ensures CoreStep(Tables(), outcome, factor) == Perform(env, old(Tables()), at, current, action)
    {
      hide PerformOwn, PerformMfa, PerformAdmin, PerformStep, ChangeRole, CreateAccount, RevokeOne;
      var me := sessions[current].user;
      outcome, factor := Refused(404), NoFactor;
      match action
      case Own(own) => outcome := PerformOwnAction(me, current, own, at);
      case Mfa(mfa) => outcome, factor := PerformMfaAction(me, current, mfa, at);
      case Admin(u, order) =>
        if u < |users| {
          outcome := OrderAccount(u, order, at);
        }
      case Playbook(step, reasoned) => outcome := RunStep(me, current, step, reasoned, at);
      case ManageRole(key, change) => outcome := AdministerRole(key, change, at);
      case RevokeSession(owner, s) => outcome := RevokeOneSession(owner, s, at, "administrator_revoked");
      case CreateUser(username, email, keys, admin, passwordHash, wellFormed) =>
        outcome := CreateAccountRow(username, email, keys, admin, passwordHash, wellFormed);
    }
  }
}
