/**
  Which codes pass as a second factor: the code that was presented, the secret or
  hash that was stored, and the clock decide it, for every request that asks for
  one.  And what enrolling, switching off and regenerating leave behind.
*/
module FactorChecks {
  import opened Options
  import opened Clock
  import opened AccessTables
  import opened AttemptLog
  import opened AccessSpec
  import AccountEffects
  import FactorUse
  import opened LoginAnswers

  // ---- one code against one device ----

  predicate SixDigitCode(code: string) {
    |code| == 6 && forall i :: 0 <= i < |code| ==> '0' <= code[i] <= '9'
  }

  /** `k` is the earliest thirty-second step around the clock whose code was presented. */
  predicate EarliestMatch(env: Env, secret: string, code: string, at: Time, k: int) {
    var step := at / (30 * SECOND);
    && step - 1 <= k <= step + 1 && env.otp(secret, k) == code
    && forall j :: step - 1 <= j < k ==> env.otp(secret, j) != code
  }

  /** The device takes the code as that of step `k`, later than every step it took before. */
  predicate Takes(env: Env, d: Device, code: string, at: Time, k: int) {
    SixDigitCode(code) && EarliestMatch(env, d.secret, code, at, k) && (d.lastCounter.Some? ==> d.lastCounter.value < k)
  }

  lemma AcceptedMeansTaken(env: Env, d: Device, at: Time, code: string, k: int)
    ensures AcceptedCounter(env, d, at, code) == Some(k) <==> Takes(env, d, code, at, k)
  {
    MatchIsEarliest(env, d.secret, code, at, k);
    var m := MatchingCounter(env, d.secret, code, Counter(at));
    if m.Some? { MatchIsEarliest(env, d.secret, code, at, m.value); }
  }

  lemma MatchIsEarliest(env: Env, secret: string, code: string, at: Time, k: int)
    ensures MatchingCounter(env, secret, code, Counter(at)) == Some(k) <==> EarliestMatch(env, secret, code, at, k)
  {
  }

  // ---- one code against a user ----

  predicate IsDeviceOf(c: Core, user: nat, d: nat) {
    && d in c.devices && c.devices[d].user == user && c.devices[d].enabled
    && forall e :: e in c.devices && c.devices[e].user == user && c.devices[e].enabled ==> d <= e
  }

  predicate IsCodeOf(env: Env, c: Core, user: nat, text: string, k: nat) {
    && k in c.codes && Unspent(env, c.codes[k], user, text)
    && forall j :: j in c.codes && Unspent(env, c.codes[j], user, text) ==> k <= j
  }

  /** An unused recovery code of the user with the presented text. */
  predicate Unspent(env: Env, code: RecoveryCode, user: nat, text: string) {
    code.user == user && code.hash == env.hash("recovery:" + text) && code.usedAt.None?
  }

  /** The factor that the presented text amounts to for the user. */
  ghost predicate AmountsTo(env: Env, c: Core, user: nat, at: Time, text: string, recovery: bool, f: Factor) {
    match f
    case Totp(d, k) => !recovery && IsDeviceOf(c, user, d) && Takes(env, c.devices[d], text, at, k)
    case Recovery(k) => recovery && IsCodeOf(env, c, user, text, k)
    case NoFactor =>
      if recovery then forall k: nat :: !IsCodeOf(env, c, user, text, k)
      else forall d: nat, k :: IsDeviceOf(c, user, d) ==> !Takes(env, c.devices[d], text, at, k)
  }

  lemma FirstEnabledIsDevice(c: Core, user: nat, d: nat)
    ensures IsDeviceOf(c, user, d) <==> EnabledDevices(c.devices, user) != {} && d == First(EnabledDevices(c.devices, user))
  {
    var s := EnabledDevices(c.devices, user);
    assert forall e :: e in s <==> e in c.devices && c.devices[e].user == user && c.devices[e].enabled;
    if d in s {
      assert IsFirst(First(s), s);
      assert d == First(s) <==> forall e :: e in s ==> d <= e;
    }
  }

  lemma FirstUnusedIsCode(env: Env, c: Core, user: nat, text: string, k: nat)
    ensures var s := UnusedCodes(c.codes, user, RecoveryHash(env, text));
            IsCodeOf(env, c, user, text, k) <==> s != {} && k == First(s)
  {
    var s := UnusedCodes(c.codes, user, RecoveryHash(env, text));
    assert forall j :: j in s <==> j in c.codes && Unspent(env, c.codes[j], user, text);
    if k in s {
      assert IsFirst(First(s), s);
      assert k == First(s) <==> forall j :: j in s ==> k <= j;
    }
  }

  /** Checking a factor accepts exactly what the presented text amounts to. */
  lemma FactorIsExact(env: Env, c: Core, user: nat, at: Time, text: string, recovery: bool)
    ensures AmountsTo(env, c, user, at, text, recovery, VerifyFactor(env, c, user, at, text, recovery).1)
    ensures forall f :: AmountsTo(env, c, user, at, text, recovery, f) ==> f == VerifyFactor(env, c, user, at, text, recovery).1
  {
    hide AcceptedCounter, Takes, IsDeviceOf, IsCodeOf, UnusedCodes;
    forall d: nat ensures IsDeviceOf(c, user, d) <==> EnabledDevices(c.devices, user) != {} && d == First(EnabledDevices(c.devices, user)) {
      FirstEnabledIsDevice(c, user, d);
    }
    forall k: nat ensures IsCodeOf(env, c, user, text, k) <==>
      UnusedCodes(c.codes, user, RecoveryHash(env, text)) != {} && k == First(UnusedCodes(c.codes, user, RecoveryHash(env, text)))
    {
      FirstUnusedIsCode(env, c, user, text, k);
    }
    forall d: Device, k ensures AcceptedCounter(env, d, at, text) == Some(k) <==> Takes(env, d, text, at, k) {
      AcceptedMeansTaken(env, d, at, text, k);
    }
    var s := EnabledDevices(c.devices, user);
    if !recovery && s != {} {
      var a := AcceptedCounter(env, c.devices[First(s)], at, text);
      if a.Some? { assert Takes(env, c.devices[First(s)], text, at, a.value); }
    }
  }

  /** What an accepted factor costs: the device moves to its step, or the recovery code is used; nothing else changes. */
  predicate Consumed(c: Core, c1: Core, f: Factor, at: Time) {
    match f
    case NoFactor => c1.devices == c.devices && c1.codes == c.codes
    case Totp(d, k) => d in c.devices && c1.devices == c.devices[d := c.devices[d].(lastCounter := Some(k))] && c1.codes == c.codes
    case Recovery(k) => k in c.codes && c1.codes == c.codes[k := c.codes[k].(usedAt := Some(at))] && c1.devices == c.devices
  }

  lemma FactorIsConsumed(env: Env, c: Core, user: nat, at: Time, text: string, recovery: bool)
    ensures var (c1, f) := VerifyFactor(env, c, user, at, text, recovery);
            Consumed(c, c1, f, at) && c1 == c.(devices := c1.devices, codes := c1.codes)
  {
    hide AcceptedCounter;
  }

  // ---- the second step of a login ----

  /** At an open challenge, exactly the right code of its account's device or an unused recovery code is accepted. */
  lemma SecondStepFactor(env: Env, w: World, req: Request, k: nat)
    requires req.call.VerifyMfa?
    ensures Challenges(env, w.core, req, k) ==>
              AmountsTo(env, w.core, w.core.challenges[k].user, req.at, req.call.code, req.call.recovery, Next(env, w, req).factor)
    ensures (forall j: nat :: !Challenges(env, w.core, req, j)) ==> Next(env, w, req).factor == NoFactor
    ensures Consumed(w.core, Next(env, w, req).world.core, Next(env, w, req).factor, req.at)
  {
    hide VerifyFactor, FindSession, Challenges, Barred, ChallengeOpen, AmountsTo;
    var found := ChallengesFor(w.core.challenges, env.hash(req.call.challengeToken));
    forall j: nat ensures Challenges(env, w.core, req, j) <==>
      && found != {} && j == First(found) && ChallengeOpen(w.core.challenges[j], req.at)
      && w.core.challenges[j].user < |w.core.users| && !Barred(w.core.users[w.core.challenges[j].user])
    {
      ChallengeIsFound(env, w.core, req, j);
    }
    if found != {} {
      FactorIsExact(env, w.core, w.core.challenges[First(found)].user, req.at, req.call.code, req.call.recovery);
      FactorIsConsumed(env, w.core, w.core.challenges[First(found)].user, req.at, req.call.code, req.call.recovery);
    }
  }

  // ---- requests of a signed-in user ----

  /** The request is one of user `me` in session `current`, and permitted. */
  predicate ComesFrom(env: Env, w: World, req: Request, current: nat, me: nat) {
    && req.call.Signed? && req.call.permitted
    && Lookup(env, w.core, req.at, req.call.cookie).1 == Some(current)
    && current < |w.core.sessions| && w.core.sessions[current].user == me < |w.core.users|
  }

  /** The state in which the request is performed. */
  function Admitted(env: Env, w: World, req: Request): Core
    requires req.call.Signed?
  {
    Lookup(env, w.core, req.at, req.call.cookie).0
  }

  lemma AdmittedState(env: Env, w: World, req: Request, current: nat, me: nat)
    requires ComesFrom(env, w, req, current, me)
    ensures var c := Admitted(env, w, req);
            && c == w.core.(sessions := c.sessions) && |c.sessions| == |w.core.sessions| && c.sessions[current].user == me
            && (forall i :: 0 <= i < |c.sessions| ==> c.sessions[i].user == w.core.sessions[i].user)
            && Next(env, w, req) == (var s := Perform(env, c, req.at, current, req.call.action); Step(w.(core := s.core), s.outcome, s.factor))
  {
    hide Perform;
  }

  /** Nothing of the user's second factor is left, and other users' is as it was. */
  ghost predicate SwitchedOff(c: Core, c1: Core, me: nat)
    requires me < |c.users|
  {
    && c1.users == c.users[me := c.users[me].(mfaEnabled := false)]
    && (forall d :: d in c1.devices && c1.devices[d].user == me ==> !c1.devices[d].enabled)
    && (forall k :: k in c1.codes ==> c1.codes[k].user != me)
    && (forall k :: k in c1.challenges && c1.challenges[k].user == me ==> c1.challenges[k].usedAt.Some?)
    && OthersKeepFactors(c, c1, me)
  }

  lemma RowsSwitchedOff(c: Core, c1: Core, c2: Core, me: nat, f: Factor, at: Time)
    requires me < |c.users| && Consumed(c, c1, f, at) && c1 == c.(devices := c1.devices, codes := c1.codes)
    requires (f.Totp? ==> c.devices[f.device].user == me) && (f.Recovery? ==> c.codes[f.code].user == me)
    requires c2.users == c.users[me := c.users[me].(mfaEnabled := false)]
    requires c2.devices == SwitchOffDevices(c1.devices, me) && c2.codes == DropCodes(c1.codes, me) && c2.challenges == DropOpenChallenges(c.challenges, me)
    ensures SwitchedOff(c, c2, me)
  {
  }

  /** Switching the second factor off takes the confirmation, the password and a factor, and then leaves nothing of it. */
  lemma SwitchOffIsExact(env: Env, w: World, req: Request, current: nat, me: nat)
    requires ComesFrom(env, w, req, current, me) && req.call.action.Mfa? && req.call.action.mfa.DisableMfa?
    ensures var (s, m, a) := (Next(env, w, req), req.call.action.mfa, w.core.users[me]);
            var asked := m.confirm && a.mfaEnabled && env.verifyPassword(a.passwordHash, m.password);
            && (asked ==> AmountsTo(env, w.core, me, req.at, m.code, m.recovery, s.factor)) && (!asked ==> s.factor == NoFactor)
            && (s.outcome.Done? <==> s.factor != NoFactor)
            && (s.outcome.Done? ==> SwitchedOff(w.core, s.world.core, me))
  {
    hide VerifyFactor, AmountsTo, RevokeAll, Lookup, SwitchedOff, Consumed, SwitchOffDevices, DropCodes, DropOpenChallenges;
    AdmittedState(env, w, req, current, me);
    var (c, m) := (Admitted(env, w, req), req.call.action.mfa);
    var (c1, f) := VerifyFactor(env, c, me, req.at, m.code, m.recovery);
    FactorIsExact(env, c, me, req.at, m.code, m.recovery);
    SameAmount(env, w.core, c, me, req.at, m.code, m.recovery, f);
    if Next(env, w, req).outcome.Done? {
      FactorIsConsumed(env, c, me, req.at, m.code, m.recovery);
      FactorIsOwn(env, c, me, req.at, m.code, m.recovery);
      RowsSwitchedOff(c, c1, Next(env, w, req).world.core, me, f, req.at);
      SameSwitchedOff(c, w.core, Next(env, w, req).world.core, me);
    }
  }

  lemma SameSwitchedOff(c: Core, c0: Core, c1: Core, me: nat)
    requires me < |c.users| && c0 == c.(sessions := c0.sessions) && SwitchedOff(c, c1, me)
    ensures SwitchedOff(c0, c1, me)
  {
  }

  /** Devices, codes and challenges of other users are as they were. */
  ghost predicate OthersKeepFactors(c: Core, c1: Core, user: nat) {
    && (forall d :: d in c.devices && c.devices[d].user != user ==> d in c1.devices && c1.devices[d] == c.devices[d])
    && OthersKeepCodes(c, c1, user)
    && (forall k :: k in c.challenges && c.challenges[k].user != user ==> k in c1.challenges && c1.challenges[k] == c.challenges[k])
  }

  lemma FactorIsOwn(env: Env, c: Core, user: nat, at: Time, text: string, recovery: bool)
    ensures var (c1, f) := VerifyFactor(env, c, user, at, text, recovery);
            (f.Totp? ==> f.device in c.devices && c.devices[f.device].user == user) && (f.Recovery? ==> f.code in c.codes && c.codes[f.code].user == user)
  {
    hide AcceptedCounter;
  }

  /** The sessions play no part in what a code amounts to. */
  lemma SameAmount(env: Env, c: Core, c1: Core, user: nat, at: Time, text: string, recovery: bool, f: Factor)
    requires c1 == c.(sessions := c1.sessions)
    ensures AmountsTo(env, c, user, at, text, recovery, f) <==> AmountsTo(env, c1, user, at, text, recovery, f)
  {
    hide Takes;
    forall d: nat ensures IsDeviceOf(c, user, d) <==> IsDeviceOf(c1, user, d) {
    }
    forall k: nat ensures IsCodeOf(env, c, user, text, k) <==> IsCodeOf(env, c1, user, text, k) {
    }
  }

  /** Every text of `texts` is a stored, unused recovery code of the user, and these are all the user has. */
  ghost predicate Issued(env: Env, c: Core, user: nat, texts: seq<string>) {
    && (forall i :: 0 <= i < |texts| ==> Stored(env, c.codes, user, texts[i]))
    && (forall k :: k in c.codes && c.codes[k].user == user ==> OneOf(env, c.codes[k], user, texts))
  }

  ghost predicate Stored(env: Env, codes: map<nat, RecoveryCode>, user: nat, text: string) {
    exists k :: k in codes && Unspent(env, codes[k], user, text)
  }

  ghost predicate OneOf(env: Env, code: RecoveryCode, user: nat, texts: seq<string>) {
    exists i :: 0 <= i < |texts| && Unspent(env, code, user, texts[i])
  }

  /** The codes of other users are as they were. */
  ghost predicate OthersKeepCodes(c: Core, c1: Core, user: nat) {
    && (forall k :: k in c.codes && c.codes[k].user != user ==> k in c1.codes && c1.codes[k] == c.codes[k])
    && (forall k :: k in c1.codes && c1.codes[k].user != user ==> k in c.codes)
  }

  /** The rows after codes were replaced: the others' rows, and a fresh row for each text. */
  lemma ReplacedRows(env: Env, c: Core, user: nat, texts: seq<string>, k: nat)
    requires forall j :: j in c.codes ==> j < c.nextId
    ensures var r := ReplaceCodes(env, c, user, texts);
            r.Some? ==>
              && r.value == c.(codes := r.value.codes, nextId := r.value.nextId)
              && (k < c.nextId ==> (k in r.value.codes <==> k in c.codes && c.codes[k].user != user) && (k in r.value.codes ==> r.value.codes[k] == c.codes[k]))
              && (c.nextId <= k ==>
                    && (k in r.value.codes <==> k < c.nextId + |texts|)
                    && (k in r.value.codes ==> r.value.codes[k] == RecoveryCode(user, env.hash("recovery:" + texts[k - c.nextId]), None)))
  {
    hide CodesInsertable;
  }

  lemma ReplacedKeepOthers(env: Env, c: Core, user: nat, texts: seq<string>)
    requires forall k :: k in c.codes ==> k < c.nextId
    ensures var r := ReplaceCodes(env, c, user, texts);
            r.Some? ==> OthersKeepCodes(c, r.value, user)
  {
    hide ReplaceCodes;
    var r := ReplaceCodes(env, c, user, texts);
    if r.Some? {
      forall k: nat | (k in c.codes && c.codes[k].user != user) || (k in r.value.codes && r.value.codes[k].user != user)
        ensures k in c.codes && k in r.value.codes && r.value.codes[k] == c.codes[k]
      {
        ReplacedRows(env, c, user, texts, k);
      }
    }
  }

  lemma ReplacedIssue(env: Env, c: Core, user: nat, texts: seq<string>)
    requires forall k :: k in c.codes ==> k < c.nextId
    ensures var r := ReplaceCodes(env, c, user, texts);
            r.Some? ==> Issued(env, r.value, user, texts)
  {
    hide ReplaceCodes;
    var r := ReplaceCodes(env, c, user, texts);
    if r.Some? {
      var codes := r.value.codes;
      forall i | 0 <= i < |texts| ensures Stored(env, codes, user, texts[i]) {
        ReplacedRows(env, c, user, texts, c.nextId + i);
        assert Unspent(env, codes[c.nextId + i], user, texts[i]);
      }
      forall k | k in codes && codes[k].user == user ensures OneOf(env, codes[k], user, texts) {
        ReplacedRows(env, c, user, texts, k);
        assert Unspent(env, codes[k], user, texts[k - c.nextId]);
      }
    }
  }

  lemma ReplacedAreIssued(env: Env, c: Core, user: nat, texts: seq<string>)
    requires forall k :: k in c.codes ==> k < c.nextId
    ensures var r := ReplaceCodes(env, c, user, texts);
            r.Some? ==> Issued(env, r.value, user, texts) && OthersKeepCodes(c, r.value, user)
                        && r.value == c.(codes := r.value.codes, nextId := r.value.nextId)
  {
    hide ReplaceCodes, Issued, OthersKeepCodes;
    ReplacedRows(env, c, user, texts, 0);
    ReplacedKeepOthers(env, c, user, texts);
    ReplacedIssue(env, c, user, texts);
  }

  /** New recovery codes take the password and a one-time code, never a recovery code; the new ones then work and the old do not. */
  lemma RegenerationIsExact(env: Env, w: World, req: Request, current: nat, me: nat)
    requires ComesFrom(env, w, req, current, me) && req.call.action.Mfa? && req.call.action.mfa.RegenerateCodes?
    requires forall k :: k in w.core.codes ==> k < w.core.nextId
    ensures var (s, m, a) := (Next(env, w, req), req.call.action.mfa, w.core.users[me]);
            var asked := !m.asRecovery && env.verifyPassword(a.passwordHash, m.password);
            && s.world.core.users == w.core.users
            && (asked ==> AmountsTo(env, w.core, me, req.at, m.code, false, s.factor)) && (!asked ==> s.factor == NoFactor)
            && (s.outcome.Done? ==> s.factor != NoFactor && Issued(env, s.world.core, me, m.newCodes) && OthersKeepCodes(w.core, s.world.core, me))
            && (s.factor != NoFactor ==> s.outcome.Done? || s.outcome == Refused(500))
            && (s.factor.NoFactor? ==> s.world.core.devices == w.core.devices && s.world.core.codes == w.core.codes)
            && (s.factor.Totp? ==>
                  var d := s.factor.device;
                  d in w.core.devices && s.world.core.devices == w.core.devices[d := w.core.devices[d].(lastCounter := Some(s.factor.counter))])
  {
    hide VerifyFactor, AmountsTo, ReplaceCodes, Issued, Lookup;
    AdmittedState(env, w, req, current, me);
    var (c, m) := (Admitted(env, w, req), req.call.action.mfa);
    var (c1, f) := VerifyFactor(env, c, me, req.at, m.code, false);
    FactorIsExact(env, c, me, req.at, m.code, false);
    SameAmount(env, w.core, c, me, req.at, m.code, false, f);
    OneTimeCodesKeepCodes(env, c, me, req.at, m.code);
    FactorIsConsumed(env, c, me, req.at, m.code, false);
    ReplacedAreIssued(env, c1, me, m.newCodes);
  }

  lemma OneTimeCodesKeepCodes(env: Env, c: Core, user: nat, at: Time, code: string)
    ensures var c1 := VerifyFactor(env, c, user, at, code, false).0;
            c1.codes == c.codes && c1.nextId == c.nextId && c1.users == c.users
  {
  }

  // ---- enrolling ----

  predicate MayEnroll(a: Account, at: Time) {
    a.status == Active && !a.mustChange && (a.lockedUntil.None? || a.lockedUntil.value <= at)
  }

  /** `d` is the newest setup in progress of the user, and the one the request names if it names one. */
  predicate IsSetupOf(c: Core, user: nat, named: Option<nat>, d: nat) {
    && IsSetup(c, user, named, d)
    && forall e :: e in c.devices && IsSetup(c, user, named, e) ==> e <= d
  }

  predicate IsSetup(c: Core, user: nat, named: Option<nat>, d: nat) {
    d in c.devices && c.devices[d].user == user && !c.devices[d].enabled && (named.Some? ==> named.value == d)
  }

  lemma NewestPendingIsSetup(c: Core, user: nat, named: Option<nat>, d: nat)
    ensures var s := NamedPending(c.devices, user, named);
            IsSetupOf(c, user, named, d) <==> s != {} && d == Newest(s)
  {
    var s := NamedPending(c.devices, user, named);
    assert forall e :: e in s <==> e in c.devices && IsSetup(c, user, named, e);
    if d in s {
      assert IsNewest(Newest(s), s);
      assert d == Newest(s) <==> forall e :: e in s ==> e <= d;
    }
  }

  /**
    Confirming a setup: the right code of a setup in progress that has not lapsed
    and has not failed five times enables it, sets the flag and issues the codes;
    a wrong one is counted; anything else changes at most the lapsed setup.
  */
  lemma ConfirmationIsExact(env: Env, w: World, req: Request, current: nat, me: nat, d: nat)
    requires ComesFrom(env, w, req, current, me) && req.call.action.Mfa? && req.call.action.mfa.ConfirmMfa?
    requires forall k :: k in w.core.codes ==> k < w.core.nextId
    ensures var (s, m, a, c) := (Next(env, w, req), req.call.action.mfa, w.core.users[me], w.core);
            var ready := MayEnroll(a, req.at) && !a.mfaEnabled && IsSetupOf(c, me, m.device, d)
                         && c.devices[d].enrollmentExpires.Some? && req.at < c.devices[d].enrollmentExpires.value && c.devices[d].failedAttempts < 5;
            && (forall k :: s.factor == Totp(d, k) ==> ready && Takes(env, c.devices[d], m.code, req.at, k))
            && (forall k :: ready && Takes(env, c.devices[d], m.code, req.at, k) ==> s.factor == Totp(d, k) || s.outcome == Refused(500))
            && (ready && (forall k :: !Takes(env, c.devices[d], m.code, req.at, k)) ==>
                  && s.outcome == Refused(if c.devices[d].failedAttempts == 4 then 429 else 422)
                  && s.world.core.devices == c.devices[d := c.devices[d].(failedAttempts := c.devices[d].failedAttempts + 1)])
            && (s.outcome.Done? <==> s.factor.Totp?) && !s.factor.Recovery?
            && (s.factor.Totp? && s.factor.device == d ==>
                  && s.world.core.users == c.users[me := a.(mfaEnabled := true)]
                  && s.world.core.devices == c.devices[d := c.devices[d].(enabled := true, lastCounter := Some(s.factor.counter), enrollmentExpires := None, failedAttempts := 0)]
                  && Issued(env, s.world.core, me, m.newCodes) && OthersKeepCodes(c, s.world.core, me))
  {
    hide AcceptedCounter, Takes, ReplaceCodes, Issued, Lookup, IsSetupOf, ConfirmDevice;
    AdmittedState(env, w, req, current, me);
    var (c, m) := (Admitted(env, w, req), req.call.action.mfa);
    forall e: nat ensures IsSetupOf(c, me, m.device, e) <==>
      NamedPending(c.devices, me, m.device) != {} && e == Newest(NamedPending(c.devices, me, m.device))
    {
      NewestPendingIsSetup(c, me, m.device, e);
    }
    assert IsSetupOf(w.core, me, m.device, d) <==> IsSetupOf(c, me, m.device, d) by { SameSetup(w.core, c, me, m.device, d); }
    if NamedPending(c.devices, me, m.device) != {} {
      ConfirmedDevice(env, c, me, Newest(NamedPending(c.devices, me, m.device)), req.at, m.code, m.newCodes);
    }
  }

  lemma SameSetup(c: Core, c1: Core, user: nat, named: Option<nat>, d: nat)
    requires c1.devices == c.devices
    ensures IsSetupOf(c, user, named, d) <==> IsSetupOf(c1, user, named, d)
  {
  }

  lemma ConfirmedDevice(env: Env, c: Core, me: nat, d: nat, at: Time, code: string, newCodes: seq<string>)
    requires me < |c.users| && d in c.devices && forall k :: k in c.codes ==> k < c.nextId
    ensures var (s, row) := (ConfirmDevice(env, c, me, d, at, code, newCodes), c.devices[d]);
            var ready := row.enrollmentExpires.Some? && at < row.enrollmentExpires.value && row.failedAttempts < 5;
            && (forall k :: s.factor == Totp(d, k) ==> ready && Takes(env, row, code, at, k))
            && (forall k :: ready && Takes(env, row, code, at, k) ==> s.factor == Totp(d, k) || s.outcome == Refused(500))
            && (ready && (forall k :: !Takes(env, row, code, at, k)) ==>
                  && s.outcome == Refused(if row.failedAttempts == 4 then 429 else 422)
                  && s.core.devices == c.devices[d := row.(failedAttempts := row.failedAttempts + 1)])
            && (s.outcome.Done? <==> s.factor.Totp?) && (s.factor.Totp? ==> s.factor.device == d) && !s.factor.Recovery?
            && (s.factor.Totp? ==>
                  && s.core.users == c.users[me := c.users[me].(mfaEnabled := true)]
                  && s.core.devices == c.devices[d := row.(enabled := true, lastCounter := Some(s.factor.counter), enrollmentExpires := None, failedAttempts := 0)]
                  && Issued(env, s.core, me, newCodes) && OthersKeepCodes(c, s.core, me))
  {
    hide AcceptedCounter, Takes, ReplaceCodes, Issued;
    forall k ensures AcceptedCounter(env, c.devices[d], at, code) == Some(k) <==> Takes(env, c.devices[d], code, at, k) {
      AcceptedMeansTaken(env, c.devices[d], at, code, k);
    }
    var accepted := AcceptedCounter(env, c.devices[d], at, code);
    if accepted.Some? {
      assert Takes(env, c.devices[d], code, at, accepted.value);
      var row := c.devices[d].(enabled := true, lastCounter := accepted, enrollmentExpires := None, failedAttempts := 0);
      ReplacedAreIssued(env, c.(devices := c.devices[d := row], users := c.users[me := c.users[me].(mfaEnabled := true)]), me, newCodes);
    }
  }

  /** Starting a setup takes an eligible account and its password, and leaves exactly one setup in progress, ten minutes long. */
  lemma SetupIsExact(env: Env, w: World, req: Request, current: nat, me: nat)
    requires ComesFrom(env, w, req, current, me) && req.call.action.Mfa? && req.call.action.mfa.EnrollMfa?
    requires forall d :: d in w.core.devices ==> d < w.core.nextId
    ensures var (s, m, a, c) := (Next(env, w, req), req.call.action.mfa, w.core.users[me], w.core);
            var c1 := s.world.core;
            && (s.outcome.Done? <==> MayEnroll(a, req.at) && env.verifyPassword(a.passwordHash, m.password) && !a.mfaEnabled)
            && (!s.outcome.Done? ==> c1.devices == c.devices)
            && (s.outcome.Done? && c1.devices != c.devices ==>
                  && c1.devices[c.nextId := Device(me, m.secret, false, None, Some(req.at + 10 * MINUTE), 0)] == c1.devices
                  && (forall d :: d in c1.devices && IsSetup(c1, me, None, d) ==> d == c.nextId)
                  && (forall d :: d in c.devices && !IsSetup(c, me, None, d) ==> d in c1.devices && c1.devices[d] == c.devices[d]))
            && (s.outcome.Done? && c1.devices == c.devices ==>
                  !m.restart && exists d :: IsSetupOf(c, me, None, d) && c.devices[d].enrollmentExpires.Some? && req.at < c.devices[d].enrollmentExpires.value)
  {
    hide Lookup, Newest;
    AdmittedState(env, w, req, current, me);
    var c := Admitted(env, w, req);
    assert c.nextId !in c.devices;
    var pending := PendingDevices(c.devices, me);
    if pending != {} {
      assert NamedPending(c.devices, me, None) == pending;
      NewestPendingIsSetup(w.core, me, None, Newest(pending));
    }
  }

  /** Cancelling deletes the setups in progress of the user, and asking for the status at most a lapsed one; enabled devices and other users' stay. */
  lemma SetupsEndExactly(env: Env, w: World, req: Request, current: nat, me: nat)
    requires ComesFrom(env, w, req, current, me) && req.call.action.Mfa? && (req.call.action.mfa.CancelMfa? || req.call.action.mfa.MfaStatus?)
    ensures var (c, c1) := (w.core, Next(env, w, req).world.core);
            && Next(env, w, req).outcome.Done? && c1 == c.(devices := c1.devices, sessions := c1.sessions)
            && (forall d :: d in c1.devices ==> d in c.devices && c1.devices[d] == c.devices[d])
            && (req.call.action.mfa.CancelMfa? ==> forall d :: d in c.devices ==> (d !in c1.devices <==> IsSetup(c, me, None, d)))
            && (req.call.action.mfa.MfaStatus? ==>
                  forall d: nat :: d in c.devices ==>
                    (d !in c1.devices <==>
                       IsSetupOf(c, me, None, d) && (c.devices[d].enrollmentExpires.None? || c.devices[d].enrollmentExpires.value <= req.at)))
  {
    hide Lookup, Newest;
    AdmittedState(env, w, req, current, me);
    var c := Admitted(env, w, req);
    assert NamedPending(c.devices, me, None) == PendingDevices(c.devices, me);
    forall d: nat ensures IsSetupOf(w.core, me, None, d) <==> PendingDevices(c.devices, me) != {} && d == Newest(PendingDevices(c.devices, me)) {
      NewestPendingIsSetup(w.core, me, None, d);
    }
  }

  // ---- every request ----

  /** The text a request presents as a factor, and whether as a recovery code. */
  function PresentedText(req: Request): Option<(string, bool)> {
    match req.call
    case VerifyMfa(_, code, recovery, _) => Some((code, recovery))
    case Signed(_, _, Mfa(ConfirmMfa(code, _, _))) => Some((code, false))
    case Signed(_, _, Mfa(DisableMfa(_, _, code, recovery))) => Some((code, recovery))
    case Signed(_, _, Mfa(RegenerateCodes(_, _, code, _))) => Some((code, false))
    case _ => None
  }

  /** The factor is one of the stored ones, and the presented text is its code. */
  ghost predicate Matched(env: Env, c: Core, at: Time, text: string, recovery: bool, f: Factor) {
    match f
    case NoFactor => true
    case Totp(d, k) => !recovery && d in c.devices && Takes(env, c.devices[d], text, at, k)
    case Recovery(k) => recovery && k in c.codes && c.codes[k].hash == env.hash("recovery:" + text) && c.codes[k].usedAt.None?
  }

  lemma ConfirmMatches(env: Env, c: Core, me: nat, at: Time, code: string, device: Option<nat>, newCodes: seq<string>)
    requires me < |c.users|
    ensures Matched(env, c, at, code, false, Confirm(env, c, me, at, code, device, newCodes).factor)
  {
    hide AcceptedCounter, Takes, ReplaceCodes;
    var pending := NamedPending(c.devices, me, device);
    if pending != {} {
      var d := Newest(pending);
      var accepted := AcceptedCounter(env, c.devices[d], at, code);
      if accepted.Some? { AcceptedMeansTaken(env, c.devices[d], at, code, accepted.value); }
    }
  }

  lemma PerformMatches(env: Env, c: Core, at: Time, current: nat, action: Action, text: string, recovery: bool)
    requires current < |c.sessions| && c.sessions[current].user < |c.users|
    requires PresentedText(Request(at, None, Signed("", true, action))) == Some((text, recovery))
    ensures Matched(env, c, at, text, recovery, Perform(env, c, at, current, action).factor)
  {
    hide VerifyFactor, Confirm, ReplaceCodes, Takes, RevokeAll;
    var me := c.sessions[current].user;
    FactorIsExact(env, c, me, at, text, recovery);
    if action.mfa.ConfirmMfa? { ConfirmMatches(env, c, me, at, text, action.mfa.device, action.mfa.newCodes); }
  }

  /** Whatever request has a factor accepted presented the text of a stored, unspent one: a current code of the device, or a recovery code. */
  lemma AcceptedWasPresented(env: Env, w: World, req: Request)
    ensures var f := Next(env, w, req).factor;
            f != NoFactor ==> PresentedText(req).Some? && Matched(env, w.core, req.at, PresentedText(req).value.0, PresentedText(req).value.1, f)
  {
    hide Perform, CompleteLogin, LogIn, SelfRegister, ManageAccount, RetainRows, Lookup, Matched;
    var at := req.at;
    match req.call
    case VerifyMfa(challengeToken, code, recovery, token) => CompleteMatches(env, w.core, at, challengeToken, code, recovery, token);
    case Signed(cookie, permitted, action) =>
      var (c, current) := Lookup(env, w.core, at, cookie);
      FactorUse.LookupKeepsFactors(env, w.core, at, cookie);
      if current.Some? && permitted {
        if PresentedText(req).Some? {
          var (text, recovery) := PresentedText(req).value;
          PerformMatches(env, c, at, current.value, action, text, recovery);
          SameTables(env, c, w.core, at, text, recovery, Perform(env, c, at, current.value, action).factor);
        } else {
          OnlyCodesAreFactors(env, c, at, current.value, action);
        }
      }
    case Login(_, _, _, _) => LoginHasNoFactor(env, w, req);
    case Register(_, _, _, _) => FactorUse.RegisterKeepsFactors(env, w, req);
    case Manage(cookie, _, target, m) =>
      var (c, current) := Lookup(env, w.core, at, cookie);
      if current.Some? { FactorUse.ManageKeepsFactors(env, w.(core := c), at, IpHash(env, req.ip), c.sessions[current.value].user, target, m); }
    case Retain(cookie, _, rows) => RetainHasNoFactor(w.(core := Lookup(env, w.core, at, cookie).0), at, rows);
  }

  lemma SameTables(env: Env, c: Core, c1: Core, at: Time, text: string, recovery: bool, f: Factor)
    requires c1.devices == c.devices && c1.codes == c.codes
    ensures Matched(env, c, at, text, recovery, f) == Matched(env, c1, at, text, recovery, f)
  {
  }

  lemma CompleteMatches(env: Env, c: Core, at: Time, challengeToken: string, code: string, recovery: bool, token: string)
    ensures Matched(env, c, at, code, recovery, CompleteLogin(env, c, at, challengeToken, code, recovery, token).factor)
  {
    hide VerifyFactor, Takes, FindSession;
    var found := ChallengesFor(c.challenges, env.hash(challengeToken));
    if found != {} { FactorIsExact(env, c, c.challenges[First(found)].user, at, code, recovery); }
  }

  lemma OnlyCodesAreFactors(env: Env, c: Core, at: Time, current: nat, action: Action)
    requires current < |c.sessions| && c.sessions[current].user < |c.users|
    requires PresentedText(Request(at, None, Signed("", true, action))).None?
    ensures Perform(env, c, at, current, action).factor == NoFactor
  {
    hide PerformOwn, PerformAdmin, PerformStep, ChangeRole, CreateAccount, RevokeOne, Enroll;
  }

  lemma LoginHasNoFactor(env: Env, w: World, req: Request)
    requires req.call.Login?
    ensures Next(env, w, req).factor == NoFactor
  {
    hide Authenticate, EnterAccount;
  }

  lemma RetainHasNoFactor(w: World, at: Time, rows: Retention)
    ensures RetainRows(w, at, rows).factor == NoFactor
  {
  }
}
