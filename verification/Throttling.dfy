/**
  The attempt log over whole runs: the sliding window bounds failed password
  checks, pruning by age is invisible, and clearing one account's failed logins
  never touches the registration and management rows kept in the same table.
*/
module Throttling {
  import opened Options
  import opened Clock
  import opened AccessTables
  import opened AttemptLog
  import opened AccessSpec
  import AccountEffects

  // ---- what one request does to the log ----

  lemma {:induction false} ForgetForget(log: seq<Attempt>, a: set<string>, b: set<string>)
    ensures Forget(Forget(log, a), b) == Forget(log, a + b)
  {
    if log != [] {
      var front, last := log[..|log| - 1], log[|log| - 1];
      ForgetForget(front, a, b);
      ForgetAppend(Forget(front, a), last, b);
    }
  }

  lemma {:induction false} ForgetNothing(log: seq<Attempt>)
    ensures Forget(log, {}) == log
  {
    if log != [] {
      ForgetNothing(log[..|log| - 1]);
      assert log == log[..|log| - 1] + [log[|log| - 1]];
    }
  }

  /** The keys whose failures a request deletes. */
  function ClearedKeys(env: Env, w: World, req: Request): set<string> {
    match req.call
    case Login(isEmail, identifier, password, _) =>
      var found := FindAccount(w.core.users, isEmail, identifier);
      var accepted := Authenticate(env, w, req.at, IpHash(env, req.ip), isEmail, identifier, password).1.Accepted?;
      if env.localLogin && found.Some? && (accepted || LockExpired(w.core.users[found.value], req.at))
      then AccountKeys(env, w.core.users[found.value]) + {LoginKey(env, identifier)}
      else {}
    case Register(email, username, _, _) =>
      if Next(env, w, req).outcome.Done? then {LoginKey(env, username), LoginKey(env, email)} else {}
    case Manage(_, _, target, m) =>
      if m.Unlock? && Next(env, w, req).outcome.Done? && target < |w.core.users|
      then AccountKeys(env, w.core.users[target]) else {}
    case _ => {}
  }

  /** How a request shortens the log by age: not at all, as every login does, or as retention does. */
  datatype Trim = NoTrim | LoginTrim | RetentionTrim(doomed: set<nat>, cutoff: Time)

  datatype LogEffect = LogEffect(cleared: set<string>, row: Option<Attempt>, trim: Trim)

  function TrimLog(prunes: bool, log: seq<Attempt>, trim: Trim, at: Time): seq<Attempt> {
    match trim
    case NoTrim => log
    case LoginTrim => Prune(prunes, log, at)
    case RetentionTrim(doomed, cutoff) => if prunes then Purge(log, doomed, cutoff) else log
  }

  function ApplyLog(prunes: bool, log: seq<Attempt>, e: LogEffect, at: Time): seq<Attempt> {
    TrimLog(prunes, Forget(log, e.cleared) + if e.row.Some? then [e.row.value] else [], e.trim, at)
  }

  /** Nothing trims rows of the last day. */
  predicate SparesLastDay(trim: Trim, at: Time) {
    trim.RetentionTrim? ==> trim.cutoff <= at - DAY
  }

  lemma TrimKeepsLastDay(prunes: bool, log: seq<Attempt>, trim: Trim, at: Time, since: Time)
    requires SparesLastDay(trim, at) && at - DAY <= since
    ensures Since(TrimLog(prunes, log, trim, at), since) == Since(log, since)
  {
    match trim
    case NoTrim =>
    case LoginTrim => SinceSince(log, at - RETENTION, since);
    case RetentionTrim(doomed, cutoff) => SincePurge(log, doomed, cutoff, since);
  }

  lemma LiftClears(env: Env, w: World, u: nat, identifier: string, at: Time)
    requires u < |w.core.users|
    ensures var w1 := LiftExpiredLock(env, w, Some(u), identifier, at);
            w1.log == if LockExpired(w.core.users[u], at)
                      then Forget(w.log, AccountKeys(env, w.core.users[u]) + {LoginKey(env, identifier)}) else w.log
    ensures var w1 := LiftExpiredLock(env, w, Some(u), identifier, at);
            AccountKeys(env, w1.core.users[u]) == AccountKeys(env, w.core.users[u])
  {
    ForgetForget(w.log, AccountKeys(env, w.core.users[u]), {LoginKey(env, identifier)});
  }

  lemma LoginEffect(env: Env, w: World, req: Request) returns (e: LogEffect)
    requires req.call.Login?
    ensures e.cleared == ClearedKeys(env, w, req) && Next(env, w, req).world.log == ApplyLog(w.prunes, w.log, e, req.at)
    ensures (e.row.Some? ==> e.row.value.at == req.at) && SparesLastDay(e.trim, req.at)
    ensures Next(env, w, req).outcome.BadCredentials? ==>
      && e.row == Some(Attempt(LoginKey(env, req.call.identifier), IpHash(env, req.ip), false, req.at))
      && (LoginKey(env, req.call.identifier) in e.cleared || !LoginThrottled(env, w.log, req.call.identifier, IpHash(env, req.ip), req.at))
    ensures var v := Authenticate(env, w, req.at, IpHash(env, req.ip), req.call.isEmail, req.call.identifier, req.call.password).1;
            env.localLogin && !v.Throttled? ==>
              e.row == Some(Attempt(LoginKey(env, req.call.identifier), IpHash(env, req.ip), v.Accepted?, req.at)) && e.trim == LoginTrim
  {
    hide Count, Since, Forget, AccountKeys, RegisterFailure, ClearFailures, Hits;
    var at, ip, id := req.at, IpHash(env, req.ip), req.call.identifier;
    var found := FindAccount(w.core.users, req.call.isEmail, id);
    var (w2, verdict) := Authenticate(env, w, at, ip, req.call.isEmail, id, req.call.password);
    var w1 := LiftExpiredLock(env, w, found, id, at);
    var keys := ClearedKeys(env, w, req);
    ForgetNothing(w.log);
    if found.Some? { LiftClears(env, w, found.value, id, at); }
    if !env.localLogin || verdict.Throttled? {
      e := LogEffect(keys, None, NoTrim);
    } else {
      e := LogEffect(keys, Some(Attempt(LoginKey(env, id), ip, verdict.Accepted?, at)), LoginTrim);
      if verdict.Accepted? {
        var mine, this1 := AccountKeys(env, w.core.users[found.value]), {LoginKey(env, id)};
        ForgetForget(w1.log, mine, this1);
        ForgetForget(w.log, keys, mine + this1);
        assert keys == mine + this1 && keys + (mine + this1) == keys;
        assert Forget(w1.log, mine + this1) == Forget(w.log, keys);
      } else {
        assert w1.log == Forget(w.log, keys);
      }
    }
  }

  lemma ManageEffect(env: Env, w: World, req: Request) returns (e: LogEffect)
    requires req.call.Manage?
    ensures e.cleared == ClearedKeys(env, w, req) && Next(env, w, req).world.log == ApplyLog(w.prunes, w.log, e, req.at)
    ensures (e.row.Some? ==> e.row.value.at == req.at) && SparesLastDay(e.trim, req.at)
    ensures !Next(env, w, req).outcome.BadCredentials?
  {
    hide Count, Since, Forget, Lookup, RolesAssignable, RevokeAll, IsLastAdmin, AccountKeys;
    ForgetNothing(w.log);
    AccountEffects.LookupKeepsUsers(env, w.core, req.at, req.call.cookie);
    var (c, current) := Lookup(env, w.core, req.at, req.call.cookie);
    var ip, m, after := IpHash(env, req.ip), req.call.managed, Next(env, w, req);
    var keys := ClearedKeys(env, w, req);
    if current.None? || !req.call.permitted || m.Unlock? || req.call.target >= |c.users| {
      e := LogEffect(keys, None, NoTrim);
    } else {
      var actor := c.sessions[current.value].user;
      e := LogEffect(keys, None, NoTrim);
      if !ManagementThrottled(env, w.log, actor, ManagementName(m), ip, req.at) {
        e := LogEffect(keys, Some(Attempt(ManagementKey(env, actor, ManagementName(m)), ip, true, req.at)), NoTrim);
      }
    }
  }

  lemma DaysAreDays(days: nat)
    ensures days > 0 ==> DAY <= days * DAY
  {
  }

  /** Every request deletes the failures under `ClearedKeys`, adds at most one row, and trims only what is a day old. */
  lemma NextLog(env: Env, w: World, req: Request) returns (e: LogEffect)
    ensures e.cleared == ClearedKeys(env, w, req) && Next(env, w, req).world.log == ApplyLog(w.prunes, w.log, e, req.at)
    ensures (e.row.Some? ==> e.row.value.at == req.at) && SparesLastDay(e.trim, req.at)
    ensures Next(env, w, req).outcome.BadCredentials? && req.call.Login? ==>
      && e.row == Some(Attempt(LoginKey(env, req.call.identifier), IpHash(env, req.ip), false, req.at))
      && (LoginKey(env, req.call.identifier) in e.cleared || !LoginThrottled(env, w.log, req.call.identifier, IpHash(env, req.ip), req.at))
  {
    hide Count, Since, Forget, Purge, Perform, Decide, CompleteLogin, Lookup, Authenticate, LoginThrottled, RolesAssignable;
    ForgetNothing(w.log);
    e := LogEffect({}, None, NoTrim);
    var after, at := Next(env, w, req), req.at;
    match req.call
    case Login(_, _, _, _) => e := LoginEffect(env, w, req);
    case Register(email, username, _, _) =>
      assert {LoginKey(env, username)} + {LoginKey(env, email)} == {LoginKey(env, username), LoginKey(env, email)};
      if after.outcome != Refused(403) && after.outcome != Refused(429) {
        e := LogEffect(ClearedKeys(env, w, req), Some(Attempt(RegistrationKey(env, email), IpHash(env, req.ip), after.outcome.Done?, at)), NoTrim);
      }
    case VerifyMfa(_, _, _, _) =>
    case Signed(_, _, _) =>
    case Manage(_, _, _, _) => e := ManageEffect(env, w, req);
    case Retain(_, _, rows) =>
      assert w.log + [] == w.log;
      if after.outcome.Done? && rows.OldAttempts? {
        DaysAreDays(rows.days);
        e := LogEffect({}, None, RetentionTrim(rows.doomed, at - rows.days * DAY));
      }
  }

  // ---- the sliding window ----

  /** How many requests in [from, until] were failed password checks for this identifier from this address. */
  function FailedChecks(env: Env, w: World, reqs: seq<Request>, identifier: string, ip: Option<string>, from: Time, until: Time): nat
    decreases |reqs|
  {
    if reqs == [] then 0
    else
      var s := Next(env, w, reqs[0]);
      FailedChecks(env, s.world, reqs[1..], identifier, ip, from, until)
      + if && reqs[0].call.Login? && reqs[0].call.identifier == identifier && IpHash(env, reqs[0].ip) == ip
           && from <= reqs[0].at <= until && s.outcome.BadCredentials? then 1 else 0
  }

  /** No request in [from, until] clears the identifier. */
  ghost predicate UnclearedIn(env: Env, w: World, reqs: seq<Request>, identifier: string, from: Time, until: Time)
    decreases |reqs|
  {
    reqs != [] ==>
      && (from <= reqs[0].at <= until ==> LoginKey(env, identifier) !in ClearedKeys(env, w, reqs[0]))
      && UnclearedIn(env, Next(env, w, reqs[0]).world, reqs[1..], identifier, from, until)
  }

  /** The log accounts for every row of the last day that is not cleared. */
  lemma CountAfter(prunes: bool, log: seq<Attempt>, e: LogEffect, at: Time, q: Query)
    requires q.key !in e.cleared && SparesLastDay(e.trim, at) && at - DAY <= q.since
    ensures Count(ApplyLog(prunes, log, e, at), q) == Count(log, q) + if e.row.Some? && Hits(e.row.value, q) then 1 else 0
  {
    var kept := Forget(log, e.cleared);
    CountForget(log, e.cleared, q);
    if e.row.Some? { CountAppend(kept, e.row.value, q); }
    var full := kept + if e.row.Some? then [e.row.value] else [];
    assert e.row.None? ==> full == kept;
    TrimKeepsLastDay(prunes, full, e.trim, at, q.since);
    CountSince(full, q.since, q);
    CountSince(TrimLog(prunes, full, e.trim, at), q.since, q);
  }

  lemma {:induction false} NoLateChecks(env: Env, w: World, reqs: seq<Request>, identifier: string, ip: Option<string>, from: Time, until: Time, now: Time)
    requires Timed(now, reqs) && until < now
    ensures FailedChecks(env, w, reqs, identifier, ip, from, until) == 0
    decreases |reqs|
  {
    hide Next;
    if reqs != [] {
      NoLateChecks(env, Next(env, w, reqs[0]).world, reqs[1..], identifier, ip, from, until, reqs[0].at);
    }
  }

  /** From the start of the span on: failed checks to come in it, plus failures of it already logged, stay within the limit. */
  lemma {:induction false} WindowInvariant(env: Env, w: World, reqs: seq<Request>, identifier: string, ip: Option<string>, from: Time, until: Time, now: Time)
    requires Timed(now, reqs) && from <= now && until <= from + 15 * MINUTE && UnclearedIn(env, w, reqs, identifier, from, until)
    ensures var failed := FailedChecks(env, w, reqs, identifier, ip, from, until);
            failed > 0 ==> failed + Count(w.log, Query(LoginKey(env, identifier), ip, true, true, from)) <= env.maxAttempts
    decreases |reqs|
  {
    hide Next, ClearedKeys, ApplyLog, Count;
    if reqs != [] {
      var req, s, key := reqs[0], Next(env, w, reqs[0]), LoginKey(env, identifier);
      var q := Query(key, ip, true, true, from);
      if until < req.at {
        NoLateChecks(env, s.world, reqs[1..], identifier, ip, from, until, req.at);
      } else {
        var e := NextLog(env, w, req);
        CountAfter(w.prunes, w.log, e, req.at, q);
        WindowInvariant(env, s.world, reqs[1..], identifier, ip, from, until, req.at);
        if req.call.Login? && req.call.identifier == identifier && IpHash(env, req.ip) == ip {
          CountMonotone(w.log, q, FailureQuery(key, ip, req.at - LOGIN_WINDOW));
        }
      }
    }
  }

  /**
    In every run, at most `maxAttempts` failed password checks fit in any fifteen
    minutes that contain no clearing of the identifier, whatever came before or after.
  */
  lemma {:induction false} FailedChecksAreBounded(env: Env, w: World, reqs: seq<Request>, identifier: string, ip: Option<string>, from: Time, until: Time, now: Time)
    requires Configured(env) && Timed(now, reqs) && until <= from + 15 * MINUTE && UnclearedIn(env, w, reqs, identifier, from, until)
    ensures FailedChecks(env, w, reqs, identifier, ip, from, until) <= env.maxAttempts
    decreases |reqs|
  {
    hide Next;
    if reqs != [] {
      if from <= reqs[0].at {
        WindowInvariant(env, w, reqs, identifier, ip, from, until, reqs[0].at);
      } else {
        FailedChecksAreBounded(env, Next(env, w, reqs[0]).world, reqs[1..], identifier, ip, from, until, reqs[0].at);
      }
    }
  }

  /** A throttled login is refused without looking at the password, and changes nothing. */
  lemma ThrottledBeforeVerification(env: Env, w: World, req: Request)
    requires env.localLogin && req.call.Login?
    requires LoginThrottled(env, w.log, req.call.identifier, IpHash(env, req.ip), req.at)
    requires var found := FindAccount(w.core.users, req.call.isEmail, req.call.identifier);
             found.Some? ==> !LockExpired(w.core.users[found.value], req.at)
    ensures Next(env, w, req) == Step(w, Refused(429), NoFactor)
  {
  }

  // ---- registration and management rows ----

  /** The keys of registration and management rows. */
  ghost predicate OtherKey(env: Env, key: string) {
    || (exists email :: key == RegistrationKey(env, email))
    || (exists actor, action :: key == ManagementKey(env, actor, action))
  }

  lemma OtherKeysAreNotLoginKeys(env: Env, key: string, identifier: string)
    requires Injective(env.hash) && OtherKey(env, key)
    ensures key != LoginKey(env, identifier)
  {
    if email :| key == RegistrationKey(env, email) {
      KeysAreDisjoint(env, identifier, email, 0, "");
    } else {
      var actor, action :| key == ManagementKey(env, actor, action);
      KeysAreDisjoint(env, identifier, "", actor, action);
    }
  }

  lemma ClearedKeysAreLoginKeys(env: Env, w: World, req: Request, key: string)
    requires Injective(env.hash) && OtherKey(env, key)
    ensures key !in ClearedKeys(env, w, req)
  {
    hide Next, Authenticate, OtherKey, LoginKey;
    forall identifier ensures key != LoginKey(env, identifier) {
      OtherKeysAreNotLoginKeys(env, key, identifier);
    }
  }

  predicate AllBy(reqs: seq<Request>, t: Time) {
    forall i :: 0 <= i < |reqs| ==> reqs[i].at <= t
  }

  /** Whatever is logged in, cleared or unlocked, a registration or management tally over the last day never falls. */
  lemma {:induction false} OtherRowsSurvive(env: Env, w: World, reqs: seq<Request>, q: Query)
    requires Injective(env.hash) && OtherKey(env, q.key)
    requires AllBy(reqs, q.since + DAY)
    ensures Count(w.log, q) <= Count(Run(env, w, reqs).log, q)
    decreases |reqs|
  {
    hide Next, ClearedKeys, ApplyLog, Count, OtherKey;
    if reqs != [] {
      var e := NextLog(env, w, reqs[0]);
      ClearedKeysAreLoginKeys(env, w, reqs[0], q.key);
      CountAfter(w.prunes, w.log, e, reqs[0].at, q);
      OtherRowsSurvive(env, Next(env, w, reqs[0]).world, reqs[1..], q);
    }
  }

  // ---- pruning by age is invisible ----

  /** The two logs hold the same rows of the last day. */
  predicate AgreeAt(a: seq<Attempt>, b: seq<Attempt>, at: Time) {
    Since(a, at - DAY) == Since(b, at - DAY)
  }

  lemma AgreeLater(a: seq<Attempt>, b: seq<Attempt>, early: Time, late: Time)
    requires early <= late && AgreeAt(a, b, early)
    ensures AgreeAt(a, b, late)
  {
    SinceSince(a, early - DAY, late - DAY);
    SinceSince(b, early - DAY, late - DAY);
  }

  lemma AgreeCount(a: seq<Attempt>, b: seq<Attempt>, at: Time, q: Query)
    requires AgreeAt(a, b, at) && at - DAY <= q.since
    ensures Count(a, q) == Count(b, q)
  {
    CountSince(a, at - DAY, q);
    CountSince(b, at - DAY, q);
  }

  lemma AgreeForget(a: seq<Attempt>, b: seq<Attempt>, at: Time, keys: set<string>)
    requires AgreeAt(a, b, at)
    ensures AgreeAt(Forget(a, keys), Forget(b, keys), at)
  {
    SinceForget(a, at - DAY, keys);
    SinceForget(b, at - DAY, keys);
  }

  lemma AgreeAppend(a: seq<Attempt>, b: seq<Attempt>, at: Time, row: Attempt)
    requires AgreeAt(a, b, at)
    ensures AgreeAt(a + [row], b + [row], at)
  {
    SinceAppend(a, row, at - DAY);
    SinceAppend(b, row, at - DAY);
  }

  /** Recording a login in two agreeing logs, whether or not either is pruned, leaves them agreeing. */
  lemma AgreeRecord(env: Env, a: seq<Attempt>, b: seq<Attempt>, at: Time, identifier: string, ip: Option<string>, success: bool, pa: bool, pb: bool)
    requires AgreeAt(a, b, at)
    ensures AgreeAt(RecordLogin(env, a, identifier, ip, success, at, pa), RecordLogin(env, b, identifier, ip, success, at, pb), at)
  {
    hide Forget, Since;
    var key := LoginKey(env, identifier);
    var row := Attempt(key, ip, success, at);
    var ka, kb := if success then Forget(a, {key}) else a, if success then Forget(b, {key}) else b;
    AgreeForget(a, b, at, {key});
    AgreeAppend(ka, kb, at, row);
    SinceSince(ka + [row], at - RETENTION, at - DAY);
    SinceSince(kb + [row], at - RETENTION, at - DAY);
  }

  ghost predicate SameStep(a: Step, b: Step, at: Time) {
    a.outcome == b.outcome && a.factor == b.factor && a.world.core == b.world.core && AgreeAt(a.world.log, b.world.log, at)
  }

  lemma LiftAgrees(env: Env, a: World, b: World, found: Option<nat>, identifier: string, at: Time)
    requires a.core == b.core && AgreeAt(a.log, b.log, at) && (found.Some? ==> found.value < |a.core.users|)
    ensures var a1, b1 := LiftExpiredLock(env, a, found, identifier, at), LiftExpiredLock(env, b, found, identifier, at);
            a1.core == b1.core && AgreeAt(a1.log, b1.log, at)
  {
    hide Since, Forget, AgreeAt, AccountKeys;
    if found.Some? {
      var keys := AccountKeys(env, a.core.users[found.value]);
      AgreeForget(a.log, b.log, at, keys);
      AgreeForget(Forget(a.log, keys), Forget(b.log, keys), at, {LoginKey(env, identifier)});
    }
  }

  lemma AuthenticateAgrees(env: Env, a: World, b: World, at: Time, ip: Option<string>, isEmail: bool, id: string, password: string)
    requires a.core == b.core && AgreeAt(a.log, b.log, at)
    ensures var ra, rb := Authenticate(env, a, at, ip, isEmail, id, password), Authenticate(env, b, at, ip, isEmail, id, password);
            ra.1 == rb.1 && ra.0.core == rb.0.core && AgreeAt(ra.0.log, rb.0.log, at)
  {
    hide Count, Since, Forget, AgreeAt, RegisterFailure, ClearFailures, RecordLogin, AccountKeys, LiftExpiredLock, FindAccount, Barred, LoginKey;
    var found := FindAccount(a.core.users, isEmail, id);
    LiftAgrees(env, a, b, found, id, at);
    var a1, b1 := LiftExpiredLock(env, a, found, id, at), LiftExpiredLock(env, b, found, id, at);
    AgreeCount(a1.log, b1.log, at, FailureQuery(LoginKey(env, id), ip, at - LOGIN_WINDOW));
    AgreeRecord(env, a1.log, b1.log, at, id, ip, false, a.prunes, b.prunes);
    if found.Some? {
      var keys := AccountKeys(env, a1.core.users[found.value]);
      AgreeForget(a1.log, b1.log, at, keys);
      AgreeRecord(env, Forget(a1.log, keys), Forget(b1.log, keys), at, id, ip, true, a.prunes, b.prunes);
    }
  }

  lemma RegisterAgrees(env: Env, a: World, b: World, req: Request)
    requires req.call.Register? && a.core == b.core && AgreeAt(a.log, b.log, req.at)
    ensures SameStep(Next(env, a, req), Next(env, b, req), req.at)
  {
    hide Count, Since, Forget, AgreeAt, AccountKeys, RolesAssignable, FindAccount;
    var at, ip, email := req.at, IpHash(env, req.ip), req.call.email;
    var key := RegistrationKey(env, email);
    AgreeCount(a.log, b.log, at, FailureQuery(key, ip, at - LOGIN_WINDOW));
    AgreeAppend(a.log, b.log, at, Attempt(key, ip, false, at));
    var after := Next(env, a, req).world.core.users;
    if |after| > |a.core.users| {
      var keys := AccountKeys(env, after[|a.core.users|]);
      AgreeForget(a.log, b.log, at, keys);
      AgreeAppend(Forget(a.log, keys), Forget(b.log, keys), at, Attempt(key, ip, true, at));
    }
  }

  lemma ManageAgrees(env: Env, a: World, b: World, at: Time, ip: Option<string>, actor: nat, u: nat, m: Management)
    requires a.core == b.core && AgreeAt(a.log, b.log, at)
    ensures SameStep(ManageAccount(env, a, at, ip, actor, u, m), ManageAccount(env, b, at, ip, actor, u, m), at)
  {
    hide Count, Since, Forget, AgreeAt, Decide, AccountKeys;
    var key := ManagementKey(env, actor, ManagementName(m));
    AgreeCount(a.log, b.log, at, Query(key, ip, true, false, at - MANAGEMENT_WINDOW));
    AgreeAppend(a.log, b.log, at, Attempt(key, ip, true, at));
    if u < |a.core.users| { AgreeForget(a.log, b.log, at, AccountKeys(env, a.core.users[u])); }
  }

  /** The same request on two worlds that differ only in rows more than a day old has the same result. */
  lemma StepAgrees(env: Env, a: World, b: World, req: Request)
    requires a.core == b.core && AgreeAt(a.log, b.log, req.at)
    ensures SameStep(Next(env, a, req), Next(env, b, req), req.at)
  {
    hide Count, Since, Forget, Purge, Perform, CompleteLogin, Lookup, Authenticate, ManageAccount, EnterAccount;
    var at, ip := req.at, IpHash(env, req.ip);
    match req.call
    case Login(isEmail, id, password, _) => AuthenticateAgrees(env, a, b, at, ip, isEmail, id, password);
    case Register(_, _, _, _) => RegisterAgrees(env, a, b, req);
    case VerifyMfa(_, _, _, _) =>
    case Signed(_, _, _) =>
    case Retain(cookie, _, rows) =>
      if rows.OldAttempts? && rows.days > 0 {
        DaysAreDays(rows.days);
        SincePurge(a.log, rows.doomed, at - rows.days * DAY, at - DAY);
        SincePurge(b.log, rows.doomed, at - rows.days * DAY, at - DAY);
      }
    case Manage(cookie, permitted, target, m) =>
      var (c, current) := Lookup(env, a.core, at, cookie);
      if current.Some? { ManageAgrees(env, a.(core := c), b.(core := c), at, ip, c.sessions[current.value].user, target, m); }
  }

  lemma {:induction false} RunsAgree(env: Env, a: World, b: World, reqs: seq<Request>, now: Time)
    requires a.core == b.core && AgreeAt(a.log, b.log, now) && Timed(now, reqs)
    ensures Outcomes(env, a, reqs) == Outcomes(env, b, reqs) && Run(env, a, reqs).core == Run(env, b, reqs).core
    decreases |reqs|
  {
    hide Next, AgreeAt;
    if reqs != [] {
      AgreeLater(a.log, b.log, now, reqs[0].at);
      StepAgrees(env, a, b, reqs[0]);
      RunsAgree(env, Next(env, a, reqs[0]).world, Next(env, b, reqs[0]).world, reqs[1..], reqs[0].at);
    }
  }

  /** Pruning the log by age changes no answer, and nothing else in the database, in any run. */
  lemma PruningIsInvisible(env: Env, w: World, reqs: seq<Request>, now: Time)
    requires Timed(now, reqs)
    ensures Outcomes(env, w.(prunes := true), reqs) == Outcomes(env, w.(prunes := false), reqs)
    ensures Run(env, w.(prunes := true), reqs).core == Run(env, w.(prunes := false), reqs).core
  {
    RunsAgree(env, w.(prunes := true), w.(prunes := false), reqs, now);
  }
}
