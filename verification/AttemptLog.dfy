/**
  The shared login-attempt log (rate_limit_service.py): its keys, its sliding
  window queries, and the rows each operation adds and deletes.
*/
module AttemptLog {
  import opened Options
  import opened Clock
  import opened AccessTables
  import opened Counting

  const USERNAME_PREFIX := "username:"
  const REGISTRATION_PREFIX := "registration:"
  const MANAGEMENT_PREFIX := "registration-management:"

  function LoginKey(env: Env, identifier: string): string {
    env.hash(USERNAME_PREFIX + identifier)
  }

  function RegistrationKey(env: Env, email: string): string {
    env.hash(REGISTRATION_PREFIX + email)
  }

  function ManagementKey(env: Env, actor: nat, action: string): string {
    env.hash(MANAGEMENT_PREFIX + Decimal(actor) + ":" + action)
  }

  function Decimal(n: nat): string {
    if n < 10 then [('0' as int + n) as char] else Decimal(n / 10) + [('0' as int + n % 10) as char]
  }

  /** What one COUNT over the log asks for. */
  datatype Query = Query(key: string, ip: Option<string>, exactIp: bool, failuresOnly: bool, since: Time)

  predicate Hits(a: Attempt, q: Query) {
    && a.key == q.key
    && q.since <= a.at
    && (q.exactIp ==> a.ip == q.ip)
    && (q.failuresOnly ==> !a.success)
  }

  function Count(log: seq<Attempt>, q: Query): nat {
    if log == [] then 0
    else Count(log[..|log| - 1], q) + if Hits(log[|log| - 1], q) then 1 else 0
  }

  /** An unknown client address leaves the address out of the filter. */
  function FailureQuery(key: string, ip: Option<string>, since: Time): Query {
    Query(key, ip, ip.Some?, true, since)
  }

  predicate LoginThrottled(env: Env, log: seq<Attempt>, identifier: string, ip: Option<string>, at: Time) {
    Count(log, FailureQuery(LoginKey(env, identifier), ip, at - LOGIN_WINDOW)) >= env.maxAttempts
  }

  predicate RegistrationThrottled(env: Env, log: seq<Attempt>, email: string, ip: Option<string>, at: Time) {
    Count(log, FailureQuery(RegistrationKey(env, email), ip, at - LOGIN_WINDOW)) >= 5
  }

  predicate ManagementThrottled(env: Env, log: seq<Attempt>, actor: nat, action: string, ip: Option<string>, at: Time) {
    Count(log, Query(ManagementKey(env, actor, action), ip, true, false, at - MANAGEMENT_WINDOW)) >= 20
  }

  /** Deletes the failures recorded under any of `keys`. */
  function Forget(log: seq<Attempt>, keys: set<string>): seq<Attempt> {
    if log == [] then []
    else
      var rest, last := Forget(log[..|log| - 1], keys), log[|log| - 1];
      if last.key in keys && !last.success then rest else rest + [last]
  }

  /** Deletes the rows older than `cutoff`. */
  function Since(log: seq<Attempt>, cutoff: Time): seq<Attempt> {
    if log == [] then []
    else
      var rest, last := Since(log[..|log| - 1], cutoff), log[|log| - 1];
      if last.at < cutoff then rest else rest + [last]
  }

  /** Deletes the rows at the chosen positions that are older than `cutoff`. */
  function Purge(log: seq<Attempt>, doomed: set<nat>, cutoff: Time): seq<Attempt> {
    if log == [] then []
    else
      var rest, n := Purge(log[..|log| - 1], doomed, cutoff), |log| - 1;
      if n in doomed && log[n].at < cutoff then rest else rest + [log[n]]
  }

  function Prune(prunes: bool, log: seq<Attempt>, at: Time): seq<Attempt> {
    if prunes then Since(log, at - RETENTION) else log
  }

  function RecordLogin(env: Env, log: seq<Attempt>, identifier: string, ip: Option<string>, success: bool, at: Time, prunes: bool)
    : seq<Attempt>
  {
    var key := LoginKey(env, identifier);
    var kept := if success then Forget(log, {key}) else log;
    Prune(prunes, kept + [Attempt(key, ip, success, at)], at)
  }

  /** The keys under which an account's failed logins are filed. */
  function AccountKeys(env: Env, a: Account): set<string> {
    {LoginKey(env, a.username)} + if a.email.Some? then {LoginKey(env, a.email.value)} else {}
  }

  // ---- how the operations act on counts ----

  lemma CountAppend(log: seq<Attempt>, a: Attempt, q: Query)
    ensures Count(log + [a], q) == Count(log, q) + if Hits(a, q) then 1 else 0
  {
    assert (log + [a])[..|log|] == log;
  }

  lemma {:induction false} CountSince(log: seq<Attempt>, cutoff: Time, q: Query)
    requires cutoff <= q.since
    ensures Count(Since(log, cutoff), q) == Count(log, q)
  {
    if log != [] {
      var front, last := log[..|log| - 1], log[|log| - 1];
      CountSince(front, cutoff, q);
      CountAppend(Since(front, cutoff), last, q);
    }
  }

  lemma {:induction false} CountForget(log: seq<Attempt>, keys: set<string>, q: Query)
    ensures q.key !in keys ==> Count(Forget(log, keys), q) == Count(log, q)
    ensures q.key in keys && q.failuresOnly ==> Count(Forget(log, keys), q) == 0
  {
    if log != [] {
      var front, last := log[..|log| - 1], log[|log| - 1];
      CountForget(front, keys, q);
      CountAppend(Forget(front, keys), last, q);
    }
  }

  /** A longer window or a wider address filter never counts less. */
  lemma {:induction false} CountMonotone(log: seq<Attempt>, narrow: Query, wide: Query)
    requires narrow.key == wide.key && narrow.failuresOnly == wide.failuresOnly
    requires wide.since <= narrow.since
    requires wide.exactIp ==> narrow.exactIp && narrow.ip == wide.ip
    ensures Count(log, narrow) <= Count(log, wide)
  {
    if log != [] {
      CountMonotone(log[..|log| - 1], narrow, wide);
    }
  }

  lemma SinceAppend(log: seq<Attempt>, a: Attempt, cutoff: Time)
    ensures Since(log + [a], cutoff) == Since(log, cutoff) + if a.at < cutoff then [] else [a]
  {
    assert (log + [a])[..|log|] == log;
  }

  lemma ForgetAppend(log: seq<Attempt>, a: Attempt, keys: set<string>)
    ensures Forget(log + [a], keys) == Forget(log, keys) + if a.key in keys && !a.success then [] else [a]
  {
    assert (log + [a])[..|log|] == log;
  }

  lemma {:induction false} SinceSince(log: seq<Attempt>, early: Time, late: Time)
    requires early <= late
    ensures Since(Since(log, early), late) == Since(log, late)
  {
    if log != [] {
      var front, last := log[..|log| - 1], log[|log| - 1];
      SinceSince(front, early, late);
      SinceAppend(Since(front, early), last, late);
    }
  }

  lemma {:induction false} SincePurge(log: seq<Attempt>, doomed: set<nat>, cutoff: Time, late: Time)
    requires cutoff <= late
    ensures Since(Purge(log, doomed, cutoff), late) == Since(log, late)
  {
    if log != [] {
      var front, last := log[..|log| - 1], log[|log| - 1];
      SincePurge(front, doomed, cutoff, late);
      SinceAppend(Purge(front, doomed, cutoff), last, late);
    }
  }

  lemma {:induction false} SinceForget(log: seq<Attempt>, cutoff: Time, keys: set<string>)
    ensures Since(Forget(log, keys), cutoff) == Forget(Since(log, cutoff), keys)
  {
    if log != [] {
      var front, last := log[..|log| - 1], log[|log| - 1];
      SinceForget(front, cutoff, keys);
      SinceAppend(Forget(front, keys), last, cutoff);
      ForgetAppend(Since(front, cutoff), last, keys);
    }
  }

  // ---- the three kinds of key never coincide ----

  ghost predicate Injective(hash: string -> string) {
    forall a, b :: hash(a) == hash(b) ==> a == b
  }

  lemma KeysAreDisjoint(env: Env, identifier: string, email: string, actor: nat, action: string)
    requires Injective(env.hash)
    ensures LoginKey(env, identifier) != RegistrationKey(env, email)
    ensures LoginKey(env, identifier) != ManagementKey(env, actor, action)
    ensures RegistrationKey(env, email) != ManagementKey(env, actor, action)
  {
    var login, registration := USERNAME_PREFIX + identifier, REGISTRATION_PREFIX + email;
    var management := MANAGEMENT_PREFIX + Decimal(actor) + ":" + action;
    assert login[0] == 'u' && registration[0] == 'r' && management[0] == 'r';
    assert registration[12] == ':' && management[12] == '-';
  }

  lemma {:induction false} DecimalIsDigits(n: nat)
    ensures Decimal(n) != "" && forall i :: 0 <= i < |Decimal(n)| ==> '0' <= Decimal(n)[i] <= '9'
  {
    if n >= 10 { DecimalIsDigits(n / 10); }
  }

  lemma {:induction false} DecimalIsInjective(m: nat, n: nat)
    requires Decimal(m) == Decimal(n)
    ensures m == n
  {
    var d, e := Decimal(m), Decimal(n);
    assert d[|d| - 1] == e[|e| - 1];
    assert m % 10 == n % 10;
    if m >= 10 { DecimalIsDigits(m / 10); }
    if n >= 10 { DecimalIsDigits(n / 10); }
    if m >= 10 && n >= 10 {
      assert Decimal(m / 10) == d[..|d| - 1] && Decimal(n / 10) == e[..|e| - 1];
      DecimalIsInjective(m / 10, n / 10);
    }
  }

  /** One actor's decisions of one kind are counted under a key of their own. */
  lemma ManagementKeysAreSeparate(env: Env, actor: nat, action: string, other: nat, deed: string)
    requires Injective(env.hash) && ManagementKey(env, actor, action) == ManagementKey(env, other, deed)
    ensures actor == other && action == deed
  {
    var a, b := Decimal(actor), Decimal(other);
    var s, t := MANAGEMENT_PREFIX + a + ":" + action, MANAGEMENT_PREFIX + b + ":" + deed;
    var p := |MANAGEMENT_PREFIX|;
    DecimalIsDigits(actor);
    DecimalIsDigits(other);
    assert s == t;
    assert s[p..] == a + ":" + action && t[p..] == b + ":" + deed;
    FirstColon(a, action, b, deed);
    DecimalIsInjective(actor, other);
  }

  lemma FirstColon(a: string, x: string, b: string, y: string)
    requires a + ":" + x == b + ":" + y
    requires (forall i :: 0 <= i < |a| ==> a[i] != ':') && (forall i :: 0 <= i < |b| ==> b[i] != ':')
    ensures a == b && x == y
  {
    var s, t := a + ":" + x, b + ":" + y;
    assert s[|a|] == ':' && t[|b|] == ':';
    assert forall i :: 0 <= i < |a| ==> s[i] == a[i];
    assert forall i :: 0 <= i < |b| ==> t[i] == b[i];
    assert |a| == |b|;
    assert s[..|a|] == a && t[..|b|] == b && s[|a| + 1..] == x && t[|b| + 1..] == y;
  }

  lemma RegistrationKeysAreSeparate(env: Env, email: string, other: string)
    requires Injective(env.hash)
    ensures RegistrationKey(env, email) == RegistrationKey(env, other) ==> email == other
    ensures LoginKey(env, email) == LoginKey(env, other) ==> email == other
  {
    var p, q := |REGISTRATION_PREFIX|, |USERNAME_PREFIX|;
    assert (REGISTRATION_PREFIX + email)[p..] == email && (REGISTRATION_PREFIX + other)[p..] == other;
    assert (USERNAME_PREFIX + email)[q..] == email && (USERNAME_PREFIX + other)[q..] == other;
  }

  // ---- what each operation on the log does, row by row ----

  lemma {:induction false} CountIsNumber(log: seq<Attempt>, q: Query)
    ensures Count(log, q) ==
            Number(log, (a: Attempt) => a.key == q.key && q.since <= a.at && (q.exactIp ==> a.ip == q.ip) && (q.failuresOnly ==> !a.success))
  {
    hide Number;
    NumberUnfolds(log, (a: Attempt) => a.key == q.key && q.since <= a.at && (q.exactIp ==> a.ip == q.ip) && (q.failuresOnly ==> !a.success));
    if log != [] { CountIsNumber(log[..|log| - 1], q); }
  }

  /** Forgetting deletes exactly the failures under the keys. */
  lemma {:induction false} ForgetDeletes(log: seq<Attempt>, keys: set<string>, a: Attempt)
    ensures multiset(Forget(log, keys))[a] == if a.key in keys && !a.success then 0 else multiset(log)[a]
  {
    if log != [] {
      ForgetDeletes(log[..|log| - 1], keys, a);
      assert log == log[..|log| - 1] + [log[|log| - 1]];
    }
  }

  /** Cutting at an age deletes exactly the older rows. */
  lemma {:induction false} SinceDeletes(log: seq<Attempt>, cutoff: Time, a: Attempt)
    ensures multiset(Since(log, cutoff))[a] == if a.at < cutoff then 0 else multiset(log)[a]
  {
    if log != [] {
      SinceDeletes(log[..|log| - 1], cutoff, a);
      assert log == log[..|log| - 1] + [log[|log| - 1]];
    }
  }

  /** The positions of old rows that retention was told to delete. */
  ghost function Doomed(log: seq<Attempt>, doomed: set<nat>, cutoff: Time): set<nat> {
    set i | i in doomed && i < |log| && log[i].at < cutoff
  }

  lemma DoomedGrows(log: seq<Attempt>, doomed: set<nat>, cutoff: Time)
    requires log != []
    ensures var n := |log| - 1;
            |Doomed(log, doomed, cutoff)| == |Doomed(log[..n], doomed, cutoff)| + if n in doomed && log[n].at < cutoff then 1 else 0
  {
    var n := |log| - 1;
    assert Doomed(log, doomed, cutoff) == Doomed(log[..n], doomed, cutoff) + if n in doomed && log[n].at < cutoff then {n} else {};
  }

  /** Retention deletes as many rows as it was told to and may. */
  lemma {:induction false} PurgeDeletes(log: seq<Attempt>, doomed: set<nat>, cutoff: Time)
    ensures |log| == |Purge(log, doomed, cutoff)| + |Doomed(log, doomed, cutoff)|
  {
    if log == [] {
      assert Doomed(log, doomed, cutoff) == {};
    } else {
      hide Doomed;
      PurgeDeletes(log[..|log| - 1], doomed, cutoff);
      DoomedGrows(log, doomed, cutoff);
    }
  }
}
