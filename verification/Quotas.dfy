/**
  How many failed registrations and how many decisions fit in a span of time, in
  any run: their rows are never cleared, and no trimming reaches the last day.
*/
module Quotas {
  import opened Options
  import opened Clock
  import opened AccessTables
  import opened AttemptLog
  import opened AccessSpec
  import opened Throttling
  import opened LoginAnswers
  import opened DecisionAnswers
  import AccountEffects

  /** What is limited: decisions of one kind by one actor from one address, or failed registrations of one email from one address. */
  datatype Quota =
    | DecisionQuota(actor: nat, kind: Management, ip: Option<string>)
    | RegistrationQuota(email: string, ip: Option<string>)

  function LimitOf(quota: Quota): nat {
    if quota.DecisionQuota? then 20 else 5
  }

  function SpanOf(quota: Quota): Time {
    if quota.DecisionQuota? then 5 * MINUTE else 15 * MINUTE
  }

  function QueryOf(env: Env, quota: Quota, since: Time): Query {
    match quota
    case DecisionQuota(actor, kind, ip) => Query(ManagementKey(env, actor, ManagementName(kind)), ip, true, false, since)
    case RegistrationQuota(email, ip) => Query(RegistrationKey(env, email), ip, true, true, since)
  }

  /** The request was examined, not turned away by the limit, and counts against the quota. */
  ghost predicate Spends(env: Env, w: World, req: Request, quota: Quota) {
    ClientOf(env, req) == quota.ip &&
    match quota
    case DecisionQuota(actor, kind, _) =>
      && req.call.Manage? && req.call.permitted && !kind.Unlock? && NameOf(req.call.managed) == NameOf(kind) && req.call.target < |w.core.users|
      && var (c, current) := Lookup(env, w.core, req.at, req.call.cookie);
         current.Some? && c.sessions[current.value].user == actor && Next(env, w, req).outcome != Refused(429)
    case RegistrationQuota(email, _) => req.call.Register? && req.call.email == email && Next(env, w, req).outcome == Refused(422)
  }

  ghost function Spent(env: Env, w: World, reqs: seq<Request>, quota: Quota, from: Time, until: Time): nat
    decreases |reqs|
  {
    if reqs == [] then 0
    else
      Spent(env, Next(env, w, reqs[0]).world, reqs[1..], quota, from, until)
      + if from <= reqs[0].at <= until && Spends(env, w, reqs[0], quota) then 1 else 0
  }

  lemma DecisionIsLogged(env: Env, w: World, req: Request, quota: Quota)
    requires quota.DecisionQuota? && Spends(env, w, req, quota)
    ensures Count(w.log, QueryOf(env, quota, req.at - SpanOf(quota))) < LimitOf(quota)
    ensures Next(env, w, req).world.log == w.log + [Attempt(QueryOf(env, quota, 0).key, quota.ip, true, req.at)]
  {
    hide Lookup, Decide, Count, Decimal;
    AccountEffects.LookupKeepsUsers(env, w.core, req.at, req.call.cookie);
  }

  lemma RegistrationIsLogged(env: Env, w: World, req: Request, quota: Quota)
    requires quota.RegistrationQuota? && Spends(env, w, req, quota)
    ensures Count(w.log, QueryOf(env, quota, req.at - SpanOf(quota))) < LimitOf(quota)
    ensures Next(env, w, req).world.log == w.log + [Attempt(QueryOf(env, quota, 0).key, quota.ip, false, req.at)]
  {
    hide Count, Forget, FindAccount, AccountKeys, RolesAssignable;
    CountMonotone(w.log, QueryOf(env, quota, req.at - SpanOf(quota)), FailureQuery(RegistrationKey(env, quota.email), IpHash(env, req.ip), req.at - LOGIN_WINDOW));
  }

  lemma SpendIsLogged(env: Env, w: World, req: Request, quota: Quota, since: Time)
    requires Spends(env, w, req, quota) && since <= req.at
    ensures Count(w.log, QueryOf(env, quota, req.at - SpanOf(quota))) < LimitOf(quota)
    ensures Count(Next(env, w, req).world.log, QueryOf(env, quota, since)) == Count(w.log, QueryOf(env, quota, since)) + 1
  {
    hide Next, Count, Spends;
    if quota.DecisionQuota? { DecisionIsLogged(env, w, req, quota); } else { RegistrationIsLogged(env, w, req, quota); }
    CountAppend(w.log, Attempt(QueryOf(env, quota, 0).key, quota.ip, quota.DecisionQuota?, req.at), QueryOf(env, quota, since));
  }

  lemma TallyNeverFalls(env: Env, w: World, req: Request, quota: Quota, since: Time)
    requires Injective(env.hash) && req.at - DAY <= since
    ensures Count(w.log, QueryOf(env, quota, since)) <= Count(Next(env, w, req).world.log, QueryOf(env, quota, since))
  {
    hide Next, Count, ClearedKeys, ApplyLog, OtherKey;
    var q := QueryOf(env, quota, since);
    assert OtherKey(env, q.key) by { QuotaKeysAreOther(env, quota, since); }
    var e := NextLog(env, w, req);
    ClearedKeysAreLoginKeys(env, w, req, q.key);
    CountAfter(w.prunes, w.log, e, req.at, q);
  }

  lemma QuotaKeysAreOther(env: Env, quota: Quota, since: Time)
    ensures OtherKey(env, QueryOf(env, quota, since).key)
  {
  }

  lemma {:induction false} NothingSpentLate(env: Env, w: World, reqs: seq<Request>, quota: Quota, from: Time, until: Time, now: Time)
    requires Timed(now, reqs) && until < now
    ensures Spent(env, w, reqs, quota, from, until) == 0
    decreases |reqs|
  {
    hide Next, Spends;
    if reqs != [] { NothingSpentLate(env, Next(env, w, reqs[0]).world, reqs[1..], quota, from, until, reqs[0].at); }
  }

  lemma {:induction false} QuotaInvariant(env: Env, w: World, reqs: seq<Request>, quota: Quota, from: Time, until: Time, now: Time)
    requires Injective(env.hash) && Timed(now, reqs) && from <= now && until <= from + SpanOf(quota)
    ensures var spent := Spent(env, w, reqs, quota, from, until);
            spent > 0 ==> spent + Count(w.log, QueryOf(env, quota, from)) <= LimitOf(quota)
    decreases |reqs|
  {
    hide Next, Spends, Count;
    if reqs != [] {
      var req, w1 := reqs[0], Next(env, w, reqs[0]).world;
      if until < req.at {
        NothingSpentLate(env, w1, reqs[1..], quota, from, until, req.at);
      } else {
        QuotaInvariant(env, w1, reqs[1..], quota, from, until, req.at);
        TallyNeverFalls(env, w, req, quota, from);
        if Spends(env, w, req, quota) {
          SpendIsLogged(env, w, req, quota, from);
          CountMonotone(w.log, QueryOf(env, quota, from), QueryOf(env, quota, req.at - SpanOf(quota)));
        }
      }
    }
  }

  /**
    In every run, any five minutes hold at most twenty decisions of one kind by one
    actor from one address, and any fifteen minutes at most five failed
    registrations of one email from one address.
  */
  lemma {:induction false} QuotasHold(env: Env, w: World, reqs: seq<Request>, quota: Quota, from: Time, until: Time, now: Time)
    requires Injective(env.hash) && Timed(now, reqs) && until <= from + SpanOf(quota)
    ensures Spent(env, w, reqs, quota, from, until) <= LimitOf(quota)
    decreases |reqs|
  {
    hide Next, Spends;
    if reqs != [] {
      if from <= reqs[0].at {
        QuotaInvariant(env, w, reqs, quota, from, until, reqs[0].at);
      } else {
        QuotasHold(env, Next(env, w, reqs[0]).world, reqs[1..], quota, from, until, reqs[0].at);
      }
    }
  }
}
