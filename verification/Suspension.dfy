/** A disabled account, over whole runs: until an order re-enables it, nothing changes it and nobody gets in with it. */
module Suspension {
  import opened Options
  import opened Clock
  import opened AccessTables
  import opened AttemptLog
  import opened AccessSpec
  import opened AccountEffects
  import opened Activation
  import LoginAnswers
  import OrderAnswers

  lemma DisabledStep(env: Env, w: World, req: Request, u: nat)
    requires Configured(env) && u < |w.core.users| && w.core.users[u].status == Disabled && !AimsAt(req, u)
    ensures var users := Next(env, w, req).world.core.users; u < |users| && users[u] == w.core.users[u]
  {
    hide Next, Authenticate, FindAccount, LoginAnswers.Throttles;
    if TriesLogin(env, w, req, u) {
      TriedStep(env, w, req, u);
      LoginAnswers.FoundIsNamed(w.core.users, req.call.isEmail, req.call.identifier, u);
      LoginAnswers.VerdictIsExact(env, w, req);
      NotAdmitted(env, w, req, u);
    } else {
      UntriedStep(env, w, req, u);
    }
  }

  /** Whoever the login admits, it is not the disabled account it names. */
  lemma NotAdmitted(env: Env, w: World, req: Request, u: nat)
    requires req.call.Login? && LoginAnswers.Names(w.core.users, req.call.isEmail, req.call.identifier, u) && w.core.users[u].status == Disabled
    ensures forall v: nat :: !LoginAnswers.Admits(env, w, req, v)
  {
  }

  lemma {:induction false} DisabledStays(env: Env, w: World, reqs: seq<Request>, u: nat)
    requires Configured(env) && u < |w.core.users| && w.core.users[u].status == Disabled && Unordered(reqs, u)
    ensures var users := Run(env, w, reqs).core.users; u < |users| && users[u] == w.core.users[u]
    decreases |reqs|
  {
    hide Next;
    if reqs != [] {
      DisabledStep(env, w, reqs[0], u);
      DisabledStays(env, Next(env, w, reqs[0]).world, reqs[1..], u);
    }
  }

  /** In every run without an order on it, no cookie, no password and no second step lets anybody into a disabled account. */
  lemma DisabledIsShutOut(env: Env, w: World, reqs: seq<Request>, u: nat, req: Request)
    requires Configured(env) && u < |w.core.users| && w.core.users[u].status == Disabled && Unordered(reqs, u)
    ensures var w1 := Run(env, w, reqs);
            && (forall at, cookie, i: nat :: OrderAnswers.Opens(env, w1.core, at, cookie, i) ==> w1.core.sessions[i].user != u)
            && (req.call.Login? && env.localLogin && LoginAnswers.Names(w1.core.users, req.call.isEmail, req.call.identifier, u) ==>
                  Next(env, w1, req).outcome == Refused(429) || Next(env, w1, req).outcome.BadCredentials?)
            && (req.call.VerifyMfa? ==> forall k: nat :: LoginAnswers.Challenges(env, w1.core, req, k) ==> w1.core.challenges[k].user != u)
  {
    hide Run, Next, LoginAnswers.Throttles;
    DisabledStays(env, w, reqs, u);
    var w1 := Run(env, w, reqs);
    if req.call.Login? && env.localLogin && LoginAnswers.Names(w1.core.users, req.call.isEmail, req.call.identifier, u) {
      NotAdmitted(env, w1, req, u);
      LoginAnswers.LoginIsExact(env, w1, req);
    }
  }
}
