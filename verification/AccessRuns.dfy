/** The invariants of the separate arguments hold together in every state the platform can reach. */
module AccessRuns {
  import opened Options
  import opened Clock
  import opened AccessTables
  import opened AccessSpec
  import AdminSafety
  import LockoutSafety
  import MfaSafety
  import SessionSafety

  /** A new installation: accounts without locks or second factors, an administrator among them, and nothing else. */
  ghost predicate Installed(w: World) {
    && w.core.sessions == [] && w.core.devices == map[] && w.core.codes == map[] && w.core.challenges == map[] && w.log == []
    && (forall i :: 0 <= i < |w.core.users| ==> w.core.users[i].status != Locked && !w.core.users[i].mfaEnabled)
    && AdminSafety.HasAdmin(w.core.users)
  }

  ghost predicate Sound(env: Env, w: World, now: Time) {
    && AdminSafety.HasAdmin(w.core.users)
    && LockoutSafety.LocksTimed(w.core.users)
    && MfaSafety.MfaOk(w.core)
    && SessionSafety.AllSound(env, w.core.sessions)
    && SessionSafety.SeenBy(w.core.sessions, now)
  }

  lemma InstalledIsSound(env: Env, w: World, now: Time)
    requires Installed(w)
    ensures Sound(env, w, now)
  {
  }

  /** From a sound state, and so from a new installation, every run of requests ends in a sound state. */
  lemma ReachableStatesAreSound(env: Env, w: World, reqs: seq<Request>, now: Time)
    requires (Installed(w) || Sound(env, w, now)) && Timed(now, reqs)
    ensures Sound(env, Run(env, w, reqs), SessionSafety.EndOf(now, reqs))
  {
    hide Run, Timed;
    if Installed(w) { InstalledIsSound(env, w, now); }
    AdminSafety.AdministratorSurvives(env, w, reqs);
    LockoutSafety.LockedAccountsHaveAnEnd(env, w, reqs);
    MfaSafety.MfaStaysConsistent(env, w, reqs);
    SessionSafety.SessionsStaySound(env, w, reqs);
    SessionSafety.SessionsSeenInThePast(env, w, reqs, now);
  }
}
