/**
  No run of requests leaves the platform without an administrator.  A lockout
  takes an administrator out of the set the last-administrator check counts,
  so the preserved set also contains locked administrators: a lock always ends.
*/
module AdminSafety {
  import opened Options
  import opened Clock
  import opened AccessTables
  import opened AccessSpec
  import opened AccountEffects

  ghost predicate HasAdmin(users: seq<Account>) {
    exists i :: 0 <= i < |users| && Administers(users[i])
  }

  lemma LawfulEditKeepsAdmin(users: seq<Account>, e: Edit, after: seq<Account>)
    requires HasAdmin(users) && Becomes(users, e, after) && LawfulEdit(users, e)
    ensures HasAdmin(after)
  {
    var i :| 0 <= i < |users| && Administers(users[i]);
    if e.Replaced? && e.u == i && !Administers(e.a) {
      var others := CountedAdmins(users, i);
      assert others != {};
      var j :| j in others;
      assert Administers(after[j]);
    } else {
      assert Administers(after[i]);
    }
  }

  /** Once someone administers the platform, someone does after every run of requests. */
  lemma {:induction false} AdministratorSurvives(env: Env, w: World, reqs: seq<Request>)
    requires HasAdmin(w.core.users)
    ensures HasAdmin(Run(env, w, reqs).core.users)
    decreases |reqs|
  {
    hide Next;
    if reqs != [] {
      var w1 := Next(env, w, reqs[0]).world;
      var e := NextEdit(env, w, reqs[0]);
      LawfulEditKeepsAdmin(w.core.users, e, w1.core.users);
      AdministratorSurvives(env, w1, reqs[1..]);
    }
  }
}
