/**
  The rows of the access-control database and the parts of the deployment the
  model does not look inside (hashing, password verification, one-time codes).

  Accounts are never deleted over HTTP, so they are a sequence and an account's
  id is its index.  Sessions are a sequence too: retention may delete a revoked
  row, which then keeps its place and is marked `purged`.  Devices, recovery
  codes and login challenges are maps from ids, and `nextId` hands out ids that
  are never reused.  The login-attempt log is kept apart from everything else
  in `World`, because most requests cannot touch it.
*/
module AccessTables {
  import opened Options
  import opened Clock

  const LOGIN_WINDOW: Time := 900_000_000
  const MANAGEMENT_WINDOW: Time := 300_000_000
  const RETENTION: Time := 2_592_000_000_000
  const TOTP_PERIOD: Time := 30_000_000

  datatype Status = Active | PendingPasswordChange | PendingApproval | Rejected | Disabled | Locked

  datatype Account = Account(
    username: string,
    email: Option<string>,
    passwordHash: string,
    status: Status,
    isAdmin: bool,
    failedLogins: nat,
    lockedUntil: Option<Time>,
    mustChange: bool,
    mfaEnabled: bool,
    roles: set<string>)

  datatype Revocation = Revocation(at: Time, reason: string)

  /** A purged session is a row that was deleted: no query finds it any more. */
  datatype Session = Session(
    user: nat,
    tokenHash: string,
    createdAt: Time,
    lastSeen: Time,
    expires: Time,
    idleExpires: Time,
    revoked: Option<Revocation>,
    mfaVerified: bool,
    purged: bool)

  datatype Device = Device(
    user: nat,
    secret: string,
    enabled: bool,
    lastCounter: Option<int>,
    enrollmentExpires: Option<Time>,
    failedAttempts: nat)

  datatype RecoveryCode = RecoveryCode(user: nat, hash: string, usedAt: Option<Time>)

  datatype Challenge = Challenge(user: nat, tokenHash: string, expires: Time, usedAt: Option<Time>, failedAttempts: nat)

  datatype Attempt = Attempt(key: string, ip: Option<string>, success: bool, at: Time)

  datatype Role = Role(enabled: bool, system: bool)

  datatype Core = Core(
    users: seq<Account>,
    roles: map<string, Role>,
    sessions: seq<Session>,
    devices: map<nat, Device>,
    codes: map<nat, RecoveryCode>,
    challenges: map<nat, Challenge>,
    nextId: nat)

  /** `prunes` is true in the source; it is a parameter so that a log that is never pruned can be compared with the real one. */
  datatype World = World(core: Core, log: seq<Attempt>, prunes: bool)

  datatype RegistrationMode = RegistrationDisabled | ApprovalRequired | AutoActivate

  /** Foreign code as arbitrary functions, and the configuration. */
  datatype Env = Env(
    hash: string -> string,
    verifyPassword: (string, string) -> bool,
    otp: (string, int) -> string,
    maxAttempts: int,
    lockout: Time,
    idle: Time,
    lifetime: Time,
    localLogin: bool,
    registration: RegistrationMode)

  /** The bounds the configuration loader clamps every setting to. */
  predicate Configured(env: Env) {
    && 2 <= env.maxAttempts <= 20
    && MINUTE <= env.lockout <= 1440 * MINUTE
    && 5 * MINUTE <= env.idle <= 1440 * MINUTE
    && 60 * MINUTE <= env.lifetime <= 168 * 60 * MINUTE
  }

  predicate IsFirst(m: nat, s: set<nat>) {
    m in s && forall x :: x in s ==> m <= x
  }

  predicate IsNewest(m: nat, s: set<nat>) {
    m in s && forall x :: x in s ==> x <= m
  }

  lemma {:induction false} ExtremesExist(s: set<nat>) returns (least: nat, greatest: nat)
    requires s != {}
    ensures IsFirst(least, s) && IsNewest(greatest, s)
    decreases s
  {
    var a :| a in s;
    var rest := s - {a};
    least, greatest := a, a;
    if rest != {} {
      var lo, hi := ExtremesExist(rest);
      least, greatest := if a <= lo then a else lo, if hi <= a then a else hi;
    }
    forall x | x in s ensures least <= x <= greatest {
      assert x == a || x in rest;
    }
  }

  lemma ExtremesAvailable(s: set<nat>)
    requires s != {}
    ensures exists m :: IsFirst(m, s)
    ensures exists m :: IsNewest(m, s)
  {
    var least, greatest := ExtremesExist(s);
  }

  /** The row a `.first()` query returns: the one with the least id. */
  function First(s: set<nat>): (m: nat)
    requires s != {}
    ensures IsFirst(m, s)
  {
    ExtremesAvailable(s);
    var m :| m in s && IsFirst(m, s);
    m
  }

  /** The row a newest-first query returns: the one with the greatest id. */
  function Newest(s: set<nat>): (m: nat)
    requires s != {}
    ensures IsNewest(m, s)
  {
    ExtremesAvailable(s);
    var m :| m in s && IsNewest(m, s);
    m
  }
}
