/**
  What each request that touches the access-control tables does, as a function
  from one database state to the next: the handlers of access_control/router.py
  and the services below them, the identity steps of SOAR playbooks
  (soar/service.py) and retention (platform_operations/retention_service.py).
  One request is one atomic step at one instant.
*/
module AccessSpec {
  import opened Options
  import opened Clock
  import opened AccessTables
  import opened AttemptLog

  // ---- accounts ----

  predicate Barred(a: Account) {
    a.status == Disabled || a.status == Locked
  }

  predicate Named(a: Account, isEmail: bool, identifier: string) {
    if isEmail then a.email == Some(identifier) else a.username == identifier
  }

  function FindAccount(users: seq<Account>, isEmail: bool, identifier: string): (r: Option<nat>)
    ensures r.Some? ==> r.value < |users| && Named(users[r.value], isEmail, identifier)
    ensures r.Some? ==> forall i :: 0 <= i < r.value ==> !Named(users[i], isEmail, identifier)
    ensures r.None? ==> forall i :: 0 <= i < |users| ==> !Named(users[i], isEmail, identifier)
  {
    if users == [] then None
    else
      var n := |users| - 1;
      var earlier := FindAccount(users[..n], isEmail, identifier);
      assert forall i :: 0 <= i < n ==> users[..n][i] == users[i];
      if earlier.Some? then earlier
      else if Named(users[n], isEmail, identifier) then Some(n)
      else None
  }

  predicate EmailTaken(users: seq<Account>, email: Option<string>, except: Option<nat>) {
    email.Some? && exists i :: 0 <= i < |users| && Some(i) != except && users[i].email == email
  }

  function RegisterFailure(env: Env, a: Account, at: Time): Account {
    var counted := a.(failedLogins := a.failedLogins + 1);
    if counted.failedLogins >= env.maxAttempts
    then counted.(status := Locked, lockedUntil := Some(at + env.lockout))
    else counted
  }

  function ClearFailures(a: Account): Account {
    a.(failedLogins := 0, lockedUntil := None, status := if a.status == Locked then Active else a.status)
  }

  predicate LockExpired(a: Account, at: Time) {
    a.status == Locked && a.lockedUntil.Some? && a.lockedUntil.value <= at
  }

  /** The administrators the last-administrator check counts, leaving `except` out. */
  function CountedAdmins(users: seq<Account>, except: nat): set<nat> {
    set i | 0 <= i < |users| && i != except && users[i].isAdmin
            && (users[i].status == Active || users[i].status == PendingPasswordChange)
  }

  predicate IsLastAdmin(users: seq<Account>, u: nat)
    requires u < |users|
  {
    users[u].isAdmin && |CountedAdmins(users, u)| == 0
  }

  /** The administrators the guard of a SOAR playbook counts: active ones, the target included. */
  function ActiveAdmins(users: seq<Account>): set<nat> {
    set i | 0 <= i < |users| && users[i].isAdmin && users[i].status == Active
  }

  predicate RolesAssignable(roles: map<string, Role>, keys: set<string>) {
    forall k :: k in keys ==> k in roles && roles[k].enabled
  }

  function NewPassword(a: Account, passwordHash: string, mustChange: bool): Account {
    var preserved := a.status == Disabled || a.status == PendingApproval || a.status == Rejected;
    a.(passwordHash := passwordHash, mustChange := mustChange,
       status := if preserved then a.status else if mustChange then PendingPasswordChange else Active)
  }

  // ---- sessions ----

  const PLAYBOOK_REASON := "soar_sensitive_action"

  predicate Bears(s: Session, tokenHash: string) {
    !s.purged && s.tokenHash == tokenHash
  }

  function FindSession(sessions: seq<Session>, tokenHash: string): (r: Option<nat>)
    ensures r.Some? ==> r.value < |sessions| && Bears(sessions[r.value], tokenHash)
    ensures r.Some? ==> forall i :: 0 <= i < r.value ==> !Bears(sessions[i], tokenHash)
    ensures r.None? ==> forall i :: 0 <= i < |sessions| ==> !Bears(sessions[i], tokenHash)
  {
    if sessions == [] then None
    else
      var n := |sessions| - 1;
      var earlier := FindSession(sessions[..n], tokenHash);
      assert forall i :: 0 <= i < n ==> sessions[..n][i] == sessions[i];
      if earlier.Some? then earlier
      else if Bears(sessions[n], tokenHash) then Some(n)
      else None
  }

  function NewSession(env: Env, user: nat, token: string, at: Time, mfaVerified: bool): Session {
    Session(user, env.hash(token), at, at, at + env.lifetime, at + env.idle, None, mfaVerified, false)
  }

  function Revoke(s: Session, at: Time, reason: string): Session {
    if s.revoked.Some? then s else s.(revoked := Some(Revocation(at, reason)))
  }

  function RevokeAll(sessions: seq<Session>, user: nat, at: Time, reason: string, spare: Option<nat>): (r: seq<Session>)
    ensures |r| == |sessions|
  {
    seq(|sessions|, i requires 0 <= i < |sessions| =>
      if sessions[i].user == user && spare != Some(i) then Revoke(sessions[i], at, reason) else sessions[i])
  }

  /** Revokes the sessions of every user who holds the role. */
  function RevokeHolders(sessions: seq<Session>, users: seq<Account>, key: string, at: Time, reason: string): (r: seq<Session>)
    ensures |r| == |sessions|
  {
    seq(|sessions|, i requires 0 <= i < |sessions| =>
      if sessions[i].user < |users| && key in users[sessions[i].user].roles then Revoke(sessions[i], at, reason) else sessions[i])
  }

  /** A playbook keeps the time of an earlier revocation and overwrites its reason. */
  function Overwrite(s: Session, at: Time): Session {
    s.(revoked := Some(Revocation(if s.revoked.Some? then s.revoked.value.at else at, PLAYBOOK_REASON)))
  }

  /** Deletes the chosen sessions that are revoked and past their lifetime. */
  function PurgeSessions(sessions: seq<Session>, doomed: set<nat>, at: Time): (r: seq<Session>)
    ensures |r| == |sessions|
  {
    seq(|sessions|, i requires 0 <= i < |sessions| =>
      if i in doomed && sessions[i].revoked.Some? && sessions[i].expires < at then sessions[i].(purged := true) else sessions[i])
  }

  function Touch(env: Env, s: Session, at: Time): Session {
    if at - s.lastSeen >= MINUTE
    then s.(lastSeen := at, idleExpires := if s.expires <= at + env.idle then s.expires else at + env.idle)
    else s
  }

  /** The state after a cookie is looked up, and the session it opens, if any. */
  function Lookup(env: Env, c: Core, at: Time, cookie: string): (r: (Core, Option<nat>))
    ensures r.1.Some? ==> r.1.value < |r.0.sessions| && r.0.sessions[r.1.value].user < |r.0.users|
  {
    var found := if cookie == "" then None else FindSession(c.sessions, env.hash(cookie));
    if found.None? || c.sessions[found.value].revoked.Some? then (c, None)
    else
      var i := found.value;
      var s := c.sessions[i];
      if s.expires <= at || s.idleExpires <= at then
        (c.(sessions := c.sessions[i := Revoke(s, at, "expired")]), None)
      else if s.user >= |c.users| || Barred(c.users[s.user]) then (c, None)
      else (c.(sessions := c.sessions[i := Touch(env, s, at)]), Some(i))
  }

  // ---- multi-factor authentication ----

  datatype Factor = NoFactor | Totp(device: nat, counter: int) | Recovery(code: nat)

  function Counter(at: Time): int {
    at / TOTP_PERIOD
  }

  predicate SixDigits(code: string) {
    |code| == 6 && forall i :: 0 <= i < 6 ==> '0' <= code[i] <= '9'
  }

  /** The earliest counter of the three around `current` whose code is `code`. */
  function MatchingCounter(env: Env, secret: string, code: string, current: int): Option<int> {
    if env.otp(secret, current - 1) == code then Some(current - 1)
    else if env.otp(secret, current) == code then Some(current)
    else if env.otp(secret, current + 1) == code then Some(current + 1)
    else None
  }

  function AcceptedCounter(env: Env, d: Device, at: Time, code: string): Option<int> {
    var m := if SixDigits(code) then MatchingCounter(env, d.secret, code, Counter(at)) else None;
    if m.Some? && d.lastCounter.Some? && m.value <= d.lastCounter.value then None else m
  }

  function RecoveryHash(env: Env, code: string): string {
    env.hash("recovery:" + code)
  }

  function PendingDevices(devices: map<nat, Device>, user: nat): set<nat> {
    set d | d in devices && devices[d].user == user && !devices[d].enabled
  }

  /** The pending devices a confirmation may mean: all of them, or the one it names. */
  function NamedPending(devices: map<nat, Device>, user: nat, device: Option<nat>): set<nat> {
    set d | d in PendingDevices(devices, user) && (device.Some? ==> d == device.value)
  }

  function EnabledDevices(devices: map<nat, Device>, user: nat): set<nat> {
    set d | d in devices && devices[d].user == user && devices[d].enabled
  }

  function UnusedCodes(codes: map<nat, RecoveryCode>, user: nat, hash: string): set<nat> {
    set k | k in codes && codes[k].user == user && codes[k].hash == hash && codes[k].usedAt.None?
  }

  /** Checks a one-time or recovery code, and marks what it consumed. */
  function VerifyFactor(env: Env, c: Core, user: nat, at: Time, value: string, recovery: bool): (r: (Core, Factor))
    ensures r.0.users == c.users && r.0.sessions == c.sessions && r.0.challenges == c.challenges
  {
    if recovery then
      var usable := UnusedCodes(c.codes, user, RecoveryHash(env, value));
      if usable == {} then (c, NoFactor)
      else
        var k := First(usable);
        (c.(codes := c.codes[k := c.codes[k].(usedAt := Some(at))]), Recovery(k))
    else
      var enabled := EnabledDevices(c.devices, user);
      if enabled == {} then (c, NoFactor)
      else
        var d := First(enabled);
        var accepted := AcceptedCounter(env, c.devices[d], at, value);
        if accepted.None? then (c, NoFactor)
        else (c.(devices := c.devices[d := c.devices[d].(lastCounter := accepted)]), Totp(d, accepted.value))
  }

  function DropCodes(codes: map<nat, RecoveryCode>, user: nat): map<nat, RecoveryCode> {
    map k | k in codes && codes[k].user != user :: codes[k]
  }

  function CodeHashes(env: Env, texts: seq<string>): seq<string> {
    seq(|texts|, i requires 0 <= i < |texts| => RecoveryHash(env, texts[i]))
  }

  /** The unique constraint on stored code hashes. */
  predicate CodesInsertable(kept: map<nat, RecoveryCode>, hashes: seq<string>) {
    && (forall i, j :: 0 <= i < j < |hashes| ==> hashes[i] != hashes[j])
    && (forall k, i :: k in kept && 0 <= i < |hashes| ==> kept[k].hash != hashes[i])
  }

  function FreshCodes(first: nat, user: nat, hashes: seq<string>): map<nat, RecoveryCode> {
    map k: nat | k in Ids(first, |hashes|) :: RecoveryCode(user, hashes[k - first], None)
  }

  function Ids(first: nat, count: nat): (ids: set<nat>)
    ensures forall k: nat :: k in ids <==> first <= k < first + count
  {
    if count == 0 then {} else Ids(first, count - 1) + {first + count - 1}
  }

  /** Replaces a user's recovery codes; `None` when the insert violates uniqueness. */
  function ReplaceCodes(env: Env, c: Core, user: nat, texts: seq<string>): Option<Core> {
    var kept, hashes := DropCodes(c.codes, user), CodeHashes(env, texts);
    if CodesInsertable(kept, hashes) then
      Some(c.(codes := kept + FreshCodes(c.nextId, user, hashes), nextId := c.nextId + |hashes|))
    else None
  }

  function DropPending(devices: map<nat, Device>, user: nat): map<nat, Device> {
    map d | d in devices && (devices[d].user != user || devices[d].enabled) :: devices[d]
  }

  function SwitchOffDevices(devices: map<nat, Device>, user: nat): map<nat, Device> {
    map d | d in devices :: if devices[d].user == user then devices[d].(enabled := false) else devices[d]
  }

  function DropOpenChallenges(challenges: map<nat, Challenge>, user: nat): map<nat, Challenge> {
    map k | k in challenges && !(challenges[k].user == user && challenges[k].usedAt.None?) :: challenges[k]
  }

  function ChallengesFor(challenges: map<nat, Challenge>, tokenHash: string): set<nat> {
    set k | k in challenges && challenges[k].tokenHash == tokenHash
  }

  predicate ChallengeOpen(ch: Challenge, at: Time) {
    ch.usedAt.None? && at < ch.expires && ch.failedAttempts < 5
  }

  predicate MfaEligible(a: Account, at: Time) {
    && a.status == Active && !a.mustChange
    && (a.lockedUntil.Some? ==> a.lockedUntil.value <= at)
  }

  predicate EnrollmentLapsed(d: Device, at: Time) {
    d.enrollmentExpires.None? || d.enrollmentExpires.value <= at
  }

  // ---- requests ----

  /** What the client saw.  `Refused` carries the HTTP status; `StepFailed` is a playbook that failed without an HTTP error. */
  datatype Outcome =
    | Refused(status: nat)
    | BadCredentials
    | NotActivated
    | ChallengeIssued(challenge: nat)
    | GuessRefused(challenge: nat)
    | SessionOpened(session: nat, via: Option<nat>)
    | StepFailed
    | Done

  /** What a signed-in user does with their own sessions and password. */
  datatype OwnAction =
    | Browse
    | Logout
    | LogoutAll(preserveCurrent: bool)
    | ChangePassword(current: string, newHash: string, policyOk: bool)
    | DeleteSession(session: nat)

  /** What a signed-in user does with their own second factor. */
  datatype MfaAction =
    | EnrollMfa(password: string, restart: bool, secret: string)
    | MfaStatus
    | ConfirmMfa(code: string, device: Option<nat>, newCodes: seq<string>)
    | CancelMfa
    | DisableMfa(confirm: bool, password: string, code: string, recovery: bool)
    | RegenerateCodes(asRecovery: bool, password: string, code: string, newCodes: seq<string>)

  /** What an administrator does to an existing account. */
  datatype AdminAction =
    | UpdateUser(newEmail: Option<Option<string>>, mustChange: Option<bool>)
    | DisableUser
    | EnableUser
    | ResetPassword(newHash: string, policyOk: bool)
    | ResetMfa
    | RevokeSessions
    | SetRoles(keys: set<string>)

  /** The identity steps of an approved SOAR playbook. */
  datatype PlaybookStep =
    | RevokeSelected(session: nat)
    | RevokeOthers(user: nat)
    | SuspendUser(user: nat)
    | ReinstateUser(user: nat)

  datatype RoleOrder =
    | CreateRole(newEnabled: bool, permissionsOk: bool)
    | UpdateRole(renames: bool, enabled: Option<bool>)
    | DeleteRole
    | SetPermissions(valid: bool)

  /** Requests that leave the attempt log alone. */
  datatype Action =
    | Own(own: OwnAction)
    | Mfa(mfa: MfaAction)
    | Admin(target: nat, order: AdminAction)
    | Playbook(step: PlaybookStep, reasoned: bool)
    | ManageRole(key: string, change: RoleOrder)
    | RevokeSession(owner: nat, session: nat)
    | CreateUser(username: string, email: Option<string>, keys: set<string>, admin: bool, passwordHash: string, wellFormed: bool)

  /** Requests that read or change the attempt log. */
  datatype Management =
    | Approve(keys: set<string>, confirmAdmin: bool)
    | Reject(reasonOk: bool)
    | Reopen
    | Unlock

  /** Applying a retention preview: which rows it listed, by position or id. */
  datatype Retention =
    | OldAttempts(days: nat, doomed: set<nat>)
    | OldSessions(doomed: set<nat>)
    | OldChallenges(days: nat, doomed: set<nat>)

  datatype Call =
    | Login(isEmail: bool, identifier: string, password: string, token: string)
    | Register(email: string, username: string, passwordHash: string, wellFormed: bool)
    | VerifyMfa(challengeToken: string, code: string, recovery: bool, token: string)
    | Signed(cookie: string, permitted: bool, action: Action)
    | Manage(cookie: string, permitted: bool, target: nat, managed: Management)
    | Retain(cookie: string, permitted: bool, rows: Retention)

  datatype Request = Request(at: Time, ip: Option<string>, call: Call)

  datatype CoreStep = CoreStep(core: Core, outcome: Outcome, factor: Factor)
  datatype Step = Step(world: World, outcome: Outcome, factor: Factor)

  function OpenSession(env: Env, c: Core, user: nat, token: string, at: Time, via: Option<nat>): (Core, Outcome) {
    var s := NewSession(env, user, token, at, via.Some?);
    if FindSession(c.sessions, s.tokenHash).Some? then (c, Refused(500))
    else (c.(sessions := c.sessions + [s]), SessionOpened(|c.sessions|, via))
  }

  // ---- handlers for the signed-in user ----

  function Enroll(env: Env, c: Core, me: nat, at: Time, password: string, restart: bool, secret: string): (Core, Outcome)
    requires me < |c.users|
  {
    if !MfaEligible(c.users[me], at) then (c, Refused(403))
    else if !env.verifyPassword(c.users[me].passwordHash, password) then (c, Refused(400))
    else if c.users[me].mfaEnabled then (c, Refused(409))
    else
      var pending := PendingDevices(c.devices, me);
      if pending != {} && !EnrollmentLapsed(c.devices[Newest(pending)], at) && !restart then (c, Done)
      else
        var device := Device(me, secret, false, None, Some(at + 10 * MINUTE), 0);
        (c.(devices := DropPending(c.devices, me)[c.nextId := device], nextId := c.nextId + 1), Done)
  }

  /** Tries a code on one pending device. */
  function ConfirmDevice(env: Env, c: Core, me: nat, d: nat, at: Time, code: string, newCodes: seq<string>): CoreStep
    requires me < |c.users| && d in c.devices
  {
    var row := c.devices[d];
    var accepted := AcceptedCounter(env, row, at, code);
    if EnrollmentLapsed(row, at) then CoreStep(c.(devices := c.devices - {d}), Refused(409), NoFactor)
    else if row.failedAttempts >= 5 then CoreStep(c, Refused(429), NoFactor)
    else if accepted.None? then
      var failed := row.(failedAttempts := row.failedAttempts + 1);
      CoreStep(c.(devices := c.devices[d := failed]), Refused(if failed.failedAttempts >= 5 then 429 else 422), NoFactor)
    else
      var enabled := row.(enabled := true, lastCounter := accepted, enrollmentExpires := None, failedAttempts := 0);
      var confirmed := ReplaceCodes(env, c.(devices := c.devices[d := enabled],
                                            users := c.users[me := c.users[me].(mfaEnabled := true)]), me, newCodes);
      if confirmed.None? then CoreStep(c, Refused(500), NoFactor)
      else CoreStep(confirmed.value, Done, Totp(d, accepted.value))
  }

  function Confirm(env: Env, c: Core, me: nat, at: Time, code: string, device: Option<nat>, newCodes: seq<string>): CoreStep
    requires me < |c.users|
  {
    if !MfaEligible(c.users[me], at) then CoreStep(c, Refused(403), NoFactor)
    else if c.users[me].mfaEnabled then CoreStep(c, Refused(409), NoFactor)
    else
      var pending := NamedPending(c.devices, me, device);
      if pending == {} then CoreStep(c, Refused(409), NoFactor)
      else ConfirmDevice(env, c, me, Newest(pending), at, code, newCodes)
  }

  function TurnOffMfa(env: Env, c: Core, me: nat, current: nat, at: Time, confirm: bool, password: string, code: string, recovery: bool): CoreStep
    requires me < |c.users|
  {
    if !confirm then CoreStep(c, Refused(422), NoFactor)
    else if !c.users[me].mfaEnabled then CoreStep(c, Refused(409), NoFactor)
    else if !env.verifyPassword(c.users[me].passwordHash, password) then CoreStep(c, Refused(400), NoFactor)
    else
      var (c1, factor) := VerifyFactor(env, c, me, at, code, recovery);
      if factor.NoFactor? then CoreStep(c1, Refused(400), NoFactor)
      else
        CoreStep(c1.(devices := SwitchOffDevices(c1.devices, me),
                     codes := DropCodes(c1.codes, me),
                     challenges := DropOpenChallenges(c1.challenges, me),
                     users := c1.users[me := c1.users[me].(mfaEnabled := false)],
                     sessions := RevokeAll(c1.sessions, me, at, "mfa_disabled", Some(current))), Done, factor)
  }

  function Regenerate(env: Env, c: Core, me: nat, at: Time, asRecovery: bool, password: string, code: string, newCodes: seq<string>): CoreStep
    requires me < |c.users|
  {
    if asRecovery then CoreStep(c, Refused(422), NoFactor)
    else if !env.verifyPassword(c.users[me].passwordHash, password) then CoreStep(c, Refused(400), NoFactor)
    else
      var (c1, factor) := VerifyFactor(env, c, me, at, code, false);
      if factor.NoFactor? then CoreStep(c1, Refused(400), NoFactor)
      else
        var replaced := ReplaceCodes(env, c1, me, newCodes);
        if replaced.None? then CoreStep(c1, Refused(500), factor) else CoreStep(replaced.value, Done, factor)
  }

  /** Status also deletes a pending setup that has lapsed. */
  function SweepPending(c: Core, me: nat, at: Time): Core {
    var pending := PendingDevices(c.devices, me);
    if pending != {} && EnrollmentLapsed(c.devices[Newest(pending)], at)
    then c.(devices := c.devices - {Newest(pending)})
    else c
  }

  // ---- handlers for an administrator ----

  function CreateAccount(c: Core, username: string, email: Option<string>, keys: set<string>, admin: bool, passwordHash: string, wellFormed: bool)
    : (Core, Outcome)
  {
    var granted := if keys != {} then keys else if admin then {"administrator"} else {};
    if !wellFormed || FindAccount(c.users, false, username).Some? || EmailTaken(c.users, email, None)
       || !RolesAssignable(c.roles, granted) then (c, Refused(422))
    else
      var a := Account(username, email, passwordHash, PendingPasswordChange, admin, 0, None, true, false, granted);
      (c.(users := c.users + [a]), Done)
  }

  /** How an administrator's order rewrites the account it names. */
  function Ordered(a: Account, order: AdminAction): Account {
    match order
    case UpdateUser(newEmail, mustChange) =>
      var a1 := if newEmail.Some? then a.(email := newEmail.value) else a;
      if mustChange.Some?
      then a1.(mustChange := mustChange.value, status := if mustChange.value then PendingPasswordChange else Active)
      else a1
    case DisableUser => a.(status := Disabled)
    case EnableUser => a.(status := if a.mustChange then PendingPasswordChange else Active)
    case ResetPassword(newHash, _) => NewPassword(a, newHash, true)
    case ResetMfa =>
      a.(mfaEnabled := false, mustChange := true, status := if a.status == Disabled then Disabled else PendingPasswordChange)
    case RevokeSessions => a
    case SetRoles(keys) => a.(isAdmin := "administrator" in keys, roles := keys)
  }

  /** Whether the order is refused as it stands. */
  predicate OrderRefused(c: Core, u: nat, order: AdminAction)
    requires u < |c.users|
  {
    match order
    case UpdateUser(newEmail, _) => newEmail.Some? && EmailTaken(c.users, newEmail.value, Some(u))
    case DisableUser => IsLastAdmin(c.users, u)
    case ResetPassword(_, policyOk) => !policyOk
    case SetRoles(keys) =>
      (c.users[u].isAdmin && "administrator" !in keys && IsLastAdmin(c.users, u)) || !RolesAssignable(c.roles, keys)
    case _ => false
  }

  /** The reason the order revokes the account's sessions with, if it does. */
  function OrderRevokes(order: AdminAction): Option<string> {
    match order
    case DisableUser => Some("account_disabled")
    case ResetPassword(_, _) => Some("administrator_password_reset")
    case ResetMfa => Some("administrator_mfa_reset")
    case RevokeSessions => Some("administrator_revoked_all")
    case SetRoles(_) => Some("role_assignment_changed")
    case _ => None
  }

  function SetPassword(c: Core, u: nat, at: Time, newHash: string, mustChange: bool, reason: string, spare: Option<nat>): Core
    requires u < |c.users|
  {
    c.(users := c.users[u := NewPassword(c.users[u], newHash, mustChange)],
       sessions := RevokeAll(c.sessions, u, at, reason, spare))
  }

  function RevokeOne(c: Core, owner: nat, session: nat, at: Time, reason: string): (Core, Outcome) {
    if session < |c.sessions| && !c.sessions[session].purged && c.sessions[session].user == owner
    then (c.(sessions := c.sessions[session := Revoke(c.sessions[session], at, reason)]), Done)
    else (c, Refused(404))
  }

  function PerformOwn(env: Env, c: Core, me: nat, current: nat, at: Time, own: OwnAction): (Core, Outcome)
    requires me < |c.users|
  {
    match own
    case Browse => (c, Done)
    case Logout => RevokeOne(c, me, current, at, "logout")
    case LogoutAll(preserve) =>
      (c.(sessions := RevokeAll(c.sessions, me, at, "logout_all", if preserve then Some(current) else None)), Done)
    case ChangePassword(oldText, newHash, policyOk) =>
      if !env.verifyPassword(c.users[me].passwordHash, oldText) then (c, Refused(400))
      else if !policyOk then (c, Refused(422))
      else (SetPassword(c, me, at, newHash, false, "password_changed", Some(current)), Done)
    case DeleteSession(s) => RevokeOne(c, me, s, at, "user_revoked")
  }

  function PerformMfa(env: Env, c: Core, me: nat, current: nat, at: Time, mfa: MfaAction): CoreStep
    requires me < |c.users|
  {
    match mfa
    case EnrollMfa(password, restart, secret) => Plain(Enroll(env, c, me, at, password, restart, secret))
    case MfaStatus => CoreStep(SweepPending(c, me, at), Done, NoFactor)
    case ConfirmMfa(code, device, newCodes) => Confirm(env, c, me, at, code, device, newCodes)
    case CancelMfa => CoreStep(c.(devices := DropPending(c.devices, me)), Done, NoFactor)
    case DisableMfa(confirm, password, code, recovery) => TurnOffMfa(env, c, me, current, at, confirm, password, code, recovery)
    case RegenerateCodes(asRecovery, password, code, newCodes) => Regenerate(env, c, me, at, asRecovery, password, code, newCodes)
  }

  function PerformAdmin(c: Core, u: nat, at: Time, order: AdminAction): (Core, Outcome)
    requires u < |c.users|
  {
    if OrderRefused(c, u, order) then (c, Refused(422))
    else
      var users := c.users[u := Ordered(c.users[u], order)];
      var reason := OrderRevokes(order);
      var sessions := if reason.Some? then RevokeAll(c.sessions, u, at, reason.value, None) else c.sessions;
      if order.ResetMfa?
      then (c.(users := users, sessions := sessions, devices := SwitchOffDevices(c.devices, u), codes := DropCodes(c.codes, u)), Done)
      else (c.(users := users, sessions := sessions), Done)
  }

  // ---- playbooks and roles ----

  predicate StepTargetMissing(c: Core, step: PlaybookStep) {
    match step
    case RevokeSelected(s) => s >= |c.sessions| || c.sessions[s].purged
    case _ => step.user >= |c.users|
  }

  function PerformStep(c: Core, me: nat, current: nat, at: Time, step: PlaybookStep, reasoned: bool): (Core, Outcome)
    requires me < |c.users|
  {
    if !reasoned || StepTargetMissing(c, step) then (c, StepFailed)
    else
      match step
      case RevokeSelected(s) =>
        if s == current then (c, StepFailed)
        else (c.(sessions := c.sessions[s := Overwrite(c.sessions[s], at)]), Done)
      case RevokeOthers(u) =>
        if u == me then (c, Refused(409))
        else (c.(sessions := RevokeAll(c.sessions, u, at, PLAYBOOK_REASON, None)), Done)
      case SuspendUser(u) =>
        if u == me || (c.users[u].isAdmin && |ActiveAdmins(c.users)| <= 1) then (c, Refused(409))
        else
          (c.(users := c.users[u := c.users[u].(status := Disabled)],
              sessions := RevokeAll(c.sessions, u, at, "user_disabled_by_soar", None)), Done)
      case ReinstateUser(u) => (c.(users := c.users[u := c.users[u].(status := Active)]), Done)
  }

  predicate RoleHeld(users: seq<Account>, key: string) {
    exists u :: 0 <= u < |users| && key in users[u].roles
  }

  function ChangeRole(c: Core, at: Time, key: string, change: RoleOrder): (Core, Outcome) {
    if change.CreateRole? then
      if key in c.roles then (c, Refused(409))
      else if !change.permissionsOk then (c, Refused(422))
      else (c.(roles := c.roles[key := Role(change.newEnabled, false)]), Done)
    else if key !in c.roles then (c, Refused(404))
    else
      var role := c.roles[key];
      match change
      case UpdateRole(renames, enabled) =>
        if role.system && (renames || enabled == Some(false)) then (c, Refused(422))
        else
          var updated := if enabled.Some? then role.(enabled := enabled.value) else role;
          (c.(roles := c.roles[key := updated], sessions := RevokeHolders(c.sessions, c.users, key, at, "role_changed")), Done)
      case DeleteRole => if role.system || RoleHeld(c.users, key) then (c, Refused(422)) else (c.(roles := c.roles - {key}), Done)
      case SetPermissions(valid) =>
        if role.system || !valid then (c, Refused(422))
        else (c.(sessions := RevokeHolders(c.sessions, c.users, key, at, "role_permissions_changed")), Done)
  }

  function Plain(r: (Core, Outcome)): CoreStep {
    CoreStep(r.0, r.1, NoFactor)
  }

  /** One signed-in request, after its session was looked up and its permission checked. */
  function Perform(env: Env, c: Core, at: Time, current: nat, action: Action): CoreStep
    requires current < |c.sessions| && c.sessions[current].user < |c.users|
  {
    var me := c.sessions[current].user;
    match action
    case Own(own) => Plain(PerformOwn(env, c, me, current, at, own))
    case Mfa(mfa) => PerformMfa(env, c, me, current, at, mfa)
    case Admin(u, order) => if u < |c.users| then Plain(PerformAdmin(c, u, at, order)) else CoreStep(c, Refused(404), NoFactor)
    case Playbook(step, reasoned) => Plain(PerformStep(c, me, current, at, step, reasoned))
    case ManageRole(key, change) => Plain(ChangeRole(c, at, key, change))
    case RevokeSession(owner, s) => Plain(RevokeOne(c, owner, s, at, "administrator_revoked"))
    case CreateUser(username, email, keys, admin, passwordHash, wellFormed) =>
      Plain(CreateAccount(c, username, email, keys, admin, passwordHash, wellFormed))
  }

  // ---- completing a two-step login ----

  function CompleteLogin(env: Env, c: Core, at: Time, challengeToken: string, code: string, recovery: bool, token: string): CoreStep {
    var found := ChallengesFor(c.challenges, env.hash(challengeToken));
    if found == {} || !ChallengeOpen(c.challenges[First(found)], at) then CoreStep(c, Refused(401), NoFactor)
    else
      var k := First(found);
      var user := c.challenges[k].user;
      if user >= |c.users| || Barred(c.users[user]) then CoreStep(c, Refused(401), NoFactor)
      else
        var (c1, factor) := VerifyFactor(env, c, user, at, code, recovery);
        var row := c1.challenges[k];
        if factor.NoFactor? then
          CoreStep(c1.(challenges := c1.challenges[k := row.(failedAttempts := row.failedAttempts + 1)]), GuessRefused(k), NoFactor)
        else
          var (c2, outcome) := OpenSession(env, c1, user, token, at, Some(k));
          if outcome.Refused? then CoreStep(c1, outcome, factor)
          else CoreStep(c2.(challenges := c2.challenges[k := row.(usedAt := Some(at))]), outcome, factor)
  }

  // ---- requests that use the attempt log ----

  datatype Verdict = Throttled | Wrong | Accepted(user: nat)

  /** An expired lock is lifted first, and takes the failures filed under this identifier with it. */
  function LiftExpiredLock(env: Env, w: World, found: Option<nat>, identifier: string, at: Time): (r: World)
    requires found.Some? ==> found.value < |w.core.users|
    ensures |r.core.users| == |w.core.users| && r.core == w.core.(users := r.core.users) && r.prunes == w.prunes
  {
    if found.Some? && LockExpired(w.core.users[found.value], at) then
      var u, a := found.value, w.core.users[found.value];
      w.(core := w.core.(users := w.core.users[u := ClearFailures(a)]),
         log := Forget(Forget(w.log, AccountKeys(env, a)), {LoginKey(env, identifier)}))
    else w
  }

  function Authenticate(env: Env, w: World, at: Time, ip: Option<string>, isEmail: bool, identifier: string, password: string)
    : (r: (World, Verdict))
    ensures r.1.Accepted? ==> r.1.user < |r.0.core.users|
    ensures r.0.core == w.core.(users := r.0.core.users)
  {
    var found := FindAccount(w.core.users, isEmail, identifier);
    var w1 := LiftExpiredLock(env, w, found, identifier, at);
    var users := w1.core.users;
    if LoginThrottled(env, w1.log, identifier, ip, at) then (w1, Throttled)
    else if found.Some? && env.verifyPassword(users[found.value].passwordHash, password) && !Barred(users[found.value]) then
      var u, a := found.value, users[found.value];
      var cleared := Forget(w1.log, AccountKeys(env, a));
      (w1.(core := w1.core.(users := users[u := ClearFailures(a)]), log := RecordLogin(env, cleared, identifier, ip, true, at, w.prunes)), Accepted(u))
    else
      var counted :=
        if found.Some? && !Barred(users[found.value])
        then users[found.value := RegisterFailure(env, users[found.value], at)] else users;
      (w1.(core := w1.core.(users := counted), log := RecordLogin(env, w1.log, identifier, ip, false, at, w.prunes)), Wrong)
  }

  function EnterAccount(env: Env, c: Core, u: nat, token: string, at: Time): (Core, Outcome)
    requires u < |c.users|
  {
    var a := c.users[u];
    if a.status == PendingApproval || a.status == Rejected then (c, NotActivated)
    else if a.mfaEnabled then
      if ChallengesFor(c.challenges, env.hash(token)) != {} then (c, Refused(500))
      else
        var ch := Challenge(u, env.hash(token), at + 5 * MINUTE, None, 0);
        (c.(challenges := c.challenges[c.nextId := ch], nextId := c.nextId + 1), ChallengeIssued(c.nextId))
    else OpenSession(env, c, u, token, at, None)
  }

  function LogIn(env: Env, w: World, at: Time, ip: Option<string>, isEmail: bool, identifier: string, password: string, token: string): Step {
    if !env.localLogin then Step(w, Refused(403), NoFactor)
    else
      var (w1, verdict) := Authenticate(env, w, at, ip, isEmail, identifier, password);
      match verdict
      case Throttled => Step(w1, Refused(429), NoFactor)
      case Wrong => Step(w1, BadCredentials, NoFactor)
      case Accepted(u) =>
        var (c, outcome) := EnterAccount(env, w1.core, u, token, at);
        Step(w1.(core := c), outcome, NoFactor)
  }

  function SelfRegister(env: Env, w: World, at: Time, ip: Option<string>, email: string, username: string, passwordHash: string, wellFormed: bool): Step {
    var key := RegistrationKey(env, email);
    var users := w.core.users;
    if env.registration == RegistrationDisabled || !env.localLogin then Step(w, Refused(403), NoFactor)
    else if RegistrationThrottled(env, w.log, email, ip, at) then Step(w, Refused(429), NoFactor)
    else if !wellFormed || FindAccount(users, true, email).Some? || FindAccount(users, false, username).Some?
            || !RolesAssignable(w.core.roles, {"registered_user"}) then
      Step(w.(log := w.log + [Attempt(key, ip, false, at)]), Refused(422), NoFactor)
    else
      var status := if env.registration == ApprovalRequired then PendingApproval else Active;
      var a := Account(username, Some(email), passwordHash, status, false, 0, None, false, false, {"registered_user"});
      Step(w.(core := w.core.(users := users + [a]), log := Forget(w.log, AccountKeys(env, a)) + [Attempt(key, ip, true, at)]), Done, NoFactor)
  }

  function ManagementName(m: Management): string {
    match m case Approve(_, _) => "approve" case Reject(_) => "reject" case Reopen => "reopen" case Unlock => "unlock"
  }

  function GrantedRoles(keys: set<string>): set<string> {
    if keys == {} then {"registered_user"} else keys
  }

  function Managed(a: Account, m: Management): Account {
    match m
    case Approve(keys, _) =>
      var granted := GrantedRoles(keys);
      a.(status := Active, isAdmin := "administrator" in granted, roles := granted)
    case Reject(_) => a.(status := Rejected)
    case Reopen => a.(status := PendingApproval)
    case Unlock => ClearFailures(a)
  }

  predicate ManagementRefused(c: Core, u: nat, m: Management)
    requires u < |c.users|
  {
    var a := c.users[u];
    match m
    case Approve(keys, confirmAdmin) =>
      || (a.status != PendingApproval && a.status != Rejected)
      || ("administrator" in GrantedRoles(keys) && !confirmAdmin)
      || !RolesAssignable(c.roles, GrantedRoles(keys))
    case Reject(reasonOk) => !reasonOk || (a.status != PendingApproval && a.status != Active) || IsLastAdmin(c.users, u)
    case Reopen => a.status != Rejected
    case Unlock => false
  }

  function Decide(c: Core, u: nat, at: Time, m: Management): (Core, Outcome)
    requires u < |c.users|
  {
    if ManagementRefused(c, u, m) then (c, Refused(422))
    else
      var sessions := if m.Reject? then RevokeAll(c.sessions, u, at, "registration_rejected", None) else c.sessions;
      (c.(users := c.users[u := Managed(c.users[u], m)], sessions := sessions), Done)
  }

  function ManageAccount(env: Env, w: World, at: Time, ip: Option<string>, actor: nat, u: nat, m: Management): Step {
    if u >= |w.core.users| then Step(w, Refused(404), NoFactor)
    else if m.Unlock? then
      var (c, outcome) := Decide(w.core, u, at, m);
      Step(w.(core := c, log := Forget(w.log, AccountKeys(env, w.core.users[u]))), outcome, NoFactor)
    else if ManagementThrottled(env, w.log, actor, ManagementName(m), ip, at) then Step(w, Refused(429), NoFactor)
    else
      var row := Attempt(ManagementKey(env, actor, ManagementName(m)), ip, true, at);
      var (c, outcome) := Decide(w.core, u, at, m);
      Step(w.(core := c, log := w.log + [row]), outcome, NoFactor)
  }

  // ---- retention ----

  function PurgeChallenges(challenges: map<nat, Challenge>, doomed: set<nat>, cutoff: Time): map<nat, Challenge> {
    map k | k in challenges && !(k in doomed && challenges[k].usedAt.Some? && challenges[k].usedAt.value < cutoff) :: challenges[k]
  }

  /** Applying a preview whose rows have changed deletes nothing, like a preview that listed nothing. */
  function RetainRows(w: World, at: Time, rows: Retention): Step {
    match rows
    case OldAttempts(days, doomed) =>
      if days == 0 then Step(w, Refused(422), NoFactor)
      else Step(w.(log := if w.prunes then Purge(w.log, doomed, at - days * DAY) else w.log), Done, NoFactor)
    case OldSessions(doomed) =>
      Step(w.(core := w.core.(sessions := PurgeSessions(w.core.sessions, doomed, at))), Done, NoFactor)
    case OldChallenges(days, doomed) =>
      if days == 0 then Step(w, Refused(422), NoFactor)
      else Step(w.(core := w.core.(challenges := PurgeChallenges(w.core.challenges, doomed, at - days * DAY))), Done, NoFactor)
  }

  // ---- one request, and a run of requests ----

  function IpHash(env: Env, ip: Option<string>): Option<string> {
    if ip.Some? then Some(env.hash("ip:" + ip.value)) else None
  }

  function Next(env: Env, w: World, req: Request): Step {
    var at, ip := req.at, IpHash(env, req.ip);
    match req.call
    case Login(isEmail, identifier, password, token) => LogIn(env, w, at, ip, isEmail, identifier, password, token)
    case Register(email, username, passwordHash, wellFormed) => SelfRegister(env, w, at, ip, email, username, passwordHash, wellFormed)
    case VerifyMfa(challengeToken, code, recovery, token) =>
      var s := CompleteLogin(env, w.core, at, challengeToken, code, recovery, token);
      Step(w.(core := s.core), s.outcome, s.factor)
    case Signed(cookie, permitted, action) =>
      var (c, current) := Lookup(env, w.core, at, cookie);
      if current.None? then Step(w.(core := c), Refused(401), NoFactor)
      else if !permitted then Step(w.(core := c), Refused(403), NoFactor)
      else
        var s := Perform(env, c, at, current.value, action);
        Step(w.(core := s.core), s.outcome, s.factor)
    case Manage(cookie, permitted, target, managed) =>
      var (c, current) := Lookup(env, w.core, at, cookie);
      if current.None? then Step(w.(core := c), Refused(401), NoFactor)
      else if !permitted then Step(w.(core := c), Refused(403), NoFactor)
      else ManageAccount(env, w.(core := c), at, ip, c.sessions[current.value].user, target, managed)
    case Retain(cookie, permitted, rows) =>
      var (c, current) := Lookup(env, w.core, at, cookie);
      if current.None? then Step(w.(core := c), Refused(401), NoFactor)
      else if !permitted then Step(w.(core := c), Refused(403), NoFactor)
      else RetainRows(w.(core := c), at, rows)
  }

  function Run(env: Env, w: World, reqs: seq<Request>): World
    decreases |reqs|
  {
    if reqs == [] then w else Run(env, Next(env, w, reqs[0]).world, reqs[1..])
  }

  /** The answers given along a run. */
  function Outcomes(env: Env, w: World, reqs: seq<Request>): seq<Outcome>
    decreases |reqs|
  {
    if reqs == [] then [] else [Next(env, w, reqs[0]).outcome] + Outcomes(env, Next(env, w, reqs[0]).world, reqs[1..])
  }

  /** The clock never goes backwards: no request is earlier than `now` or than the one before it. */
  predicate Timed(now: Time, reqs: seq<Request>)
    decreases |reqs|
  {
    reqs != [] ==> now <= reqs[0].at && Timed(reqs[0].at, reqs[1..])
  }
}
