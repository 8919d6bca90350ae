/**
 What each database block of the authentication package does, as a function from
 the tables before to the tables after and the outcome. `AccountServices` holds the
 services that assign to the tables step by step and meet these functions.
 */
module Accounts {
  import opened Prelude
  import opened Permissions
  import opened Store
  import opened Text

  const MAX_FAILED_ATTEMPTS: nat := 5
  const LOCKOUT_DURATION: Time := 15 * 60 * 1_000_000
  const ANONYMOUS_ACTOR := "anonymous"
  const SYSTEM_PREFIX := "system:"

  /** Settings, and the calls whose inner working is not modelled. */
  datatype Env = Env(
    lower: string -> string,             // str.lower
    sanitize: string -> string,          // governance.report_sanitizer.sanitize_report
    verify: (string, string) -> bool,    // PasswordHasher.verify(password, stored)
    idleTimeout: int,
    passwordMinLength: int)
  {
    function Normalize(name: string): Username {
      lower(Strip(name))
    }

    /** The sanitiser leaves well-formed usernames alone. */
    ghost predicate KeepsUsernames() {
      forall name :: ValidUsername(name) ==> sanitize(name) == name
    }
  }

  datatype Principal = Principal(
    username: Username,
    displayName: string,
    role: Role,
    sessionVersion: nat,
    authenticatedAt: Time,
    lastActivityAt: Time,
    mustChangePassword: bool)

  datatype UserView = UserView(
    username: Username,
    displayName: string,
    role: Role,
    isActive: bool,
    isLocked: bool,
    mustChangePassword: bool,
    lastLoginAt: Option<Time>)

  datatype PasswordProblem = TooShort | TooLong | HoldsUsername | TooSimple

  datatype AdminError =
    | BadUsername
    | BadDisplayName
    | DuplicateUsername
    | BadPassword(problem: PasswordProblem)
    | UserNotFound
    | SelfModification
    | LastAdministrator
    | CommandLineOnly
    | WrongPassword
    | SamePassword

  /** Everything a protected call can raise. */
  datatype CallError =
    | Expired
    | Invalidated
    | Denied(reason: DenialReason)
    | Refused(error: AdminError)

  // ------------------------------------------------------------ small checks

  predicate UsernameChar(c: char) {
    'a' <= c <= 'z' || '0' <= c <= '9' || c in {'.', '_', '-'}
  }

  /** `^[a-z0-9][a-z0-9._-]{2,63}$` */
  predicate ValidUsername(name: string) {
    && 3 <= |name| <= 64
    && ('a' <= name[0] <= 'z' || '0' <= name[0] <= '9')
    && forall i :: 0 <= i < |name| ==> UsernameChar(name[i])
  }

  predicate SystemActor(actor: string) {
    StartsWith(actor, SYSTEM_PREFIX)
  }

  /** No account can pose as a command-line actor. */
  lemma UsernameIsNotSystemActor(name: string)
    requires ValidUsername(name)
    ensures !SystemActor(name)
  {
    if |name| >= |SYSTEM_PREFIX| {
      assert UsernameChar(name[6]) && name[..|SYSTEM_PREFIX|][6] == name[6];
    }
  }

  function CheckPassword(env: Env, password: string, name: Username): Option<PasswordProblem> {
    if |password| < env.passwordMinLength then Some(TooShort)
    else if |password| > 256 then Some(TooLong)
    else if name != "" && Contains(env.lower(password), env.Normalize(name)) then Some(HoldsUsername)
    else if |set c | c in password| < 4 then Some(TooSimple)
    else None
  }

  predicate Locked(row: User, now: Time) {
    row.lockedUntil.Some? && now < row.lockedUntil.value
  }

  function PrincipalFor(name: Username, row: User, now: Time, authenticatedAt: Time): Principal {
    Principal(name, row.displayName, row.role, row.sessionVersion, authenticatedAt, now, row.mustChangePassword)
  }

  function ViewOf(name: Username, row: User, now: Time): UserView {
    UserView(name, row.displayName, row.role, row.isActive, Locked(row, now), row.mustChangePassword, row.lastLoginAt)
  }

  predicate IsActiveAdmin(row: User) {
    row.role == Admin && row.isActive
  }

  function ActiveAdmins(users: map<Username, User>): set<Username> {
    set name | name in users && IsActiveAdmin(users[name])
  }

  // ------------------------------------------------------------- row changes

  function OneMoreFailure(row: User): User {
    row.(failedAttempts := row.failedAttempts + 1)
  }

  /** The row after the fifth failure. */
  function LockedOut(row: User, now: Time): User {
    row.(failedAttempts := 0, lockedUntil := Some(now + LOCKOUT_DURATION))
  }

  function SignedIn(row: User, now: Time): User {
    row.(failedAttempts := 0, lockedUntil := None, lastLoginAt := Some(now))
  }

  function Bumped(row: User): User {
    row.(sessionVersion := row.sessionVersion + 1)
  }

  function WithNewPassword(row: User, hash: string): User {
    Bumped(row).(passwordHash := hash, mustChangePassword := false)
  }

  function WithTemporaryPassword(row: User, hash: string): User {
    Bumped(row).(passwordHash := hash, mustChangePassword := true, failedAttempts := 0, lockedUntil := None)
  }

  function WithRole(row: User, role: Role): User {
    Bumped(row).(role := role)
  }

  function WithActive(row: User, active: bool): User {
    if active then Bumped(row).(isActive := true, failedAttempts := 0, lockedUntil := None)
    else Bumped(row).(isActive := false)
  }

  // -------------------------------------------------- sign-in and own session

  function FailedLogin(db: Db, now: Time, actor: string, reason: LoginFailure): (Db, Option<Principal>) {
    (db.Record(now, actor, UserLoginFailed(reason)), None)
  }

  /** A password that does not match the stored hash. */
  function FailedGuess(db: Db, now: Time, name: Username): (Db, Option<Principal>)
    requires name in db.users
  {
    var row := db.users[name];
    if row.failedAttempts + 1 >= MAX_FAILED_ATTEMPTS then
      var locked := db.WithUser(name, LockedOut(row, now)).Record(now, name, UserLockedOut(now + LOCKOUT_DURATION));
      FailedLogin(locked, now, name, InvalidPassword)
    else
      FailedLogin(db.WithUser(name, OneMoreFailure(row)), now, name, InvalidPassword)
  }

  /** `AuthService.login`; `None` is the one generic AuthenticationError. */
  function LoginBlock(env: Env, db: Db, now: Time, username: string, password: string): (Db, Option<Principal>) {
    var name := env.Normalize(username);
    if name !in db.users then FailedLogin(db, now, ANONYMOUS_ACTOR, UnknownAccount)
    else
      var row := db.users[name];
      if Locked(row, now) then FailedLogin(db, now, name, AccountLocked)
      else if !row.isActive then FailedLogin(db, now, name, AccountInactive)
      else if !env.verify(password, row.passwordHash) then FailedGuess(db, now, name)
      else
        var cleared := SignedIn(row, now);
        (db.WithUser(name, cleared).Record(now, name, UserLogin(row.role)),
         Some(PrincipalFor(name, cleared, now, now)))
  }

  function LogoutBlock(db: Db, now: Time, principal: Principal): Db {
    db.Record(now, principal.username, UserLogout)
  }

  /** `AuthService.validate_session` */
  function ValidateBlock(env: Env, db: Db, now: Time, principal: Principal): (Db, Result<Principal, CallError>) {
    var name := principal.username;
    if now - principal.lastActivityAt > env.idleTimeout then
      (db.Record(now, name, SessionExpired), Err(Expired))
    else if name !in db.users || !db.users[name].isActive
        || db.users[name].sessionVersion != principal.sessionVersion then
      (db.Record(now, name, SessionInvalidated(name in db.users && !db.users[name].isActive)), Err(Invalidated))
    else
      var row := db.users[name];
      (db, Ok(principal.(displayName := row.displayName, role := row.role,
                         mustChangePassword := row.mustChangePassword, lastActivityAt := now)))
  }

  /** The second block of `AuthService.change_own_password`. */
  function ChangePasswordBlock(
    env: Env, db: Db, now: Time, principal: Principal, current: string, replacement: string, replacementHash: string
  ): (Db, Result<Principal, AdminError>) {
    var name := principal.username;
    if name !in db.users || !env.verify(current, db.users[name].passwordHash) then (db, Err(WrongPassword))
    else if env.verify(replacement, db.users[name].passwordHash) then (db, Err(SamePassword))
    else if CheckPassword(env, replacement, name).Some?
        then (db, Err(BadPassword(CheckPassword(env, replacement, name).value)))
    else
      var row := db.users[name];
      var changed := WithNewPassword(row, replacementHash);
      (db.WithUser(name, changed).Record(now, name, PasswordChanged),
       Ok(PrincipalFor(name, changed, now, principal.authenticatedAt)))
  }

  // ------------------------------------------------------------ authorisation

  function DenialFor(principal: Principal, permission: Permission): Option<DenialReason> {
    if principal.mustChangePassword then Some(PasswordChangeRequired)
    else if !Can(principal.role, permission) then Some(RoleNotPermitted)
    else None
  }

  /** `Authorizer.require` */
  function RequireBlock(
    env: Env, db: Db, now: Time, principal: Principal, permission: Permission
  ): (Db, Result<Principal, CallError>) {
    var (db1, validated) := ValidateBlock(env, db, now, principal);
    if validated.Err? then (db1, validated)
    else
      var reason := DenialFor(validated.value, permission);
      if reason.None? then (db1, validated)
      else
        (db1.Record(now, validated.value.username, AccessDenied(permission, validated.value.role, reason.value)),
         Err(Denied(reason.value)))
  }

  // --------------------------------------------------- account administration

  /** `_create` followed by the USER_CREATED event. */
  function CreateBlock(
    env: Env, db: Db, now: Time, actor: string, username: string, displayName: string, role: Role,
    password: string, passwordHash: string, mustChange: bool
  ): (Db, Result<UserView, AdminError>) {
    var name := env.Normalize(username);
    var shown := Strip(displayName);
    if !ValidUsername(name) then (db, Err(BadUsername))
    else if shown == "" || |shown| > 128 then (db, Err(BadDisplayName))
    else if name in db.users then (db, Err(DuplicateUsername))
    else if CheckPassword(env, password, name).Some?
        then (db, Err(BadPassword(CheckPassword(env, password, name).value)))
    else
      var row := User(shown, passwordHash, role, true, mustChange, 0, None, 1, None);
      (db.WithUser(name, row).Record(now, actor, UserCreated(env.sanitize(name), role)),
       Ok(ViewOf(name, row, now)))
  }

  /** `UserAdminService.bootstrap_user` */
  function BootstrapBlock(
    env: Env, db: Db, now: Time, username: string, displayName: string, role: Role,
    password: string, passwordHash: string, actor: string
  ): (Db, Result<UserView, AdminError>) {
    if !SystemActor(actor) then (db, Err(CommandLineOnly))
    else CreateBlock(env, db, now, actor, username, displayName, role, password, passwordHash, false)
  }

  /** `_target`: the account acted on, which is never the caller's own. */
  function Target(db: Db, principal: Principal, target: Username): Option<AdminError> {
    if target !in db.users then Some(UserNotFound)
    else if target == principal.username then Some(SelfModification)
    else None
  }

  function ChangeRoleBlock(
    env: Env, db: Db, now: Time, principal: Principal, target: Username, newRole: Role
  ): (Db, Result<UserView, AdminError>) {
    var problem := Target(db, principal, target);
    if problem.Some? then (db, Err(problem.value))
    else
      var row := db.users[target];
      if row.role == newRole then (db, Ok(ViewOf(target, row, now)))
      else if row.role == Admin && row.isActive && |ActiveAdmins(db.users)| <= 1 then (db, Err(LastAdministrator))
      else
        var changed := WithRole(row, newRole);
        (db.WithUser(target, changed)
         .Record(now, principal.username, UserRoleChanged(env.sanitize(target), row.role, newRole)),
         Ok(ViewOf(target, changed, now)))
  }

  function SetActiveBlock(
    env: Env, db: Db, now: Time, principal: Principal, target: Username, active: bool
  ): (Db, Result<UserView, AdminError>) {
    var problem := Target(db, principal, target);
    if problem.Some? then (db, Err(problem.value))
    else
      var row := db.users[target];
      if row.isActive == active then (db, Ok(ViewOf(target, row, now)))
      else if !active && row.role == Admin && |ActiveAdmins(db.users)| <= 1 then (db, Err(LastAdministrator))
      else
        var changed := WithActive(row, active);
        var name := env.sanitize(target);
        (db.WithUser(target, changed)
         .Record(now, principal.username, if active then UserActivated(name) else UserDeactivated(name)),
         Ok(ViewOf(target, changed, now)))
  }

  function ResetPasswordBlock(
    env: Env, db: Db, now: Time, principal: Principal, target: Username, temporary: string, temporaryHash: string
  ): (Db, Result<UserView, AdminError>) {
    var problem := Target(db, principal, target);
    if problem.Some? then (db, Err(problem.value))
    else if CheckPassword(env, temporary, target).Some?
        then (db, Err(BadPassword(CheckPassword(env, temporary, target).value)))
    else
      var row := db.users[target];
      var changed := WithTemporaryPassword(row, temporaryHash);
      (db.WithUser(target, changed).Record(now, principal.username, UserPasswordReset(env.sanitize(target))),
       Ok(ViewOf(target, changed, now)))
  }
}
