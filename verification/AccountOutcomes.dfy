/**
 What each call of the authentication package means to its caller: when it succeeds, why
 it is refused, which columns of which row change, and what the audit log says about it.
 Everything is said of the tables before and after, without the functions that build them.
 */
module AccountOutcomes {
  import opened Prelude
  import opened Permissions
  import opened Store
  import opened Text
  import opened Accounts

  // ------------------------------------------------------------------- frames

  /** Only the users table and the log may differ, and accounts other than this one stay as they are. */
  ghost predicate OnlyAccount(before: Db, after: Db, name: Username) {
    && after.findings == before.findings && after.scores == before.scores
    && before.log <= after.log
    && forall other :: other != name ==>
         (other in after.users <==> other in before.users)
         && (other in before.users ==> after.users[other] == before.users[other])
  }

  predicate NothingHappened(before: Db, after: Db) {
    after == before
  }

  /** The columns that say who the account is and how it is signed in to. */
  predicate SameAccess(row: User, row': User) {
    && row'.passwordHash == row.passwordHash && row'.mustChangePassword == row.mustChangePassword
    && row'.role == row.role && row'.isActive == row.isActive && row'.sessionVersion == row.sessionVersion
    && row'.displayName == row.displayName
  }

  /** The columns the lock-out uses. */
  predicate SameCounter(row: User, row': User) {
    row'.failedAttempts == row.failedAttempts && row'.lockedUntil == row.lockedUntil
  }

  predicate LockedNow(row: User, now: Time) {
    match row.lockedUntil
    case None => false
    case Some(until) => now < until
  }

  /** The caller is told who they are as the row says it. */
  predicate Describes(p: Principal, name: Username, row: User) {
    && p.username == name && p.displayName == row.displayName && p.role == row.role
    && p.sessionVersion == row.sessionVersion && p.mustChangePassword == row.mustChangePassword
  }

  // ------------------------------------------------------------------ usernames

  predicate LetterOrDigit(c: char) {
    'a' <= c <= 'z' || '0' <= c <= '9'
  }

  /** One letter or digit, then two to sixty-three letters, digits, dots, underscores or hyphens. */
  lemma UsernameShape(name: string)
    ensures ValidUsername(name) <==>
            exists first, rest ::
              && name == [first] + rest && LetterOrDigit(first) && 2 <= |rest| <= 63
              && forall i :: 0 <= i < |rest| ==> LetterOrDigit(rest[i]) || rest[i] == '.' || rest[i] == '_'
                                                 || rest[i] == '-'
  {
    if ValidUsername(name) {
      assert name == [name[0]] + name[1..];
    }
  }

  /** Spaces around a typed name do not matter. */
  lemma SpacesDoNotMatter(env: Env, left: string, name: string, right: string)
    requires AllSpace(left) && AllSpace(right)
    requires name != [] ==> !IsSpace(name[0]) && !IsSpace(name[|name| - 1])
    ensures env.Normalize(left + name + right) == env.lower(name)
  {
    StripTakesSpaceOff(left, name, right);
  }

  // ------------------------------------------------------------------ sign-in

  /** The account exists, is neither locked nor inactive, so the password decides. */
  predicate PasswordDecides(users: map<Username, User>, name: Username, now: Time) {
    name in users && !LockedNow(users[name], now) && users[name].isActive
  }

  predicate Opens(env: Env, users: map<Username, User>, name: Username, password: string, now: Time) {
    PasswordDecides(users, name, now) && env.verify(password, users[name].passwordHash)
  }

  predicate WrongPasswordFor(env: Env, users: map<Username, User>, name: Username, password: string, now: Time) {
    PasswordDecides(users, name, now) && !env.verify(password, users[name].passwordHash)
  }

  /** What a password that does not verify does: the fifth in a row locks the account for 15 minutes. */
  predicate Counted(row: User, row': User, now: Time) {
    if row.failedAttempts + 1 < 5
    then row'.failedAttempts == row.failedAttempts + 1 && row'.lockedUntil == row.lockedUntil
    else row'.failedAttempts == 0 && row'.lockedUntil == Some(now + 900_000_000)
  }

  predicate LoginReason(users: map<Username, User>, name: Username, now: Time, reason: LoginFailure) {
    match reason
    case UnknownAccount => name !in users
    case AccountLocked => name in users && LockedNow(users[name], now)
    case AccountInactive => name in users && !LockedNow(users[name], now) && !users[name].isActive
    case InvalidPassword => PasswordDecides(users, name, now)
  }

  /** The last event is the refusal, under the account's name if there is one. */
  ghost predicate RefusalLogged(users: map<Username, User>, after: Db, name: Username, now: Time) {
    && after.log != []
    && var e := after.log[|after.log| - 1];
       && e.body.UserLoginFailed? && e.at == now
       && e.actor == (if name in users then name else ANONYMOUS_ACTOR)
       && LoginReason(users, name, now, e.body.reason)
  }

  /**
   A sign-in succeeds exactly when the account exists, is not locked, is active and the
   password verifies against its stored hash. Success clears counter and lock; a refusal
   touches them only when the password alone was wrong; nothing else of the account changes.
   */
  ghost predicate LoginMeans(env: Env, before: Db, now: Time, name: Username, password: string, after: Db,
                             r: Option<Principal>) {
    && OnlyAccount(before, after, name)
    && (name in after.users <==> name in before.users)
    && (r.Some? <==> Opens(env, before.users, name, password, now))
    && (name in before.users ==> SameAccess(before.users[name], after.users[name]))
    && (if r.Some? then
          && Describes(r.value, name, before.users[name])
          && r.value.authenticatedAt == r.value.lastActivityAt == now
          && after.users[name].failedAttempts == 0 && after.users[name].lockedUntil.None?
          && after.users[name].lastLoginAt == Some(now)
          && Logged(before, after, name, UserLogin(before.users[name].role), now)
        else
          && RefusalLogged(before.users, after, name, now)
          && (name in before.users ==> after.users[name].lastLoginAt == before.users[name].lastLoginAt)
          && (WrongPasswordFor(env, before.users, name, password, now) ==>
                Counted(before.users[name], after.users[name], now))
          && (name in before.users && !WrongPasswordFor(env, before.users, name, password, now) ==>
                after.users[name] == before.users[name]))
  }

  lemma LoginOutcome(env: Env, db: Db, now: Time, username: string, password: string)
    ensures var (after, r) := LoginBlock(env, db, now, username, password);
            LoginMeans(env, db, now, env.Normalize(username), password, after, r)
  {}

  // ------------------------------------------------------------------ sessions

  predicate Idle(env: Env, p: Principal, now: Time) {
    now - p.lastActivityAt > env.idleTimeout
  }

  /** The session's account is there, active, and of the version the session was issued under. */
  predicate Current(users: map<Username, User>, p: Principal) {
    p.username in users && users[p.username].isActive && users[p.username].sessionVersion == p.sessionVersion
  }

  /** A session is refreshed from its row exactly when it is in time and current; else its end is logged. */
  ghost predicate ValidateMeans(env: Env, before: Db, now: Time, p: Principal, after: Db,
                                r: Result<Principal, CallError>) {
    && (r.Ok? <==> !Idle(env, p, now) && Current(before.users, p))
    && (r == Err(Expired) <==> Idle(env, p, now))
    && (r.Err? ==> r.error == Expired || r.error == Invalidated)
    && after.users == before.users && after.findings == before.findings && after.scores == before.scores
    && (if r.Ok? then
          && NothingHappened(before, after)
          && Describes(r.value, p.username, before.users[p.username])
          && r.value.lastActivityAt == now && r.value.authenticatedAt == p.authenticatedAt
        else if r.error == Expired then Logged(before, after, p.username, SessionExpired, now)
        else
          var inactive := p.username in before.users && !before.users[p.username].isActive;
          Logged(before, after, p.username, SessionInvalidated(inactive), now))
  }

  lemma ValidateOutcome(env: Env, db: Db, now: Time, p: Principal)
    ensures var (after, r) := ValidateBlock(env, db, now, p); ValidateMeans(env, db, now, p, after, r)
  {}

  /** The guard lets through exactly the valid sessions with no pending change and a permitted role. */
  ghost predicate RequireMeans(env: Env, before: Db, now: Time, p: Principal, permission: Permission, after: Db,
                               r: Result<Principal, CallError>) {
    var valid := !Idle(env, p, now) && Current(before.users, p);
    && after.users == before.users && after.findings == before.findings && after.scores == before.scores
    && (r.Ok? <==> valid && !before.users[p.username].mustChangePassword
                   && Can(before.users[p.username].role, permission))
    && (if r.Ok? then
          && NothingHappened(before, after)
          && Describes(r.value, p.username, before.users[p.username]) && r.value.lastActivityAt == now
        else if valid then
          var why := if before.users[p.username].mustChangePassword then PasswordChangeRequired else RoleNotPermitted;
          && r == Err(Denied(why))
          && Logged(before, after, p.username, AccessDenied(permission, before.users[p.username].role, why), now)
        else ValidateMeans(env, before, now, p, after, r))
  }

  lemma RequireOutcome(env: Env, db: Db, now: Time, p: Principal, permission: Permission)
    ensures var (after, r) := RequireBlock(env, db, now, p, permission);
            RequireMeans(env, db, now, p, permission, after, r)
  {
    ValidateOutcome(env, db, now, p);
  }

  // ------------------------------------------------------------ password policy

  /** Four different characters occur in the text. */
  ghost predicate FourDifferent(text: string) {
    exists a, b, c, d :: a in text && b in text && c in text && d in text && |{a, b, c, d}| == 4
  }

  /** The policy a new password meets. */
  ghost predicate MeetsPolicy(env: Env, password: string, name: Username) {
    && env.passwordMinLength <= |password| <= 256
    && (name == "" || !Contains(env.lower(password), env.Normalize(name)))
    && FourDifferent(password)
  }

  lemma SubsetIsSmaller<T>(a: set<T>, b: set<T>)
    requires a <= b
    ensures |a| <= |b|
  {
    assert b == a + (b - a);
  }

  lemma PickOne<T>(s: set<T>) returns (x: T)
    requires |s| > 0
    ensures x in s && |s - {x}| == |s| - 1
  {
    x :| x in s;
    assert s == (s - {x}) + {x};
  }

  lemma FourMembers<T>(s: set<T>) returns (a: T, b: T, c: T, d: T)
    requires |s| >= 4
    ensures {a, b, c, d} <= s && |{a, b, c, d}| == 4
  {
    a := PickOne(s);
    b := PickOne(s - {a});
    c := PickOne(s - {a} - {b});
    d := PickOne(s - {a} - {b} - {c});
    assert a != b && a != c && a != d && b != c && b != d && c != d;
  }

  lemma FourDifferentIff(text: string)
    ensures FourDifferent(text) <==> |set c | c in text| >= 4
  {
    var chars := set c | c in text;
    if |chars| >= 4 {
      var a, b, c, d := FourMembers(chars);
      assert {a, b, c, d} <= chars;
      assert a in chars && b in chars && c in chars && d in chars;
    }
    if FourDifferent(text) {
      var a, b, c, d :| a in text && b in text && c in text && d in text && |{a, b, c, d}| == 4;
      SubsetIsSmaller({a, b, c, d}, chars);
    }
  }

  /** The check finds no problem exactly when the policy is met, and otherwise names the first broken rule. */
  lemma PolicyIff(env: Env, password: string, name: Username)
    ensures var problem := CheckPassword(env, password, name);
            && (problem.None? <==> MeetsPolicy(env, password, name))
            && (problem == Some(TooShort) <==> |password| < env.passwordMinLength)
            && (problem == Some(TooLong) ==> |password| > 256)
            && (problem == Some(HoldsUsername) ==> Contains(env.lower(password), env.Normalize(name)))
            && (problem == Some(TooSimple) ==> !FourDifferent(password))
  {
    FourDifferentIff(password);
  }

  // ------------------------------------------------------------ password changes

  /** The session's account changes its password exactly when old, new and policy check out. */
  ghost predicate ChangePasswordMeans(env: Env, before: Db, now: Time, p: Principal, current: string,
                                      replacement: string, hash: string, after: Db, r: Result<Principal, AdminError>) {
    var known := p.username in before.users && env.verify(current, before.users[p.username].passwordHash);
    var same := known && env.verify(replacement, before.users[p.username].passwordHash);
    && (r.Ok? <==> known && !same && MeetsPolicy(env, replacement, p.username))
    && (r == Err(WrongPassword) <==> !known)
    && (r == Err(SamePassword) <==> same)
    && (r.Err? ==> NothingHappened(before, after))
    && (r.Ok? ==>
          && OnlyAccount(before, after, p.username) && p.username in after.users
          && var row, row' := before.users[p.username], after.users[p.username];
             && row'.passwordHash == hash && !row'.mustChangePassword
             && row'.sessionVersion == row.sessionVersion + 1
             && row'.role == row.role && row'.isActive == row.isActive && row'.displayName == row.displayName
             && SameCounter(row, row') && row'.lastLoginAt == row.lastLoginAt
             && Describes(r.value, p.username, row')
             && r.value.authenticatedAt == p.authenticatedAt && r.value.lastActivityAt == now
             && Logged(before, after, p.username, PasswordChanged, now))
  }

  lemma ChangePasswordOutcome(env: Env, db: Db, now: Time, p: Principal, current: string, replacement: string,
                              hash: string)
    ensures var (after, r) := ChangePasswordBlock(env, db, now, p, current, replacement, hash);
            ChangePasswordMeans(env, db, now, p, current, replacement, hash, after, r)
  {
    PolicyIff(env, replacement, p.username);
  }

  // ------------------------------------------------------------- administration

  /** What the administrator is shown of a row. */
  predicate Shows(view: UserView, name: Username, row: User, now: Time) {
    && view.username == name && view.displayName == row.displayName && view.role == row.role
    && view.isActive == row.isActive && view.isLocked == LockedNow(row, now)
    && view.mustChangePassword == row.mustChangePassword && view.lastLoginAt == row.lastLoginAt
  }

  /** An account is created exactly under a good, unused name, with a shown name and a good password. */
  ghost predicate CreateMeans(env: Env, before: Db, now: Time, actor: string, username: string, displayName: string,
                              role: Role, password: string, hash: string, mustChange: bool, after: Db,
                              r: Result<UserView, AdminError>) {
    var name, shown := env.Normalize(username), Strip(displayName);
    && (r.Ok? <==> ValidUsername(name) && 1 <= |shown| <= 128 && name !in before.users
                   && MeetsPolicy(env, password, name))
    && (r == Err(BadUsername) <==> !ValidUsername(name))
    && (r == Err(BadDisplayName) ==> !(1 <= |shown| <= 128))
    && (r == Err(DuplicateUsername) ==> name in before.users)
    && (r.Err? ==> NothingHappened(before, after))
    && (r.Ok? ==>
          && OnlyAccount(before, after, name) && name in after.users
          && var row := after.users[name];
             && row.passwordHash == hash && row.mustChangePassword == mustChange
             && row.displayName == shown && row.role == role && row.isActive
             && row.failedAttempts == 0 && row.lockedUntil.None? && row.lastLoginAt.None? && row.sessionVersion == 1
             && Shows(r.value, name, row, now)
             && Logged(before, after, actor, UserCreated(env.sanitize(name), role), now))
  }

  lemma CreateOutcome(env: Env, db: Db, now: Time, actor: string, username: string, displayName: string,
                      role: Role, password: string, hash: string, mustChange: bool)
    ensures var (after, r) := CreateBlock(env, db, now, actor, username, displayName, role, password, hash, mustChange);
            CreateMeans(env, db, now, actor, username, displayName, role, password, hash, mustChange, after, r)
  {
    PolicyIff(env, password, env.Normalize(username));
  }

  /** Acting on an account: it must exist and be another one than the caller's. */
  predicate TargetMeans(users: map<Username, User>, caller: Username, target: Username, r: Result<UserView, AdminError>)
  {
    && (r == Err(UserNotFound) <==> target !in users)
    && (r == Err(SelfModification) <==> target in users && target == caller)
  }

  /** Taking this account away would leave no active administrator. */
  ghost predicate OnlyAdmin(users: map<Username, User>, target: Username) {
    && target in users && users[target].role == Admin && users[target].isActive
    && forall name :: name in users && name != target ==> !(users[name].role == Admin && users[name].isActive)
  }

  lemma OnlyAdminIff(users: map<Username, User>, target: Username)
    requires target in users && users[target].role == Admin && users[target].isActive
    ensures OnlyAdmin(users, target) <==> |ActiveAdmins(users)| <= 1
  {
    var admins := ActiveAdmins(users);
    if OnlyAdmin(users, target) {
      assert admins == {target};
    } else {
      var other :| other in users && other != target && users[other].role == Admin && users[other].isActive;
      SubsetIsSmaller({target, other}, admins);
    }
  }

  ghost predicate ChangeRoleMeans(env: Env, before: Db, now: Time, caller: Username, target: Username, newRole: Role,
                                  after: Db, r: Result<UserView, AdminError>) {
    && TargetMeans(before.users, caller, target, r)
    && (r == Err(LastAdministrator) <==>
          target != caller && OnlyAdmin(before.users, target) && newRole != Admin)
    && (r.Err? ==> r.error in {UserNotFound, SelfModification, LastAdministrator} && NothingHappened(before, after))
    && (r.Ok? ==>
          && target in after.users && Shows(r.value, target, after.users[target], now)
          && if before.users[target].role == newRole then NothingHappened(before, after)
             else
               && OnlyAccount(before, after, target)
               && var row, row' := before.users[target], after.users[target];
                  && row'.role == newRole && row'.sessionVersion == row.sessionVersion + 1
                  && row'.passwordHash == row.passwordHash && row'.mustChangePassword == row.mustChangePassword
                  && row'.isActive == row.isActive && row'.displayName == row.displayName
                  && SameCounter(row, row') && row'.lastLoginAt == row.lastLoginAt
                  && Logged(before, after, caller, UserRoleChanged(env.sanitize(target), row.role, newRole), now))
  }

  lemma ChangeRoleOutcome(env: Env, db: Db, now: Time, p: Principal, target: Username, newRole: Role)
    ensures var (after, r) := ChangeRoleBlock(env, db, now, p, target, newRole);
            ChangeRoleMeans(env, db, now, p.username, target, newRole, after, r)
  {
    if target in db.users && db.users[target].role == Admin && db.users[target].isActive {
      OnlyAdminIff(db.users, target);
    }
  }

  ghost predicate SetActiveMeans(env: Env, before: Db, now: Time, caller: Username, target: Username, active: bool,
                                 after: Db, r: Result<UserView, AdminError>) {
    && TargetMeans(before.users, caller, target, r)
    && (r == Err(LastAdministrator) <==> target != caller && OnlyAdmin(before.users, target) && !active)
    && (r.Err? ==> r.error in {UserNotFound, SelfModification, LastAdministrator} && NothingHappened(before, after))
    && (r.Ok? ==>
          && target in after.users && Shows(r.value, target, after.users[target], now)
          && if before.users[target].isActive == active then NothingHappened(before, after)
             else
               && OnlyAccount(before, after, target)
               && var row, row' := before.users[target], after.users[target];
                  && row'.isActive == active && row'.sessionVersion == row.sessionVersion + 1
                  && row'.passwordHash == row.passwordHash && row'.mustChangePassword == row.mustChangePassword
                  && row'.role == row.role && row'.displayName == row.displayName
                  && row'.lastLoginAt == row.lastLoginAt
                  && (if active then row'.failedAttempts == 0 && row'.lockedUntil.None? else SameCounter(row, row'))
                  && var shown := env.sanitize(target);
                     var body := if active then UserActivated(shown) else UserDeactivated(shown);
                     Logged(before, after, caller, body, now))
  }

  lemma SetActiveOutcome(env: Env, db: Db, now: Time, p: Principal, target: Username, active: bool)
    ensures var (after, r) := SetActiveBlock(env, db, now, p, target, active);
            SetActiveMeans(env, db, now, p.username, target, active, after, r)
  {
    if target in db.users && db.users[target].role == Admin && db.users[target].isActive {
      OnlyAdminIff(db.users, target);
    }
  }

  ghost predicate ResetPasswordMeans(env: Env, before: Db, now: Time, caller: Username, target: Username,
                                     temporary: string, hash: string, after: Db, r: Result<UserView, AdminError>) {
    && TargetMeans(before.users, caller, target, r)
    && (r.Ok? <==> target in before.users && target != caller && MeetsPolicy(env, temporary, target))
    && (r.Err? ==> NothingHappened(before, after))
    && (r.Ok? ==>
          && OnlyAccount(before, after, target) && target in after.users
          && Shows(r.value, target, after.users[target], now)
          && var row, row' := before.users[target], after.users[target];
             && row'.passwordHash == hash && row'.mustChangePassword
             && row'.failedAttempts == 0 && row'.lockedUntil.None? && row'.sessionVersion == row.sessionVersion + 1
             && row'.role == row.role && row'.isActive == row.isActive && row'.displayName == row.displayName
             && row'.lastLoginAt == row.lastLoginAt
             && Logged(before, after, caller, UserPasswordReset(env.sanitize(target)), now))
  }

  lemma ResetPasswordOutcome(env: Env, db: Db, now: Time, p: Principal, target: Username, temporary: string,
                             hash: string)
    ensures var (after, r) := ResetPasswordBlock(env, db, now, p, target, temporary, hash);
            ResetPasswordMeans(env, db, now, p.username, target, temporary, hash, after, r)
  {
    PolicyIff(env, temporary, target);
  }
}
