/**
 The authentication services as classes over the open database: `AuthService`,
 `Authorizer`, `UserAdminService` and the governance half of
 `SecuredAssessmentService`. Each public call re-validates the caller's session in one
 block and then runs its own block; `now` is the clock reading of the call.
 */
module AccountServices {
  import opened Prelude
  import opened Permissions
  import opened Store
  import opened Text
  import opened Accounts
  import opened AccountOutcomes
  import opened Governance

  class AuthService {
    const env: Env
    const db: Database

    constructor (env: Env, db: Database)
      ensures this.env == env && this.db == db
    {
      this.env := env;
      this.db := db;
    }

    method Login(username: string, password: string, now: Time) returns (r: Option<Principal>)
      modifies db
      ensures (db.State(), r) == LoginBlock(env, old(db.State()), now, username, password)
      ensures LoginMeans(env, old(db.State()), now, env.Normalize(username), password, db.State(), r)
    {
      LoginOutcome(env, db.State(), now, username, password);
      var name := env.Normalize(username);
      if name !in db.users {
        db.Record(now, ANONYMOUS_ACTOR, UserLoginFailed(UnknownAccount));
        return None;
      }
      var user := db.users[name];
      if user.lockedUntil.Some? && now < user.lockedUntil.value {
        db.Record(now, name, UserLoginFailed(AccountLocked));
        return None;
      }
      if !user.isActive {
        db.Record(now, name, UserLoginFailed(AccountInactive));
        return None;
      }
      if !env.verify(password, user.passwordHash) {
        user := user.(failedAttempts := user.failedAttempts + 1);
        if user.failedAttempts >= MAX_FAILED_ATTEMPTS {
          user := user.(lockedUntil := Some(now + LOCKOUT_DURATION));
          user := user.(failedAttempts := 0);
          db.users := db.users[name := user];
          db.Record(now, name, UserLockedOut(user.lockedUntil.value));
        } else {
          db.users := db.users[name := user];
        }
        db.Record(now, name, UserLoginFailed(InvalidPassword));
        return None;
      }
      user := user.(failedAttempts := 0);
      user := user.(lockedUntil := None);
      user := user.(lastLoginAt := Some(now));
      db.users := db.users[name := user];
      db.Record(now, name, UserLogin(user.role));
      return Some(PrincipalFor(name, user, now, now));
    }

    method Logout(principal: Principal, now: Time)
      modifies db
      ensures db.State() == LogoutBlock(old(db.State()), now, principal)
      ensures Logged(old(db.State()), db.State(), principal.username, UserLogout, now)
      ensures db.users == old(db.users) && db.findings == old(db.findings) && db.scores == old(db.scores)
    {
      db.Record(now, principal.username, UserLogout);
    }

    method ValidateSession(principal: Principal, now: Time) returns (r: Result<Principal, CallError>)
      modifies db
      ensures (db.State(), r) == ValidateBlock(env, old(db.State()), now, principal)
      ensures ValidateMeans(env, old(db.State()), now, principal, db.State(), r)
    {
      ValidateOutcome(env, db.State(), now, principal);
      var name := principal.username;
      if now - principal.lastActivityAt > env.idleTimeout {
        db.Record(now, name, SessionExpired);
        return Err(Expired);
      }
      if name !in db.users || !db.users[name].isActive || db.users[name].sessionVersion != principal.sessionVersion {
        db.Record(now, name, SessionInvalidated(name in db.users && !db.users[name].isActive));
        return Err(Invalidated);
      }
      var user := db.users[name];
      return Ok(principal.(displayName := user.displayName, role := user.role,
                           mustChangePassword := user.mustChangePassword, lastActivityAt := now));
    }

    method ChangeOwnPassword(principal: Principal, current: string, replacement: string, replacementHash: string,
                             now: Time)
      returns (r: Result<Principal, CallError>)
      modifies db
      ensures var (db1, validated) := ValidateBlock(env, old(db.State()), now, principal);
              if validated.Err? then db.State() == db1 && r == validated
              else
                var (db2, changed) := ChangePasswordBlock(env, db1, now, validated.value, current, replacement,
                                                          replacementHash);
                && db.State() == db2 && r == (if changed.Ok? then Ok(changed.value) else Err(Refused(changed.error)))
                && ChangePasswordMeans(env, db1, now, validated.value, current, replacement, replacementHash, db2,
                                       changed)
    {
      ghost var (_, passed) := ValidateBlock(env, db.State(), now, principal);
      if passed.Ok? {
        ChangePasswordOutcome(env, db.State(), now, passed.value, current, replacement, replacementHash);
      }
      var validated := ValidateSession(principal, now);
      if validated.Err? {
        return validated;
      }
      var name := validated.value.username;
      if name !in db.users || !env.verify(current, db.users[name].passwordHash) {
        return Err(Refused(WrongPassword));
      }
      if env.verify(replacement, db.users[name].passwordHash) {
        return Err(Refused(SamePassword));
      }
      var problem := CheckPassword(env, replacement, name);
      if problem.Some? {
        return Err(Refused(BadPassword(problem.value)));
      }
      var user := db.users[name];
      user := user.(passwordHash := replacementHash);
      user := user.(mustChangePassword := false);
      user := user.(sessionVersion := user.sessionVersion + 1);
      db.users := db.users[name := user];
      db.Record(now, name, PasswordChanged);
      return Ok(PrincipalFor(name, user, now, validated.value.authenticatedAt));
    }
  }

  class Authorizer {
    const auth: AuthService

    constructor (auth: AuthService)
      ensures this.auth == auth
    {
      this.auth := auth;
    }

    method Require(principal: Principal, permission: Permission, now: Time) returns (r: Result<Principal, CallError>)
      modifies auth.db
      ensures (auth.db.State(), r) == RequireBlock(auth.env, old(auth.db.State()), now, principal, permission)
      ensures RequireMeans(auth.env, old(auth.db.State()), now, principal, permission, auth.db.State(), r)
    {
      RequireOutcome(auth.env, auth.db.State(), now, principal, permission);
      r := auth.ValidateSession(principal, now);
      if r.Err? {
        return;
      }
      var reason: Option<DenialReason> := None;
      if r.value.mustChangePassword {
        reason := Some(PasswordChangeRequired);
      } else if !Can(r.value.role, permission) {
        reason := Some(RoleNotPermitted);
      }
      if reason.None? {
        return;
      }
      auth.db.Record(now, r.value.username, AccessDenied(permission, r.value.role, reason.value));
      return Err(Denied(reason.value));
    }
  }

  /** A protected call: the guard block, then the call's own block under the guarded principal. */
  ghost predicate GuardedCall<T>(
    env: Env, before: Db, now: Time, principal: Principal, permission: Permission,
    block: (Db, Principal) -> (Db, Result<T, AdminError>), after: Db, r: Result<T, CallError>)
  {
    var (db1, guard) := RequireBlock(env, before, now, principal, permission);
    if guard.Err? then after == db1 && r == Err(guard.error)
    else
      var (db2, outcome) := block(db1, guard.value);
      after == db2 && r == if outcome.Ok? then Ok(outcome.value) else Err(Refused(outcome.error))
  }

  class UserAdminService {
    const authz: Authorizer

    constructor (authz: Authorizer)
      ensures this.authz == authz
    {
      this.authz := authz;
    }

    method CreateUser(principal: Principal, username: string, displayName: string, role: Role,
                      password: string, passwordHash: string, mustChange: bool, now: Time)
      returns (r: Result<UserView, CallError>)
      modifies authz.auth.db
      ensures GuardedCall(authz.auth.env, old(authz.auth.db.State()), now, principal, ManageUsers,
                          (d: Db, p: Principal) =>
                            CreateBlock(authz.auth.env, d, now, p.username, username, displayName, role, password,
                                        passwordHash, mustChange),
                          authz.auth.db.State(), r)
    {
      var guard := authz.Require(principal, ManageUsers, now);
      if guard.Err? {
        return Err(guard.error);
      }
      var created := Create(guard.value.username, username, displayName, role, password, passwordHash, mustChange, now);
      return if created.Ok? then Ok(created.value) else Err(Refused(created.error));
    }

    method BootstrapUser(username: string, displayName: string, role: Role, password: string, passwordHash: string,
                         actor: string, now: Time)
      returns (r: Result<UserView, AdminError>)
      modifies authz.auth.db
      ensures (authz.auth.db.State(), r)
              == BootstrapBlock(authz.auth.env, old(authz.auth.db.State()), now, username, displayName, role, password,
                                passwordHash, actor)
    {
      if !SystemActor(actor) {
        return Err(CommandLineOnly);
      }
      r := Create(actor, username, displayName, role, password, passwordHash, false, now);
    }

    /** `_create`, and the audit event both of its callers write. */
    method Create(actor: string, username: string, displayName: string, role: Role, password: string,
                  passwordHash: string, mustChange: bool, now: Time)
      returns (r: Result<UserView, AdminError>)
      modifies authz.auth.db
      ensures (authz.auth.db.State(), r)
              == CreateBlock(authz.auth.env, old(authz.auth.db.State()), now, actor, username, displayName, role,
                             password, passwordHash, mustChange)
      ensures CreateMeans(authz.auth.env, old(authz.auth.db.State()), now, actor, username, displayName, role, password,
                          passwordHash, mustChange, authz.auth.db.State(), r)
    {
      CreateOutcome(authz.auth.env, authz.auth.db.State(), now, actor, username, displayName, role, password,
                    passwordHash, mustChange);
      var env, db := authz.auth.env, authz.auth.db;
      var name := env.Normalize(username);
      if !ValidUsername(name) {
        return Err(BadUsername);
      }
      var shown := Strip(displayName);
      if |shown| == 0 || |shown| > 128 {
        return Err(BadDisplayName);
      }
      if name in db.users {
        return Err(DuplicateUsername);
      }
      var problem := CheckPassword(env, password, name);
      if problem.Some? {
        return Err(BadPassword(problem.value));
      }
      var user := User(shown, passwordHash, role, true, mustChange, 0, None, 1, None);
      db.users := db.users[name := user];
      db.Record(now, actor, UserCreated(env.sanitize(name), user.role));
      return Ok(ViewOf(name, user, now));
    }

    method ChangeRole(principal: Principal, target: Username, newRole: Role, now: Time)
      returns (r: Result<UserView, CallError>)
      modifies authz.auth.db
      ensures GuardedCall(authz.auth.env, old(authz.auth.db.State()), now, principal, ManageUsers,
                          (d: Db, p: Principal) => ChangeRoleBlock(authz.auth.env, d, now, p, target, newRole),
                          authz.auth.db.State(), r)
    {
      var guard := authz.Require(principal, ManageUsers, now);
      if guard.Err? {
        return Err(guard.error);
      }
      var db := authz.auth.db;
      var problem := Target(db.State(), guard.value, target);
      if problem.Some? {
        return Err(Refused(problem.value));
      }
      var user := db.users[target];
      var oldRole := user.role;
      if oldRole == newRole {
        return Ok(ViewOf(target, user, now));
      }
      if oldRole == Admin && user.isActive && |ActiveAdmins(db.users)| <= 1 {
        return Err(Refused(LastAdministrator));
      }
      user := user.(role := newRole);
      user := user.(sessionVersion := user.sessionVersion + 1);
      db.users := db.users[target := user];
      db.Record(now, guard.value.username, UserRoleChanged(authz.auth.env.sanitize(target), oldRole, newRole));
      return Ok(ViewOf(target, user, now));
    }

    method SetActive(principal: Principal, target: Username, active: bool, now: Time)
      returns (r: Result<UserView, CallError>)
      modifies authz.auth.db
      ensures GuardedCall(authz.auth.env, old(authz.auth.db.State()), now, principal, ManageUsers,
                          (d: Db, p: Principal) => SetActiveBlock(authz.auth.env, d, now, p, target, active),
                          authz.auth.db.State(), r)
    {
      var guard := authz.Require(principal, ManageUsers, now);
      if guard.Err? {
        return Err(guard.error);
      }
      var db := authz.auth.db;
      var problem := Target(db.State(), guard.value, target);
      if problem.Some? {
        return Err(Refused(problem.value));
      }
      var user := db.users[target];
      if user.isActive == active {
        return Ok(ViewOf(target, user, now));
      }
      if !active && user.role == Admin && |ActiveAdmins(db.users)| <= 1 {
        return Err(Refused(LastAdministrator));
      }
      user := user.(isActive := active);
      user := user.(sessionVersion := user.sessionVersion + 1);
      if active {
        user := user.(failedAttempts := 0);
        user := user.(lockedUntil := None);
      }
      db.users := db.users[target := user];
      var name := authz.auth.env.sanitize(target);
      db.Record(now, guard.value.username, if active then UserActivated(name) else UserDeactivated(name));
      return Ok(ViewOf(target, user, now));
    }

    method ResetPassword(principal: Principal, target: Username, temporary: string, temporaryHash: string, now: Time)
      returns (r: Result<UserView, CallError>)
      modifies authz.auth.db
      ensures GuardedCall(authz.auth.env, old(authz.auth.db.State()), now, principal, ManageUsers,
                          (d: Db, p: Principal) =>
                            ResetPasswordBlock(authz.auth.env, d, now, p, target, temporary, temporaryHash),
                          authz.auth.db.State(), r)
    {
      var guard := authz.Require(principal, ManageUsers, now);
      if guard.Err? {
        return Err(guard.error);
      }
      var db := authz.auth.db;
      var problem := Target(db.State(), guard.value, target);
      if problem.Some? {
        return Err(Refused(problem.value));
      }
      var weakness := CheckPassword(authz.auth.env, temporary, target);
      if weakness.Some? {
        return Err(Refused(BadPassword(weakness.value)));
      }
      var user := db.users[target];
      user := user.(passwordHash := temporaryHash);
      user := user.(mustChangePassword := true);
      user := user.(failedAttempts := 0);
      user := user.(lockedUntil := None);
      user := user.(sessionVersion := user.sessionVersion + 1);
      db.users := db.users[target := user];
      db.Record(now, guard.value.username, UserPasswordReset(authz.auth.env.sanitize(target)));
      return Ok(ViewOf(target, user, now));
    }
  }

  /** A governance call's outcome: refused by the guard, or whatever the repository said. */
  datatype Governed<+T> = Barred(why: CallError) | Done(outcome: Result<Option<T>, GovernanceError>)

  class SecuredAssessmentService {
    const authz: Authorizer
    const governance: GovernanceRepository

    constructor (authz: Authorizer, governance: GovernanceRepository)
      ensures this.authz == authz && this.governance == governance
    {
      this.authz := authz;
      this.governance := governance;
    }

    /** The decision's reviewer is always the authenticated caller. */
    method ReviewFinding(principal: Principal, findingId: string, newStatus: ReviewStatus, reason: Option<string>,
                         now: Time)
      returns (r: Governed<Finding>)
      requires governance.db == authz.auth.db && governance.sanitize == authz.auth.env.sanitize
      modifies authz.auth.db
      ensures var env := authz.auth.env;
              var (db1, guard) := RequireBlock(env, old(authz.auth.db.State()), now, principal, ReviewFindings);
              if guard.Err? then authz.auth.db.State() == db1 && r == Barred(guard.error)
              else
                var decision := ReviewDecision(findingId, newStatus, guard.value.username, reason);
                var (db2, outcome) := ReviewBlock(env.sanitize, db1, now, decision);
                authz.auth.db.State() == db2 && r == Done(outcome)
    {
      var guard := authz.Require(principal, ReviewFindings, now);
      if guard.Err? {
        return Barred(guard.error);
      }
      var outcome := governance.ReviewFinding(ReviewDecision(findingId, newStatus, guard.value.username, reason), now);
      return Done(outcome);
    }

    method OverrideScore(principal: Principal, originalScoreId: string, scanId: string, domain: string,
                         newCategory: DecisionCategory, reason: string, newWeightedScore: Option<real>,
                         newId: string, now: Time)
      returns (r: Governed<Score>)
      requires governance.db == authz.auth.db && governance.sanitize == authz.auth.env.sanitize
      modifies authz.auth.db
      ensures var env := authz.auth.env;
              var (db1, guard) := RequireBlock(env, old(authz.auth.db.State()), now, principal, OverrideScores);
              if guard.Err? then authz.auth.db.State() == db1 && r == Barred(guard.error)
              else
                var decision := OverrideDecision(originalScoreId, scanId, domain, newCategory, guard.value.username,
                                                 reason, newWeightedScore);
                var (db2, outcome) := OverrideBlock(env.sanitize, db1, now, decision, newId);
                authz.auth.db.State() == db2 && r == Done(outcome)
    {
      var guard := authz.Require(principal, OverrideScores, now);
      if guard.Err? {
        return Barred(guard.error);
      }
      var outcome := governance.OverrideScore(
        OverrideDecision(originalScoreId, scanId, domain, newCategory, guard.value.username, reason, newWeightedScore),
            newId, now);
      return Done(outcome);
    }
  }
}
