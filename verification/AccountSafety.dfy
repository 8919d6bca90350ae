/**
 Safety over whole runs: an administrator always remains, stale sessions stay dead, and
 every governed decision is attributed to someone whose role allowed it.
 */
module AccountSafety {
  import opened Prelude
  import opened Permissions
  import opened Store
  import opened Accounts
  import opened AccountLog
  import opened Governance
  import opened AccountRuns

  // ------------------------------------------------- an administrator remains

  ghost predicate HasAdmin(users: map<Username, User>) {
    exists name :: name in users && IsActiveAdmin(users[name])
  }

  lemma AnotherAdmin(users: map<Username, User>, name: Username)
    requires |ActiveAdmins(users)| > 1
    ensures exists other :: other in ActiveAdmins(users) && other != name
  {
    var rest := ActiveAdmins(users) - {name};
    assert ActiveAdmins(users) <= rest + {name};
    assert |rest + {name}| <= |rest| + 1;
    var other :| other in rest;
  }

  /** Rewriting one row keeps an administrator if the row, or another one, still is one. */
  lemma RowKeepsAdmin(users: map<Username, User>, name: Username, row: User)
    requires HasAdmin(users)
    requires name in users && IsActiveAdmin(users[name]) && !IsActiveAdmin(row) ==> |ActiveAdmins(users)| > 1
    ensures HasAdmin(users[name := row])
  {
    var after := users[name := row];
    if name in ActiveAdmins(users) && !IsActiveAdmin(row) {
      AnotherAdmin(users, name);
      var other :| other in ActiveAdmins(users) && other != name;
      assert other in after && IsActiveAdmin(after[other]);
    } else {
      var admin :| admin in users && IsActiveAdmin(users[admin]);
      assert admin in after && IsActiveAdmin(after[admin]);
    }
  }

  /**
   No block, run in any state and under any authorisation, removes the last active
   administrator: the count guard inside the mutation is enough on its own.
   */
  lemma StepKeepsAdmin(env: Env, db: Db, t: Timed)
    requires HasAdmin(db.users)
    ensures HasAdmin(NextDb(env, db, t).users)
  {
    var after := NextDb(env, db, t).users;
    if after != db.users {
      var name := ChangedRow(env, db, t);
      RowKeepsAdmin(db.users, name, after[name]);
    }
  }

  /** Every block rewrites at most one row of the users table. */
  lemma ChangedRow(env: Env, db: Db, t: Timed) returns (name: Username)
    requires NextDb(env, db, t).users != db.users
    ensures name in NextDb(env, db, t).users
    ensures NextDb(env, db, t).users == db.users[name := NextDb(env, db, t).users[name]]
    ensures name in db.users && IsActiveAdmin(db.users[name]) && !IsActiveAdmin(NextDb(env, db, t).users[name])
            ==> |ActiveAdmins(db.users)| > 1
  {
    match t.step
    case SignIn(username, _) => name := env.Normalize(username);
    case ChangePassword(p, _, _, _) => name := p.username;
    case FinishPasswordChange(p, _, _, _) => name := p.username;
    case Bootstrap(username, _, _, _, _, _) => name := env.Normalize(username);
    case CreateUser(_, username, _, _, _, _, _) => name := env.Normalize(username);
    case ChangeRole(_, target, _) => name := target;
    case SetActive(_, target, _) => name := target;
    case ResetPassword(_, target, _, _) => name := target;
  }

  /**
   Once an active administrator exists, every later state of every run has one, even
   when several administrators were authorised before any of their changes ran.
   */
  lemma {:induction false} AnAdministratorAlwaysRemains(env: Env, steps: seq<Timed>, k: nat)
    requires k <= |steps|
    requires HasAdmin(Exec(env, steps[..k]).db.users)
    ensures HasAdmin(Exec(env, steps).db.users)
  {
    if k < |steps| {
      var n := |steps| - 1;
      assert steps[..n][..k] == steps[..k];
      AnAdministratorAlwaysRemains(env, steps[..n], k);
      StepKeepsAdmin(env, Exec(env, steps[..n]).db, steps[n]);
    } else {
      assert steps[..k] == steps;
    }
  }

  // ----------------------------------------------------------------- sessions

  /** Everything a session caches about its account is still what the row says. */
  predicate UpToDate(p: Principal, row: User) {
    p.role == row.role && p.mustChangePassword == row.mustChangePassword
  }

  /** The log only grows, accounts stay, and a change a session relies on raises the version. */
  ghost predicate Monotone(db: Db, db': Db) {
    && db.log <= db'.log
    && forall name :: name in db.users ==> name in db'.users && RowMonotone(db.users[name], db'.users[name])
  }

  predicate RowMonotone(row: User, row': User) {
    && row.sessionVersion <= row'.sessionVersion
    && (row.sessionVersion == row'.sessionVersion ==>
         row.role == row'.role && row.mustChangePassword == row'.mustChangePassword && row.isActive == row'.isActive)
  }

  lemma LoginMonotone(env: Env, db: Db, now: Time, username: string, password: string)
    ensures Monotone(db, LoginBlock(env, db, now, username, password).0)
  {}

  lemma RequireMonotone(env: Env, db: Db, now: Time, p: Principal, permission: Permission)
    ensures Monotone(db, ValidateBlock(env, db, now, p).0)
    ensures Monotone(db, RequireBlock(env, db, now, p, permission).0)
  {}

  lemma ChangePasswordMonotone(env: Env, db: Db, now: Time, p: Principal, current: string, replacement: string,
                               hash: string)
    ensures Monotone(db, ChangePasswordBlock(env, db, now, p, current, replacement, hash).0)
  {}

  lemma ChangeRoleMonotone(env: Env, db: Db, now: Time, p: Principal, target: Username, newRole: Role)
    ensures Monotone(db, ChangeRoleBlock(env, db, now, p, target, newRole).0)
  {}

  lemma SetActiveMonotone(env: Env, db: Db, now: Time, p: Principal, target: Username, active: bool)
    ensures Monotone(db, SetActiveBlock(env, db, now, p, target, active).0)
  {}

  lemma ResetPasswordMonotone(env: Env, db: Db, now: Time, p: Principal, target: Username, temporary: string,
                              hash: string)
    ensures Monotone(db, ResetPasswordBlock(env, db, now, p, target, temporary, hash).0)
  {}

  lemma StepMonotone(env: Env, db: Db, t: Timed)
    ensures Monotone(db, NextDb(env, db, t))
  {
    match t.step
    case SignIn(username, password) => LoginMonotone(env, db, t.now, username, password);
    case Validate(p) => RequireMonotone(env, db, t.now, p, ManageUsers);
    case Require(p, permission) => RequireMonotone(env, db, t.now, p, permission);
    case ChangePassword(p, current, replacement, hash) =>
      RequireMonotone(env, db, t.now, p, ManageUsers);
      var (db1, validated) := ValidateBlock(env, db, t.now, p);
      if validated.Ok? {
        ChangePasswordMonotone(env, db1, t.now, validated.value, current, replacement, hash);
      }
    case FinishPasswordChange(p, current, replacement, hash) =>
      ChangePasswordMonotone(env, db, t.now, p, current, replacement, hash);
    case ChangeRole(p, target, newRole) => ChangeRoleMonotone(env, db, t.now, p, target, newRole);
    case SetActive(p, target, active) => SetActiveMonotone(env, db, t.now, p, target, active);
    case ResetPassword(p, target, temporary, hash) => ResetPasswordMonotone(env, db, t.now, p, target, temporary, hash);
    case _ =>
  }

  /** A principal leaves a block exactly as the account stands after it. */
  lemma HandedMatchesRow(env: Env, db: Db, t: Timed)
    requires Handed(env, db, t).Some?
    ensures var p, users := Handed(env, db, t).value, NextDb(env, db, t).users;
            && p.username in users
            && p.sessionVersion == users[p.username].sessionVersion
            && UpToDate(p, users[p.username])
            && (!t.step.FinishPasswordChange? ==> users[p.username].isActive)
  {}

  /** A principal knows the version its account had when the principal was issued. */
  ghost predicate IssuedAtVersion(w: World, issue: Issue) {
    && issue.logged <= |w.db.log|
    && issue.principal.username in w.db.users
    && issue.principal.sessionVersion == 1 + Bumps(w.db.log[..issue.logged], issue.principal.username)
    && var row := w.db.users[issue.principal.username];
       issue.principal.sessionVersion == row.sessionVersion ==> UpToDate(issue.principal, row)
  }

  lemma IssueSurvives(env: Env, w: World, t: Timed, issue: Issue)
    requires Sound(w.db, w.clock) && IssuedAtVersion(w, issue)
    ensures IssuedAtVersion(Apply(env, w, t), issue)
  {
    StepMonotone(env, w.db, t);
    var log' := NextDb(env, w.db, t).log;
    assert log'[..issue.logged] == w.db.log[..issue.logged];
    VersionCountsBumps(w.db.log, issue.principal.username);
    NoBumpBetween(w.db.log, issue.logged, issue.principal.username);
  }

  lemma NewIssue(env: Env, w: World, t: Timed)
    requires Sound(NextDb(env, w.db, t), t.now)
    requires Handed(env, w.db, t).Some?
    ensures var issue := Issue(Handed(env, w.db, t).value, |NextDb(env, w.db, t).log|);
            IssuedAtVersion(Apply(env, w, t), issue)
  {
    HandedMatchesRow(env, w.db, t);
    var db := NextDb(env, w.db, t);
    assert db.log[..|db.log|] == db.log;
    VersionCountsBumps(db.log, Handed(env, w.db, t).value.username);
  }

  lemma {:induction false} EveryIssueIsVersioned(env: Env, steps: seq<Timed>)
    requires ValidRun(env, steps) && env.KeepsUsernames()
    ensures forall issue :: issue in Exec(env, steps).issued ==> IssuedAtVersion(Exec(env, steps), issue)
  {
    if steps != [] {
      var n := |steps| - 1;
      RunPrefix(env, steps, n);
      EveryRunIsSound(env, steps[..n]);
      EveryRunIsSound(env, steps);
      EveryIssueIsVersioned(env, steps[..n]);
      var w := Exec(env, steps[..n]);
      if Handed(env, w.db, steps[n]).Some? {
        NewIssue(env, w, steps[n]);
      }
      forall issue | issue in w.issued
        ensures IssuedAtVersion(Exec(env, steps), issue) {
        IssueSurvives(env, w, steps[n], issue);
      }
    }
  }

  /** No role change, activation, deactivation, reset or password change since the issue. */
  ghost predicate UntouchedSince(log: seq<AuditEvent>, issue: Issue) {
    forall i :: issue.logged <= i < |log| ==> !BumpsVersion(log[i], issue.principal.username)
  }

  /**
   What a principal is worth, in every run, interleaved or not: its version is at most
   its row's; equality means that the role and the pending-password flag it carries are
   current and that nothing has touched the account since; and only then can the session
   validate. In particular deactivating and reactivating an account never revives a
   session from before.
   */
  lemma StaleSessionsStayDead(env: Env, steps: seq<Timed>, issue: Issue, now: Time)
    requires ValidRun(env, steps) && env.KeepsUsernames()
    requires issue in Exec(env, steps).issued
    ensures var db, p := Exec(env, steps).db, issue.principal;
            && p.username in db.users
            && p.sessionVersion <= db.users[p.username].sessionVersion
            && (p.sessionVersion == db.users[p.username].sessionVersion <==> UntouchedSince(db.log, issue))
            && (p.sessionVersion == db.users[p.username].sessionVersion ==> UpToDate(p, db.users[p.username]))
            && (ValidateBlock(env, db, now, p).1.Ok? ==> UntouchedSince(db.log, issue))
  {
    EveryRunIsSound(env, steps);
    EveryIssueIsVersioned(env, steps);
    var db := Exec(env, steps).db;
    VersionCountsBumps(db.log, issue.principal.username);
    NoBumpBetween(db.log, issue.logged, issue.principal.username);
  }

  lemma MonotoneChain(a: Db, b: Db, c: Db)
    requires Monotone(a, b) && Monotone(b, c)
    ensures Monotone(a, c)
  {
    forall name | name in a.users ensures name in c.users && RowMonotone(a.users[name], c.users[name]) {
      assert RowMonotone(a.users[name], b.users[name]) && RowMonotone(b.users[name], c.users[name]);
    }
  }

  lemma {:induction false} RunMonotone(env: Env, steps: seq<Timed>, k: nat)
    requires k <= |steps|
    ensures Monotone(Exec(env, steps[..k]).db, Exec(env, steps).db)
    ensures Exec(env, steps[..k]).issued <= Exec(env, steps).issued
  {
    if k < |steps| {
      var n := |steps| - 1;
      assert steps[..n][..k] == steps[..k];
      RunMonotone(env, steps[..n], k);
      StepMonotone(env, Exec(env, steps[..n]).db, steps[n]);
      MonotoneChain(Exec(env, steps[..k]).db, Exec(env, steps[..n]).db, Exec(env, steps).db);
    } else {
      assert steps[..k] == steps;
    }
  }

  /** The account is inactive, and the principal carries its current version or an older one. */
  ghost predicate Shut(db: Db, p: Principal) {
    p.username in db.users && !db.users[p.username].isActive && p.sessionVersion <= db.users[p.username].sessionVersion
  }

  /**
   A principal that once meets its account inactive is refused from then on, in every later
   state of the run, whatever is done to the account in between.
   */
  lemma ShutStaysShut(env: Env, steps: seq<Timed>, k: nat, p: Principal, now: Time)
    requires k <= |steps| && Shut(Exec(env, steps[..k]).db, p)
    ensures ValidateBlock(env, Exec(env, steps).db, now, p).1.Err?
  {
    RunMonotone(env, steps, k);
    assert RowMonotone(Exec(env, steps[..k]).db.users[p.username], Exec(env, steps).db.users[p.username]);
  }

  /** Step `k` handed out the principal of this issue. */
  ghost predicate IssuedBy(env: Env, steps: seq<Timed>, k: nat, issue: Issue) {
    && k < |steps|
    && Handed(env, Exec(env, steps[..k]).db, steps[k]) == Some(issue.principal)
    && issue.logged == |Exec(env, steps[..k + 1]).db.log|
  }

  lemma {:induction false} EveryIssueHasItsStep(env: Env, steps: seq<Timed>, issue: Issue) returns (k: nat)
    requires issue in Exec(env, steps).issued
    ensures IssuedBy(env, steps, k, issue)
  {
    var n := |steps| - 1;
    assert steps[..n + 1] == steps;
    if issue in Exec(env, steps[..n]).issued {
      k := EveryIssueHasItsStep(env, steps[..n], issue);
      assert steps[..n][..k] == steps[..k] && steps[..n][..k + 1] == steps[..k + 1];
    } else {
      k := n;
    }
  }

  /** In the state after `k` steps the named account is active. */
  ghost predicate ActiveAfter(env: Env, steps: seq<Timed>, k: nat, name: Username)
    requires k <= |steps|
  {
    name in Exec(env, steps[..k]).db.users && Exec(env, steps[..k]).db.users[name].isActive
  }

  /** The row right after the step that issued the principal, and the row now. */
  lemma RowsSinceIssue(env: Env, steps: seq<Timed>, k: nat, issue: Issue)
    requires IssuedBy(env, steps, k, issue)
    ensures var issued, current, p := Exec(env, steps[..k + 1]).db, Exec(env, steps).db, issue.principal;
            && issue in Exec(env, steps).issued
            && p.username in issued.users && p.username in current.users
            && p.sessionVersion == issued.users[p.username].sessionVersion
            && RowMonotone(issued.users[p.username], current.users[p.username])
            && (!steps[k].step.FinishPasswordChange? ==> issued.users[p.username].isActive)
  {
    assert steps[..k + 1][..k] == steps[..k];
    HandedMatchesRow(env, Exec(env, steps[..k]).db, steps[k]);
    RunMonotone(env, steps, k + 1);
  }

  /**
   Validation is exact in every run, interleaved or not: a session is accepted if and only
   if it is not idle too long, nothing has touched its account since the issue, and the
   account was active when the issuing step was done, as it is after every step but the
   second half of a password change.
   */
  lemma SessionValidIff(env: Env, steps: seq<Timed>, k: nat, issue: Issue, now: Time)
    requires ValidRun(env, steps) && env.KeepsUsernames() && IssuedBy(env, steps, k, issue)
    ensures ValidateBlock(env, Exec(env, steps).db, now, issue.principal).1.Ok?
            <==> now - issue.principal.lastActivityAt <= env.idleTimeout
                 && UntouchedSince(Exec(env, steps).db.log, issue)
                 && ActiveAfter(env, steps, k + 1, issue.principal.username)
    ensures !steps[k].step.FinishPasswordChange? ==> ActiveAfter(env, steps, k + 1, issue.principal.username)
    ensures UntouchedSince(Exec(env, steps).db.log, issue) ==>
              (ActiveAfter(env, steps, k + 1, issue.principal.username)
               <==> ActiveAfter(env, steps, |steps|, issue.principal.username))
  {
    assert steps[..|steps|] == steps;
    RowsSinceIssue(env, steps, k, issue);
    StaleSessionsStayDead(env, steps, issue, now);
  }

  /** If the principal is of its account's current version, the account is active. */
  ghost predicate CurrentMeansActive(w: World, issue: Issue) {
    issue.principal.username in w.db.users &&
    var row := w.db.users[issue.principal.username];
    issue.principal.sessionVersion == row.sessionVersion ==> row.isActive
  }

  /**
   The exact limit: the second block of a password change does not look at the active
   flag again, so the principal it issues is current for an active account if and only
   if the account is still active when that block runs.
   */
  lemma InterleavedChangeActiveIff(env: Env, w: World, t: Timed)
    requires t.step.FinishPasswordChange? && Handed(env, w.db, t).Some?
    requires Sound(NextDb(env, w.db, t), t.now)
    ensures var issue := Issue(Handed(env, w.db, t).value, |NextDb(env, w.db, t).log|);
            && issue in Apply(env, w, t).issued
            && (CurrentMeansActive(Apply(env, w, t), issue) <==> w.db.users[t.step.principal.username].isActive)
  {
    HandedMatchesRow(env, w.db, t);
  }

  /**
   The failing case: deactivated between the two blocks of their own password change, a
   user is handed a principal of the row's current version for an inactive account. It
   opens nothing, neither while the account is inactive nor after it is reactivated, which
   raises the version again; `ShutStaysShut` says so of every later state.
   */
  lemma DeactivationBetweenBlocksIsMissed(env: Env, db: Db, now: Time, admin: Principal, p: Principal,
                                          current: string, replacement: string, hash: string)
    requires p.username in db.users && admin.username != p.username
    requires var row := db.users[p.username];
             row.isActive && row.role != Admin && env.verify(current, row.passwordHash)
                 && !env.verify(replacement, row.passwordHash)
    requires CheckPassword(env, replacement, p.username).None?
    ensures var deactivated := SetActiveBlock(env, db, now, admin, p.username, false).0;
            var (after, handed) := ChangePasswordBlock(env, deactivated, now, p, current, replacement, hash);
            var reactivated := SetActiveBlock(env, after, now, admin, p.username, true).0;
            && handed.Ok?
            && !after.users[p.username].isActive
            && handed.value.sessionVersion == after.users[p.username].sessionVersion
            && Shut(after, handed.value)
            && ValidateBlock(env, after, now, handed.value).1.Err?
            && ValidateBlock(env, reactivated, now, handed.value).1.Err?
  {
    var deactivated := SetActiveBlock(env, db, now, admin, p.username, false).0;
    assert !deactivated.users[p.username].isActive;
  }

  // ------------------------------------------------------ separation of duties

  /** In the state after `k` steps the named account could exercise the permission. */
  ghost predicate CouldDo(env: Env, steps: seq<Timed>, k: nat, name: Username, permission: Permission)
    requires k <= |steps|
  {
    var users := Exec(env, steps[..k]).db.users;
    && name in users
    && users[name].isActive
    && !users[name].mustChangePassword
    && Can(users[name].role, permission)
  }

  /** Step `k - 1` is the guard that gave this principal this permission, and rightly so. */
  ghost predicate GuardPassed(env: Env, steps: seq<Timed>, k: nat, grant: Grant)
    requires 1 <= k <= |steps|
  {
    && steps[k - 1].step.Require?
    && steps[k - 1].step.permission == grant.permission
    && Handed(env, Exec(env, steps[..k - 1]).db, steps[k - 1]) == Some(grant.principal)
    && CouldDo(env, steps, k, grant.principal.username, grant.permission)
  }

  /** Some step of `past` is the guard behind the grant. */
  ghost predicate WasAuthorised(env: Env, past: seq<Timed>, grant: Grant) {
    exists k :: 1 <= k <= |past| && GuardPassed(env, past, k, grant)
  }

  lemma GuardStaysPassed(env: Env, steps: seq<Timed>, n: nat, k: nat, grant: Grant)
    requires 1 <= k <= n <= |steps| && GuardPassed(env, steps[..n], k, grant)
    ensures GuardPassed(env, steps, k, grant)
  {
    assert steps[..n][..k] == steps[..k] && steps[..n][..k - 1] == steps[..k - 1];
    assert steps[..n][k - 1] == steps[k - 1];
  }

  lemma AuthorisationPersists(env: Env, steps: seq<Timed>, n: nat, grant: Grant)
    requires n <= |steps| && WasAuthorised(env, steps[..n], grant)
    ensures WasAuthorised(env, steps, grant)
  {
    var k :| 1 <= k <= n && GuardPassed(env, steps[..n], k, grant);
    GuardStaysPassed(env, steps, n, k, grant);
  }

  /** The permission an event's author must have held; bootstrap actors are exempt. */
  function NeededFor(body: EventBody): Option<Permission> {
    match body
    case FindingReviewed(_, _) => Some(ReviewFindings)
    case ScoreOverridden(_, _, _) => Some(OverrideScores)
    case UserCreated(_, _) => Some(ManageUsers)
    case UserRoleChanged(_, _, _) => Some(ManageUsers)
    case UserActivated(_) => Some(ManageUsers)
    case UserDeactivated(_) => Some(ManageUsers)
    case UserPasswordReset(_) => Some(ManageUsers)
    case _ => None
  }

  /** Step `m` of the run wrote event `i` of its log. */
  ghost predicate WrittenAt(env: Env, steps: seq<Timed>, i: nat, m: nat) {
    m < |steps| && |Exec(env, steps[..m]).db.log| <= i < |Exec(env, steps[..m + 1]).db.log|
  }

  /** Step `m` acted under the author's own grant of the permission, earned before step `m`. */
  ghost predicate ActedUnder(env: Env, steps: seq<Timed>, m: nat, author: string, permission: Permission)
    requires m < |steps|
  {
    var used := GrantOf(steps[m].step);
    && used.Some?
    && used.value.principal.username == author
    && used.value.permission == permission
    && WasAuthorised(env, steps[..m], used.value)
  }

  ghost predicate Attributed(env: Env, steps: seq<Timed>, m: nat, e: AuditEvent)
    requires m < |steps|
  {
    var needed := NeededFor(e.body);
    || needed.None?
    || ActedUnder(env, steps, m, e.actor, needed.value)
    || (steps[m].step.Bootstrap? && e.body.UserCreated? && SystemActor(e.actor))
  }

  /** The log grew by events that need no permission, or that are this author's under this one. */
  ghost predicate AddsOnly(db: Db, db': Db, author: string, permission: Option<Permission>) {
    && db.log <= db'.log
    && forall i :: |db.log| <= i < |db'.log| && NeededFor(db'.log[i].body).Some? ==>
         NeededFor(db'.log[i].body) == permission && db'.log[i].actor == author
  }

  lemma SessionBlocksAdd(env: Env, db: Db, now: Time, p: Principal, permission: Permission)
    ensures AddsOnly(db, ValidateBlock(env, db, now, p).0, "", None)
    ensures AddsOnly(db, RequireBlock(env, db, now, p, permission).0, "", None)
  {}

  lemma LoginAdds(env: Env, db: Db, now: Time, username: string, password: string)
    ensures AddsOnly(db, LoginBlock(env, db, now, username, password).0, "", None)
  {}

  lemma ChangePasswordAdds(env: Env, db: Db, now: Time, p: Principal, current: string, replacement: string,
                           hash: string)
    ensures AddsOnly(db, ChangePasswordBlock(env, db, now, p, current, replacement, hash).0, "", None)
  {}

  lemma CreateAdds(env: Env, db: Db, now: Time, actor: string, username: string, displayName: string,
                   role: Role, password: string, hash: string, mustChange: bool)
    ensures var db' := CreateBlock(env, db, now, actor, username, displayName, role, password, hash, mustChange).0;
            && AddsOnly(db, db', actor, Some(ManageUsers))
            && forall i :: |db.log| <= i < |db'.log| ==> db'.log[i].body.UserCreated?
  {}

  lemma ChangeRoleAdds(env: Env, db: Db, now: Time, p: Principal, target: Username, newRole: Role)
    ensures AddsOnly(db, ChangeRoleBlock(env, db, now, p, target, newRole).0, p.username, Some(ManageUsers))
  {}

  lemma SetActiveAdds(env: Env, db: Db, now: Time, p: Principal, target: Username, active: bool)
    ensures AddsOnly(db, SetActiveBlock(env, db, now, p, target, active).0, p.username, Some(ManageUsers))
  {}

  lemma ResetPasswordAdds(env: Env, db: Db, now: Time, p: Principal, target: Username, temporary: string, hash: string)
    ensures AddsOnly(db, ResetPasswordBlock(env, db, now, p, target, temporary, hash).0, p.username, Some(ManageUsers))
  {}

  lemma ReviewAdds(sanitize: string -> string, db: Db, now: Time, review: ReviewDecision)
    ensures AddsOnly(db, ReviewBlock(sanitize, db, now, review).0, review.reviewedBy, Some(ReviewFindings))
  {}

  lemma OverrideAdds(sanitize: string -> string, db: Db, now: Time, decision: OverrideDecision, newId: string)
    ensures AddsOnly(db, OverrideBlock(sanitize, db, now, decision, newId).0, decision.reviewedBy, Some(OverrideScores))
  {}

  /** Who may appear as the author of the events one step writes. */
  ghost predicate StepAdds(w: World, t: Timed, db': Db) {
    var used := GrantOf(t.step);
    if t.step.Bootstrap? then
      && w.db.log <= db'.log
      && forall i :: |w.db.log| <= i < |db'.log| ==> db'.log[i].body.UserCreated? && SystemActor(db'.log[i].actor)
    else if used.Some? then AddsOnly(w.db, db', used.value.principal.username, Some(used.value.permission))
    else AddsOnly(w.db, db', "", None)
  }

  lemma NewEvents(env: Env, w: World, t: Timed)
    requires Enabled(w, t)
    ensures StepAdds(w, t, NextDb(env, w.db, t))
  {
    match t.step
    case SignIn(username, password) => LoginAdds(env, w.db, t.now, username, password);
    case Validate(p) => SessionBlocksAdd(env, w.db, t.now, p, ManageUsers);
    case Require(p, permission) => SessionBlocksAdd(env, w.db, t.now, p, permission);
    case ChangePassword(p, current, replacement, hash) =>
      SessionBlocksAdd(env, w.db, t.now, p, ManageUsers);
      var (db1, validated) := ValidateBlock(env, w.db, t.now, p);
      if validated.Ok? {
        ChangePasswordAdds(env, db1, t.now, validated.value, current, replacement, hash);
      }
    case FinishPasswordChange(p, current, replacement, hash) =>
      ChangePasswordAdds(env, w.db, t.now, p, current, replacement, hash);
    case Bootstrap(username, displayName, role, password, hash, actor) =>
      CreateAdds(env, w.db, t.now, actor, username, displayName, role, password, hash, false);
    case CreateUser(p, username, displayName, role, password, hash, mustChange) =>
      CreateAdds(env, w.db, t.now, p.username, username, displayName, role, password, hash, mustChange);
    case ChangeRole(p, target, newRole) => ChangeRoleAdds(env, w.db, t.now, p, target, newRole);
    case SetActive(p, target, active) => SetActiveAdds(env, w.db, t.now, p, target, active);
    case ResetPassword(p, target, temporary, hash) => ResetPasswordAdds(env, w.db, t.now, p, target, temporary, hash);
    case Review(p, findingId, newStatus, reason) =>
        ReviewAdds(env.sanitize, w.db, t.now, ReviewDecision(findingId, newStatus, p.username, reason));
    case OverrideScore(_, decision, newId) => OverrideAdds(env.sanitize, w.db, t.now, decision, newId);
    case SignOut(_) =>
    case Assess(_, _) =>
  }

  /** An authorisation is only ever granted to an account that holds the permission. */
  lemma GrantIsEarned(env: Env, db: Db, t: Timed)
    requires t.step.Require? && Handed(env, db, t).Some?
    ensures var p, users := Handed(env, db, t).value, NextDb(env, db, t).users;
            && p.username in users && users[p.username].isActive && !users[p.username].mustChangePassword
            && Can(users[p.username].role, t.step.permission)
  {}

  lemma GuardStepPasses(env: Env, steps: seq<Timed>, grant: Grant)
    requires steps != []
    requires var n := |steps| - 1;
             var handed := Handed(env, Exec(env, steps[..n]).db, steps[n]);
             steps[n].step.Require? && handed.Some? && grant == Grant(handed.value, steps[n].step.permission)
    ensures GuardPassed(env, steps, |steps|, grant)
  {
    var n := |steps| - 1;
    assert steps[..n + 1] == steps;
    GrantIsEarned(env, Exec(env, steps[..n]).db, steps[n]);
  }

  /** Every open grant comes from a guard that ran and passed for an account that held the permission. */
  lemma {:induction false} EveryGrantIsEarned(env: Env, steps: seq<Timed>, grant: Grant)
    requires grant in Exec(env, steps).granted
    ensures WasAuthorised(env, steps, grant)
  {
    var n := |steps| - 1;
    if grant in Exec(env, steps[..n]).granted {
      EveryGrantIsEarned(env, steps[..n], grant);
      AuthorisationPersists(env, steps, n, grant);
    } else {
      GuardStepPasses(env, steps, grant);
    }
  }

  lemma StepIsAttributed(env: Env, steps: seq<Timed>, i: nat)
    requires ValidRun(env, steps) && steps != []
    requires WrittenAt(env, steps, i, |steps| - 1) && i < |Exec(env, steps).db.log|
    ensures Attributed(env, steps, |steps| - 1, Exec(env, steps).db.log[i])
  {
    var n := |steps| - 1;
    NewEvents(env, Exec(env, steps[..n]), steps[n]);
    var used := GrantOf(steps[n].step);
    if used.Some? {
      EveryGrantIsEarned(env, steps[..n], used.value);
    }
  }

  lemma EarlierAttribution(env: Env, steps: seq<Timed>, n: nat, i: nat, m: nat)
    requires m < n <= |steps| && WrittenAt(env, steps[..n], i, m)
    ensures WrittenAt(env, steps, i, m)
    ensures forall e :: Attributed(env, steps[..n], m, e) ==> Attributed(env, steps, m, e)
  {
    assert steps[..n][..m] == steps[..m] && steps[..n][..m + 1] == steps[..m + 1];
  }

  /** Every event is written by a step whose author had, by then, earned the permission it needs. */
  lemma {:induction false} EveryEventIsAttributed(env: Env, steps: seq<Timed>, i: nat) returns (m: nat)
    requires ValidRun(env, steps) && i < |Exec(env, steps).db.log|
    ensures WrittenAt(env, steps, i, m) && Attributed(env, steps, m, Exec(env, steps).db.log[i])
  {
    var n := |steps| - 1;
    RunPrefix(env, steps, n);
    assert steps[..n + 1] == steps;
    if i < |Exec(env, steps[..n]).db.log| {
      m := EveryEventIsAttributed(env, steps[..n], i);
      EarlierAttribution(env, steps, n, i, m);
      NewEvents(env, Exec(env, steps[..n]), steps[n]);
      StepMonotone(env, Exec(env, steps[..n]).db, steps[n]);
    } else {
      m := n;
      StepIsAttributed(env, steps, i);
    }
  }

  ghost predicate ActiveAs(env: Env, steps: seq<Timed>, k: nat, name: Username, role: Role)
    requires k <= |steps|
  {
    var users := Exec(env, steps[..k]).db.users;
    name in users && users[name].isActive && !users[name].mustChangePassword && users[name].role == role
  }

  /** When the guard behind the grant passed, in `past`, its account was active in the role. */
  ghost predicate PassedAs(env: Env, past: seq<Timed>, grant: Grant, role: Role) {
    exists k :: 1 <= k <= |past| && GuardPassed(env, past, k, grant)
        && ActiveAs(env, past, k, grant.principal.username, role)
  }

  /** Step `m` acted under a grant of the author's, who was active in the role when it was given. */
  ghost predicate ActedAs(env: Env, steps: seq<Timed>, m: nat, author: string, role: Role)
    requires m < |steps|
  {
    var used := GrantOf(steps[m].step);
    used.Some? && used.value.principal.username == author && PassedAs(env, steps[..m], used.value, role)
  }

  lemma RoleBehindGrant(env: Env, past: seq<Timed>, grant: Grant)
    requires WasAuthorised(env, past, grant)
    ensures grant.permission in {ReviewFindings, OverrideScores} ==> PassedAs(env, past, grant, Manager)
    ensures grant.permission == ManageUsers ==> PassedAs(env, past, grant, Admin)
  {
    var k :| 1 <= k <= |past| && GuardPassed(env, past, k, grant);
    var name := grant.principal.username;
    DutiesAreSeparate(Exec(env, past[..k]).db.users[name].role);
    if grant.permission == ManageUsers {
      assert ActiveAs(env, past, k, name, Admin);
    } else if grant.permission in {ReviewFindings, OverrideScores} {
      assert ActiveAs(env, past, k, name, Manager);
    }
  }

  /** The role the author of an event needed: managers decide, administrators administer. */
  ghost predicate AuthorFits(env: Env, steps: seq<Timed>, m: nat, e: AuditEvent)
    requires m < |steps|
  {
    && (e.body.FindingReviewed? || e.body.ScoreOverridden? ==> ActedAs(env, steps, m, e.actor, Manager))
    && (e.body.UserRoleChanged? || e.body.UserActivated? || e.body.UserDeactivated? || e.body.UserPasswordReset?
        ==> ActedAs(env, steps, m, e.actor, Admin))
    && (e.body.UserCreated? ==> ActedAs(env, steps, m, e.actor, Admin) || SystemActor(e.actor))
  }

  lemma RoleBehindEvent(env: Env, steps: seq<Timed>, m: nat, e: AuditEvent)
    requires m < |steps| && Attributed(env, steps, m, e)
    ensures AuthorFits(env, steps, m, e)
  {
    var needed := NeededFor(e.body);
    if needed.Some? && ActedUnder(env, steps, m, e.actor, needed.value) {
      RoleBehindGrant(env, steps[..m], GrantOf(steps[m].step).value);
    }
  }

  /**
   Separation of duties over whole runs. Each event has a step that wrote it. Whoever a
   review or an override is recorded under was authorised for it by a guard that passed
   before that step, and was then an active manager with no password change pending;
   whoever an account-administration event is recorded under was likewise an active
   administrator, or is a command-line actor, whose name no account can have.
   */
  lemma SeparationOfDuties(env: Env, steps: seq<Timed>, i: nat) returns (m: nat)
    requires ValidRun(env, steps) && env.KeepsUsernames() && i < |Exec(env, steps).db.log|
    ensures WrittenAt(env, steps, i, m) && AuthorFits(env, steps, m, Exec(env, steps).db.log[i])
    ensures SystemActor(Exec(env, steps).db.log[i].actor) ==>
              Exec(env, steps).db.log[i].actor !in Exec(env, steps).db.users
  {
    var actor := Exec(env, steps).db.log[i].actor;
    m := EveryEventIsAttributed(env, steps, i);
    RoleBehindEvent(env, steps, m, Exec(env, steps).db.log[i]);
    EveryRunIsSound(env, steps);
    if actor in Exec(env, steps).db.users {
      UsernameIsNotSystemActor(actor);
    }
  }

  /** Step `m` is the review the row records, by someone who had passed the guard as a manager. */
  ghost predicate ReviewedBy(env: Env, steps: seq<Timed>, m: nat, f: Finding)
    requires m < |steps|
  {
    && steps[m].step.Review?
    && steps[m].step.findingId == f.id
    && f.reviewedBy == Some(steps[m].step.principal.username)
    && f.reviewedAt == Some(steps[m].now)
    && PassedAs(env, steps[..m], Grant(steps[m].step.principal, ReviewFindings), Manager)
  }

  /** A finding is pending exactly while it has no reviewer, and its reviewer was a manager before the review. */
  ghost predicate ReviewerWasManager(env: Env, steps: seq<Timed>, f: Finding) {
    if f.humanReviewStatus == Pending then f.reviewedBy.None?
    else exists m :: 0 <= m < |steps| && ReviewedBy(env, steps, m, f)
  }

  lemma ReviewPersists(env: Env, steps: seq<Timed>, n: nat, f: Finding)
    requires n <= |steps| && ReviewerWasManager(env, steps[..n], f)
    ensures ReviewerWasManager(env, steps, f)
  {
    if f.humanReviewStatus != Pending {
      var m :| 0 <= m < n && ReviewedBy(env, steps[..n], m, f);
      assert steps[..n][..m] == steps[..m];
      assert ReviewedBy(env, steps, m, f);
    }
  }

  /** Where a finding row of the next state comes from. */
  lemma FindingOrigin(env: Env, w: World, t: Timed, i: nat)
    requires Enabled(w, t) && i < |NextDb(env, w.db, t).findings|
    ensures var f := NextDb(env, w.db, t).findings[i];
            || (i < |w.db.findings| && f == w.db.findings[i])
            || (f.humanReviewStatus == Pending && f.reviewedBy.None?)
            || (t.step.Review? && f.humanReviewStatus != Pending && f.id == t.step.findingId
                && f.reviewedBy == Some(t.step.principal.username) && f.reviewedAt == Some(t.now))
  {}

  /**
   Every finding that has left `pending` records a review step of the run, and its
   reviewer had, before that step, passed the guard as an active manager with no password
   change pending.
   */
  lemma {:induction false} ReviewersAreManagers(env: Env, steps: seq<Timed>, i: nat)
    requires ValidRun(env, steps) && i < |Exec(env, steps).db.findings|
    ensures ReviewerWasManager(env, steps, Exec(env, steps).db.findings[i])
  {
    var n := |steps| - 1;
    RunPrefix(env, steps, n);
    var w, t := Exec(env, steps[..n]), steps[n];
    FindingOrigin(env, w, t, i);
    var f := Exec(env, steps).db.findings[i];
    if i < |w.db.findings| && f == w.db.findings[i] {
      ReviewersAreManagers(env, steps[..n], i);
      ReviewPersists(env, steps, n, f);
    } else if f.humanReviewStatus != Pending {
      var grant := Grant(t.step.principal, ReviewFindings);
      EveryGrantIsEarned(env, steps[..n], grant);
      RoleBehindGrant(env, steps[..n], grant);
      assert ReviewedBy(env, steps, n, f);
    }
  }
}
