/**
 Whole runs of the authentication and governance services.

 A step is one database block. The guard of a protected call (`Require`) and the
 mutation it allows are separate steps, so any number of other blocks may run between
 them; `Grant`s are the authorisations still to be used. `ChangePassword` is the whole
 call; `FinishPasswordChange` is its second block alone, reached by interleaving.
 */
module AccountRuns {
  import opened Prelude
  import opened Permissions
  import opened Store
  import opened Text
  import opened Accounts
  import opened AccountLog
  import opened Governance

  /** A principal handed to a caller, and how long the log was at that moment. */
  datatype Issue = Issue(principal: Principal, logged: nat)

  datatype Grant = Grant(principal: Principal, permission: Permission)

  datatype Step =
    | SignIn(username: string, password: string)
    | SignOut(principal: Principal)
    | Validate(principal: Principal)
    | Require(principal: Principal, permission: Permission)
    | ChangePassword(principal: Principal, current: string, replacement: string, replacementHash: string)
    | FinishPasswordChange(principal: Principal, current: string, replacement: string, replacementHash: string)
    | Bootstrap(username: string, displayName: string, role: Role, password: string, passwordHash: string,
                actor: string)
    | CreateUser(principal: Principal, username: string, displayName: string, role: Role,
                 password: string, passwordHash: string, mustChange: bool)
    | ChangeRole(principal: Principal, target: Username, newRole: Role)
    | SetActive(principal: Principal, target: Username, active: bool)
    | ResetPassword(principal: Principal, target: Username, temporary: string, temporaryHash: string)
    | Review(principal: Principal, findingId: string, newStatus: ReviewStatus, reason: Option<string>)
    | OverrideScore(principal: Principal, decision: OverrideDecision, newId: string)
    | Assess(findings: seq<Finding>, scores: seq<Score>)

  datatype Timed = Timed(step: Step, now: Time)

  datatype World = World(
    db: Db,
    clock: Time,
    issued: set<Issue>,
    validated: set<Principal>,
    granted: multiset<Grant>)

  const INITIAL := World(EMPTY_DB, 0, {}, {}, multiset{})

  ghost predicate Held(w: World, principal: Principal) {
    exists issue :: issue in w.issued && issue.principal == principal
  }

  /** The permission a mutating step runs under, and whose it is. */
  function GrantOf(step: Step): Option<Grant> {
    match step
    case CreateUser(p, _, _, _, _, _, _) => Some(Grant(p, ManageUsers))
    case ChangeRole(p, _, _) => Some(Grant(p, ManageUsers))
    case SetActive(p, _, _) => Some(Grant(p, ManageUsers))
    case ResetPassword(p, _, _, _) => Some(Grant(p, ManageUsers))
    case Review(p, _, _, _) => Some(Grant(p, ReviewFindings))
    case OverrideScore(p, _, _) => Some(Grant(p, OverrideScores))
    case _ => None
  }

  ghost predicate Enabled(w: World, t: Timed) {
    && w.clock <= t.now
    && (GrantOf(t.step).Some? ==> GrantOf(t.step).value in w.granted)
    && match t.step
       case SignOut(p) => Held(w, p)
       case Validate(p) => Held(w, p)
       case Require(p, _) => Held(w, p)
       case ChangePassword(p, _, _, _) => Held(w, p)
       case FinishPasswordChange(p, _, _, _) => p in w.validated
       case OverrideScore(p, decision, _) => decision.reviewedBy == p.username
       case Assess(findings, scores) =>
         && (forall f :: f in findings ==> f.humanReviewStatus == Pending && f.reviewedBy.None?)
         && (forall s :: s in scores ==> s.overrideOf.None?)
       case _ => true
  }

  /** The tables after one step, whatever the outcome. */
  function NextDb(env: Env, db: Db, t: Timed): Db {
    match t.step
    case SignIn(username, password) => LoginBlock(env, db, t.now, username, password).0
    case SignOut(p) => LogoutBlock(db, t.now, p)
    case Validate(p) => ValidateBlock(env, db, t.now, p).0
    case Require(p, permission) => RequireBlock(env, db, t.now, p, permission).0
    case ChangePassword(p, current, replacement, hash) =>
      var (db1, validated) := ValidateBlock(env, db, t.now, p);
      if validated.Err? then db1
      else ChangePasswordBlock(env, db1, t.now, validated.value, current, replacement, hash).0
    case FinishPasswordChange(p, current, replacement, hash) =>
      ChangePasswordBlock(env, db, t.now, p, current, replacement, hash).0
    case Bootstrap(username, displayName, role, password, hash, actor) =>
      BootstrapBlock(env, db, t.now, username, displayName, role, password, hash, actor).0
    case CreateUser(p, username, displayName, role, password, hash, mustChange) =>
      CreateBlock(env, db, t.now, p.username, username, displayName, role, password, hash, mustChange).0
    case ChangeRole(p, target, newRole) => ChangeRoleBlock(env, db, t.now, p, target, newRole).0
    case SetActive(p, target, active) => SetActiveBlock(env, db, t.now, p, target, active).0
    case ResetPassword(p, target, temporary, hash) => ResetPasswordBlock(env, db, t.now, p, target, temporary, hash).0
    case Review(p, findingId, newStatus, reason) =>
      ReviewBlock(env.sanitize, db, t.now, ReviewDecision(findingId, newStatus, p.username, reason)).0
    case OverrideScore(p, decision, newId) => OverrideBlock(env.sanitize, db, t.now, decision, newId).0
    case Assess(findings, scores) => db.(findings := db.findings + findings, scores := db.scores + scores)
  }

  /** The principal the step hands to its caller. */
  function Handed(env: Env, db: Db, t: Timed): Option<Principal> {
    match t.step
    case SignIn(username, password) => LoginBlock(env, db, t.now, username, password).1
    case Validate(p) => OkValue(ValidateBlock(env, db, t.now, p).1)
    case Require(p, permission) => OkValue(RequireBlock(env, db, t.now, p, permission).1)
    case ChangePassword(p, current, replacement, hash) =>
      var (db1, validated) := ValidateBlock(env, db, t.now, p);
      if validated.Err? then None
      else OkValue(ChangePasswordBlock(env, db1, t.now, validated.value, current, replacement, hash).1)
    case FinishPasswordChange(p, current, replacement, hash) =>
      OkValue(ChangePasswordBlock(env, db, t.now, p, current, replacement, hash).1)
    case _ => None
  }

  function OkValue<T, E>(r: Result<T, E>): Option<T> {
    if r.Ok? then Some(r.value) else None
  }

  function Apply(env: Env, w: World, t: Timed): World {
    var db := NextDb(env, w.db, t);
    var handed := Handed(env, w.db, t);
    var used := GrantOf(t.step);
    World(
      db,
      t.now,
      if handed.Some? then w.issued + {Issue(handed.value, |db.log|)} else w.issued,
      if handed.Some? && t.step.Validate? then w.validated + {handed.value} else w.validated,
      if handed.Some? && t.step.Require? then w.granted + multiset{Grant(handed.value, t.step.permission)}
      else if used.Some? then w.granted - multiset{used.value}
      else w.granted)
  }

  function Exec(env: Env, steps: seq<Timed>): World {
    if steps == [] then INITIAL
    else Apply(env, Exec(env, steps[..|steps| - 1]), steps[|steps| - 1])
  }

  ghost predicate ValidRun(env: Env, steps: seq<Timed>) {
    forall k :: 0 <= k < |steps| ==> Enabled(Exec(env, steps[..k]), steps[k])
  }

  lemma RunPrefix(env: Env, steps: seq<Timed>, n: nat)
    requires ValidRun(env, steps) && n <= |steps|
    ensures ValidRun(env, steps[..n])
  {
    forall k | 0 <= k < n ensures Enabled(Exec(env, steps[..n][..k]), steps[..n][k]) {
      assert steps[..n][..k] == steps[..k];
    }
  }

  // --------------------------------------------------- the log is the accounts

  function AccountOf(row: User): Account {
    Account(row.role, row.isActive, row.failedAttempts, row.lockedUntil, row.sessionVersion, false)
  }

  function Snapshot(users: map<Username, User>): AccountTable {
    map name | name in users :: AccountOf(users[name])
  }

  /** What every block keeps of the tables. */
  ghost predicate Sound(db: Db, clock: Time) {
    && (forall name :: name in db.users ==> ValidUsername(name) && db.users[name].failedAttempts < MAX_FAILED_ATTEMPTS)
    && Replay(db.log) == Snapshot(db.users)
    && LegalLog(db.log)
    && (db.log != [] ==> db.log[|db.log| - 1].at <= clock)
  }

  /** Appending an event about nobody's account. */
  lemma QuietEvent(db: Db, clock: Time, now: Time, actor: string, body: EventBody)
    requires Sound(db, clock) && clock <= now
    requires Subject(AuditEvent(actor, body, now)).None?
    ensures Sound(db.Record(now, actor, body), now)
  {
    var e := AuditEvent(actor, body, now);
    ReplayAppend(db.log, e);
    LegalAppend(db.log, e);
  }

  /** Writing one row together with the event that replays to it. */
  lemma RowEvent(db: Db, clock: Time, now: Time, name: Username, row: User, actor: string, body: EventBody)
    requires Sound(db, clock) && clock <= now
    requires ValidUsername(name) && row.failedAttempts < MAX_FAILED_ATTEMPTS
    requires var e := AuditEvent(actor, body, now);
             && LegalEvent(Snapshot(db.users), e)
             && ReplayEvent(Snapshot(db.users), e) == Snapshot(db.users)[name := AccountOf(row)]
    ensures Sound(db.WithUser(name, row).Record(now, actor, body), now)
  {
    var e := AuditEvent(actor, body, now);
    ReplayAppend(db.log, e);
    LegalAppend(db.log, e);
    assert Snapshot(db.users[name := row]) == Snapshot(db.users)[name := AccountOf(row)];
  }

  /** The event may happen to the row, and its replay turns the row into the later one. */
  ghost predicate Recorded(row: User, after: User, name: Username, e: AuditEvent) {
    && Subject(e) == Some(name) && !e.body.UserCreated?
    && LegalChange(AccountOf(row), e) && Effect(AccountOf(row), e) == AccountOf(after)
  }

  /** Changing an existing row together with the event that records it. */
  lemma RowChange(db: Db, clock: Time, now: Time, name: Username, row: User, actor: string, body: EventBody)
    requires Sound(db, clock) && clock <= now && name in db.users && row.failedAttempts < MAX_FAILED_ATTEMPTS
    requires Recorded(db.users[name], row, name, AuditEvent(actor, body, now))
    ensures Sound(db.WithUser(name, row).Record(now, actor, body), now)
  {
    ChangeOfOne(Snapshot(db.users), AuditEvent(actor, body, now), name);
    RowEvent(db, clock, now, name, row, actor, body);
  }

  /** A new row together with its creation event. */
  lemma NewRow(db: Db, clock: Time, now: Time, name: Username, row: User, actor: string)
    requires Sound(db, clock) && clock <= now && name !in db.users && ValidUsername(name)
    requires AccountOf(row) == Account(row.role, true, 0, None, 1, false)
    ensures Sound(db.WithUser(name, row).Record(now, actor, UserCreated(name, row.role)), now)
  {
    var e := AuditEvent(actor, UserCreated(name, row.role), now);
    assert ReplayEvent(Snapshot(db.users), e) == Snapshot(db.users)[name := AccountOf(row)];
    RowEvent(db, clock, now, name, row, actor, UserCreated(name, row.role));
  }

  lemma CountIsRecorded(row: User, name: Username, now: Time)
    requires !Locked(row, now) && row.failedAttempts + 1 < MAX_FAILED_ATTEMPTS
    ensures Recorded(row, OneMoreFailure(row), name,
                     AuditEvent(name, UserLoginFailed(InvalidPassword), now))
  {}

  lemma SignInIsRecorded(row: User, name: Username, now: Time)
    ensures Recorded(row, SignedIn(row, now), name,
                     AuditEvent(name, UserLogin(row.role), now))
  {}

  lemma NewPasswordIsRecorded(row: User, name: Username, hash: string, now: Time)
    ensures Recorded(row, WithNewPassword(row, hash), name, AuditEvent(name, PasswordChanged, now))
  {}

  lemma AdministrationIsRecorded(row: User, name: Username, actor: string, now: Time, role: Role, hash: string)
    ensures Recorded(row, WithRole(row, role), name, AuditEvent(actor, UserRoleChanged(name, row.role, role), now))
    ensures Recorded(row, WithActive(row, true), name, AuditEvent(actor, UserActivated(name), now))
    ensures Recorded(row, WithActive(row, false), name, AuditEvent(actor, UserDeactivated(name), now))
    ensures Recorded(row, WithTemporaryPassword(row, hash), name, AuditEvent(actor, UserPasswordReset(name), now))
  {}

  /** The log and the accounts it replays to, after one more legal event about one account. */
  lemma LogChange(log: seq<AuditEvent>, e: AuditEvent, name: string)
    requires LegalLog(log) && (log != [] ==> log[|log| - 1].at <= e.at)
    requires Subject(e) == Some(name) && !e.body.UserCreated? && name in Replay(log)
    requires LegalChange(Replay(log)[name], e)
    ensures LegalLog(log + [e])
    ensures Replay(log + [e]) == Replay(log)[name := Effect(Replay(log)[name], e)]
  {
    ChangeOfOne(Replay(log), e, name);
    ReplayAppend(log, e);
    LegalAppend(log, e);
  }

  lemma SnapshotUpdate(users: map<Username, User>, name: Username, row: User)
    ensures Snapshot(users[name := row]) == Snapshot(users)[name := AccountOf(row)]
  {}

  lemma UpdateTwice<K, V>(m: map<K, V>, key: K, first: V, second: V)
    ensures m[key := first][key := second] == m[key := second]
  {}

  lemma LastEventTime(log: seq<AuditEvent>, e: AuditEvent)
    ensures (log + [e])[|log + [e]| - 1].at == e.at
  {}

  /** Two legal events about one account leave the second one's effect on the first one's. */
  lemma LogTwoChanges(log: seq<AuditEvent>, e1: AuditEvent, e2: AuditEvent, name: string)
    requires LegalLog(log) && (log != [] ==> log[|log| - 1].at <= e1.at) && e1.at <= e2.at
    requires Subject(e1) == Subject(e2) == Some(name) && !e1.body.UserCreated? && !e2.body.UserCreated?
    requires name in Replay(log) && LegalChange(Replay(log)[name], e1)
    requires LegalChange(Effect(Replay(log)[name], e1), e2)
    ensures LegalLog(log + [e1] + [e2])
    ensures Replay(log + [e1] + [e2]) == Replay(log)[name := Effect(Effect(Replay(log)[name], e1), e2)]
  {
    var accounts := Replay(log);
    var first := Effect(accounts[name], e1);
    LogChange(log, e1, name);
    LastEventTime(log, e1);
    LogChange(log + [e1], e2, name);
    UpdateTwice(accounts, name, first, Effect(first, e2));
  }

  lemma LockoutIsRecorded(row: User, name: Username, now: Time)
    requires !Locked(row, now) && row.failedAttempts + 1 == MAX_FAILED_ATTEMPTS
    ensures var e1 := AuditEvent(name, UserLockedOut(now + LOCKOUT_DURATION), now);
            var e2 := AuditEvent(name, UserLoginFailed(InvalidPassword), now);
            var pending := Effect(AccountOf(row), e1);
            && LegalChange(AccountOf(row), e1) && LegalChange(pending, e2)
            && Effect(pending, e2) == AccountOf(LockedOut(row, now))
  {}

  /** The fifth failure writes two events; between them the lock is pending. */
  lemma LockoutEvents(db: Db, clock: Time, now: Time, name: Username)
    requires Sound(db, clock) && clock <= now && name in db.users
    requires !Locked(db.users[name], now) && db.users[name].failedAttempts + 1 == MAX_FAILED_ATTEMPTS
    ensures Sound(db.WithUser(name, LockedOut(db.users[name], now))
                  .Record(now, name, UserLockedOut(now + LOCKOUT_DURATION))
                  .Record(now, name, UserLoginFailed(InvalidPassword)), now)
  {
    LockoutIsRecorded(db.users[name], name, now);
    LogTwoChanges(db.log, AuditEvent(name, UserLockedOut(now + LOCKOUT_DURATION), now),
                  AuditEvent(name, UserLoginFailed(InvalidPassword), now), name);
    SnapshotUpdate(db.users, name, LockedOut(db.users[name], now));
  }

  /** A failure short of the fifth only counts. */
  lemma CountedFailure(db: Db, clock: Time, now: Time, name: Username)
    requires Sound(db, clock) && clock <= now && name in db.users
    requires !Locked(db.users[name], now) && db.users[name].failedAttempts + 1 < MAX_FAILED_ATTEMPTS
    ensures Sound(db.WithUser(name, OneMoreFailure(db.users[name]))
                  .Record(now, name, UserLoginFailed(InvalidPassword)), now)
  {
    CountIsRecorded(db.users[name], name, now);
    RowChange(db, clock, now, name, OneMoreFailure(db.users[name]), name, UserLoginFailed(InvalidPassword));
  }

  /** A sign-in that reaches the stored hash and fails. */
  lemma FailedGuessSound(db: Db, clock: Time, now: Time, name: Username)
    requires Sound(db, clock) && clock <= now && name in db.users && !Locked(db.users[name], now)
    ensures Sound(FailedGuess(db, now, name).0, now)
  {
    if db.users[name].failedAttempts + 1 >= MAX_FAILED_ATTEMPTS {
      LockoutEvents(db, clock, now, name);
    } else {
      CountedFailure(db, clock, now, name);
    }
  }

  lemma LoginSound(env: Env, db: Db, clock: Time, now: Time, username: string, password: string)
    requires Sound(db, clock) && clock <= now
    ensures Sound(LoginBlock(env, db, now, username, password).0, now)
  {
    var name := env.Normalize(username);
    if name !in db.users {
      QuietEvent(db, clock, now, ANONYMOUS_ACTOR, UserLoginFailed(UnknownAccount));
    } else if Locked(db.users[name], now) {
      QuietEvent(db, clock, now, name, UserLoginFailed(AccountLocked));
    } else if !db.users[name].isActive {
      QuietEvent(db, clock, now, name, UserLoginFailed(AccountInactive));
    } else if !env.verify(password, db.users[name].passwordHash) {
      FailedGuessSound(db, clock, now, name);
    } else {
      var row := db.users[name];
      SignInIsRecorded(row, name, now);
      RowChange(db, clock, now, name, SignedIn(row, now),
               name, UserLogin(row.role));
    }
  }

  lemma ValidateSound(env: Env, db: Db, clock: Time, now: Time, p: Principal)
    requires Sound(db, clock) && clock <= now
    ensures Sound(ValidateBlock(env, db, now, p).0, now)
  {
    if now - p.lastActivityAt > env.idleTimeout {
      QuietEvent(db, clock, now, p.username, SessionExpired);
    } else if ValidateBlock(env, db, now, p).1.Err? {
      QuietEvent(db, clock, now, p.username,
                 SessionInvalidated(p.username in db.users && !db.users[p.username].isActive));
    }
  }

  // What each administering block writes when it writes anything.

  lemma ChangePasswordWrites(env: Env, db: Db, now: Time, p: Principal, current: string, replacement: string,
                             hash: string)
    ensures var (after, r) := ChangePasswordBlock(env, db, now, p, current, replacement, hash);
            if r.Ok? then
              && p.username in db.users
              && after == db.WithUser(p.username, WithNewPassword(db.users[p.username], hash))
                          .Record(now, p.username, PasswordChanged)
            else after == db
  {}

  lemma CreateWrites(env: Env, db: Db, now: Time, actor: string, username: string, displayName: string,
                     role: Role, password: string, hash: string, mustChange: bool)
    requires env.KeepsUsernames()
    ensures var (after, r) := CreateBlock(env, db, now, actor, username, displayName, role, password, hash, mustChange);
            var name := env.Normalize(username);
            var row := User(Strip(displayName), hash, role, true, mustChange, 0, None, 1, None);
            if r.Ok? then
              && name !in db.users && ValidUsername(name)
              && after == db.WithUser(name, row).Record(now, actor, UserCreated(name, role))
            else after == db
  {}

  lemma ChangeRoleWrites(env: Env, db: Db, now: Time, p: Principal, target: Username, newRole: Role)
    requires env.KeepsUsernames() && (target in db.users ==> ValidUsername(target))
    ensures var after := ChangeRoleBlock(env, db, now, p, target, newRole).0;
            || after == db
            || (target in db.users
                && after == db.WithUser(target, WithRole(db.users[target], newRole))
                            .Record(now, p.username, UserRoleChanged(target, db.users[target].role, newRole)))
  {}

  lemma SetActiveWrites(env: Env, db: Db, now: Time, p: Principal, target: Username, active: bool)
    requires env.KeepsUsernames() && (target in db.users ==> ValidUsername(target))
    ensures var after := SetActiveBlock(env, db, now, p, target, active).0;
            || after == db
            || (target in db.users
                && after == db.WithUser(target, WithActive(db.users[target], active))
                            .Record(now, p.username, if active then UserActivated(target) else UserDeactivated(target)))
  {}

  lemma ResetPasswordWrites(env: Env, db: Db, now: Time, p: Principal, target: Username, temporary: string,
                            hash: string)
    requires env.KeepsUsernames() && (target in db.users ==> ValidUsername(target))
    ensures var after := ResetPasswordBlock(env, db, now, p, target, temporary, hash).0;
            || after == db
            || (target in db.users
                && after == db.WithUser(target, WithTemporaryPassword(db.users[target], hash))
                            .Record(now, p.username, UserPasswordReset(target)))
  {}

  /** Time may pass without an event. */
  lemma Later(db: Db, clock: Time, now: Time)
    requires Sound(db, clock) && clock <= now
    ensures Sound(db, now)
  {}

  lemma ChangePasswordSound(env: Env, db: Db, clock: Time, now: Time, p: Principal,
                            current: string, replacement: string, hash: string)
    requires Sound(db, clock) && clock <= now
    ensures Sound(ChangePasswordBlock(env, db, now, p, current, replacement, hash).0, now)
  {
    ChangePasswordWrites(env, db, now, p, current, replacement, hash);
    Later(db, clock, now);
    if p.username in db.users {
      NewPasswordIsRecorded(db.users[p.username], p.username, hash, now);
      RowChange(db, clock, now, p.username, WithNewPassword(db.users[p.username], hash), p.username, PasswordChanged);
    }
  }

  lemma CreateSound(env: Env, db: Db, clock: Time, now: Time, actor: string, username: string, displayName: string,
                    role: Role, password: string, hash: string, mustChange: bool)
    requires Sound(db, clock) && clock <= now && env.KeepsUsernames()
    ensures Sound(CreateBlock(env, db, now, actor, username, displayName, role, password, hash, mustChange).0, now)
  {
    var name := env.Normalize(username);
    CreateWrites(env, db, now, actor, username, displayName, role, password, hash, mustChange);
    Later(db, clock, now);
    if name !in db.users && ValidUsername(name) {
      NewRow(db, clock, now, name, User(Strip(displayName), hash, role, true, mustChange, 0, None, 1, None), actor);
    }
  }

  lemma ChangeRoleSound(env: Env, db: Db, clock: Time, now: Time, p: Principal, target: Username, newRole: Role)
    requires Sound(db, clock) && clock <= now && env.KeepsUsernames()
    ensures Sound(ChangeRoleBlock(env, db, now, p, target, newRole).0, now)
  {
    ChangeRoleWrites(env, db, now, p, target, newRole);
    Later(db, clock, now);
    if target in db.users {
      var row := db.users[target];
      AdministrationIsRecorded(row, target, p.username, now, newRole, "");
      RowChange(db, clock, now, target, WithRole(row, newRole), p.username, UserRoleChanged(target, row.role, newRole));
    }
  }

  lemma SetActiveSound(env: Env, db: Db, clock: Time, now: Time, p: Principal, target: Username, active: bool)
    requires Sound(db, clock) && clock <= now && env.KeepsUsernames()
    ensures Sound(SetActiveBlock(env, db, now, p, target, active).0, now)
  {
    SetActiveWrites(env, db, now, p, target, active);
    Later(db, clock, now);
    if target in db.users {
      var row := db.users[target];
      AdministrationIsRecorded(row, target, p.username, now, row.role, "");
      RowChange(db, clock, now, target, WithActive(row, active), p.username,
                if active then UserActivated(target) else UserDeactivated(target));
    }
  }

  lemma ResetPasswordSound(env: Env, db: Db, clock: Time, now: Time, p: Principal, target: Username,
                           temporary: string, hash: string)
    requires Sound(db, clock) && clock <= now && env.KeepsUsernames()
    ensures Sound(ResetPasswordBlock(env, db, now, p, target, temporary, hash).0, now)
  {
    ResetPasswordWrites(env, db, now, p, target, temporary, hash);
    Later(db, clock, now);
    if target in db.users {
      var row := db.users[target];
      AdministrationIsRecorded(row, target, p.username, now, row.role, hash);
      RowChange(db, clock, now, target, WithTemporaryPassword(row, hash), p.username, UserPasswordReset(target));
    }
  }

  /** Findings and scores are no part of what the log replays to. */
  lemma OtherTables(db: Db, clock: Time, findings: seq<Finding>, scores: seq<Score>)
    requires Sound(db, clock)
    ensures Sound(db.(findings := findings, scores := scores), clock)
  {}

  lemma ReviewSound(env: Env, db: Db, clock: Time, now: Time, decision: ReviewDecision)
    requires Sound(db, clock) && clock <= now
    ensures Sound(ReviewBlock(env.sanitize, db, now, decision).0, now)
  {
    var at := FindFinding(db.findings, decision.findingId);
    if CheckReview(decision).None? && at.Some? {
      var row := Reviewed(db.findings[at.value], decision, now);
      OtherTables(db, clock, db.findings[at.value := row], db.scores);
      QuietEvent(db.(findings := db.findings[at.value := row]), clock, now, decision.reviewedBy,
                 FindingReviewed(env.sanitize(row.id), decision.newStatus));
    }
  }

  lemma OverrideSound(env: Env, db: Db, clock: Time, now: Time, decision: OverrideDecision, newId: string)
    requires Sound(db, clock) && clock <= now
    ensures Sound(OverrideBlock(env.sanitize, db, now, decision, newId).0, now)
  {
    var at := FindScore(db.scores, decision.originalScoreId);
    if CheckOverride(decision).None? && at.Some? {
      var row := OverrideRow(db.scores[at.value], decision, newId, now);
      OtherTables(db, clock, db.findings, db.scores + [row]);
      QuietEvent(db.(scores := db.scores + [row]), clock, now, decision.reviewedBy,
                 ScoreOverridden(env.sanitize(row.overrideOf.value), env.sanitize(newId),
                                 env.sanitize(decision.domain)));
    }
  }

  lemma RequireSound(env: Env, db: Db, clock: Time, now: Time, p: Principal, permission: Permission)
    requires Sound(db, clock) && clock <= now
    ensures Sound(RequireBlock(env, db, now, p, permission).0, now)
  {
    ValidateSound(env, db, clock, now, p);
    var (db1, validated) := ValidateBlock(env, db, now, p);
    if validated.Ok? && DenialFor(validated.value, permission).Some? {
      QuietEvent(db1, now, now, p.username,
                 AccessDenied(permission, validated.value.role, DenialFor(validated.value, permission).value));
    }
  }

  /** Both blocks of a password change, nothing in between. */
  lemma WholeChangeSound(env: Env, db: Db, clock: Time, now: Time, p: Principal,
                         current: string, replacement: string, hash: string)
    requires Sound(db, clock) && clock <= now
    ensures var (db1, validated) := ValidateBlock(env, db, now, p);
            && Sound(db1, now)
            && (validated.Ok? ==> Sound(ChangePasswordBlock(env, db1, now, validated.value, current, replacement,
                                                            hash).0, now))
  {
    ValidateSound(env, db, clock, now, p);
    var (db1, validated) := ValidateBlock(env, db, now, p);
    if validated.Ok? {
      ChangePasswordSound(env, db1, now, now, validated.value, current, replacement, hash);
    }
  }

  lemma StepSound(env: Env, w: World, t: Timed)
    requires Sound(w.db, w.clock) && Enabled(w, t) && env.KeepsUsernames()
    ensures Sound(NextDb(env, w.db, t), t.now)
  {
    match t.step
    case SignIn(username, password) => LoginSound(env, w.db, w.clock, t.now, username, password);
    case SignOut(p) => QuietEvent(w.db, w.clock, t.now, p.username, UserLogout);
    case Validate(p) => ValidateSound(env, w.db, w.clock, t.now, p);
    case Require(p, permission) => RequireSound(env, w.db, w.clock, t.now, p, permission);
    case ChangePassword(p, current, replacement, hash) =>
      WholeChangeSound(env, w.db, w.clock, t.now, p, current, replacement, hash);
    case FinishPasswordChange(p, current, replacement, hash) =>
      ChangePasswordSound(env, w.db, w.clock, t.now, p, current, replacement, hash);
    case Bootstrap(username, displayName, role, password, hash, actor) =>
      CreateSound(env, w.db, w.clock, t.now, actor, username, displayName, role, password, hash, false);
    case CreateUser(p, username, displayName, role, password, hash, mustChange) =>
      CreateSound(env, w.db, w.clock, t.now, p.username, username, displayName, role, password, hash, mustChange);
    case ChangeRole(p, target, newRole) => ChangeRoleSound(env, w.db, w.clock, t.now, p, target, newRole);
    case SetActive(p, target, active) => SetActiveSound(env, w.db, w.clock, t.now, p, target, active);
    case ResetPassword(p, target, temporary, hash) =>
        ResetPasswordSound(env, w.db, w.clock, t.now, p, target, temporary, hash);
    case Review(p, findingId, newStatus, reason) =>
      ReviewSound(env, w.db, w.clock, t.now, ReviewDecision(findingId, newStatus, p.username, reason));
    case OverrideScore(_, decision, newId) => OverrideSound(env, w.db, w.clock, t.now, decision, newId);
    case Assess(_, _) =>
  }

  lemma {:induction false} EveryRunIsSound(env: Env, steps: seq<Timed>)
    requires ValidRun(env, steps) && env.KeepsUsernames()
    ensures Sound(Exec(env, steps).db, Exec(env, steps).clock)
  {
    if steps != [] {
      var n := |steps| - 1;
      RunPrefix(env, steps, n);
      EveryRunIsSound(env, steps[..n]);
      StepSound(env, Exec(env, steps[..n]), steps[n]);
    }
  }

  /**
   The audit log is a complete event source: folding it from nothing gives exactly the
   accounts table's roles, active flags, failure counters, lock times and session
   versions, and each version is one more than the number of role changes, activations,
   deactivations, resets and password changes logged for that user.
   */
  lemma AuditLogRebuildsAccounts(env: Env, steps: seq<Timed>)
    requires ValidRun(env, steps) && env.KeepsUsernames()
    ensures var db := Exec(env, steps).db;
            && Replay(db.log) == Snapshot(db.users)
            && (forall name :: name in db.users ==> db.users[name].sessionVersion == 1 + Bumps(db.log, name))
  {
    EveryRunIsSound(env, steps);
    var db := Exec(env, steps).db;
    forall name | name in db.users ensures db.users[name].sessionVersion == 1 + Bumps(db.log, name) {
      VersionCountsBumps(db.log, name);
    }
  }

  /**
   Guessing is bounded over whole runs: in any window of k lock-out periods in which the
   account is not signed in to, reset or reactivated, at most 5·k attempts are checked
   against its password hash and fail; and no stored counter ever reaches 5.
   */
  lemma GuessesAreBounded(env: Env, steps: seq<Timed>, user: string, from: Time, k: nat)
    requires ValidRun(env, steps) && env.KeepsUsernames() && k >= 1
    ensures var db := Exec(env, steps).db;
            && (NoClearIn(db.log, user, from, from + LOCKOUT_DURATION * k) ==>
                 FailuresIn(db.log, user, from, from + LOCKOUT_DURATION * k) <= 5 * k)
            && (user in db.users ==> db.users[user].failedAttempts < MAX_FAILED_ATTEMPTS)
  {
    EveryRunIsSound(env, steps);
    var db := Exec(env, steps).db;
    if NoClearIn(db.log, user, from, from + LOCKOUT_DURATION * k) {
      LockoutBound(db.log, user, from, k);
    }
  }
}
