/**
 Passwords over whole runs: which password opens an account, where the stored hash comes
 from, and how many wrong guesses fit between two clearings of an account.
 */
module SignInRuns {
  import opened Prelude
  import opened Store
  import opened Accounts
  import opened AccountOutcomes
  import opened AccountLog
  import opened AccountRuns
  import opened AccountSafety

  // ------------------------------------------------- sign-ins are verified

  /** A sign-in step hands out a principal exactly when its password verifies for an open account. */
  lemma SignInsAreVerified(env: Env, steps: seq<Timed>, k: nat)
    requires k < |steps| && steps[k].step.SignIn?
    ensures var users, name := Exec(env, steps[..k]).db.users, env.Normalize(steps[k].step.username);
            var handed := Handed(env, Exec(env, steps[..k]).db, steps[k]);
            && (handed.Some? <==> Opens(env, users, name, steps[k].step.password, steps[k].now))
            && (handed.Some? ==> Describes(handed.value, name, users[name]))
  {
    LoginOutcome(env, Exec(env, steps[..k]).db, steps[k].now, steps[k].step.username, steps[k].step.password);
  }

  /** The step is a sign-in to the account with a password that does not verify against its row. */
  predicate WrongGuess(env: Env, users: map<Username, User>, t: Timed, user: Username) {
    && t.step.SignIn? && env.Normalize(t.step.username) == user
    && WrongPasswordFor(env, users, user, t.step.password, t.now)
  }

  /** Nothing is appended that is a failed sign-in. */
  ghost predicate NoNewFailure(db: Db, db': Db) {
    && db.log <= db'.log
    && forall i :: |db.log| <= i < |db'.log| ==> !db'.log[i].body.UserLoginFailed?
  }

  lemma SessionsAddNoFailure(env: Env, db: Db, t: Timed)
    requires t.step.SignOut? || t.step.Validate? || t.step.Require? || t.step.ChangePassword?
             || t.step.FinishPasswordChange?
    ensures NoNewFailure(db, NextDb(env, db, t))
  {}

  lemma AdministrationAddsNoFailure(env: Env, db: Db, t: Timed)
    requires t.step.Bootstrap? || t.step.CreateUser? || t.step.ChangeRole? || t.step.SetActive? || t.step.ResetPassword?
    ensures NoNewFailure(db, NextDb(env, db, t))
  {}

  lemma OnlySignInsFail(env: Env, db: Db, t: Timed)
    requires !t.step.SignIn?
    ensures NoNewFailure(db, NextDb(env, db, t))
  {
    match t.step
    case Review(_, _, _, _) =>
    case OverrideScore(_, _, _) =>
    case Assess(_, _) =>
    case _ =>
      if t.step.SignOut? || t.step.Validate? || t.step.Require? || t.step.ChangePassword?
         || t.step.FinishPasswordChange? {
        SessionsAddNoFailure(env, db, t);
      } else {
        AdministrationAddsNoFailure(env, db, t);
      }
  }

  /** What a sign-in appends: at most one failed password check, and it is a wrong guess. */
  lemma SignInAppends(env: Env, db: Db, t: Timed, i: nat)
    requires t.step.SignIn? && |db.log| <= i < |NextDb(env, db, t).log|
    ensures var e := NextDb(env, db, t).log[i];
            e.body == UserLoginFailed(InvalidPassword) ==>
              && i == |NextDb(env, db, t).log| - 1 && e.at == t.now
              && e.actor == env.Normalize(t.step.username) && WrongGuess(env, db.users, t, e.actor)
  {
    LoginOutcome(env, db, t.now, t.step.username, t.step.password);
  }

  /** Every failed password check in the log was made by a step whose password did not verify. */
  lemma {:induction false} FailuresAreWrongGuesses(env: Env, steps: seq<Timed>, i: nat) returns (m: nat)
    requires ValidRun(env, steps) && i < |Exec(env, steps).db.log|
    requires Exec(env, steps).db.log[i].body == UserLoginFailed(InvalidPassword)
    ensures WrittenAt(env, steps, i, m) && steps[m].now == Exec(env, steps).db.log[i].at
    ensures WrongGuess(env, Exec(env, steps[..m]).db.users, steps[m], Exec(env, steps).db.log[i].actor)
  {
    var n := |steps| - 1;
    RunPrefix(env, steps, n);
    assert steps[..n + 1] == steps;
    StepMonotone(env, Exec(env, steps[..n]).db, steps[n]);
    if i < |Exec(env, steps[..n]).db.log| {
      m := FailuresAreWrongGuesses(env, steps[..n], i);
      EarlierAttribution(env, steps, n, i, m);
      assert steps[..n][..m] == steps[..m];
    } else {
      m := n;
      if steps[n].step.SignIn? {
        SignInAppends(env, Exec(env, steps[..n]).db, steps[n], i);
      } else {
        OnlySignInsFail(env, Exec(env, steps[..n]).db, steps[n]);
        assert false;
      }
    }
  }

  // ------------------------------------------------------- guesses are bounded

  /** How many steps of the run, stamped in the window, were wrong guesses at the account's password. */
  ghost function WrongGuesses(env: Env, steps: seq<Timed>, user: Username, from: Time, to: Time): nat {
    if steps == [] then 0
    else
      var n := |steps| - 1;
      WrongGuesses(env, steps[..n], user, from, to)
      + if WrongGuess(env, Exec(env, steps[..n]).db.users, steps[n], user) && from <= steps[n].now < to then 1 else 0
  }

  predicate FailureIn(e: AuditEvent, user: Username, from: Time, to: Time) {
    RealFailure(e, user) && from <= e.at < to
  }

  lemma FailuresSnoc(log: seq<AuditEvent>, e: AuditEvent, user: Username, from: Time, to: Time)
    ensures FailuresIn(log + [e], user, from, to)
            == FailuresIn(log, user, from, to) + if FailureIn(e, user, from, to) then 1 else 0
  {
    CountSnoc((e: AuditEvent) => RealFailure(e, user) && from <= e.at < to, log, e);
  }

  lemma NoFailureNoCount(log: seq<AuditEvent>, log': seq<AuditEvent>, user: Username, from: Time, to: Time)
    requires log <= log' && forall i :: |log| <= i < |log'| ==> !log'[i].body.UserLoginFailed?
    ensures FailuresIn(log', user, from, to) == FailuresIn(log, user, from, to)
  {
    var more := log'[|log|..];
    assert log' == log + more;
    forall e | e in more ensures !e.body.UserLoginFailed? {
      var i :| 0 <= i < |more| && more[i] == e;
      assert log'[|log| + i] == e;
    }
    CountConcat((e: AuditEvent) => RealFailure(e, user) && from <= e.at < to, log, more);
    CountZero((e: AuditEvent) => RealFailure(e, user) && from <= e.at < to, more);
  }

  /** A wrong guess, and no other step, adds one failure to the account's log. */
  lemma StepFailures(env: Env, db: Db, t: Timed, user: Username, from: Time, to: Time)
    ensures FailuresIn(NextDb(env, db, t).log, user, from, to)
            == FailuresIn(db.log, user, from, to)
               + if WrongGuess(env, db.users, t, user) && from <= t.now < to then 1 else 0
  {
    if t.step.SignIn? {
      SignInFailures(env, db, t.now, t.step.username, t.step.password, user, from, to);
    } else {
      OnlySignInsFail(env, db, t);
      NoFailureNoCount(db.log, NextDb(env, db, t).log, user, from, to);
    }
  }

  lemma SignInFailures(env: Env, db: Db, now: Time, username: string, password: string, user: Username,
                       from: Time, to: Time)
    ensures FailuresIn(LoginBlock(env, db, now, username, password).0.log, user, from, to)
            == FailuresIn(db.log, user, from, to)
               + if env.Normalize(username) == user && WrongPasswordFor(env, db.users, user, password, now)
                    && from <= now < to then 1 else 0
  {
    var name := env.Normalize(username);
    var log' := LoginBlock(env, db, now, username, password).0.log;
    LoginOutcome(env, db, now, username, password);
    var e := log'[|log'| - 1];
    assert log' == log'[..|log'| - 1] + [e];
    FailuresSnoc(log'[..|log'| - 1], e, user, from, to);
    if log'[..|log'| - 1] != db.log {
      var lock := AuditEvent(name, UserLockedOut(now + LOCKOUT_DURATION), now);
      assert log'[..|log'| - 1] == db.log + [lock];
      FailuresSnoc(db.log, lock, user, from, to);
    }
  }

  lemma {:induction false} FailuresCountGuesses(env: Env, steps: seq<Timed>, user: Username, from: Time, to: Time)
    ensures FailuresIn(Exec(env, steps).db.log, user, from, to) == WrongGuesses(env, steps, user, from, to)
  {
    if steps != [] {
      var n := |steps| - 1;
      FailuresCountGuesses(env, steps[..n], user, from, to);
      StepFailures(env, Exec(env, steps[..n]).db, steps[n], user, from, to);
    }
  }

  lemma FailuresBounded(log: seq<AuditEvent>, user: Username, from: Time, to: Time, k: nat)
    requires LegalLog(log) && k >= 1 && to == from + LOCKOUT_DURATION * k && NoClearIn(log, user, from, to)
    ensures FailuresIn(log, user, from, to) <= 5 * k
  {
    LockoutBound(log, user, from, k);
  }

  /**
   Guessing is bounded over whole runs: in any window of k lock-out periods in which the
   account is not signed in to, reset or reactivated, at most 5·k sign-in attempts are
   checked against its hash with a password that does not verify, and each of them, and
   nothing else, is a failure in the log.
   */
  lemma GuessingIsBounded(env: Env, steps: seq<Timed>, user: Username, from: Time, to: Time, k: nat)
    requires ValidRun(env, steps) && env.KeepsUsernames() && k >= 1 && to == from + LOCKOUT_DURATION * k
    requires NoClearIn(Exec(env, steps).db.log, user, from, to)
    ensures WrongGuesses(env, steps, user, from, to) <= 5 * k
    ensures WrongGuesses(env, steps, user, from, to) == FailuresIn(Exec(env, steps).db.log, user, from, to)
  {
    EveryRunIsSound(env, steps);
    FailuresBounded(Exec(env, steps).db.log, user, from, to, k);
    FailuresCountGuesses(env, steps, user, from, to);
  }

  // ------------------------------------------------ where a stored hash comes from

  /** A password proposed for an account, with its hash and whether it must be changed. */
  datatype Offer = Offer(name: Username, password: string, hash: string, mustChange: bool)

  function OfferOf(env: Env, step: Step): Option<Offer> {
    match step
    case ChangePassword(p, _, replacement, hash) => Some(Offer(p.username, replacement, hash, false))
    case FinishPasswordChange(p, _, replacement, hash) => Some(Offer(p.username, replacement, hash, false))
    case Bootstrap(username, _, _, password, hash, _) => Some(Offer(env.Normalize(username), password, hash, false))
    case CreateUser(_, username, _, _, password, hash, mustChange) =>
      Some(Offer(env.Normalize(username), password, hash, mustChange))
    case ResetPassword(_, target, temporary, hash) => Some(Offer(target, temporary, hash, true))
    case _ => None
  }

  /** The log says that the account got a password. */
  predicate PasswordEvent(e: AuditEvent, name: Username) {
    match e.body
    case PasswordChanged => e.actor == name
    case UserCreated(target, _) => target == name
    case UserPasswordReset(target) => target == name
    case _ => false
  }

  ghost predicate NewPasswordEvent(db: Db, db': Db, name: Username) {
    exists i :: |db.log| <= i < |db'.log| && PasswordEvent(db'.log[i], name)
  }

  /** The row holds the offered hash, and the password met the policy. */
  ghost predicate Holds(env: Env, users: map<Username, User>, o: Offer) {
    && o.name in users
    && users[o.name].passwordHash == o.hash && users[o.name].mustChangePassword == o.mustChange
    && MeetsPolicy(env, o.password, o.name)
  }

  /** The account's hash and pending-change flag are what they were. */
  ghost predicate PasswordKept(users: map<Username, User>, users': map<Username, User>, name: Username) {
    && (name in users <==> name in users')
    && (name in users ==> users'[name].passwordHash == users[name].passwordHash
                          && users'[name].mustChangePassword == users[name].mustChangePassword)
  }

  /** Either the log names the account and it now holds what the step offered, or its password is kept. */
  ghost predicate PasswordFollows(env: Env, db: Db, t: Timed, db': Db, name: Username) {
    if NewPasswordEvent(db, db', name) then
      OfferOf(env, t.step).Some? && OfferOf(env, t.step).value.name == name
      && Holds(env, db'.users, OfferOf(env, t.step).value)
    else PasswordKept(db.users, db'.users, name)
  }

  ghost predicate GoodNames(env: Env, db: Db) {
    env.KeepsUsernames() && forall name :: name in db.users ==> ValidUsername(name)
  }

  lemma QuietStep(env: Env, db: Db, t: Timed, db': Db, name: Username)
    requires db' == db
    ensures PasswordFollows(env, db, t, db', name)
  {}

  lemma OneEventStep(env: Env, db: Db, t: Timed, db': Db, name: Username)
    requires |db'.log| == |db.log| + 1
    requires if PasswordEvent(db'.log[|db.log|], name)
             then OfferOf(env, t.step).Some? && OfferOf(env, t.step).value.name == name
                  && Holds(env, db'.users, OfferOf(env, t.step).value)
             else PasswordKept(db.users, db'.users, name)
    ensures PasswordFollows(env, db, t, db', name)
  {
    if PasswordEvent(db'.log[|db.log|], name) {
      assert NewPasswordEvent(db, db', name);
    }
  }

  lemma SignInKeepsPasswords(env: Env, db: Db, t: Timed, name: Username)
    requires t.step.SignIn?
    ensures PasswordFollows(env, db, t, NextDb(env, db, t), name)
  {
    LoginOutcome(env, db, t.now, t.step.username, t.step.password);
    var db' := NextDb(env, db, t);
    forall i | |db.log| <= i < |db'.log| ensures !PasswordEvent(db'.log[i], name) {}
  }

  lemma ValidationKeepsPasswords(env: Env, db: Db, now: Time, p: Principal, permission: Permissions.Permission,
                                 name: Username)
    ensures var db' := ValidateBlock(env, db, now, p).0;
            PasswordKept(db.users, db'.users, name) && !NewPasswordEvent(db, db', name)
    ensures var db' := RequireBlock(env, db, now, p, permission).0;
            PasswordKept(db.users, db'.users, name) && !NewPasswordEvent(db, db', name)
  {
    ValidateOutcome(env, db, now, p);
    RequireOutcome(env, db, now, p, permission);
  }

  lemma PasswordChangeFollows(env: Env, db: Db, t: Timed, p: Principal, current: string, replacement: string,
                              hash: string, name: Username)
    requires OfferOf(env, t.step) == Some(Offer(p.username, replacement, hash, false))
    ensures PasswordFollows(env, db, t, ChangePasswordBlock(env, db, t.now, p, current, replacement, hash).0, name)
  {
    ChangePasswordOutcome(env, db, t.now, p, current, replacement, hash);
    var (db', r) := ChangePasswordBlock(env, db, t.now, p, current, replacement, hash);
    if r.Ok? {
      OneEventStep(env, db, t, db', name);
    } else {
      QuietStep(env, db, t, db', name);
    }
  }

  lemma WholeChangeFollows(env: Env, db: Db, t: Timed, name: Username)
    requires t.step.ChangePassword?
    ensures PasswordFollows(env, db, t, NextDb(env, db, t), name)
  {
    var p := t.step.principal;
    ValidationKeepsPasswords(env, db, t.now, p, Permissions.ManageUsers, name);
    ValidateOutcome(env, db, t.now, p);
    var (db1, validated) := ValidateBlock(env, db, t.now, p);
    if validated.Ok? {
      PasswordChangeFollows(env, db1, t, validated.value, t.step.current, t.step.replacement, t.step.replacementHash,
                            name);
    }
  }

  lemma CreationFollows(env: Env, db: Db, t: Timed, actor: string, username: string, displayName: string,
                        role: Permissions.Role, password: string, hash: string, mustChange: bool, name: Username)
    requires GoodNames(env, db)
    requires OfferOf(env, t.step) == Some(Offer(env.Normalize(username), password, hash, mustChange))
    ensures var db' := CreateBlock(env, db, t.now, actor, username, displayName, role, password, hash, mustChange).0;
            PasswordFollows(env, db, t, db', name)
  {
    CreateOutcome(env, db, t.now, actor, username, displayName, role, password, hash, mustChange);
    var (db', r) := CreateBlock(env, db, t.now, actor, username, displayName, role, password, hash, mustChange);
    if r.Ok? {
      OneEventStep(env, db, t, db', name);
    } else {
      QuietStep(env, db, t, db', name);
    }
  }

  lemma RoleChangeKeeps(env: Env, db: Db, t: Timed, name: Username)
    requires t.step.ChangeRole?
    ensures PasswordFollows(env, db, t, NextDb(env, db, t), name)
  {
    ChangeRoleOutcome(env, db, t.now, t.step.principal, t.step.target, t.step.newRole);
    if NextDb(env, db, t) != db {
      OneEventStep(env, db, t, NextDb(env, db, t), name);
    }
  }

  lemma SwitchingKeeps(env: Env, db: Db, t: Timed, name: Username)
    requires t.step.SetActive?
    ensures PasswordFollows(env, db, t, NextDb(env, db, t), name)
  {
    SetActiveOutcome(env, db, t.now, t.step.principal, t.step.target, t.step.active);
    if NextDb(env, db, t) != db {
      OneEventStep(env, db, t, NextDb(env, db, t), name);
    }
  }

  lemma ResetFollows(env: Env, db: Db, t: Timed, name: Username)
    requires GoodNames(env, db) && t.step.ResetPassword?
    ensures PasswordFollows(env, db, t, NextDb(env, db, t), name)
  {
    ResetPasswordOutcome(env, db, t.now, t.step.principal, t.step.target, t.step.temporary, t.step.temporaryHash);
    if NextDb(env, db, t) != db {
      OneEventStep(env, db, t, NextDb(env, db, t), name);
    }
  }

  lemma StepFollows(env: Env, db: Db, t: Timed, name: Username)
    requires GoodNames(env, db)
    ensures PasswordFollows(env, db, t, NextDb(env, db, t), name)
  {
    match t.step
    case SignIn(_, _) => SignInKeepsPasswords(env, db, t, name);
    case Validate(p) => ValidationKeepsPasswords(env, db, t.now, p, Permissions.ManageUsers, name);
    case Require(p, permission) => ValidationKeepsPasswords(env, db, t.now, p, permission, name);
    case ChangePassword(_, _, _, _) => WholeChangeFollows(env, db, t, name);
    case FinishPasswordChange(p, current, replacement, hash) =>
      PasswordChangeFollows(env, db, t, p, current, replacement, hash, name);
    case Bootstrap(username, displayName, role, password, hash, actor) =>
      if SystemActor(actor) {
        CreationFollows(env, db, t, actor, username, displayName, role, password, hash, false, name);
      }
    case CreateUser(p, username, displayName, role, password, hash, mustChange) =>
      CreationFollows(env, db, t, p.username, username, displayName, role, password, hash, mustChange, name);
    case ChangeRole(_, _, _) => RoleChangeKeeps(env, db, t, name);
    case SetActive(_, _, _) => SwitchingKeeps(env, db, t, name);
    case ResetPassword(_, _, _, _) => ResetFollows(env, db, t, name);
    case _ =>
  }

  /** Step `m` gave the account a password. */
  ghost predicate SetPassword(env: Env, steps: seq<Timed>, m: nat, name: Username)
    requires m < |steps|
  {
    NewPasswordEvent(Exec(env, steps[..m]).db, Exec(env, steps[..m + 1]).db, name)
  }

  /** No step after `m` and before `n` gave the account a password. */
  ghost predicate NoneBetween(env: Env, steps: seq<Timed>, m: nat, n: nat, name: Username)
    requires n <= |steps|
  {
    forall j :: m < j < n ==> !SetPassword(env, steps, j, name)
  }

  /** Step `m` is the last one that gave the account a password, and the account holds what it offered. */
  ghost predicate PasswordFrom(env: Env, steps: seq<Timed>, m: nat, name: Username) {
    && m < |steps|
    && SetPassword(env, steps, m, name)
    && NoneBetween(env, steps, m, |steps|, name)
    && OfferOf(env, steps[m].step).Some?
    && OfferOf(env, steps[m].step).value.name == name
    && Holds(env, Exec(env, steps).db.users, OfferOf(env, steps[m].step).value)
  }

  lemma SetPasswordInPrefix(env: Env, steps: seq<Timed>, n: nat, j: nat, name: Username)
    requires j < n <= |steps|
    ensures SetPassword(env, steps[..n], j, name) <==> SetPassword(env, steps, j, name)
  {
    assert steps[..n][..j] == steps[..j] && steps[..n][..j + 1] == steps[..j + 1];
  }

  lemma HoldsStill(env: Env, users: map<Username, User>, users': map<Username, User>, o: Offer)
    requires Holds(env, users, o) && PasswordKept(users, users', o.name)
    ensures Holds(env, users', o)
  {}

  lemma NoneLater(env: Env, steps: seq<Timed>, n: nat, m: nat, name: Username)
    requires n <= |steps| && NoneBetween(env, steps[..n], m, n, name)
    ensures NoneBetween(env, steps, m, n, name)
  {
    forall j | m < j < n ensures !SetPassword(env, steps, j, name) {
      SetPasswordInPrefix(env, steps, n, j, name);
    }
  }

  lemma NoneInLast(env: Env, steps: seq<Timed>, m: nat, n: nat, name: Username)
    requires n < |steps| && NoneBetween(env, steps, m, n, name) && !SetPassword(env, steps, n, name)
    ensures NoneBetween(env, steps, m, n + 1, name)
  {}

  lemma PasswordStillFrom(env: Env, steps: seq<Timed>, m: nat, name: Username)
    requires steps != [] && PasswordFrom(env, steps[..|steps| - 1], m, name)
    requires var n := |steps| - 1;
             !SetPassword(env, steps, n, name)
             && PasswordKept(Exec(env, steps[..n]).db.users, Exec(env, steps).db.users, name)
    ensures PasswordFrom(env, steps, m, name)
  {
    var n := |steps| - 1;
    SetPasswordInPrefix(env, steps, n, m, name);
    NoneLater(env, steps, n, m, name);
    NoneInLast(env, steps, m, n, name);
    assert steps[..n][m] == steps[m];
    HoldsStill(env, Exec(env, steps[..n]).db.users, Exec(env, steps).db.users, OfferOf(env, steps[m].step).value);
  }

  /**
   Every account holds the hash, and the pending-change flag, that the last step to give it
   a password offered, and that password met the policy.
   */
  lemma {:induction false} EveryHashHasItsStep(env: Env, steps: seq<Timed>, name: Username) returns (m: nat)
    requires ValidRun(env, steps) && env.KeepsUsernames() && name in Exec(env, steps).db.users
    ensures PasswordFrom(env, steps, m, name)
  {
    var n := |steps| - 1;
    RunPrefix(env, steps, n);
    EveryRunIsSound(env, steps[..n]);
    StepFollows(env, Exec(env, steps[..n]).db, steps[n], name);
    assert steps[..n + 1] == steps;
    if SetPassword(env, steps, n, name) {
      m := n;
    } else {
      m := EveryHashHasItsStep(env, steps[..n], name);
      PasswordStillFrom(env, steps, m, name);
    }
  }

  /** The hash verifies for the password it was made of and for no other. */
  ghost predicate TellsPasswords(env: Env, o: Offer) {
    forall attempt :: env.verify(attempt, o.hash) <==> attempt == o.password
  }

  /**
   Which password opens an account, after any run: one that verifies against the hash of
   the last step that gave the account a password. If that hash tells passwords apart, it is
   that step's password and no other; an account that is locked or inactive opens to none.
   */
  lemma LastPasswordOpens(env: Env, steps: seq<Timed>, username: string, attempt: string, now: Time) returns (m: nat)
    requires ValidRun(env, steps) && env.KeepsUsernames()
    requires env.Normalize(username) in Exec(env, steps).db.users
    ensures PasswordFrom(env, steps, m, env.Normalize(username))
    ensures var db, o := Exec(env, steps).db, OfferOf(env, steps[m].step).value;
            var signedIn := LoginBlock(env, db, now, username, attempt).1.Some?;
            var open := PasswordDecides(db.users, env.Normalize(username), now);
            && (signedIn <==> open && env.verify(attempt, o.hash))
            && (TellsPasswords(env, o) ==> (signedIn <==> open && attempt == o.password))
  {
    m := EveryHashHasItsStep(env, steps, env.Normalize(username));
    LoginOutcome(env, Exec(env, steps).db, now, username, attempt);
  }
}
