/**
 The audit log read as an event source. `Replay` folds a log into accounts; `LegalLog`
 says which events may follow which; the version count and the lockout bound are
 theorems about every legal log, and `AccountRuns` shows every run writes one.
 */
module AccountLog {
  import opened Prelude
  import opened Permissions
  import opened Store
  import opened Accounts

  /**
   What the log knows about an account. `lockPending` holds between the lock-out event
   of a failed sign-in and the failure event the same call writes next.
   */
  datatype Account = Account(
    role: Role,
    isActive: bool,
    failedAttempts: nat,
    lockedUntil: Option<Time>,
    sessionVersion: nat,
    lockPending: bool)

  type AccountTable = map<string, Account>

  function VersionUp(account: Account): Account {
    account.(sessionVersion := account.sessionVersion + 1)
  }

  function Cleared(account: Account): Account {
    account.(failedAttempts := 0, lockedUntil := None)
  }

  /** The account an event is about, for the events that change one. */
  function Subject(e: AuditEvent): Option<string> {
    match e.body
    case UserLogin(_) => Some(e.actor)
    case UserLoginFailed(reason) => if reason == InvalidPassword then Some(e.actor) else None
    case UserLockedOut(_) => Some(e.actor)
    case PasswordChanged => Some(e.actor)
    case UserCreated(target, _) => Some(target)
    case UserRoleChanged(target, _, _) => Some(target)
    case UserActivated(target) => Some(target)
    case UserDeactivated(target) => Some(target)
    case UserPasswordReset(target) => Some(target)
    case _ => None
  }

  /** One event's effect on the account it is about. */
  function Effect(account: Account, e: AuditEvent): Account {
    match e.body
    case UserLogin(_) => Cleared(account)
    case UserLoginFailed(_) =>
      if account.lockPending then account.(lockPending := false)
      else account.(failedAttempts := account.failedAttempts + 1)
    case UserLockedOut(until) => account.(failedAttempts := 0, lockedUntil := Some(until), lockPending := true)
    case PasswordChanged => VersionUp(account)
    case UserRoleChanged(_, _, newRole) => VersionUp(account).(role := newRole)
    case UserActivated(_) => Cleared(VersionUp(account)).(isActive := true)
    case UserDeactivated(_) => VersionUp(account).(isActive := false)
    case UserPasswordReset(_) => Cleared(VersionUp(account))
    case _ => account
  }

  function ReplayEvent(accounts: AccountTable, e: AuditEvent): AccountTable {
    var subject := Subject(e);
    if subject.None? then accounts
    else if e.body.UserCreated? then accounts[subject.value := Account(e.body.role, true, 0, None, 1, false)]
    else if subject.value !in accounts then accounts
    else accounts[subject.value := Effect(accounts[subject.value], e)]
  }

  function Replay(log: seq<AuditEvent>): AccountTable {
    if log == [] then map[]
    else ReplayEvent(Replay(log[..|log| - 1]), log[|log| - 1])
  }

  lemma ReplayAppend(log: seq<AuditEvent>, e: AuditEvent)
    ensures Replay(log + [e]) == ReplayEvent(Replay(log), e)
  {
    assert (log + [e])[..|log|] == log;
  }

  // ------------------------------------------------------------- legal events

  ghost predicate LockedAt(account: Account, at: Time) {
    account.lockedUntil.Some? && at < account.lockedUntil.value
  }

  /** The event may happen to an account as it stands. */
  ghost predicate LegalChange(account: Account, e: AuditEvent) {
    match e.body
    case UserLoginFailed(_) =>
      if account.lockPending then account.lockedUntil == Some(e.at + LOCKOUT_DURATION)
      else !LockedAt(account, e.at) && account.failedAttempts + 1 < MAX_FAILED_ATTEMPTS
    case UserLockedOut(until) =>
      && !account.lockPending && !LockedAt(account, e.at)
      && account.failedAttempts + 1 == MAX_FAILED_ATTEMPTS && until == e.at + LOCKOUT_DURATION
    case _ => !account.lockPending
  }

  /** The event may follow a log that replays to `accounts`. */
  ghost predicate LegalEvent(accounts: AccountTable, e: AuditEvent) {
    var subject := Subject(e);
    subject.Some? ==>
      if e.body.UserCreated? then subject.value !in accounts
      else subject.value in accounts && LegalChange(accounts[subject.value], e)
  }

  /** An event about one account replays to that account's change alone. */
  lemma ChangeOfOne(accounts: AccountTable, e: AuditEvent, name: string)
    requires Subject(e) == Some(name) && !e.body.UserCreated? && name in accounts
    ensures ReplayEvent(accounts, e) == accounts[name := Effect(accounts[name], e)]
    ensures LegalEvent(accounts, e) <==> LegalChange(accounts[name], e)
  {}

  ghost predicate LegalLog(log: seq<AuditEvent>) {
    log == [] ||
    var n := |log| - 1;
    && LegalLog(log[..n])
    && LegalEvent(Replay(log[..n]), log[n])
    && (n > 0 ==> log[n - 1].at <= log[n].at)
  }

  lemma LegalAppend(log: seq<AuditEvent>, e: AuditEvent)
    requires LegalLog(log) && LegalEvent(Replay(log), e)
    requires log != [] ==> log[|log| - 1].at <= e.at
    ensures LegalLog(log + [e])
  {
    assert (log + [e])[..|log|] == log;
  }

  lemma {:induction false} TimesAscend(log: seq<AuditEvent>)
    requires LegalLog(log)
    ensures forall i, j :: 0 <= i <= j < |log| ==> log[i].at <= log[j].at
  {
    if log != [] {
      TimesAscend(log[..|log| - 1]);
    }
  }

  // ----------------------------------------------- the version is an event count

  /** The event ends every session the user has. */
  predicate BumpsVersion(e: AuditEvent, user: string) {
    match e.body
    case PasswordChanged => e.actor == user
    case UserRoleChanged(target, _, _) => target == user
    case UserActivated(target) => target == user
    case UserDeactivated(target) => target == user
    case UserPasswordReset(target) => target == user
    case _ => false
  }

  function Bumps(log: seq<AuditEvent>, user: string): nat {
    Count((e: AuditEvent) => BumpsVersion(e, user), log)
  }

  lemma {:induction false} VersionCountsBumps(log: seq<AuditEvent>, user: string)
    requires LegalLog(log)
    ensures if user in Replay(log) then Replay(log)[user].sessionVersion == 1 + Bumps(log, user)
            else Bumps(log, user) == 0
  {
    if log != [] {
      var n := |log| - 1;
      VersionCountsBumps(log[..n], user);
      assert log == log[..n] + [log[n]];
      CountSnoc((e: AuditEvent) => BumpsVersion(e, user), log[..n], log[n]);
    }
  }

  /** Equal counts mean that nothing in between bumped the version. */
  lemma NoBumpBetween(log: seq<AuditEvent>, n: nat, user: string)
    requires n <= |log|
    ensures Bumps(log[..n], user) <= Bumps(log, user)
    ensures Bumps(log[..n], user) == Bumps(log, user) <==> forall i :: n <= i < |log| ==> !BumpsVersion(log[i], user)
  {
    var bump := (e: AuditEvent) => BumpsVersion(e, user);
    assert log == log[..n] + log[n..];
    CountConcat(bump, log[..n], log[n..]);
    if exists i :: n <= i < |log| && BumpsVersion(log[i], user) {
      var i :| n <= i < |log| && BumpsVersion(log[i], user);
      assert log[n..][i - n] == log[i];
      CountPositive(bump, log[n..], log[i]);
    } else {
      CountZero(bump, log[n..]);
    }
  }

  // ----------------------------------------------------------- the lockout bound

  /** A sign-in attempt that was checked against the stored hash and failed. */
  predicate RealFailure(e: AuditEvent, user: string) {
    e.body == UserLoginFailed(InvalidPassword) && e.actor == user
  }

  /** A successful sign-in, a password reset or a reactivation. */
  predicate ClearsLock(e: AuditEvent, user: string) {
    match e.body
    case UserLogin(_) => e.actor == user
    case UserActivated(target) => target == user
    case UserPasswordReset(target) => target == user
    case _ => false
  }

  function FailuresIn(log: seq<AuditEvent>, user: string, from: Time, to: Time): nat {
    Count((e: AuditEvent) => RealFailure(e, user) && from <= e.at < to, log)
  }

  function FailuresSince(log: seq<AuditEvent>, user: string, from: Time): nat {
    Count((e: AuditEvent) => RealFailure(e, user) && from <= e.at, log)
  }

  function LockoutsSince(log: seq<AuditEvent>, user: string, from: Time): nat {
    Count((e: AuditEvent) => e.body.UserLockedOut? && e.actor == user && from <= e.at, log)
  }

  ghost predicate NoClearIn(log: seq<AuditEvent>, user: string, from: Time, to: Time) {
    forall i :: 0 <= i < |log| && from <= log[i].at < to ==> !ClearsLock(log[i], user)
  }

  ghost predicate NoClearSince(log: seq<AuditEvent>, user: string, from: Time) {
    forall i :: 0 <= i < |log| && from <= log[i].at ==> !ClearsLock(log[i], user)
  }

  /** A lock-out stamped at or after `from` whose own failure event is still to be written. */
  ghost predicate FailureDue(account: Account, from: Time) {
    account.lockPending && account.lockedUntil.Some? && account.lockedUntil.value - LOCKOUT_DURATION >= from
  }

  /**
   While nothing clears the account, m lock-outs since `from` account for at most 5·m
   failures besides those still in the counter, and the last lock reaches past the m-th
   lock-out period.
   */
  ghost predicate Budget(accounts: AccountTable, user: string, from: Time, failures: nat, m: nat, quiet: bool) {
    if user !in accounts then failures == 0 && m == 0
    else
      var account := accounts[user];
      && account.failedAttempts < MAX_FAILED_ATTEMPTS
      && (account.lockPending ==> account.failedAttempts == 0 && account.lockedUntil.Some?)
      && (quiet ==>
           && failures + (if FailureDue(account, from) then 1 else 0) <= 5 * m + account.failedAttempts
           && (m > 0 ==> account.lockedUntil.Some? && account.lockedUntil.value >= from + LOCKOUT_DURATION * m))
  }

  lemma BudgetStep(accounts: AccountTable, user: string, from: Time, failures: nat, m: nat, quiet: bool,
                   e: AuditEvent, stillQuiet: bool)
    requires Budget(accounts, user, from, failures, m, quiet) && LegalEvent(accounts, e)
    requires stillQuiet ==> quiet && (from <= e.at ==> !ClearsLock(e, user))
    requires e.at < from ==> failures == 0 && m == 0
    ensures Budget(ReplayEvent(accounts, e), user, from,
                   failures + (if RealFailure(e, user) && from <= e.at then 1 else 0),
                   m + (if e.body.UserLockedOut? && e.actor == user && from <= e.at then 1 else 0), stillQuiet)
  {}

  ghost predicate LockBudget(log: seq<AuditEvent>, user: string, from: Time) {
    Budget(Replay(log), user, from, FailuresSince(log, user, from), LockoutsSince(log, user, from),
           NoClearSince(log, user, from))
  }

  lemma {:induction false} LockBudgetHolds(log: seq<AuditEvent>, user: string, from: Time)
    requires LegalLog(log)
    ensures LockBudget(log, user, from)
  {
    if log != [] {
      var n := |log| - 1;
      var before, e := log[..n], log[n];
      LockBudgetHolds(before, user, from);
      assert log == before + [e];
      CountSnoc((x: AuditEvent) => RealFailure(x, user) && from <= x.at, before, e);
      CountSnoc((x: AuditEvent) => x.body.UserLockedOut? && x.actor == user && from <= x.at, before, e);
      assert forall i :: 0 <= i < n ==> log[i] == before[i];
      if e.at < from && n > 0 {
        EarlyLogIsQuiet(before, user, from);
      }
      BudgetStep(Replay(before), user, from, FailuresSince(before, user, from), LockoutsSince(before, user, from),
                 NoClearSince(before, user, from), e, NoClearSince(log, user, from));
    }
  }

  /** Before the window opens there is nothing to count. */
  lemma EarlyLogIsQuiet(log: seq<AuditEvent>, user: string, from: Time)
    requires LegalLog(log) && log != [] && log[|log| - 1].at < from
    ensures FailuresSince(log, user, from) == 0 && LockoutsSince(log, user, from) == 0
  {
    TimesAscend(log);
    CountZero((e: AuditEvent) => RealFailure(e, user) && from <= e.at, log);
    CountZero((e: AuditEvent) => e.body.UserLockedOut? && e.actor == user && from <= e.at, log);
  }

  /** Inside a window that is still open, "in the window" and "since" count alike. */
  lemma OpenWindow(log: seq<AuditEvent>, user: string, from: Time, to: Time)
    requires LegalLog(log) && (log != [] ==> log[|log| - 1].at < to)
    ensures FailuresIn(log, user, from, to) == FailuresSince(log, user, from)
    ensures NoClearIn(log, user, from, to) ==> NoClearSince(log, user, from)
  {
    TimesAscend(log);
    CountAgree((e: AuditEvent) => RealFailure(e, user) && from <= e.at < to,
               (e: AuditEvent) => RealFailure(e, user) && from <= e.at, log);
  }

  /**
   Lockout bound: in every half-open window of k lock-out periods that holds no
   successful sign-in, reset or reactivation of the account, at most 5·k sign-in
   attempts fail against its stored hash.
   */
  lemma {:induction false} LockoutBound(log: seq<AuditEvent>, user: string, from: Time, k: nat)
    requires LegalLog(log) && k >= 1
    requires NoClearIn(log, user, from, from + LOCKOUT_DURATION * k)
    ensures FailuresIn(log, user, from, from + LOCKOUT_DURATION * k) <= 5 * k
  {
    if log != [] {
      var to := from + LOCKOUT_DURATION * k;
      var n := |log| - 1;
      var before, e := log[..n], log[n];
      assert log == before + [e];
      CountSnoc((x: AuditEvent) => RealFailure(x, user) && from <= x.at < to, before, e);
      assert NoClearIn(before, user, from, to) by {
        assert forall i :: 0 <= i < n ==> log[i] == before[i];
      }
      if RealFailure(e, user) && from <= e.at < to {
        OpenWindow(before, user, from, to);
        LockBudgetHolds(before, user, from);
        WindowHolds(LockoutsSince(before, user, from), k, from, e.at, Replay(before)[user]);
      } else {
        LockoutBound(before, user, from, k);
      }
    }
  }

  /** If the account is open for one more failure at `at`, few lock-outs fit before it. */
  lemma WindowHolds(m: nat, k: nat, from: Time, at: Time, account: Account)
    requires k >= 1 && at < from + LOCKOUT_DURATION * k
    requires m > 0 ==> account.lockedUntil.Some? && account.lockedUntil.value >= from + LOCKOUT_DURATION * m
    requires if account.lockPending then account.lockedUntil == Some(at + LOCKOUT_DURATION) else !LockedAt(account, at)
    ensures if account.lockPending then m <= k else m < k
  {}
}
