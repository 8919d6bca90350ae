/**
 The tables the platform writes, as values: the `users`, `findings` and `scores`
 rows and the append-only `audit_events` log.

 A `with session()` block reads and writes these tables as one atomic step.
 Times are whole microseconds. A user row is identified by its username, which is
 unique and never changes.
 */
module Store {
  import opened Prelude
  import opened Permissions

  type Time = int
  type Username = string

  datatype User = User(
    displayName: string,
    passwordHash: string,
    role: Role,
    isActive: bool,
    mustChangePassword: bool,
    failedAttempts: nat,
    lockedUntil: Option<Time>,
    sessionVersion: nat,
    lastLoginAt: Option<Time>)

  datatype Severity = Critical | High | Medium | Low | Info

  datatype Confidence = HighConfidence | MediumConfidence | LowConfidence

  datatype Completeness = Complete | Partial | Insufficient

  datatype DecisionCategory =
    | Acceptable
    | AcceptableWithObservations
    | RemediationRequired
    | HighRisk
    | CriticalRisk
    | InsufficientEvidence
    | ManualReviewRequired

  datatype ReviewStatus = Pending | Approved | Rejected | Overridden

  datatype Finding = Finding(
    id: string,
    scanId: string,
    ruleId: string,
    title: string,
    severity: Severity,
    confidence: Confidence,
    bankingDomains: seq<string>,
    sourceRelativePath: string,
    lineStart: Option<int>,
    maskedEvidence: Option<string>,
    humanReviewStatus: ReviewStatus,
    reviewedBy: Option<string>,
    reviewedAt: Option<Time>)

  datatype Score = Score(
    id: string,
    scanId: string,
    domain: string,
    rawScore: Option<real>,
    weightedScore: Option<real>,
    confidenceLevel: Confidence,
    evidenceCompleteness: Completeness,
    decisionCategory: DecisionCategory,
    filesEvaluated: nat,
    findingsCount: nat,
    calculatedAt: Time,
    overrideOf: Option<string>)

  datatype LoginFailure = UnknownAccount | AccountLocked | AccountInactive | InvalidPassword

  datatype DenialReason = PasswordChangeRequired | RoleNotPermitted

  /** The event types the modelled services write, with their payloads. */
  datatype EventBody =
    | UserLogin(role: Role)
    | UserLoginFailed(reason: LoginFailure)
    | UserLockedOut(until: Time)
    | UserLogout
    | SessionExpired
    | SessionInvalidated(inactive: bool)
    | PasswordChanged
    | UserCreated(target: string, role: Role)
    | UserRoleChanged(target: string, oldRole: Role, newRole: Role)
    | UserActivated(target: string)
    | UserDeactivated(target: string)
    | UserPasswordReset(target: string)
    | AccessDenied(permission: Permission, role: Role, denial: DenialReason)
    | FindingReviewed(findingId: string, newStatus: ReviewStatus)
    | ScoreOverridden(originalScoreId: string, newScoreId: string, domain: string)

  datatype AuditEvent = AuditEvent(actor: string, body: EventBody, at: Time)

  datatype Db = Db(
    users: map<Username, User>,
    findings: seq<Finding>,
    scores: seq<Score>,
    log: seq<AuditEvent>)
  {
    /** `AuditRepository.record`: the only writer of the log, and it only appends. */
    function Record(now: Time, actor: string, body: EventBody): Db {
      this.(log := log + [AuditEvent(actor, body, now)])
    }

    function WithUser(name: Username, row: User): Db {
      this.(users := users[name := row])
    }
  }

  /** The log grew by exactly one event. */
  predicate Logged(before: Db, after: Db, actor: string, body: EventBody, now: Time) {
    after.log == before.log + [AuditEvent(actor, body, now)]
  }

  const EMPTY_DB := Db(map[], [], [], [])

  /** The open database: the tables as fields that the services assign to. */
  class Database {
    var users: map<Username, User>
    var findings: seq<Finding>
    var scores: seq<Score>
    var log: seq<AuditEvent>

    constructor ()
      ensures State() == EMPTY_DB
    {
      users := map[];
      findings := [];
      scores := [];
      log := [];
    }

    function State(): Db
      reads this
    {
      Db(users, findings, scores, log)
    }

    method Record(now: Time, actor: string, body: EventBody)
      modifies this`log
      ensures State() == old(State()).Record(now, actor, body)
    {
      log := log + [AuditEvent(actor, body, now)];
    }
  }
}
