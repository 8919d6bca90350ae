/**
 Human decisions on findings and scores (governance/approval_workflow.py and
 `GovernanceRepository`), and the two rules that pick the current score of a domain.
 */
module Governance {
  import opened Prelude
  import opened Store
  import opened Text

  datatype GovernanceError = NoReviewer | InvalidOutcome | ReasonRequired

  datatype ReviewDecision = ReviewDecision(
    findingId: string,
    newStatus: ReviewStatus,
    reviewedBy: string,
    reason: Option<string>)

  datatype OverrideDecision = OverrideDecision(
    originalScoreId: string,
    scanId: string,
    domain: string,
    newCategory: DecisionCategory,
    reviewedBy: string,
    reason: string,
    newWeightedScore: Option<real>)

  predicate Blank(text: string) {
    Strip(text) == ""
  }

  function CheckReview(decision: ReviewDecision): Option<GovernanceError> {
    if Blank(decision.reviewedBy) then Some(NoReviewer)
    else if decision.newStatus == Pending then Some(InvalidOutcome)
    else if decision.newStatus == Overridden && (decision.reason.None? || Blank(decision.reason.value))
        then Some(ReasonRequired)
    else None
  }

  function CheckOverride(decision: OverrideDecision): Option<GovernanceError> {
    if Blank(decision.reviewedBy) then Some(NoReviewer)
    else if Blank(decision.reason) then Some(ReasonRequired)
    else None
  }

  // ------------------------------------------------------- lookups by row id

  function FindFinding(findings: seq<Finding>, id: string): (found: Option<nat>)
    ensures found.Some? ==> found.value < |findings| && findings[found.value].id == id
    ensures found.None? ==> forall i :: 0 <= i < |findings| ==> findings[i].id != id
  {
    if findings == [] then None
    else if findings[|findings| - 1].id == id then Some(|findings| - 1)
    else FindFinding(findings[..|findings| - 1], id)
  }

  function FindScore(scores: seq<Score>, id: string): (found: Option<nat>)
    ensures found.Some? ==> found.value < |scores| && scores[found.value].id == id
    ensures found.None? ==> forall i :: 0 <= i < |scores| ==> scores[i].id != id
  {
    if scores == [] then None
    else if scores[|scores| - 1].id == id then Some(|scores| - 1)
    else FindScore(scores[..|scores| - 1], id)
  }

  // ------------------------------------------------------------- the actions

  function Reviewed(row: Finding, decision: ReviewDecision, now: Time): Finding {
    row.(humanReviewStatus := decision.newStatus, reviewedBy := Some(decision.reviewedBy), reviewedAt := Some(now))
  }

  /** `GovernanceRepository.review_finding`; `Ok(None)` when there is no such row. */
  function ReviewBlock(
    sanitize: string -> string, db: Db, now: Time, decision: ReviewDecision
  ): (Db, Result<Option<Finding>, GovernanceError>) {
    var problem := CheckReview(decision);
    if problem.Some? then (db, Err(problem.value))
    else
      var at := FindFinding(db.findings, decision.findingId);
      if at.None? then (db, Ok(None))
      else
        var row := Reviewed(db.findings[at.value], decision, now);
        (db.(findings := db.findings[at.value := row])
         .Record(now, decision.reviewedBy, FindingReviewed(sanitize(row.id), decision.newStatus)),
         Ok(Some(row)))
  }

  /** The row an override inserts: the original's evidence under a new verdict. */
  function OverrideRow(original: Score, decision: OverrideDecision, newId: string, now: Time): Score {
    original.(id := newId, scanId := decision.scanId, domain := decision.domain,
              weightedScore := if decision.newWeightedScore.Some? then decision.newWeightedScore
                  else original.weightedScore,
              decisionCategory := decision.newCategory, calculatedAt := now, overrideOf := Some(original.id))
  }

  /** `GovernanceRepository.override_score` */
  function OverrideBlock(
    sanitize: string -> string, db: Db, now: Time, decision: OverrideDecision, newId: string
  ): (Db, Result<Option<Score>, GovernanceError>) {
    var problem := CheckOverride(decision);
    if problem.Some? then (db, Err(problem.value))
    else
      var at := FindScore(db.scores, decision.originalScoreId);
      if at.None? then (db, Ok(None))
      else
        var row := OverrideRow(db.scores[at.value], decision, newId, now);
        (db.(scores := db.scores + [row])
         .Record(now, decision.reviewedBy,
                 ScoreOverridden(sanitize(row.overrideOf.value), sanitize(newId), sanitize(decision.domain))),
         Ok(Some(row)))
  }

  // ------------------------------------------- what the two decisions come to

  /** A review names a reviewer and an outcome, and an overridden finding needs a reason. */
  predicate ReviewInOrder(decision: ReviewDecision) {
    && HasText(decision.reviewedBy)
    && decision.newStatus != Pending
    && (decision.newStatus == Overridden ==> decision.reason.Some? && HasText(decision.reason.value))
  }

  /** The finding is as before, except that this decision was made on it. */
  predicate Decided(row: Finding, row': Finding, decision: ReviewDecision, now: Time) {
    && row'.humanReviewStatus == decision.newStatus
    && row'.reviewedBy == Some(decision.reviewedBy) && row'.reviewedAt == Some(now)
    && row == row'.(humanReviewStatus := row.humanReviewStatus, reviewedBy := row.reviewedBy,
                    reviewedAt := row.reviewedAt)
  }

  /** The last row of that id was decided, and the log says by whom and how. */
  ghost predicate FindingDecided(sanitize: string -> string, before: Db, now: Time, decision: ReviewDecision,
                                 after: Db, row: Finding) {
    && |after.findings| == |before.findings|
    && Logged(before, after, decision.reviewedBy,
              FindingReviewed(sanitize(decision.findingId), decision.newStatus), now)
    && exists i :: 0 <= i < |before.findings|
         && before.findings[i].id == decision.findingId && Decided(before.findings[i], row, decision, now)
         && after.findings[i] == row
         && forall j :: 0 <= j < |before.findings| && j != i ==> after.findings[j] == before.findings[j]
  }

  /** A review takes place exactly when it is in order and names a stored finding. */
  ghost predicate ReviewMeans(sanitize: string -> string, before: Db, now: Time, decision: ReviewDecision, after: Db,
                              r: Result<Option<Finding>, GovernanceError>) {
    var stored := exists f :: f in before.findings && f.id == decision.findingId;
    && (r.Ok? <==> ReviewInOrder(decision))
    && (r == Err(NoReviewer) <==> !HasText(decision.reviewedBy))
    && (r == Err(InvalidOutcome) <==> HasText(decision.reviewedBy) && decision.newStatus == Pending)
    && (r.Ok? ==> (r.value.Some? <==> stored))
    && (if r.Ok? && r.value.Some? then
          && after.users == before.users && after.scores == before.scores
          && FindingDecided(sanitize, before, now, decision, after, r.value.value)
        else after == before)
  }

  lemma ReviewOutcome(sanitize: string -> string, db: Db, now: Time, decision: ReviewDecision)
    ensures var (after, r) := ReviewBlock(sanitize, db, now, decision);
            ReviewMeans(sanitize, db, now, decision, after, r)
  {
    StripEmptyIff(decision.reviewedBy);
    if decision.reason.Some? {
      StripEmptyIff(decision.reason.value);
    }
    var at := FindFinding(db.findings, decision.findingId);
    if at.Some? {
      assert db.findings[at.value] in db.findings;
    }
  }

  /** An override names a reviewer and a reason. */
  predicate OverrideInOrder(decision: OverrideDecision) {
    HasText(decision.reviewedBy) && HasText(decision.reason)
  }

  /** The new row: the decision's verdict and score in the decision's slot, on the original's evidence. */
  predicate Replaces(original: Score, row: Score, decision: OverrideDecision, newId: string, now: Time) {
    && row.id == newId && row.overrideOf == Some(original.id) && row.calculatedAt == now
    && row.scanId == decision.scanId && row.domain == decision.domain
    && row.decisionCategory == decision.newCategory
    && (match decision.newWeightedScore
        case Some(score) => row.weightedScore == Some(score)
        case None => row.weightedScore == original.weightedScore)
    && row.rawScore == original.rawScore && row.confidenceLevel == original.confidenceLevel
    && row.evidenceCompleteness == original.evidenceCompleteness
    && row.filesEvaluated == original.filesEvaluated && row.findingsCount == original.findingsCount
  }

  /** An override takes place exactly when it is in order and names a stored score, which stays as it is. */
  ghost predicate OverrideMeans(sanitize: string -> string, before: Db, now: Time, decision: OverrideDecision,
                                newId: string, after: Db, r: Result<Option<Score>, GovernanceError>) {
    var stored := exists s :: s in before.scores && s.id == decision.originalScoreId;
    && (r.Ok? <==> OverrideInOrder(decision))
    && (r == Err(NoReviewer) <==> !HasText(decision.reviewedBy))
    && (r.Ok? ==> (r.value.Some? <==> stored))
    && (if r.Ok? && r.value.Some? then
          && after.users == before.users && after.findings == before.findings
          && after.scores == before.scores + [r.value.value]
          && (exists original :: original in before.scores && original.id == decision.originalScoreId
                                 && Replaces(original, r.value.value, decision, newId, now))
          && Logged(before, after, decision.reviewedBy,
                    ScoreOverridden(sanitize(decision.originalScoreId), sanitize(newId), sanitize(decision.domain)),
                    now)
        else after == before)
  }

  lemma OverrideOutcome(sanitize: string -> string, db: Db, now: Time, decision: OverrideDecision, newId: string)
    ensures var (after, r) := OverrideBlock(sanitize, db, now, decision, newId);
            OverrideMeans(sanitize, db, now, decision, newId, after, r)
  {
    StripEmptyIff(decision.reviewedBy);
    StripEmptyIff(decision.reason);
    var at := FindScore(db.scores, decision.originalScoreId);
    if at.Some? {
      assert db.scores[at.value] in db.scores;
    }
  }

  class GovernanceRepository {
    const db: Database
    const sanitize: string -> string

    constructor (db: Database, sanitize: string -> string)
      ensures this.db == db && this.sanitize == sanitize
    {
      this.db := db;
      this.sanitize := sanitize;
    }

    method ReviewFinding(decision: ReviewDecision, now: Time) returns (r: Result<Option<Finding>, GovernanceError>)
      modifies db
      ensures (db.State(), r) == ReviewBlock(sanitize, old(db.State()), now, decision)
      ensures ReviewMeans(sanitize, old(db.State()), now, decision, db.State(), r)
    {
      ReviewOutcome(sanitize, db.State(), now, decision);
      var problem := CheckReview(decision);
      if problem.Some? {
        return Err(problem.value);
      }
      var at := FindFinding(db.findings, decision.findingId);
      if at.None? {
        return Ok(None);
      }
      var row := db.findings[at.value];
      row := row.(humanReviewStatus := decision.newStatus);
      row := row.(reviewedBy := Some(decision.reviewedBy));
      row := row.(reviewedAt := Some(now));
      db.findings := db.findings[at.value := row];
      db.Record(now, decision.reviewedBy, FindingReviewed(sanitize(row.id), decision.newStatus));
      return Ok(Some(row));
    }

    method OverrideScore(decision: OverrideDecision, newId: string, now: Time)
      returns (r: Result<Option<Score>, GovernanceError>)
      modifies db
      ensures (db.State(), r) == OverrideBlock(sanitize, old(db.State()), now, decision, newId)
      ensures OverrideMeans(sanitize, old(db.State()), now, decision, newId, db.State(), r)
    {
      OverrideOutcome(sanitize, db.State(), now, decision, newId);
      var problem := CheckOverride(decision);
      if problem.Some? {
        return Err(problem.value);
      }
      var at := FindScore(db.scores, decision.originalScoreId);
      if at.None? {
        return Ok(None);
      }
      var original := db.scores[at.value];
      var weighted := original.weightedScore;
      if decision.newWeightedScore.Some? {
        weighted := decision.newWeightedScore;
      }
      var row := Score(newId, decision.scanId, decision.domain, original.rawScore, weighted,
                       original.confidenceLevel, original.evidenceCompleteness, decision.newCategory,
                       original.filesEvaluated, original.findingsCount, now, Some(original.id));
      db.scores := db.scores + [row];
      db.Record(now, decision.reviewedBy,
                ScoreOverridden(sanitize(original.id), sanitize(newId), sanitize(decision.domain)));
      return Ok(Some(row));
    }
  }

  // ------------------------------------------- two notions of "current score"

  /** `latest_scores_by_domain` on the rows of one query, in query order. */
  function Latest(rows: seq<Score>): map<string, Score> {
    if rows == [] then map[]
    else
      var before := Latest(rows[..|rows| - 1]);
      var row := rows[|rows| - 1];
      if row.domain !in before || row.calculatedAt >= before[row.domain].calculatedAt
      then before[row.domain := row]
      else before
  }

  function Superseded(rows: seq<Score>): set<string> {
    set row | row in rows && row.overrideOf.Some? :: row.overrideOf.value
  }

  function NewestKept(rows: seq<Score>, dropped: set<string>): map<string, Score> {
    if rows == [] then map[]
    else
      var before := NewestKept(rows[..|rows| - 1], dropped);
      var row := rows[|rows| - 1];
      if row.id in dropped then before
      else if row.domain !in before || row.calculatedAt > before[row.domain].calculatedAt
      then before[row.domain := row]
      else before
  }

  /** `effective_scores`: drop the rows some row overrides, then take the newest. */
  function Effective(rows: seq<Score>): map<string, Score> {
    NewestKept(rows, Superseded(rows))
  }

  method LatestScoresByDomain(rows: seq<Score>) returns (latest: map<string, Score>)
    ensures latest == Latest(rows)
  {
    latest := map[];
    for i := 0 to |rows|
      invariant latest == Latest(rows[..i])
    {
      assert rows[..i + 1][..i] == rows[..i];
      var row := rows[i];
      if row.domain !in latest || row.calculatedAt >= latest[row.domain].calculatedAt {
        latest := latest[row.domain := row];
      }
    }
    assert rows[..|rows|] == rows;
  }

  method EffectiveScores(rows: seq<Score>) returns (effective: map<string, Score>)
    ensures effective == Effective(rows)
  {
    var superseded := set row | row in rows && row.overrideOf.Some? :: row.overrideOf.value;
    effective := map[];
    for i := 0 to |rows|
      invariant effective == NewestKept(rows[..i], superseded)
    {
      assert rows[..i + 1][..i] == rows[..i];
      var row := rows[i];
      if row.id in superseded {
        continue;
      }
      if row.domain !in effective || row.calculatedAt > effective[row.domain].calculatedAt {
        effective := effective[row.domain := row];
      }
    }
    assert rows[..|rows|] == rows;
  }
}
