/**
 The audit log holds the governance decisions in full: over whole runs the review state of
 every finding, and the list of override rows, can be read off it.
 */
module DecisionLog {
  import opened Prelude
  import opened Store
  import opened Accounts
  import opened Governance
  import opened AccountRuns
  import opened AccountSafety
  import Finalization

  // ------------------------------------------------- which steps touch what

  lemma OnlyReviewsTouchFindings(env: Env, db: Db, t: Timed)
    requires !t.step.Review? && !t.step.Assess?
    ensures NextDb(env, db, t).findings == db.findings
  {}

  lemma OnlyOverridesTouchScores(env: Env, db: Db, t: Timed)
    requires !t.step.OverrideScore? && !t.step.Assess?
    ensures NextDb(env, db, t).scores == db.scores
  {}

  /** Only review steps log reviews, and only override steps log overrides. */
  lemma DecisionsAreLoggedByTheirSteps(env: Env, w: World, t: Timed)
    requires Enabled(w, t)
    ensures w.db.log <= NextDb(env, w.db, t).log
    ensures forall i :: |w.db.log| <= i < |NextDb(env, w.db, t).log| ==>
              && (NextDb(env, w.db, t).log[i].body.FindingReviewed? ==> t.step.Review?)
              && (NextDb(env, w.db, t).log[i].body.ScoreOverridden? ==> t.step.OverrideScore?)
  {
    NewEvents(env, w, t);
  }

  // ------------------------------------------------------------------ reviews

  predicate ReviewOf(e: AuditEvent, id: string) {
    e.body.FindingReviewed? && e.body.findingId == id
  }

  /** The last review of the finding in the log. */
  function LastReview(log: seq<AuditEvent>, id: string): (last: Option<AuditEvent>)
    ensures last.Some? ==> ReviewOf(last.value, id)
  {
    if log == [] then None
    else if ReviewOf(log[|log| - 1], id) then Some(log[|log| - 1])
    else LastReview(log[..|log| - 1], id)
  }

  /** The finding stands as its last logged review left it, or is pending. */
  ghost predicate StandsAsLogged(log: seq<AuditEvent>, f: Finding) {
    match LastReview(log, f.id)
    case None => f.humanReviewStatus == Pending && f.reviewedBy.None?
    case Some(e) =>
      && f.humanReviewStatus == e.body.newStatus && f.reviewedBy == Some(e.actor) && f.reviewedAt == Some(e.at)
  }

  /** Ids are the table's primary key, and the sanitiser leaves them alone. */
  ghost predicate GoodIds(env: Env, findings: seq<Finding>) {
    Finalization.DistinctIds(findings) && forall f :: f in findings ==> env.sanitize(f.id) == f.id
  }

  ghost predicate Known(findings: seq<Finding>, id: string) {
    exists f :: f in findings && f.id == id
  }

  ghost predicate ReviewsLogged(db: Db) {
    && (forall i :: 0 <= i < |db.log| && db.log[i].body.FindingReviewed? ==>
          Known(db.findings, db.log[i].body.findingId))
    && (forall f :: f in db.findings ==> StandsAsLogged(db.log, f))
  }

  lemma {:induction false} LastReviewSkips(log: seq<AuditEvent>, log': seq<AuditEvent>, id: string)
    requires log <= log' && forall i :: |log| <= i < |log'| ==> !ReviewOf(log'[i], id)
    ensures LastReview(log', id) == LastReview(log, id)
    decreases |log'|
  {
    if |log'| > |log| {
      LastReviewSkips(log, log'[..|log'| - 1], id);
    } else {
      assert log' == log;
    }
  }

  lemma {:induction false} NeverReviewed(log: seq<AuditEvent>, id: string)
    requires forall i :: 0 <= i < |log| ==> !ReviewOf(log[i], id)
    ensures LastReview(log, id).None?
  {
    if log != [] {
      NeverReviewed(log[..|log| - 1], id);
    }
  }

  /** A step that logs no review leaves the old findings as logged; a new one is pending and unknown. */
  lemma OtherStepKeepsReviews(db: Db, db': Db)
    requires ReviewsLogged(db) && db.log <= db'.log && db.findings <= db'.findings
    requires Finalization.DistinctIds(db'.findings)
    requires forall i :: |db.log| <= i < |db'.log| ==> !db'.log[i].body.FindingReviewed?
    requires forall i :: |db.findings| <= i < |db'.findings| ==>
               db'.findings[i].humanReviewStatus == Pending && db'.findings[i].reviewedBy.None?
    ensures ReviewsLogged(db')
  {
    forall i | 0 <= i < |db'.log| && db'.log[i].body.FindingReviewed?
      ensures Known(db'.findings, db'.log[i].body.findingId) {
      var f :| f in db.findings && f.id == db.log[i].body.findingId;
      assert f in db'.findings;
    }
    forall i | 0 <= i < |db'.findings| ensures StandsAsLogged(db'.log, db'.findings[i]) {
      var f := db'.findings[i];
      LastReviewSkips(db.log, db'.log, f.id);
      if i < |db.findings| {
        assert f == db.findings[i] && f in db.findings;
      } else {
        NewFindingIsUnreviewed(db, db', i);
      }
    }
  }

  lemma NewFindingIsUnreviewed(db: Db, db': Db, i: nat)
    requires ReviewsLogged(db) && db.findings <= db'.findings && Finalization.DistinctIds(db'.findings)
    requires |db.findings| <= i < |db'.findings|
    ensures LastReview(db.log, db'.findings[i].id).None?
  {
    var id := db'.findings[i].id;
    forall f | f in db.findings ensures f.id != id {
      var j :| 0 <= j < |db.findings| && db.findings[j] == f;
      assert db'.findings[j] == f;
    }
    assert !Known(db.findings, id);
    NeverReviewed(db.log, id);
  }

  lemma LastReviewSnoc(log: seq<AuditEvent>, e: AuditEvent, id: string)
    ensures LastReview(log + [e], id) == if ReviewOf(e, id) then Some(e) else LastReview(log, id)
  {
    assert (log + [e])[..|log|] == log;
  }

  lemma ReviewStepKeepsReviews(env: Env, db: Db, now: Time, decision: ReviewDecision)
    requires ReviewsLogged(db) && GoodIds(env, db.findings)
    ensures ReviewsLogged(ReviewBlock(env.sanitize, db, now, decision).0)
  {
    ReviewOutcome(env.sanitize, db, now, decision);
    var (db', r) := ReviewBlock(env.sanitize, db, now, decision);
    if r.Ok? && r.value.Some? {
      var i :| 0 <= i < |db.findings| && db.findings[i].id == decision.findingId
        && Decided(db.findings[i], r.value.value, decision, now) && db'.findings[i] == r.value.value
        && forall j :: 0 <= j < |db.findings| && j != i ==> db'.findings[j] == db.findings[j];
      DecidedFindingStands(env, db, db', now, decision, i);
    }
  }

  lemma DecidedFindingStands(env: Env, db: Db, db': Db, now: Time, decision: ReviewDecision, i: nat)
    requires ReviewsLogged(db) && GoodIds(env, db.findings) && i < |db.findings| == |db'.findings|
    requires db.findings[i].id == decision.findingId && Decided(db.findings[i], db'.findings[i], decision, now)
    requires forall j :: 0 <= j < |db.findings| && j != i ==> db'.findings[j] == db.findings[j]
    requires Logged(db, db', decision.reviewedBy,
                    FindingReviewed(env.sanitize(decision.findingId), decision.newStatus), now)
    ensures ReviewsLogged(db')
  {
    var e := db'.log[|db.log|];
    assert db.findings[i] in db.findings && db'.findings[i] in db'.findings;
    assert e.body.findingId == db'.findings[i].id == decision.findingId;
    forall k | 0 <= k < |db'.log| && db'.log[k].body.FindingReviewed?
      ensures Known(db'.findings, db'.log[k].body.findingId) {
      if k < |db.log| {
        var f :| f in db.findings && f.id == db.log[k].body.findingId;
        var j :| 0 <= j < |db.findings| && db.findings[j] == f;
        assert db'.findings[j] in db'.findings && db'.findings[j].id == f.id;
      }
    }
    forall j | 0 <= j < |db'.findings| ensures StandsAsLogged(db'.log, db'.findings[j]) {
      LastReviewSnoc(db.log, e, db'.findings[j].id);
      assert db.findings[j] in db.findings;
    }
  }

  lemma FindingsGrow(env: Env, w: World, t: Timed)
    ensures var before, after := w.db.findings, NextDb(env, w.db, t).findings;
            && |before| <= |after|
            && forall i :: 0 <= i < |before| ==> after[i].id == before[i].id
  {
    match t.step
    case Review(p, id, newStatus, reason) =>
    case Assess(_, _) =>
    case _ => OnlyReviewsTouchFindings(env, w.db, t);
  }

  lemma GoodIdsBefore(env: Env, before: seq<Finding>, after: seq<Finding>)
    requires GoodIds(env, after) && |before| <= |after|
    requires forall i :: 0 <= i < |before| ==> after[i].id == before[i].id
    ensures GoodIds(env, before)
  {
    forall f | f in before ensures env.sanitize(f.id) == f.id {
      var i :| 0 <= i < |before| && before[i] == f;
      assert after[i] in after;
    }
  }

  /**
   The log rebuilds the reviews: after every run each finding has the status, reviewer and
   time of its last review event, and is pending without one.
   */
  lemma {:induction false} AuditLogRebuildsReviews(env: Env, steps: seq<Timed>)
    requires ValidRun(env, steps) && GoodIds(env, Exec(env, steps).db.findings)
    ensures ReviewsLogged(Exec(env, steps).db)
  {
    if steps != [] {
      var n := |steps| - 1;
      var w, t := Exec(env, steps[..n]), steps[n];
      RunPrefix(env, steps, n);
      FindingsGrow(env, w, t);
      GoodIdsBefore(env, w.db.findings, NextDb(env, w.db, t).findings);
      AuditLogRebuildsReviews(env, steps[..n]);
      StepKeepsReviews(env, w, t);
    }
  }

  lemma StepKeepsReviews(env: Env, w: World, t: Timed)
    requires Enabled(w, t) && ReviewsLogged(w.db) && GoodIds(env, w.db.findings)
    requires Finalization.DistinctIds(NextDb(env, w.db, t).findings)
    ensures ReviewsLogged(NextDb(env, w.db, t))
  {
    if t.step.Review? {
      ReviewStepKeepsReviews(env, w.db, t.now, ReviewDecision(t.step.findingId, t.step.newStatus,
                                                              t.step.principal.username, t.step.reason));
    } else {
      DecisionsAreLoggedByTheirSteps(env, w, t);
      if !t.step.Assess? {
        OnlyReviewsTouchFindings(env, w.db, t);
      }
      OtherStepKeepsReviews(w.db, NextDb(env, w.db, t));
    }
  }

  // ---------------------------------------------------------------- overrides

  /** What the log says about the override rows, in order. */
  function OverrideEvents(log: seq<AuditEvent>): seq<(EventBody, Time)> {
    if log == [] then []
    else
      var e := log[|log| - 1];
      OverrideEvents(log[..|log| - 1]) + if e.body.ScoreOverridden? then [(e.body, e.at)] else []
  }

  /** The override rows of the table, in order, as the log would name them. */
  function OverrideRows(env: Env, scores: seq<Score>): seq<(EventBody, Time)> {
    if scores == [] then []
    else
      var row := scores[|scores| - 1];
      OverrideRows(env, scores[..|scores| - 1])
      + match row.overrideOf
        case None => []
        case Some(original) =>
          [(ScoreOverridden(env.sanitize(original), env.sanitize(row.id), env.sanitize(row.domain)), row.calculatedAt)]
  }

  lemma {:induction false} NoOverrideEvents(log: seq<AuditEvent>, log': seq<AuditEvent>)
    requires log <= log' && forall i :: |log| <= i < |log'| ==> !log'[i].body.ScoreOverridden?
    ensures OverrideEvents(log') == OverrideEvents(log)
    decreases |log'|
  {
    if |log'| > |log| {
      NoOverrideEvents(log, log'[..|log'| - 1]);
    } else {
      assert log' == log;
    }
  }

  lemma {:induction false} NoOverrideRows(env: Env, scores: seq<Score>, more: seq<Score>)
    requires forall s :: s in more ==> s.overrideOf.None?
    ensures OverrideRows(env, scores + more) == OverrideRows(env, scores)
  {
    if more != [] {
      var n := |more| - 1;
      assert (scores + more)[..|scores| + n] == scores + more[..n];
      assert more[n] in more;
      NoOverrideRows(env, scores, more[..n]);
    } else {
      assert scores + more == scores;
    }
  }

  lemma OverrideStepIsLogged(env: Env, db: Db, now: Time, decision: OverrideDecision, newId: string)
    requires OverrideEvents(db.log) == OverrideRows(env, db.scores)
    ensures var db' := OverrideBlock(env.sanitize, db, now, decision, newId).0;
            OverrideEvents(db'.log) == OverrideRows(env, db'.scores)
  {
    OverrideOutcome(env.sanitize, db, now, decision, newId);
    var (db', r) := OverrideBlock(env.sanitize, db, now, decision, newId);
    if r.Ok? && r.value.Some? {
      assert db'.log[..|db.log|] == db.log && db'.scores[..|db.scores|] == db.scores;
    }
  }

  /**
   The log rebuilds the overrides: after every run its override events are, in order and
   with their times, exactly the override rows of the table, each with the row it replaced.
   */
  lemma {:induction false} AuditLogRebuildsOverrides(env: Env, steps: seq<Timed>)
    requires ValidRun(env, steps)
    ensures OverrideEvents(Exec(env, steps).db.log) == OverrideRows(env, Exec(env, steps).db.scores)
  {
    if steps != [] {
      var n := |steps| - 1;
      var w, t := Exec(env, steps[..n]), steps[n];
      RunPrefix(env, steps, n);
      AuditLogRebuildsOverrides(env, steps[..n]);
      StepKeepsOverrides(env, w, t);
    }
  }

  lemma StepKeepsOverrides(env: Env, w: World, t: Timed)
    requires Enabled(w, t) && OverrideEvents(w.db.log) == OverrideRows(env, w.db.scores)
    ensures OverrideEvents(NextDb(env, w.db, t).log) == OverrideRows(env, NextDb(env, w.db, t).scores)
  {
    if t.step.OverrideScore? {
      OverrideStepIsLogged(env, w.db, t.now, t.step.decision, t.step.newId);
    } else {
      DecisionsAreLoggedByTheirSteps(env, w, t);
      NoOverrideEvents(w.db.log, NextDb(env, w.db, t).log);
      if t.step.Assess? {
        NoOverrideRows(env, w.db.scores, t.step.scores);
      } else {
        OnlyOverridesTouchScores(env, w.db, t);
      }
    }
  }
}
