/**
 Runs of the score table: scoring batches and human overrides in any order.

 Results: every override chain leads back to a row that scoring produced and carries
 that row's evidence; nothing already written changes; and the two rules for the
 current score agree on every run whose overrides stay in their own domain, with the
 exact condition under which one override breaks the agreement.
 */
module ScoreLog {
  import opened Prelude
  import opened Store
  import opened Governance

  datatype ScoreStep =
    | ScoreScan(rows: seq<Score>)
    | Override(decision: OverrideDecision, newId: string, now: Time)

  function IdsOf(scores: seq<Score>): set<string> {
    set row | row in scores :: row.id
  }

  predicate SameSlot(a: Score, b: Score) {
    a.scanId == b.scanId && a.domain == b.domain
  }

  /** A new row is stamped later than every row of its scan and domain. */
  ghost predicate Later(scores: seq<Score>, row: Score) {
    forall prior :: prior in scores && SameSlot(prior, row) ==> prior.calculatedAt < row.calculatedAt
  }

  /** What one `score_scan` call inserts: one row a domain, none of them an override. */
  ghost predicate ScoringBatch(scores: seq<Score>, rows: seq<Score>) {
    && (forall i, j :: 0 <= i < j < |rows| ==> rows[i].id != rows[j].id && !SameSlot(rows[i], rows[j]))
    && (forall row :: row in rows ==> row.overrideOf.None? && row.id !in IdsOf(scores) && Later(scores, row))
  }

  /** The step can be taken: ids are fresh and the clock has moved on. */
  ghost predicate Enabled(scores: seq<Score>, step: ScoreStep) {
    match step
    case ScoreScan(rows) => ScoringBatch(scores, rows)
    case Override(decision, newId, now) =>
      && newId !in IdsOf(scores)
      && forall prior :: prior in scores && prior.scanId == decision.scanId && prior.domain == decision.domain
                       ==> prior.calculatedAt < now
  }

  function Apply(scores: seq<Score>, step: ScoreStep): seq<Score> {
    match step
    case ScoreScan(rows) => scores + rows
    case Override(decision, newId, now) =>
      var at := FindScore(scores, decision.originalScoreId);
      if CheckOverride(decision).Some? || at.None? then scores
      else scores + [OverrideRow(scores[at.value], decision, newId, now)]
  }

  function Exec(steps: seq<ScoreStep>): seq<Score> {
    if steps == [] then []
    else Apply(Exec(steps[..|steps| - 1]), steps[|steps| - 1])
  }

  ghost predicate ValidRun(steps: seq<ScoreStep>) {
    forall k :: 0 <= k < |steps| ==> Enabled(Exec(steps[..k]), steps[k])
  }

  /** The override step on tables is the step of this machine. */
  lemma OverrideBlockIsStep(sanitize: string -> string, db: Db, now: Time, decision: OverrideDecision, newId: string)
    ensures OverrideBlock(sanitize, db, now, decision, newId).0.scores
            == Apply(db.scores, Override(decision, newId, now))
  {}

  // ------------------------------------------------------------------ lineage

  predicate SameEvidence(a: Score, b: Score) {
    && a.rawScore == b.rawScore
    && a.confidenceLevel == b.confidenceLevel
    && a.evidenceCompleteness == b.evidenceCompleteness
    && a.filesEvaluated == b.filesEvaluated
    && a.findingsCount == b.findingsCount
  }

  ghost predicate OverridesAt(scores: seq<Score>, i: nat, j: nat)
    requires i < |scores| && j < |scores|
  {
    scores[i].overrideOf == Some(scores[j].id)
  }

  /** Ids are unique, and every override points at an earlier row with its evidence. */
  ghost predicate Lineage(scores: seq<Score>) {
    && (forall i, j :: 0 <= i < j < |scores| ==> scores[i].id != scores[j].id)
    && (forall i :: 0 <= i < |scores| && scores[i].overrideOf.Some? ==>
         exists j :: 0 <= j < i && OverridesAt(scores, i, j) && SameEvidence(scores[i], scores[j]))
  }

  lemma {:induction false} EveryRunKeepsLineage(steps: seq<ScoreStep>)
    requires ValidRun(steps)
    ensures Lineage(Exec(steps))
  {
    if steps != [] {
      var n := |steps| - 1;
      RunPrefix(steps, n);
      EveryRunKeepsLineage(steps[..n]);
      StepKeepsLineage(Exec(steps[..n]), steps[n]);
    }
  }

  lemma RunPrefix(steps: seq<ScoreStep>, n: nat)
    requires ValidRun(steps) && n <= |steps|
    ensures ValidRun(steps[..n])
  {
    forall k | 0 <= k < n ensures Enabled(Exec(steps[..n][..k]), steps[..n][k]) {
      assert steps[..n][..k] == steps[..k];
    }
  }

  /** A link of the log so far is a link of any longer log. */
  lemma LinkSurvives(scores: seq<Score>, more: seq<Score>, i: nat)
    requires Lineage(scores) && i < |scores| && scores[i].overrideOf.Some?
    ensures exists j ::
          0 <= j < i && OverridesAt(scores + more, i, j)
          && SameEvidence((scores + more)[i], (scores + more)[j])
  {
    var j :| 0 <= j < i && OverridesAt(scores, i, j) && SameEvidence(scores[i], scores[j]);
    assert OverridesAt(scores + more, i, j);
  }

  lemma OverrideRowIsLinked(scores: seq<Score>, decision: OverrideDecision, newId: string, now: Time, at: nat)
    requires at < |scores|
    ensures var after := scores + [OverrideRow(scores[at], decision, newId, now)];
            OverridesAt(after, |scores|, at) && SameEvidence(after[|scores|], after[at])
  {}

  lemma StepKeepsLineage(scores: seq<Score>, step: ScoreStep)
    requires Lineage(scores) && Enabled(scores, step)
    ensures Lineage(Apply(scores, step))
  {
    var after := Apply(scores, step);
    assert forall i :: 0 <= i < |scores| ==> scores[i].id in IdsOf(scores);
    forall i | 0 <= i < |after| && after[i].overrideOf.Some?
      ensures exists j :: 0 <= j < i && OverridesAt(after, i, j) && SameEvidence(after[i], after[j])
    {
      if i < |scores| {
        assert after == scores + after[|scores|..];
        LinkSurvives(scores, after[|scores|..], i);
      } else if step.Override? {
        OverrideRowIsLinked(scores, step.decision, step.newId, step.now,
                            FindScore(scores, step.decision.originalScoreId).value);
      }
    }
  }

  /** The row an override replaces. */
  ghost function Parent(scores: seq<Score>, i: nat): (j: nat)
    requires Lineage(scores) && i < |scores| && scores[i].overrideOf.Some?
    ensures j < i && OverridesAt(scores, i, j) && SameEvidence(scores[i], scores[j])
  {
    var j: nat :| j < i && OverridesAt(scores, i, j) && SameEvidence(scores[i], scores[j]);
    j
  }

  /** Following `override_of` from row `i`; it terminates because links go backwards. */
  ghost function Chain(scores: seq<Score>, i: nat): seq<nat>
    requires Lineage(scores) && i < |scores|
    decreases i
  {
    if scores[i].overrideOf.None? then [i] else [i] + Chain(scores, Parent(scores, i))
  }

  /** The row `i` was, in the end, produced by: a row of some scoring batch. */
  ghost predicate ProducedByScoring(steps: seq<ScoreStep>, row: Score) {
    exists k :: 0 <= k < |steps| && steps[k].ScoreScan? && row in steps[k].rows
  }

  lemma {:induction false} ChainCarriesRootEvidence(scores: seq<Score>, i: nat)
    requires Lineage(scores) && i < |scores|
    ensures var chain := Chain(scores, i);
            && chain[0] == i
            && (forall a :: 0 <= a < |chain| ==> chain[a] < |scores| && SameEvidence(scores[chain[a]], scores[i]))
            && (forall a ::
                  0 <= a < |chain| - 1
                  ==> chain[a + 1] < chain[a] && OverridesAt(scores, chain[a], chain[a + 1]))
            && scores[chain[|chain| - 1]].overrideOf.None?
    decreases i
  {
    if scores[i].overrideOf.Some? {
      ChainCarriesRootEvidence(scores, Parent(scores, i));
    }
  }

  lemma {:induction false} UnlinkedRowsComeFromScoring(steps: seq<ScoreStep>, row: Score)
    requires ValidRun(steps) && row in Exec(steps)
    ensures row.overrideOf.None? <==> ProducedByScoring(steps, row)
  {
    var n := |steps| - 1;
    var before := Exec(steps[..n]);
    RunPrefix(steps, n);
    assert Enabled(before, steps[n]);
    if row in before {
      UnlinkedRowsComeFromScoring(steps[..n], row);
      if ProducedByScoring(steps, row) {
        var k :| 0 <= k < |steps| && steps[k].ScoreScan? && row in steps[k].rows;
        assert Enabled(Exec(steps[..k]), steps[k]);
      }
      if ProducedByScoring(steps[..n], row) {
        var k :| 0 <= k < n && steps[..n][k].ScoreScan? && row in steps[..n][k].rows;
        assert steps[k].ScoreScan? && row in steps[k].rows;
      }
    } else if ProducedByScoring(steps, row) {
      var k :| 0 <= k < |steps| && steps[k].ScoreScan? && row in steps[k].rows;
      assert Enabled(Exec(steps[..k]), steps[k]);
    }
  }

  /**
   Override lineage over whole runs: from any row the links strictly descend, stop at
   a row a scoring batch produced, and every row passed carries that row's evidence.
   */
  lemma OverrideLineage(steps: seq<ScoreStep>, i: nat)
    requires ValidRun(steps) && i < |Exec(steps)|
    ensures Lineage(Exec(steps))
    ensures var scores := Exec(steps);
            var chain := Chain(scores, i);
            var root := chain[|chain| - 1];
            && root < |scores|
            && ProducedByScoring(steps, scores[root])
            && (forall a :: 0 <= a < |chain| ==> chain[a] < |scores| && SameEvidence(scores[chain[a]], scores[root]))
            && (forall a :: 0 <= a < |chain| - 1 ==> chain[a + 1] < chain[a])
  {
    EveryRunKeepsLineage(steps);
    var scores := Exec(steps);
    ChainCarriesRootEvidence(scores, i);
    var chain := Chain(scores, i);
    UnlinkedRowsComeFromScoring(steps, scores[chain[|chain| - 1]]);
  }

  /** Earlier logs are unchanged prefixes of later ones. */
  lemma {:induction false} HistoryIsNeverRewritten(steps: seq<ScoreStep>, k: nat)
    requires k <= |steps|
    ensures Exec(steps[..k]) <= Exec(steps)
  {
    if k < |steps| {
      var n := |steps| - 1;
      HistoryIsNeverRewritten(steps[..n], k);
      assert steps[..n][..k] == steps[..k];
    } else {
      assert steps[..k] == steps;
    }
  }

  // ------------------------------------- the two rules for the current score

  ghost predicate IsNewest(rows: seq<Score>, row: Score) {
    row in rows && forall other :: other in rows && other.domain == row.domain && other != row
                                   ==> other.calculatedAt < row.calculatedAt
  }

  /** Within one domain no two different rows share a time. */
  ghost predicate DistinctTimes(rows: seq<Score>) {
    forall a, b :: a in rows && b in rows && a.domain == b.domain && a.calculatedAt == b.calculatedAt ==> a == b
  }

  ghost predicate NewestSurvives(rows: seq<Score>) {
    forall row :: IsNewest(rows, row) ==> row.id !in Superseded(rows)
  }

  ghost predicate HasDomain(rows: seq<Score>, domain: string) {
    exists row :: row in rows && row.domain == domain
  }

  lemma {:induction false} LatestMembers(rows: seq<Score>)
    ensures forall d :: d in Latest(rows) ==> Latest(rows)[d] in rows && Latest(rows)[d].domain == d
    ensures forall row :: row in rows ==> row.domain in Latest(rows)
  {
    if rows != [] {
      LatestMembers(rows[..|rows| - 1]);
      assert rows == rows[..|rows| - 1] + [rows[|rows| - 1]];
    }
  }

  lemma {:induction false} NewestKeptMembers(rows: seq<Score>, dropped: set<string>)
    ensures forall d :: d in NewestKept(rows, dropped) ==>
              var row := NewestKept(rows, dropped)[d]; row in rows && row.domain == d && row.id !in dropped
  {
    if rows != [] {
      NewestKeptMembers(rows[..|rows| - 1], dropped);
      assert rows == rows[..|rows| - 1] + [rows[|rows| - 1]];
    }
  }

  /** A kept row is never passed over for an older one. */
  lemma {:induction false} NewestKeptAtLeast(rows: seq<Score>, dropped: set<string>, row: Score)
    requires row in rows && row.id !in dropped
    ensures row.domain in NewestKept(rows, dropped)
    ensures NewestKept(rows, dropped)[row.domain].calculatedAt >= row.calculatedAt
  {
    var n := |rows| - 1;
    assert rows == rows[..n] + [rows[n]];
    if row in rows[..n] {
      NewestKeptAtLeast(rows[..n], dropped, row);
    }
  }

  lemma {:induction false} LatestAtLeast(rows: seq<Score>, row: Score)
    requires row in rows
    ensures row.domain in Latest(rows) && Latest(rows)[row.domain].calculatedAt >= row.calculatedAt
  {
    var n := |rows| - 1;
    assert rows == rows[..n] + [rows[n]];
    if row in rows[..n] {
      LatestAtLeast(rows[..n], row);
    }
  }

  /** With distinct times the newest-row rule returns each domain's newest row. */
  lemma LatestIsNewest(rows: seq<Score>)
    requires DistinctTimes(rows)
    ensures forall domain :: domain in Latest(rows) <==> HasDomain(rows, domain)
    ensures forall domain :: domain in Latest(rows) ==>
              Latest(rows)[domain].domain == domain && IsNewest(rows, Latest(rows)[domain])
  {
    LatestMembers(rows);
    forall domain | domain in Latest(rows) ensures IsNewest(rows, Latest(rows)[domain]) {
      forall other | other in rows && other.domain == domain && other != Latest(rows)[domain]
        ensures other.calculatedAt < Latest(rows)[domain].calculatedAt {
        LatestAtLeast(rows, other);
      }
    }
  }

  /** Of the rows left after dropping some, the other rule returns each domain's newest. */
  lemma NewestKeptIsNewest(rows: seq<Score>, dropped: set<string>)
    requires DistinctTimes(rows)
    ensures forall domain :: domain in NewestKept(rows, dropped) ==>
              var row := NewestKept(rows, dropped)[domain];
              && row in rows && row.domain == domain && row.id !in dropped
              && (forall other :: other in rows && other.domain == domain && other.id !in dropped && other != row
                                  ==> other.calculatedAt < row.calculatedAt)
    ensures forall row :: row in rows && row.id !in dropped ==> row.domain in NewestKept(rows, dropped)
  {
    NewestKeptMembers(rows, dropped);
    forall row | row in rows && row.id !in dropped
      ensures row.domain in NewestKept(rows, dropped)
      ensures NewestKept(rows, dropped)[row.domain].calculatedAt >= row.calculatedAt {
      NewestKeptAtLeast(rows, dropped, row);
    }
  }

  lemma NewestIsUnique(rows: seq<Score>, a: Score, b: Score)
    requires IsNewest(rows, a) && IsNewest(rows, b) && a.domain == b.domain
    ensures a == b
  {}

  /** The two rules agree exactly when no domain's newest row has been overridden. */
  lemma RulesAgreeIff(rows: seq<Score>)
    requires DistinctTimes(rows)
    ensures Latest(rows) == Effective(rows) <==> NewestSurvives(rows)
  {
    LatestIsNewest(rows);
    NewestKeptIsNewest(rows, Superseded(rows));
    var latest, effective := Latest(rows), Effective(rows);
    if NewestSurvives(rows) {
      forall domain ensures domain in latest <==> domain in effective {
        if domain in effective {
          assert HasDomain(rows, domain);
        }
      }
      forall domain | domain in latest ensures latest[domain] == effective[domain] {
        assert IsNewest(rows, latest[domain]);
      }
    }
    if latest == effective {
      forall row | IsNewest(rows, row) ensures row.id !in Superseded(rows) {
        assert HasDomain(rows, row.domain);
        NewestIsUnique(rows, row, latest[row.domain]);
      }
    }
  }

  ghost predicate SameRows(a: seq<Score>, b: seq<Score>) {
    forall row :: row in a <==> row in b
  }

  lemma SameRowsSuperseded(a: seq<Score>, b: seq<Score>)
    requires SameRows(a, b)
    ensures Superseded(a) <= Superseded(b)
  {
    forall id | id in Superseded(a) ensures id in Superseded(b) {
      var row :| row in a && row.overrideOf == Some(id);
      assert row in b;
    }
  }

  lemma LatestIgnoresQueryOrder(a: seq<Score>, b: seq<Score>)
    requires DistinctTimes(a) && SameRows(a, b)
    ensures Latest(a) == Latest(b)
  {
    LatestIsNewest(a);
    LatestIsNewest(b);
    forall domain ensures domain in Latest(a) <==> domain in Latest(b) {
      if domain in Latest(a) {
        assert Latest(a)[domain] in b;
      }
      if domain in Latest(b) {
        assert Latest(b)[domain] in a;
      }
    }
    forall domain | domain in Latest(a) ensures Latest(a)[domain] == Latest(b)[domain] {
      NewestIsUnique(a, Latest(a)[domain], Latest(b)[domain]);
    }
  }

  lemma NewestKeptIgnoresQueryOrder(a: seq<Score>, b: seq<Score>, dropped: set<string>)
    requires DistinctTimes(a) && SameRows(a, b)
    ensures NewestKept(a, dropped) == NewestKept(b, dropped)
  {
    NewestKeptIsNewest(a, dropped);
    NewestKeptIsNewest(b, dropped);
    var ka, kb := NewestKept(a, dropped), NewestKept(b, dropped);
    forall domain ensures domain in ka <==> domain in kb {
      if domain in ka {
        assert ka[domain] in b;
      }
      if domain in kb {
        assert kb[domain] in a;
      }
    }
    forall domain | domain in ka ensures ka[domain] == kb[domain] {
      assert ka[domain] in b && kb[domain] in a;
    }
  }

  /** Neither rule looks at the order the query returned the rows in. */
  lemma RulesIgnoreQueryOrder(a: seq<Score>, b: seq<Score>)
    requires DistinctTimes(a) && SameRows(a, b)
    ensures Latest(a) == Latest(b)
    ensures Effective(a) == Effective(b)
  {
    LatestIgnoresQueryOrder(a, b);
    SameRowsSuperseded(a, b);
    SameRowsSuperseded(b, a);
    assert Superseded(a) == Superseded(b);
    NewestKeptIgnoresQueryOrder(a, b, Superseded(a));
  }

  // ------------------------------------------------ agreement over whole runs

  /** `session.query(Score).filter(Score.scan_id == scan_id)`, in table order. */
  function RowsOf(scores: seq<Score>, scanId: string): seq<Score> {
    Filter((row: Score) => row.scanId == scanId, scores)
  }

  lemma RowsOfMembers(scores: seq<Score>, scanId: string)
    ensures forall row :: row in RowsOf(scores, scanId) <==> row in scores && row.scanId == scanId
  {
    FilterMembers((row: Score) => row.scanId == scanId, scores);
  }

  /** Times never repeat within a scan and domain. */
  ghost predicate SlotTimes(scores: seq<Score>) {
    forall i, j :: 0 <= i < j < |scores| && SameSlot(scores[i], scores[j])
                   ==> scores[i].calculatedAt < scores[j].calculatedAt
  }

  lemma {:induction false} EveryRunKeepsSlotTimes(steps: seq<ScoreStep>)
    requires ValidRun(steps)
    ensures SlotTimes(Exec(steps))
  {
    if steps != [] {
      var n := |steps| - 1;
      RunPrefix(steps, n);
      EveryRunKeepsSlotTimes(steps[..n]);
      assert Enabled(Exec(steps[..n]), steps[n]);
    }
  }

  lemma SlotTimesAreDistinct(scores: seq<Score>, scanId: string)
    requires SlotTimes(scores)
    ensures DistinctTimes(RowsOf(scores, scanId))
  {
    RowsOfMembers(scores, scanId);
    var rows := RowsOf(scores, scanId);
    forall a, b | a in rows && b in rows && a.domain == b.domain && a.calculatedAt == b.calculatedAt ensures a == b {
      var i :| 0 <= i < |scores| && scores[i] == a;
      var j :| 0 <= j < |scores| && scores[j] == b;
      assert SameSlot(scores[i], scores[j]) && SameSlot(scores[j], scores[i]);
    }
  }

  /** In every scan the newest row of each domain is un-overridden. */
  ghost predicate Agreement(scores: seq<Score>) {
    forall scanId :: NewestSurvives(RowsOf(scores, scanId))
  }

  /** The override leaves its original's scan and domain. */
  predicate StaysInSlot(scores: seq<Score>, decision: OverrideDecision) {
    var at := FindScore(scores, decision.originalScoreId);
    at.Some? ==> decision.scanId == scores[at.value].scanId && decision.domain == scores[at.value].domain
  }

  /**
   What a caller can check before the call: the override names another domain of the
   same scan, and the row it replaces is the newest of its own domain.
   */
  ghost predicate TakesCurrentScoreAway(scores: seq<Score>, decision: OverrideDecision) {
    var at := FindScore(scores, decision.originalScoreId);
    && CheckOverride(decision).None?
    && at.Some?
    && decision.scanId == scores[at.value].scanId
    && decision.domain != scores[at.value].domain
    && IsNewest(RowsOf(scores, decision.scanId), scores[at.value])
  }

  lemma ScanStepKeepsAgreement(scores: seq<Score>, rows: seq<Score>)
    requires Lineage(scores) && Agreement(scores) && ScoringBatch(scores, rows)
    ensures Agreement(scores + rows)
  {
    var after := scores + rows;
    forall scanId, row | IsNewest(RowsOf(after, scanId), row) ensures row.id !in Superseded(RowsOf(after, scanId)) {
      RowsOfMembers(scores, scanId);
      RowsOfMembers(after, scanId);
      forall other | other in RowsOf(after, scanId) && other.overrideOf.Some? ensures other.overrideOf != Some(row.id) {
        assert other in scores && other in RowsOf(scores, scanId);
        LinksStayInside(scores, other);
        if row in scores {
          assert IsNewest(RowsOf(scores, scanId), row);
        }
      }
    }
  }

  /** An override link names a row of the log. */
  lemma LinksStayInside(scores: seq<Score>, row: Score)
    requires Lineage(scores) && row in scores && row.overrideOf.Some?
    ensures row.overrideOf.value in IdsOf(scores)
  {
    var i :| 0 <= i < |scores| && scores[i] == row;
    var j :| 0 <= j < i && OverridesAt(scores, i, j) && SameEvidence(scores[i], scores[j]);
    assert scores[j] in scores;
  }

  lemma OneRowAnId(scores: seq<Score>, a: Score, b: Score)
    requires Lineage(scores) && a in scores && b in scores && a.id == b.id
    ensures a == b
  {}

  /** The state one accepted override leads to. */
  ghost predicate OverrideReady(scores: seq<Score>, decision: OverrideDecision, newId: string, now: Time) {
    && Lineage(scores)
    && Agreement(scores)
    && Enabled(scores, Override(decision, newId, now))
    && CheckOverride(decision).None?
    && FindScore(scores, decision.originalScoreId).Some?
  }

  /** A row still newest after an override was newest before, or is the new row. */
  lemma NewestAfterOverride(scores: seq<Score>, decision: OverrideDecision, newId: string, now: Time,
                            scanId: string, row: Score)
    requires OverrideReady(scores, decision, newId, now)
    requires !TakesCurrentScoreAway(scores, decision)
    requires IsNewest(RowsOf(Apply(scores, Override(decision, newId, now)), scanId), row)
    ensures row.id !in Superseded(RowsOf(Apply(scores, Override(decision, newId, now)), scanId))
  {
    var original := scores[FindScore(scores, decision.originalScoreId).value];
    var added := OverrideRow(original, decision, newId, now);
    var after := Apply(scores, Override(decision, newId, now));
    RowsOfMembers(scores, scanId);
    RowsOfMembers(after, scanId);
    assert forall r :: r in after <==> r in scores || r == added;
    if row in scores {
      assert IsNewest(RowsOf(scores, scanId), row);
      assert row.id !in Superseded(RowsOf(scores, scanId));
      assert added.scanId == scanId ==> added in RowsOf(after, scanId);
      if decision.scanId == scanId && row.id == original.id {
        OneRowAnId(scores, row, original);
        assert false;
      }
    } else {
      forall other | other in scores && other.overrideOf.Some? ensures other.overrideOf != Some(newId) {
        LinksStayInside(scores, other);
      }
      assert original.id in IdsOf(scores);
    }
  }

  /** The newest row of a domain, overridden into another one, is still newest there. */
  lemma TakenAwayRowIsSuperseded(scores: seq<Score>, decision: OverrideDecision, newId: string, now: Time)
    requires OverrideReady(scores, decision, newId, now)
    requires TakesCurrentScoreAway(scores, decision)
    ensures !NewestSurvives(RowsOf(Apply(scores, Override(decision, newId, now)), decision.scanId))
  {
    var original := scores[FindScore(scores, decision.originalScoreId).value];
    var added := OverrideRow(original, decision, newId, now);
    var after := Apply(scores, Override(decision, newId, now));
    RowsOfMembers(scores, decision.scanId);
    RowsOfMembers(after, decision.scanId);
    assert forall r :: r in after <==> r in scores || r == added;
    assert IsNewest(RowsOf(after, decision.scanId), original);
    assert added in RowsOf(after, decision.scanId);
    assert original.id in Superseded(RowsOf(after, decision.scanId));
  }

  /**
   The exact step condition: an accepted override keeps the two rules in agreement in
   every scan unless it overrides the newest row of one domain under the name of
   another domain of the same scan, which `override_score` does not check for.
   */
  lemma OverrideKeepsAgreementIff(scores: seq<Score>, decision: OverrideDecision, newId: string, now: Time)
    requires OverrideReady(scores, decision, newId, now)
    ensures Agreement(Apply(scores, Override(decision, newId, now))) <==> !TakesCurrentScoreAway(scores, decision)
  {
    var after := Apply(scores, Override(decision, newId, now));
    if TakesCurrentScoreAway(scores, decision) {
      TakenAwayRowIsSuperseded(scores, decision, newId, now);
    } else {
      forall scanId, row | IsNewest(RowsOf(after, scanId), row) ensures row.id !in Superseded(RowsOf(after, scanId)) {
        NewestAfterOverride(scores, decision, newId, now, scanId, row);
      }
    }
  }

  /** Every override of the run keeps to the scan and domain of the row it replaces. */
  ghost predicate OverridesStayInSlot(steps: seq<ScoreStep>) {
    forall k :: 0 <= k < |steps| && steps[k].Override? ==> StaysInSlot(Exec(steps[..k]), steps[k].decision)
  }

  lemma EmptyLogAgrees()
    ensures Agreement([])
  {
    forall scanId ensures NewestSurvives(RowsOf([], scanId)) {
      RowsOfMembers([], scanId);
    }
  }

  lemma PrefixStaysInSlot(steps: seq<ScoreStep>, n: nat)
    requires OverridesStayInSlot(steps) && n <= |steps|
    ensures OverridesStayInSlot(steps[..n])
  {
    forall k | 0 <= k < n && steps[..n][k].Override?
      ensures StaysInSlot(Exec(steps[..n][..k]), steps[..n][k].decision) {
      assert steps[..n][..k] == steps[..k];
    }
  }

  lemma StepKeepsAgreement(scores: seq<Score>, step: ScoreStep)
    requires Lineage(scores) && Agreement(scores) && Enabled(scores, step)
    requires step.Override? ==> StaysInSlot(scores, step.decision)
    ensures Agreement(Apply(scores, step))
  {
    match step
    case ScoreScan(rows) => ScanStepKeepsAgreement(scores, rows);
    case Override(decision, newId, now) =>
      if OverrideReady(scores, decision, newId, now) {
        OverrideKeepsAgreementIff(scores, decision, newId, now);
      }
  }

  lemma {:induction false} EveryRunKeepsAgreement(steps: seq<ScoreStep>)
    requires ValidRun(steps) && OverridesStayInSlot(steps)
    ensures Agreement(Exec(steps))
  {
    if steps == [] {
      EmptyLogAgrees();
    } else {
      var n := |steps| - 1;
      RunPrefix(steps, n);
      PrefixStaysInSlot(steps, n);
      EveryRunKeepsAgreement(steps[..n]);
      EveryRunKeepsLineage(steps[..n]);
      StepKeepsAgreement(Exec(steps[..n]), steps[n]);
    }
  }

  /**
   The dashboards' rule and the comparison's rule name the same current score for every
   domain of every scan, whatever mix of scoring runs and in-domain overrides built the
   log and whatever order the query returns the rows in.
   */
  lemma CurrentScoreRulesAgree(steps: seq<ScoreStep>, scanId: string, rows: seq<Score>)
    requires ValidRun(steps) && OverridesStayInSlot(steps)
    requires multiset(rows) == multiset(RowsOf(Exec(steps), scanId))
    ensures Latest(rows) == Effective(rows)
    ensures Latest(rows) == Latest(RowsOf(Exec(steps), scanId))
    ensures forall row :: row in rows ==>
              row.domain in Latest(rows) && (row == Latest(rows)[row.domain]
                                             || row.calculatedAt < Latest(rows)[row.domain].calculatedAt)
  {
    var scores := Exec(steps);
    EveryRunKeepsAgreement(steps);
    EveryRunKeepsSlotTimes(steps);
    SlotTimesAreDistinct(scores, scanId);
    var table := RowsOf(scores, scanId);
    forall row ensures row in table <==> row in rows {
      assert row in multiset(rows) <==> row in multiset(table);
    }
    RulesAgreeIff(table);
    RulesIgnoreQueryOrder(table, rows);
    LatestIsNewest(rows);
    forall row | row in rows ensures row.domain in Latest(rows) {
      assert HasDomain(rows, row.domain);
    }
  }

  // ------------------------------------------- the agreement is not automatic

  function SampleScore(id: string, domain: string, at: Time): Score {
    Score(id, "scan", domain, Some(20.0), Some(20.0), HighConfidence, Complete, HighRisk, 3, 4, at, None)
  }

  /** A category change of score `a`, filed under another domain than `a`'s. */
  const MISFILED := OverrideDecision("a", "scan", "fraud_controls", Acceptable, "m", "r", None)

  lemma MisfiledOverrideIsReady(first: Score)
    requires first == SampleScore("a", "payments", 1)
    ensures OverrideReady([first], MISFILED, "b", 2)
    ensures TakesCurrentScoreAway([first], MISFILED)
  {
    assert FindScore([first], "a") == Some(0);
    assert !Blank("m") && !Blank("r");
    forall scanId ensures NewestSurvives(RowsOf([first], scanId)) {
      RowsOfMembers([first], scanId);
    }
    RowsOfMembers([first], "scan");
    assert IsNewest(RowsOf([first], "scan"), first);
  }

  const FIRST_SCORE := SampleScore("a", "payments", 1)
  const MISFILED_RUN := [ScoreScan([FIRST_SCORE]), Override(MISFILED, "b", 2)]

  lemma MisfiledRunIsValid()
    ensures ValidRun(MISFILED_RUN)
    ensures Exec(MISFILED_RUN) == Apply([FIRST_SCORE], MISFILED_RUN[1])
  {
    assert MISFILED_RUN[..0] == [] && MISFILED_RUN[..1] == [MISFILED_RUN[0]];
    assert [MISFILED_RUN[0]][..0] == [];
    assert Exec(MISFILED_RUN[..1]) == [FIRST_SCORE];
    assert Enabled([], MISFILED_RUN[0]) && Enabled([FIRST_SCORE], MISFILED_RUN[1]);
  }

  /** Concrete run: one score, then an override filed under another domain. */
  lemma MisfiledOverrideSplitsTheRules()
    ensures ValidRun(MISFILED_RUN)
    ensures Latest(RowsOf(Exec(MISFILED_RUN), "scan")) != Effective(RowsOf(Exec(MISFILED_RUN), "scan"))
  {
    MisfiledRunIsValid();
    MisfiledOverrideIsReady(FIRST_SCORE);
    EveryRunKeepsSlotTimes(MISFILED_RUN);
    SlotTimesAreDistinct(Exec(MISFILED_RUN), "scan");
    TakenAwayRowIsSuperseded([FIRST_SCORE], MISFILED, "b", 2);
    RulesAgreeIff(RowsOf(Exec(MISFILED_RUN), "scan"));
  }
}
