/**
 What an override does to the verdict of its domain: from then on, until another row is
 written for the same scan and domain, its category is the current one under both rules.
 */
module OverrideEffect {
  import opened Store
  import opened Text
  import opened Governance
  import opened ScoreLog
  import Finalization

  /** The step is an override that is in order and names a row of the table. */
  ghost predicate TakesPlace(scores: seq<Score>, step: ScoreStep) {
    && step.Override?
    && OverrideInOrder(step.decision)
    && exists original :: original in scores && original.id == step.decision.originalScoreId
  }

  /** The row carries the step's verdict. */
  ghost predicate CarriesVerdict(scores: seq<Score>, step: ScoreStep, row: Score)
    requires step.Override?
  {
    exists original :: original in scores && original.id == step.decision.originalScoreId
        && Replaces(original, row, step.decision, step.newId, step.now)
  }

  lemma OverrideAppends(scores: seq<Score>, step: ScoreStep) returns (row: Score)
    requires TakesPlace(scores, step)
    ensures Apply(scores, step) == scores + [row] && CarriesVerdict(scores, step, row)
  {
    StripEmptyIff(step.decision.reviewedBy);
    StripEmptyIff(step.decision.reason);
    var at := FindScore(scores, step.decision.originalScoreId);
    row := OverrideRow(scores[at.value], step.decision, step.newId, step.now);
    assert scores[at.value] in scores;
  }

  /** No row from index `from` on belongs to the slot. */
  ghost predicate SlotUntouched(scores: seq<Score>, from: nat, scanId: string, domain: string) {
    forall j :: from <= j < |scores| ==> !(scores[j].scanId == scanId && scores[j].domain == domain)
  }

  /** The last row written for a slot is the newest of its domain in the scan's rows. */
  lemma LastWrittenIsNewest(scores: seq<Score>, i: nat)
    requires SlotTimes(scores) && i < |scores|
    requires SlotUntouched(scores, i + 1, scores[i].scanId, scores[i].domain)
    ensures IsNewest(RowsOf(scores, scores[i].scanId), scores[i])
  {
    var row := scores[i];
    RowsOfMembers(scores, row.scanId);
    forall other | other in RowsOf(scores, row.scanId) && other.domain == row.domain && other != row
      ensures other.calculatedAt < row.calculatedAt {
      var j :| 0 <= j < |scores| && scores[j] == other;
      assert j < i && SameSlot(scores[j], scores[i]);
    }
  }

  lemma NewestIsLatest(scores: seq<Score>, scanId: string, row: Score, rows: seq<Score>)
    requires SlotTimes(scores) && IsNewest(RowsOf(scores, scanId), row)
    requires multiset(rows) == multiset(RowsOf(scores, scanId))
    ensures row.domain in Latest(rows) && Latest(rows)[row.domain] == row
  {
    var table := RowsOf(scores, scanId);
    forall x ensures x in table <==> x in rows {
      assert x in multiset(rows) <==> x in multiset(table);
    }
    SlotTimesAreDistinct(scores, scanId);
    LatestIsNewest(rows);
    assert HasDomain(rows, row.domain);
    NewestIsUnique(rows, row, Latest(rows)[row.domain]);
  }

  lemma OverrideRowStays(steps: seq<ScoreStep>, k: nat) returns (row: Score)
    requires ValidRun(steps) && k < |steps| && TakesPlace(Exec(steps[..k]), steps[k])
    ensures var at := |Exec(steps[..k])|;
            && at < |Exec(steps)| && Exec(steps)[at] == row
            && CarriesVerdict(Exec(steps[..k]), steps[k], row)
  {
    row := OverrideAppends(Exec(steps[..k]), steps[k]);
    assert steps[..k + 1][..k] == steps[..k];
    HistoryIsNeverRewritten(steps, k + 1);
  }

  /**
   An accepted override decides. In every run, as long as no later row is written for its
   scan and domain, the current score of the domain is the override's row, whatever order
   the query returns the rows in: with the category the reviewer chose, the score they gave
   or else the original's. The domain then blocks finalization if and only if the reviewer
   chose high or critical risk. The comparison's rule says the same when overrides keep to
   their slots.
   */
  lemma OverrideTakesEffect(steps: seq<ScoreStep>, k: nat, rows: seq<Score>)
    requires ValidRun(steps) && k < |steps| && TakesPlace(Exec(steps[..k]), steps[k])
    requires var decision := steps[k].decision;
             && SlotUntouched(Exec(steps), |Exec(steps[..k])| + 1, decision.scanId, decision.domain)
             && multiset(rows) == multiset(RowsOf(Exec(steps), decision.scanId))
    ensures var decision := steps[k].decision;
            && decision.domain in Latest(rows)
            && CarriesVerdict(Exec(steps[..k]), steps[k], Latest(rows)[decision.domain])
            && (Finalization.CurrentlyBlocking(rows, decision.domain)
                <==> decision.newCategory == HighRisk || decision.newCategory == CriticalRisk)
            && (OverridesStayInSlot(steps) ==> Effective(rows) == Latest(rows))
  {
    var row := OverrideRowStays(steps, k);
    EveryRunKeepsSlotTimes(steps);
    LastWrittenIsNewest(Exec(steps), |Exec(steps[..k])|);
    NewestIsLatest(Exec(steps), steps[k].decision.scanId, row, rows);
    if OverridesStayInSlot(steps) {
      CurrentScoreRulesAgree(steps, steps[k].decision.scanId, rows);
    }
  }
}
