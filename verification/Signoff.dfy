/**
 What a finalizable assessment rests on, from the guards to the policy: in every run of
 the platform, who has decided what by the time nothing blocks.
 */
module Signoff {
  import opened Prelude
  import opened Store
  import opened Accounts
  import opened AccountRuns
  import opened AccountSafety
  import opened Finalization
  import opened ScanStore
  import ScoreLog

  /** Some step of the run is the review the row records, by an authorised manager. */
  ghost predicate ReviewedByManager(env: Env, steps: seq<AccountRuns.Timed>, f: Finding) {
    exists m :: 0 <= m < |steps| && ReviewedBy(env, steps, m, f)
  }

  /** In every run, exactly the findings that are not pending were reviewed by a manager. */
  lemma NotPendingIffReviewed(env: Env, steps: seq<AccountRuns.Timed>, f: Finding)
    requires ValidRun(env, steps) && f in Exec(env, steps).db.findings
    ensures f.humanReviewStatus != Pending <==> ReviewedByManager(env, steps, f)
  {
    var findings := Exec(env, steps).db.findings;
    var i :| 0 <= i < |findings| && findings[i] == f;
    ReviewersAreManagers(env, steps, i);
  }

  function ScanRows(env: Env, steps: seq<AccountRuns.Timed>, scanId: string): seq<Score> {
    ScoreLog.RowsOf(Exec(env, steps).db.scores, scanId)
  }

  function ScanFindings(env: Env, steps: seq<AccountRuns.Timed>, scanId: string): seq<Finding> {
    FindingsOfScan(Exec(env, steps).db.findings, scanId)
  }

  /**
   After every run, whatever mix of sign-ins, administration, reviews and overrides it is:
   a scan can be finalized if and only if each of its findings that names a domain of
   blocking current score was reviewed in that run, under the name of someone who had
   passed the guard before as an active manager.
   */
  lemma FinalizableIffReviewed(env: Env, steps: seq<AccountRuns.Timed>, scanId: string)
    requires ValidRun(env, steps)
    ensures var rows, findings := ScanRows(env, steps, scanId), ScanFindings(env, steps, scanId);
            NothingBlocks(rows, findings)
            <==> forall f :: f in findings && NamesBlockingDomain(rows, f) ==> ReviewedByManager(env, steps, f)
  {
    var rows, findings := ScanRows(env, steps, scanId), ScanFindings(env, steps, scanId);
    NothingBlocksIff(rows, findings);
    forall f | f in findings ensures f.humanReviewStatus != Pending <==> ReviewedByManager(env, steps, f) {
      ScanFindingIsStored(env, steps, scanId, f);
      NotPendingIffReviewed(env, steps, f);
    }
  }

  lemma ScanFindingIsStored(env: Env, steps: seq<AccountRuns.Timed>, scanId: string, f: Finding)
    requires f in ScanFindings(env, steps, scanId)
    ensures f in Exec(env, steps).db.findings
  {
    FilterMembers((f: Finding) => OfScan(scanId, f), Exec(env, steps).db.findings);
  }
}
