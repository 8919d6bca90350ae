/**
 The finalization policy (governance/approval_workflow.py::check_finalization_policy,
 `GovernanceRepository.check_finalization`) and what reviews do to it.
 */
module Finalization {
  import opened Prelude
  import opened Store
  import opened Sorting
  import opened Governance
  import Scoring

  datatype DomainScore = DomainScore(domain: string, category: DecisionCategory)

  datatype Blocker = Blocker(domain: string, pendingFindings: nat)

  predicate Blocking(category: DecisionCategory) {
    category == CriticalRisk || category == HighRisk
  }

  predicate PendingIn(domain: string, f: Finding) {
    domain in f.bankingDomains && f.humanReviewStatus == Pending
  }

  function PendingCountIn(domain: string, findings: seq<Finding>): nat {
    Count((f: Finding) => PendingIn(domain, f), findings)
  }

  /** The distinct high- and critical-risk domains, in sorted order. */
  function BlockingDomains(scores: seq<DomainScore>): seq<string> {
    Sort(StringLe, Dedup(Map((s: DomainScore) => s.domain, Filter((s: DomainScore) => Blocking(s.category), scores))))
  }

  function BlockersFor(domains: seq<string>, findings: seq<Finding>): seq<Blocker> {
    if domains == [] then []
    else
      var n := |domains| - 1;
      var pending := PendingCountIn(domains[n], findings);
      BlockersFor(domains[..n], findings) + if pending > 0 then [Blocker(domains[n], pending)] else []
  }

  function Blockers(scores: seq<DomainScore>, findings: seq<Finding>): seq<Blocker> {
    BlockersFor(BlockingDomains(scores), findings)
  }

  predicate CanFinalize(scores: seq<DomainScore>, findings: seq<Finding>) {
    Blockers(scores, findings) == []
  }

  method CheckFinalizationPolicy(scores: seq<DomainScore>, findings: seq<Finding>)
    returns (canFinalize: bool, blockers: seq<Blocker>)
    ensures blockers == Blockers(scores, findings)
    ensures canFinalize <==> CanFinalize(scores, findings)
  {
    blockers := [];
    var domains := BlockingDomains(scores);
    for i := 0 to |domains|
      invariant blockers == BlockersFor(domains[..i], findings)
    {
      assert domains[..i + 1][..i] == domains[..i];
      var pending := Filter((f: Finding) => PendingIn(domains[i], f), findings);
      FilterLength((f: Finding) => PendingIn(domains[i], f), findings);
      if |pending| > 0 {
        blockers := blockers + [Blocker(domains[i], |pending|)];
      }
    }
    assert domains[..|domains|] == domains;
    canFinalize := |blockers| == 0;
  }

  // -------------------------------------------------- what the policy decides

  ghost predicate HighRiskDomain(scores: seq<DomainScore>, domain: string) {
    exists s :: s in scores && s.domain == domain && Blocking(s.category)
  }

  ghost predicate HasPending(domain: string, findings: seq<Finding>) {
    exists f :: f in findings && PendingIn(domain, f)
  }

  ghost predicate Blocks(blockers: seq<Blocker>, domain: string) {
    exists b :: b in blockers && b.domain == domain
  }

  lemma BlockingDomainsExact(scores: seq<DomainScore>)
    ensures SortedBy(StringLe, BlockingDomains(scores)) && Distinct(BlockingDomains(scores))
    ensures forall domain :: domain in BlockingDomains(scores) <==> HighRiskDomain(scores, domain)
  {
    var high := Filter((s: DomainScore) => Blocking(s.category), scores);
    var names := Map((s: DomainScore) => s.domain, high);
    FilterMembers((s: DomainScore) => Blocking(s.category), scores);
    DedupMembers(names);
    StringOrder();
    SortSorts(StringLe, Dedup(names));
    SortDistinct(StringLe, Dedup(names));
    SortMembers(StringLe, Dedup(names));
    forall domain ensures domain in names <==> HighRiskDomain(scores, domain) {
      if domain in names {
        var i :| 0 <= i < |names| && names[i] == domain;
        assert high[i] in scores && high[i].domain == domain;
      }
      if HighRiskDomain(scores, domain) {
        var s :| s in scores && s.domain == domain && Blocking(s.category);
        assert s in high;
        var i :| 0 <= i < |high| && high[i] == s;
        assert names[i] == domain;
      }
    }
  }

  lemma PendingCountZeroIff(domain: string, findings: seq<Finding>)
    ensures PendingCountIn(domain, findings) > 0 <==> HasPending(domain, findings)
  {
    var keep := (f: Finding) => PendingIn(domain, f);
    if HasPending(domain, findings) {
      var f :| f in findings && PendingIn(domain, f);
      CountPositive(keep, findings, f);
    } else {
      CountZero(keep, findings);
    }
  }

  /** Sorted by domain, no domain twice. */
  ghost predicate InDomainOrder(blockers: seq<Blocker>) {
    forall i, j :: 0 <= i < j < |blockers| ==>
      StringLe(blockers[i].domain, blockers[j].domain) && blockers[i].domain != blockers[j].domain
  }

  /** Each blocker carries its domain's number of pending findings, which is not zero. */
  ghost predicate CountsRight(blockers: seq<Blocker>, findings: seq<Finding>) {
    forall b :: b in blockers ==> b.pendingFindings == PendingCountIn(b.domain, findings) > 0
  }

  lemma BlocksSnoc(blockers: seq<Blocker>, b: Blocker, domain: string)
    ensures Blocks(blockers + [b], domain) <==> Blocks(blockers, domain) || b.domain == domain
  {
    assert b in blockers + [b];
    if earlier :| earlier in blockers && earlier.domain == domain {
      assert earlier in blockers + [b];
    }
  }

  /** The blockers among some domains are those that have pending findings. */
  lemma {:induction false} BlockersForMembers(domains: seq<string>, findings: seq<Finding>)
    ensures CountsRight(BlockersFor(domains, findings), findings)
    ensures forall domain ::
              Blocks(BlockersFor(domains, findings), domain) <==> domain in domains && HasPending(domain, findings)
  {
    if domains != [] {
      var n := |domains| - 1;
      var last := domains[n];
      assert domains == domains[..n] + [last];
      BlockersForMembers(domains[..n], findings);
      PendingCountZeroIff(last, findings);
      var before := BlockersFor(domains[..n], findings);
      forall domain ensures Blocks(BlockersFor(domains, findings), domain)
                            <==> domain in domains && HasPending(domain, findings) {
        BlocksSnoc(before, Blocker(last, PendingCountIn(last, findings)), domain);
      }
    }
  }

  lemma {:induction false} BlockersForInOrder(domains: seq<string>, findings: seq<Finding>)
    requires SortedBy(StringLe, domains) && Distinct(domains)
    ensures InDomainOrder(BlockersFor(domains, findings))
  {
    if domains != [] {
      var n := |domains| - 1;
      assert domains == domains[..n] + [domains[n]];
      BlockersForInOrder(domains[..n], findings);
      BlockersForMembers(domains[..n], findings);
      var before := BlockersFor(domains[..n], findings);
      forall i | 0 <= i < |before| ensures before[i].domain in domains[..n] {
        assert Blocks(before, before[i].domain);
      }
    }
  }

  /**
   The blockers, sorted by domain, name each high- or critical-risk domain that still
   has a pending finding exactly once, with the number of its pending findings; nothing
   else blocks.
   */
  lemma BlockersExact(scores: seq<DomainScore>, findings: seq<Finding>)
    ensures InDomainOrder(Blockers(scores, findings))
    ensures CountsRight(Blockers(scores, findings), findings)
    ensures forall domain :: Blocks(Blockers(scores, findings), domain)
                             <==> HighRiskDomain(scores, domain) && HasPending(domain, findings)
  {
    BlockingDomainsExact(scores);
    BlockersForMembers(BlockingDomains(scores), findings);
    BlockersForInOrder(BlockingDomains(scores), findings);
  }

  lemma CanFinalizeIff(scores: seq<DomainScore>, findings: seq<Finding>)
    ensures CanFinalize(scores, findings)
            <==> forall domain :: HighRiskDomain(scores, domain) ==> !HasPending(domain, findings)
  {
    BlockersExact(scores, findings);
    var blockers := Blockers(scores, findings);
    if blockers != [] {
      assert Blocks(blockers, blockers[0].domain);
    }
  }

  /** The domain's current score is high or critical risk. */
  ghost predicate CurrentlyBlocking(rows: seq<Score>, domain: string) {
    domain in Latest(rows) && Blocking(Latest(rows)[domain].decisionCategory)
  }

  /** No domain with a blocking current score has a pending finding. */
  ghost predicate NothingBlocks(rows: seq<Score>, findings: seq<Finding>) {
    forall domain :: CurrentlyBlocking(rows, domain) ==> !HasPending(domain, findings)
  }

  /**
   `GovernanceRepository.check_finalization` on the score and finding rows of one scan:
   what blocks is exactly a pending finding in a domain whose current score is blocking.
   */
  method CheckFinalization(rows: seq<Score>, findings: seq<Finding>) returns (canFinalize: bool, blockers: seq<Blocker>)
    ensures forall domain :: Blocks(blockers, domain)
                             <==> CurrentlyBlocking(rows, domain) && HasPending(domain, findings)
    ensures InDomainOrder(blockers) && CountsRight(blockers, findings)
    ensures canFinalize <==> blockers == []
    ensures canFinalize <==> NothingBlocks(rows, findings)
  {
    var latest := LatestScoresByDomain(rows);
    var states: seq<DomainScore> := [];
    var remaining := latest.Keys;
    while remaining != {}
      invariant remaining <= latest.Keys
      invariant forall s :: s in states <==>
                s.domain in latest && s.domain !in remaining && s.category == latest[s.domain].decisionCategory
      decreases |remaining|
    {
      var domain :| domain in remaining;
      states := states + [DomainScore(domain, latest[domain].decisionCategory)];
      remaining := remaining - {domain};
    }
    canFinalize, blockers := CheckFinalizationPolicy(states, findings);
    BlockersExact(states, findings);
    forall domain ensures HighRiskDomain(states, domain)
                          <==> domain in latest && Blocking(latest[domain].decisionCategory) {
      if domain in latest {
        assert DomainScore(domain, latest[domain].decisionCategory) in states;
      }
    }
    if blockers != [] {
      assert Blocks(blockers, blockers[0].domain);
    }
  }

  /** The finding names a domain whose current score is blocking. */
  ghost predicate NamesBlockingDomain(rows: seq<Score>, f: Finding) {
    exists domain :: domain in f.bankingDomains && CurrentlyBlocking(rows, domain)
  }

  /** Finding by finding: nothing blocks when no finding that names a blocking domain is pending. */
  lemma NothingBlocksIff(rows: seq<Score>, findings: seq<Finding>)
    ensures NothingBlocks(rows, findings)
            <==> forall f :: f in findings && NamesBlockingDomain(rows, f) ==> f.humanReviewStatus != Pending
  {
    if NothingBlocks(rows, findings) {
      forall f | f in findings && NamesBlockingDomain(rows, f) ensures f.humanReviewStatus != Pending {
        var domain :| domain in f.bankingDomains && CurrentlyBlocking(rows, domain);
        assert !HasPending(domain, findings);
      }
    } else {
      var domain :| CurrentlyBlocking(rows, domain) && HasPending(domain, findings);
      var f :| f in findings && PendingIn(domain, f);
      assert NamesBlockingDomain(rows, f);
    }
  }

  // --------------------------------------------------------- runs of reviews

  datatype Timed = Timed(decision: ReviewDecision, at: Time)

  /** The findings table after `review_finding`, whether or not it was accepted. */
  function AfterReview(findings: seq<Finding>, review: Timed): seq<Finding> {
    var at := FindFinding(findings, review.decision.findingId);
    if CheckReview(review.decision).Some? || at.None? then findings
    else findings[at.value := Reviewed(findings[at.value], review.decision, review.at)]
  }

  lemma ReviewBlockIsStep(sanitize: string -> string, db: Db, now: Time, decision: ReviewDecision)
    ensures ReviewBlock(sanitize, db, now, decision).0.findings == AfterReview(db.findings, Timed(decision, now))
  {}

  function AfterReviews(findings: seq<Finding>, reviews: seq<Timed>): seq<Finding> {
    if reviews == [] then findings
    else AfterReview(AfterReviews(findings, reviews[..|reviews| - 1]), reviews[|reviews| - 1])
  }

  function AllPending(findings: seq<Finding>): nat {
    Count((f: Finding) => f.humanReviewStatus == Pending, findings)
  }

  ghost predicate DistinctIds(findings: seq<Finding>) {
    forall i, j :: 0 <= i < j < |findings| ==> findings[i].id != findings[j].id
  }

  /** The same findings, except that some have left `pending`. */
  ghost predicate OnlyReviewed(before: seq<Finding>, after: seq<Finding>) {
    && |after| == |before|
    && forall i :: 0 <= i < |before| ==>
         && after[i].id == before[i].id
         && after[i].bankingDomains == before[i].bankingDomains
         && (after[i].humanReviewStatus == Pending ==> before[i].humanReviewStatus == Pending)
  }

  lemma {:induction false} CountUpdate<T>(keep: T -> bool, s: seq<T>, i: nat, x: T)
    requires i < |s|
    ensures Count(keep, s[i := x]) + (if keep(s[i]) then 1 else 0) == Count(keep, s) + if keep(x) then 1 else 0
  {
    if i > 0 {
      CountUpdate(keep, s[1..], i - 1, x);
      assert s[i := x][1..] == s[1..][i - 1 := x];
    } else {
      assert s[i := x][1..] == s[1..];
    }
  }

  /**
   One review: it returns nothing to pending, and the number of pending findings drops
   by exactly one when the review is accepted for a finding that was pending, else stays.
   */
  lemma ReviewShrinksPending(findings: seq<Finding>, review: Timed)
    ensures OnlyReviewed(findings, AfterReview(findings, review))
    ensures var at := FindFinding(findings, review.decision.findingId);
            AllPending(AfterReview(findings, review)) ==
            AllPending(findings) -
            if CheckReview(review.decision).None? && at.Some? && findings[at.value].humanReviewStatus == Pending
            then 1 else 0
  {
    var at := FindFinding(findings, review.decision.findingId);
    if CheckReview(review.decision).None? && at.Some? {
      CountUpdate((f: Finding) => f.humanReviewStatus == Pending, findings, at.value,
                  Reviewed(findings[at.value], review.decision, review.at));
    }
  }

  lemma {:induction false} ReviewsOnlyReview(findings: seq<Finding>, reviews: seq<Timed>)
    ensures OnlyReviewed(findings, AfterReviews(findings, reviews))
  {
    if reviews != [] {
      ReviewsOnlyReview(findings, reviews[..|reviews| - 1]);
      ReviewShrinksPending(AfterReviews(findings, reviews[..|reviews| - 1]), reviews[|reviews| - 1]);
    }
  }

  /** No run of reviews, accepted or refused, adds a blocked domain. */
  lemma ReviewsNeverBlock(scores: seq<DomainScore>, findings: seq<Finding>, reviews: seq<Timed>, domain: string)
    requires Blocks(Blockers(scores, AfterReviews(findings, reviews)), domain)
    ensures Blocks(Blockers(scores, findings), domain)
  {
    var after := AfterReviews(findings, reviews);
    ReviewsOnlyReview(findings, reviews);
    BlockersExact(scores, after);
    BlockersExact(scores, findings);
    var f :| f in after && PendingIn(domain, f);
    var i :| 0 <= i < |after| && after[i] == f;
    assert findings[i] in findings && PendingIn(domain, findings[i]);
  }

  ghost predicate ReviewedSomewhere(reviews: seq<Timed>, id: string) {
    exists k :: 0 <= k < |reviews| && reviews[k].decision.findingId == id && CheckReview(reviews[k].decision).None?
  }

  lemma AcceptedReviewSettles(findings: seq<Finding>, review: Timed, i: nat)
    requires DistinctIds(findings) && i < |findings|
    requires findings[i].id == review.decision.findingId && CheckReview(review.decision).None?
    ensures |AfterReview(findings, review)| == |findings|
    ensures AfterReview(findings, review)[i].humanReviewStatus != Pending
  {
    assert FindFinding(findings, findings[i].id) == Some(i);
  }

  lemma {:induction false} ReviewedIsNotPending(findings: seq<Finding>, reviews: seq<Timed>, i: nat)
    requires DistinctIds(findings) && i < |findings|
    requires ReviewedSomewhere(reviews, findings[i].id)
    ensures |AfterReviews(findings, reviews)| == |findings|
    ensures AfterReviews(findings, reviews)[i].humanReviewStatus != Pending
  {
    var k :| 0 <= k < |reviews| && reviews[k].decision.findingId == findings[i].id
        && CheckReview(reviews[k].decision).None?;
    var n := |reviews| - 1;
    var before := AfterReviews(findings, reviews[..n]);
    ReviewsOnlyReview(findings, reviews[..n]);
    if k == n {
      AcceptedReviewSettles(before, reviews[n], i);
    } else {
      assert reviews[..n][k] == reviews[k];
      ReviewedIsNotPending(findings, reviews[..n], i);
      ReviewShrinksPending(before, reviews[n]);
    }
  }

  /**
   Finalization is reachable by review alone: any sequence of reviews, in any order,
   that includes an accepted one for each pending finding of a blocked domain ends with
   the assessment finalizable.
   */
  lemma ReviewingBlockedDomainsFinalizes(scores: seq<DomainScore>, findings: seq<Finding>, reviews: seq<Timed>)
    requires DistinctIds(findings)
    requires forall f, domain :: f in findings && PendingIn(domain, f) && HighRiskDomain(scores, domain)
                                 ==> ReviewedSomewhere(reviews, f.id)
    ensures CanFinalize(scores, AfterReviews(findings, reviews))
  {
    var after := AfterReviews(findings, reviews);
    ReviewsOnlyReview(findings, reviews);
    CanFinalizeIff(scores, after);
    forall domain, i | HighRiskDomain(scores, domain) && 0 <= i < |after| ensures !PendingIn(domain, after[i]) {
      if PendingIn(domain, findings[i]) {
        assert findings[i] in findings;
        ReviewedIsNotPending(findings, reviews, i);
      }
    }
  }

  // ------------------------------------------------- what more findings do

  /**
   Adding findings to a domain releases it from its blocking verdict exactly when
   low-confidence remarks alone had made it high-risk and the new findings are
   low-confidence too, one of them medium or worse.
   */
  lemma BlockingReleasedIff(findings: seq<Scoring.ScoredFinding>, more: seq<Scoring.ScoredFinding>)
    ensures Blocking(Scoring.Category(findings)) && !Blocking(Scoring.Category(findings + more))
            <==> Scoring.Category(findings) == HighRisk && Scoring.AllLowConfidence(findings)
                 && Scoring.AllLowConfidence(more) && Scoring.AnyMediumOrWorse(more)
  {
    Scoring.ScoredCategoryOnlyWorsens(findings, more, 0);
    Scoring.LowConfidenceConcat(findings, more);
  }
}
