/**
 The deterministic scoring engine (scoring/engine.py) over exact numbers: weighted
 deductions per finding, and the decision category they lead to.
 */
module Scoring {
  import opened Prelude
  import opened Store
  import opened Domains

  datatype ScoredFinding = ScoredFinding(ruleId: string, severity: Severity, confidence: Confidence,
                                         domains: seq<string>)

  datatype ScoreResult = ScoreResult(
    domain: BankingDomain,
    rawScore: Option<real>,
    weightedScore: Option<real>,
    confidenceLevel: Confidence,
    evidenceCompleteness: Completeness,
    decisionCategory: DecisionCategory,
    filesEvaluated: nat,
    findingsCount: nat)

  const HIGH_RISK_THRESHOLD := 35.0
  const REMEDIATION_REQUIRED_THRESHOLD := 55.0
  const ACCEPTABLE_WITH_OBSERVATIONS_THRESHOLD := 75.0

  function Deduction(severity: Severity): real {
    match severity
    case Critical => 40.0
    case High => 25.0
    case Medium => 12.0
    case Low => 5.0
    case Info => 1.0
  }

  function Multiplier(confidence: Confidence): real {
    match confidence
    case HighConfidence => 1.0
    case MediumConfidence => 0.7
    case LowConfidence => 0.4
  }

  function WeightedDeduction(f: ScoredFinding): real {
    Deduction(f.severity) * Multiplier(f.confidence)
  }

  function RawTotal(findings: seq<ScoredFinding>): real {
    if findings == [] then 0.0 else Deduction(findings[0].severity) + RawTotal(findings[1..])
  }

  function WeightedTotal(findings: seq<ScoredFinding>): real {
    if findings == [] then 0.0 else WeightedDeduction(findings[0]) + WeightedTotal(findings[1..])
  }

  function AtLeastZero(x: real): real {
    if x < 0.0 then 0.0 else x
  }

  function RawScore(findings: seq<ScoredFinding>): real {
    AtLeastZero(100.0 - RawTotal(findings))
  }

  function WeightedScore(findings: seq<ScoredFinding>): real {
    AtLeastZero(100.0 - WeightedTotal(findings))
  }

  predicate AllLowConfidence(findings: seq<ScoredFinding>) {
    forall f :: f in findings ==> f.confidence == LowConfidence
  }

  predicate AnyMediumOrWorse(findings: seq<ScoredFinding>) {
    exists f :: f in findings && f.severity in {Critical, High, Medium}
  }

  predicate AnyCritical(findings: seq<ScoredFinding>) {
    exists f :: f in findings && f.severity == Critical
  }

  /** The verdict the score alone gives. */
  function ScoredCategory(findings: seq<ScoredFinding>): DecisionCategory {
    CategoryAt(AnyCritical(findings), WeightedScore(findings))
  }

  function CategoryAt(critical: bool, score: real): DecisionCategory {
    if critical then CriticalRisk
    else if score < HIGH_RISK_THRESHOLD then HighRisk
    else if score < REMEDIATION_REQUIRED_THRESHOLD then RemediationRequired
    else if score < ACCEPTABLE_WITH_OBSERVATIONS_THRESHOLD then AcceptableWithObservations
    else Acceptable
  }

  /** Findings no verdict can rest on go to a human. */
  predicate SentToReview(findings: seq<ScoredFinding>) {
    AllLowConfidence(findings) && AnyMediumOrWorse(findings)
  }

  function Category(findings: seq<ScoredFinding>): DecisionCategory {
    if SentToReview(findings) then ManualReviewRequired else ScoredCategory(findings)
  }

  function CoverageConfidence(filesEvaluated: nat): Confidence {
    if filesEvaluated >= 3 then HighConfidence
    else if filesEvaluated >= 1 then MediumConfidence
    else LowConfidence
  }

  function FindingConfidence(findings: seq<ScoredFinding>): Confidence {
    if exists f :: f in findings && f.confidence == LowConfidence then LowConfidence
    else if exists f :: f in findings && f.confidence == MediumConfidence then MediumConfidence
    else HighConfidence
  }

  function ScoreDomain(domain: BankingDomain, findings: seq<ScoredFinding>, evaluated: bool, filesEvaluated: nat)
    : ScoreResult
  {
    if !evaluated then
      ScoreResult(domain, None, None, LowConfidence, Insufficient, InsufficientEvidence, 0, 0)
    else
      var completeness := if filesEvaluated >= 2 then Complete else Partial;
      if findings == [] then
        ScoreResult(domain, Some(100.0), Some(100.0), CoverageConfidence(filesEvaluated), completeness,
                    Acceptable, filesEvaluated, 0)
      else
        ScoreResult(domain, Some(RawScore(findings)), Some(WeightedScore(findings)), FindingConfidence(findings),
                    completeness, Category(findings), filesEvaluated, |findings|)
  }

  predicate Names(domain: BankingDomain, f: ScoredFinding) {
    Value(domain) in f.domains
  }

  function FindingsNaming(domain: BankingDomain, findings: seq<ScoredFinding>): seq<ScoredFinding> {
    Filter((f: ScoredFinding) => Names(domain, f), findings)
  }

  /** The result of one domain, with its count looked up as `get(value, 0)`. */
  function ScoreOf(findings: seq<ScoredFinding>, evaluated: set<string>, files: map<string, nat>, domain: BankingDomain)
    : ScoreResult
  {
    ScoreDomain(domain, FindingsNaming(domain, findings), Value(domain) in evaluated,
                if Value(domain) in files then files[Value(domain)] else 0)
  }

  function ScoreAllDomains(findings: seq<ScoredFinding>, evaluated: set<string>, files: map<string, nat>)
    : seq<ScoreResult>
  {
    Map((domain: BankingDomain) => ScoreOf(findings, evaluated, files, domain), ALL_DOMAINS)
  }

  lemma ScoresInOrder(findings: seq<ScoredFinding>, evaluated: set<string>, files: map<string, nat>)
    ensures |ScoreAllDomains(findings, evaluated, files)| == |ALL_DOMAINS|
    ensures forall i :: 0 <= i < |ALL_DOMAINS| ==>
              ScoreAllDomains(findings, evaluated, files)[i] == ScoreOf(findings, evaluated, files, ALL_DOMAINS[i])
  {}

  // ------------------------------------------------------------------- bounds

  lemma DeductionBounds(f: ScoredFinding)
    ensures 0.0 < WeightedDeduction(f) <= Deduction(f.severity) <= 40.0
    ensures f.severity != Critical ==> Deduction(f.severity) <= 25.0
  {}

  lemma {:induction false} TotalBounds(findings: seq<ScoredFinding>)
    ensures 0.0 <= WeightedTotal(findings) <= RawTotal(findings)
    ensures !AnyCritical(findings) ==> WeightedTotal(findings) <= 25.0 * (|findings| as real)
  {
    if findings != [] {
      TotalBounds(findings[1..]);
      DeductionBounds(findings[0]);
      assert findings[0] in findings;
      assert forall f :: f in findings[1..] ==> f in findings;
    }
  }

  /** Raw never exceeds weighted, and both lie between 0 and 100. */
  lemma ScoresAreOrdered(findings: seq<ScoredFinding>)
    ensures 0.0 <= RawScore(findings) <= WeightedScore(findings) <= 100.0
  {
    TotalBounds(findings);
  }

  /** A domain is never called high-risk on fewer than three findings. */
  lemma HighRiskNeedsThree(findings: seq<ScoredFinding>)
    requires Category(findings) == HighRisk
    ensures |findings| >= 3
  {
    TotalBounds(findings);
  }

  // ------------------------------------------------------------ order freedom

  lemma {:induction false} TotalsConcat(a: seq<ScoredFinding>, b: seq<ScoredFinding>)
    ensures RawTotal(a + b) == RawTotal(a) + RawTotal(b)
    ensures WeightedTotal(a + b) == WeightedTotal(a) + WeightedTotal(b)
  {
    if a == [] {
      assert a + b == b;
    } else {
      TotalsConcat(a[1..], b);
      assert a + b == [a[0]] + (a[1..] + b);
      assert (a + b)[1..] == a[1..] + b;
    }
  }

  lemma TotalsOfOne(f: ScoredFinding)
    ensures RawTotal([f]) == Deduction(f.severity)
    ensures WeightedTotal([f]) == WeightedDeduction(f)
  {
    assert [f][1..] == [];
  }

  lemma {:induction false} TotalsIgnoreOrder(a: seq<ScoredFinding>, b: seq<ScoredFinding>)
    requires multiset(a) == multiset(b)
    ensures RawTotal(a) == RawTotal(b)
    ensures WeightedTotal(a) == WeightedTotal(b)
    decreases |a|
  {
    if a == [] {
      assert |multiset(b)| == |b|;
    } else {
      assert a[0] in multiset(b);
      var i :| 0 <= i < |b| && b[i] == a[0];
      var left, right := b[..i], b[i + 1..];
      RemoveOne(a, b, i);
      TotalsIgnoreOrder(a[1..], left + right);
      assert b == left + [a[0]] + right;
      TotalsConcat(left + [a[0]], right);
      TotalsConcat(left, [a[0]]);
      TotalsConcat(left, right);
      TotalsOfOne(a[0]);
    }
  }

  lemma RemoveOne(a: seq<ScoredFinding>, b: seq<ScoredFinding>, i: nat)
    requires multiset(a) == multiset(b) && a != [] && i < |b| && b[i] == a[0]
    ensures multiset(a[1..]) == multiset(b[..i] + b[i + 1..])
  {
    assert a == [a[0]] + a[1..];
    assert b == b[..i] + [a[0]] + b[i + 1..];
    assert multiset(a) == multiset{a[0]} + multiset(a[1..]);
    assert multiset(b) == multiset{a[0]} + multiset(b[..i] + b[i + 1..]);
    assert multiset(a[1..]) == multiset(a) - multiset{a[0]};
  }

  lemma SameMembers(a: seq<ScoredFinding>, b: seq<ScoredFinding>)
    requires multiset(a) == multiset(b)
    ensures |a| == |b| && forall f :: f in a <==> f in b
  {
    assert |multiset(a)| == |a| && |multiset(b)| == |b|;
    forall f ensures f in a <==> f in b {
      assert f in multiset(a) <==> f in multiset(b);
    }
  }

  lemma VerdictIgnoresOrder(a: seq<ScoredFinding>, b: seq<ScoredFinding>)
    requires forall f :: f in a <==> f in b
    requires WeightedScore(a) == WeightedScore(b)
    ensures Category(a) == Category(b) && FindingConfidence(a) == FindingConfidence(b)
  {}

  /** The whole result of a domain is independent of the order of its findings. */
  lemma ScoringIgnoresOrder(domain: BankingDomain, a: seq<ScoredFinding>, b: seq<ScoredFinding>, evaluated: bool,
                            files: nat)
    requires multiset(a) == multiset(b)
    ensures ScoreDomain(domain, a, evaluated, files) == ScoreDomain(domain, b, evaluated, files)
  {
    TotalsIgnoreOrder(a, b);
    SameMembers(a, b);
    VerdictIgnoresOrder(a, b);
  }

  // ------------------------------------------------------------ monotonicity

  /** How bad a category is, with manual review ranked wherever the reader wants it. */
  function Badness(category: DecisionCategory, manual: int): int {
    match category
    case Acceptable => 0
    case AcceptableWithObservations => 1
    case RemediationRequired => 2
    case HighRisk => 3
    case CriticalRisk => 4
    case ManualReviewRequired => manual
    case InsufficientEvidence => -1
  }

  /** One more finding costs at most its own weighted deduction and never helps the score. */
  lemma AddingCostsAtMostItself(findings: seq<ScoredFinding>, f: ScoredFinding)
    ensures WeightedScore(findings) - WeightedDeduction(f) <= WeightedScore(findings + [f]) <= WeightedScore(findings)
    ensures RawScore(findings + [f]) <= RawScore(findings)
  {
    TotalsConcat(findings, [f]);
    TotalsOfOne(f);
    TotalBounds(findings);
    DeductionBounds(f);
  }

  /** Adding any findings never raises the score. */
  lemma MoreFindingsScoreNoHigher(findings: seq<ScoredFinding>, more: seq<ScoredFinding>)
    ensures WeightedScore(findings + more) <= WeightedScore(findings)
  {
    TotalsConcat(findings, more);
    TotalBounds(more);
  }

  lemma LowConfidenceConcat(a: seq<ScoredFinding>, b: seq<ScoredFinding>)
    ensures AllLowConfidence(a + b) <==> AllLowConfidence(a) && AllLowConfidence(b)
    ensures AnyMediumOrWorse(a + b) <==> AnyMediumOrWorse(a) || AnyMediumOrWorse(b)
    ensures AnyCritical(a + b) <==> AnyCritical(a) || AnyCritical(b)
  {
    assert forall f :: f in a + b <==> f in a || f in b;
  }

  /** The scored verdict never improves. */
  lemma ScoredCategoryOnlyWorsens(findings: seq<ScoredFinding>, more: seq<ScoredFinding>, manual: int)
    ensures Badness(ScoredCategory(findings), manual) <= Badness(ScoredCategory(findings + more), manual)
    ensures ScoredCategory(findings) != ManualReviewRequired
  {
    MoreFindingsScoreNoHigher(findings, more);
    LowConfidenceConcat(findings, more);
  }

  /**
   Once some finding is trusted at medium or high confidence, the verdict is one of the
   five scored categories and further findings only keep it or make it worse.
   */
  lemma MoreFindingsNeverImprove(findings: seq<ScoredFinding>, more: seq<ScoredFinding>, manual: int)
    requires !AllLowConfidence(findings)
    ensures Category(findings) != ManualReviewRequired && Category(findings + more) != ManualReviewRequired
    ensures 0 <= Badness(Category(findings), manual) <= Badness(Category(findings + more), manual)
  {
    ScoredCategoryOnlyWorsens(findings, more, manual);
    LowConfidenceConcat(findings, more);
  }

  /** Manual review lasts exactly while every further finding is low-confidence too. */
  lemma ManualReviewEndsWithTrust(findings: seq<ScoredFinding>, more: seq<ScoredFinding>)
    requires Category(findings) == ManualReviewRequired
    ensures Category(findings + more) == ManualReviewRequired <==> AllLowConfidence(more)
  {
    ScoredCategoryOnlyWorsens(findings + more, [], 0);
    LowConfidenceConcat(findings, more);
  }

  /** Trusted findings end a manual review, and the deductions of both lists add up to a better rank. */
  predicate ReviewEndsBetter(findings: seq<ScoredFinding>, more: seq<ScoredFinding>, manual: int) {
    && SentToReview(findings)
    && !AllLowConfidence(more)
    && var score := AtLeastZero(100.0 - WeightedTotal(findings) - WeightedTotal(more));
       Badness(CategoryAt(AnyCritical(findings) || AnyCritical(more), score), manual) < manual
  }

  /** A doubtful finding of weight joins doubtful remarks whose score ranks worse than manual review. */
  predicate DoubtStartsReview(findings: seq<ScoredFinding>, more: seq<ScoredFinding>, manual: int) {
    && AllLowConfidence(findings) && !AnyMediumOrWorse(findings)
    && AllLowConfidence(more) && AnyMediumOrWorse(more)
    && manual < Badness(ScoredCategory(findings), manual)
  }

  /**
   The exact exceptions, from every start and wherever manual review is ranked: adding
   findings improves the category if and only if they end a manual review on a better
   score, or start one from a worse score.
   */
  lemma CategoryImprovesIff(findings: seq<ScoredFinding>, more: seq<ScoredFinding>, manual: int)
    ensures Badness(Category(findings + more), manual) < Badness(Category(findings), manual)
            <==> ReviewEndsBetter(findings, more, manual) || DoubtStartsReview(findings, more, manual)
  {
    ScoredCategoryOnlyWorsens(findings, more, manual);
    LowConfidenceConcat(findings, more);
    TotalsConcat(findings, more);
  }

  const DOUBTFUL_REMARK := ScoredFinding("R1", Low, LowConfidence, [])
  const DOUBTFUL_FINDING := ScoredFinding("R2", Medium, LowConfidence, [])

  /** `n` low-confidence remarks of low severity. */
  function DoubtfulRemarks(n: nat): seq<ScoredFinding> {
    seq(n, i => DOUBTFUL_REMARK)
  }

  lemma {:induction false} DoubtfulRemarksCost(n: nat)
    ensures WeightedTotal(DoubtfulRemarks(n)) == 2.0 * (n as real)
  {
    if n > 0 {
      DoubtfulRemarksCost(n - 1);
      assert DoubtfulRemarks(n)[1..] == DoubtfulRemarks(n - 1);
    }
  }

  lemma DoubtfulRemarksAreHighRisk(n: nat)
    requires n >= 33
    ensures Category(DoubtfulRemarks(n)) == HighRisk && AllLowConfidence(DoubtfulRemarks(n))
  {
    DoubtfulRemarksCost(n);
    forall f | f in DoubtfulRemarks(n) ensures f == DOUBTFUL_REMARK {}
  }

  /** Concretely: one more doubtful finding turns high risk on 33 remarks into manual review. */
  lemma DoubtfulFindingReleasesHighRisk()
    ensures Category(DoubtfulRemarks(33)) == HighRisk
    ensures Category(DoubtfulRemarks(33) + [DOUBTFUL_FINDING]) == ManualReviewRequired
  {
    DoubtfulRemarksAreHighRisk(33);
    LowConfidenceConcat(DoubtfulRemarks(33), [DOUBTFUL_FINDING]);
    assert DOUBTFUL_FINDING in [DOUBTFUL_FINDING];
  }

  /** A concrete improvement: one trusted remark turns manual review into "acceptable". */
  lemma TrustedRemarkClearsManualReview()
    ensures var doubtful := ScoredFinding("R1", Medium, LowConfidence, []);
            var remark := ScoredFinding("R2", Info, HighConfidence, []);
            && Category([doubtful]) == ManualReviewRequired
            && Category([doubtful, remark]) == Acceptable
  {
    var doubtful := ScoredFinding("R1", Medium, LowConfidence, []);
    var remark := ScoredFinding("R2", Info, HighConfidence, []);
    assert doubtful in [doubtful] && remark in [doubtful, remark];
    TotalsOfOne(remark);
    assert [doubtful, remark][1..] == [remark];
  }

  /**
   The engine's core promise: a domain no scanned file maps to is reported as
   insufficient evidence and never carries a score, and a scored domain always was
   evaluated.
   */
  lemma NotEvaluatedIsNeverClean(findings: seq<ScoredFinding>, evaluated: set<string>, files: map<string, nat>, i: nat)
    requires i < |ALL_DOMAINS|
    ensures var r := ScoreAllDomains(findings, evaluated, files)[i];
            && r.domain == ALL_DOMAINS[i]
            && (r.decisionCategory == InsufficientEvidence <==> Value(r.domain) !in evaluated)
            && (r.weightedScore.None? <==> Value(r.domain) !in evaluated)
            && (r.evidenceCompleteness == Insufficient <==> Value(r.domain) !in evaluated)
  {
    ScoresInOrder(findings, evaluated, files);
    CategoryIsAVerdict(FindingsNaming(ALL_DOMAINS[i], findings));
  }

  lemma CategoryIsAVerdict(findings: seq<ScoredFinding>)
    ensures Category(findings) != InsufficientEvidence
  {}
}
