/**
 What the columns of a score mean, said of the findings by counting them: an independent
 reading of the scoring engine that every scored row is proved to meet.
 */
module ScoreMeaning {
  import opened Prelude
  import opened Store
  import opened Domains
  import opened Scoring

  // ------------------------------------------------------ totals by counting

  predicate IsOf(severity: Severity, confidence: Confidence, f: ScoredFinding) {
    f.severity == severity && f.confidence == confidence
  }

  function Number(findings: seq<ScoredFinding>, severity: Severity, confidence: Confidence): nat {
    Count((f: ScoredFinding) => IsOf(severity, confidence, f), findings)
  }

  /** What the findings of one confidence deduct at full weight. */
  function DeductedAt(findings: seq<ScoredFinding>, confidence: Confidence): real {
    40.0 * (Number(findings, Critical, confidence) as real) + 25.0 * (Number(findings, High, confidence) as real)
    + 12.0 * (Number(findings, Medium, confidence) as real) + 5.0 * (Number(findings, Low, confidence) as real)
    + (Number(findings, Info, confidence) as real)
  }

  lemma OneMoreDeducted(findings: seq<ScoredFinding>, confidence: Confidence)
    requires findings != []
    ensures DeductedAt(findings, confidence)
            == DeductedAt(findings[1..], confidence)
               + if findings[0].confidence == confidence then Deduction(findings[0].severity) else 0.0
  {}

  /** The engine's two totals are sums over the counts. */
  lemma {:induction false} TotalsByCounting(findings: seq<ScoredFinding>)
    ensures RawTotal(findings) == DeductedAt(findings, HighConfidence) + DeductedAt(findings, MediumConfidence)
                                  + DeductedAt(findings, LowConfidence)
    ensures WeightedTotal(findings) == DeductedAt(findings, HighConfidence)
                                       + 0.7 * DeductedAt(findings, MediumConfidence)
                                       + 0.4 * DeductedAt(findings, LowConfidence)
  {
    if findings != [] {
      TotalsByCounting(findings[1..]);
      OneMoreDeducted(findings, HighConfidence);
      OneMoreDeducted(findings, MediumConfidence);
      OneMoreDeducted(findings, LowConfidence);
    }
  }

  // --------------------------------------------------------- what a row says

  ghost predicate SomeSeverity(findings: seq<ScoredFinding>, severities: set<Severity>) {
    exists f :: f in findings && f.severity in severities
  }

  /** No verdict can rest on the findings: all are doubtful, and they are not all remarks. */
  ghost predicate NeedsHuman(findings: seq<ScoredFinding>) {
    (forall f :: f in findings ==> f.confidence == LowConfidence) && SomeSeverity(findings, {Critical, High, Medium})
  }

  /** The category is the one read off the stored weighted score, unless a human or a critical finding decides. */
  ghost predicate CategoryFits(findings: seq<ScoredFinding>, weighted: real, category: DecisionCategory) {
    match category
    case ManualReviewRequired => NeedsHuman(findings)
    case CriticalRisk => !NeedsHuman(findings) && SomeSeverity(findings, {Critical})
    case HighRisk => !NeedsHuman(findings) && !SomeSeverity(findings, {Critical}) && weighted < 35.0
    case RemediationRequired =>
      !NeedsHuman(findings) && !SomeSeverity(findings, {Critical}) && 35.0 <= weighted < 55.0
    case AcceptableWithObservations =>
      !NeedsHuman(findings) && !SomeSeverity(findings, {Critical}) && 55.0 <= weighted < 75.0
    case Acceptable => !NeedsHuman(findings) && !SomeSeverity(findings, {Critical}) && 75.0 <= weighted
    case InsufficientEvidence => false
  }

  /** The confidence is that of the weakest finding. */
  ghost predicate WeakestConfidence(findings: seq<ScoredFinding>, confidence: Confidence) {
    && (exists f :: f in findings && f.confidence == confidence)
    && (confidence == HighConfidence ==> forall f :: f in findings ==> f.confidence == HighConfidence)
    && (confidence == MediumConfidence ==> forall f :: f in findings ==> f.confidence != LowConfidence)
  }

  /** `score` is 100 less the deduction, at least 0. */
  predicate LeavesOf100(score: Option<real>, deducted: real) {
    score == Some(if deducted > 100.0 then 0.0 else 100.0 - deducted)
  }

  /** The columns of an evaluated domain with findings. */
  ghost predicate FindingsScored(findings: seq<ScoredFinding>, r: ScoreResult) {
    && LeavesOf100(r.rawScore, DeductedAt(findings, HighConfidence) + DeductedAt(findings, MediumConfidence)
                               + DeductedAt(findings, LowConfidence))
    && LeavesOf100(r.weightedScore, DeductedAt(findings, HighConfidence) + 0.7 * DeductedAt(findings, MediumConfidence)
                                    + 0.4 * DeductedAt(findings, LowConfidence))
    && 0.0 <= r.rawScore.value <= r.weightedScore.value <= 100.0
    && CategoryFits(findings, r.weightedScore.value, r.decisionCategory)
    && WeakestConfidence(findings, r.confidenceLevel)
  }

  /** The columns of an evaluated domain without findings: clean, as far as the files reach. */
  predicate NothingFound(files: nat, r: ScoreResult) {
    && r.rawScore == Some(100.0) && r.weightedScore == Some(100.0) && r.decisionCategory == Acceptable
    && (r.confidenceLevel == HighConfidence <==> files >= 3)
    && (r.confidenceLevel == LowConfidence <==> files == 0)
  }

  /** The columns of a domain that no file maps to. */
  predicate NotScored(r: ScoreResult) {
    && r.rawScore.None? && r.weightedScore.None? && r.decisionCategory == InsufficientEvidence
    && r.confidenceLevel == LowConfidence && r.evidenceCompleteness == Insufficient
    && r.filesEvaluated == 0 && r.findingsCount == 0
  }

  /** What a score says of its domain, its findings and the number of its files. */
  ghost predicate Says(r: ScoreResult, domain: BankingDomain, findings: seq<ScoredFinding>, evaluated: bool,
                       files: nat) {
    && r.domain == domain
    && if !evaluated then NotScored(r)
       else
         && r.filesEvaluated == files && r.findingsCount == |findings|
         && r.evidenceCompleteness == (if files >= 2 then Complete else Partial)
         && if findings == [] then NothingFound(files, r) else FindingsScored(findings, r)
  }

  lemma CategoryIsRead(findings: seq<ScoredFinding>)
    ensures CategoryFits(findings, WeightedScore(findings), Category(findings))
  {
    assert AnyCritical(findings) <==> SomeSeverity(findings, {Critical});
    assert AnyMediumOrWorse(findings) <==> SomeSeverity(findings, {Critical, High, Medium});
  }

  lemma ConfidenceIsWeakest(findings: seq<ScoredFinding>)
    requires findings != []
    ensures WeakestConfidence(findings, FindingConfidence(findings))
  {
    assert findings[0] in findings;
  }

  /** Every score of the engine says what it should. */
  lemma EveryScoreSays(domain: BankingDomain, findings: seq<ScoredFinding>, evaluated: bool, files: nat)
    ensures Says(ScoreDomain(domain, findings, evaluated, files), domain, findings, evaluated, files)
  {
    if evaluated && findings != [] {
      TotalsByCounting(findings);
      ScoresAreOrdered(findings);
      CategoryIsRead(findings);
      ConfidenceIsWeakest(findings);
    }
  }

  lemma ThreeTotals(f: ScoredFinding)
    ensures RawTotal([f, f, f]) == 3.0 * Deduction(f.severity) && WeightedTotal([f, f, f]) == 3.0 * WeightedDeduction(f)
  {
    TotalsOfOne(f);
    TotalsConcat([f], [f]);
    TotalsConcat([f] + [f], [f]);
    assert [f] + [f] + [f] == [f, f, f];
  }

  /** Concretely: three HIGH findings of medium confidence. */
  lemma ThreeHighFindings(domain: BankingDomain, f: ScoredFinding)
    requires f.severity == High && f.confidence == MediumConfidence
    ensures var r := ScoreDomain(domain, [f, f, f], true, 3);
            && r.rawScore == Some(25.0) && r.weightedScore == Some(47.5)
            && r.decisionCategory == RemediationRequired && r.confidenceLevel == MediumConfidence
  {
    ThreeTotals(f);
    assert f in [f, f, f];
    assert forall g :: g in [f, f, f] ==> g == f;
  }
}
