/**
 What the report of a scan says: where each finding comes from, what every scanner did, and
 what the summary's numbers, status and warnings are, all said of the files and scanners.
 */
module ScanReport {
  import opened Prelude
  import opened Store
  import opened ScanPipeline
  import opened ScanGuarantees
  import Discovery
  import Integrity

  // ------------------------------------------------------- where findings come from

  /** The scanner was given the text of the file and found these things in it. */
  predicate Found(p: Platform, k: nat, item: Discovery.Item, raws: seq<RawFinding>)
    requires k < |p.scanners|
  {
    match p.read(k, item.relativePath)
    case TextRead(text) => p.scanners[k].scan(item.relativePath, text) == Some(raws)
    case _ => false
  }

  /** The file could not be read, or the scanner failed on its text. */
  predicate Failed(p: Platform, k: nat, item: Discovery.Item)
    requires k < |p.scanners|
  {
    match p.read(k, item.relativePath)
    case TextRead(text) => p.scanners[k].scan(item.relativePath, text).None?
    case ReadFailed => true
    case BinaryContent => false
  }

  predicate Scanned(p: Platform, k: nat, item: Discovery.Item)
    requires k < |p.scanners|
  {
    var reading := p.read(k, item.relativePath);
    reading.TextRead? && p.scanners[k].scan(item.relativePath, reading.text).Some?
  }

  /** The finding is what scanner `k` reported of the file, under the scanner's name and version. */
  ghost predicate IsReport(p: Platform, scanId: string, inventory: seq<Discovery.Item>, k: nat, item: Discovery.Item,
                           f: NormalizedFinding) {
    && k < |p.scanners| && item in inventory
    && (exists raws :: Found(p, k, item, raws) && f.raw in raws)
    && f.scanId == scanId && f.path == item.relativePath
    && f.scannerId == p.scanners[k].id && f.scannerVersion == p.scanners[k].version
  }

  /** The finding reports a skipped file of sensitive name, graver the less the skip was meant. */
  predicate IsSkipReport(p: Platform, scanId: string, s: Discovery.Skipped, f: NormalizedFinding) {
    && p.sensitive(s.relativePath)
    && f.scanId == scanId && f.path == s.relativePath && f.domains == [] && f.scannerId == SKIP_SCANNER
    && f.raw.ruleId == SKIP_RULE && f.raw.confidence == LowConfidence
    && f.raw.evidence == s.relativePath && f.raw.lineStart == 0 && f.raw.lineEnd == 0
    && f.raw.severity == (if s.reason == Discovery.UnsupportedType then Medium
                          else if s.reason == Discovery.Unreadable then Info else Low)
  }

  lemma ReportsAreReports(p: Platform, scanId: string, inventory: seq<Discovery.Item>, k: nat, item: Discovery.Item,
                          f: NormalizedFinding)
    requires item in inventory && Reports(ContextOf(p, scanId, inventory), k, item, f)
    ensures IsReport(p, scanId, inventory, k, item, f)
  {
    var raws := ContextOf(p, scanId, inventory).Inspect(k, item).raws;
    assert Found(p, k, item, raws);
  }

  lemma SkipsAreReported(p: Platform, scanId: string, skipped: seq<Discovery.Skipped>, f: NormalizedFinding)
    returns (s: Discovery.Skipped)
    requires f in SkipNormalizedAll(scanId, SkipFindings(p, skipped))
    ensures s in skipped && IsSkipReport(p, scanId, s, f)
  {
    var listed := Filter(SensitiveSkip(p), skipped);
    FilterMembers(SensitiveSkip(p), skipped);
    var all := SkipNormalizedAll(scanId, SkipFindings(p, skipped));
    var i :| 0 <= i < |all| && all[i] == f;
    s := listed[i];
  }

  /** Every finding of the result is a scanner's report of an inventoried file, or reports a skipped file. */
  lemma FindingsAreReports(p: Platform, scanId: string, before: Discovery.Directory, after: Discovery.Directory,
                           f: NormalizedFinding)
    requires f in Scan(p, scanId, before, after).findings
    ensures var r := Scan(p, scanId, before, after);
            || (exists k, item :: IsReport(p, scanId, r.inventory, k, item, f))
            || (exists s :: s in r.skipped && IsSkipReport(p, scanId, s, f))
  {
    var d := Discovery.Discover(p.settings, before);
    var c := ContextOf(p, scanId, d.inventory);
    DedupKeepsFirsts(RawFindings(p, scanId, d));
    FindingsOfMembers(c, |p.scanners|, d.inventory);
    assert f in RawFindings(p, scanId, d);
    if f in c.FindingsOf(|p.scanners|, d.inventory) {
      var k, item :| 0 <= k < |p.scanners| && item in d.inventory && Reports(c, k, item, f);
      ReportsAreReports(p, scanId, d.inventory, k, item, f);
    } else {
      var s := SkipsAreReported(p, scanId, d.skipped, f);
    }
  }

  // -------------------------------------------------------- what each scanner did

  function ScannedBy(p: Platform, k: nat): Discovery.Item -> bool
    requires k < |p.scanners|
  {
    (item: Discovery.Item) => k < |p.scanners| && Scanned(p, k, item)
  }

  function FailedFor(p: Platform, k: nat): Discovery.Item -> bool
    requires k < |p.scanners|
  {
    (item: Discovery.Item) => k < |p.scanners| && Failed(p, k, item)
  }

  /** How many findings the scanner made, before deduplication. */
  function Made(p: Platform, k: nat, items: seq<Discovery.Item>): nat
    requires k < |p.scanners|
  {
    if items == [] then 0
    else
      var item := items[|items| - 1];
      Made(p, k, items[..|items| - 1])
      + match p.read(k, item.relativePath)
        case TextRead(text) =>
          (match p.scanners[k].scan(item.relativePath, text) case Some(raws) => |raws| case None => 0)
        case _ => 0
  }

  /** The execution entry of scanner `k`: its name, the files it scanned and failed on, and its findings. */
  predicate ExecutionSays(p: Platform, items: seq<Discovery.Item>, k: nat, e: Execution)
    requires k < |p.scanners|
  {
    && e.scannerId == p.scanners[k].id && e.scannerVersion == p.scanners[k].version
    && e.processed == Count(ScannedBy(p, k), items)
    && e.errored == Count(FailedFor(p, k), items)
    && e.withErrors == (e.errored > 0)
    && e.produced == Made(p, k, items)
  }

  lemma {:induction false} MadeCounts(c: Context, k: nat, items: seq<Discovery.Item>)
    requires k < |c.platform.scanners|
    ensures |c.ScannerFindings(k, items)| == Made(c.platform, k, items)
  {
    if items != [] {
      MadeCounts(c, k, items[..|items| - 1]);
    }
  }

  lemma ExecutionIsRight(c: Context, k: nat, items: seq<Discovery.Item>)
    requires k < |c.platform.scanners|
    ensures ExecutionSays(c.platform, items, k, c.ExecutionOf(k, items))
  {
    MadeCounts(c, k, items);
    CountAgree(c.ScannedBy(k), ScannedBy(c.platform, k), items);
    CountAgree(c.BrokenFor(k), FailedFor(c.platform, k), items);
  }

  /** The scanners' entries in order, and after them the report of skipped files. */
  lemma ExecutionsAreRight(p: Platform, scanId: string, before: Discovery.Directory, after: Discovery.Directory)
    ensures var r := Scan(p, scanId, before, after);
            && |r.executions| == |p.scanners| + 1
            && (forall k :: 0 <= k < |p.scanners| ==> ExecutionSays(p, r.inventory, k, r.executions[k]))
            && var last := r.executions[|p.scanners|];
               && last.scannerId == SKIP_SCANNER && last.processed == |r.skipped| && last.errored == 0
               && !last.withErrors && last.produced == Count(SensitiveSkip(p), r.skipped)
  {
    var d := Discovery.Discover(p.settings, before);
    var c := ContextOf(p, scanId, d.inventory);
    forall k | 0 <= k < |p.scanners| ensures ExecutionSays(p, d.inventory, k, c.ExecutionOf(k, d.inventory)) {
      ExecutionIsRight(c, k, d.inventory);
    }
    FilterLength(SensitiveSkip(p), d.skipped);
  }

  // --------------------------------------------------------------- the summary

  function OfSeverity(severity: Severity): NormalizedFinding -> bool {
    (f: NormalizedFinding) => f.raw.severity == severity
  }

  lemma {:induction false} SeveritiesCounted(findings: seq<NormalizedFinding>, severity: Severity)
    ensures multiset(Map(SeverityOf, findings))[severity] == Count(OfSeverity(severity), findings)
  {
    if findings != [] {
      var severities := Map(SeverityOf, findings);
      SeveritiesCounted(findings[1..], severity);
      assert severities == [severities[0]] + Map(SeverityOf, findings[1..]);
    }
  }

  /** The numbers of the summary are those of the result's own lists, and of the tree. */
  ghost predicate SummarySays(p: Platform, scanId: string, before: Discovery.Directory, after: Discovery.Directory,
                              r: ScanResult) {
    var s := r.summary;
    && s.scanId == scanId
    && s.filesScanned == |r.inventory| && s.filesSkipped == |r.skipped| && s.totalFindings == |r.findings|
    && s.totalFound == s.filesScanned + s.filesSkipped
    && s.totalFound == Discovery.VisibleCount(p.settings, before, 0)
    && (s.truncated <==> Discovery.TreeOverBudget(p.settings, before))
    && s.hashBefore == Integrity.SourceHash(p.settings.digest, before)
    && s.hashAfter == Integrity.SourceHash(p.settings.digest, after)
    && (s.integrityVerified <==> s.hashBefore == s.hashAfter)
    && (forall severity :: Tallied(s.bySeverity, severity) == Count(OfSeverity(severity), r.findings))
  }

  lemma SummaryIsRight(p: Platform, scanId: string, before: Discovery.Directory, after: Discovery.Directory)
    ensures SummarySays(p, scanId, before, after, Scan(p, scanId, before, after))
  {
    var findings := Scan(p, scanId, before, after).findings;
    Discovery.DiscoveryAccountsForEveryFile(p.settings, before);
    Discovery.TruncatedTellsIff(p.settings, before);
    TallyCounts(Map(SeverityOf, findings));
    forall severity ensures Tallied(Tally(Map(SeverityOf, findings)), severity)
                            == Count(OfSeverity(severity), findings) {
      SeveritiesCounted(findings, severity);
    }
  }

  // --------------------------------------------------------------- the warnings

  lemma {:induction false} WarningsMembers(executions: seq<Execution>)
    ensures forall w :: w in ScanWarnings(executions) <==>
              exists e :: e in executions && e.withErrors && w == FilesNotScanned(e.scannerId, e.errored)
  {
    if executions != [] {
      var n := |executions| - 1;
      assert executions == executions[..n] + [executions[n]];
      WarningsMembers(executions[..n]);
    }
  }

  /** Some scanner of this name failed on this many files, and on at least one. */
  ghost predicate FailedOn(p: Platform, items: seq<Discovery.Item>, scannerId: string, number: nat) {
    exists k :: 0 <= k < |p.scanners| && p.scanners[k].id == scannerId
                && number == Count(FailedFor(p, k), items) && number > 0
  }

  /**
   The warnings: one for each scanner that failed on some file, with the number of those
   files, and one exactly when the source changed under the scan.
   */
  lemma WarningsAreRight(p: Platform, scanId: string, before: Discovery.Directory, after: Discovery.Directory)
    ensures var r := Scan(p, scanId, before, after);
            && (forall scannerId, number :: FilesNotScanned(scannerId, number) in r.summary.warnings
                                            <==> FailedOn(p, r.inventory, scannerId, number))
            && (IntegrityCheckFailed in r.summary.warnings <==> !r.summary.integrityVerified)
  {
    var d := Discovery.Discover(p.settings, before);
    var executions := ContentExecutions(p, scanId, d);
    WarningsMembers(executions);
    ExecutionsAreRight(p, scanId, before, after);
    forall scannerId, number
      ensures FilesNotScanned(scannerId, number) in ScanWarnings(executions)
              <==> FailedOn(p, d.inventory, scannerId, number) {
      FailureIsWarnedOf(p, scanId, d, scannerId, number);
    }
  }

  lemma FailureIsWarnedOf(p: Platform, scanId: string, d: Discovery.Result, scannerId: string, number: nat)
    ensures FilesNotScanned(scannerId, number) in ScanWarnings(ContentExecutions(p, scanId, d))
            <==> FailedOn(p, d.inventory, scannerId, number)
  {
    var c := ContextOf(p, scanId, d.inventory);
    var executions := ContentExecutions(p, scanId, d);
    WarningsMembers(executions);
    if FilesNotScanned(scannerId, number) in ScanWarnings(executions) {
      var e :| e in executions && e.withErrors && FilesNotScanned(scannerId, number)
                                                  == FilesNotScanned(e.scannerId, e.errored);
      var k :| 0 <= k < |executions| && executions[k] == e;
      ExecutionIsRight(c, k, d.inventory);
    }
    if FailedOn(p, d.inventory, scannerId, number) {
      var k :| 0 <= k < |p.scanners| && p.scanners[k].id == scannerId
        && number == Count(FailedFor(p, k), d.inventory) && number > 0;
      ExecutionIsRight(c, k, d.inventory);
      assert executions[k] in executions;
    }
  }
}
