/**
 One scan (scanners/scan_orchestrator.py): hash, discover, map, run every scanner over
 every inventoried file, report sensitive-looking skips, deduplicate, hash again.

 A scanner is any function from path and text to findings that may also fail, and a
 read may give text, binary content or an error, each time it is tried.
 */
module ScanPipeline {
  import opened Prelude
  import opened Store
  import opened Domains
  import opened DomainMapper
  import Discovery
  import Integrity

  datatype RawFinding = RawFinding(
    ruleId: string,
    title: string,
    severity: Severity,
    confidence: Confidence,
    lineStart: int,
    lineEnd: int,
    evidence: string,
    maskedEvidence: string)

  datatype NormalizedFinding = NormalizedFinding(
    scanId: string,
    path: string,
    domains: seq<string>,
    scannerId: string,
    scannerVersion: string,
    raw: RawFinding)

  datatype Reading = TextRead(text: string) | BinaryContent | ReadFailed

  /** `None` when the scanner raises. */
  datatype Scanner = Scanner(id: string, version: string, scan: (string, string) -> Option<seq<RawFinding>>)

  datatype Execution = Execution(
    scannerId: string,
    scannerVersion: string,
    withErrors: bool,
    processed: nat,
    errored: nat,
    produced: nat)

  datatype Warning = FilesNotScanned(scannerId: string, count: nat) | IntegrityCheckFailed

  datatype ScanStatus = Completed | CompletedWithWarnings | Failed

  /** Everything a scan takes from outside: limits, classifier, scanners and file contents. */
  datatype Platform = Platform(
    settings: Discovery.Settings,
    classify: (string, string) -> seq<Flag>,
    sensitive: string -> bool,
    scanners: seq<Scanner>,
    read: (nat, string) -> Reading)      // the reading the n-th scanner gets of a path

  datatype MappedFile = MappedFile(path: string, mappings: seq<DomainMapping>)

  datatype Summary = Summary(
    scanId: string,
    status: ScanStatus,
    totalFound: nat,
    filesScanned: nat,
    filesSkipped: nat,
    totalFindings: nat,
    truncated: bool,
    integrityVerified: bool,
    hashBefore: string,
    hashAfter: string,
    bySeverity: map<Severity, nat>,
    byDomain: map<string, nat>,
    warnings: seq<Warning>)

  datatype ScanResult = ScanResult(
    summary: Summary,
    inventory: seq<Discovery.Item>,
    skipped: seq<Discovery.Skipped>,
    mapped: seq<MappedFile>,
    findings: seq<NormalizedFinding>,
    executions: seq<Execution>)

  // ------------------------------------------------- `domain_mappings`, a dict

  function Lookup(mapped: seq<MappedFile>, path: string): seq<DomainMapping> {
    if mapped == [] then []
    else if mapped[0].path == path then mapped[0].mappings
    else Lookup(mapped[1..], path)
  }

  /** `domain_mappings[path] = mappings` */
  function Assign(mapped: seq<MappedFile>, path: string, mappings: seq<DomainMapping>): seq<MappedFile> {
    if mapped == [] then [MappedFile(path, mappings)]
    else if mapped[0].path == path then [MappedFile(path, mappings)] + mapped[1..]
    else [mapped[0]] + Assign(mapped[1..], path, mappings)
  }

  function MappingsOf(p: Platform, item: Discovery.Item): seq<DomainMapping> {
    FileDomains(p.settings.lower(item.relativePath), p.classify(item.relativePath, item.extension))
  }

  function MapInventory(p: Platform, items: seq<Discovery.Item>): seq<MappedFile> {
    if items == [] then []
    else
      var item := items[|items| - 1];
      Assign(MapInventory(p, items[..|items| - 1]), item.relativePath, MappingsOf(p, item))
  }

  // -------------------------------------------------------------- one scanner

  /** What one scanner makes of one file. */
  datatype Inspection = NotText | Broke | Scanned(raws: seq<RawFinding>)

  /** What stays fixed while the scanners run. */
  datatype Context = Context(platform: Platform, mapped: seq<MappedFile>, scanId: string)
  {
    function Inspect(k: nat, item: Discovery.Item): Inspection
      requires k < |platform.scanners|
    {
      match platform.read(k, item.relativePath)
      case BinaryContent => NotText
      case ReadFailed => Broke
      case TextRead(text) =>
        match platform.scanners[k].scan(item.relativePath, text)
        case None => Broke
        case Some(raws) => Scanned(raws)
    }

    function DomainsAt(path: string): seq<string> {
      Map((m: DomainMapping) => Value(m.domain), Lookup(mapped, path))
    }

    function Normalize(k: nat, path: string, raw: RawFinding): NormalizedFinding
      requires k < |platform.scanners|
    {
      NormalizedFinding(scanId, path, DomainsAt(path), platform.scanners[k].id, platform.scanners[k].version, raw)
    }

    function NormalizeAll(k: nat, path: string, raws: seq<RawFinding>): seq<NormalizedFinding>
      requires k < |platform.scanners|
    {
      Map((raw: RawFinding) requires k < |platform.scanners| => Normalize(k, path, raw), raws)
    }

    function FindingsIn(k: nat, item: Discovery.Item): seq<NormalizedFinding>
      requires k < |platform.scanners|
    {
      match Inspect(k, item)
      case Scanned(raws) => NormalizeAll(k, item.relativePath, raws)
      case _ => []
    }

    function ScannerFindings(k: nat, items: seq<Discovery.Item>): seq<NormalizedFinding>
      requires k < |platform.scanners|
    {
      if items == [] then [] else ScannerFindings(k, items[..|items| - 1]) + FindingsIn(k, items[|items| - 1])
    }

    /** The findings of the first `n` scanners. */
    function FindingsOf(n: nat, items: seq<Discovery.Item>): seq<NormalizedFinding>
      requires n <= |platform.scanners|
    {
      if n == 0 then [] else FindingsOf(n - 1, items) + ScannerFindings(n - 1, items)
    }

    function ScannedBy(k: nat): Discovery.Item -> bool
      requires k < |platform.scanners|
    {
      (item: Discovery.Item) => k < |platform.scanners| && Inspect(k, item).Scanned?
    }

    function BrokenFor(k: nat): Discovery.Item -> bool
      requires k < |platform.scanners|
    {
      (item: Discovery.Item) => k < |platform.scanners| && Inspect(k, item).Broke?
    }

    function NotTextFor(k: nat): Discovery.Item -> bool
      requires k < |platform.scanners|
    {
      (item: Discovery.Item) => k < |platform.scanners| && Inspect(k, item).NotText?
    }

    function ExecutionOf(k: nat, items: seq<Discovery.Item>): Execution
      requires k < |platform.scanners|
    {
      Execution(platform.scanners[k].id, platform.scanners[k].version, Count(BrokenFor(k), items) > 0,
                Count(ScannedBy(k), items), Count(BrokenFor(k), items), |ScannerFindings(k, items)|)
    }

    function ExecutionsOf(n: nat, items: seq<Discovery.Item>): seq<Execution>
      requires n <= |platform.scanners|
    {
      seq(n, k requires 0 <= k < n <= |platform.scanners| => ExecutionOf(k, items))
    }
  }

  /** What the next file adds to one scanner's findings and counts. */
  lemma OneMoreFile(c: Context, k: nat, items: seq<Discovery.Item>, i: nat)
    requires k < |c.platform.scanners| && i < |items|
    ensures c.ScannerFindings(k, items[..i + 1]) == c.ScannerFindings(k, items[..i]) + c.FindingsIn(k, items[i])
    ensures Count(c.ScannedBy(k), items[..i + 1]) == Count(c.ScannedBy(k), items[..i])
            + if c.Inspect(k, items[i]).Scanned? then 1 else 0
    ensures Count(c.BrokenFor(k), items[..i + 1]) == Count(c.BrokenFor(k), items[..i])
            + if c.Inspect(k, items[i]).Broke? then 1 else 0
  {
    assert items[..i + 1] == items[..i] + [items[i]];
    CountSnoc(c.ScannedBy(k), items[..i], items[i]);
    CountSnoc(c.BrokenFor(k), items[..i], items[i]);
  }

  /** One scanner's loop state after its first `i` files. */
  ghost predicate Progress(c: Context, k: nat, items: seq<Discovery.Item>, i: nat, sofar: seq<NormalizedFinding>,
                           findings: seq<NormalizedFinding>, processed: nat, errored: nat, produced: nat)
    requires k < |c.platform.scanners| && i <= |items|
  {
    && findings == sofar + c.ScannerFindings(k, items[..i])
    && processed == Count(c.ScannedBy(k), items[..i])
    && errored == Count(c.BrokenFor(k), items[..i])
    && produced == |c.ScannerFindings(k, items[..i])|
  }

  lemma ProgressStep(c: Context, k: nat, items: seq<Discovery.Item>, i: nat, sofar: seq<NormalizedFinding>,
                     findings: seq<NormalizedFinding>, processed: nat, errored: nat, produced: nat)
    requires k < |c.platform.scanners| && i < |items|
    requires Progress(c, k, items, i, sofar, findings, processed, errored, produced)
    ensures match c.Inspect(k, items[i])
            case NotText => Progress(c, k, items, i + 1, sofar, findings, processed, errored, produced)
            case Broke => Progress(c, k, items, i + 1, sofar, findings, processed, errored + 1, produced)
            case Scanned(raws) =>
              Progress(c, k, items, i + 1, sofar, findings + c.NormalizeAll(k, items[i].relativePath, raws),
                       processed + 1, errored, produced + |raws|)
  {
    OneMoreFile(c, k, items, i);
    var before, here := c.ScannerFindings(k, items[..i]), c.FindingsIn(k, items[i]);
    AppendAssociates(sofar, before, here);
    assert before + [] == before;
  }

  method RunOneScanner(c: Context, k: nat, items: seq<Discovery.Item>, sofar: seq<NormalizedFinding>)
    returns (execution: Execution, findings: seq<NormalizedFinding>)
    requires k < |c.platform.scanners|
    ensures execution == c.ExecutionOf(k, items)
    ensures findings == sofar + c.ScannerFindings(k, items)
  {
    var processed: nat, errored: nat, produced: nat := 0, 0, 0;
    findings := sofar;
    var scanner := c.platform.scanners[k];
    for i := 0 to |items|
      invariant Progress(c, k, items, i, sofar, findings, processed, errored, produced)
    {
      ProgressStep(c, k, items, i, sofar, findings, processed, errored, produced);
      var item := items[i];
      var reading := c.platform.read(k, item.relativePath);
      if reading == BinaryContent {
        continue;
      }
      if reading == ReadFailed {
        errored := errored + 1;
        continue;
      }
      var raws := scanner.scan(item.relativePath, reading.text);
      if raws.None? {
        errored := errored + 1;
        continue;
      }
      processed := processed + 1;
      findings := AppendNormalized(c, k, item.relativePath, raws.value, findings);
      produced := produced + |raws.value|;
    }
    assert items[..|items|] == items;
    execution := Execution(scanner.id, scanner.version, errored > 0, processed, errored, produced);
  }

  /** The innermost loop: one file's findings, each with the file's domains. */
  method AppendNormalized(c: Context, k: nat, path: string, raws: seq<RawFinding>, sofar: seq<NormalizedFinding>)
    returns (findings: seq<NormalizedFinding>)
    requires k < |c.platform.scanners|
    ensures findings == sofar + c.NormalizeAll(k, path, raws)
  {
    var domains := c.DomainsAt(path);
    var scanner := c.platform.scanners[k];
    findings := sofar;
    for i := 0 to |raws|
      invariant findings == sofar + c.NormalizeAll(k, path, raws[..i])
    {
      assert c.NormalizeAll(k, path, raws[..i + 1]) == c.NormalizeAll(k, path, raws[..i])
             + [c.Normalize(k, path, raws[i])];
      findings := findings + [NormalizedFinding(c.scanId, path, domains, scanner.id, scanner.version, raws[i])];
    }
    assert raws[..|raws|] == raws;
  }

  // ------------------------------------------------------------ skipped files

  const SKIP_RULE := "SKIP-001"
  const SKIP_SCANNER := "unsupported_sensitive_file"

  function SkipSeverity(reason: Discovery.SkipReason): Severity {
    match reason
    case UnsupportedType => Medium
    case Unreadable => Info
    case _ => Low
  }

  function SkipFinding(s: Discovery.Skipped): RawFinding {
    RawFinding(SKIP_RULE, "Sensitive-looking file was not scanned", SkipSeverity(s.reason), LowConfidence, 0, 0,
               s.relativePath, s.relativePath)
  }

  function SensitiveSkip(p: Platform): Discovery.Skipped -> bool {
    (s: Discovery.Skipped) => p.sensitive(s.relativePath)
  }

  function SkipFindings(p: Platform, skipped: seq<Discovery.Skipped>): seq<RawFinding> {
    Map(SkipFinding, Filter(SensitiveSkip(p), skipped))
  }

  lemma SkipFindingsSnoc(p: Platform, skipped: seq<Discovery.Skipped>, s: Discovery.Skipped)
    ensures SkipFindings(p, skipped + [s]) == SkipFindings(p, skipped)
            + if p.sensitive(s.relativePath) then [SkipFinding(s)] else []
  {
    FilterSnoc(SensitiveSkip(p), skipped, s);
    MapConcat(SkipFinding, Filter(SensitiveSkip(p), skipped), [s]);
  }

  function SkipNormalized(scanId: string, raw: RawFinding): NormalizedFinding {
    NormalizedFinding(scanId, raw.evidence, [], SKIP_SCANNER, "1.0.0", raw)
  }

  function SkipNormalizedAll(scanId: string, raws: seq<RawFinding>): seq<NormalizedFinding> {
    Map((raw: RawFinding) => SkipNormalized(scanId, raw), raws)
  }

  method ScanSkippedFiles(p: Platform, skipped: seq<Discovery.Skipped>) returns (findings: seq<RawFinding>)
    ensures findings == SkipFindings(p, skipped)
  {
    findings := [];
    for i := 0 to |skipped|
      invariant findings == SkipFindings(p, skipped[..i])
    {
      assert skipped[..i + 1] == skipped[..i] + [skipped[i]];
      SkipFindingsSnoc(p, skipped[..i], skipped[i]);
      if !p.sensitive(skipped[i].relativePath) {
        continue;
      }
      findings := findings + [SkipFinding(skipped[i])];
    }
    assert skipped[..|skipped|] == skipped;
  }

  // -------------------------------------------------- deduplication and tallies

  datatype DedupKey = DedupKey(ruleId: string, path: string, lineStart: int, lineEnd: int)

  function KeyOf(f: NormalizedFinding): DedupKey {
    DedupKey(f.raw.ruleId, f.path, f.raw.lineStart, f.raw.lineEnd)
  }

  function Keys(findings: seq<NormalizedFinding>): seq<DedupKey> {
    Map(KeyOf, findings)
  }

  function Deduplicated(findings: seq<NormalizedFinding>): seq<NormalizedFinding> {
    if findings == [] then []
    else
      var kept, last := Deduplicated(findings[..|findings| - 1]), findings[|findings| - 1];
      if KeyOf(last) in Keys(kept) then kept else kept + [last]
  }

  method Deduplicate(findings: seq<NormalizedFinding>) returns (kept: seq<NormalizedFinding>)
    ensures kept == Deduplicated(findings)
  {
    var seen: set<DedupKey> := {};
    kept := [];
    for i := 0 to |findings|
      invariant kept == Deduplicated(findings[..i])
      invariant forall key :: key in seen <==> key in Keys(kept)
    {
      assert findings[..i + 1][..i] == findings[..i];
      var key := KeyOf(findings[i]);
      if key in seen {
        continue;
      }
      assert Keys(kept + [findings[i]]) == Keys(kept) + [key];
      seen := seen + {key};
      kept := kept + [findings[i]];
    }
    assert findings[..|findings|] == findings;
  }

  /** A dict of counts over a list of keys. */
  function Tally<K(==)>(keys: seq<K>): map<K, nat> {
    if keys == [] then map[]
    else
      var counts, key := Tally(keys[..|keys| - 1]), keys[|keys| - 1];
      counts[key := Tallied(counts, key) + 1]
  }

  /** `counts.get(key, 0)` */
  function Tallied<K(==)>(counts: map<K, nat>, key: K): nat {
    if key in counts then counts[key] else 0
  }

  function SeverityOf(f: NormalizedFinding): Severity {
    f.raw.severity
  }

  /** Every domain named by a finding, once for each naming. */
  function NamedDomains(findings: seq<NormalizedFinding>): seq<string> {
    if findings == [] then [] else NamedDomains(findings[..|findings| - 1]) + findings[|findings| - 1].domains
  }

  method CountBy(findings: seq<NormalizedFinding>) returns (counts: map<Severity, nat>)
    ensures counts == Tally(Map(SeverityOf, findings))
  {
    counts := map[];
    for i := 0 to |findings|
      invariant counts == Tally(Map(SeverityOf, findings[..i]))
    {
      assert findings[..i + 1] == findings[..i] + [findings[i]];
      MapConcat(SeverityOf, findings[..i], [findings[i]]);
      TallySnoc(Map(SeverityOf, findings[..i]), SeverityOf(findings[i]));
      assert Map(SeverityOf, findings[..i + 1]) == Map(SeverityOf, findings[..i]) + [SeverityOf(findings[i])];
      counts := counts[findings[i].raw.severity := Tallied(counts, findings[i].raw.severity) + 1];
    }
    assert findings[..|findings|] == findings;
  }

  /** The inner loop: the domains of one finding, after those already counted. */
  method CountDomains(ghost before: seq<string>, domains: seq<string>, sofar: map<string, nat>)
      returns (counts: map<string, nat>)
    requires sofar == Tally(before)
    ensures counts == Tally(before + domains)
  {
    counts := sofar;
    assert before + domains[..0] == before;
    for j := 0 to |domains|
      invariant counts == Tally(before + domains[..j])
    {
      TallySnoc(before + domains[..j], domains[j]);
      assert before + domains[..j + 1] == before + domains[..j] + [domains[j]];
      counts := counts[domains[j] := Tallied(counts, domains[j]) + 1];
    }
    assert domains[..|domains|] == domains;
  }

  method CountByDomain(findings: seq<NormalizedFinding>) returns (counts: map<string, nat>)
    ensures counts == Tally(NamedDomains(findings))
  {
    counts := map[];
    for i := 0 to |findings|
      invariant counts == Tally(NamedDomains(findings[..i]))
    {
      assert findings[..i + 1][..i] == findings[..i];
      counts := CountDomains(NamedDomains(findings[..i]), findings[i].domains, counts);
    }
    assert findings[..|findings|] == findings;
  }

  lemma TallySnoc<K>(keys: seq<K>, key: K)
    ensures Tally(keys + [key]) == Tally(keys)[key := Tallied(Tally(keys), key) + 1]
  {
    assert (keys + [key])[..|keys|] == keys;
  }

  // ------------------------------------------------------------ the whole scan

  function ScanWarnings(executions: seq<Execution>): seq<Warning> {
    if executions == [] then []
    else
      var e := executions[|executions| - 1];
      ScanWarnings(executions[..|executions| - 1])
      + if e.withErrors then [FilesNotScanned(e.scannerId, e.errored)] else []
  }

  function StatusOf(integrityVerified: bool, executions: seq<Execution>, truncated: bool): ScanStatus {
    if !integrityVerified then Failed
    else if (exists e :: e in executions && e.withErrors) || truncated then CompletedWithWarnings
    else Completed
  }

  function ContextOf(p: Platform, scanId: string, inventory: seq<Discovery.Item>): Context {
    Context(p, MapInventory(p, inventory), scanId)
  }

  /** Every finding of the scanners and of the skipped files, before deduplication. */
  function RawFindings(p: Platform, scanId: string, d: Discovery.Result): seq<NormalizedFinding> {
    ContextOf(p, scanId, d.inventory).FindingsOf(|p.scanners|, d.inventory)
    + SkipNormalizedAll(scanId, SkipFindings(p, d.skipped))
  }

  function SkipExecution(p: Platform, d: Discovery.Result): Execution {
    Execution(SKIP_SCANNER, "1.0.0", false, |d.skipped|, 0, |SkipFindings(p, d.skipped)|)
  }

  function ContentExecutions(p: Platform, scanId: string, d: Discovery.Result): seq<Execution> {
    ContextOf(p, scanId, d.inventory).ExecutionsOf(|p.scanners|, d.inventory)
  }

  /** The result of a scan whose kept findings and scanner runs are given. */
  function Assemble(p: Platform, scanId: string, hashBefore: string, hashAfter: string, d: Discovery.Result,
                    findings: seq<NormalizedFinding>, contentExecutions: seq<Execution>): ScanResult {
    var executions := contentExecutions + [SkipExecution(p, d)];
    ScanResult(
      Summary(scanId, StatusOf(hashBefore == hashAfter, executions, d.truncated), d.totalFound, |d.inventory|,
              |d.skipped|, |findings|, d.truncated, hashBefore == hashAfter, hashBefore, hashAfter,
              Tally(Map(SeverityOf, findings)), Tally(NamedDomains(findings)),
              ScanWarnings(contentExecutions) + if hashBefore == hashAfter then [] else [IntegrityCheckFailed]),
      d.inventory, d.skipped, MapInventory(p, d.inventory), findings, executions)
  }

  /** The result of scanning the tree `before`, which reads as `after` when the scan ends. */
  function Scan(p: Platform, scanId: string, before: Discovery.Directory, after: Discovery.Directory): ScanResult {
    var d := Discovery.Discover(p.settings, before);
    Assemble(p, scanId, Integrity.SourceHash(p.settings.digest, before),
             Integrity.SourceHash(p.settings.digest, after), d,
             Deduplicated(RawFindings(p, scanId, d)), ContentExecutions(p, scanId, d))
  }

  method MapFiles(p: Platform, items: seq<Discovery.Item>) returns (mapped: seq<MappedFile>)
    ensures mapped == MapInventory(p, items)
  {
    mapped := [];
    for i := 0 to |items|
      invariant mapped == MapInventory(p, items[..i])
    {
      assert items[..i + 1][..i] == items[..i];
      var item := items[i];
      var mappings := MapFileToDomains(p.settings.lower(item.relativePath),
                                       p.classify(item.relativePath, item.extension));
      mapped := Assign(mapped, item.relativePath, mappings);
    }
    assert items[..|items|] == items;
  }

  lemma NextExecution(c: Context, k: nat, items: seq<Discovery.Item>)
    requires k < |c.platform.scanners|
    ensures c.ExecutionsOf(k + 1, items) == c.ExecutionsOf(k, items) + [c.ExecutionOf(k, items)]
  {}

  lemma WarningsSnoc(executions: seq<Execution>, e: Execution)
    ensures ScanWarnings(executions + [e])
            == ScanWarnings(executions) + if e.withErrors then [FilesNotScanned(e.scannerId, e.errored)] else []
  {
    assert (executions + [e])[..|executions|] == executions;
  }

  method RunScanners(c: Context, items: seq<Discovery.Item>)
    returns (findings: seq<NormalizedFinding>, executions: seq<Execution>, warnings: seq<Warning>)
    ensures findings == c.FindingsOf(|c.platform.scanners|, items)
    ensures executions == c.ExecutionsOf(|c.platform.scanners|, items)
    ensures warnings == ScanWarnings(executions)
  {
    findings, executions, warnings := [], [], [];
    for k := 0 to |c.platform.scanners|
      invariant findings == c.FindingsOf(k, items)
      invariant executions == c.ExecutionsOf(k, items)
      invariant warnings == ScanWarnings(executions)
    {
      var execution;
      execution, findings := RunOneScanner(c, k, items, findings);
      NextExecution(c, k, items);
      WarningsSnoc(executions, execution);
      executions := executions + [execution];
      if execution.withErrors {
        warnings := warnings + [FilesNotScanned(execution.scannerId, execution.errored)];
      }
    }
  }

  /** The middle of the scan: mapping, the scanners, the skipped files and deduplication. */
  method CollectFindings(p: Platform, scanId: string, d: Discovery.Result)
    returns (mapped: seq<MappedFile>, findings: seq<NormalizedFinding>, executions: seq<Execution>,
             warnings: seq<Warning>)
    ensures mapped == MapInventory(p, d.inventory)
    ensures findings == Deduplicated(RawFindings(p, scanId, d))
    ensures executions == ContentExecutions(p, scanId, d) + [SkipExecution(p, d)]
    ensures warnings == ScanWarnings(ContentExecutions(p, scanId, d))
  {
    mapped := MapFiles(p, d.inventory);
    findings, executions, warnings := RunScanners(Context(p, mapped, scanId), d.inventory);
    var skips := ScanSkippedFiles(p, d.skipped);
    findings := findings + SkipNormalizedAll(scanId, skips);
    executions := executions + [Execution(SKIP_SCANNER, "1.0.0", false, |d.skipped|, 0, |skips|)];
    findings := Deduplicate(findings);
  }

  /** The end of the scan: the status and the counts. */
  method Summarise(p: Platform, scanId: string, hashBefore: string, hashAfter: string, d: Discovery.Result,
                   mapped: seq<MappedFile>, findings: seq<NormalizedFinding>, executions: seq<Execution>,
                   scannerWarnings: seq<Warning>, ghost contentExecutions: seq<Execution>)
    returns (result: ScanResult)
    requires mapped == MapInventory(p, d.inventory)
    requires executions == contentExecutions + [SkipExecution(p, d)]
    requires scannerWarnings == ScanWarnings(contentExecutions)
    ensures result == Assemble(p, scanId, hashBefore, hashAfter, d, findings, contentExecutions)
  {
    var warnings := scannerWarnings;
    var verified := hashBefore == hashAfter;
    if !verified {
      warnings := warnings + [IntegrityCheckFailed];
    }
    var status := Completed;
    if !verified {
      status := Failed;
    } else if (exists e :: e in executions && e.withErrors) || d.truncated {
      status := CompletedWithWarnings;
    }
    var bySeverity := CountBy(findings);
    var byDomain := CountByDomain(findings);
    result := ScanResult(
      Summary(scanId, status, d.totalFound, |d.inventory|, |d.skipped|, |findings|, d.truncated, verified,
              hashBefore, hashAfter, bySeverity, byDomain, warnings),
      d.inventory, d.skipped, mapped, findings, executions);
  }

  method RunScan(p: Platform, scanId: string, before: Discovery.Directory, after: Discovery.Directory)
    returns (result: ScanResult)
    ensures result == Scan(p, scanId, before, after)
  {
    var hashBefore := Integrity.ComputeSourceIntegrityHash(p.settings.digest, before);
    var d := Discovery.DiscoverFiles(p.settings, before);
    var mapped, findings, executions, warnings := CollectFindings(p, scanId, d);
    var hashAfter := Integrity.ComputeSourceIntegrityHash(p.settings.digest, after);
    result := Summarise(p, scanId, hashBefore, hashAfter, d, mapped, findings, executions, warnings,
                        ContentExecutions(p, scanId, d));
  }
}
