/**
 Saving a scan and scoring it from the saved rows (`ScanRepository.save`,
 `_domain_coverage` and `ScoringRepository.score_scan` in storage/db/repositories.py).
 */
module ScanStore {
  import opened Prelude
  import opened Store
  import opened Domains
  import opened DomainMapper
  import opened ScanPipeline
  import opened Scoring
  import opened ScoreMeaning
  import Discovery

  datatype FileRow = FileRow(id: string, scanId: string, path: string, contentHash: Option<string>,
                             skipped: Option<Discovery.SkipReason>)

  datatype MappingRow = MappingRow(
    scanId: string,
    fileId: Option<string>,
    domain: string,
    confidence: Confidence,
    reason: string,
    source: MappingSource)

  /** The ids the database gives out while one scan is saved. */
  datatype NewIds = NewIds(files: seq<string>, findings: seq<string>)
  {
    ghost predicate For(r: ScanResult) {
      && |files| == |r.inventory| + |r.skipped|
      && |findings| == |r.findings|
      && Distinct(files)
    }
  }

  // ---------------------------------------------------------------- the rows

  function ScannedRow(scanId: string, id: string, item: Discovery.Item): FileRow {
    FileRow(id, scanId, item.relativePath, Some(item.contentHash), None)
  }

  function SkippedRow(scanId: string, id: string, s: Discovery.Skipped): FileRow {
    FileRow(id, scanId, s.relativePath, None, Some(s.reason))
  }

  function FileRows(r: ScanResult, ids: seq<string>): seq<FileRow>
    requires |ids| == |r.inventory| + |r.skipped|
  {
    seq(|ids|, i requires 0 <= i < |ids| =>
      if i < |r.inventory| then ScannedRow(r.summary.scanId, ids[i], r.inventory[i])
      else SkippedRow(r.summary.scanId, ids[i], r.skipped[i - |r.inventory|]))
  }

  /** `file_id_by_path` */
  function IdByPath(items: seq<Discovery.Item>, ids: seq<string>): map<string, string>
    requires |items| <= |ids|
  {
    if items == [] then map[]
    else
      var n := |items| - 1;
      IdByPath(items[..n], ids)[items[n].relativePath := ids[n]]
  }

  function IdAt(idByPath: map<string, string>, path: string): Option<string> {
    if path in idByPath then Some(idByPath[path]) else None
  }

  function MappingRowOf(scanId: string, fileId: Option<string>, m: DomainMapping): MappingRow {
    MappingRow(scanId, fileId, Value(m.domain), m.confidence, m.reason, m.source)
  }

  function RowsOfFile(scanId: string, fileId: Option<string>, mappings: seq<DomainMapping>): seq<MappingRow> {
    Map((m: DomainMapping) => MappingRowOf(scanId, fileId, m), mappings)
  }

  function MappingRows(scanId: string, mapped: seq<MappedFile>, idByPath: map<string, string>): seq<MappingRow> {
    if mapped == [] then []
    else
      var last := mapped[|mapped| - 1];
      MappingRows(scanId, mapped[..|mapped| - 1], idByPath)
          + RowsOfFile(scanId, IdAt(idByPath, last.path), last.mappings)
  }

  function FindingRow(id: string, f: NormalizedFinding): Finding {
    Finding(id, f.scanId, f.raw.ruleId, f.raw.title, f.raw.severity, f.raw.confidence, f.domains, f.path,
            Some(f.raw.lineStart), Some(f.raw.maskedEvidence), Pending, None, None)
  }

  function FindingRows(findings: seq<NormalizedFinding>, ids: seq<string>): seq<Finding>
    requires |ids| == |findings|
  {
    seq(|ids|, i requires 0 <= i < |ids| => FindingRow(ids[i], findings[i]))
  }

  // ------------------------------------------------------ what the rows hold

  /** The row holds the finding as it was found, still to be reviewed. */
  predicate HoldsFinding(row: Finding, id: string, f: NormalizedFinding) {
    && row.id == id && row.scanId == f.scanId && row.ruleId == f.raw.ruleId && row.title == f.raw.title
    && row.severity == f.raw.severity && row.confidence == f.raw.confidence
    && row.bankingDomains == f.domains && row.sourceRelativePath == f.path
    && row.lineStart == Some(f.raw.lineStart) && row.maskedEvidence == Some(f.raw.maskedEvidence)
    && row.humanReviewStatus == Pending && row.reviewedBy.None? && row.reviewedAt.None?
  }

  /** A scanned file is stored with its hash, a skipped one with its reason. */
  predicate HoldsFile(row: FileRow, id: string, scanId: string, r: ScanResult, i: nat)
    requires i < |r.inventory| + |r.skipped|
  {
    && row.id == id && row.scanId == scanId
    && if i < |r.inventory| then
         && row.path == r.inventory[i].relativePath && row.contentHash == Some(r.inventory[i].contentHash)
         && row.skipped.None?
       else
         var s := r.skipped[i - |r.inventory|];
         row.path == s.relativePath && row.contentHash.None? && row.skipped == Some(s.reason)
  }

  /** The row holds the mapping, under the id of its file. */
  predicate HoldsMapping(row: MappingRow, scanId: string, fileId: Option<string>, m: DomainMapping) {
    && row.scanId == scanId && row.fileId == fileId && row.domain == Value(m.domain)
    && row.confidence == m.confidence && row.reason == m.reason && row.source == m.source
  }

  /** The row holds a mapping of this file. */
  ghost predicate HeldOf(scanId: string, file: MappedFile, idByPath: map<string, string>, row: MappingRow) {
    exists m :: m in file.mappings && HoldsMapping(row, scanId, IdAt(idByPath, file.path), m)
  }

  /** Some mapping of some file is what the row holds. */
  ghost predicate SomeMappingHeld(scanId: string, mapped: seq<MappedFile>, idByPath: map<string, string>,
                                  row: MappingRow) {
    exists file :: file in mapped && HeldOf(scanId, file, idByPath, row)
  }

  /** The rows of a saved scan hold its findings and files, each in its place. */
  lemma RowsHoldTheScan(r: ScanResult, ids: NewIds)
    requires ids.For(r)
    ensures var rows := FindingRows(r.findings, ids.findings);
            && |rows| == |r.findings|
            && forall i :: 0 <= i < |rows| ==> HoldsFinding(rows[i], ids.findings[i], r.findings[i])
    ensures var rows := FileRows(r, ids.files);
            && |rows| == |r.inventory| + |r.skipped|
            && forall i :: 0 <= i < |rows| ==> HoldsFile(rows[i], ids.files[i], r.summary.scanId, r, i)
  {}

  lemma RowOfFile(scanId: string, file: MappedFile, idByPath: map<string, string>, row: MappingRow)
    ensures row in RowsOfFile(scanId, IdAt(idByPath, file.path), file.mappings) <==> HeldOf(scanId, file, idByPath, row)
  {
    var fileId, mappings := IdAt(idByPath, file.path), file.mappings;
    if HeldOf(scanId, file, idByPath, row) {
      var m :| m in mappings && HoldsMapping(row, scanId, fileId, m);
      var i :| 0 <= i < |mappings| && mappings[i] == m;
      assert RowsOfFile(scanId, fileId, mappings)[i] == row;
    }
    if row in RowsOfFile(scanId, fileId, mappings) {
      var i :| 0 <= i < |mappings| && RowsOfFile(scanId, fileId, mappings)[i] == row;
      assert mappings[i] in mappings && HoldsMapping(row, scanId, fileId, mappings[i]);
    }
  }

  lemma HeldBeforeOrLast(scanId: string, before: seq<MappedFile>, last: MappedFile, idByPath: map<string, string>,
                         row: MappingRow)
    ensures SomeMappingHeld(scanId, before + [last], idByPath, row)
            <==> SomeMappingHeld(scanId, before, idByPath, row) || HeldOf(scanId, last, idByPath, row)
  {
    assert forall file :: file in before + [last] <==> file in before || file == last;
  }

  /** The mapping rows hold exactly the mappings of the files, each under its file's id. */
  lemma {:induction false} MappingRowsExact(scanId: string, mapped: seq<MappedFile>, idByPath: map<string, string>,
                                            row: MappingRow)
    ensures row in MappingRows(scanId, mapped, idByPath) <==> SomeMappingHeld(scanId, mapped, idByPath, row)
  {
    if mapped != [] {
      var before, last := mapped[..|mapped| - 1], mapped[|mapped| - 1];
      assert mapped == before + [last];
      MappingRowsExact(scanId, before, idByPath, row);
      RowOfFile(scanId, last, idByPath, row);
      HeldBeforeOrLast(scanId, before, last, idByPath, row);
    }
  }

  class ScanRepository {
    const db: Database
    var files: seq<FileRow>
    var mappings: seq<MappingRow>

    constructor (db: Database)
      ensures this.db == db && files == [] && mappings == []
    {
      this.db := db;
      files := [];
      mappings := [];
    }

    method Save(r: ScanResult, ids: NewIds)
      requires ids.For(r)
      modifies this, db`findings
      ensures files == old(files) + FileRows(r, ids.files)
      ensures mappings == old(mappings) + MappingRows(r.summary.scanId, r.mapped, IdByPath(r.inventory, ids.files))
      ensures db.findings == old(db.findings) + FindingRows(r.findings, ids.findings)
    {
      var scanId := r.summary.scanId;
      var idByPath: map<string, string> := map[];
      for i := 0 to |r.inventory|
        invariant db.findings == old(db.findings) && mappings == old(mappings)
        invariant files == old(files) + FileRows(r, ids.files)[..i]
        invariant idByPath == IdByPath(r.inventory[..i], ids.files)
      {
        assert r.inventory[..i + 1][..i] == r.inventory[..i];
        files := files + [ScannedRow(scanId, ids.files[i], r.inventory[i])];
        idByPath := idByPath[r.inventory[i].relativePath := ids.files[i]];
      }
      assert r.inventory[..|r.inventory|] == r.inventory;
      for i := 0 to |r.skipped|
        invariant db.findings == old(db.findings) && mappings == old(mappings)
        invariant files == old(files) + FileRows(r, ids.files)[..|r.inventory| + i]
      {
        files := files + [SkippedRow(scanId, ids.files[|r.inventory| + i], r.skipped[i])];
      }
      AddMappings(scanId, r.mapped, idByPath);
      AddFindings(r.findings, ids.findings);
    }

    method AddMappings(scanId: string, mapped: seq<MappedFile>, idByPath: map<string, string>)
      modifies this`mappings
      ensures mappings == old(mappings) + MappingRows(scanId, mapped, idByPath)
    {
      for i := 0 to |mapped|
        invariant mappings == old(mappings) + MappingRows(scanId, mapped[..i], idByPath)
      {
        assert mapped[..i + 1][..i] == mapped[..i];
        mappings := mappings + RowsOfFile(scanId, IdAt(idByPath, mapped[i].path), mapped[i].mappings);
      }
      assert mapped[..|mapped|] == mapped;
    }

    method AddFindings(findings: seq<NormalizedFinding>, ids: seq<string>)
      requires |ids| == |findings|
      modifies db`findings
      ensures db.findings == old(db.findings) + FindingRows(findings, ids)
    {
      for i := 0 to |findings|
        invariant db.findings == old(db.findings) + FindingRows(findings, ids)[..i]
      {
        db.findings := db.findings + [FindingRow(ids[i], findings[i])];
      }
    }
  }

  // ----------------------------------------------------------------- coverage

  /** The files some row maps to the domain. */
  function FilesMapped(rows: seq<MappingRow>, domain: string): set<Option<string>> {
    set m | m in rows && m.domain == domain :: m.fileId
  }

  function EvaluatedDomains(rows: seq<MappingRow>): set<string> {
    set m | m in rows :: m.domain
  }

  /** The coverage counts each mapped file once, however many rows name it. */
  method DomainCoverage(rows: seq<MappingRow>) returns (evaluated: set<string>, files: map<string, nat>)
    ensures evaluated == EvaluatedDomains(rows)
    ensures files.Keys == evaluated
    ensures forall domain :: domain in files ==> files[domain] == |FilesMapped(rows, domain)|
  {
    evaluated := set m | m in rows :: m.domain;
    var byDomain: map<string, set<Option<string>>> := map[];
    for i := 0 to |rows|
      invariant byDomain.Keys == EvaluatedDomains(rows[..i])
      invariant forall domain :: domain in byDomain ==> byDomain[domain] == FilesMapped(rows[..i], domain)
    {
      var m := rows[i];
      assert rows[..i + 1] == rows[..i] + [m];
      assert m.domain !in byDomain ==> FilesMapped(rows[..i], m.domain) == {};
      var known := if m.domain in byDomain then byDomain[m.domain] else {};
      byDomain := byDomain[m.domain := known + {m.fileId}];
    }
    assert rows[..|rows|] == rows;
    files := map domain | domain in byDomain :: |byDomain[domain]|;
  }

  // ------------------------------------------------------------------ scoring

  function ScoringInput(f: Finding): ScoredFinding {
    ScoredFinding(f.ruleId, f.severity, f.confidence, f.bankingDomains)
  }

  predicate OfScan(scanId: string, f: Finding) {
    f.scanId == scanId
  }

  function FindingsOfScan(findings: seq<Finding>, scanId: string): seq<Finding> {
    Filter((f: Finding) => OfScan(scanId, f), findings)
  }

  function MappingsOfScan(mappings: seq<MappingRow>, scanId: string): seq<MappingRow> {
    Filter((m: MappingRow) => m.scanId == scanId, mappings)
  }

  function ScoreRow(id: string, scanId: string, r: ScoreResult, now: Time): Score {
    Score(id, scanId, Value(r.domain), r.rawScore, r.weightedScore, r.confidenceLevel, r.evidenceCompleteness,
          r.decisionCategory, r.filesEvaluated, r.findingsCount, now, None)
  }

  function ScoreRows(ids: seq<string>, scanId: string, results: seq<ScoreResult>, now: Time): seq<Score>
    requires |ids| == |results|
  {
    seq(|ids|, i requires 0 <= i < |ids| => ScoreRow(ids[i], scanId, results[i], now))
  }

  /** `_domain_coverage`'s counts as one map. */
  function CoverageCounts(rows: seq<MappingRow>): map<string, nat> {
    map domain | domain in EvaluatedDomains(rows) :: |FilesMapped(rows, domain)|
  }

  function ScanScores(findings: seq<Finding>, mappings: seq<MappingRow>, scanId: string): seq<ScoreResult> {
    var rows := MappingsOfScan(mappings, scanId);
    ScoreAllDomains(Map(ScoringInput, FindingsOfScan(findings, scanId)), EvaluatedDomains(rows), CoverageCounts(rows))
  }

  // ------------------------------------------------ what a stored score says

  /** The scan's stored findings that name the domain. */
  function Concerning(findings: seq<Finding>, scanId: string, domain: BankingDomain): seq<Finding> {
    Filter((f: Finding) => f.scanId == scanId && Value(domain) in f.bankingDomains, findings)
  }

  /** The files of the scan that some stored row maps to the domain. */
  function FilesOfScan(mappings: seq<MappingRow>, scanId: string, domain: BankingDomain): set<Option<string>> {
    set m | m in mappings && m.scanId == scanId && m.domain == Value(domain) :: m.fileId
  }

  /** The row's columns are those of a score of the domain on these findings and this many files. */
  ghost predicate RowSays(row: Score, id: string, scanId: string, domain: BankingDomain, now: Time,
                          findings: seq<Finding>, files: nat) {
    && row.id == id && row.scanId == scanId && row.domain == Value(domain)
    && row.calculatedAt == now && row.overrideOf.None?
    && Says(ScoreResult(domain, row.rawScore, row.weightedScore, row.confidenceLevel, row.evidenceCompleteness,
                        row.decisionCategory, row.filesEvaluated, row.findingsCount),
            domain, Map(ScoringInput, findings), files > 0, files)
  }

  lemma {:induction false} InputsConcern(findings: seq<Finding>, scanId: string, domain: BankingDomain)
    ensures FindingsNaming(domain, Map(ScoringInput, FindingsOfScan(findings, scanId)))
            == Map(ScoringInput, Concerning(findings, scanId, domain))
  {
    if findings != [] {
      InputsConcern(findings[1..], scanId, domain);
      var first, rest := findings[0], FindingsOfScan(findings[1..], scanId);
      if OfScan(scanId, first) {
        var inputs := Map(ScoringInput, FindingsOfScan(findings, scanId));
        assert FindingsOfScan(findings, scanId) == [first] + rest;
        assert inputs[0] == ScoringInput(first) && inputs[1..] == Map(ScoringInput, rest);
        MapConcat(ScoringInput, if Names(domain, ScoringInput(first)) then [first] else [],
                  Concerning(findings[1..], scanId, domain));
      } else {
        assert FindingsOfScan(findings, scanId) == rest;
      }
    }
  }

  lemma CoverageOfDomain(mappings: seq<MappingRow>, scanId: string, domain: BankingDomain)
    ensures var rows := MappingsOfScan(mappings, scanId);
            && FilesMapped(rows, Value(domain)) == FilesOfScan(mappings, scanId, domain)
            && (Value(domain) in EvaluatedDomains(rows) <==> FilesOfScan(mappings, scanId, domain) != {})
  {
    FilterMembers((m: MappingRow) => m.scanId == scanId, mappings);
    if m :| m in mappings && m.scanId == scanId && m.domain == Value(domain) {
      assert m.fileId in FilesOfScan(mappings, scanId, domain);
    }
  }

  /** Every row scoring appends says what it should of this scan's stored findings and files. */
  lemma StoredScoreSays(findings: seq<Finding>, mappings: seq<MappingRow>, scanId: string, ids: seq<string>,
                        now: Time, i: nat)
    requires |ids| == |ALL_DOMAINS| && i < |ids|
    ensures var rows := ScoreRows(ids, scanId, ScanScores(findings, mappings, scanId), now);
            RowSays(rows[i], ids[i], scanId, ALL_DOMAINS[i], now, Concerning(findings, scanId, ALL_DOMAINS[i]),
                    |FilesOfScan(mappings, scanId, ALL_DOMAINS[i])|)
  {
    var domain := ALL_DOMAINS[i];
    var files := |FilesOfScan(mappings, scanId, domain)|;
    InputsConcern(findings, scanId, domain);
    CoverageOfDomain(mappings, scanId, domain);
    EveryScoreSays(domain, Map(ScoringInput, Concerning(findings, scanId, domain)), files > 0, files);
    OneScore(findings, mappings, scanId, i);
  }

  lemma OneScore(findings: seq<Finding>, mappings: seq<MappingRow>, scanId: string, i: nat)
    requires i < |ALL_DOMAINS|
    ensures var files := |FilesOfScan(mappings, scanId, ALL_DOMAINS[i])|;
            ScanScores(findings, mappings, scanId)[i]
            == ScoreDomain(ALL_DOMAINS[i], Map(ScoringInput, Concerning(findings, scanId, ALL_DOMAINS[i])), files > 0,
                           files)
  {
    var rows := MappingsOfScan(mappings, scanId);
    InputsConcern(findings, scanId, ALL_DOMAINS[i]);
    CoverageOfDomain(mappings, scanId, ALL_DOMAINS[i]);
    ScoresInOrder(Map(ScoringInput, FindingsOfScan(findings, scanId)), EvaluatedDomains(rows), CoverageCounts(rows));
  }

  class ScoringRepository {
    const scans: ScanRepository

    constructor (scans: ScanRepository)
      ensures this.scans == scans
    {
      this.scans := scans;
    }

    /** `score_scan`: one new row for each of the sixteen domains. */
    method ScoreScan(scanId: string, ids: seq<string>, now: Time) returns (rows: seq<Score>)
      requires |ids| == |ALL_DOMAINS|
      modifies scans.db`scores
      ensures rows == ScoreRows(ids, scanId, ScanScores(scans.db.findings, scans.mappings, scanId), now)
      ensures scans.db.scores == old(scans.db.scores) + rows
      ensures |rows| == |ALL_DOMAINS|
      ensures forall i :: 0 <= i < |rows| ==>
                RowSays(rows[i], ids[i], scanId, ALL_DOMAINS[i], now,
                        Concerning(scans.db.findings, scanId, ALL_DOMAINS[i]),
                        |FilesOfScan(scans.mappings, scanId, ALL_DOMAINS[i])|)
    {
      forall i | 0 <= i < |ids|
        ensures RowSays(ScoreRows(ids, scanId, ScanScores(scans.db.findings, scans.mappings, scanId), now)[i], ids[i],
                        scanId, ALL_DOMAINS[i], now, Concerning(scans.db.findings, scanId, ALL_DOMAINS[i]),
                        |FilesOfScan(scans.mappings, scanId, ALL_DOMAINS[i])|) {
        StoredScoreSays(scans.db.findings, scans.mappings, scanId, ids, now, i);
      }
      var findings := FindingsOfScan(scans.db.findings, scanId);
      var coverage := MappingsOfScan(scans.mappings, scanId);
      var evaluated, files := DomainCoverage(coverage);
      assert files == CoverageCounts(coverage);
      var results := ScoreAllDomains(Map(ScoringInput, findings), evaluated, files);
      rows := ScoreRows(ids, scanId, results, now);
      scans.db.scores := scans.db.scores + rows;
    }
  }
}
