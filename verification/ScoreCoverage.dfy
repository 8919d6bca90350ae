/**
 From files to scores without a gap: the score rows of a saved scan agree with the
 scan's own summary, and count exactly the inventoried files that map to each domain.
 */
module ScoreCoverage {
  import opened Prelude
  import opened Store
  import opened Domains
  import opened DomainMapper
  import opened ScanPipeline
  import opened ScanGuarantees
  import opened ScanStore
  import opened Scoring
  import Discovery
  import Integrity
  import ScoreLog

  /** The tables just after a scan was saved under an id no earlier row carries. */
  datatype Saved = Saved(
    platform: Platform,
    scanId: string,
    before: Discovery.Directory,
    after: Discovery.Directory,
    ids: NewIds,
    earlierFindings: seq<Finding>,
    earlierMappings: seq<MappingRow>)
  {
    function Result(): ScanResult {
      Scan(platform, scanId, before, after)
    }

    ghost predicate Valid() {
      && Integrity.WellFormed(before)
      && ids.For(Result())
      && (forall f :: f in earlierFindings ==> f.scanId != scanId)
      && (forall m :: m in earlierMappings ==> m.scanId != scanId)
    }

    function Findings(): seq<Finding>
      requires Valid()
    {
      earlierFindings + FindingRows(Result().findings, ids.findings)
    }

    function NewMappings(): seq<MappingRow>
      requires Valid()
    {
      MappingRows(scanId, Result().mapped, IdByPath(Result().inventory, ids.files))
    }

    function Mappings(): seq<MappingRow>
      requires Valid()
    {
      earlierMappings + NewMappings()
    }

    /** The file maps to the domain. */
    function Counts(domain: BankingDomain): Discovery.Item -> bool {
      (item: Discovery.Item) => MapsTo(MappingsOf(platform, item), domain)
    }

    /** How many inventoried files map to the domain. */
    function FilesFor(domain: BankingDomain): nat {
      Count(Counts(domain), Result().inventory)
    }

    function Scores(): seq<ScoreResult>
      requires Valid()
    {
      ScanScores(Findings(), Mappings(), scanId)
    }
  }

  // --------------------------------------------------------- what the queries see

  lemma {:induction false} FilterNone<T>(keep: T -> bool, s: seq<T>)
    requires forall x :: x in s ==> !keep(x)
    ensures Filter(keep, s) == []
  {
    if s != [] {
      assert s[0] in s;
      FilterNone(keep, s[1..]);
    }
  }

  lemma {:induction false} FilterAll<T>(keep: T -> bool, s: seq<T>)
    requires forall x :: x in s ==> keep(x)
    ensures Filter(keep, s) == s
  {
    if s != [] {
      assert s[0] in s;
      FilterAll(keep, s[1..]);
    }
  }

  lemma {:induction false} MappingRowsCarryScan(scanId: string, mapped: seq<MappedFile>, idByPath: map<string, string>)
    ensures forall m :: m in MappingRows(scanId, mapped, idByPath) ==> m.scanId == scanId
  {
    if mapped != [] {
      MappingRowsCarryScan(scanId, mapped[..|mapped| - 1], idByPath);
    }
  }

  /** The findings carry the scan's id and name no domain twice. */
  ghost predicate Tidy(findings: seq<NormalizedFinding>, scanId: string) {
    forall f :: f in findings ==> f.scanId == scanId && Distinct(f.domains)
  }

  lemma ScanFindingsAreTidy(s: Saved)
    requires s.Valid()
    ensures Tidy(s.Result().findings, s.scanId)
  {
    forall f | f in s.Result().findings ensures f.scanId == s.scanId && Distinct(f.domains) {
      FindingsNameMappedDomains(s.platform, s.scanId, s.before, s.after, f);
    }
  }

  lemma QueriedFindings(earlier: seq<Finding>, findings: seq<NormalizedFinding>, ids: seq<string>, scanId: string)
    requires |ids| == |findings| && Tidy(findings, scanId)
    requires forall f :: f in earlier ==> f.scanId != scanId
    ensures FindingsOfScan(earlier + FindingRows(findings, ids), scanId) == FindingRows(findings, ids)
  {
    var rows := FindingRows(findings, ids);
    var ofScan := (f: Finding) => OfScan(scanId, f);
    forall f | f in rows ensures f.scanId == scanId {
      var i :| 0 <= i < |rows| && rows[i] == f;
      assert findings[i] in findings;
    }
    FilterConcat(ofScan, earlier, rows);
    FilterNone(ofScan, earlier);
    FilterAll(ofScan, rows);
  }

  lemma QueriedMappings(earlier: seq<MappingRow>, mapped: seq<MappedFile>, idByPath: map<string, string>,
                        scanId: string)
    requires forall m :: m in earlier ==> m.scanId != scanId
    ensures MappingsOfScan(earlier + MappingRows(scanId, mapped, idByPath), scanId)
            == MappingRows(scanId, mapped, idByPath)
  {
    var rows := MappingRows(scanId, mapped, idByPath);
    var here := (m: MappingRow) => m.scanId == scanId;
    MappingRowsCarryScan(scanId, mapped, idByPath);
    FilterConcat(here, earlier, rows);
    FilterNone(here, earlier);
    FilterAll(here, rows);
  }

  lemma QueriesSeeTheScan(s: Saved)
    requires s.Valid()
    ensures FindingsOfScan(s.Findings(), s.scanId) == FindingRows(s.Result().findings, s.ids.findings)
    ensures MappingsOfScan(s.Mappings(), s.scanId) == s.NewMappings()
  {
    ScanFindingsAreTidy(s);
    QueriedFindings(s.earlierFindings, s.Result().findings, s.ids.findings, s.scanId);
    QueriedMappings(s.earlierMappings, s.Result().mapped, IdByPath(s.Result().inventory, s.ids.files), s.scanId);
  }

  // -------------------------------------------------------------- exact coverage

  /** The file's mapping list holds the domain. */
  function MappedTo(domain: BankingDomain): MappedFile -> bool {
    (f: MappedFile) => MapsTo(f.mappings, domain)
  }

  lemma RowsOfFileMapped(scanId: string, fileId: Option<string>, mappings: seq<DomainMapping>, domain: BankingDomain)
    ensures FilesMapped(RowsOfFile(scanId, fileId, mappings), Value(domain))
            == if MapsTo(mappings, domain) then {fileId} else {}
  {
    var rows := RowsOfFile(scanId, fileId, mappings);
    if MapsTo(mappings, domain) {
      var m :| m in mappings && m.domain == domain;
      var i :| 0 <= i < |mappings| && mappings[i] == m;
      assert rows[i] in rows && rows[i].domain == Value(domain);
    }
    forall row | row in rows && row.domain == Value(domain) ensures MapsTo(mappings, domain) && row.fileId == fileId {
      var i :| 0 <= i < |rows| && rows[i] == row;
      ValuesAreDistinct(mappings[i].domain, domain);
      assert mappings[i] in mappings;
    }
  }

  lemma FilesMappedConcat(a: seq<MappingRow>, b: seq<MappingRow>, domain: string)
    ensures FilesMapped(a + b, domain) == FilesMapped(a, domain) + FilesMapped(b, domain)
  {
    forall m | m in a + b ensures m in a || m in b {}
    assert forall m :: m in a ==> m in a + b;
    assert forall m :: m in b ==> m in a + b;
  }

  /** The mapped files have different ids. */
  ghost predicate IdsApart(mapped: seq<MappedFile>, idByPath: map<string, string>) {
    forall i, j :: 0 <= i < j < |mapped| ==> IdAt(idByPath, mapped[i].path) != IdAt(idByPath, mapped[j].path)
  }

  ghost predicate IdOfOne(mapped: seq<MappedFile>, idByPath: map<string, string>, id: Option<string>) {
    exists i :: 0 <= i < |mapped| && id == IdAt(idByPath, mapped[i].path)
  }

  lemma {:induction false} FilesMappedAreFiles(scanId: string, mapped: seq<MappedFile>, idByPath: map<string, string>,
                                               domain: string, id: Option<string>)
    requires id in FilesMapped(MappingRows(scanId, mapped, idByPath), domain)
    ensures IdOfOne(mapped, idByPath, id)
  {
    var n := |mapped| - 1;
    var before := MappingRows(scanId, mapped[..n], idByPath);
    var here := RowsOfFile(scanId, IdAt(idByPath, mapped[n].path), mapped[n].mappings);
    FilesMappedConcat(before, here, domain);
    if id in FilesMapped(before, domain) {
      FilesMappedAreFiles(scanId, mapped[..n], idByPath, domain, id);
      var i :| 0 <= i < n && id == IdAt(idByPath, mapped[..n][i].path);
      assert mapped[i] == mapped[..n][i];
    } else {
      var row :| row in here && row.domain == domain && row.fileId == id;
      assert id == IdAt(idByPath, mapped[n].path);
    }
  }

  lemma LastFileIsNew(scanId: string, mapped: seq<MappedFile>, idByPath: map<string, string>, domain: string)
    requires IdsApart(mapped, idByPath) && mapped != []
    ensures IdAt(idByPath, mapped[|mapped| - 1].path)
            !in FilesMapped(MappingRows(scanId, mapped[..|mapped| - 1], idByPath), domain)
  {
    var n := |mapped| - 1;
    var id := IdAt(idByPath, mapped[n].path);
    forall i | 0 <= i < n ensures IdAt(idByPath, mapped[..n][i].path) != id {
      assert mapped[..n][i] == mapped[i];
    }
    assert !IdOfOne(mapped[..n], idByPath, id);
    if id in FilesMapped(MappingRows(scanId, mapped[..n], idByPath), domain) {
      FilesMappedAreFiles(scanId, mapped[..n], idByPath, domain, id);
      assert false;
    }
  }

  /** The last file adds its id to a domain it maps to, and nothing else. */
  lemma LastFileAdds(scanId: string, mapped: seq<MappedFile>, idByPath: map<string, string>, domain: BankingDomain)
    requires mapped != []
    ensures var last := mapped[|mapped| - 1];
            FilesMapped(MappingRows(scanId, mapped, idByPath), Value(domain))
            == FilesMapped(MappingRows(scanId, mapped[..|mapped| - 1], idByPath), Value(domain))
               + if MapsTo(last.mappings, domain) then {IdAt(idByPath, last.path)} else {}
  {
    var n := |mapped| - 1;
    var id := IdAt(idByPath, mapped[n].path);
    RowsOfFileMapped(scanId, id, mapped[n].mappings, domain);
    FilesMappedConcat(MappingRows(scanId, mapped[..n], idByPath), RowsOfFile(scanId, id, mapped[n].mappings),
                      Value(domain));
  }

  lemma IdsApartBefore(mapped: seq<MappedFile>, idByPath: map<string, string>)
    requires IdsApart(mapped, idByPath) && mapped != []
    ensures IdsApart(mapped[..|mapped| - 1], idByPath)
  {}

  /** The last file adds one to the ids of a domain it maps to. */
  lemma LastFileCounts(scanId: string, mapped: seq<MappedFile>, idByPath: map<string, string>, domain: BankingDomain)
    requires IdsApart(mapped, idByPath) && mapped != []
    ensures var n := |mapped| - 1;
            |FilesMapped(MappingRows(scanId, mapped, idByPath), Value(domain))|
            == |FilesMapped(MappingRows(scanId, mapped[..n], idByPath), Value(domain))|
               + if MapsTo(mapped[n].mappings, domain) then 1 else 0
  {
    LastFileIsNew(scanId, mapped, idByPath, Value(domain));
    LastFileAdds(scanId, mapped, idByPath, domain);
  }

  lemma CountLast<T>(p: T -> bool, s: seq<T>)
    requires s != []
    ensures var n := |s| - 1; Count(p, s) == Count(p, s[..n]) + if p(s[n]) then 1 else 0
  {
    var n := |s| - 1;
    assert s == s[..n] + [s[n]];
    CountSnoc(p, s[..n], s[n]);
  }

  /** The distinct file ids among the rows of a domain are the mapped files, one each. */
  lemma {:induction false} FilesMappedCount(scanId: string, mapped: seq<MappedFile>, idByPath: map<string, string>,
                                            domain: BankingDomain)
    requires IdsApart(mapped, idByPath)
    ensures |FilesMapped(MappingRows(scanId, mapped, idByPath), Value(domain))| == Count(MappedTo(domain), mapped)
  {
    if mapped != [] {
      IdsApartBefore(mapped, idByPath);
      FilesMappedCount(scanId, mapped[..|mapped| - 1], idByPath, domain);
      LastFileCounts(scanId, mapped, idByPath, domain);
      CountLast(MappedTo(domain), mapped);
    }
  }

  lemma {:induction false} IdByPathAt(items: seq<Discovery.Item>, ids: seq<string>)
    requires |items| <= |ids| && Distinct(Discovery.ItemPaths(items))
    ensures forall i :: 0 <= i < |items| ==> IdAt(IdByPath(items, ids), items[i].relativePath) == Some(ids[i])
    ensures forall path :: path in IdByPath(items, ids) ==> path in Discovery.ItemPaths(items)
  {
    if items != [] {
      var n := |items| - 1;
      var paths := Discovery.ItemPaths(items);
      assert paths[..n] == Discovery.ItemPaths(items[..n]);
      IdByPathAt(items[..n], ids);
      forall i | 0 <= i < n ensures items[i].relativePath != items[n].relativePath {
        assert paths[i] != paths[n];
      }
      assert paths[n] in paths;
      assert forall path :: path in paths[..n] ==> path in paths;
    }
  }

  lemma {:induction false} CountPointwise<A, B>(p: A -> bool, a: seq<A>, q: B -> bool, b: seq<B>)
    requires |a| == |b| && forall i :: 0 <= i < |a| ==> p(a[i]) == q(b[i])
    ensures Count(p, a) == Count(q, b)
  {
    if a != [] {
      CountPointwise(p, a[1..], q, b[1..]);
    }
  }

  lemma SavedFilesHaveOwnIds(p: Platform, items: seq<Discovery.Item>, ids: seq<string>)
    requires Distinct(Discovery.ItemPaths(items)) && |items| <= |ids| && Distinct(ids)
    ensures IdsApart(MapInventory(p, items), IdByPath(items, ids))
  {
    MapInventoryInOrder(p, items);
    IdByPathAt(items, ids);
    var mapped, idByPath := MapInventory(p, items), IdByPath(items, ids);
    forall i | 0 <= i < |mapped| ensures IdAt(idByPath, mapped[i].path) == Some(ids[i]) {
      assert mapped[i].path == items[i].relativePath;
    }
  }

  lemma MappedFilesCount(p: Platform, items: seq<Discovery.Item>, domain: BankingDomain, counts: Discovery.Item -> bool)
    requires Distinct(Discovery.ItemPaths(items))
    requires forall item :: item in items ==> counts(item) == MapsTo(MappingsOf(p, item), domain)
    ensures Count(MappedTo(domain), MapInventory(p, items)) == Count(counts, items)
  {
    MapInventoryInOrder(p, items);
    var mapped := MapInventory(p, items);
    forall i | 0 <= i < |items| ensures MappedTo(domain)(mapped[i]) == counts(items[i]) {
      assert items[i] in items;
    }
    CountPointwise(MappedTo(domain), mapped, counts, items);
  }

  /** Coverage counts exactly the inventoried files that map to the domain. */
  lemma CoverageIsExact(s: Saved, domain: BankingDomain)
    requires s.Valid()
    ensures |FilesMapped(s.NewMappings(), Value(domain))| == s.FilesFor(domain)
    ensures Value(domain) in EvaluatedDomains(s.NewMappings()) <==> s.FilesFor(domain) > 0
  {
    var items := s.Result().inventory;
    Integrity.InventoryPathsDistinct(s.platform.settings, s.before);
    SavedFilesHaveOwnIds(s.platform, items, s.ids.files);
    FilesMappedCount(s.scanId, s.Result().mapped, IdByPath(items, s.ids.files), domain);
    MappedFilesCount(s.platform, items, domain, s.Counts(domain));
    EvaluatedIff(s.NewMappings(), Value(domain));
  }

  lemma EvaluatedIff(rows: seq<MappingRow>, domain: string)
    ensures domain in EvaluatedDomains(rows) <==> |FilesMapped(rows, domain)| > 0
  {
    if domain in EvaluatedDomains(rows) {
      var m :| m in rows && m.domain == domain;
      assert m.fileId in FilesMapped(rows, domain);
    }
    if |FilesMapped(rows, domain)| > 0 {
      var id :| id in FilesMapped(rows, domain);
      var m :| m in rows && m.domain == domain && m.fileId == id;
    }
  }

  // ------------------------------------------------------------- exact findings

  lemma NamingRowsCount(findings: seq<NormalizedFinding>, ids: seq<string>, scanId: string, domain: BankingDomain)
    requires |ids| == |findings| && Tidy(findings, scanId)
    ensures |FindingsNaming(domain, Map(ScoringInput, FindingRows(findings, ids)))|
            == Tallied(Tally(NamedDomains(findings)), Value(domain))
  {
    var inputs := Map(ScoringInput, FindingRows(findings, ids));
    FilterLength((f: ScoredFinding) => Names(domain, f), inputs);
    CountPointwise((f: ScoredFinding) => Names(domain, f), inputs, NamesDomain(Value(domain)), findings);
    DomainTallyCountsFindings(findings, Value(domain));
  }

  /** The findings scoring sees for a domain number what the summary says. */
  lemma NamingFindingsMatchSummary(s: Saved, domain: BankingDomain)
    requires s.Valid()
    ensures |FindingsNaming(domain, Map(ScoringInput, FindingsOfScan(s.Findings(), s.scanId)))|
            == Tallied(s.Result().summary.byDomain, Value(domain))
  {
    QueriesSeeTheScan(s);
    ScanFindingsAreTidy(s);
    NamingRowsCount(s.Result().findings, s.ids.findings, s.scanId, domain);
  }

  lemma TalliedIsNamed(findings: seq<NormalizedFinding>, scanId: string, value: string) returns (f: NormalizedFinding)
    requires Tidy(findings, scanId) && Tallied(Tally(NamedDomains(findings)), value) > 0
    ensures f in findings && value in f.domains
  {
    DomainTallyCountsFindings(findings, value);
    CountPositiveIff(NamesDomain(value), findings);
    f :| f in findings && NamesDomain(value)(f);
  }

  /** A domain that some finding names has a file behind it. */
  lemma NamedDomainsHaveFiles(s: Saved, domain: BankingDomain)
    requires s.Valid() && Tallied(s.Result().summary.byDomain, Value(domain)) > 0
    ensures s.FilesFor(domain) > 0
  {
    ScanFindingsAreTidy(s);
    var f := TalliedIsNamed(s.Result().findings, s.scanId, Value(domain));
    FindingsNameMappedDomains(s.platform, s.scanId, s.before, s.after, f);
    var item :| Backs(s.platform, s.Result().inventory, item, f.path, f.domains);
    ValuesTellDomains(MappingsOf(s.platform, item), domain);
    CountPositive(s.Counts(domain), s.Result().inventory, item);
  }

  /** One domain's score, from the rows: its counts are the files mapped and the findings naming it. */
  lemma ScoreCountsRows(inputs: seq<ScoredFinding>, rows: seq<MappingRow>, i: nat)
    requires i < |ALL_DOMAINS|
    requires var domain := ALL_DOMAINS[i];
             |FindingsNaming(domain, inputs)| > 0 ==> Value(domain) in EvaluatedDomains(rows)
    ensures |ScoreAllDomains(inputs, EvaluatedDomains(rows), CoverageCounts(rows))| == |ALL_DOMAINS|
    ensures var score := ScoreAllDomains(inputs, EvaluatedDomains(rows), CoverageCounts(rows))[i];
            var domain := ALL_DOMAINS[i];
            && score.domain == domain
            && score.filesEvaluated == |FilesMapped(rows, Value(domain))|
            && score.findingsCount == |FindingsNaming(domain, inputs)|
            && (score.decisionCategory == InsufficientEvidence <==> Value(domain) !in EvaluatedDomains(rows))
  {
    ScoresInOrder(inputs, EvaluatedDomains(rows), CoverageCounts(rows));
    NotEvaluatedIsNeverClean(inputs, EvaluatedDomains(rows), CoverageCounts(rows), i);
    EvaluatedIff(rows, Value(ALL_DOMAINS[i]));
  }

  /**
   The whole pipeline, file system to score: each of the sixteen scores counts exactly the
   inventoried files that map to its domain and exactly the findings the scan's summary
   counts there; it is "insufficient evidence" exactly when no file maps to the domain,
   and then there was no finding for the shortcut to discard.
   */
  lemma ScoresMatchTheScan(s: Saved, i: nat)
    requires s.Valid() && i < |ALL_DOMAINS|
    ensures |s.Scores()| == |ALL_DOMAINS|
    ensures var score, domain := s.Scores()[i], ALL_DOMAINS[i];
            && score.domain == domain
            && score.filesEvaluated == s.FilesFor(domain)
            && score.findingsCount == Tallied(s.Result().summary.byDomain, Value(domain))
            && (score.decisionCategory == InsufficientEvidence <==> s.FilesFor(domain) == 0)
            && (s.FilesFor(domain) == 0 ==> Tallied(s.Result().summary.byDomain, Value(domain)) == 0)
  {
    var domain := ALL_DOMAINS[i];
    QueriesSeeTheScan(s);
    CoverageIsExact(s, domain);
    NamingFindingsMatchSummary(s, domain);
    if Tallied(s.Result().summary.byDomain, Value(domain)) > 0 {
      NamedDomainsHaveFiles(s, domain);
    }
    ScoreCountsRows(Map(ScoringInput, FindingsOfScan(s.Findings(), s.scanId)), s.NewMappings(), i);
  }

  // ------------------------------------------------ the limit of "looked at"

  function ScanContext(s: Saved): Context {
    ContextOf(s.platform, s.scanId, s.Result().inventory)
  }

  /** Scanner `k` is shown this file, which maps to the domain. */
  ghost predicate Shown(s: Saved, domain: BankingDomain, k: nat, item: Discovery.Item) {
    k < |s.platform.scanners| && item in s.Result().inventory && s.Counts(domain)(item)
  }

  /** Some scanner read the text of some file that maps to the domain. */
  ghost predicate LookedAt(s: Saved, domain: BankingDomain) {
    exists k: nat, item :: Shown(s, domain, k, item) && ScanContext(s).Inspect(k, item).Scanned?
  }

  /** Each file that maps to the domain was binary, unreadable or broke the scanner, for every scanner. */
  ghost predicate NoneReadable(s: Saved, domain: BankingDomain) {
    forall k: nat, item :: Shown(s, domain, k, item) ==>
      ScanContext(s).Inspect(k, item).NotText? || ScanContext(s).Inspect(k, item).Broke?
  }

  /** Each file that maps to the domain was binary for every scanner. */
  ghost predicate AllBinary(s: Saved, domain: BankingDomain) {
    forall k: nat, item :: Shown(s, domain, k, item) ==> ScanContext(s).Inspect(k, item).NotText?
  }

  /**
   Mapping counts as looking: a domain is scored without having been looked at exactly
   when some file maps to it but none of these could be read or scanned, and it then gets
   the same clean 100 as a domain whose files were scanned and found clean.
   */
  lemma ScoredUnreadIff(s: Saved, i: nat)
    requires s.Valid() && i < |ALL_DOMAINS|
    ensures |s.Scores()| == |ALL_DOMAINS|
    ensures var score, domain := s.Scores()[i], ALL_DOMAINS[i];
            && (score.weightedScore.Some? && !LookedAt(s, domain)
                <==> s.FilesFor(domain) > 0 && NoneReadable(s, domain))
            && (s.FilesFor(domain) > 0 && NoneReadable(s, domain) ==>
                  score.weightedScore == Some(100.0) && score.decisionCategory == Acceptable)
  {
    var domain := ALL_DOMAINS[i];
    ScoresMatchTheScan(s, i);
    LookedAtIff(s, domain);
    QueriesSeeTheScan(s);
    CoverageIsExact(s, domain);
    if !LookedAt(s, domain) {
      NamingFindingsMatchSummary(s, domain);
      UnreadDomainHasNoFinding(s, domain);
    }
  }

  lemma BinaryIffUnreadWithoutErrors(s: Saved, domain: BankingDomain)
    requires !SomeFileBroke(ScanContext(s), |s.platform.scanners|, s.Result().inventory)
    ensures AllBinary(s, domain) <==> NoneReadable(s, domain)
  {
    forall k: nat, item | Shown(s, domain, k, item) ensures !ScanContext(s).Inspect(k, item).Broke? {
      NothingBroke(ScanContext(s), s.Result().inventory, k, item);
    }
  }

  lemma NothingBroke(c: Context, items: seq<Discovery.Item>, k: nat, item: Discovery.Item)
    requires !SomeFileBroke(c, |c.platform.scanners|, items) && k < |c.platform.scanners| && item in items
    ensures !c.Inspect(k, item).Broke?
  {
    assert !BrokeOnSome(c, k, items);
    assert !c.BrokenFor(k)(item);
  }

  /**
   The silent case, exactly: a domain is scored unread by a scan that reports COMPLETED if
   and only if files map to it, each was binary for every scanner, the source stayed the
   same, no file was cut by a budget, and no scanner failed on any file of the inventory.
   */
  lemma ScoredUnreadSilentlyIff(s: Saved, i: nat)
    requires s.Valid() && i < |ALL_DOMAINS|
    ensures |s.Scores()| == |ALL_DOMAINS|
    ensures var score, domain := s.Scores()[i], ALL_DOMAINS[i];
            var r := s.Result();
            r.summary.status == Completed && score.weightedScore.Some? && !LookedAt(s, domain)
            <==> && s.FilesFor(domain) > 0 && AllBinary(s, domain)
                 && r.summary.integrityVerified && !Discovery.SomeBudgetSkip(r.skipped)
                 && !SomeFileBroke(ScanContext(s), |s.platform.scanners|, r.inventory)
  {
    var r := s.Result();
    StatusIff(s.platform, s.scanId, s.before, s.after);
    ScoredUnreadIff(s, i);
    if !SomeFileBroke(ScanContext(s), |s.platform.scanners|, r.inventory) {
      BinaryIffUnreadWithoutErrors(s, ALL_DOMAINS[i]);
    }
  }

  lemma LookedAtIff(s: Saved, domain: BankingDomain)
    ensures LookedAt(s, domain) <==> !NoneReadable(s, domain)
  {}

  lemma UnreadDomainHasNoFinding(s: Saved, domain: BankingDomain)
    requires s.Valid() && !LookedAt(s, domain)
    ensures Tallied(s.Result().summary.byDomain, Value(domain)) == 0
  {
    if Tallied(s.Result().summary.byDomain, Value(domain)) > 0 {
      ScanFindingsAreTidy(s);
      var f := TalliedIsNamed(s.Result().findings, s.scanId, Value(domain));
      NamingFindingWasRead(s, domain, f);
      assert false;
    }
  }

  lemma ReportShowsDomain(p: Platform, scanId: string, items: seq<Discovery.Item>, k: nat, item: Discovery.Item,
                          f: NormalizedFinding, domain: BankingDomain)
    requires Distinct(Discovery.ItemPaths(items)) && item in items
    requires Reports(ContextOf(p, scanId, items), k, item, f) && Value(domain) in f.domains
    ensures k < |p.scanners| && MapsTo(MappingsOf(p, item), domain)
    ensures ContextOf(p, scanId, items).Inspect(k, item).Scanned?
  {
    ReportsAreBacked(p, scanId, items, k, item, f);
    ValuesTellDomains(MappingsOf(p, item), domain);
  }

  lemma NamingFindingWasRead(s: Saved, domain: BankingDomain, f: NormalizedFinding)
    requires s.Valid() && f in s.Result().findings && Value(domain) in f.domains
    ensures LookedAt(s, domain)
  {
    Integrity.InventoryPathsDistinct(s.platform.settings, s.before);
    var k, item := DomainsComeFromReports(s.platform, s.scanId, s.before, s.after, f);
    ReportShowsDomain(s.platform, s.scanId, s.Result().inventory, k, item, f, domain);
    assert Shown(s, domain, k, item);
  }

  /** The tree holds one admitted file, and every scanner gets binary content of it. */
  ghost predicate OneBinaryFile(p: Platform, name: string, bytes: string) {
    && Integrity.GoodName(name)
    && Integrity.Admits(p.settings, name, Discovery.NotALink)
    && forall k :: 0 <= k < |p.scanners| ==> p.read(k, name) == BinaryContent
  }

  lemma OneFileInventory(p: Platform, scanId: string, name: string, bytes: string, tree: Discovery.Directory)
    requires OneBinaryFile(p, name, bytes) && tree == Integrity.OneFileTree(name, Discovery.NotALink, bytes)
    ensures Integrity.WellFormed(tree)
    ensures Scan(p, scanId, tree, tree).skipped == []
    ensures var items := Scan(p, scanId, tree, tree).inventory;
            && |items| == 1 && items[0].relativePath == name
            && forall item :: item in items ==> item.relativePath == name
  {
    Integrity.OneFileDiscovered(p.settings, name, Discovery.NotALink, bytes);
  }

  lemma NoTextNoFindings(p: Platform, scanId: string, d: Discovery.Result)
    requires d.skipped == []
    requires var c := ContextOf(p, scanId, d.inventory);
             forall k, item :: 0 <= k < |p.scanners| && item in d.inventory ==> c.Inspect(k, item) == NotText
    ensures RawFindings(p, scanId, d) == []
  {
    NoBinaryReports(ContextOf(p, scanId, d.inventory), d.inventory);
    assert SkipFindings(p, d.skipped) == [];
  }

  lemma OneBinaryFileIsNotText(p: Platform, scanId: string, name: string, bytes: string, tree: Discovery.Directory)
    requires OneBinaryFile(p, name, bytes) && tree == Integrity.OneFileTree(name, Discovery.NotALink, bytes)
    ensures var items := Scan(p, scanId, tree, tree).inventory;
            forall k, item :: 0 <= k < |p.scanners| && item in items ==>
              ContextOf(p, scanId, items).Inspect(k, item) == NotText
  {
    OneFileInventory(p, scanId, name, bytes, tree);
  }

  lemma OneBinaryFileFindsNothing(p: Platform, scanId: string, name: string, bytes: string, tree: Discovery.Directory)
    requires OneBinaryFile(p, name, bytes) && tree == Integrity.OneFileTree(name, Discovery.NotALink, bytes)
    ensures Scan(p, scanId, tree, tree).findings == []
  {
    OneFileInventory(p, scanId, name, bytes, tree);
    OneBinaryFileIsNotText(p, scanId, name, bytes, tree);
    NoTextNoFindings(p, scanId, Discovery.Discover(p.settings, tree));
  }

  lemma OneBinaryFileCompletes(p: Platform, scanId: string, name: string, bytes: string, tree: Discovery.Directory)
    requires OneBinaryFile(p, name, bytes) && tree == Integrity.OneFileTree(name, Discovery.NotALink, bytes)
    ensures Scan(p, scanId, tree, tree).summary.status == Completed
  {
    OneFileInventory(p, scanId, name, bytes, tree);
    OneBinaryFileIsNotText(p, scanId, name, bytes, tree);
    var items := Scan(p, scanId, tree, tree).inventory;
    NoBinaryReports(ContextOf(p, scanId, items), items);
    StatusIff(p, scanId, tree, tree);
  }

  lemma {:induction false} NoBinaryFindings(c: Context, n: nat, items: seq<Discovery.Item>)
    requires n <= |c.platform.scanners|
    requires forall k, item :: 0 <= k < n && item in items ==> c.Inspect(k, item) == NotText
    ensures c.FindingsOf(n, items) == []
  {
    if n > 0 {
      NoBinaryFindings(c, n - 1, items);
      NoBinaryFindingsOfOne(c, n - 1, items);
    }
  }

  lemma {:induction false} NoBinaryFindingsOfOne(c: Context, k: nat, items: seq<Discovery.Item>)
    requires k < |c.platform.scanners|
    requires forall item :: item in items ==> c.Inspect(k, item) == NotText
    ensures c.ScannerFindings(k, items) == []
  {
    if items != [] {
      NoBinaryFindingsOfOne(c, k, items[..|items| - 1]);
      assert items[|items| - 1] in items;
    }
  }

  lemma NoBinaryReports(c: Context, items: seq<Discovery.Item>)
    requires forall k, item :: 0 <= k < |c.platform.scanners| && item in items ==> c.Inspect(k, item) == NotText
    ensures c.FindingsOf(|c.platform.scanners|, items) == []
    ensures !SomeFileBroke(c, |c.platform.scanners|, items)
  {
    NoBinaryFindings(c, |c.platform.scanners|, items);
    forall k | 0 <= k < |c.platform.scanners| ensures !BrokeOnSome(c, k, items) {
      assert forall item :: item in items ==> c.Inspect(k, item) == NotText;
    }
  }

  lemma OneBinaryFileIsSaved(s: Saved, name: string, bytes: string, id: string)
    requires OneBinaryFile(s.platform, name, bytes)
    requires s.before == s.after == Integrity.OneFileTree(name, Discovery.NotALink, bytes)
    requires s.ids == NewIds([id], []) && s.earlierFindings == [] && s.earlierMappings == []
    ensures s.Valid() && s.Result().summary.status == Completed
  {
    OneFileInventory(s.platform, s.scanId, name, bytes, s.before);
    OneBinaryFileFindsNothing(s.platform, s.scanId, name, bytes, s.before);
    OneBinaryFileCompletes(s.platform, s.scanId, name, bytes, s.before);
  }

  lemma BinaryItemsAreUnread(s: Saved, name: string, domain: BankingDomain)
    requires s.before == s.after
    requires forall k :: 0 <= k < |s.platform.scanners| ==> s.platform.read(k, name) == BinaryContent
    requires forall item :: item in s.Result().inventory ==> item.relativePath == name
    ensures NoneReadable(s, domain)
  {}

  lemma OneBinaryFileNoneReadable(s: Saved, name: string, bytes: string, domain: BankingDomain)
    requires OneBinaryFile(s.platform, name, bytes)
    requires s.before == s.after == Integrity.OneFileTree(name, Discovery.NotALink, bytes)
    ensures NoneReadable(s, domain)
  {
    OneFileInventory(s.platform, s.scanId, name, bytes, s.before);
    BinaryItemsAreUnread(s, name, domain);
  }

  /** One file named Makefile that a payments flag was set for, binary for every scanner. */
  function BinaryScan(scanners: seq<Scanner>): Saved {
    var settings := Discovery.Settings(1, 1, 1, 1, false, (text: string) => text, (bytes: string) => bytes);
    var tree := Integrity.OneFileTree("Makefile", Discovery.NotALink, "x");
    Saved(Platform(settings, (path: string, extension: string) => [Flag("payment_related", true)],
                   (path: string) => false,
                   scanners, (k: nat, path: string) => BinaryContent),
          "scan", tree, tree, NewIds(["file"], []), [], [])
  }

  lemma BinaryScanIsValid(scanners: seq<Scanner>)
    ensures BinaryScan(scanners).Valid()
    ensures BinaryScan(scanners).Result().summary.status == Completed
    ensures NoneReadable(BinaryScan(scanners), Payments)
  {
    var s := BinaryScan(scanners);
    OneBinaryFileIsSaved(s, "Makefile", "x", "file");
    OneBinaryFileNoneReadable(s, "Makefile", "x", Payments);
  }

  /** Concrete scans: completed, nothing read by any scanner, payments scored a clean 100. */
  lemma BinaryFileScoresClean(scanners: seq<Scanner>)
    ensures var s := BinaryScan(scanners);
            && s.Valid()
            && s.Result().summary.status == Completed
            && !LookedAt(s, Payments)
            && |s.Scores()| == |ALL_DOMAINS|
            && s.Scores()[Position(Payments)].decisionCategory == Acceptable
            && s.Scores()[Position(Payments)].weightedScore == Some(100.0)
  {
    var s := BinaryScan(scanners);
    BinaryScanIsValid(scanners);
    BinaryScanHasPayments(scanners);
    LookedAtIff(s, Payments);
    ScoredUnreadIff(s, Position(Payments));
  }

  lemma BinaryScanHasPayments(scanners: seq<Scanner>)
    ensures BinaryScan(scanners).FilesFor(Payments) > 0
  {
    var s := BinaryScan(scanners);
    var flags := [Flag("payment_related", true)];
    OneFileInventory(s.platform, "scan", "Makefile", "x", s.before);
    var item := s.Result().inventory[0];
    assert flags[0] in flags && FlagDomain("payment_related").Some?;
    MappedExactly("Makefile", flags);
    assert s.Counts(Payments)(item);
    CountPositive(s.Counts(Payments), s.Result().inventory, item);
  }

  // ------------------------------------------------------------ into the score log

  lemma OneRowADomain(results: seq<ScoreResult>, scanId: string, scores: seq<Score>, ids: seq<string>, now: Time)
    requires |results| == |ids| == |ALL_DOMAINS| && Distinct(ids)
    requires forall i :: 0 <= i < |results| ==> results[i].domain == ALL_DOMAINS[i]
    requires forall id :: id in ids ==> id !in ScoreLog.IdsOf(scores)
    requires forall prior :: prior in scores && prior.scanId == scanId ==> prior.calculatedAt < now
    ensures ScoreLog.ScoringBatch(scores, ScoreRows(ids, scanId, results, now))
  {
    DomainsAreDistinct();
    var rows := ScoreRows(ids, scanId, results, now);
    forall i, j | 0 <= i < j < |rows| ensures rows[i].id != rows[j].id && !ScoreLog.SameSlot(rows[i], rows[j]) {
      assert results[i].domain != results[j].domain;
      if Value(results[i].domain) == Value(results[j].domain) {
        ValuesAreDistinct(results[i].domain, results[j].domain);
      }
    }
    forall row | row in rows ensures row.overrideOf.None? && row.id !in ScoreLog.IdsOf(scores)
        && ScoreLog.Later(scores, row) {
      var i :| 0 <= i < |rows| && rows[i] == row;
      assert ids[i] in ids;
    }
  }

  lemma ScoresInDomainOrder(findings: seq<Finding>, mappings: seq<MappingRow>, scanId: string)
    ensures |ScanScores(findings, mappings, scanId)| == |ALL_DOMAINS|
    ensures forall i :: 0 <= i < |ALL_DOMAINS| ==> ScanScores(findings, mappings, scanId)[i].domain == ALL_DOMAINS[i]
  {
    var rows := MappingsOfScan(mappings, scanId);
    var inputs := Map(ScoringInput, FindingsOfScan(findings, scanId));
    ScoresInOrder(inputs, EvaluatedDomains(rows), CoverageCounts(rows));
  }

  /** What `score_scan` inserts is one scoring batch of the score log. */
  lemma ScoreRowsAreOneBatch(findings: seq<Finding>, mappings: seq<MappingRow>, scanId: string,
                             scores: seq<Score>, ids: seq<string>, now: Time)
    requires |ids| == |ALL_DOMAINS| && Distinct(ids)
    requires forall id :: id in ids ==> id !in ScoreLog.IdsOf(scores)
    requires forall prior :: prior in scores && prior.scanId == scanId ==> prior.calculatedAt < now
    ensures ScoreLog.ScoringBatch(scores, ScoreRows(ids, scanId, ScanScores(findings, mappings, scanId), now))
  {
    ScoresInDomainOrder(findings, mappings, scanId);
    OneRowADomain(ScanScores(findings, mappings, scanId), scanId, scores, ids, now);
  }
}
