/**
 What a scan result guarantees: no finding is lost between the stages except as a
 duplicate, a finding names a domain only through a file that maps to it, and the
 status says exactly when some file was not looked at.
 */
module ScanGuarantees {
  import opened Prelude
  import opened Sorting
  import opened Domains
  import opened DomainMapper
  import opened ScanPipeline
  import Discovery
  import Integrity

  // ------------------------------------------------------------- deduplication

  /** No earlier finding has the key of finding `i`. */
  ghost predicate FirstOfItsKey(findings: seq<NormalizedFinding>, i: nat)
    requires i < |findings|
  {
    forall j :: 0 <= j < i ==> KeyOf(findings[j]) != KeyOf(findings[i])
  }

  /** Some occurrence of the finding is the first with its key. */
  ghost predicate ComesFirst(findings: seq<NormalizedFinding>, f: NormalizedFinding) {
    exists i :: 0 <= i < |findings| && findings[i] == f && FirstOfItsKey(findings, i)
  }

  /** Deduplication leaves each key once, in the order of first occurrence. */
  lemma {:induction false} DedupKeepsKeys(findings: seq<NormalizedFinding>)
    ensures Keys(Deduplicated(findings)) == Dedup(Keys(findings))
  {
    if findings != [] {
      var n := |findings| - 1;
      DedupKeepsKeys(findings[..n]);
      assert Keys(findings)[..n] == Keys(findings[..n]);
      var kept, last := Deduplicated(findings[..n]), findings[n];
      assert Keys(kept + [last]) == Keys(kept) + [KeyOf(last)];
    }
  }

  /** What is kept is exactly the first finding of every key. */
  lemma {:induction false} DedupKeepsFirsts(findings: seq<NormalizedFinding>)
    ensures forall f :: f in Deduplicated(findings) <==> ComesFirst(findings, f)
  {
    if findings != [] {
      DedupKeepsFirsts(findings[..|findings| - 1]);
      LastIsFirstIff(findings);
      forall f ensures f in Deduplicated(findings) <==> ComesFirst(findings, f) {
        ComesFirstSnoc(findings, f);
      }
    }
  }

  lemma ComesFirstSnoc(findings: seq<NormalizedFinding>, f: NormalizedFinding)
    requires findings != []
    ensures var n := |findings| - 1;
            ComesFirst(findings, f)
            <==> ComesFirst(findings[..n], f) || (findings[n] == f && FirstOfItsKey(findings, n))
  {
    var n := |findings| - 1;
    var before := findings[..n];
    if i :| 0 <= i < n && before[i] == f && FirstOfItsKey(before, i) {
      assert findings[i] == f && FirstOfItsKey(findings, i);
    }
    if i :| 0 <= i < n && findings[i] == f && FirstOfItsKey(findings, i) {
      assert before[i] == f && FirstOfItsKey(before, i);
    }
  }

  lemma LastIsFirstIff(findings: seq<NormalizedFinding>)
    requires findings != []
    ensures FirstOfItsKey(findings, |findings| - 1) <==>
            KeyOf(findings[|findings| - 1]) !in Keys(Deduplicated(findings[..|findings| - 1]))
  {
    var n := |findings| - 1;
    var key := KeyOf(findings[n]);
    DedupKeepsKeys(findings[..n]);
    DedupMembers(Keys(findings[..n]));
    if key in Keys(findings[..n]) {
      var j :| 0 <= j < n && Keys(findings[..n])[j] == key;
      assert KeyOf(findings[j]) == key;
    } else {
      forall j | 0 <= j < n ensures KeyOf(findings[j]) != key {
        assert Keys(findings[..n])[j] in Keys(findings[..n]);
      }
    }
  }

  /** Every finding is represented after deduplication by one with the same rule, file and lines. */
  lemma EveryKeySurvives(findings: seq<NormalizedFinding>, f: NormalizedFinding) returns (kept: NormalizedFinding)
    requires f in findings
    ensures kept in Deduplicated(findings) && KeyOf(kept) == KeyOf(f)
  {
    DedupKeepsKeys(findings);
    DedupMembers(Keys(findings));
    var i :| 0 <= i < |findings| && findings[i] == f;
    assert Keys(findings)[i] in Dedup(Keys(findings));
    var j :| 0 <= j < |Deduplicated(findings)| && Keys(Deduplicated(findings))[j] == KeyOf(f);
    kept := Deduplicated(findings)[j];
  }

  /** A kept finding and a finding of the same key: the second is kept too only if it is the first. */
  lemma KeptOnceAKey(findings: seq<NormalizedFinding>, kept: NormalizedFinding, f: NormalizedFinding)
    requires kept in Deduplicated(findings) && KeyOf(kept) == KeyOf(f)
    ensures f in Deduplicated(findings) <==> kept == f
  {
    DedupKeepsKeys(findings);
    DedupMembers(Keys(findings));
    if f in Deduplicated(findings) {
      var i :| 0 <= i < |Deduplicated(findings)| && Deduplicated(findings)[i] == kept;
      var j :| 0 <= j < |Deduplicated(findings)| && Deduplicated(findings)[j] == f;
      assert Keys(Deduplicated(findings))[i] == Keys(Deduplicated(findings))[j];
    }
  }

  // -------------------------------------------------------------------- tallies

  /** A dict of counts holds every key's number of occurrences, and no other key. */
  lemma {:induction false} TallyCounts<K>(keys: seq<K>)
    ensures forall key :: key in Tally(keys) <==> key in keys
    ensures forall key :: Tallied(Tally(keys), key) == multiset(keys)[key]
  {
    if keys != [] {
      var n := |keys| - 1;
      TallyCounts(keys[..n]);
      assert keys == keys[..n] + [keys[n]];
    }
  }

  /** The finding names the domain. */
  function NamesDomain(value: string): NormalizedFinding -> bool {
    (f: NormalizedFinding) => value in f.domains
  }

  /** With no domain named twice by one finding, the summary counts findings. */
  lemma {:induction false} DomainTallyCountsFindings(findings: seq<NormalizedFinding>, value: string)
    requires forall f :: f in findings ==> Distinct(f.domains)
    ensures Tallied(Tally(NamedDomains(findings)), value) == Count(NamesDomain(value), findings)
  {
    TallyCounts(NamedDomains(findings));
    NamedDomainsCount(findings, value);
  }

  lemma {:induction false} NamedDomainsCount(findings: seq<NormalizedFinding>, value: string)
    requires forall f :: f in findings ==> Distinct(f.domains)
    ensures multiset(NamedDomains(findings))[value] == Count(NamesDomain(value), findings)
  {
    if findings != [] {
      var n := |findings| - 1;
      var last := findings[n];
      assert findings == findings[..n] + [last] && last in findings;
      NamedDomainsCount(findings[..n], value);
      CountSnoc(NamesDomain(value), findings[..n], last);
      DistinctMultiset(last.domains);
      assert value !in last.domains ==> multiset(last.domains)[value] == 0;
    }
  }

  // ---------------------------------------------------------- the domain mapping

  /** A dict assigned once for every distinct path lists the files in order. */
  lemma {:induction false} MapInventoryInOrder(p: Platform, items: seq<Discovery.Item>)
    requires Distinct(Discovery.ItemPaths(items))
    ensures |MapInventory(p, items)| == |items|
    ensures forall i ::
          0 <= i < |items|
          ==> MapInventory(p, items)[i] == MappedFile(items[i].relativePath, MappingsOf(p, items[i]))
  {
    if items != [] {
      var n := |items| - 1;
      assert Discovery.ItemPaths(items)[..n] == Discovery.ItemPaths(items[..n]);
      MapInventoryInOrder(p, items[..n]);
      var mapped := MapInventory(p, items[..n]);
      forall i | 0 <= i < |mapped| ensures mapped[i].path != items[n].relativePath {
        assert Discovery.ItemPaths(items)[i] != Discovery.ItemPaths(items)[n];
      }
      AssignFresh(mapped, items[n].relativePath, MappingsOf(p, items[n]));
    }
  }

  lemma {:induction false} AssignFresh(mapped: seq<MappedFile>, path: string, mappings: seq<DomainMapping>)
    requires forall i :: 0 <= i < |mapped| ==> mapped[i].path != path
    ensures Assign(mapped, path, mappings) == mapped + [MappedFile(path, mappings)]
  {
    if mapped != [] {
      AssignFresh(mapped[1..], path, mappings);
    }
  }

  lemma {:induction false} LookupAt(mapped: seq<MappedFile>, i: nat)
    requires i < |mapped|
    requires forall a, b :: 0 <= a < b < |mapped| ==> mapped[a].path != mapped[b].path
    ensures Lookup(mapped, mapped[i].path) == mapped[i].mappings
  {
    if i > 0 {
      LookupAt(mapped[1..], i - 1);
    }
  }

  lemma LookupIsMapping(p: Platform, items: seq<Discovery.Item>, item: Discovery.Item)
    requires Distinct(Discovery.ItemPaths(items)) && item in items
    ensures Lookup(MapInventory(p, items), item.relativePath) == MappingsOf(p, item)
  {
    MapInventoryInOrder(p, items);
    var i :| 0 <= i < |items| && items[i] == item;
    var mapped := MapInventory(p, items);
    forall a, b | 0 <= a < b < |mapped| ensures mapped[a].path != mapped[b].path {
      assert Discovery.ItemPaths(items)[a] != Discovery.ItemPaths(items)[b];
    }
    LookupAt(mapped, i);
  }

  // ------------------------------------------------------ where findings come from

  /** Scanner `k` reports `f` for the file. */
  ghost predicate Reports(c: Context, k: nat, item: Discovery.Item, f: NormalizedFinding) {
    k < |c.platform.scanners| && f in c.FindingsIn(k, item)
  }

  lemma {:induction false} ScannerFindingsMembers(c: Context, k: nat, items: seq<Discovery.Item>)
    requires k < |c.platform.scanners|
    ensures forall f :: f in c.ScannerFindings(k, items) <==> exists item :: item in items && Reports(c, k, item, f)
  {
    if items != [] {
      var n := |items| - 1;
      ScannerFindingsMembers(c, k, items[..n]);
      assert items == items[..n] + [items[n]];
      forall f ensures f in c.ScannerFindings(k, items) <==> exists item :: item in items && Reports(c, k, item, f) {
        if f in c.ScannerFindings(k, items[..n]) {
          var item :| item in items[..n] && Reports(c, k, item, f);
          assert item in items;
        } else if f in c.FindingsIn(k, items[n]) {
          assert items[n] in items && Reports(c, k, items[n], f);
        }
      }
    }
  }

  lemma {:induction false} FindingsOfMembers(c: Context, n: nat, items: seq<Discovery.Item>)
    requires n <= |c.platform.scanners|
    ensures forall f :: f in c.FindingsOf(n, items) <==>
              exists k, item :: 0 <= k < n && item in items && Reports(c, k, item, f)
  {
    if n > 0 {
      FindingsOfMembers(c, n - 1, items);
      ScannerFindingsMembers(c, n - 1, items);
    }
  }

  lemma ReportsAreCollected(p: Platform, scanId: string, d: Discovery.Result, k: nat, item: Discovery.Item,
                            f: NormalizedFinding)
    requires item in d.inventory && Reports(ContextOf(p, scanId, d.inventory), k, item, f)
    ensures f in RawFindings(p, scanId, d)
  {
    FindingsOfMembers(ContextOf(p, scanId, d.inventory), |p.scanners|, d.inventory);
  }

  lemma SkipsAreCollected(p: Platform, scanId: string, d: Discovery.Result, s: Discovery.Skipped)
    requires s in d.skipped && p.sensitive(s.relativePath)
    ensures SkipNormalized(scanId, SkipFinding(s)) in RawFindings(p, scanId, d)
  {
    FilterMembers(SensitiveSkip(p), d.skipped);
    var listed := Filter(SensitiveSkip(p), d.skipped);
    var i :| 0 <= i < |listed| && listed[i] == s;
    var skips := SkipNormalizedAll(scanId, SkipFindings(p, d.skipped));
    assert skips[i] == SkipNormalized(scanId, SkipFinding(s));
    assert skips[i] in skips;
  }

  /** A report of a text file is among the findings before deduplication. */
  lemma ReportIsCollected(p: Platform, scanId: string, d: Discovery.Result, k: nat, item: Discovery.Item,
                          raw: RawFinding)
    requires item in d.inventory && k < |p.scanners|
    requires var inspected := ContextOf(p, scanId, d.inventory).Inspect(k, item);
             inspected.Scanned? && raw in inspected.raws
    ensures ContextOf(p, scanId, d.inventory).Normalize(k, item.relativePath, raw) in RawFindings(p, scanId, d)
  {
    var c := ContextOf(p, scanId, d.inventory);
    var raws := c.Inspect(k, item).raws;
    var i :| 0 <= i < |raws| && raws[i] == raw;
    var f := c.Normalize(k, item.relativePath, raw);
    assert c.FindingsIn(k, item)[i] == f;
    ReportsAreCollected(p, scanId, d, k, item, f);
  }

  /**
   Nothing a scanner reports is lost without trace: a finding with the same rule, file and
   lines is in the result. The report itself is, exactly when it is that finding, and so
   exactly when no other finding came before it with the same key.
   */
  lemma NoReportIsLost(p: Platform, scanId: string, before: Discovery.Directory, after: Discovery.Directory,
                       k: nat, item: Discovery.Item, raw: RawFinding) returns (kept: NormalizedFinding)
    requires var r := Scan(p, scanId, before, after); item in r.inventory
    requires k < |p.scanners|
    requires var inspected := ContextOf(p, scanId, Scan(p, scanId, before, after).inventory).Inspect(k, item);
             inspected.Scanned? && raw in inspected.raws
    ensures kept in Scan(p, scanId, before, after).findings
    ensures kept.path == item.relativePath && kept.raw.ruleId == raw.ruleId
    ensures kept.raw.lineStart == raw.lineStart && kept.raw.lineEnd == raw.lineEnd
    ensures var r, d := Scan(p, scanId, before, after), Discovery.Discover(p.settings, before);
            var report := ContextOf(p, scanId, r.inventory).Normalize(k, item.relativePath, raw);
            && (report in r.findings <==> kept == report)
            && (report in r.findings <==> ComesFirst(RawFindings(p, scanId, d), report))
  {
    var d := Discovery.Discover(p.settings, before);
    var all := RawFindings(p, scanId, d);
    var report := ContextOf(p, scanId, d.inventory).Normalize(k, item.relativePath, raw);
    ReportIsCollected(p, scanId, d, k, item, raw);
    kept := EveryKeySurvives(all, report);
    KeptOnceAKey(all, kept, report);
    DedupKeepsFirsts(all);
  }

  /** A skipped file with a sensitive-looking name is always reported. */
  lemma NoSensitiveSkipIsLost(p: Platform, scanId: string, before: Discovery.Directory, after: Discovery.Directory,
                              s: Discovery.Skipped) returns (kept: NormalizedFinding)
    requires s in Scan(p, scanId, before, after).skipped && p.sensitive(s.relativePath)
    ensures kept in Scan(p, scanId, before, after).findings
    ensures kept.raw.ruleId == SKIP_RULE && kept.path == s.relativePath
  {
    var d := Discovery.Discover(p.settings, before);
    SkipsAreCollected(p, scanId, d, s);
    kept := EveryKeySurvives(RawFindings(p, scanId, d), SkipNormalized(scanId, SkipFinding(s)));
  }

  // --------------------------------------------------------- domains of findings

  /** The domain names of a mapping list. */
  function ValuesOf(mappings: seq<DomainMapping>): seq<string> {
    Map((m: DomainMapping) => Value(m.domain), mappings)
  }

  lemma ValuesTellDomains(mappings: seq<DomainMapping>, domain: BankingDomain)
    ensures Value(domain) in ValuesOf(mappings) <==> MapsTo(mappings, domain)
  {
    if MapsTo(mappings, domain) {
      var m :| m in mappings && m.domain == domain;
      var i :| 0 <= i < |mappings| && mappings[i] == m;
      assert ValuesOf(mappings)[i] == Value(domain);
    }
    if Value(domain) in ValuesOf(mappings) {
      var i :| 0 <= i < |mappings| && ValuesOf(mappings)[i] == Value(domain);
      ValuesAreDistinct(mappings[i].domain, domain);
      assert mappings[i] in mappings;
    }
  }

  lemma ValuesStayDistinct(mappings: seq<DomainMapping>)
    requires OneMappingADomain(mappings)
    ensures Distinct(ValuesOf(mappings))
  {
    forall i, j | 0 <= i < j < |mappings| ensures ValuesOf(mappings)[i] != ValuesOf(mappings)[j] {
      if Value(mappings[i].domain) == Value(mappings[j].domain) {
        ValuesAreDistinct(mappings[i].domain, mappings[j].domain);
      }
    }
  }

  /** The file is in the inventory and stands for exactly these domains. */
  ghost predicate Backs(p: Platform, items: seq<Discovery.Item>, item: Discovery.Item, path: string,
                        domains: seq<string>) {
    item in items && item.relativePath == path && domains == ValuesOf(MappingsOf(p, item))
  }

  lemma ReportsAreBacked(p: Platform, scanId: string, items: seq<Discovery.Item>, k: nat, item: Discovery.Item,
                         f: NormalizedFinding)
    requires Distinct(Discovery.ItemPaths(items)) && item in items
    requires Reports(ContextOf(p, scanId, items), k, item, f)
    ensures Backs(p, items, item, f.path, f.domains) && f.scanId == scanId
  {
    LookupIsMapping(p, items, item);
    var c := ContextOf(p, scanId, items);
    assert c.DomainsAt(item.relativePath) == ValuesOf(MappingsOf(p, item));
  }

  /**
   A finding of the result is the report of a skipped file and names no domain, or it names
   exactly the domains of the inventoried file at its path, each once.
   */
  lemma FindingsNameMappedDomains(p: Platform, scanId: string, before: Discovery.Directory, after: Discovery.Directory,
                                  f: NormalizedFinding)
    requires Integrity.WellFormed(before)
    requires f in Scan(p, scanId, before, after).findings
    ensures f.scanId == scanId && Distinct(f.domains)
    ensures f.domains == [] ||
            exists item :: Backs(p, Scan(p, scanId, before, after).inventory, item, f.path, f.domains)
  {
    var d := Discovery.Discover(p.settings, before);
    var c := ContextOf(p, scanId, d.inventory);
    Integrity.InventoryPathsDistinct(p.settings, before);
    DedupKeepsFirsts(RawFindings(p, scanId, d));
    assert f in RawFindings(p, scanId, d);
    FindingsOfMembers(c, |p.scanners|, d.inventory);
    if f in c.FindingsOf(|p.scanners|, d.inventory) {
      var k, item :| 0 <= k < |p.scanners| && item in d.inventory && Reports(c, k, item, f);
      ReportsAreBacked(p, scanId, d.inventory, k, item, f);
      MappedExactly(p.settings.lower(item.relativePath), p.classify(item.relativePath, item.extension));
      ValuesStayDistinct(MappingsOf(p, item));
    } else {
      assert f in SkipNormalizedAll(scanId, SkipFindings(p, d.skipped));
    }
  }

  /** A finding that names a domain is the report of a scanner that read the file. */
  lemma DomainsComeFromReports(p: Platform, scanId: string, before: Discovery.Directory, after: Discovery.Directory,
                               f: NormalizedFinding) returns (k: nat, item: Discovery.Item)
    requires f in Scan(p, scanId, before, after).findings && f.domains != []
    ensures item in Scan(p, scanId, before, after).inventory
    ensures Reports(ContextOf(p, scanId, Scan(p, scanId, before, after).inventory), k, item, f)
  {
    var d := Discovery.Discover(p.settings, before);
    var c := ContextOf(p, scanId, d.inventory);
    DedupKeepsFirsts(RawFindings(p, scanId, d));
    FindingsOfMembers(c, |p.scanners|, d.inventory);
    assert f in RawFindings(p, scanId, d);
    assert f !in SkipNormalizedAll(scanId, SkipFindings(p, d.skipped));
    k, item :| 0 <= k < |p.scanners| && item in d.inventory && Reports(c, k, item, f);
  }

  // ------------------------------------------------------- what the status means

  /** Every inventoried file is scanned, failed or found to be binary, once by each scanner. */
  lemma {:induction false} EveryFileIsAccountedFor(c: Context, k: nat, items: seq<Discovery.Item>)
    requires k < |c.platform.scanners|
    ensures var e := c.ExecutionOf(k, items);
            e.processed + e.errored + Count(c.NotTextFor(k), items) == |items|
  {
    if items != [] {
      EveryFileIsAccountedFor(c, k, items[1..]);
    }
  }

  /** Scanner `k` could not read, or broke on, some inventoried file. */
  ghost predicate BrokeOnSome(c: Context, k: nat, items: seq<Discovery.Item>)
    requires k < |c.platform.scanners|
  {
    exists item :: item in items && c.BrokenFor(k)(item)
  }

  ghost predicate SomeFileBroke(c: Context, n: nat, items: seq<Discovery.Item>)
    requires n <= |c.platform.scanners|
  {
    exists k :: 0 <= k < n && BrokeOnSome(c, k, items)
  }

  ghost predicate SomeErrors(executions: seq<Execution>) {
    exists e :: e in executions && e.withErrors
  }

  lemma SomeErrorsSnoc(executions: seq<Execution>, e: Execution)
    ensures SomeErrors(executions + [e]) <==> SomeErrors(executions) || e.withErrors
  {
    assert e in executions + [e];
    if SomeErrors(executions) {
      var earlier :| earlier in executions && earlier.withErrors;
      assert earlier in executions + [e];
    }
  }

  lemma ExecutionErrs(c: Context, k: nat, items: seq<Discovery.Item>)
    requires k < |c.platform.scanners|
    ensures c.ExecutionOf(k, items).withErrors <==> BrokeOnSome(c, k, items)
  {
    CountPositiveIff(c.BrokenFor(k), items);
  }

  lemma ErrorsShow(c: Context, n: nat, items: seq<Discovery.Item>)
    requires n <= |c.platform.scanners|
    ensures SomeErrors(c.ExecutionsOf(n, items)) <==> SomeFileBroke(c, n, items)
  {
    var executions := c.ExecutionsOf(n, items);
    if SomeErrors(executions) {
      var e :| e in executions && e.withErrors;
      var k :| 0 <= k < n && executions[k] == e;
      ExecutionErrs(c, k, items);
    }
    if SomeFileBroke(c, n, items) {
      var k :| 0 <= k < n && BrokeOnSome(c, k, items);
      ExecutionErrs(c, k, items);
      assert executions[k].withErrors;
    }
  }

  /**
   The status is exact. FAILED: the source changed while it was scanned. COMPLETED: it did
   not, no file was skipped for a budget, and no scanner failed on any file.
   */
  lemma StatusIff(p: Platform, scanId: string, before: Discovery.Directory, after: Discovery.Directory)
    ensures var r := Scan(p, scanId, before, after);
            var c := ContextOf(p, scanId, r.inventory);
            && (r.summary.status == Failed <==>
                  Integrity.SourceHash(p.settings.digest, before) != Integrity.SourceHash(p.settings.digest, after))
            && (r.summary.status == Completed <==>
                && Integrity.SourceHash(p.settings.digest, before) == Integrity.SourceHash(p.settings.digest, after)
                && !Discovery.SomeBudgetSkip(r.skipped)
                && !SomeFileBroke(c, |p.scanners|, r.inventory))
  {
    var d := Discovery.Discover(p.settings, before);
    var c := ContextOf(p, scanId, d.inventory);
    Discovery.DiscoveryAccountsForEveryFile(p.settings, before);
    ErrorsShow(c, |p.scanners|, d.inventory);
    SomeErrorsSnoc(ContentExecutions(p, scanId, d), SkipExecution(p, d));
  }

  /**
   A scan that is not marked FAILED, whether or not links are followed: every inventoried
   file that is not a link was, before and after, a regular file at its path with the very
   bytes its hash was taken of.
   */
  lemma UnfailedScanKeptItsFiles(p: Platform, scanId: string, before: Discovery.Directory, after: Discovery.Directory,
                                 item: Discovery.Item, f: Discovery.Located) returns (g: Discovery.Located)
    requires Integrity.Comparable(p.settings.digest, before, after)
    requires Scan(p, scanId, before, after).summary.status != Failed
    requires Integrity.ItemOf(p.settings, before, item, f) && f.file.link == Discovery.NotALink
    ensures g in Integrity.Walk(after) && item.relativePath == Discovery.Posix(f.parts) && g.parts == f.parts
    ensures g.file.link == Discovery.NotALink && g.file.content.Some? && g.file.content == f.file.content
    ensures item.contentHash == p.settings.digest(f.file.content.value)
  {
    StatusIff(p, scanId, before, after);
    g := Integrity.UnfailedScanSawTheSameBytes(p.settings, before, after, item, f);
  }
}
