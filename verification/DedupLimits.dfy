/**
 How far `_deduplicate` keeps its promise to drop exact duplicates only, and what the scanner
 it leaves out of its key would change.
 */
module DedupLimits {
  import opened Prelude
  import opened Sorting
  import opened ScanPipeline
  import opened ScanGuarantees
  import Discovery

  // ------------------------------------------------------- dropping by any key

  /** What is left when everything is dropped whose key an earlier element has. */
  ghost function FirstsBy<T, K>(key: T -> K, s: seq<T>): seq<T> {
    if s == [] then []
    else
      var kept, last := FirstsBy(key, s[..|s| - 1]), s[|s| - 1];
      if key(last) in Map(key, kept) then kept else kept + [last]
  }

  lemma MapMembers<T, K>(key: T -> K, s: seq<T>, k: K)
    ensures k in Map(key, s) <==> exists x :: x in s && key(x) == k
  {
    if x :| x in s && key(x) == k {
      var i :| 0 <= i < |s| && s[i] == x;
      assert Map(key, s)[i] == k;
    }
  }

  lemma FirstsBySnoc<T, K>(key: T -> K, s: seq<T>, last: T)
    ensures FirstsBy(key, s + [last]) ==
            if exists y :: y in FirstsBy(key, s) && key(y) == key(last) then FirstsBy(key, s)
            else FirstsBy(key, s) + [last]
  {
    assert (s + [last])[..|s|] == s;
    MapMembers(key, FirstsBy(key, s), key(last));
  }

  /** Only elements are kept, and no key on two of them. */
  lemma {:induction false} OnlyFirstsKept<T, K>(key: T -> K, s: seq<T>)
    ensures forall x :: x in FirstsBy(key, s) ==> x in s
    ensures forall x, y :: x in FirstsBy(key, s) && y in FirstsBy(key, s) && key(x) == key(y) ==> x == y
  {
    if s != [] {
      var before, last := s[..|s| - 1], s[|s| - 1];
      assert s == before + [last];
      OnlyFirstsKept(key, before);
      FirstsBySnoc(key, before, last);
    }
  }

  /** The key of every element survives. */
  lemma {:induction false} KeySurvives<T, K>(key: T -> K, s: seq<T>, x: T) returns (y: T)
    requires x in s
    ensures y in FirstsBy(key, s) && key(y) == key(x)
  {
    var before, last := s[..|s| - 1], s[|s| - 1];
    assert s == before + [last];
    FirstsBySnoc(key, before, last);
    if x in before {
      y := KeySurvives(key, before, x);
    } else if y' :| y' in FirstsBy(key, before) && key(y') == key(last) {
      y := y';
    } else {
      y := last;
    }
  }

  /** Whenever elements agree under one key, they agree under the other. */
  ghost predicate Refines<T, K, L>(fine: T -> L, coarse: T -> K, s: seq<T>) {
    forall x, y :: x in s && y in s && fine(x) == fine(y) ==> coarse(x) == coarse(y)
  }

  lemma {:induction false} EquivalentKeysKeepTheSame<T, K, L>(coarse: T -> K, fine: T -> L, s: seq<T>)
    requires Refines(fine, coarse, s) && Refines(coarse, fine, s)
    ensures FirstsBy(coarse, s) == FirstsBy(fine, s)
  {
    if s != [] {
      var before, last := s[..|s| - 1], s[|s| - 1];
      assert s == before + [last];
      EquivalentKeysKeepTheSame(coarse, fine, before);
      OnlyFirstsKept(fine, before);
      FirstsBySnoc(coarse, before, last);
      FirstsBySnoc(fine, before, last);
    }
  }

  /** A coarser key drops the same elements exactly when it tells apart all that the finer one does. */
  lemma CoarserKeyIff<T, K, L>(coarse: T -> K, fine: T -> L, s: seq<T>)
    requires Refines(fine, coarse, s)
    ensures FirstsBy(coarse, s) == FirstsBy(fine, s) <==> Refines(coarse, fine, s)
  {
    if Refines(coarse, fine, s) {
      EquivalentKeysKeepTheSame(coarse, fine, s);
    }
    if FirstsBy(coarse, s) == FirstsBy(fine, s) {
      OnlyFirstsKept(coarse, s);
      forall x, y | x in s && y in s && coarse(x) == coarse(y) ensures fine(x) == fine(y) {
        var x' := KeySurvives(fine, s, x);
        var y' := KeySurvives(fine, s, y);
        assert coarse(x') == coarse(y');
      }
    }
  }

  lemma {:induction false} DeduplicatedIsFirstsBy(findings: seq<NormalizedFinding>)
    ensures Deduplicated(findings) == FirstsBy(KeyOf, findings)
  {
    if findings != [] {
      DeduplicatedIsFirstsBy(findings[..|findings| - 1]);
    }
  }

  // ------------------------------------------------------------ exact duplicates

  /** The finding itself as the key. */
  function Itself(f: NormalizedFinding): NormalizedFinding {
    f
  }

  lemma {:induction false} DedupIsFirstsBy(findings: seq<NormalizedFinding>)
    ensures Dedup(findings) == FirstsBy(Itself, findings)
  {
    if findings != [] {
      var kept := Dedup(findings[..|findings| - 1]);
      DedupIsFirstsBy(findings[..|findings| - 1]);
      assert Map(Itself, kept) == kept;
    }
  }

  /** Findings with the same rule, file and lines are the same in everything else. */
  ghost predicate KeysTell(findings: seq<NormalizedFinding>) {
    forall f, g :: f in findings && g in findings && KeyOf(f) == KeyOf(g) ==> f == g
  }

  /**
   Deduplication drops exact duplicates and nothing else (what is left is the findings
   without repetition, in order, and every finding is among them) exactly when no two
   different findings share rule, file and lines.
   */
  lemma OnlyCopiesDroppedIff(findings: seq<NormalizedFinding>)
    ensures Deduplicated(findings) == Dedup(findings) <==> KeysTell(findings)
    ensures (forall f :: f in findings ==> f in Deduplicated(findings)) <==> KeysTell(findings)
  {
    DeduplicatedIsFirstsBy(findings);
    DedupIsFirstsBy(findings);
    CoarserKeyIff(KeyOf, Itself, findings);
    DedupMembers(findings);
    OnlyFirstsKept(KeyOf, findings);
  }

  /** A whole scan keeps every finding its scanners and its skip report make exactly under that condition. */
  lemma ScanKeepsEveryFindingIff(p: Platform, scanId: string, before: Discovery.Directory, after: Discovery.Directory)
    ensures var raw := RawFindings(p, scanId, Discovery.Discover(p.settings, before));
            var kept := Scan(p, scanId, before, after).findings;
            && ((forall f :: f in raw ==> f in kept) <==> KeysTell(raw))
            && (kept == Dedup(raw) <==> KeysTell(raw))
  {
    OnlyCopiesDroppedIff(RawFindings(p, scanId, Discovery.Discover(p.settings, before)));
  }

  /**
   The failing case: the key leaves out the evidence, so of two secrets on one line, found
   by one rule, the second is dropped although it is no exact duplicate.
   */
  lemma SameLineFindingIsDropped(a: NormalizedFinding, evidence: string)
    requires evidence != a.raw.evidence
    ensures var b := a.(raw := a.raw.(evidence := evidence));
            Deduplicated([a, b]) == [a] && !KeysTell([a, b])
  {
    var b := a.(raw := a.raw.(evidence := evidence));
    SecondOfOneKey(KeyOf, a, b);
    DeduplicatedIsFirstsBy([a, b]);
    assert a in [a, b] && b in [a, b];
  }

  lemma SecondOfOneKey<T, K>(key: T -> K, a: T, b: T)
    ensures FirstsBy(key, [a, b]) == if key(a) == key(b) then [a] else [a, b]
  {
    assert [a, b][..1] == [a] && [a][..0] == [];
    assert FirstsBy(key, [a]) == [a];
    assert Map(key, [a])[0] == key(a);
  }

  // -------------------------------------------------------- nothing at all dropped

  lemma {:induction false} FullLengthKeepsAll<T, K>(key: T -> K, s: seq<T>)
    ensures |FirstsBy(key, s)| <= |s|
    ensures |FirstsBy(key, s)| == |s| ==> FirstsBy(key, s) == s
  {
    if s != [] {
      FullLengthKeepsAll(key, s[..|s| - 1]);
      assert s == s[..|s| - 1] + [s[|s| - 1]];
    }
  }

  lemma DistinctKeysKeepLength(keys: seq<DedupKey>)
    requires Distinct(keys)
    ensures |Dedup(keys)| == |keys|
  {
    DedupMembers(keys);
    DistinctSameMembers(Dedup(keys), keys);
    assert |multiset(Dedup(keys))| == |Dedup(keys)| && |multiset(keys)| == |keys|;
  }

  /** Deduplication drops nothing, not even a copy, exactly when no two findings share rule, file and lines. */
  lemma NothingDroppedIff(findings: seq<NormalizedFinding>)
    ensures Deduplicated(findings) == findings <==> Distinct(Keys(findings))
  {
    DedupKeepsKeys(findings);
    if Deduplicated(findings) == findings {
      DedupMembers(Keys(findings));
    }
    if Distinct(Keys(findings)) {
      DistinctKeysKeepLength(Keys(findings));
      assert |Keys(Deduplicated(findings))| == |Deduplicated(findings)|;
      DeduplicatedIsFirstsBy(findings);
      FullLengthKeepsAll(KeyOf, findings);
    }
  }

  // ------------------------------------------------------------ the documented key

  /** Rule, file, lines and scanner: the key the docstring names. */
  datatype DocumentedKey = DocumentedKey(key: DedupKey, scannerId: string)

  function DocumentedKeyOf(f: NormalizedFinding): DocumentedKey {
    DocumentedKey(KeyOf(f), f.scannerId)
  }

  /** No two scanners report the same rule for the same lines of a file. */
  ghost predicate OneScannerAKey(findings: seq<NormalizedFinding>) {
    forall f, g :: f in findings && g in findings && KeyOf(f) == KeyOf(g) ==> f.scannerId == g.scannerId
  }

  /** The code's key and the documented key drop the same findings exactly when no two scanners share a key. */
  lemma DocumentedKeyDropsTheSameIff(findings: seq<NormalizedFinding>)
    ensures Deduplicated(findings) == FirstsBy(DocumentedKeyOf, findings) <==> OneScannerAKey(findings)
  {
    DeduplicatedIsFirstsBy(findings);
    CoarserKeyIff(KeyOf, DocumentedKeyOf, findings);
    assert Refines(KeyOf, DocumentedKeyOf, findings) <==> OneScannerAKey(findings);
  }

  /** A pair that differs: of two scanners with one rule on one line, the second is not heard. */
  lemma OtherScannersFindingIsDropped(a: NormalizedFinding, scannerId: string)
    requires scannerId != a.scannerId
    ensures var b := a.(scannerId := scannerId);
            Deduplicated([a, b]) == [a] && FirstsBy(DocumentedKeyOf, [a, b]) == [a, b]
  {
    var b := a.(scannerId := scannerId);
    DeduplicatedIsFirstsBy([a, b]);
    SecondOfOneKey(KeyOf, a, b);
    SecondOfOneKey(DocumentedKeyOf, a, b);
  }

  /** Every rule belongs to one scanner, the skip rule to the skip report. */
  ghost predicate RulesOwned(p: Platform, owner: string -> string) {
    && owner(SKIP_RULE) == SKIP_SCANNER
    && forall k, path, text, raw ::
         0 <= k < |p.scanners| && p.scanners[k].scan(path, text).Some? && raw in p.scanners[k].scan(path, text).value
         ==> p.scanners[k].id == owner(raw.ruleId)
  }

  lemma OwnerReports(p: Platform, scanId: string, d: Discovery.Result, owner: string -> string, f: NormalizedFinding)
    requires RulesOwned(p, owner) && f in RawFindings(p, scanId, d)
    ensures f.scannerId == owner(f.raw.ruleId)
  {
    var c := ContextOf(p, scanId, d.inventory);
    FindingsOfMembers(c, |p.scanners|, d.inventory);
    if f in c.FindingsOf(|p.scanners|, d.inventory) {
      var k, item :| 0 <= k < |p.scanners| && item in d.inventory && Reports(c, k, item, f);
      assert c.Inspect(k, item).Scanned? && f.raw in c.Inspect(k, item).raws;
    } else {
      assert f in SkipNormalizedAll(scanId, SkipFindings(p, d.skipped));
    }
  }

  /** With every rule owned by one scanner, leaving the scanner out of the key changes no scan. */
  lemma OwnedRulesMakeTheKeyRight(p: Platform, scanId: string, before: Discovery.Directory, after: Discovery.Directory,
                                  owner: string -> string)
    requires RulesOwned(p, owner)
    ensures var raw := RawFindings(p, scanId, Discovery.Discover(p.settings, before));
            Scan(p, scanId, before, after).findings == FirstsBy(DocumentedKeyOf, raw)
  {
    var d := Discovery.Discover(p.settings, before);
    var raw := RawFindings(p, scanId, d);
    forall f | f in raw ensures f.scannerId == owner(f.raw.ruleId) {
      OwnerReports(p, scanId, d, owner, f);
    }
    DocumentedKeyDropsTheSameIff(raw);
  }
}
