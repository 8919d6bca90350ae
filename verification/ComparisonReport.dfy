/**
 What a comparison report says of the two stored assessments: which pairs are compared, which
 one is the baseline, and whose findings and scores stand on which side.
 */
module ComparisonReport {
  import opened Prelude
  import opened Sorting
  import opened Store
  import opened Governance
  import opened Comparison
  import ScoreLog

  /** Scans are stored under their own ids. */
  ghost predicate Keyed(stored: Stored) {
    forall id :: id in stored.scans ==> stored.scans[id].id == id
  }

  predicate Finished(scan: Scan) {
    scan.status == Completed || scan.status == CompletedWithWarnings
  }

  predicate SameSource(a: Scan, b: Scan) {
    a.sourcePath == b.sourcePath && a.sourceType == b.sourceType
  }

  /** Two different finished assessments of one source. */
  predicate Comparable(stored: Stored, one: string, other: string) {
    && one in stored.scans && other in stored.scans && one != other
    && Finished(stored.scans[one]) && Finished(stored.scans[other])
    && SameSource(stored.scans[one], stored.scans[other])
  }

  /** A comparison is made exactly of a comparable pair; else the first thing wrong is reported. */
  lemma ComparedIff(stored: Stored, one: string, other: string)
    requires Keyed(stored)
    ensures var r := CompareLoaded(stored, one, other);
            && (r.Ok? <==> Comparable(stored, one, other))
            && (r == Err(NoSuchScan) <==> one !in stored.scans || other !in stored.scans)
            && (r == Err(SameScan) <==> one in stored.scans && one == other)
            && (r.Err? && r.error.NotCompleted? ==>
                  && r.error.scanId in stored.scans && !Finished(stored.scans[r.error.scanId])
                  && (r.error.scanId == one || (r.error.scanId == other && Finished(stored.scans[one]))))
            && (r == Err(DifferentSources) <==>
                  && one in stored.scans && other in stored.scans && one != other
                  && Finished(stored.scans[one]) && Finished(stored.scans[other])
                  && !SameSource(stored.scans[one], stored.scans[other]))
  {}

  predicate BothDated(stored: Stored, one: string, other: string)
    requires one in stored.scans && other in stored.scans
  {
    stored.scans[one].createdAt.Some? && stored.scans[other].createdAt.Some?
  }

  /**
   The earlier assessment is the baseline. The selected order is turned around, and the report
   says so, exactly when the selected baseline was created strictly later; without both
   creation times the order stands as selected.
   */
  lemma EarlierIsBaseline(stored: Stored, one: string, other: string)
    requires Keyed(stored) && Comparable(stored, one, other)
    ensures var r := CompareLoaded(stored, one, other).value;
            && (r.reordered <==> BothDated(stored, one, other)
                                 && stored.scans[one].createdAt.value > stored.scans[other].createdAt.value)
            && (if r.reordered then r.baselineScanId == other && r.currentScanId == one
                else r.baselineScanId == one && r.currentScanId == other)
            && (BothDated(stored, one, other) ==>
                  stored.scans[r.baselineScanId].createdAt.value <= stored.scans[r.currentScanId].createdAt.value)
            && r.sourcePath == stored.scans[one].sourcePath
  {
    ComparedIff(stored, one, other);
  }

  /** The entry shows this finding. */
  predicate ShowsFinding(ref: FindingRef, f: Finding) {
    && ref.findingId == f.id && ref.ruleId == f.ruleId && ref.severity == f.severity && ref.title == f.title
    && ref.sourceRelativePath == f.sourceRelativePath && ref.lineStart == f.lineStart
    && ref.humanReviewStatus == f.humanReviewStatus
  }

  predicate ShowsFindings(refs: seq<FindingRef>, findings: seq<Finding>) {
    |refs| == |findings| && forall i :: 0 <= i < |refs| ==> ShowsFinding(refs[i], findings[i])
  }

  /** What is left of the baseline's findings are findings of the baseline. */
  lemma ResolvedAreBaselines(baseline: seq<Finding>, current: seq<Finding>)
    ensures multiset(Compare(baseline, current).resolved) <= multiset(baseline)
  {
    SwappingSwaps(baseline, current);
    CompareRefinesMultisets(current, baseline);
    var diff := Compare(current, baseline);
    assert multiset(diff.kept + diff.added) == multiset(diff.kept) + multiset(diff.added);
  }

  lemma RefsShow(findings: seq<Finding>)
    ensures ShowsFindings(Map(Ref, findings), findings)
  {}

  /** The three lists of one comparison, on the findings of both sides. */
  ghost predicate Splits(earlier: seq<Finding>, later: seq<Finding>, added: seq<Finding>, resolved: seq<Finding>,
                         kept: seq<Finding>) {
    && multiset(kept) + multiset(added) == multiset(later)
    && multiset(resolved) <= multiset(earlier)
    && multiset(KeysOf(added)) == multiset(KeysOf(later)) - multiset(KeysOf(earlier))
    && multiset(KeysOf(resolved)) == multiset(KeysOf(earlier)) - multiset(KeysOf(later))
  }

  lemma DiffSplits(earlier: seq<Finding>, later: seq<Finding>)
    ensures var diff := Compare(earlier, later); Splits(earlier, later, diff.added, diff.resolved, diff.kept)
  {
    var diff := Compare(earlier, later);
    CompareRefinesMultisets(earlier, later);
    ResolvedAreBaselines(earlier, later);
    assert multiset(diff.kept + diff.added) == multiset(diff.kept) + multiset(diff.added);
  }

  lemma ReportIsCompared(stored: Stored, one: string, other: string)
    requires Keyed(stored) && Comparable(stored, one, other)
    ensures var r := CompareLoaded(stored, one, other).value;
            var diff := Compare(stored.findings(r.baselineScanId), stored.findings(r.currentScanId));
            && r.newFindings == Map(Ref, diff.added) && r.resolvedFindings == Map(Ref, diff.resolved)
            && r.keptFindings == Map(Ref, diff.kept)
  {
    ComparedIff(stored, one, other);
  }

  /**
   Whose findings stand where: the new ones are findings of the later assessment, in number
   of each key what it has more than the earlier one; the resolved ones are findings of the
   earlier assessment, in number of each key what it has more; the unchanged ones are the
   rest of the later assessment's.
   */
  lemma FindingsStandOnTheirSides(stored: Stored, one: string, other: string)
    returns (added: seq<Finding>, resolved: seq<Finding>, kept: seq<Finding>)
    requires Keyed(stored) && Comparable(stored, one, other)
    ensures var r := CompareLoaded(stored, one, other).value;
            var earlier, later := stored.findings(r.baselineScanId), stored.findings(r.currentScanId);
            && ShowsFindings(r.newFindings, added) && ShowsFindings(r.resolvedFindings, resolved)
            && ShowsFindings(r.keptFindings, kept)
            && Splits(earlier, later, added, resolved, kept)
  {
    ComparedIff(stored, one, other);
    var r := CompareLoaded(stored, one, other).value;
    var earlier, later := stored.findings(r.baselineScanId), stored.findings(r.currentScanId);
    var diff := Compare(earlier, later);
    added, resolved, kept := diff.added, diff.resolved, diff.kept;
    ReportIsCompared(stored, one, other);
    DiffSplits(earlier, later);
    RefsShow(added);
    RefsShow(resolved);
    RefsShow(kept);
  }

  /** The change shows the two rows, each on its side. */
  predicate ShowsScores(c: DomainChange, earlier: map<string, Score>, later: map<string, Score>) {
    && (c.domain in earlier || c.domain in later)
    && c.baselineCategory == (if c.domain in earlier then Some(earlier[c.domain].decisionCategory) else None)
    && c.currentCategory == (if c.domain in later then Some(later[c.domain].decisionCategory) else None)
    && c.baselineWeighted == (if c.domain in earlier then earlier[c.domain].weightedScore else None)
    && c.currentWeighted == (if c.domain in later then later[c.domain].weightedScore else None)
  }

  ghost predicate Mentions(changes: seq<DomainChange>, domain: string) {
    exists c :: c in changes && c.domain == domain
  }

  lemma EffectiveIsOfRows(rows: seq<Score>, domain: string)
    requires domain in Effective(rows)
    ensures domain in DomainsOf(rows)
  {
    ScoreLog.NewestKeptMembers(rows, Superseded(rows));
    var row := Effective(rows)[domain];
    var i :| 0 <= i < |rows| && rows[i] == row;
    assert DomainsOf(rows)[i] == domain;
  }

  /** One change for each domain with a current score on either side, in sorted order. */
  lemma ScoreChangesExact(baseline: seq<Score>, current: seq<Score>)
    ensures var changes := CompareScores(baseline, current);
            && (forall i :: 0 <= i < |changes| ==> ShowsScores(changes[i], Effective(baseline), Effective(current)))
            && (forall i, j :: 0 <= i < j < |changes| ==> StringLe(changes[i].domain, changes[j].domain)
                                                          && changes[i].domain != changes[j].domain)
            && (forall domain :: Mentions(changes, domain)
                                 <==> domain in Effective(baseline) || domain in Effective(current))
  {
    var b, a := Effective(baseline), Effective(current);
    var named := Filter((d: string) => d in b || d in a, DomainsOf(baseline) + DomainsOf(current));
    var domains := Sort(StringLe, Dedup(named));
    var changes := CompareScores(baseline, current);
    FilterMembers((d: string) => d in b || d in a, DomainsOf(baseline) + DomainsOf(current));
    DedupMembers(named);
    StringOrder();
    SortSorts(StringLe, Dedup(named));
    SortDistinct(StringLe, Dedup(named));
    SortMembers(StringLe, Dedup(named));
    forall i | 0 <= i < |changes| ensures changes[i].domain == domains[i] && ShowsScores(changes[i], b, a) {
      assert domains[i] in domains;
    }
    forall domain ensures Mentions(changes, domain) <==> domain in b || domain in a {
      if domain in b || domain in a {
        CurrentDomainIsNamed(baseline, current, domain);
        var i :| 0 <= i < |domains| && domains[i] == domain;
        assert changes[i].domain == domain && changes[i] in changes;
      }
    }
  }

  lemma CurrentDomainIsNamed(baseline: seq<Score>, current: seq<Score>, domain: string)
    requires domain in Effective(baseline) || domain in Effective(current)
    ensures domain in DomainsOf(baseline) + DomainsOf(current)
  {
    if domain in Effective(baseline) {
      EffectiveIsOfRows(baseline, domain);
    } else {
      EffectiveIsOfRows(current, domain);
    }
  }

  /** In a report the earlier assessment's current scores are the baseline side, the later one's the current side. */
  lemma ScoresStandOnTheirSides(stored: Stored, one: string, other: string, c: DomainChange)
    requires Keyed(stored) && Comparable(stored, one, other)
    requires c in CompareLoaded(stored, one, other).value.domainChanges
    ensures var r := CompareLoaded(stored, one, other).value;
            ShowsScores(c, Effective(stored.scores(r.baselineScanId)), Effective(stored.scores(r.currentScanId)))
  {
    ComparedIff(stored, one, other);
    var r := CompareLoaded(stored, one, other).value;
    ScoreChangesExact(stored.scores(r.baselineScanId), stored.scores(r.currentScanId));
  }

  // ------------------------------------------------------------- the list order

  /** By rule, within a rule by path, within a path by evidence. */
  predicate ByRulePathEvidence(a: Key, b: Key) {
    && StringLe(a.ruleId, b.ruleId)
    && (a.ruleId == b.ruleId ==> StringLe(a.path, b.path))
    && (a.ruleId == b.ruleId && a.path == b.path ==> StringLe(a.evidence, b.evidence))
  }

  ghost predicate InKeyOrder(findings: seq<Finding>) {
    forall i, j :: 0 <= i < j < |findings| ==> ByRulePathEvidence(FindingKey(findings[i]), FindingKey(findings[j]))
  }

  ghost predicate KeysAmong(findings: seq<Finding>, keys: seq<Key>) {
    forall i :: 0 <= i < |findings| ==> FindingKey(findings[i]) in keys
  }

  lemma KeyLeIsByRule(a: Key, b: Key)
    ensures KeyLe(a, b) <==> ByRulePathEvidence(a, b)
  {
    StringLeTotal(a.ruleId, a.ruleId);
    StringLeTotal(a.path, a.path);
  }

  lemma GroupHasKey(key: Key, findings: seq<Finding>)
    ensures forall i :: 0 <= i < |Group(key, findings)| ==> FindingKey(Group(key, findings)[i]) == key
  {
    OnlyMembers(key, Sort(LineLe, findings));
    forall i | 0 <= i < |Group(key, findings)| ensures FindingKey(Group(key, findings)[i]) == key {
      assert Group(key, findings)[i] in Group(key, findings);
    }
  }

  /** Findings of the last key follow findings of earlier keys. */
  lemma NextGroupFollows(before: seq<Finding>, keys: seq<Key>, group: seq<Finding>)
    requires keys != [] && SortedBy(KeyLe, keys)
    requires InKeyOrder(before) && KeysAmong(before, keys[..|keys| - 1])
    requires forall i :: 0 <= i < |group| ==> FindingKey(group[i]) == keys[|keys| - 1]
    ensures InKeyOrder(before + group) && KeysAmong(before + group, keys)
  {
    var n := |keys| - 1;
    KeyLeTotal(keys[n], keys[n]);
    KeyLeIsByRule(keys[n], keys[n]);
    forall i | 0 <= i < |before| ensures ByRulePathEvidence(FindingKey(before[i]), keys[n]) {
      var k :| 0 <= k < n && keys[..n][k] == FindingKey(before[i]);
      assert KeyLe(keys[k], keys[n]);
      KeyLeIsByRule(keys[k], keys[n]);
    }
  }

  lemma {:induction false} DiffInKeyOrder(keys: seq<Key>, baseline: seq<Finding>, current: seq<Finding>)
    requires SortedBy(KeyLe, keys)
    ensures var diff := DiffOver(keys, baseline, current);
            && InKeyOrder(diff.added) && KeysAmong(diff.added, keys)
            && InKeyOrder(diff.resolved) && KeysAmong(diff.resolved, keys)
            && InKeyOrder(diff.kept) && KeysAmong(diff.kept, keys)
  {
    if keys != [] {
      var n := |keys| - 1;
      var before := DiffOver(keys[..n], baseline, current);
      var m := Matched(keys[n], baseline, current);
      DiffInKeyOrder(keys[..n], baseline, current);
      GroupHasKey(keys[n], baseline);
      GroupHasKey(keys[n], current);
      NextGroupFollows(before.added, keys, Group(keys[n], current)[m..]);
      NextGroupFollows(before.resolved, keys, Group(keys[n], baseline)[m..]);
      NextGroupFollows(before.kept, keys, Group(keys[n], current)[..m]);
    }
  }

  /** Each of the three lists goes by rule, then path, then evidence. */
  lemma ListsGoByRule(baseline: seq<Finding>, current: seq<Finding>)
    ensures var diff := Compare(baseline, current);
            InKeyOrder(diff.added) && InKeyOrder(diff.resolved) && InKeyOrder(diff.kept)
  {
    KeyOrder();
    SortSorts(KeyLe, Dedup(KeysOf(baseline) + KeysOf(current)));
    DiffInKeyOrder(AllKeys(baseline, current), baseline, current);
  }
}
