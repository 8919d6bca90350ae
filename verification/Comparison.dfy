/**
 Comparing two stored assessments (ui/services/comparison_service.py): a multiset diff
 of findings under a key that ignores line numbers and spacing, and a diff of current
 domain scores.
 */
module Comparison {
  import opened Prelude
  import opened Sorting
  import opened Store
  import opened Text
  import opened Governance

  datatype Key = Key(ruleId: string, path: string, evidence: string)

  datatype FindingRef = FindingRef(
    findingId: string,
    ruleId: string,
    severity: Severity,
    title: string,
    sourceRelativePath: string,
    lineStart: Option<int>,
    humanReviewStatus: ReviewStatus)

  function EvidenceText(f: Finding): string {
    if f.maskedEvidence.Some? then f.maskedEvidence.value else ""
  }

  /** `finding_key`: rule, path and the evidence with its whitespace normalised. */
  function FindingKey(f: Finding): Key {
    Key(f.ruleId, f.sourceRelativePath, Join(" ", Words(EvidenceText(f))))
  }

  function Ref(f: Finding): FindingRef {
    FindingRef(f.id, f.ruleId, f.severity, f.title, f.sourceRelativePath, f.lineStart, f.humanReviewStatus)
  }

  /** `f.line_start or 0` */
  function LineOf(f: Finding): int {
    if f.lineStart.Some? then f.lineStart.value else 0
  }

  predicate LineLe(a: Finding, b: Finding) {
    LineOf(a) <= LineOf(b)
  }

  /** Tuples compare component by component. */
  predicate KeyLe(a: Key, b: Key) {
    if a.ruleId != b.ruleId then StringLe(a.ruleId, b.ruleId)
    else if a.path != b.path then StringLe(a.path, b.path)
    else StringLe(a.evidence, b.evidence)
  }

  /** One component of the comparison: order, and what equality at the ends forces. */
  lemma StringChain(a: string, b: string, c: string)
    requires StringLe(a, b) && StringLe(b, c)
    ensures StringLe(a, c) && (a == c ==> a == b)
  {
    StringLeTransitive(a, b, c);
    if a == c {
      StringLeAntisymmetric(a, b);
    }
  }

  lemma KeyLeTransitive(a: Key, b: Key, c: Key)
    requires KeyLe(a, b) && KeyLe(b, c)
    ensures KeyLe(a, c)
  {
    StringLeTotal(a.ruleId, a.ruleId);
    StringLeTotal(c.ruleId, c.ruleId);
    StringChain(a.ruleId, b.ruleId, c.ruleId);
    if a.ruleId == c.ruleId {
      StringLeTotal(a.path, a.path);
      StringLeTotal(c.path, c.path);
      StringChain(a.path, b.path, c.path);
      if a.path == c.path {
        StringChain(a.evidence, b.evidence, c.evidence);
      }
    }
  }

  lemma KeyLeTotal(a: Key, b: Key)
    ensures KeyLe(a, b) || KeyLe(b, a)
    ensures KeyLe(a, b) && KeyLe(b, a) ==> a == b
  {
    StringLeTotal(a.ruleId, b.ruleId);
    StringLeTotal(a.path, b.path);
    StringLeTotal(a.evidence, b.evidence);
    if KeyLe(a, b) && KeyLe(b, a) {
      if a.ruleId != b.ruleId {
        StringLeAntisymmetric(a.ruleId, b.ruleId);
      } else if a.path != b.path {
        StringLeAntisymmetric(a.path, b.path);
      } else {
        StringLeAntisymmetric(a.evidence, b.evidence);
      }
    }
  }

  lemma KeyOrder()
    ensures TotalPreorder(KeyLe) && Antisymmetric(KeyLe)
  {
    forall a, b ensures KeyLe(a, b) || KeyLe(b, a) {
      KeyLeTotal(a, b);
    }
    forall a, b | KeyLe(a, b) && KeyLe(b, a) ensures a == b {
      KeyLeTotal(a, b);
    }
    forall a, b, c | KeyLe(a, b) && KeyLe(b, c) ensures KeyLe(a, c) {
      KeyLeTransitive(a, b, c);
    }
  }

  /** The words of the masked evidence, of which there may be none. */
  function EvidenceWords(f: Finding): seq<string> {
    match f.maskedEvidence
    case None => []
    case Some(text) => Words(text)
  }

  /** Two findings are the same finding exactly when rule, path and evidence words agree. */
  lemma SameKeyIff(f: Finding, g: Finding)
    ensures FindingKey(f) == FindingKey(g)
            <==> f.ruleId == g.ruleId && f.sourceRelativePath == g.sourceRelativePath
                 && EvidenceWords(f) == EvidenceWords(g)
  {
    WordsAreWords(EvidenceText(f));
    WordsAreWords(EvidenceText(g));
    WordsOfJoin(Words(EvidenceText(f)));
    WordsOfJoin(Words(EvidenceText(g)));
  }

  // ------------------------------------------------------------ specification

  predicate HasKey(key: Key, f: Finding) {
    FindingKey(f) == key
  }

  function Only(key: Key, findings: seq<Finding>): seq<Finding> {
    Filter((f: Finding) => HasKey(key, f), findings)
  }

  lemma OnlyConcat(key: Key, a: seq<Finding>, b: seq<Finding>)
    ensures Only(key, a + b) == Only(key, a) + Only(key, b)
  {
    FilterConcat((f: Finding) => HasKey(key, f), a, b);
  }

  lemma OnlySnoc(key: Key, s: seq<Finding>, f: Finding)
    ensures Only(key, s + [f]) == if HasKey(key, f) then Only(key, s) + [f] else Only(key, s)
  {
    FilterSnoc((x: Finding) => HasKey(key, x), s, f);
  }

  lemma OnlyMembers(key: Key, findings: seq<Finding>)
    ensures forall f :: f in Only(key, findings) <==> f in findings && HasKey(key, f)
  {
    FilterMembers((f: Finding) => HasKey(key, f), findings);
  }

  /** The findings of one key, earliest line first, ties in query order. */
  function Group(key: Key, findings: seq<Finding>): seq<Finding> {
    Only(key, Sort(LineLe, findings))
  }

  function KeysOf(findings: seq<Finding>): seq<Key> {
    Map(FindingKey, findings)
  }

  function AllKeys(baseline: seq<Finding>, current: seq<Finding>): seq<Key> {
    Sort(KeyLe, Dedup(KeysOf(baseline) + KeysOf(current)))
  }

  function Min(a: nat, b: nat): nat {
    if a <= b then a else b
  }

  function Matched(key: Key, baseline: seq<Finding>, current: seq<Finding>): (n: nat)
    ensures n <= |Group(key, baseline)| && n <= |Group(key, current)|
  {
    Min(|Group(key, baseline)|, |Group(key, current)|)
  }

  datatype Diff = Diff(added: seq<Finding>, resolved: seq<Finding>, kept: seq<Finding>)

  function DiffOver(keys: seq<Key>, baseline: seq<Finding>, current: seq<Finding>): Diff {
    if keys == [] then Diff([], [], [])
    else
      var n := |keys| - 1;
      var before := DiffOver(keys[..n], baseline, current);
      var m := Matched(keys[n], baseline, current);
      Diff(before.added + Group(keys[n], current)[m..],
           before.resolved + Group(keys[n], baseline)[m..],
           before.kept + Group(keys[n], current)[..m])
  }

  function Compare(baseline: seq<Finding>, current: seq<Finding>): Diff {
    DiffOver(AllKeys(baseline, current), baseline, current)
  }

  // ----------------------------------------------------------------- the loops

  function Lookup(groups: map<Key, seq<Finding>>, key: Key): seq<Finding> {
    if key in groups then groups[key] else []
  }

  /** Every key holds its findings, and only keys that occur are held. */
  ghost predicate Grouped(groups: map<Key, seq<Finding>>, findings: seq<Finding>) {
    && (forall key :: Lookup(groups, key) == Only(key, findings))
    && (forall key :: key in groups <==> key in KeysOf(findings))
  }

  lemma GroupedSnoc(groups: map<Key, seq<Finding>>, findings: seq<Finding>, f: Finding)
    requires Grouped(groups, findings)
    ensures Grouped(groups[FindingKey(f) := Lookup(groups, FindingKey(f)) + [f]], findings + [f])
  {
    var after := groups[FindingKey(f) := Lookup(groups, FindingKey(f)) + [f]];
    assert KeysOf(findings + [f]) == KeysOf(findings) + [FindingKey(f)];
    forall key ensures Lookup(after, key) == Only(key, findings + [f]) {
      OnlySnoc(key, findings, f);
      assert Lookup(groups, key) == Only(key, findings);
    }
  }

  lemma GroupedNothing()
    ensures Grouped(map[], [])
  {
    forall key ensures Only(key, []) == [] {}
    assert KeysOf([]) == [];
  }

  method GroupInOrder(ordered: seq<Finding>) returns (groups: map<Key, seq<Finding>>)
    ensures Grouped(groups, ordered)
  {
    groups := map[];
    GroupedNothing();
    assert ordered[..0] == [];
    for i := 0 to |ordered|
      invariant Grouped(groups, ordered[..i])
    {
      var f := ordered[i];
      assert ordered[..i + 1] == ordered[..i] + [f];
      GroupedSnoc(groups, ordered[..i], f);
      groups := groups[FindingKey(f) := Lookup(groups, FindingKey(f)) + [f]];
    }
    assert ordered[..|ordered|] == ordered;
  }

  /** `groups[finding_key(f)].append(f)` over the findings in line order. */
  method GroupByKey(findings: seq<Finding>) returns (groups: map<Key, seq<Finding>>)
    ensures forall key :: Lookup(groups, key) == Group(key, findings)
    ensures forall key :: key in groups <==> key in KeysOf(findings)
  {
    var ordered := Sort(LineLe, findings);
    groups := GroupInOrder(ordered);
    SortMembers(LineLe, findings);
    SameMembersSameKeys(ordered, findings);
  }

  lemma SameMembersSameKeys(a: seq<Finding>, b: seq<Finding>)
    requires forall f :: f in a <==> f in b
    ensures forall key :: key in KeysOf(a) <==> key in KeysOf(b)
  {
    forall key | key in KeysOf(a) ensures key in KeysOf(b) {
      var i :| 0 <= i < |a| && KeysOf(a)[i] == key;
      assert a[i] in b;
      var j :| 0 <= j < |b| && b[j] == a[i];
      assert KeysOf(b)[j] == key;
    }
    forall key | key in KeysOf(b) ensures key in KeysOf(a) {
      var i :| 0 <= i < |b| && KeysOf(b)[i] == key;
      assert b[i] in a;
      var j :| 0 <= j < |a| && a[j] == b[i];
      assert KeysOf(a)[j] == key;
    }
  }

  /** `sorted(keys)` of a set: any enumeration of it sorts to the same list. */
  method SortedKeys(keys: set<Key>, ghost listed: seq<Key>) returns (ordered: seq<Key>)
    requires forall key :: key in keys <==> key in listed
    ensures ordered == Sort(KeyLe, Dedup(listed))
  {
    var enumerated: seq<Key> := [];
    var remaining := keys;
    while remaining != {}
      invariant remaining <= keys
      invariant Distinct(enumerated)
      invariant forall key :: key in enumerated <==> key in keys && key !in remaining
      decreases |remaining|
    {
      var key :| key in remaining;
      enumerated := enumerated + [key];
      remaining := remaining - {key};
    }
    ordered := Sort(KeyLe, enumerated);
    DedupMembers(listed);
    DistinctSameMembers(enumerated, Dedup(listed));
    KeyOrder();
    SortCanonical(KeyLe, enumerated, Dedup(listed));
  }

  /** One key's share of the three lists. */
  lemma DiffOverStep(keys: seq<Key>, i: nat, baseline: seq<Finding>, current: seq<Finding>)
    requires i < |keys|
    ensures var before, after := DiffOver(keys[..i], baseline, current), DiffOver(keys[..i + 1], baseline, current);
            var m, gb, ga := Matched(keys[i], baseline, current), Group(keys[i], baseline), Group(keys[i], current);
            && Map(Ref, after.kept) == Map(Ref, before.kept) + Map(Ref, ga[..m])
            && Map(Ref, after.added) == Map(Ref, before.added) + Map(Ref, ga[m..])
            && Map(Ref, after.resolved) == Map(Ref, before.resolved) + Map(Ref, gb[m..])
  {
    assert keys[..i + 1][..i] == keys[..i];
    var m, gb, ga := Matched(keys[i], baseline, current), Group(keys[i], baseline), Group(keys[i], current);
    var before := DiffOver(keys[..i], baseline, current);
    MapConcat(Ref, before.kept, ga[..m]);
    MapConcat(Ref, before.added, ga[m..]);
    MapConcat(Ref, before.resolved, gb[m..]);
  }

  /** The three result lists after the keys handled so far. */
  ghost predicate Listed(keys: seq<Key>, baseline: seq<Finding>, current: seq<Finding>,
                         added: seq<FindingRef>, resolved: seq<FindingRef>, kept: seq<FindingRef>) {
    var diff := DiffOver(keys, baseline, current);
    added == Map(Ref, diff.added) && resolved == Map(Ref, diff.resolved) && kept == Map(Ref, diff.kept)
  }

  lemma ListedStep(keys: seq<Key>, i: nat, baseline: seq<Finding>, current: seq<Finding>,
                   added: seq<FindingRef>, resolved: seq<FindingRef>, kept: seq<FindingRef>)
    requires i < |keys| && Listed(keys[..i], baseline, current, added, resolved, kept)
    ensures var m, gb, ga := Matched(keys[i], baseline, current), Group(keys[i], baseline), Group(keys[i], current);
            Listed(keys[..i + 1], baseline, current,
                   added + Map(Ref, ga[m..]), resolved + Map(Ref, gb[m..]), kept + Map(Ref, ga[..m]))
  {
    DiffOverStep(keys, i, baseline, current);
  }

  method CompareFindings(baseline: seq<Finding>, current: seq<Finding>)
    returns (added: seq<FindingRef>, resolved: seq<FindingRef>, kept: seq<FindingRef>)
    ensures added == Map(Ref, Compare(baseline, current).added)
    ensures resolved == Map(Ref, Compare(baseline, current).resolved)
    ensures kept == Map(Ref, Compare(baseline, current).kept)
  {
    var before := GroupByKey(baseline);
    var after := GroupByKey(current);
    var keys := SortedKeys(before.Keys + after.Keys, KeysOf(baseline) + KeysOf(current));
    added, resolved, kept := [], [], [];
    for i := 0 to |keys|
      invariant Listed(keys[..i], baseline, current, added, resolved, kept)
    {
      ListedStep(keys, i, baseline, current, added, resolved, kept);
      var b, a := Lookup(before, keys[i]), Lookup(after, keys[i]);
      var matched := Min(|b|, |a|);
      assert matched == Matched(keys[i], baseline, current);
      kept := kept + Map(Ref, a[..matched]);
      added := added + Map(Ref, a[matched..]);
      resolved := resolved + Map(Ref, b[matched..]);
    }
    assert keys[..|keys|] == keys;
  }

  // ------------------------------------------------------ what the diff means

  lemma AllKeysExact(baseline: seq<Finding>, current: seq<Finding>)
    ensures Distinct(AllKeys(baseline, current)) && SortedBy(KeyLe, AllKeys(baseline, current))
    ensures forall key :: key in AllKeys(baseline, current) <==> key in KeysOf(baseline) || key in KeysOf(current)
  {
    var listed := KeysOf(baseline) + KeysOf(current);
    DedupMembers(listed);
    SortDistinct(KeyLe, Dedup(listed));
    SortMembers(KeyLe, Dedup(listed));
    KeyOrder();
    SortSorts(KeyLe, Dedup(listed));
  }

  /** A group holds only its own key. */
  lemma {:induction false} GroupsAreDisjoint(key: Key, other: Key, s: seq<Finding>)
    requires forall f :: f in s ==> HasKey(other, f)
    ensures Only(key, s) == if key == other then s else []
  {
    if s != [] {
      assert s[0] in s;
      assert forall f :: f in s[1..] ==> f in s;
      GroupsAreDisjoint(key, other, s[1..]);
      assert s == [s[0]] + s[1..];
    }
  }

  lemma GroupHasKey(key: Key, findings: seq<Finding>)
    ensures forall f :: f in Group(key, findings) ==> HasKey(key, f)
  {
    OnlyMembers(key, Sort(LineLe, findings));
  }

  /** Group by group, the earliest-line findings match and the rest are new or resolved. */
  ghost predicate SplitsGroup(diff: Diff, key: Key, baseline: seq<Finding>, current: seq<Finding>) {
    var m := Matched(key, baseline, current);
    && Only(key, diff.kept) == Group(key, current)[..m]
    && Only(key, diff.added) == Group(key, current)[m..]
    && Only(key, diff.resolved) == Group(key, baseline)[m..]
  }

  ghost predicate EmptyFor(diff: Diff, key: Key) {
    && Only(key, diff.kept) == []
    && Only(key, diff.added) == []
    && Only(key, diff.resolved) == []
  }

  lemma {:induction false} DiffOverSplits(keys: seq<Key>, key: Key, baseline: seq<Finding>, current: seq<Finding>)
    requires Distinct(keys)
    ensures if key in keys then SplitsGroup(DiffOver(keys, baseline, current), key, baseline, current)
            else EmptyFor(DiffOver(keys, baseline, current), key)
  {
    if keys != [] {
      var n := |keys| - 1;
      assert keys == keys[..n] + [keys[n]];
      DiffOverSplits(keys[..n], key, baseline, current);
      var before, m := DiffOver(keys[..n], baseline, current), Matched(keys[n], baseline, current);
      var gb, ga := Group(keys[n], baseline), Group(keys[n], current);
      GroupHasKey(keys[n], baseline);
      GroupHasKey(keys[n], current);
      OnlyConcat(key, before.kept, ga[..m]);
      OnlyConcat(key, before.added, ga[m..]);
      OnlyConcat(key, before.resolved, gb[m..]);
      GroupsAreDisjoint(key, keys[n], ga[..m]);
      GroupsAreDisjoint(key, keys[n], ga[m..]);
      GroupsAreDisjoint(key, keys[n], gb[m..]);
    }
  }

  lemma AbsentKeyHasNoGroup(key: Key, findings: seq<Finding>)
    requires key !in KeysOf(findings)
    ensures Group(key, findings) == []
  {
    GroupSize(key, findings);
    forall f | f in findings ensures !HasKey(key, f) {
      var i :| 0 <= i < |findings| && findings[i] == f;
      assert KeysOf(findings)[i] == FindingKey(f);
    }
    CountZero((f: Finding) => HasKey(key, f), findings);
  }

  /** The whole comparison, for every key there is. */
  lemma CompareSplitsEveryGroup(baseline: seq<Finding>, current: seq<Finding>, key: Key)
    ensures SplitsGroup(Compare(baseline, current), key, baseline, current)
  {
    AllKeysExact(baseline, current);
    DiffOverSplits(AllKeys(baseline, current), key, baseline, current);
    if key !in AllKeys(baseline, current) {
      AbsentKeyHasNoGroup(key, baseline);
      AbsentKeyHasNoGroup(key, current);
    }
  }

  // ----------------------------------------------------------- the refinement

  /** A key's findings in a list number the same as its findings in line order. */
  lemma GroupSize(key: Key, findings: seq<Finding>)
    ensures |Group(key, findings)| == KeyCount(key, findings)
  {
    SortPermutes(LineLe, findings);
    KeyCountIsOnly(key, Sort(LineLe, findings));
    CountPermutation((f: Finding) => HasKey(key, f), Sort(LineLe, findings), findings);
  }

  function KeyCount(key: Key, findings: seq<Finding>): nat {
    Count((f: Finding) => HasKey(key, f), findings)
  }

  lemma KeyCountIsOnly(key: Key, s: seq<Finding>)
    ensures KeyCount(key, s) == |Only(key, s)|
  {
    FilterLength((f: Finding) => HasKey(key, f), s);
  }

  lemma MultiplicityOfFirst(keys: seq<Key>, key: Key)
    requires keys != []
    ensures multiset(keys)[key] == (if keys[0] == key then 1 else 0) + multiset(keys[1..])[key]
  {
    assert keys == [keys[0]] + keys[1..];
  }

  /** How often a key occurs, as a multiset reads it. */
  lemma {:induction false} KeyMultiplicity(key: Key, s: seq<Finding>)
    ensures multiset(KeysOf(s))[key] == KeyCount(key, s)
  {
    if s == [] {
      assert KeysOf(s) == [];
    } else {
      KeyMultiplicity(key, s[1..]);
      assert KeysOf(s)[0] == FindingKey(s[0]) && KeysOf(s)[1..] == KeysOf(s[1..]);
      MultiplicityOfFirst(KeysOf(s), key);
    }
  }

  /** An element's multiplicity is its multiplicity within its own key. */
  lemma {:induction false} OnlyMultiplicity(f: Finding, s: seq<Finding>)
    ensures multiset(Only(FindingKey(f), s))[f] == multiset(s)[f]
  {
    if s != [] {
      var n := |s| - 1;
      assert s == s[..n] + [s[n]];
      OnlyMultiplicity(f, s[..n]);
      OnlySnoc(FindingKey(f), s[..n], s[n]);
    }
  }

  /** The three counts of one key: the intersection and the two differences. */
  lemma DiffCounts(baseline: seq<Finding>, current: seq<Finding>, key: Key)
    ensures var diff := Compare(baseline, current);
            var b, a := KeyCount(key, baseline), KeyCount(key, current);
            && KeyCount(key, diff.kept) == Min(b, a)
            && KeyCount(key, diff.added) == a - Min(b, a)
            && KeyCount(key, diff.resolved) == b - Min(b, a)
  {
    var diff := Compare(baseline, current);
    CompareSplitsEveryGroup(baseline, current, key);
    GroupSize(key, baseline);
    GroupSize(key, current);
    KeyCountIsOnly(key, diff.kept);
    KeyCountIsOnly(key, diff.added);
    KeyCountIsOnly(key, diff.resolved);
  }

  lemma DiffKeyMultiplicities(baseline: seq<Finding>, current: seq<Finding>, key: Key)
    ensures var diff := Compare(baseline, current);
            && multiset(KeysOf(diff.kept))[key] == Min(multiset(KeysOf(baseline))[key], multiset(KeysOf(current))[key])
            && multiset(KeysOf(diff.added))[key] == multiset(KeysOf(current))[key] - multiset(KeysOf(diff.kept))[key]
            && multiset(KeysOf(diff.resolved))[key]
               == multiset(KeysOf(baseline))[key] - multiset(KeysOf(diff.kept))[key]
  {
    var diff := Compare(baseline, current);
    DiffCounts(baseline, current, key);
    KeyMultiplicity(key, baseline);
    KeyMultiplicity(key, current);
    KeyMultiplicity(key, diff.kept);
    KeyMultiplicity(key, diff.added);
    KeyMultiplicity(key, diff.resolved);
  }

  lemma SameMultiplicities(x: multiset<Key>, y: multiset<Key>)
    requires forall key :: x[key] == y[key]
    ensures x == y
  {}

  /** Intersection and differences, read as multisets of keys. */
  lemma DiffKeyMultisets(baseline: seq<Finding>, current: seq<Finding>)
    ensures var diff := Compare(baseline, current);
            var b, a := multiset(KeysOf(baseline)), multiset(KeysOf(current));
            && multiset(KeysOf(diff.kept)) == b * a
            && multiset(KeysOf(diff.added)) == a - b
            && multiset(KeysOf(diff.resolved)) == b - a
  {
    var diff := Compare(baseline, current);
    var b, a := multiset(KeysOf(baseline)), multiset(KeysOf(current));
    var kept, added, resolved := multiset(KeysOf(diff.kept)), multiset(KeysOf(diff.added)),
        multiset(KeysOf(diff.resolved));
    forall key ensures kept[key] == (b * a)[key] && added[key] == (a - b)[key] && resolved[key] == (b - a)[key] {
      DiffKeyMultiplicities(baseline, current, key);
    }
    SameMultiplicities(kept, b * a);
    SameMultiplicities(added, a - b);
    SameMultiplicities(resolved, b - a);
  }

  lemma RejoinGroup(key: Key, a: seq<Finding>, b: seq<Finding>, group: seq<Finding>, m: nat)
    requires m <= |group| && Only(key, a) == group[..m] && Only(key, b) == group[m..]
    ensures Only(key, a + b) == group
  {
    OnlyConcat(key, a, b);
    assert group[..m] + group[m..] == group;
  }

  lemma KeptAndAddedGroup(baseline: seq<Finding>, current: seq<Finding>, key: Key)
    ensures Only(key, Compare(baseline, current).kept + Compare(baseline, current).added) == Group(key, current)
  {
    var diff := Compare(baseline, current);
    CompareSplitsEveryGroup(baseline, current, key);
    RejoinGroup(key, diff.kept, diff.added, Group(key, current), Matched(key, baseline, current));
  }

  /** Kept and added together are the current findings, rearranged. */
  lemma KeptAndAddedAreCurrent(baseline: seq<Finding>, current: seq<Finding>)
    ensures multiset(Compare(baseline, current).kept + Compare(baseline, current).added) == multiset(current)
  {
    var merged := Compare(baseline, current).kept + Compare(baseline, current).added;
    var ordered := Sort(LineLe, current);
    SortPermutes(LineLe, current);
    forall f ensures multiset(merged)[f] == multiset(ordered)[f] {
      KeptAndAddedGroup(baseline, current, FindingKey(f));
      OnlyMultiplicity(f, merged);
      OnlyMultiplicity(f, ordered);
    }
  }

  /**
   The comparison is a multiset diff under the key: kept is the intersection, added and
   resolved the two differences; kept and added together rearrange the current findings,
   and kept and resolved together have the baseline's keys.
   */
  lemma CompareRefinesMultisets(baseline: seq<Finding>, current: seq<Finding>)
    ensures var diff := Compare(baseline, current);
            var b, a := multiset(KeysOf(baseline)), multiset(KeysOf(current));
            && multiset(KeysOf(diff.kept)) == b * a
            && multiset(KeysOf(diff.added)) == a - b
            && multiset(KeysOf(diff.resolved)) == b - a
            && multiset(diff.kept + diff.added) == multiset(current)
            && multiset(KeysOf(diff.kept + diff.resolved)) == b
  {
    var diff := Compare(baseline, current);
    DiffKeyMultisets(baseline, current);
    KeptAndAddedAreCurrent(baseline, current);
    MapConcat(FindingKey, diff.kept, diff.resolved);
    var b, a := multiset(KeysOf(baseline)), multiset(KeysOf(current));
    assert b * a + (b - a) == b;
  }

  /** A finding without a line comes as if on line 0. */
  predicate NotAfter(f: Finding, g: Finding) {
    match (f.lineStart, g.lineStart)
    case (None, None) => true
    case (None, Some(n)) => 0 <= n
    case (Some(m), None) => m <= 0
    case (Some(m), Some(n)) => m <= n
  }

  /** Within each key the earliest lines are the matched ones, in both scans. */
  lemma EarliestLinesMatch(baseline: seq<Finding>, current: seq<Finding>, key: Key)
    ensures var diff := Compare(baseline, current);
            var m, gb := |Only(key, diff.kept)|, Group(key, baseline);
            && (forall f, g :: f in Only(key, diff.kept) && g in Only(key, diff.added) ==> NotAfter(f, g))
            && m <= |gb| && gb[m..] == Only(key, diff.resolved)
            && (forall i, j :: 0 <= i < m <= j < |gb| ==> NotAfter(gb[i], gb[j]))
  {
    CompareSplitsEveryGroup(baseline, current, key);
    GroupInLineOrder(key, baseline);
    GroupInLineOrder(key, current);
    SplitSorted(Group(key, current), Matched(key, baseline, current));
  }

  lemma SplitSorted(s: seq<Finding>, m: nat)
    requires SortedBy(LineLe, s) && m <= |s|
    ensures forall f, g :: f in s[..m] && g in s[m..] ==> LineOf(f) <= LineOf(g)
  {
    forall f, g | f in s[..m] && g in s[m..] ensures LineOf(f) <= LineOf(g) {
      var i :| 0 <= i < m && s[..m][i] == f;
      var j :| 0 <= j < |s| - m && s[m..][j] == g;
      assert LineLe(s[i], s[m + j]);
    }
  }

  lemma GroupInLineOrder(key: Key, findings: seq<Finding>)
    ensures SortedBy(LineLe, Group(key, findings))
  {
    SortSorts(LineLe, findings);
    OnlyKeepsOrder(key, Sort(LineLe, findings));
  }

  lemma {:induction false} OnlyKeepsOrder(key: Key, s: seq<Finding>)
    requires SortedBy(LineLe, s)
    ensures SortedBy(LineLe, Only(key, s))
  {
    if s != [] {
      var n := |s| - 1;
      OnlyKeepsOrder(key, s[..n]);
      OnlyMembers(key, s[..n]);
      OnlySnoc(key, s[..n], s[n]);
      assert s == s[..n] + [s[n]];
      SortedSnoc(s[..n], Only(key, s[..n]), s[n]);
    }
  }

  lemma SortedSnoc(before: seq<Finding>, kept: seq<Finding>, last: Finding)
    requires SortedBy(LineLe, before + [last]) && SortedBy(LineLe, kept)
    requires forall f :: f in kept ==> f in before
    ensures SortedBy(LineLe, kept + [last])
  {
    forall i | 0 <= i < |kept| ensures LineLe(kept[i], last) {
      assert kept[i] in kept;
      var j :| 0 <= j < |before| && before[j] == kept[i];
      assert (before + [last])[j] == kept[i] && (before + [last])[|before|] == last;
    }
  }

  // --------------------------------------------------- symmetry and composition

  lemma AllKeysSymmetric(baseline: seq<Finding>, current: seq<Finding>)
    ensures AllKeys(baseline, current) == AllKeys(current, baseline)
  {
    var forth, back := KeysOf(baseline) + KeysOf(current), KeysOf(current) + KeysOf(baseline);
    DedupMembers(forth);
    DedupMembers(back);
    DistinctSameMembers(Dedup(forth), Dedup(back));
    KeyOrder();
    SortCanonical(KeyLe, Dedup(forth), Dedup(back));
  }

  lemma {:induction false} DiffOverSwaps(keys: seq<Key>, baseline: seq<Finding>, current: seq<Finding>)
    ensures DiffOver(keys, baseline, current).added == DiffOver(keys, current, baseline).resolved
    ensures DiffOver(keys, baseline, current).resolved == DiffOver(keys, current, baseline).added
  {
    if keys != [] {
      DiffOverSwaps(keys[..|keys| - 1], baseline, current);
    }
  }

  /** Swapping the two scans swaps new and resolved, list for list. */
  lemma SwappingSwaps(baseline: seq<Finding>, current: seq<Finding>)
    ensures Compare(current, baseline).added == Compare(baseline, current).resolved
    ensures Compare(current, baseline).resolved == Compare(baseline, current).added
  {
    AllKeysSymmetric(baseline, current);
    DiffOverSwaps(AllKeys(baseline, current), baseline, current);
  }

  lemma SubmultisetSize<T>(a: multiset<T>, b: multiset<T>)
    requires a <= b
    ensures |a| <= |b|
  {
    assert b == a + (b - a);
  }

  /** Over three runs, what is new from first to third was new in one of the two steps. */
  lemma NewFindingsCompose(first: seq<Finding>, second: seq<Finding>, third: seq<Finding>)
    ensures |Compare(first, third).added| <= |Compare(first, second).added| + |Compare(second, third).added|
  {
    CompareRefinesMultisets(first, third);
    CompareRefinesMultisets(first, second);
    CompareRefinesMultisets(second, third);
    var k1, k2, k3 := multiset(KeysOf(first)), multiset(KeysOf(second)), multiset(KeysOf(third));
    assert k3 - k1 <= (k2 - k1) + (k3 - k2);
    SubmultisetSize(k3 - k1, (k2 - k1) + (k3 - k2));
    assert |multiset(KeysOf(Compare(first, third).added))| == |Compare(first, third).added|;
    assert |multiset(KeysOf(Compare(first, second).added))| == |Compare(first, second).added|;
    assert |multiset(KeysOf(Compare(second, third).added))| == |Compare(second, third).added|;
  }

  // ------------------------------------------------------------ stored scans

  datatype ScanStatus = Completed | CompletedWithWarnings | OtherStatus

  datatype Scan = Scan(id: string, sourcePath: string, sourceType: string, status: ScanStatus, createdAt: Option<Time>)

  datatype Incompatible = NoSuchScan | SameScan | NotCompleted(scanId: string) | DifferentSources

  datatype DomainChange = DomainChange(
    domain: string,
    baselineCategory: Option<DecisionCategory>,
    currentCategory: Option<DecisionCategory>,
    baselineWeighted: Option<real>,
    currentWeighted: Option<real>)

  datatype ScanComparison = ScanComparison(
    baselineScanId: string,
    currentScanId: string,
    sourcePath: string,
    reordered: bool,
    newFindings: seq<FindingRef>,
    resolvedFindings: seq<FindingRef>,
    keptFindings: seq<FindingRef>,
    domainChanges: seq<DomainChange>)

  /** `check_compatible` once both scans exist. */
  function CheckCompatible(baseline: Scan, current: Scan): Option<Incompatible> {
    if baseline.id == current.id then Some(SameScan)
    else if baseline.status == OtherStatus then Some(NotCompleted(baseline.id))
    else if current.status == OtherStatus then Some(NotCompleted(current.id))
    else if baseline.sourcePath != current.sourcePath || baseline.sourceType != current.sourceType
        then Some(DifferentSources)
    else None
  }

  function ChangeOf(domain: string, b: map<string, Score>, a: map<string, Score>): DomainChange {
    DomainChange(
      domain,
      if domain in b then Some(b[domain].decisionCategory) else None,
      if domain in a then Some(a[domain].decisionCategory) else None,
      if domain in b then b[domain].weightedScore else None,
      if domain in a then a[domain].weightedScore else None)
  }

  function DomainsOf(rows: seq<Score>): seq<string> {
    Map((row: Score) => row.domain, rows)
  }

  /** `compare_scores`; a domain without an effective row appears on neither side. */
  function CompareScores(baseline: seq<Score>, current: seq<Score>): seq<DomainChange> {
    var b, a := Effective(baseline), Effective(current);
    var domains := Sort(StringLe, Dedup(Filter((d: string) => d in b || d in a,
                                               DomainsOf(baseline) + DomainsOf(current))));
    Map((d: string) => ChangeOf(d, b, a), domains)
  }

  /** The stored rows the comparison reads, each query in its own order. */
  datatype Stored = Stored(
    scans: map<string, Scan>,
    findings: string -> seq<Finding>,
    scores: string -> seq<Score>)

  predicate NewerFirst(baseline: Scan, current: Scan) {
    baseline.createdAt.Some? && current.createdAt.Some? && baseline.createdAt.value > current.createdAt.value
  }

  function Compared(stored: Stored, baseline: Scan, current: Scan, reordered: bool): ScanComparison {
    var diff := Compare(stored.findings(baseline.id), stored.findings(current.id));
    ScanComparison(baseline.id, current.id, current.sourcePath, reordered,
                   Map(Ref, diff.added), Map(Ref, diff.resolved), Map(Ref, diff.kept),
                   CompareScores(stored.scores(baseline.id), stored.scores(current.id)))
  }

  /** `compare_loaded` */
  function CompareLoaded(stored: Stored, baselineId: string, currentId: string): Result<ScanComparison, Incompatible> {
    if baselineId !in stored.scans || currentId !in stored.scans then Err(NoSuchScan)
    else
      var baseline, current := stored.scans[baselineId], stored.scans[currentId];
      var problem := CheckCompatible(baseline, current);
      if problem.Some? then Err(problem.value) else Ok(InCreationOrder(stored, baseline, current))
  }

  /** The earlier scan becomes the baseline; without two times the selection order stands. */
  function InCreationOrder(stored: Stored, baseline: Scan, current: Scan): ScanComparison {
    if NewerFirst(baseline, current) then Compared(stored, current, baseline, true)
    else Compared(stored, baseline, current, false)
  }

  predicate CreatedApart(a: Scan, b: Scan) {
    a.createdAt.Some? && b.createdAt.Some? && a.createdAt.value != b.createdAt.value
  }

  lemma CompatibilityIsSymmetric(a: Scan, b: Scan)
    ensures CheckCompatible(a, b).None? <==> CheckCompatible(b, a).None?
  {}

  /** Exchanging the scans exchanges new and resolved in the report. */
  lemma ComparedSwaps(stored: Stored, a: Scan, b: Scan, flag: bool, other: bool)
    ensures Compared(stored, b, a, other).newFindings == Compared(stored, a, b, flag).resolvedFindings
    ensures Compared(stored, b, a, other).resolvedFindings == Compared(stored, a, b, flag).newFindings
  {
    SwappingSwaps(stored.findings(a.id), stored.findings(b.id));
  }

  lemma CreationOrderDecides(stored: Stored, a: Scan, b: Scan)
    requires a.id != b.id
    ensures var forth, back := InCreationOrder(stored, a, b), InCreationOrder(stored, b, a);
            && (CreatedApart(a, b) ==> back == forth.(reordered := !forth.reordered) || a.sourcePath != b.sourcePath)
            && (!CreatedApart(a, b) ==>
                  && back.baselineScanId == forth.currentScanId
                  && back.currentScanId == forth.baselineScanId
                  && forth.baselineScanId != forth.currentScanId)
  {}

  /**
   Selection order: the two orders are accepted or refused alike. When accepted they give
   the same comparison up to the `reordered` flag exactly when both creation times are
   known and differ; otherwise the roles, and with them new and resolved, are exchanged.
   */
  lemma SelectionOrder(stored: Stored, one: string, other: string)
    ensures CompareLoaded(stored, one, other).Ok? <==> CompareLoaded(stored, other, one).Ok?
    ensures CompareLoaded(stored, one, other).Ok? ==>
              var forth, back := CompareLoaded(stored, one, other).value, CompareLoaded(stored, other, one).value;
              && (back == forth.(reordered := !forth.reordered)
                  <==> CreatedApart(stored.scans[one], stored.scans[other]))
              && (!CreatedApart(stored.scans[one], stored.scans[other]) ==>
                   && back.baselineScanId == forth.currentScanId && back.currentScanId == forth.baselineScanId
                   && back.newFindings == forth.resolvedFindings && back.resolvedFindings == forth.newFindings)
  {
    if one in stored.scans && other in stored.scans {
      var a, b := stored.scans[one], stored.scans[other];
      CompatibilityIsSymmetric(a, b);
      if CheckCompatible(a, b).None? {
        CreationOrderDecides(stored, a, b);
        ComparedSwaps(stored, a, b, false, false);
      }
    }
  }
}
