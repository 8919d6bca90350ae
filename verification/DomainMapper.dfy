/**
 Which banking domains a file belongs to (scanners/domain_mapper.py): classification
 flags first, then banking words in the path, at most one mapping a domain.
 */
module DomainMapper {
  import opened Prelude
  import opened Store
  import opened Text
  import opened Domains

  datatype MappingSource = ScannerResult | BankingTerminology

  datatype DomainMapping = DomainMapping(domain: BankingDomain, confidence: Confidence, reason: string,
                                         source: MappingSource)

  /** One entry of `category_flags`. */
  datatype Flag = Flag(name: string, isSet: bool)

  function FlagDomain(name: string): Option<(BankingDomain, Confidence)> {
    if name == "payment_related" then Some((Payments, HighConfidence))
    else if name == "account_related" then Some((CoreBanking, MediumConfidence))
    else if name == "credit_lending_related" then Some((CreditLending, HighConfidence))
    else if name == "investment_related" then Some((InvestmentsTrading, HighConfidence))
    else if name == "customer_identity_related" then Some((OnboardingIdentityAccess, HighConfidence))
    else if name == "auth_config" then Some((OnboardingIdentityAccess, MediumConfidence))
    else if name == "audit_related" then Some((HumanApprovalAuditability, HighConfidence))
    else if name == "logging_config" then Some((MonitoringObservability, MediumConfidence))
    else if name == "monitoring_config" then Some((MonitoringObservability, HighConfidence))
    else if name == "data_governance_related" then Some((PrivacyDataProtection, MediumConfidence))
    else if name == "security_controls" then Some((ApplicationSecurity, MediumConfidence))
    else if name == "database_schema_or_migration" then Some((DatabaseControlsSod, MediumConfidence))
    else if name == "api_definition" then Some((InfrastructureApiSecurity, MediumConfidence))
    else if name == "is_infrastructure_as_code" then Some((InfrastructureApiSecurity, MediumConfidence))
    else if name == "is_deployment_or_environment" then Some((ChangeManagement, LowConfidence))
    else None
  }

  datatype Hint = Hint(keyword: string, domain: BankingDomain)

  const TERMINOLOGY_HINTS: seq<Hint> := [
    Hint("fraud", FraudControls), Hint("aml", FraudControls), Hint("sanctions", FraudControls),
    Hint("reconcil", TransactionProcessingReporting), Hint("ledger", TransactionProcessingReporting),
    Hint("disaster_recovery", BusinessContinuityDr), Hint("backup", BusinessContinuityDr),
    Hint("failover", BusinessContinuityDr), Hint("model_governance", ModelAiGovernance),
        Hint("ml_model", ModelAiGovernance)]

  function FlagMapping(flag: Flag): Option<DomainMapping> {
    var found := FlagDomain(flag.name);
    if !flag.isSet || found.None? then None
    else Some(DomainMapping(found.value.0, found.value.1,
                            "classification flag '" + flag.name + "' was set for this file", ScannerResult))
  }

  function HintMapping(pathLower: string, hint: Hint): Option<DomainMapping> {
    if !Contains(pathLower, hint.keyword) then None
    else Some(DomainMapping(hint.domain, LowConfidence,
                            "path contains banking terminology keyword '" + hint.keyword + "'", BankingTerminology))
  }

  predicate MapsTo(mappings: seq<DomainMapping>, domain: BankingDomain) {
    exists m :: m in mappings && m.domain == domain
  }

  /** A proposal joins the list unless its domain is already there. */
  function Offer(mappings: seq<DomainMapping>, proposal: Option<DomainMapping>): seq<DomainMapping> {
    if proposal.None? || MapsTo(mappings, proposal.value.domain) then mappings else mappings + [proposal.value]
  }

  function OfferAll(mappings: seq<DomainMapping>, proposals: seq<Option<DomainMapping>>): seq<DomainMapping> {
    if proposals == [] then mappings
    else Offer(OfferAll(mappings, proposals[..|proposals| - 1]), proposals[|proposals| - 1])
  }

  function FlagProposals(flags: seq<Flag>): seq<Option<DomainMapping>> {
    Map(FlagMapping, flags)
  }

  function HintProposals(pathLower: string, hints: seq<Hint>): seq<Option<DomainMapping>> {
    Map((h: Hint) => HintMapping(pathLower, h), hints)
  }

  function FileDomains(pathLower: string, flags: seq<Flag>): seq<DomainMapping> {
    OfferAll(OfferAll([], FlagProposals(flags)), HintProposals(pathLower, TERMINOLOGY_HINTS))
  }

  /** `seen` holds the domains of the list. */
  ghost predicate Tracks(seen: set<BankingDomain>, mappings: seq<DomainMapping>) {
    forall domain :: domain in seen <==> MapsTo(mappings, domain)
  }

  method MapFileToDomains(pathLower: string, flags: seq<Flag>) returns (mappings: seq<DomainMapping>)
    ensures mappings == FileDomains(pathLower, flags)
  {
    mappings := [];
    var seen: set<BankingDomain> := {};
    for i := 0 to |flags|
      invariant mappings == OfferAll([], FlagProposals(flags[..i])) && Tracks(seen, mappings)
    {
      FlagsNext(flags, i);
      var flag := flags[i];
      if !flag.isSet {
        continue;
      }
      var found := FlagDomain(flag.name);
      if found.None? {
        continue;
      }
      var (domain, confidence) := found.value;
      if domain in seen {
        continue;
      }
      var mapping := DomainMapping(domain, confidence, "classification flag '" + flag.name + "' was set for this file",
                                   ScannerResult);
      JoiningAddsDomain(mappings, mapping);
      seen := seen + {domain};
      mappings := mappings + [mapping];
    }
    assert flags[..|flags|] == flags;
    mappings := AddTerminology(pathLower, TERMINOLOGY_HINTS, mappings, seen);
  }

  /** The second loop of the mapper. */
  method AddTerminology(pathLower: string, hints: seq<Hint>, flagged: seq<DomainMapping>,
                        seenFlagged: set<BankingDomain>)
    returns (mappings: seq<DomainMapping>)
    requires Tracks(seenFlagged, flagged)
    ensures mappings == OfferAll(flagged, HintProposals(pathLower, hints))
  {
    mappings := flagged;
    var seen := seenFlagged;
    for i := 0 to |hints|
      invariant mappings == OfferAll(flagged, HintProposals(pathLower, hints[..i])) && Tracks(seen, mappings)
    {
      HintsNext(flagged, pathLower, hints, i);
      var hint := hints[i];
      if !Contains(pathLower, hint.keyword) || hint.domain in seen {
        continue;
      }
      var mapping := DomainMapping(hint.domain, LowConfidence,
                                   "path contains banking terminology keyword '" + hint.keyword + "'",
                                       BankingTerminology);
      JoiningAddsDomain(mappings, mapping);
      seen := seen + {hint.domain};
      mappings := mappings + [mapping];
    }
    assert hints[..|hints|] == hints;
  }

  lemma OfferNext(mappings: seq<DomainMapping>, proposals: seq<Option<DomainMapping>>, next: Option<DomainMapping>)
    ensures OfferAll(mappings, proposals + [next]) == Offer(OfferAll(mappings, proposals), next)
  {
    assert (proposals + [next])[..|proposals|] == proposals;
  }

  lemma FlagsNext(flags: seq<Flag>, i: nat)
    requires i < |flags|
    ensures OfferAll([], FlagProposals(flags[..i + 1]))
            == Offer(OfferAll([], FlagProposals(flags[..i])), FlagMapping(flags[i]))
  {
    OfferNext([], FlagProposals(flags[..i]), FlagMapping(flags[i]));
    assert FlagProposals(flags[..i + 1]) == FlagProposals(flags[..i]) + [FlagMapping(flags[i])];
  }

  lemma HintsNext(flagged: seq<DomainMapping>, pathLower: string, hints: seq<Hint>, i: nat)
    requires i < |hints|
    ensures OfferAll(flagged, HintProposals(pathLower, hints[..i + 1]))
            == Offer(OfferAll(flagged, HintProposals(pathLower, hints[..i])), HintMapping(pathLower, hints[i]))
  {
    OfferNext(flagged, HintProposals(pathLower, hints[..i]), HintMapping(pathLower, hints[i]));
    assert HintProposals(pathLower, hints[..i + 1]) == HintProposals(pathLower, hints[..i])
           + [HintMapping(pathLower, hints[i])];
  }

  lemma JoiningAddsDomain(mappings: seq<DomainMapping>, mapping: DomainMapping)
    ensures forall domain ::
          MapsTo(mappings + [mapping], domain)
          <==> MapsTo(mappings, domain) || domain == mapping.domain
  {
    assert mapping in mappings + [mapping];
    forall domain | MapsTo(mappings, domain) ensures MapsTo(mappings + [mapping], domain) {
      var m :| m in mappings && m.domain == domain;
      assert m in mappings + [mapping];
    }
  }

  // ----------------------------------------------------- what a file maps to

  ghost predicate OneMappingADomain(mappings: seq<DomainMapping>) {
    forall i, j :: 0 <= i < j < |mappings| ==> mappings[i].domain != mappings[j].domain
  }

  ghost predicate Proposes(proposals: seq<Option<DomainMapping>>, domain: BankingDomain) {
    exists i :: 0 <= i < |proposals| && proposals[i].Some? && proposals[i].value.domain == domain
  }

  /** Offering proposals keeps one mapping a domain and covers exactly the domains proposed. */
  lemma {:induction false} OffersCover(mappings: seq<DomainMapping>, proposals: seq<Option<DomainMapping>>)
    requires OneMappingADomain(mappings)
    ensures OneMappingADomain(OfferAll(mappings, proposals))
    ensures mappings <= OfferAll(mappings, proposals)
    ensures forall domain ::
          MapsTo(OfferAll(mappings, proposals), domain)
          <==> MapsTo(mappings, domain) || Proposes(proposals, domain)
    ensures forall k ::
          |mappings| <= k < |OfferAll(mappings, proposals)|
          ==> Some(OfferAll(mappings, proposals)[k]) in proposals
  {
    if proposals != [] {
      var n := |proposals| - 1;
      var before, last := OfferAll(mappings, proposals[..n]), proposals[n];
      OffersCover(mappings, proposals[..n]);
      ProposesNext(proposals[..n], last);
      assert proposals == proposals[..n] + [last];
      if last.Some? && !MapsTo(before, last.value.domain) {
        JoiningAddsDomain(before, last.value);
        assert forall i :: 0 <= i < |before| ==> before[i] in before;
      }
    }
  }

  lemma ProposesNext(proposals: seq<Option<DomainMapping>>, next: Option<DomainMapping>)
    ensures forall domain :: Proposes(proposals + [next], domain) <==>
              Proposes(proposals, domain) || (next.Some? && next.value.domain == domain)
  {
    assert (proposals + [next])[|proposals|] == next;
    forall domain | Proposes(proposals, domain) ensures Proposes(proposals + [next], domain) {
      var i :| 0 <= i < |proposals| && proposals[i].Some? && proposals[i].value.domain == domain;
      assert (proposals + [next])[i] == proposals[i];
    }
  }

  /** A flag of the file stands for the domain. */
  ghost predicate Flagged(flags: seq<Flag>, domain: BankingDomain) {
    exists f :: f in flags && f.isSet && FlagDomain(f.name).Some? && FlagDomain(f.name).value.0 == domain
  }

  /** A banking word in the path stands for the domain. */
  ghost predicate Hinted(pathLower: string, domain: BankingDomain) {
    exists h :: h in TERMINOLOGY_HINTS && h.domain == domain && Contains(pathLower, h.keyword)
  }

  lemma FlagProposalsMean(flags: seq<Flag>, domain: BankingDomain)
    ensures Proposes(FlagProposals(flags), domain) <==> Flagged(flags, domain)
  {
    if Flagged(flags, domain) {
      var f :| f in flags && f.isSet && FlagDomain(f.name).Some? && FlagDomain(f.name).value.0 == domain;
      var i :| 0 <= i < |flags| && flags[i] == f;
      assert FlagProposals(flags)[i].Some?;
    }
    if Proposes(FlagProposals(flags), domain) {
      var i :| 0 <= i < |flags| && FlagProposals(flags)[i].Some? && FlagProposals(flags)[i].value.domain == domain;
      assert flags[i] in flags;
    }
  }

  lemma HintProposalsMean(pathLower: string, domain: BankingDomain)
    ensures Proposes(HintProposals(pathLower, TERMINOLOGY_HINTS), domain) <==> Hinted(pathLower, domain)
  {
    var proposals := HintProposals(pathLower, TERMINOLOGY_HINTS);
    if Hinted(pathLower, domain) {
      var h :| h in TERMINOLOGY_HINTS && h.domain == domain && Contains(pathLower, h.keyword);
      var i :| 0 <= i < |TERMINOLOGY_HINTS| && TERMINOLOGY_HINTS[i] == h;
      assert proposals[i].Some?;
    }
    if Proposes(proposals, domain) {
      var i :| 0 <= i < |proposals| && proposals[i].Some? && proposals[i].value.domain == domain;
      assert TERMINOLOGY_HINTS[i] in TERMINOLOGY_HINTS;
    }
  }

  /**
   A file maps to a domain at most once, and it does so exactly when one of its set flags
   or a banking word in its path stands for the domain; the flag's evidence, where there
   is any, is the one recorded.
   */
  lemma MappedExactly(pathLower: string, flags: seq<Flag>)
    ensures OneMappingADomain(FileDomains(pathLower, flags))
    ensures forall domain ::
          MapsTo(FileDomains(pathLower, flags), domain)
          <==> Flagged(flags, domain) || Hinted(pathLower, domain)
    ensures forall m :: m in FileDomains(pathLower, flags) ==> (m.source == ScannerResult <==> Flagged(flags, m.domain))
  {
    var flagged := OfferAll([], FlagProposals(flags));
    var hints := HintProposals(pathLower, TERMINOLOGY_HINTS);
    var all := FileDomains(pathLower, flags);
    OffersCover([], FlagProposals(flags));
    OffersCover(flagged, hints);
    forall domain ensures MapsTo(flagged, domain) <==> Flagged(flags, domain)
      ensures MapsTo(all, domain) <==> Flagged(flags, domain) || Hinted(pathLower, domain) {
      FlagProposalsMean(flags, domain);
      HintProposalsMean(pathLower, domain);
    }
    forall k | 0 <= k < |all| ensures all[k].source == ScannerResult <==> Flagged(flags, all[k].domain) {
      if k < |flagged| {
        assert all[k] == flagged[k] && Some(flagged[k]) in FlagProposals(flags);
      } else {
        assert Some(all[k]) in hints;
        LaterMapsElsewhere(all, flagged, k);
      }
    }
  }

  lemma LaterMapsElsewhere(all: seq<DomainMapping>, first: seq<DomainMapping>, k: nat)
    requires OneMappingADomain(all) && first <= all && |first| <= k < |all|
    ensures !MapsTo(first, all[k].domain)
  {
    forall m | m in first ensures m.domain != all[k].domain {
      var i :| 0 <= i < |first| && first[i] == m;
      assert all[i] == m;
    }
  }

  /** Proposal `i` is the first one for its domain. */
  ghost predicate FirstFor(proposals: seq<Option<DomainMapping>>, i: nat, m: DomainMapping) {
    && i < |proposals| && proposals[i] == Some(m)
    && forall j :: 0 <= j < i && proposals[j].Some? ==> proposals[j].value.domain != m.domain
  }

  /** Of several proposals for a domain the first one is taken. */
  lemma {:induction false} FirstProposalTaken(mappings: seq<DomainMapping>, proposals: seq<Option<DomainMapping>>,
                                              k: nat) returns (i: nat)
    requires OneMappingADomain(mappings) && |mappings| <= k < |OfferAll(mappings, proposals)|
    ensures FirstFor(proposals, i, OfferAll(mappings, proposals)[k])
  {
    var n := |proposals| - 1;
    var before := OfferAll(mappings, proposals[..n]);
    OffersCover(mappings, proposals[..n]);
    if k < |before| {
      i := FirstProposalTaken(mappings, proposals[..n], k);
      assert forall j :: 0 <= j <= i ==> proposals[..n][j] == proposals[j];
    } else {
      i := n;
      assert !Proposes(proposals[..n], OfferAll(mappings, proposals)[k].domain);
      assert forall j :: 0 <= j < n ==> proposals[..n][j] == proposals[j];
    }
  }

  /** Flag `i` is the first set flag that stands for the domain. */
  ghost predicate FirstFlag(flags: seq<Flag>, i: nat, domain: BankingDomain) {
    && i < |flags| && flags[i].isSet
    && FlagDomain(flags[i].name).Some? && FlagDomain(flags[i].name).value.0 == domain
    && forall j :: 0 <= j < i && flags[j].isSet && FlagDomain(flags[j].name).Some? ==>
         FlagDomain(flags[j].name).value.0 != domain
  }

  /** Word `i` of the table is the first one of the path that stands for the domain. */
  ghost predicate FirstHint(pathLower: string, i: nat, domain: BankingDomain) {
    && i < |TERMINOLOGY_HINTS| && TERMINOLOGY_HINTS[i].domain == domain
    && Contains(pathLower, TERMINOLOGY_HINTS[i].keyword)
    && forall j :: 0 <= j < i && Contains(pathLower, TERMINOLOGY_HINTS[j].keyword) ==>
         TERMINOLOGY_HINTS[j].domain != domain
  }

  /**
   The evidence of a mapping is that of the first signal for its domain: the confidence the
   table gives the first such flag, and its name; or low confidence and the first such word.
   */
  lemma FirstSignalCounts(pathLower: string, flags: seq<Flag>, m: DomainMapping) returns (i: nat)
    requires m in FileDomains(pathLower, flags)
    ensures match m.source
            case ScannerResult =>
              && FirstFlag(flags, i, m.domain) && m.confidence == FlagDomain(flags[i].name).value.1
              && m.reason == "classification flag '" + flags[i].name + "' was set for this file"
            case BankingTerminology =>
              && FirstHint(pathLower, i, m.domain) && m.confidence == LowConfidence
              && m.reason == "path contains banking terminology keyword '" + TERMINOLOGY_HINTS[i].keyword + "'"
  {
    var proposals := FlagProposals(flags);
    var flagged := OfferAll([], proposals);
    var hints := HintProposals(pathLower, TERMINOLOGY_HINTS);
    var all := FileDomains(pathLower, flags);
    OffersCover([], proposals);
    OffersCover(flagged, hints);
    var k :| 0 <= k < |all| && all[k] == m;
    if k < |flagged| {
      assert all[k] == flagged[k];
      i := FirstProposalTaken([], proposals, k);
      assert forall j :: 0 <= j <= i ==> proposals[j] == FlagMapping(flags[j]);
    } else {
      i := FirstProposalTaken(flagged, hints, k);
      assert forall j :: 0 <= j <= i ==> hints[j] == HintMapping(pathLower, TERMINOLOGY_HINTS[j]);
    }
  }

  /**
   A consequence the tables hide: the word "aml" occurs in "yaml", so every YAML file is
   evidence that fraud controls were looked at.
   */
  lemma EveryYamlPathIsFraudControls(pathLower: string, flags: seq<Flag>)
    requires Contains(pathLower, "yaml")
    ensures MapsTo(FileDomains(pathLower, flags), FraudControls)
  {
    var i :| 0 <= i <= |pathLower| && OccursAt(pathLower, "yaml", i);
    assert pathLower[i + 1..][..3] == pathLower[i..][..4][1..] == "aml";
    assert OccursAt(pathLower, "aml", i + 1);
    assert TERMINOLOGY_HINTS[1] == Hint("aml", FraudControls);
    assert Hinted(pathLower, FraudControls);
    MappedExactly(pathLower, flags);
  }
}
