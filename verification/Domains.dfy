/** The 16 approved banking domains and their stored values (core/domains.py). */
module Domains {
  import opened Prelude

  datatype BankingDomain =
    | CoreBanking
    | Payments
    | CreditLending
    | InvestmentsTrading
    | OnboardingIdentityAccess
    | TransactionProcessingReporting
    | FraudControls
    | PrivacyDataProtection
    | ApplicationSecurity
    | InfrastructureApiSecurity
    | DatabaseControlsSod
    | ChangeManagement
    | MonitoringObservability
    | BusinessContinuityDr
    | ModelAiGovernance
    | HumanApprovalAuditability

  const ALL_DOMAINS: seq<BankingDomain> := [
    CoreBanking, Payments, CreditLending, InvestmentsTrading, OnboardingIdentityAccess,
    TransactionProcessingReporting, FraudControls, PrivacyDataProtection, ApplicationSecurity,
    InfrastructureApiSecurity, DatabaseControlsSod, ChangeManagement, MonitoringObservability,
    BusinessContinuityDr, ModelAiGovernance, HumanApprovalAuditability]

  function Value(domain: BankingDomain): string {
    match domain
    case CoreBanking => "core_banking"
    case Payments => "payments"
    case CreditLending => "credit_lending"
    case InvestmentsTrading => "investments_trading"
    case OnboardingIdentityAccess => "onboarding_identity_access"
    case TransactionProcessingReporting => "transaction_processing_reporting"
    case FraudControls => "fraud_controls"
    case PrivacyDataProtection => "privacy_data_protection"
    case ApplicationSecurity => "application_security"
    case InfrastructureApiSecurity => "infrastructure_api_security"
    case DatabaseControlsSod => "database_controls_sod"
    case ChangeManagement => "change_management"
    case MonitoringObservability => "monitoring_observability"
    case BusinessContinuityDr => "business_continuity_dr"
    case ModelAiGovernance => "model_ai_governance"
    case HumanApprovalAuditability => "human_approval_auditability"
  }

  function Position(domain: BankingDomain): (i: nat)
    ensures i < |ALL_DOMAINS| && ALL_DOMAINS[i] == domain
  {
    match domain
    case CoreBanking => 0
    case Payments => 1
    case CreditLending => 2
    case InvestmentsTrading => 3
    case OnboardingIdentityAccess => 4
    case TransactionProcessingReporting => 5
    case FraudControls => 6
    case PrivacyDataProtection => 7
    case ApplicationSecurity => 8
    case InfrastructureApiSecurity => 9
    case DatabaseControlsSod => 10
    case ChangeManagement => 11
    case MonitoringObservability => 12
    case BusinessContinuityDr => 13
    case ModelAiGovernance => 14
    case HumanApprovalAuditability => 15
  }

  lemma DomainsAreDistinct()
    ensures Distinct(ALL_DOMAINS) && |ALL_DOMAINS| == 16
    ensures forall domain :: domain in ALL_DOMAINS
  {
    forall domain ensures domain in ALL_DOMAINS {
      assert ALL_DOMAINS[Position(domain)] == domain;
    }
  }

  /** Length and first letter already tell the sixteen stored values apart. */
  lemma ValuesAreDistinct(a: BankingDomain, b: BankingDomain)
    requires Value(a) == Value(b)
    ensures a == b
  {
    var n, c := |Value(a)|, Value(a)[0];
    match a
    case CreditLending => assert n == 14 && c == 'c';
    case FraudControls => assert n == 14 && c == 'f';
    case InvestmentsTrading => assert n == 19 && c == 'i';
    case ModelAiGovernance => assert n == 19 && c == 'm';
    case InfrastructureApiSecurity => assert n == 27 && c == 'i';
    case HumanApprovalAuditability => assert n == 27 && c == 'h';
    case _ =>
  }
}
