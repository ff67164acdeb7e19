/**
  The frozen vocabulary of the licence protocol: plan and catalogue identifiers, the closed
  result of one entitlement query, and the views that it carries (contracts.ts).
*/
module LicenceContracts {
  import opened Wrappers

  const PLAN_DIRECT_FREE := "hushvoting.direct.free"
  const CATALOGUE_VERSION_V1 := "hushvoting-licence-catalogue/v1.0.0"
  const PAYLOAD_KIND := "71370664-5eb4-4ce9-b96a-d7e7ffe53db5"
  const INTENT_BASELINE_FREE := "baseline_free"
  const INTENT_CONFIRMED_UPGRADE := "confirmed_upgrade"

  const KNOWN_PLAN_IDS: seq<string> :=
    [PLAN_DIRECT_FREE, "hushvoting.veritas.500", "hushvoting.veritas.2000",
     "hushvoting.veritas.10000", "hushvoting.enterprise"]

  const KNOWN_GOVERNANCE_OPTIONS: seq<string> :=
    ["no-customer-trustees", "trustees-3of5", "trustees-7of10", "trustees-8of13"]

  datatype TransportStatus =
    | Unauthenticated | PermissionDenied | InvalidArgument | Unimplemented
    | DeadlineExceeded | AuthorityUnavailable | Unknown

  /** One entry of the server's list of higher options, which may not be a record at all. */
  datatype OptionView =
    | OptionText
    | OptionOther
    | OptionRecord(planId: string, displayName: string, safeDescription: string,
                   eligibleVoterCap: Option<int>, unlimitedElections: Option<bool>,
                   termKind: Option<string>, termYears: Option<int>)

  datatype EnterpriseView = EnterpriseView(planId: string, displayName: string, safeDescription: string)

  datatype ActiveView = ActiveView(
    licenceReference: string, planId: string, planFamily: string, displayName: string,
    safeDescription: string, eligibleVoterCap: Option<int>, unlimitedElections: Option<bool>,
    termKind: Option<string>, termYears: Option<int>, effectiveFromUtc: string,
    expiresAtUtc: Option<string>, assignedCatalogueVersion: string,
    allowedGovernanceOptionIds: seq<string>, higherOptions: seq<OptionView>,
    enterprise: Option<EnterpriseView>)

  datatype TemplateView = TemplateView(transitionIntent: string, requestedPlanId: string,
                                       observedCatalogueVersion: string)

  /** The closed result of one query; `Malformed` stands for every envelope of another shape. */
  datatype QueryTransportResult =
    | Failed(status: TransportStatus)
    | Active(active: ActiveView)
    | NoActive(template: TemplateView)
    | Unavailable(code: string)
    | Malformed
}
