/** The closed parser and classification of query results (parser.ts, policy.ts). */
module LicenceQueryParser {
  import opened Wrappers
  import opened TextFormats
  import opened LicenceContracts
  import opened LicenceProjection

  datatype QueryOutcome =
    | Ready(projection: SafeProjection)
    | NoActiveLicence(template: TemplateView)
    | LicenceUnavailable(code: string)
    | NotAuthenticated
    | Guidance           // permission denied, invalid argument or unimplemented
    | TransportFailure
    | Unsupported(reason: RejectionReason)
    | MalformedResponse

  predicate IsCompatibilityReason(reason: RejectionReason) {
    || reason.UnknownPlanFamily? || reason.UnknownPlanId?
    || reason.UnknownGovernanceOption? || reason.IncompatibleCatalogueVersion?
  }

  /** `parseEntitlementQueryResult`; the three terminal statuses share one class in `classifyQueryOutcome`. */
  function ParseQueryResult(result: QueryTransportResult, actor: string, network: string): QueryOutcome {
    match result
    case Failed(status) =>
      (match status
       case Unauthenticated => NotAuthenticated
       case PermissionDenied => Guidance
       case InvalidArgument => Guidance
       case Unimplemented => Guidance
       case AuthorityUnavailable => LicenceUnavailable("licence_authority_unavailable")
       case DeadlineExceeded => TransportFailure
       case Unknown => TransportFailure)
    case Active(active) =>
      (match BuildSafeProjection(actor, network, active)
       case Built(projection) => Ready(projection)
       case Refused(reason) => if IsCompatibilityReason(reason) then Unsupported(reason) else MalformedResponse)
    case NoActive(template) =>
      if template.transitionIntent != INTENT_BASELINE_FREE || template.requestedPlanId != PLAN_DIRECT_FREE
         || !IsBounded(template.observedCatalogueVersion, MAX_SAFE_TEXT)
      then MalformedResponse else NoActiveLicence(template)
    case Unavailable(code) =>
      if IsBounded(code, MAX_SAFE_TEXT) then LicenceUnavailable(code) else MalformedResponse
    case Malformed => MalformedResponse
  }
}
