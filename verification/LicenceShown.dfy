/**
  What reaches the presentation (projection.ts, parser.ts): which licences of the server are shown
  at all, and that each is shown member by member as it was sent.
*/
module LicenceShown {
  import opened Wrappers
  import opened TextFormats
  import opened LicenceContracts
  import opened LicenceProjection
  import opened LicenceQueryParser

  // ----- which licences are shown -------------------------------------------------------------

  const FAMILIES := {"direct", "veritas", "enterprise"}

  const PLANS := {"hushvoting.direct.free", "hushvoting.veritas.500", "hushvoting.veritas.2000",
                  "hushvoting.veritas.10000", "hushvoting.enterprise"}

  const GOVERNANCE := {"no-customer-trustees", "trustees-3of5", "trustees-7of10", "trustees-8of13"}

  const CATALOGUE := "hushvoting-licence-catalogue/v1.0.0"

  /** A count that JavaScript represents exactly. */
  predicate IsCount(n: Option<int>) { n.Some? ==> 0 <= n.value < 0x20_0000_0000_0000 }

  predicate IsPresentableOption(option: OptionView) {
    && option.OptionRecord?
    && IsBounded(option.planId, 256) && IsBounded(option.displayName, 256) && IsBounded(option.safeDescription, 512)
    && IsCount(option.eligibleVoterCap) && IsCount(option.termYears)
    && (option.termKind.Some? ==> IsBounded(option.termKind.value, 256))
  }

  /** The members that are checked before any vocabulary is. */
  predicate HasHead(active: ActiveView) {
    IsBounded(active.licenceReference, 128) && IsBounded(active.planId, 512) && IsBounded(active.planFamily, 512)
  }

  /** The plan, its family and its catalogue are known. */
  predicate IsKnown(active: ActiveView) {
    active.planFamily in FAMILIES && active.assignedCatalogueVersion == CATALOGUE && active.planId in PLANS
  }

  /** The texts, instants and counts of the licence itself. */
  predicate HasTerms(active: ActiveView) {
    && IsBounded(active.displayName, 512) && IsBounded(active.safeDescription, 512)
    && MatchesUtcInstant(active.effectiveFromUtc)
    && (active.expiresAtUtc.Some? ==> MatchesUtcInstant(active.expiresAtUtc.value))
    && (active.termKind.Some? ==> IsBounded(active.termKind.value, 512))
    && IsCount(active.termYears) && IsCount(active.eligibleVoterCap)
  }

  predicate HasLists(active: ActiveView) {
    |active.higherOptions| <= 64 && |active.allowedGovernanceOptionIds| <= 64
  }

  predicate HasGovernanceTexts(active: ActiveView) {
    && (forall g :: g in active.allowedGovernanceOptionIds ==> IsBounded(g, 256))
    && !(active.higherOptions != [] && active.higherOptions[0].OptionText?)
  }

  predicate HasKnownGovernance(active: ActiveView) {
    forall g :: g in active.allowedGovernanceOptionIds ==> g in GOVERNANCE
  }

  predicate HasOptions(active: ActiveView) {
    && (forall o :: o in active.higherOptions ==> IsPresentableOption(o))
    && (active.enterprise.Some? ==>
          var e := active.enterprise.value;
          IsBounded(e.planId, 512) && IsBounded(e.displayName, 512) && IsBounded(e.safeDescription, 512))
  }

  /** Every member is present, bounded and known. */
  predicate IsPresentable(active: ActiveView) {
    && HasHead(active) && IsKnown(active) && HasTerms(active) && HasLists(active)
    && HasGovernanceTexts(active) && HasKnownGovernance(active) && HasOptions(active)
  }

  lemma OptionsAgree(option: OptionView)
    ensures IsStructurallyValid(option) == IsPresentableOption(option)
  {
  }

  lemma VocabularyAgrees(active: ActiveView)
    ensures active.planId in KNOWN_PLAN_IDS <==> active.planId in PLANS
    ensures IsKnownFamily(active.planFamily) <==> active.planFamily in FAMILIES
    ensures forall g: string :: g in KNOWN_GOVERNANCE_OPTIONS <==> g in GOVERNANCE
    ensures active.assignedCatalogueVersion == CATALOGUE_VERSION_V1 <==> active.assignedCatalogueVersion == CATALOGUE
  {
    PlansAgree(active.planId);
    forall g: string
      ensures g in KNOWN_GOVERNANCE_OPTIONS <==> g in GOVERNANCE
    {
      var known := KNOWN_GOVERNANCE_OPTIONS;
      assert g in known <==> g == known[0] || g == known[1] || g == known[2] || g == known[3];
    }
  }

  lemma PlansAgree(plan: string)
    ensures plan in KNOWN_PLAN_IDS <==> plan in PLANS
  {
    var known := KNOWN_PLAN_IDS;
    assert plan in known <==>
             plan == known[0] || plan == known[1] || plan == known[2] || plan == known[3] || plan == known[4];
  }

  /** The governance and option checks, as one condition each. */
  lemma ListsAgree(active: ActiveView)
    ensures (|| (exists g :: g in active.allowedGovernanceOptionIds && !IsBounded(g, MAX_OPTION_TEXT))
             || (|active.higherOptions| > 0 && active.higherOptions[0].OptionText?))
       <==> !HasGovernanceTexts(active)
    ensures (exists g :: g in active.allowedGovernanceOptionIds && g !in KNOWN_GOVERNANCE_OPTIONS)
       <==> !HasKnownGovernance(active)
    ensures (|| (exists o :: o in active.higherOptions && !IsStructurallyValid(o))
             || (active.enterprise.Some? && !IsValidEnterprise(active.enterprise.value)))
       <==> !HasOptions(active)
  {
    hide IsBounded, IsStructurallyValid, IsPresentableOption;
    VocabularyAgrees(active);
    forall o | o in active.higherOptions
      ensures IsStructurallyValid(o) == IsPresentableOption(o)
    {
      OptionsAgree(o);
    }
  }

  /**
    A licence is shown exactly if every member is present, bounded and known, and otherwise the
    reason is that of the first group that is not: only unknown vocabulary is called incompatible.
  */
  lemma PresentedExactly(actor: string, network: string, active: ActiveView)
    ensures var r := BuildSafeProjection(actor, network, active);
            && (r.Built? <==> IsPresentable(active))
            && (r == Refused(UnknownPlanFamily) <==> HasHead(active) && active.planFamily !in FAMILIES)
            && (r == Refused(IncompatibleCatalogueVersion) <==>
                  HasHead(active) && active.planFamily in FAMILIES && active.assignedCatalogueVersion != CATALOGUE)
            && (r == Refused(UnknownPlanId) <==>
                  && HasHead(active) && active.planFamily in FAMILIES && active.assignedCatalogueVersion == CATALOGUE
                  && active.planId !in PLANS)
            && (r == Refused(UnboundedValue) <==>
                  HasHead(active) && IsKnown(active) && HasTerms(active) && !HasLists(active))
            && (r == Refused(UnknownGovernanceOption) <==>
                  && HasHead(active) && IsKnown(active) && HasTerms(active) && HasLists(active)
                  && HasGovernanceTexts(active) && !HasKnownGovernance(active))
  {
    hide IsBounded, MatchesUtcInstant, KeptOptions, IsStructurallyValid, IsValidEnterprise, IsKnownFamily,
         HasGovernanceTexts, HasKnownGovernance, HasOptions;
    VocabularyAgrees(active);
    ListsAgree(active);
  }

  // ----- what is shown of them ----------------------------------------------------------------

  /** The first entry of its plan, which is neither the current plan nor the Enterprise plan. */
  predicate IsFirstOffer(active: ActiveView, i: nat)
    requires i < |active.higherOptions|
    requires forall o :: o in active.higherOptions ==> o.OptionRecord?
  {
    var plan := active.higherOptions[i].planId;
    && plan != active.planId && !(active.enterprise.Some? && active.enterprise.value.planId == plan)
    && forall j :: 0 <= j < i ==> active.higherOptions[j].planId != plan
  }

  /** The options shown are copies of the first offers, each of them once and in the server's order. */
  ghost predicate ShowsOffers(active: ActiveView, kept: seq<SafeOption>) {
    && (forall o :: o in active.higherOptions ==> o.OptionRecord?)
    && exists at: seq<nat> ::
         && |at| == |kept|
         && (forall k :: 0 <= k < |at| ==>
               && at[k] < |active.higherOptions| && IsFirstOffer(active, at[k])
               && IsCopy(active.higherOptions[at[k]], kept[k]))
         && (forall k, l :: 0 <= k < l < |at| ==> at[k] < at[l])
         && (forall i :: 0 <= i < |active.higherOptions| && IsFirstOffer(active, i) ==> i in at)
  }

  /** The projection shows this licence, for this actor and network. */
  ghost predicate Shows(p: SafeProjection, actor: string, network: string, active: ActiveView) {
    && p.identityBinding == actor
    && p.networkBinding == network
    && p.licenceReference == active.licenceReference
    && p.planId == active.planId
    && p.planFamily == active.planFamily
    && p.displayName == active.displayName
    && p.safeDescription == active.safeDescription
    && p.effectiveFromUtc == active.effectiveFromUtc
    && p.expiresAtUtc == active.expiresAtUtc
    && p.termKind == active.termKind
    && p.termYears == active.termYears
    && p.eligibleVoterCap == active.eligibleVoterCap
    && p.unlimitedElections == active.unlimitedElections
    && p.allowedGovernanceOptionIds == active.allowedGovernanceOptionIds
    && p.catalogueVersion == active.assignedCatalogueVersion
    && p.enterprise == active.enterprise
    && ShowsOffers(active, p.higherOptions)
  }

  lemma KeptIsFirstOffer(active: ActiveView, i: nat)
    requires HasOptions(active) && i < |active.higherOptions|
    ensures IsKept(active, active.higherOptions, i) == IsFirstOffer(active, i)
  {
    hide IsBounded;
    forall j | 0 <= j <= i
      ensures IsPresentableOption(active.higherOptions[j])
    {
      assert active.higherOptions[j] in active.higherOptions;
    }
  }

  lemma OffersAreShown(active: ActiveView)
    requires HasOptions(active)
    ensures ShowsOffers(active, KeptOptions(active, active.higherOptions))
  {
    hide IsBounded, KeptOptions, IsKept, IsFirstOffer, IsCopy;
    var at := KeptOptionsAreFirstOccurrences(active, active.higherOptions);
    forall i: nat | i < |active.higherOptions|
      ensures IsKept(active, active.higherOptions, i) == IsFirstOffer(active, i)
    {
      KeptIsFirstOffer(active, i);
    }
  }

  /** Whatever is built shows the licence it was built from. */
  lemma BuiltShows(actor: string, network: string, active: ActiveView)
    requires BuildSafeProjection(actor, network, active).Built?
    ensures IsPresentable(active)
    ensures Shows(BuildSafeProjection(actor, network, active).projection, actor, network, active)
  {
    hide IsBounded, MatchesUtcInstant, KeptOptions, HasOptions, ShowsOffers, HasHead, HasTerms;
    PresentedExactly(actor, network, active);
    OffersAreShown(active);
  }

  // ----- what a query establishes -------------------------------------------------------------

  /** What each answer of the server is taken for, the licences shown and refused aside. */
  lemma AnswersAreClassified(result: QueryTransportResult, actor: string, network: string)
    ensures var outcome := ParseQueryResult(result, actor, network);
            && (outcome.Ready? <==> result.Active? && IsPresentable(result.active))
            && (outcome.Ready? ==> Shows(outcome.projection, actor, network, result.active))
            && (outcome.NotAuthenticated? <==> result == Failed(Unauthenticated))
            && (outcome.TransportFailure? <==> result == Failed(DeadlineExceeded) || result == Failed(Unknown))
            && (outcome.Guidance? <==>
                  result.Failed? && result.status in {PermissionDenied, InvalidArgument, Unimplemented})
            && (outcome.LicenceUnavailable? <==>
                  || (result == Failed(AuthorityUnavailable) && outcome.code == "licence_authority_unavailable")
                  || (result.Unavailable? && IsBounded(result.code, 512) && outcome.code == result.code))
            && (outcome.NoActiveLicence? <==>
                  && result.NoActive? && result.template.transitionIntent == "baseline_free"
                  && result.template.requestedPlanId == "hushvoting.direct.free"
                  && IsBounded(result.template.observedCatalogueVersion, 512))
            && (outcome.NoActiveLicence? ==> outcome.template == result.template)
            && (outcome.Unsupported? <==>
                  && result.Active? && HasHead(result.active)
                  && (!IsKnown(result.active)
                      || (HasTerms(result.active) && HasLists(result.active) && HasGovernanceTexts(result.active)
                          && !HasKnownGovernance(result.active))))
  {
    hide IsBounded, BuildSafeProjection, HasHead, HasTerms, HasOptions, Shows, HasLists, HasGovernanceTexts,
         HasKnownGovernance;
    if result.Active? {
      PresentedExactly(actor, network, result.active);
      if BuildSafeProjection(actor, network, result.active).Built? {
        BuiltShows(actor, network, result.active);
      }
    }
  }
}
