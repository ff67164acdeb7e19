/**
  The safe runtime projection of an active licence (projection.ts): what may reach the
  presentation, and which of the server's higher options it keeps.
*/
module LicenceProjection {
  import opened Wrappers
  import opened TextFormats
  import opened LicenceContracts

  const MAX_SAFE_TEXT: nat := 512
  const MAX_OPTION_COUNT: nat := 64
  const MAX_OPTION_TEXT: nat := 256
  const MAX_REFERENCE: nat := 128
  const MAX_SAFE_INTEGER: int := 9007199254740991

  datatype SafeOption = SafeOption(planId: string, displayName: string, safeDescription: string,
                                   eligibleVoterCap: Option<int>, unlimitedElections: Option<bool>,
                                   termKind: Option<string>, termYears: Option<int>)

  datatype SafeProjection = SafeProjection(
    identityBinding: string, networkBinding: string, licenceReference: string, planId: string,
    planFamily: string, displayName: string, safeDescription: string, effectiveFromUtc: string,
    expiresAtUtc: Option<string>, termKind: Option<string>, termYears: Option<int>,
    eligibleVoterCap: Option<int>, unlimitedElections: Option<bool>,
    allowedGovernanceOptionIds: seq<string>, catalogueVersion: string,
    higherOptions: seq<SafeOption>, enterprise: Option<EnterpriseView>)

  datatype RejectionReason =
    | UnknownPlanFamily | UnknownPlanId | UnknownGovernanceOption | IncompatibleCatalogueVersion
    | MalformedRequiredField | UnboundedValue

  datatype BuildResult = Built(projection: SafeProjection) | Refused(reason: RejectionReason)

  predicate IsKnownFamily(family: string) {
    family == "direct" || family == "veritas" || family == "enterprise"
  }

  predicate IsSafeInteger(n: Option<int>) { n.None? || 0 <= n.value <= MAX_SAFE_INTEGER }

  predicate IsOptionalText(s: Option<string>, max: nat) { s.None? || IsBounded(s.value, max) }

  predicate IsStructurallyValid(option: OptionView) {
    && option.OptionRecord?
    && IsBounded(option.planId, MAX_OPTION_TEXT)
    && IsBounded(option.displayName, MAX_OPTION_TEXT)
    && IsBounded(option.safeDescription, MAX_SAFE_TEXT)
    && IsSafeInteger(option.eligibleVoterCap)
    && IsOptionalText(option.termKind, MAX_OPTION_TEXT)
    && IsSafeInteger(option.termYears)
  }

  predicate IsValidEnterprise(e: EnterpriseView) {
    IsBounded(e.planId, MAX_SAFE_TEXT) && IsBounded(e.displayName, MAX_SAFE_TEXT)
    && IsBounded(e.safeDescription, MAX_SAFE_TEXT)
  }

  /** An entry that could be offered on its own: presentable, not the current plan, not Enterprise. */
  predicate IsOfferable(active: ActiveView, option: OptionView) {
    && option.OptionRecord?
    && IsBounded(option.planId, MAX_OPTION_TEXT)
    && IsBounded(option.displayName, MAX_OPTION_TEXT)
    && IsBounded(option.safeDescription, MAX_SAFE_TEXT)
    && option.planId != active.planId
    && !(active.enterprise.Some? && option.planId == active.enterprise.value.planId)
  }

  function ToSafeOption(option: OptionView): SafeOption
    requires option.OptionRecord?
  {
    SafeOption(option.planId, option.displayName, option.safeDescription, option.eligibleVoterCap,
               option.unlimitedElections, option.termKind, option.termYears)
  }

  /** What is offered of an entry, member by member. */
  predicate IsCopy(option: OptionView, safe: SafeOption) {
    && option.OptionRecord?
    && safe.planId == option.planId && safe.displayName == option.displayName
    && safe.safeDescription == option.safeDescription && safe.eligibleVoterCap == option.eligibleVoterCap
    && safe.unlimitedElections == option.unlimitedElections && safe.termKind == option.termKind
    && safe.termYears == option.termYears
  }

  /** Entry `i` is the first offerable entry that names its plan. */
  predicate IsKept(active: ActiveView, options: seq<OptionView>, i: nat)
    requires i < |options|
  {
    && IsOfferable(active, options[i])
    && forall j :: 0 <= j < i && IsOfferable(active, options[j]) ==> options[j].planId != options[i].planId
  }

  /** The options that survive, as a filter by `IsKept` that keeps the server's order. */
  function KeptOptions(active: ActiveView, options: seq<OptionView>): seq<SafeOption> {
    if options == [] then []
    else
      var last := |options| - 1;
      KeptOptions(active, options[..last])
      + if IsKept(active, options, last) then [ToSafeOption(options[last])] else []
  }

  function PlanIds(options: seq<SafeOption>): set<string> { set o | o in options :: o.planId }

  /** `projectSafeHigherOptions`: one pass with a set of the plans already taken. */
  method ProjectSafeHigherOptions(active: ActiveView) returns (options: seq<SafeOption>)
    ensures options == KeptOptions(active, active.higherOptions)
  {
    var seen: set<string> := {};
    options := [];
    for i := 0 to |active.higherOptions|
      invariant options == KeptOptions(active, active.higherOptions[..i])
      invariant forall id :: id in seen <==>
                             exists j :: 0 <= j < i && IsOfferable(active, active.higherOptions[j])
                                         && active.higherOptions[j].planId == id
    {
      var raw := active.higherOptions[i];
      ghost var upTo := active.higherOptions[..i + 1];
      assert upTo[..i] == active.higherOptions[..i];
      assert forall j :: 0 <= j < i ==> upTo[j] == active.higherOptions[j];
      if !raw.OptionRecord? { continue; }
      if !IsBounded(raw.planId, MAX_OPTION_TEXT) || !IsBounded(raw.displayName, MAX_OPTION_TEXT)
         || !IsBounded(raw.safeDescription, MAX_SAFE_TEXT) {
        continue;
      }
      if raw.planId == active.planId { continue; }
      if active.enterprise.Some? && raw.planId == active.enterprise.value.planId { continue; }
      if raw.planId in seen {
        assert !IsKept(active, upTo, i);
        continue;
      }
      assert IsKept(active, upTo, i);
      seen := seen + {raw.planId};
      options := options + [ToSafeOption(raw)];
    }
    assert active.higherOptions[..|active.higherOptions|] == active.higherOptions;
  }

  /**
    The kept entries stand at strictly increasing positions `at` of the server's list, all of
    them and nothing else, each copied unchanged.
  */
  ghost predicate Selects(active: ActiveView, options: seq<OptionView>, at: seq<nat>, kept: seq<SafeOption>) {
    && |at| == |kept|
    && (forall k :: 0 <= k < |at| ==>
                      at[k] < |options| && IsKept(active, options, at[k]) && IsCopy(options[at[k]], kept[k]))
    && (forall k, l :: 0 <= k < l < |at| ==> at[k] < at[l])
    && (forall i :: 0 <= i < |options| && IsKept(active, options, i) ==> i in at)
  }

  lemma KeptInPrefix(active: ActiveView, options: seq<OptionView>, n: nat, i: nat)
    requires i < n <= |options|
    ensures IsKept(active, options, i) <==> IsKept(active, options[..n], i)
  {
    assert forall j :: 0 <= j <= i ==> options[j] == options[..n][j];
  }

  lemma SelectsStep(active: ActiveView, options: seq<OptionView>, at: seq<nat>, kept: seq<SafeOption>)
    requires options != []
    requires Selects(active, options[..|options| - 1], at, kept)
    ensures var last := |options| - 1;
            if IsKept(active, options, last)
            then Selects(active, options, at + [last], kept + [ToSafeOption(options[last])])
            else Selects(active, options, at, kept)
  {
    var last := |options| - 1;
    assert IsKept(active, options, last) ==> IsCopy(options[last], ToSafeOption(options[last]));
    hide IsKept, IsCopy, ToSafeOption;
    var earlier := options[..last];
    forall i: nat | i < last
      ensures options[i] == earlier[i] && (IsKept(active, options, i) <==> IsKept(active, earlier, i))
    {
      KeptInPrefix(active, options, last, i);
    }
    if IsKept(active, options, last) {
      var at' := at + [last];
      forall i | 0 <= i < |options| && IsKept(active, options, i)
        ensures i in at'
      {
        if i == last { assert at'[|at|] == last; }
      }
    }
  }

  /** The options offered are exactly the first occurrences, in the server's order. */
  lemma {:induction false} KeptOptionsAreFirstOccurrences(active: ActiveView, options: seq<OptionView>)
    returns (at: seq<nat>)
    ensures Selects(active, options, at, KeptOptions(active, options))
  {
    if options == [] {
      at := [];
    } else {
      var last := |options| - 1;
      at := KeptOptionsAreFirstOccurrences(active, options[..last]);
      SelectsStep(active, options, at, KeptOptions(active, options[..last]));
      if IsKept(active, options, last) {
        at := at + [last];
      } else {
        assert KeptOptions(active, options) == KeptOptions(active, options[..last]);
      }
    }
  }

  /** No plan is offered twice. */
  lemma OfferedPlansAreDistinct(active: ActiveView, options: seq<OptionView>, k: nat, l: nat)
    requires k < l < |KeptOptions(active, options)|
    ensures KeptOptions(active, options)[k].planId != KeptOptions(active, options)[l].planId
  {
    var at := KeptOptionsAreFirstOccurrences(active, options);
    assert at[k] < at[l];
    assert IsKept(active, options, at[k]) && IsKept(active, options, at[l]);
  }

  /**
    A plan is offered exactly when some entry of the server names it and may be offered: the
    current plan and the Enterprise plan never are.
  */
  lemma {:induction false} OfferedPlansExactly(active: ActiveView, options: seq<OptionView>, plan: string)
    ensures plan in PlanIds(KeptOptions(active, options)) <==>
            exists i :: 0 <= i < |options| && IsOfferable(active, options[i]) && options[i].planId == plan
    ensures plan in PlanIds(KeptOptions(active, options)) ==>
              plan != active.planId && !(active.enterprise.Some? && plan == active.enterprise.value.planId)
  {
    var at := KeptOptionsAreFirstOccurrences(active, options);
    var kept := KeptOptions(active, options);
    if i :| 0 <= i < |options| && IsOfferable(active, options[i]) && options[i].planId == plan {
      var first := FirstOffer(active, options, plan, i);
      assert first in at;
      var k :| 0 <= k < |at| && at[k] == first;
      assert kept[k].planId == plan;
    }
    if o :| o in kept && o.planId == plan {
      var k :| 0 <= k < |kept| && kept[k] == o;
      assert IsOfferable(active, options[at[k]]) && options[at[k]].planId == plan;
    }
  }

  lemma {:induction false} FirstOffer(active: ActiveView, options: seq<OptionView>, plan: string, i: nat)
    returns (first: nat)
    requires i < |options| && IsOfferable(active, options[i]) && options[i].planId == plan
    ensures first <= i && IsKept(active, options, first) && options[first].planId == plan
    decreases i
  {
    if j :| 0 <= j < i && IsOfferable(active, options[j]) && options[j].planId == plan {
      first := FirstOffer(active, options, plan, j);
    } else {
      first := i;
    }
  }

  /** `buildLicenceSafeProjection`: the checks in their order, each failing closed. */
  function BuildSafeProjection(actor: string, network: string, active: ActiveView): BuildResult {
    hide *;
    if !IsBounded(active.licenceReference, MAX_REFERENCE) then Refused(MalformedRequiredField)
    else if !IsBounded(active.planId, MAX_SAFE_TEXT) || !IsBounded(active.planFamily, MAX_SAFE_TEXT) then
      Refused(MalformedRequiredField)
    else if !IsKnownFamily(active.planFamily) then Refused(UnknownPlanFamily)
    else if active.assignedCatalogueVersion != CATALOGUE_VERSION_V1 then Refused(IncompatibleCatalogueVersion)
    else if active.planId !in KNOWN_PLAN_IDS then Refused(UnknownPlanId)
    else if !IsBounded(active.displayName, MAX_SAFE_TEXT) || !IsBounded(active.safeDescription, MAX_SAFE_TEXT) then
      Refused(MalformedRequiredField)
    else if !MatchesUtcInstant(active.effectiveFromUtc)
         || (active.expiresAtUtc.Some? && !MatchesUtcInstant(active.expiresAtUtc.value)) then
      Refused(MalformedRequiredField)
    else if !IsOptionalText(active.termKind, MAX_SAFE_TEXT) || !IsSafeInteger(active.termYears)
         || !IsSafeInteger(active.eligibleVoterCap) then
      Refused(MalformedRequiredField)
    else if |active.higherOptions| > MAX_OPTION_COUNT || |active.allowedGovernanceOptionIds| > MAX_OPTION_COUNT then
      Refused(UnboundedValue)
    else if exists g :: g in active.allowedGovernanceOptionIds && !IsBounded(g, MAX_OPTION_TEXT) then
      Refused(MalformedRequiredField)
    else if |active.higherOptions| > 0 && active.higherOptions[0].OptionText? then Refused(MalformedRequiredField)
    else if exists g :: g in active.allowedGovernanceOptionIds && g !in KNOWN_GOVERNANCE_OPTIONS then
      Refused(UnknownGovernanceOption)
    else if exists o :: o in active.higherOptions && !IsStructurallyValid(o) then Refused(MalformedRequiredField)
    else if active.enterprise.Some? && !IsValidEnterprise(active.enterprise.value) then
      Refused(MalformedRequiredField)
    else
      Built(SafeProjection(
              actor, network, active.licenceReference, active.planId, active.planFamily, active.displayName,
              active.safeDescription, active.effectiveFromUtc, active.expiresAtUtc, active.termKind,
              active.termYears, active.eligibleVoterCap, active.unlimitedElections,
              active.allowedGovernanceOptionIds, active.assignedCatalogueVersion,
              KeptOptions(active, active.higherOptions), active.enterprise))
  }
}
