/**
  The sealed pending record of one licence transaction (pending-transaction.ts), and the two
  builders that produce one (direct-free.ts, upgrade.ts).
*/
module LicencePending {
  import opened Wrappers
  import opened TextFormats
  import opened LicenceContracts
  import opened LicenceProjection
  import opened LicenceCanonicalText

  datatype ExactTransaction = ExactTransaction(exactJson: string, digest: string)

  datatype UpgradeBinding = UpgradeBinding(expectedCurrentTransactionId: string, expectedCurrentPlanId: string,
                                           requestedPlanId: string, observedCatalogueVersion: string)

  datatype Admission = Accepted | Pending | AlreadyExists | TerminalRejected | Uncertain

  datatype Attempt = Attempt(at: string, outcome: Admission)

  datatype RecoveryState =
    | Sealed | WaitingAccepted | WaitingPending | ConfirmedIndexed | Superseded | Retired | Unrecoverable

  datatype PendingRecord = PendingRecord(
    transaction: ExactTransaction, transactionId: string, identityBinding: string, networkBinding: string,
    createdUtc: string, attemptEvidence: seq<Attempt>, recoveryState: RecoveryState,
    upgradeBinding: Option<UpgradeBinding>)
  {
    /** `isConfirmedUpgradePendingRecord` */
    predicate IsUpgrade() { upgradeBinding.Some? }

    /** The record without its attempt log: id, exact bytes, digest, bindings and purpose. */
    function Core(): PendingRecord { this.(attemptEvidence := [], recoveryState := Sealed) }
  }

  /** One transaction identity minted by the authority. */
  datatype Identity = Identity(transactionId: string, timestampUtc: string)

  datatype Intent = BaselineIntent | UpgradeIntent

  datatype UpgradeRefusal =
    | MalformedCurrentReference | MalformedPlanId | SelfTargetOrDirectFree | StaleOrUnboundedCatalogue
    | MalformedTransactionId | AliasNewTransaction | MalformedTimestamp

  datatype SealResult<R> = Staged(record: PendingRecord) | NotStaged(refusal: R)

  const MAX_PLAN_ID: nat := 128
  const MAX_CATALOGUE: nat := 256

  /** `isBoundedPlanId`; None stands for a value that is not a text. */
  predicate IsBoundedPlanId(value: Option<string>) { value.Some? && IsBounded(value.value, MAX_PLAN_ID) }

  function Stage(actor: string, network: string, digestOf: string -> string, identity: Identity,
                 payload: Payload, binding: Option<UpgradeBinding>): PendingRecord
  {
    var text := UnsignedTransaction(Web, identity.transactionId, identity.timestampUtc, payload);
    PendingRecord(ExactTransaction(text, digestOf(text)), identity.transactionId, actor, network,
                  identity.timestampUtc, [], Sealed, binding)
  }

  /** The baseline record of `buildDirectFreeUnsignedTransaction` and `handleNoActive`. */
  function StageBaseline(actor: string, network: string, digestOf: string -> string, identity: Identity,
                         template: TemplateView): SealResult<()>
  {
    if template.transitionIntent != INTENT_BASELINE_FREE || template.requestedPlanId != PLAN_DIRECT_FREE
       || !IsBounded(template.observedCatalogueVersion, MAX_CATALOGUE)
    then NotStaged(())
    else Staged(Stage(actor, network, digestOf, identity, Baseline(template.observedCatalogueVersion), None))
  }

  /** Which inputs `buildConfirmedUpgradeUnsignedTransaction` refuses, in its order. */
  function RefuseUpgrade(binding: UpgradeBinding, identity: Identity): Option<UpgradeRefusal> {
    var current := binding.expectedCurrentTransactionId;
    if !IsBounded(current, MAX_PLAN_ID) || !MatchesUuid(current) then Some(MalformedCurrentReference)
    else if !IsBounded(binding.expectedCurrentPlanId, MAX_PLAN_ID) || !IsBounded(binding.requestedPlanId, MAX_PLAN_ID)
    then Some(MalformedPlanId)
    else if binding.requestedPlanId == binding.expectedCurrentPlanId || binding.requestedPlanId == PLAN_DIRECT_FREE
    then Some(SelfTargetOrDirectFree)
    else if binding.observedCatalogueVersion != CATALOGUE_VERSION_V1 then Some(StaleOrUnboundedCatalogue)
    else if !IsBounded(identity.transactionId, MAX_PLAN_ID) || !MatchesUuid(identity.transactionId)
    then Some(MalformedTransactionId)
    else if identity.transactionId == current then Some(AliasNewTransaction)
    else if !IsBounded(identity.timestampUtc, 64) || !MatchesUtcInstant(identity.timestampUtc)
    then Some(MalformedTimestamp)
    else None
  }

  /** The upgrade record of `sealAndSubmitConfirmedUpgrade`. */
  function StageUpgrade(actor: string, network: string, digestOf: string -> string, identity: Identity,
                        binding: UpgradeBinding): SealResult<UpgradeRefusal>
  {
    var refusal := RefuseUpgrade(binding, identity);
    if refusal.Some? then NotStaged(refusal.value)
    else
      Staged(Stage(actor, network, digestOf, identity,
                   Upgrade(binding.requestedPlanId, binding.observedCatalogueVersion,
                           binding.expectedCurrentTransactionId, binding.expectedCurrentPlanId),
                   Some(binding)))
  }

  /** The binding that an upgrade of `truth` to `plan` must carry. */
  function BindingFor(truth: SafeProjection, plan: string): UpgradeBinding {
    UpgradeBinding(truth.licenceReference, truth.planId, plan, truth.catalogueVersion)
  }

  /** `isPendingRecordPurposeCoherent`, over the transition intent read from the exact bytes. */
  predicate IsPurposeCoherent(intent: Option<Intent>, record: PendingRecord) {
    match intent
    case Some(UpgradeIntent) => record.upgradeBinding.Some?
    case Some(BaselineIntent) => record.upgradeBinding.None?
    case None => false
  }

  /**
    The builder accepts exactly these inputs, and otherwise names the first condition that fails, in
    this order.
  */
  lemma UpgradeRefusedExactly(binding: UpgradeBinding, identity: Identity)
    ensures var refusal := RefuseUpgrade(binding, identity);
            var current := binding.expectedCurrentTransactionId;
            var reference := IsBounded(current, 128) && MatchesUuid(current);
            var plans := IsBounded(binding.expectedCurrentPlanId, 128) && IsBounded(binding.requestedPlanId, 128);
            var target := binding.requestedPlanId != binding.expectedCurrentPlanId
                          && binding.requestedPlanId != "hushvoting.direct.free";
            var catalogue := binding.observedCatalogueVersion == "hushvoting-licence-catalogue/v1.0.0";
            var id := IsBounded(identity.transactionId, 128) && MatchesUuid(identity.transactionId);
            var alias := identity.transactionId != current;
            var instant := IsBounded(identity.timestampUtc, 64) && MatchesUtcInstant(identity.timestampUtc);
            && (refusal.None? <==> reference && plans && target && catalogue && id && alias && instant)
            && (refusal == Some(MalformedCurrentReference) <==> !reference)
            && (refusal == Some(MalformedPlanId) <==> reference && !plans)
            && (refusal == Some(SelfTargetOrDirectFree) <==> reference && plans && !target)
            && (refusal == Some(StaleOrUnboundedCatalogue) <==> reference && plans && target && !catalogue)
            && (refusal == Some(MalformedTransactionId) <==> reference && plans && target && catalogue && !id)
            && (refusal == Some(AliasNewTransaction) <==> reference && plans && target && catalogue && id && !alias)
  {
    hide IsBounded, MatchesUuid, MatchesUtcInstant;
  }

  /** A baseline is staged from a Direct Free template with a bounded catalogue, and nothing else. */
  lemma BaselineStagedExactly(actor: string, network: string, digestOf: string -> string, identity: Identity,
                              template: TemplateView)
    ensures StageBaseline(actor, network, digestOf, identity, template).Staged? <==>
              && template.transitionIntent == "baseline_free" && template.requestedPlanId == "hushvoting.direct.free"
              && IsBounded(template.observedCatalogueVersion, 256)
  {
    hide IsBounded;
  }

  /** The exact bytes decide: a record is coherent exactly if it is bound as an upgrade when they say so. */
  lemma CoherentExactly(intent: Option<Intent>, record: PendingRecord)
    ensures IsPurposeCoherent(intent, record) <==>
              intent.Some? && (record.upgradeBinding.Some? <==> intent == Some(UpgradeIntent))
  {
  }
}
