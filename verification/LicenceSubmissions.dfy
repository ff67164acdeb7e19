/**
  What each admission of a submission decides, what a refused authentication leads to, and when a
  confirmation seals its upgrade and hands it over.
*/
module LicenceSubmissions {
  import opened Wrappers
  import opened LicenceProjection
  import opened LicenceQueryParser
  import opened LicencePending
  import opened LicenceCanonicalText
  import opened LicenceIntent
  import opened LicenceSession
  import opened LicenceTrace
  import opened LicenceSessionSafety
  import opened LicenceClock
  import opened LicenceLeaves
  import opened LicenceGuarantees
  import opened LicenceDeeds
  import opened LicenceOutcomes

  // ----- admissions ---------------------------------------------------------------------------

  /** The recovery state after an admission. */
  function StateAfter(state: RecoveryState, admission: Admission): RecoveryState {
    if admission == TerminalRejected then Unrecoverable
    else if state != Sealed then state
    else if admission == Accepted then WaitingAccepted
    else WaitingPending
  }

  /** The record with one more line of evidence: when the answer came, and what it was. */
  ghost predicate Notes(env: Env, s: Session, record: PendingRecord, admission: Admission, noted: PendingRecord) {
    && noted.Core() == record.Core()
    && noted.attemptEvidence == record.attemptEvidence + [Attempt(env.isoOf(env.clock(s.ports.clockReads)), admission)]
    && noted.recoveryState == StateAfter(record.recoveryState, admission)
  }

  /** The log once the admission is noted; the journal may refuse the note. */
  ghost function NotedLog(env: Env, s: Session, record: PendingRecord, noted: PendingRecord): Trace {
    var sent := Then(Then(s.trace, Marked), HandedOver(s, record));
    if env.saveOk(s.ports.saves) then Then(sent, SavedAgain(noted)) else sent
  }

  /** What an admission decides at once, and which ask a question. */
  ghost predicate Decides(env: Env, s: Session, record: PendingRecord, noted: PendingRecord, r: Session)
    requires Arrives(s)
  {
    var log := NotedLog(env, s, record, noted);
    var calm := r.upgrade == s.upgrade.(delayed := false);
    var waiting := if record.upgradeBinding.Some? && s.projection.Some? then EntitlementReady else AwaitingIndex;
    match s.ports.tape[0].admission
    case Accepted =>
      && r.trace == log && r.pending.record == Some(noted) && calm
      && r.phase == waiting && r.lastOutcomeCode == AcceptedCode
    case Pending =>
      && r.trace == log && r.pending.record == Some(noted) && calm
      && r.phase == waiting && r.lastOutcomeCode == PendingCode
    case Uncertain =>
      && r.trace == log && r.pending.record == Some(noted) && calm
      && r.phase == waiting && r.lastOutcomeCode == SubmitUncertain
    case AlreadyExists =>
      && Extends(Then(log, Asked), r.trace)
      && (|s.ports.tape| == 1 ==>
            && r.pending.record == Some(noted) && calm
            && r.phase == Resolving && r.lastOutcomeCode == AlreadyExistsQueryNow)
    case TerminalRejected =>
      if record.upgradeBinding.Some? then
        && Extends(Then(log, Asked), r.trace)
        && (|s.ports.tape| == 1 ==>
              && r.pending.record == Some(noted) && calm
              && r.phase == BaselineSubmitting && r.lastOutcomeCode == UpgradeTerminalRejectedRequery)
      else
        && r.trace == log && r.pending.record == Some(noted) && calm && r.phase == EntitlementRepair
        && r.lastOutcomeCode == TerminalRejectedCode
  }

  /** The session once its submission was admitted and noted. */
  lemma AdmissionArrives(env: Env, s: Session, record: PendingRecord)
    requires Arrives(s) && IsPurposeCoherent(env.intentOf(record.transaction.exactJson), record)
    ensures var sent := Send(s, record);
            var back := sent.(ports := s.ports.(tape := s.ports.tape[1..]));
            && SpecSubmitPending(env, s, record) == SpecAfterAdmission(env, back, record, s.ports.tape[0].admission)
            && SpecAwait(sent) == back
  {
    hide IsPurposeCoherent, SpecAfterAdmission, Load;
  }

  /**
    After a submission that was answered, the evidence is noted and saved; "accepted", "pending" and
    an uncertain answer wait, a rejected baseline needs repair, and a transaction that exists already
    or a rejected upgrade leads to a query at once.
  */
  lemma AdmissionsDecide(env: Env, s: Session, record: PendingRecord)
    returns (noted: PendingRecord)
    requires Arrives(s) && IsPurposeCoherent(env.intentOf(record.transaction.exactJson), record)
    requires NothingDue(s) && s.pending.id.Some?
    ensures Notes(env, s, record, s.ports.tape[0].admission, noted)
    ensures Decides(env, s, record, noted, SpecSubmitPending(env, s, record))
  {
    var admission := s.ports.tape[0].admission;
    AdmissionArrives(env, s, record);
    var back := Send(s, record).(ports := s.ports.(tape := s.ports.tape[1..]));
    noted := AfterAttempt(env, back, record, admission);
    var decided := Landed(SpecAdmission(SpecRecordAttempt(env, back, record, admission), record, admission));
    assert decided.trace == NotedLog(env, s, record, noted) by { hide Load, Store; }
    hide IsPurposeCoherent, SpecRunFreshQuery, Load, Store, SpecReconcileRejected, SpecSubmitPending;
    if admission == AlreadyExists {
      var asking := decided.(control := decided.control.(needsImmediateQuery := false));
      AskFollows(env, asking, FOR_ALREADY_EXISTS);
      var queried := SpecRunFreshQuery(env, asking, FOR_ALREADY_EXISTS);
      QueryLeaves(env, asking, FOR_ALREADY_EXISTS);
      if |s.ports.tape| == 1 { UnansweredQuery(env, asking, FOR_ALREADY_EXISTS); }
      assert SpecAfterAdmission(env, back, record, admission) == queried;
    } else if admission == TerminalRejected && record.IsUpgrade() {
      var asking := decided.(upgrade := decided.upgrade.(rejectedRequery := false));
      RejectionAsks(env, asking);
      if |s.ports.tape| == 1 { UnansweredRejection(env, asking); }
      assert SpecAfterAdmission(env, back, record, admission) == SpecReconcileRejected(env, asking);
    }
  }

  /** A query whose answer never comes changes nothing but the log and the count of attempts. */
  lemma UnansweredQuery(env: Env, s: Session, reason: Reason)
    requires !s.control.inFlight && !s.control.cancelled && s.ports.tape == []
    ensures SpecRunFreshQuery(env, s, reason)
         == s.(control := s.control.(attemptCount := s.control.attemptCount + 1, thrown := true),
               trace := Then(s.trace, Asked))
  {
    hide SpecApplyOutcome, ParseQueryResult;
    var flying := s.(control := s.control.(inFlight := true));
    var asked := SpecAsk(flying);
    assert asked == flying.(control := flying.control.(attemptCount := s.control.attemptCount + 1, thrown := true),
                            trace := Then(s.trace, Asked));
    assert SpecQueryAttempt(env, flying, reason, 1) == asked;
  }

  lemma UnansweredRejection(env: Env, s: Session)
    requires !s.control.inFlight && !s.control.cancelled && s.ports.tape == []
    ensures SpecReconcileRejected(env, s)
         == s.(control := s.control.(attemptCount := s.control.attemptCount + 1, thrown := true),
               trace := Then(s.trace, Asked))
  {
    hide SpecRunFreshQuery, SpecStaleRejection;
    UnansweredQuery(env, s, FOR_UPGRADE_REJECTED);
  }

  /** A record whose bytes do not declare its purpose is not submitted, and the session needs repair. */
  lemma IncoherentIsRefused(env: Env, s: Session, record: PendingRecord)
    requires !s.control.cancelled && !IsPurposeCoherent(env.intentOf(record.transaction.exactJson), record)
    ensures var r := SpecSubmitPending(env, s, record);
            && r.trace == s.trace && r.ports == s.ports && r.phase == EntitlementRepair
            && r.lastOutcomeCode == UpgradeRecordMissingBinding
  {
    hide IsPurposeCoherent;
  }

  /** A submission whose answer never comes stays submitting, with its record and the licence shown. */
  lemma UnansweredSubmission(env: Env, s: Session, record: PendingRecord)
    requires !s.control.cancelled && IsPurposeCoherent(env.intentOf(record.transaction.exactJson), record)
    requires s.ports.tape == []
    ensures var r := SpecSubmitPending(env, s, record);
            && r.trace == Then(Then(s.trace, Marked), HandedOver(s, record)) && r.phase == BaselineSubmitting
            && r.pending == s.pending && r.projection == s.projection && !r.control.inFlight && r.control.thrown
            && r.upgrade == s.upgrade.(delayed := false)
  {
    hide IsPurposeCoherent, SpecAfterAdmission, Load;
  }

  /** A query that may run adds its question to the log. */
  lemma AskFollows(env: Env, s: Session, reason: Reason)
    requires !s.control.inFlight && !s.control.cancelled
    ensures Extends(Then(s.trace, Asked), SpecRunFreshQuery(env, s, reason).trace)
  {
    hide SpecQueryAttempt, SpecAsk, Continues;
    var flying := s.(control := s.control.(inFlight := true));
    AttemptContinues(env, flying, reason, 1);
    AskedFirst(flying);
    ContinuesExtends(SpecAsk(flying), SpecQueryAttempt(env, flying, reason, 1));
    ExtendsTransitive(Then(s.trace, Asked), SpecAsk(flying).trace, SpecQueryAttempt(env, flying, reason, 1).trace);
  }

  lemma RejectionAsks(env: Env, s: Session)
    requires !s.control.inFlight && !s.control.cancelled
    ensures Extends(Then(s.trace, Asked), SpecReconcileRejected(env, s).trace)
  {
    hide SpecRunFreshQuery, SpecResolve;
    AskFollows(env, s, FOR_UPGRADE_REJECTED);
    var queried := SpecRunFreshQuery(env, s, FOR_UPGRADE_REJECTED);
    ResolveIsQuiet(env, queried, Retired);
    ExtendsTransitive(Then(s.trace, Asked), queried.trace, SpecResolve(env, queried, Retired).trace);
  }

  // ----- a refused authentication -------------------------------------------------------------

  /**
    The first refused authentication asks once more, the second one locks the session out; a query
    for the reason "retry" is not asked again.
  */
  lemma RefusalAsksOnce(env: Env, s: Session, reason: Reason)
    requires Arrives(s) && !s.control.inFlight && NextOutcome(env, s).NotAuthenticated?
    ensures var r := SpecRunFreshQuery(env, s, reason);
            var next := s.(ports := s.ports.(tape := s.ports.tape[1..], clockReads := s.ports.clockReads + 1),
                           trace := Heard(env, s));
            if reason == "retry" then r.trace == Heard(env, s) && IsLockedOut(r)
            else
              && Extends(Then(Heard(env, s), Asked), r.trace)
              && (Arrives(next) && NextOutcome(env, next).NotAuthenticated? ==>
                    r.trace == Heard(env, next) && IsLockedOut(r))
  {
    hide ParseQueryResult, SpecApplyOutcome;
    var flying := s.(control := s.control.(inFlight := true));
    AwaitArrives(s);
    var back := SpecAsk(flying);
    var done := Answer(env, back, s.ports.tape[0].query, NextOutcome(env, s));
    var again := CountRefusals(done, 1).(lastOutcomeCode := UnauthenticatedRetryOnce);
    if reason != FOR_RETRY {
      assert SpecRunFreshQuery(env, s, reason) == Landed(SpecQueryAttempt(env, again, reason, 2));
      SecondAttempt(env, again, reason);
    }
  }

  /** Nothing is shown, nothing is remembered, and the lock is that of a refused session. */
  predicate IsLockedOut(s: Session) {
    && s.phase == LockedOut && s.projection.None? && s.pending == NOTHING_PENDING
    && s.control.consecutiveUnauthenticated == 2 && s.lastOutcomeCode == UnauthenticatedForcedLock
  }

  lemma SecondAttempt(env: Env, s: Session, reason: Reason)
    requires s.control.inFlight && !s.control.cancelled && !s.control.thrown
    ensures var r := SpecQueryAttempt(env, s, reason, 2);
            && Extends(Then(s.trace, Asked), r.trace)
            && (Arrives(s) && NextOutcome(env, s).NotAuthenticated? ==> r.trace == Heard(env, s) && IsLockedOut(r))
  {
    hide ParseQueryResult, SpecApplyOutcome, Continues;
    AttemptContinues(env, s, reason, 2);
    AskedFirst(s);
    ContinuesExtends(SpecAsk(s), SpecQueryAttempt(env, s, reason, 2));
    ExtendsTransitive(Then(s.trace, Asked), SpecAsk(s).trace, SpecQueryAttempt(env, s, reason, 2).trace);
    if Arrives(s) { AwaitArrives(s); }
  }

  // ----- a rejected upgrade -------------------------------------------------------------------

  /**
    A rejected upgrade whose query reports the expected old licence is retired and reviewed as
    stale; nothing of it stays in memory or in the journal, and the old licence is shown.
  */
  lemma RejectedUpgradeRetires(env: Env, s: Session)
    requires Inv(env, s) && MintsFresh(env) && !s.control.inFlight && Arrives(s) && HasLiveUpgrade(s)
    requires NextOutcome(env, s).Ready?
    requires NextOutcome(env, s).projection.licenceReference
          == s.pending.record.value.upgradeBinding.value.expectedCurrentTransactionId
    ensures var r := SpecReconcileRejected(env, s);
            && r.phase == EntitlementReady && r.projection == Some(NextOutcome(env, s).projection)
            && r.pending == NOTHING_PENDING && r.ports.journal == []
            && r.upgrade.terminal == Some(Stale(StaleRejection)) && !r.upgrade.delayed
            && r.lastOutcomeCode == UpgradeStaleRejection
            && r.trace == ResolvedLog(env, s, Heard(env, s), s.pending.record.value.transactionId, Retired)
  {
    var active := NextOutcome(env, s).projection;
    QueryUses(env, s, FOR_UPGRADE_REJECTED);
    UsingKeeps(env, s);
    LiveIsHeld(env, s);
    var u := Using(env, s);
    assert VerdictOfCall(u.trace) == Some(Ready(active));
    ReconciliationTable(env, u, active);
    RunFreshQueryKeeps(env, s, FOR_UPGRADE_REJECTED);
    var queried := SpecRunFreshQuery(env, s, FOR_UPGRADE_REJECTED);
    ReadyStaysUndisturbed(env, u, active);
    hide SpecReady, Inv, Base, SpecRunFreshQuery, ParseQueryResult, Using;
    InvGivesBase(env, queried);
    assert queried.pending.id.Some? by { PendingHasId(env, queried); }
    ResolveEmpties(env, queried, Retired);
    ResolutionIsLogged(env, queried, Retired);
  }

  lemma InvGivesBase(env: Env, s: Session)
    requires Inv(env, s)
    ensures Base(env, s)
  {
  }

  lemma LiveIsHeld(env: Env, s: Session)
    requires Inv(env, s) && HasLiveUpgrade(s)
    ensures HeldNow(s.trace) == Some(s.pending.record.value.Core()) && HeldNow(s.trace).value.IsUpgrade()
  {
    hide EntryOk;
  }

  lemma ReadyStaysUndisturbed(env: Env, s: Session, active: SafeProjection)
    ensures var r := SpecReady(env, s, active);
            r.control.cancelled == s.control.cancelled && r.control.thrown == s.control.thrown
  {
    hide Load, LoadForIdentity, Save, Remove;
  }

  // ----- confirming an upgrade ----------------------------------------------------------------

  /** With nothing held, an active licence is shown and nothing else changes. */
  lemma ReadyIsPlain(env: Env, s: Session, active: SafeProjection)
    requires Base(env, s) && HeldNow(s.trace).None?
    ensures SpecReady(env, s, active)
         == s.(control := s.control.(rejectionRefreshOnly := false), projection := Some(active),
               phase := EntitlementReady, lastOutcomeCode := ReadyCode)
  {
    hide EntryOk;
    FindBoundIsHeld(env, s);
    hide SpecFindBound, SpecResolve;
  }

  /** The upgrade of the licence shown to a plan, under the next identity. */
  function NextUpgrade(env: Env, s: Session, current: SafeProjection, plan: string): PendingRecord {
    NextRecord(env, s, Upgrade(plan, current.catalogueVersion, current.licenceReference, current.planId),
               Some(UpgradeBinding(current.licenceReference, current.planId, plan, current.catalogueVersion)))
  }

  /** What a confirmation answered with the licence `current` does. */
  ghost predicate Confirms(env: Env, s: Session, current: SafeProjection, plan: string, r: Session)
    requires Arrives(s) && s.projection.Some?
  {
    var displayed := s.projection.value;
    var binding := UpgradeBinding(current.licenceReference, current.planId, plan, current.catalogueVersion);
    var refusal := RefuseUpgrade(binding, env.mint(s.ports.minted));
    var upgrade := NextUpgrade(env, s, current, plan);
    var heard := Heard(env, s);
    if current.licenceReference != displayed.licenceReference || current.planId != displayed.planId
       || current.planId == plan then
      r.trace == heard && r.upgrade.terminal == Some(Stale(CurrentChanged)) && r.phase == EntitlementReady
    else if !exists o :: o in current.higherOptions && o.planId == plan then
      r.trace == heard && r.upgrade.terminal == Some(Stale(CatalogueChanged)) && r.phase == EntitlementReady
    else if refusal.Some? then
      r.trace == heard && r.phase == EntitlementRepair && r.lastOutcomeCode == UpgradeTemplateRejected(refusal.value)
    else if !env.saveOk(s.ports.saves) then
      r.trace == heard && r.phase == EntitlementRepair && r.lastOutcomeCode == JournalUnavailable
    else
      Extends(Then(Then(Then(heard, SealedNew(upgrade)), Marked), Submitted(upgrade, Some(upgrade))), r.trace)
  }

  lemma FreshConfirms(env: Env, s: Session, shown: Session, current: SafeProjection, plan: string)
    requires Arrives(s) && s.projection.Some? && ReadsIntents(env.intentOf)
    requires shown.phase == EntitlementReady && shown.projection == Some(current) && shown.pending == NOTHING_PENDING
    requires shown.trace == Heard(env, s) && shown.ports.journal == [] && !shown.control.cancelled
    requires shown.ports.minted == s.ports.minted && shown.ports.saves == s.ports.saves
    ensures Confirms(env, s, current, plan, SpecConfirmFresh(env, shown, s.projection.value, plan))
  {
    hide RefuseUpgrade, SpecSubmitPending, IsPurposeCoherent, UnsignedTransaction, Heard, Store, ReadsIntents;
    var upgrade := NextUpgrade(env, s, current, plan);
    StagedIsCoherent(env.intentOf, env.actor, env.network, env.digestOf, env.mint(s.ports.minted),
                     Upgrade(plan, current.catalogueVersion, current.licenceReference, current.planId),
                     Some(BindingFor(current, plan)));
    StageUpgradeIs(env, s, current, plan);
    assert plan in PlanIds(current.higherOptions) <==> exists o :: o in current.higherOptions && o.planId == plan;
    if env.saveOk(s.ports.saves) {
      FirstSealIsShown(env, Mint(shown), upgrade);
      SubmitHandsOver(env, Seal(env, Mint(shown), upgrade), upgrade);
    }
  }

  lemma StageUpgradeIs(env: Env, s: Session, current: SafeProjection, plan: string)
    ensures var refusal := RefuseUpgrade(BindingFor(current, plan), env.mint(s.ports.minted));
            StageUpgrade(env.actor, env.network, env.digestOf, env.mint(s.ports.minted), BindingFor(current, plan))
            == if refusal.Some? then NotStaged(refusal.value) else Staged(NextUpgrade(env, s, current, plan))
    ensures BindingFor(current, plan)
         == UpgradeBinding(current.licenceReference, current.planId, plan, current.catalogueVersion)
  {
    hide RefuseUpgrade, UnsignedTransaction;
  }

  /**
    A confirmation that may run asks first. If the answer is the licence displayed, the plan is still
    offered, the builder accepts it and the journal takes it, then the upgrade is sealed and handed
    over right after the answer; otherwise nothing is sealed, and the outcome names the cause.
  */
  lemma ConfirmationSealsExactly(env: Env, s: Session, target: Option<string>)
    requires Quiescent(env, s) && ReadsIntents(env.intentOf) && Arrives(s) && NextOutcome(env, s).Ready?
    ensures var r := SpecConfirmUpgrade(env, s, target);
            if MayConfirm(s, target) then Confirms(env, s, NextOutcome(env, s).projection, target.value, r)
            else
              && r.trace == s.trace && r.ports == s.ports && r.phase == s.phase && r.projection == s.projection
              && r.pending == s.pending
  {
    NoRecordNoId(env, s);
    if MayConfirm(s, target) {
      var t := ClearNotices(s);
      NoticesMayGo(env, s);
      ReadyHoldsNothing(env, s);
      QueryUses(env, t, FOR_CONFIRM_UPGRADE);
      UsingKeeps(env, t);
      ReadyIsPlain(env, Using(env, t), NextOutcome(env, s).projection);
      var shown := SpecRunFreshQuery(env, t, FOR_CONFIRM_UPGRADE);
      NothingHeldNothingStored(env, Using(env, t));
      assert shown.trace == Heard(env, s) && shown.pending == NOTHING_PENDING && shown.ports.journal == [];
      FreshConfirms(env, s, shown, NextOutcome(env, s).projection, target.value);
      hide Inv, ParseQueryResult, SpecReady, SpecRunFreshQuery, SpecConfirmFresh, Confirms;
    } else {
      hide Inv, ParseQueryResult, SpecRunFreshQuery, SpecConfirmFresh, Confirms;
    }
  }

  lemma NoticesMayGo(env: Env, s: Session)
    requires Quiescent(env, s)
    ensures Quiescent(env, ClearNotices(s))
  {
    hide EntryOk;
  }

  lemma ReadyHoldsNothing(env: Env, s: Session)
    requires Inv(env, s) && s.phase == EntitlementReady && s.pending.record.None?
    ensures HeldNow(s.trace).None? && s.pending == NOTHING_PENDING
  {
    hide EntryOk;
  }
}
