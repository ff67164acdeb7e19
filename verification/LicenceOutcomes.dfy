/**
  What each answer of the server and each admission of a submission decides: the phase, what is
  shown, and which port call follows, whenever the call arrives undisturbed.
*/
module LicenceOutcomes {
  import opened Wrappers
  import opened TextFormats
  import opened LicenceContracts
  import opened LicenceProjection
  import opened LicenceQueryParser
  import opened LicencePending
  import opened LicenceCanonicalText
  import opened LicenceIntent
  import opened LicenceSession
  import opened LicenceTrace
  import opened LicenceSessionSafety
  import opened LicenceClock
  import opened LicenceGuarantees
  import opened LicenceDeeds

  /** The next port call arrives, and nothing locks the session while it waits. */
  predicate Arrives(s: Session) {
    && !s.control.cancelled && !s.control.thrown
    && s.ports.tape != [] && !s.ports.tape[0].lockFires && !s.ports.tape[0].rejects
  }

  function NextOutcome(env: Env, s: Session): QueryOutcome
    requires Arrives(s)
  {
    ParseQueryResult(s.ports.tape[0].query, env.actor, env.network)
  }

  /** The log once the first answer of a query is used. */
  ghost function Heard(env: Env, s: Session): Trace
    requires Arrives(s)
  {
    Then(Then(s.trace, Asked), Answered(s.ports.tape[0].query, NextOutcome(env, s), env.clock(s.ports.clockReads)))
  }

  /** The session as the first answer is used. */
  function Using(env: Env, s: Session): Session
    requires Arrives(s)
  {
    s.(control := s.control.(inFlight := true, attemptCount := s.control.attemptCount + 1,
                             consecutiveUnauthenticated := 0),
       timing := s.timing.(lastQueryAtMs := Some(env.clock(s.ports.clockReads))),
       ports := s.ports.(tape := s.ports.tape[1..], clockReads := s.ports.clockReads + 1),
       trace := Then(Then(s.trace, Asked),
                     Answered(s.ports.tape[0].query, NextOutcome(env, s), env.clock(s.ports.clockReads))))
  }

  lemma QueryUses(env: Env, s: Session, reason: Reason)
    requires Arrives(s) && !s.control.inFlight && !NextOutcome(env, s).NotAuthenticated?
    ensures SpecRunFreshQuery(env, s, reason)
         == Landed(SpecApplyOutcome(env, Using(env, s), NextOutcome(env, s), reason))
  {
    hide SpecApplyOutcome, ParseQueryResult;
    var flying := s.(control := s.control.(inFlight := true));
    var back := flying.(control := flying.control.(attemptCount := s.control.attemptCount + 1),
                        ports := s.ports.(tape := s.ports.tape[1..]), trace := Then(s.trace, Asked));
    assert SpecAsk(flying) == back;
    assert CountRefusals(Answer(env, back, s.ports.tape[0].query, NextOutcome(env, s)), 0) == Using(env, s);
  }

  /** The answers that settle the question without any further port call. */
  ghost predicate Settles(env: Env, s: Session, r: Session)
    requires Arrives(s)
  {
    match NextOutcome(env, s)
    case LicenceUnavailable(code) =>
      r.phase == EntitlementUnavailable && r.lastOutcomeCode == ServerCode(code)
    case TransportFailure =>
      && r.phase == (if s.pending.record.Some? then AwaitingIndex else EntitlementUnavailable)
      && r.lastOutcomeCode == TransportUncertain
    case MalformedResponse => r.phase == EntitlementRepair && r.lastOutcomeCode == MalformedResponseCode
    case Guidance => r.phase == EntitlementUnsupported && r.lastOutcomeCode == TerminalGuidance
    case Unsupported(reason) =>
      && r.phase == EntitlementUnsupported
      && r.lastOutcomeCode == (if reason == UnknownPlanFamily then PlanFamilyUnknown
                               else if reason == IncompatibleCatalogueVersion then CatalogueIncompatible
                               else UnsupportedCode)
    case _ => true
  }

  /**
    An answer without a licence and without a template closes the access: nothing is shown, the
    phase names the cause, and nothing further is asked, sealed or submitted.
  */
  lemma RefusalsClose(env: Env, s: Session, reason: Reason)
    requires Inv(env, s) && !s.control.inFlight && Arrives(s)
    requires var outcome := NextOutcome(env, s);
             !outcome.Ready? && !outcome.NoActiveLicence? && !outcome.NotAuthenticated?
    ensures var r := SpecRunFreshQuery(env, s, reason);
            && r.projection.None? && r.trace == Heard(env, s) && r.pending == s.pending
            && r.ports.journal == s.ports.journal && Settles(env, s, r)
  {
    NoRecordNoId(env, s);
    if s.pending.record.Some? { PendingHasId(env, s); }
    QueryUses(env, s, reason);
    hide ParseQueryResult, Inv;
  }

  lemma PendingHasId(env: Env, s: Session)
    requires Inv(env, s) && s.pending.record.Some?
    ensures s.pending.id.Some?
  {
    hide EntryOk;
  }

  /** An active licence is shown, and a baseline that was held is resolved by it. */
  lemma LicenceOpens(env: Env, s: Session, reason: Reason)
    requires Inv(env, s) && !s.control.inFlight && Arrives(s) && NextOutcome(env, s).Ready?
    ensures var r := SpecRunFreshQuery(env, s, reason);
            && r.phase == EntitlementReady && r.projection == Some(NextOutcome(env, s).projection)
            && Extends(Heard(env, s), r.trace) && r.control.rejectionRefreshOnly == false
            && (HeldNow(s.trace).Some? && !HeldNow(s.trace).value.IsUpgrade() ==>
                  var id := HeldNow(s.trace).value.transactionId;
                  var state := if r.projection.value.licenceReference == id then ConfirmedIndexed else Superseded;
                  && r.pending == NOTHING_PENDING && r.ports.journal == [] && r.lastOutcomeCode == ReadyCode
                  && r.trace == ResolvedLog(env, s, Heard(env, s), id, state))
            && (HeldNow(s.trace).None? ==> r.trace == Heard(env, s) && r.lastOutcomeCode == ReadyCode)
  {
    hide ParseQueryResult, Inv, Base, SpecReady, SpecRunFreshQuery, Heard, ResolvedLog, SpecHandleNoActive;
    QueryUses(env, s, reason);
    UsingKeeps(env, s);
    var active := NextOutcome(env, s).projection;
    var u := Using(env, s);
    assert SpecRunFreshQuery(env, s, reason) == Landed(SpecReady(env, u, active));
    assert u.ports.saves == s.ports.saves;
    hide Using, NextOutcome, SpecApplyOutcome;
    ReadyContinues(env, u, active);
    ReadyResolves(env, u, active);
    SameResolution(env, s, u, Heard(env, s));
    ReadyShowsIt(env, u, active);
  }

  lemma SameResolution(env: Env, s: Session, u: Session, base: Trace)
    requires u.ports.journal == s.ports.journal && u.ports.saves == s.ports.saves
    ensures forall id, state :: ResolvedLog(env, u, base, id, state) == ResolvedLog(env, s, base, id, state)
  {
  }

  lemma ReadyShowsIt(env: Env, s: Session, active: SafeProjection)
    ensures var r := SpecReady(env, s, active);
            r.phase == EntitlementReady && r.projection == Some(active) && !r.control.rejectionRefreshOnly
  {
    hide SpecAttach, SpecReconcile;
  }

  lemma UsingKeeps(env: Env, s: Session)
    requires Inv(env, s) && Arrives(s)
    ensures var u := Using(env, s);
            && Base(env, u) && HeldNow(u.trace) == HeldNow(s.trace) && u.pending == s.pending
            && u.ports.journal == s.ports.journal && u.trace == Heard(env, s)
            && u.control.rejectionRefreshOnly == s.control.rejectionRefreshOnly && !u.control.cancelled
            && FirstOfCall(u.trace) == FirstOfCall(Then(s.trace, Asked))
  {
    hide ParseQueryResult, Inv, SpecAwait, EntryOk;
    var flying := s.(control := s.control.(inFlight := true));
    FlyingKeeps(env, s);
    AskKeeps(env, flying);
    var back := flying.(control := flying.control.(attemptCount := s.control.attemptCount + 1),
                        ports := s.ports.(tape := s.ports.tape[1..]), trace := Then(s.trace, Asked));
    assert SpecAsk(flying) == back by { AwaitArrives(s); }
    AnswerKeeps(env, back, s.ports.tape[0].query);
    var done := Answer(env, back, s.ports.tape[0].query, NextOutcome(env, s));
    BaseUnrelated(env, done, CountRefusals(done, 0));
    assert HeldNow(back.trace) == HeldNow(s.trace);
  }

  lemma FlyingKeeps(env: Env, s: Session)
    requires Inv(env, s)
    ensures Inv(env, s.(control := s.control.(inFlight := true)))
  {
    hide EntryOk;
  }

  lemma AwaitArrives(s: Session)
    requires Arrives(s)
    ensures SpecAsk(s.(control := s.control.(inFlight := true)))
         == s.(control := s.control.(inFlight := true, attemptCount := s.control.attemptCount + 1),
               ports := s.ports.(tape := s.ports.tape[1..]), trace := Then(s.trace, Asked))
  {
  }

  lemma ReadyResolves(env: Env, s: Session, active: SafeProjection)
    requires Base(env, s) && !s.control.cancelled
    ensures var r := SpecReady(env, s, active);
            && (HeldNow(s.trace).Some? && !HeldNow(s.trace).value.IsUpgrade() ==>
                  var id := HeldNow(s.trace).value.transactionId;
                  var state := if active.licenceReference == id then ConfirmedIndexed else Superseded;
                  && r.pending == NOTHING_PENDING && r.ports.journal == [] && r.lastOutcomeCode == ReadyCode
                  && r.trace == ResolvedLog(env, s, s.trace, id, state))
            && (HeldNow(s.trace).None? ==> r.trace == s.trace && r.lastOutcomeCode == ReadyCode)
  {
    hide EntryOk;
    AttachKeeps(env, s);
    FindBoundIsHeld(env, s);
    var attached := SpecAttach(env, s);
    assert attached == s.(pending := attached.pending);
    hide SpecAttach, SpecFindBound;
    if HeldNow(s.trace).Some? && !HeldNow(s.trace).value.IsUpgrade() {
      assert !HasLiveUpgrade(attached) && attached.pending.id.Some?;
      ResolveEmpties(env, attached, ConfirmedIndexed);
      ResolveEmpties(env, attached, Superseded);
      ResolutionIsLogged(env, attached, ConfirmedIndexed);
      ResolutionIsLogged(env, attached, Superseded);
    }
    hide SpecResolve, Base;
  }

  // ----- no active licence --------------------------------------------------------------------

  /** What the journal shows of the record it holds. */
  lemma BoundIsShown(env: Env, s: Session)
    requires Base(env, s) && HeldNow(s.trace).Some?
    ensures var id := HeldNow(s.trace).value.transactionId;
            && SpecFindBound(env, s) == Load(s.ports.journal, id) && SpecFindBound(env, s).Some?
            && SpecFindBound(env, s).value.Core() == HeldNow(s.trace).value
            && SpecFindBound(env, s).value.transactionId == id
  {
    hide EntryOk;
    var journal := s.ports.journal;
    var shown := journal[0].versions[journal[0].shown];
    assert shown in journal[0].versions;
    assert shown.Core().transactionId == shown.transactionId;
  }

  /** The session after the answer, before the template is acted upon. */
  function Unlicensed(env: Env, s: Session): Session
    requires Arrives(s)
  {
    Using(env, s).(projection := None)
  }

  lemma NoActiveUses(env: Env, s: Session, reason: Reason)
    requires Inv(env, s) && !s.control.inFlight && Arrives(s) && NextOutcome(env, s).NoActiveLicence?
    ensures var u := Unlicensed(env, s);
            && SpecRunFreshQuery(env, s, reason)
               == Landed(SpecHandleNoActive(env, u, NextOutcome(env, s).template, reason))
            && Base(env, u) && HeldNow(u.trace) == HeldNow(s.trace) && u.ports.journal == s.ports.journal
            && u.trace == Heard(env, s) && !u.control.cancelled
            && u.control.rejectionRefreshOnly == s.control.rejectionRefreshOnly
            && u.ports.minted == s.ports.minted && u.ports.saves == s.ports.saves && u.phase == s.phase
  {
    QueryUses(env, s, reason);
    UsingKeeps(env, s);
    var u := Using(env, s);
    hide SpecHandleNoActive, ParseQueryResult, Inv;
    ProjectionMayGo(env, u);
  }

  lemma ProjectionMayGo(env: Env, s: Session)
    requires Base(env, s)
    ensures Base(env, s.(projection := None)) && Continues(s, s.(projection := None))
  {
    hide EntryOk;
  }

  /** Nothing further is asked, sealed or submitted, and the held record, if any, is remembered. */
  ghost predicate Waits(env: Env, s: Session, r: Session)
    requires Arrives(s)
  {
    && r.trace == Heard(env, s) && r.projection.None? && r.ports.journal == s.ports.journal
    && (HeldNow(s.trace).Some? ==> r.pending.record.Some? && r.pending.record.value.Core() == HeldNow(s.trace).value)
  }

  /** After an authoritative rejection a template is not acted upon. */
  lemma RestrictedOnlyObserves(env: Env, s: Session, reason: Reason)
    requires Inv(env, s) && Tells(s) && !s.control.inFlight && Arrives(s) && NextOutcome(env, s).NoActiveLicence?
    requires Restricted(s.trace)
    ensures var r := SpecRunFreshQuery(env, s, reason);
            && r.trace == Heard(env, s) && r.projection.None? && r.phase == EntitlementUnavailable
            && r.ports.journal == s.ports.journal && r.pending == s.pending
  {
    hide Inv, Base, ParseQueryResult;
    NoActiveUses(env, s, reason);
  }

  /**
    A held upgrade, and any held record at a poll, only waits; outside a poll a held baseline is
    handed over again right after the answer, exactly as the journal shows it.
  */
  lemma HeldIsHandedOverExactly(env: Env, s: Session, reason: Reason)
    requires Inv(env, s) && Tells(s) && !s.control.inFlight && Arrives(s) && NextOutcome(env, s).NoActiveLicence?
    requires !Restricted(s.trace) && HeldNow(s.trace).Some? && ReadsIntents(env.intentOf)
    ensures var r := SpecRunFreshQuery(env, s, reason);
            var shown := Load(s.ports.journal, HeldNow(s.trace).value.transactionId);
            && shown.Some? && shown.value.Core() == HeldNow(s.trace).value
            && (if HeldNow(s.trace).value.IsUpgrade() then Waits(env, s, r) && r.phase == AwaitingIndex
                else if reason == "poll" then
                  && Waits(env, s, r)
                  && r.phase == (if s.phase == ConfirmationDelayed then ConfirmationDelayed else AwaitingIndex)
                else Extends(Then(Then(Heard(env, s), Marked), Submitted(shown.value, shown)), r.trace))
  {
    NoActiveUses(env, s, reason);
    var u := Unlicensed(env, s);
    BoundIsShown(env, u);
    var bound := SpecFindBound(env, u).value;
    BoundIsCoherent(env, u);
    hide Inv, Base, ParseQueryResult, SpecFindBound, Load, IsPurposeCoherent, SpecSubmitPending, Tells, Using;
    assert u.control.rejectionRefreshOnly == Restricted(s.trace) by { RestrictionIsTold(s); }
    assert bound.Core().IsUpgrade() == bound.IsUpgrade();
    SubmitHandsOver(env, Attach(u, bound).(lastOutcomeCode := NoActiveResubmitExact), bound);
  }

  lemma RestrictionIsTold(s: Session)
    requires Tells(s)
    ensures Restricted(s.trace) == s.control.rejectionRefreshOnly
  {
  }

  lemma BoundIsCoherent(env: Env, s: Session)
    requires Base(env, s) && HeldNow(s.trace).Some? && ReadsIntents(env.intentOf)
    ensures var bound := SpecFindBound(env, s);
            bound.Some? && IsPurposeCoherent(env.intentOf(bound.value.transaction.exactJson), bound.value)
  {
    hide IsPurposeCoherent, ReadsIntents;
    BoundIsShown(env, s);
    assert TraceOk(env, s.trace);
    hide Base, TraceOk;
    HeldIsCoherent(env, s.trace);
    CoreIsCoherent(env, SpecFindBound(env, s).value);
  }

  /** The record of a payload under the next identity, unsubmitted. */
  function NextRecord(env: Env, s: Session, payload: Payload, binding: Option<UpgradeBinding>): PendingRecord {
    var identity := env.mint(s.ports.minted);
    var text := UnsignedTransaction(Web, identity.transactionId, identity.timestampUtc, payload);
    PendingRecord(ExactTransaction(text, env.digestOf(text)), identity.transactionId, env.actor, env.network,
                  identity.timestampUtc, [], Sealed, binding)
  }

  /** The baseline that a template stages under the next identity. */
  function NextBaseline(env: Env, s: Session, catalogue: string): PendingRecord {
    NextRecord(env, s, Baseline(catalogue), None)
  }

  /**
    With nothing held, the template is staged under the next identity, sealed if its catalogue is
    bounded and the journal takes it, and handed over right after; otherwise nothing is sealed and
    the session needs repair.
  */
  lemma TemplateIsSealedExactly(env: Env, s: Session, reason: Reason)
    requires Inv(env, s) && Tells(s) && !s.control.inFlight && Arrives(s) && NextOutcome(env, s).NoActiveLicence?
    requires !Restricted(s.trace) && HeldNow(s.trace).None? && ReadsIntents(env.intentOf)
    ensures var r := SpecRunFreshQuery(env, s, reason);
            var catalogue := NextOutcome(env, s).template.observedCatalogueVersion;
            var baseline := NextBaseline(env, s, catalogue);
            if IsBounded(catalogue, 256) && env.saveOk(s.ports.saves) then
              Extends(Then(Then(Then(Heard(env, s), SealedNew(baseline)), Marked), Submitted(baseline, Some(baseline))),
                      r.trace)
            else
              && r.trace == Heard(env, s) && r.ports.journal == [] && r.phase == EntitlementRepair
              && r.projection.None? && r.pending == s.pending
              && r.lastOutcomeCode == (if IsBounded(catalogue, 256) then JournalUnavailable else TemplateRejected)
  {
    NoActiveUses(env, s, reason);
    var u := Unlicensed(env, s);
    FindBoundIsHeld(env, u);
    TemplateIsBaseline(env, s);
    var template := NextOutcome(env, s).template;
    assert u.ports.journal == [] by { NothingHeldNothingStored(env, u); }
    assert u.control.rejectionRefreshOnly == Restricted(s.trace) by { RestrictionIsTold(s); }
    assert u.pending == s.pending && u.projection.None? && u.ports.saves == s.ports.saves;
    StagedIsCoherent(env.intentOf, env.actor, env.network, env.digestOf, env.mint(s.ports.minted),
                     Baseline(template.observedCatalogueVersion), None);
    var baseline := NextBaseline(env, s, template.observedCatalogueVersion);
    hide Inv, Base, ParseQueryResult, SpecFindBound, IsPurposeCoherent, Tells, IsBounded, NextBaseline,
         ReadsIntents, SpecHandleNoActive, StageBaseline, Using, Unlicensed, SpecRunFreshQuery, TraceOk;
    TemplateActs(env, u, template, baseline, reason);
  }

  lemma TemplateActs(env: Env, s: Session, template: TemplateView, baseline: PendingRecord, reason: Reason)
    requires !s.control.rejectionRefreshOnly && !s.control.cancelled && SpecFindBound(env, s).None?
    requires s.ports.journal == [] && s.projection.None?
    requires StageBaseline(env.actor, env.network, env.digestOf, env.mint(s.ports.minted), template)
          == if IsBounded(template.observedCatalogueVersion, 256) then Staged(baseline) else NotStaged(())
    requires IsPurposeCoherent(env.intentOf(baseline.transaction.exactJson), baseline)
    ensures var r := SpecHandleNoActive(env, s, template, reason);
            if IsBounded(template.observedCatalogueVersion, 256) && env.saveOk(s.ports.saves) then
              Extends(Then(Then(Then(s.trace, SealedNew(baseline)), Marked), Submitted(baseline, Some(baseline))),
                      r.trace)
            else
              && r.trace == s.trace && r.ports.journal == [] && r.phase == EntitlementRepair
              && r.projection.None? && r.pending == s.pending
              && r.lastOutcomeCode
                 == (if IsBounded(template.observedCatalogueVersion, 256) then JournalUnavailable else TemplateRejected)
  {
    hide SpecFindBound, IsPurposeCoherent, SpecSubmitPending, IsBounded, StageBaseline, Store;
    var signing := Mint(s).(phase := BaselineSigning, lastOutcomeCode := ConstructingBaseline);
    if env.saveOk(s.ports.saves) {
      FirstSealIsShown(env, signing, baseline);
      SubmitHandsOver(env, Seal(env, signing, baseline), baseline);
    }
  }

  lemma NothingHeldNothingStored(env: Env, s: Session)
    requires Base(env, s) && HeldNow(s.trace).None?
    ensures s.ports.journal == []
  {
    hide EntryOk;
  }

  lemma FirstSealIsShown(env: Env, s: Session, record: PendingRecord)
    requires s.ports.journal == [] && env.saveOk(s.ports.saves)
    ensures Load(Seal(env, s, record).ports.journal, record.transactionId) == Some(record)
    ensures Seal(env, s, record).trace == Then(s.trace, SealedNew(record))
    ensures Seal(env, s, record).control == s.control
  {
    var slot := Slot(record.transactionId, [record], env.shown(s.ports.saves) % 1);
    assert Store([], record, env.shown(s.ports.saves)) == [slot];
  }

  /** A template that passed the parser asks for the Direct Free baseline. */
  lemma TemplateIsBaseline(env: Env, s: Session)
    requires Arrives(s) && NextOutcome(env, s).NoActiveLicence?
    ensures var template := NextOutcome(env, s).template;
            StageBaseline(env.actor, env.network, env.digestOf, env.mint(s.ports.minted), template)
            == if IsBounded(template.observedCatalogueVersion, 256)
               then Staged(NextBaseline(env, s, template.observedCatalogueVersion)) else NotStaged(())
  {
    hide UnsignedTransaction, BuildSafeProjection, IsBounded;
  }
}
