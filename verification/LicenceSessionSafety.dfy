/** The invariant of the licence session, and that every operation keeps it. */
module LicenceSessionSafety {
  import opened Wrappers
  import opened LicenceContracts
  import opened LicenceProjection
  import opened LicenceQueryParser
  import opened LicencePending
  import opened LicenceCanonicalText
  import opened LicenceSession
  import opened LicenceTrace

  /** The authority never mints the same transaction id twice. */
  ghost predicate MintsFresh(env: Env) {
    forall i: nat, j: nat :: i != j ==> env.mint(i).transactionId != env.mint(j).transactionId
  }

  ghost predicate FreshFrom(env: Env, minted: nat, t: Trace) {
    forall i: nat :: i >= minted ==> SealedCore(t, env.mint(i).transactionId).None?
  }

  /** The journal holds at most one transaction; each version of it has the core `held`. */
  ghost predicate JournalOk(env: Env, journal: seq<Slot>, held: Option<PendingRecord>) {
    match held
    case None => journal == []
    case Some(core) =>
      && |journal| == 1 && journal[0].id == core.transactionId
      && core.identityBinding == env.actor && core.networkBinding == env.network
      && journal[0].shown < |journal[0].versions|
      && forall v :: v in journal[0].versions ==> v.Core() == core
  }

  ghost predicate MemoryOk(m: InMemory, held: Option<PendingRecord>) {
    match m.record
    case None => m.id.None?
    case Some(r) => m.id == Some(r.transactionId) && held == Some(r.Core())
  }

  /** A projection is exactly the safe projection of the latest answer that established anything. */
  ghost predicate ProjectionOk(s: Session) {
    s.projection.Some? ==> Verdict(s.trace) == Some(Ready(s.projection.value))
  }

  ghost predicate AccessOk(s: Session) {
    && ProjectionOk(s)
    && (s.phase == EntitlementReady ==>
          && s.projection.Some?
          && (if s.pending.record.Some? then s.pending.record.value.IsUpgrade() else HeldNow(s.trace).None?))
  }

  ghost predicate NoticeOk(s: Session) {
    s.upgrade.notificationEligible ==>
      && s.upgrade.terminal.Some? && s.upgrade.terminal.value.LocalSuccess?
      && HasSucceeded(s.trace, s.upgrade.terminal.value.operation.pendingTransactionId)
      && !(HeldNow(s.trace).Some? && HeldNow(s.trace).value.IsUpgrade())
  }

  ghost predicate DelayOk(s: Session) {
    && s.timing.reachableElapsedMs >= 0 && CreditedSinceMark(s.trace) >= 0
    && LastReached(s.trace) == s.timing.lastReachableAtMs
    && (s.timing.confirmationStartedReachableMs.Some? ==>
          var started := s.timing.confirmationStartedReachableMs.value;
          && started >= 0 && HasMark(s.trace)
          && s.timing.reachableElapsedMs - started <= CreditedSinceMark(s.trace))
  }

  ghost predicate LockOk(s: Session) {
    && s.control.cancelled == IsLocked(s.trace)
    && (s.control.cancelled ==>
          s.projection.None? && s.phase != EntitlementReady && s.pending == NOTHING_PENDING)
  }

  /** Everything but the projection: log, journal, memory, notices, delay and lock. */
  ghost predicate Base(env: Env, s: Session) {
    && TraceOk(env, s.trace)
    && FreshFrom(env, s.ports.minted, s.trace)
    && JournalOk(env, s.ports.journal, HeldNow(s.trace))
    && MemoryOk(s.pending, HeldNow(s.trace))
    && NoticeOk(s) && DelayOk(s) && LockOk(s)
  }

  ghost predicate Inv(env: Env, s: Session) { Base(env, s) && AccessOk(s) }

  /** The projection is that of a query made in the current operation. */
  ghost predicate IsFresh(s: Session) {
    s.projection.Some? ==> VerdictOfCall(s.trace) == Some(Ready(s.projection.value))
  }

  /** No upgrade is held and no notification of one is due. */
  ghost predicate NoUpgrade(s: Session) {
    !s.upgrade.notificationEligible && !(HeldNow(s.trace).Some? && HeldNow(s.trace).value.IsUpgrade())
  }

  /** What a part of an operation does to the session besides keeping the invariant. */
  ghost predicate Keeps(env: Env, s: Session, r: Session) {
    && Inv(env, r)
    && CurrentCall(r.trace) == CurrentCall(s.trace)
    && (IsFresh(s) ==> IsFresh(r)) && (NoUpgrade(s) ==> NoUpgrade(r))
    && (r.control.inFlight ==> s.control.inFlight)
  }

  /** What the bookkeeping between two calls changes: the journal, the pending record, notices. */
  ghost predicate Books(env: Env, s: Session, r: Session) {
    && Base(env, r)
    && r.phase == s.phase && r.projection == s.projection && r.control == s.control && r.timing == s.timing
    && r.ports.tape == s.ports.tape
    && CurrentCall(r.trace) == CurrentCall(s.trace)
    && Verdict(r.trace) == Verdict(s.trace) && VerdictOfCall(r.trace) == VerdictOfCall(s.trace)
  }

  // ----- single steps -------------------------------------------------------------------------

  lemma LockKeeps(env: Env, s: Session)
    requires Inv(env, s)
    ensures Keeps(env, s, SpecLock(s)) && !SpecLock(s).control.inFlight
  {
  }

  /** Fields that the invariant does not mention may change freely. */
  lemma UnrelatedKeeps(env: Env, s: Session, r: Session)
    requires Inv(env, s)
    requires r == s.(lastOutcomeCode := r.lastOutcomeCode, control := r.control, timing := r.timing,
                     ports := s.ports.(tape := r.ports.tape, clockReads := r.ports.clockReads))
    requires r.control.cancelled == s.control.cancelled && (r.control.inFlight ==> s.control.inFlight)
    requires r.timing.reachableElapsedMs == s.timing.reachableElapsedMs
    requires r.timing.lastReachableAtMs == s.timing.lastReachableAtMs
    requires r.timing.confirmationStartedReachableMs == s.timing.confirmationStartedReachableMs
    ensures Keeps(env, s, r)
  {
    hide EntryOk;
  }

  lemma AwaitKeeps(env: Env, s: Session)
    requires Inv(env, s)
    ensures Keeps(env, s, SpecAwait(s))
    ensures !Interrupted(SpecAwait(s)) ==>
              s.ports.tape != [] && SpecAwait(s) == s.(ports := s.ports.(tape := s.ports.tape[1..]))
  {
    if s.ports.tape == [] {
      UnrelatedKeeps(env, s, s.(control := s.control.(thrown := true)));
    } else {
      var resumed := s.(ports := s.ports.(tape := s.ports.tape[1..]));
      UnrelatedKeeps(env, s, resumed);
      LockKeeps(env, resumed);
      var locked := if s.ports.tape[0].lockFires then SpecLock(resumed) else resumed;
      UnrelatedKeeps(env, locked, locked.(control := locked.control.(thrown := true)));
      hide Inv, SpecLock;
    }
  }

  /** Restart recovery finds exactly the record the journal holds. */
  lemma FindBoundIsHeld(env: Env, s: Session)
    requires Base(env, s)
    ensures match SpecFindBound(env, s)
            case None => HeldNow(s.trace).None?
            case Some(r) => HeldNow(s.trace) == Some(r.Core())
  {
    hide EntryOk;
    var journal := s.ports.journal;
    if HeldNow(s.trace).Some? {
      assert journal[0].versions[journal[0].shown] in journal[0].versions;
    }
  }

  /** Loading the id of what is held gives a version of it. */
  lemma HeldIsShown(env: Env, journal: seq<Slot>, core: PendingRecord)
    requires JournalOk(env, journal, Some(core))
    ensures Load(journal, core.transactionId).Some? && Load(journal, core.transactionId).value.Core() == core
  {
    assert journal[0].versions[journal[0].shown] in journal[0].versions;
  }

  lemma SaveAgainKeeps(env: Env, s: Session, r: PendingRecord)
    requires Base(env, s) && !s.control.cancelled && HeldNow(s.trace) == Some(r.Core())
    ensures Books(env, s, SaveAgain(env, s, r)) && HeldNow(SaveAgain(env, s, r).trace) == HeldNow(s.trace)
  {
    hide IsPurposeCoherent, UpgradeFromFreshTruth, BaselineFromTemplate, ParseQueryResult;
    var journal := s.ports.journal;
    var stored := Store(journal, r, env.shown(s.ports.saves));
    assert Find(journal, r.transactionId) == 0;
    assert stored[0].versions == journal[0].versions + [r];
  }

  /** The pending record is retired, deleted and forgotten; the journal is empty afterwards. */
  lemma ResolveEmpties(env: Env, s: Session, state: RecoveryState)
    requires Base(env, s) && !s.control.cancelled && s.pending.id.Some?
    ensures var r := SpecResolve(env, s, state);
            && Books(env, s, r)
            && r.ports.journal == [] && HeldNow(r.trace).None? && r.pending == NOTHING_PENDING
            && r == s.(ports := r.ports, trace := r.trace, pending := NOTHING_PENDING)
            && SealedCore(r.trace, s.pending.id.value) == SealedCore(s.trace, s.pending.id.value)
            && HasSucceeded(r.trace, s.pending.id.value) == HasSucceeded(s.trace, s.pending.id.value)
  {
    hide IsPurposeCoherent, UpgradeFromFreshTruth, BaselineFromTemplate, ParseQueryResult;
    var journal := s.ports.journal;
    var shown := journal[0].versions[journal[0].shown];
    assert shown in journal[0].versions;
    assert Load(journal, s.pending.id.value) == Some(shown);
    SaveAgainKeeps(env, s, shown.(recoveryState := state));
    var marked := SaveAgain(env, s, shown.(recoveryState := state));
    assert Remove(marked.ports.journal, s.pending.id.value) == [];
  }

  /** Recording a local success, once the sealed upgrade is the active licence and is retired. */
  lemma SuccessKeeps(env: Env, s: Session, operation: UpgradeOperation, active: SafeProjection)
    requires Base(env, s) && s.ports.journal == [] && HeldNow(s.trace).None?
    requires var id := operation.pendingTransactionId;
             && SealedCore(s.trace, id).Some? && SealedCore(s.trace, id).value.IsUpgrade()
             && !HasSucceeded(s.trace, id)
             && Verdict(s.trace) == Some(Ready(active)) && active.licenceReference == id
    ensures Books(env, s, s.(upgrade := s.upgrade.(terminal := Some(LocalSuccess(operation)),
                                                   notificationEligible := true, delayed := false),
                             lastOutcomeCode := UpgradeLocalSuccess,
                             trace := Then(s.trace, Succeeded(operation.pendingTransactionId))))
  {
    hide IsPurposeCoherent, UpgradeFromFreshTruth, BaselineFromTemplate, ParseQueryResult;
  }

  /** After reconciliation against an active licence nothing but a live upgrade is left. */
  ghost predicate Reconciled(env: Env, s: Session, r: Session) {
    && Books(env, s, r) && (NoUpgrade(s) ==> NoUpgrade(r))
    && (if r.pending.record.Some? then r.pending.record.value.IsUpgrade() else HeldNow(r.trace).None?)
  }

  lemma ReconcileUpgradeKeeps(env: Env, s: Session, active: SafeProjection)
    requires Base(env, s) && !s.control.cancelled
    requires HasLiveUpgrade(s) && Verdict(s.trace) == Some(Ready(active))
    ensures Reconciled(env, s, SpecReconcileUpgrade(env, s, s.pending.record.value, active.licenceReference))
  {
    hide EntryOk;
    var record := s.pending.record.value;
    var binding := record.upgradeBinding.value;
    if active.licenceReference == binding.expectedCurrentTransactionId {
    } else if active.licenceReference == record.transactionId {
      HeldWasSealed(env, s.trace);
      ResolveEmpties(env, s, ConfirmedIndexed);
      SuccessKeeps(env, SpecResolve(env, s, ConfirmedIndexed), OperationOf(record, binding), active);
      hide SpecResolve, Base;
    } else {
      CompetingKeeps(env, s);
      hide SpecResolve, Base;
    }
  }

  /** A competing licence retires the sealed upgrade, and claims no success for it. */
  lemma CompetingKeeps(env: Env, s: Session)
    requires Base(env, s) && !s.control.cancelled && HasLiveUpgrade(s)
    ensures var resolved := SpecResolve(env, s, Superseded);
            Reconciled(env, s, resolved.(upgrade := resolved.upgrade.(terminal := Some(CompetingActivation),
                                                                      delayed := false),
                                         lastOutcomeCode := UpgradeCompetingActivation))
  {
    hide EntryOk;
    assert !s.upgrade.notificationEligible;
    ResolveEmpties(env, s, Superseded);
    hide SpecResolve;
  }

  lemma AttachKeeps(env: Env, s: Session)
    requires Base(env, s) && !s.control.cancelled
    ensures Books(env, s, SpecAttach(env, s)) && SpecAttach(env, s).trace == s.trace
    ensures SpecAttach(env, s).pending.record.None? ==> HeldNow(s.trace).None?
  {
    FindBoundIsHeld(env, s);
    hide SpecFindBound, EntryOk;
  }

  lemma ReconcileKeeps(env: Env, s: Session, active: SafeProjection)
    requires Base(env, s) && !s.control.cancelled && Verdict(s.trace) == Some(Ready(active))
    requires s.pending.record.None? ==> HeldNow(s.trace).None?
    ensures Reconciled(env, s, SpecReconcile(env, s, active.licenceReference))
  {
    if s.pending.id.Some? {
      if HasLiveUpgrade(s) {
        ReconcileUpgradeKeeps(env, s, active);
      } else {
        ResolveEmpties(env, s, if active.licenceReference == s.pending.id.value then ConfirmedIndexed else Superseded);
      }
    }
    hide SpecReconcileUpgrade, SpecResolve, EntryOk, FreshFrom, JournalOk;
  }

  /** An active licence makes the session ready, with exactly the projection of that answer. */
  lemma ReadyKeeps(env: Env, s: Session, active: SafeProjection)
    requires Base(env, s) && !s.control.cancelled && VerdictOfCall(s.trace) == Some(Ready(active))
    ensures Keeps(env, s, SpecReady(env, s, active)) && IsFresh(SpecReady(env, s, active))
  {
    hide SpecFindBound, SpecReconcile, EntryOk, FreshFrom, JournalOk, TraceOk, HeldNow, Verdict, VerdictOfCall,
         CurrentCall;
    CallVerdictIsVerdict(s.trace);
    AttachKeeps(env, s);
    ReconcileKeeps(env, SpecAttach(env, s), active);
  }

  lemma RecordAttemptKeeps(env: Env, s: Session, record: PendingRecord, admission: Admission)
    requires Base(env, s) && !s.control.cancelled && s.pending.record == Some(record)
    ensures var r := SpecRecordAttempt(env, s, record, admission);
            && Books(env, s, r) && r.pending.record.Some? && r.pending.record.value.IsUpgrade() == record.IsUpgrade()
            && r.upgrade == s.upgrade && HeldNow(r.trace) == HeldNow(s.trace)
  {
    SaveAgainKeeps(env, ReadClock(s), AfterAttempt(env, s, record, admission));
    hide EntryOk, FreshFrom, JournalOk, Store;
  }

  /** No admission result grants access: only a licence already shown stays shown. */
  lemma AdmissionKeeps(env: Env, s: Session, record: PendingRecord, admission: Admission)
    requires Inv(env, s) && !s.control.cancelled && s.pending.record == Some(record)
    requires s.phase == BaselineSubmitting
    ensures var r := Landed(SpecAdmission(SpecRecordAttempt(env, s, record, admission), record, admission));
            && Keeps(env, s, r) && !r.control.inFlight && r.projection == s.projection
            && (s.projection.None? ==> r.phase != EntitlementReady)
            && |r.ports.tape| == |s.ports.tape|
  {
    hide SpecRecordAttempt, SpecAdmission, EntryOk, FreshFrom, JournalOk, MemoryOk, NoticeOk, DelayOk, LockOk, TraceOk;
    RecordAttemptKeeps(env, s, record, admission);
    DecideKeeps(env, s, SpecRecordAttempt(env, s, record, admission), record, admission);
  }

  /** The decision changes the phase, the outcome code and two requests for further queries. */
  lemma DecideKeeps(env: Env, s: Session, t: Session, record: PendingRecord, admission: Admission)
    requires Inv(env, s) && !s.control.cancelled && s.phase == BaselineSubmitting
    requires Books(env, s, t) && t.upgrade == s.upgrade && HeldNow(t.trace) == HeldNow(s.trace)
    requires t.pending.record.Some? && t.pending.record.value.IsUpgrade() == record.IsUpgrade()
    ensures var r := Landed(SpecAdmission(t, record, admission));
            && Keeps(env, s, r) && !r.control.inFlight && r.projection == s.projection
            && (s.projection.None? ==> r.phase != EntitlementReady)
            && |r.ports.tape| == |s.ports.tape|
  {
    hide EntryOk, FreshFrom, JournalOk, TraceOk, HeldNow, Verdict, VerdictOfCall, CurrentCall, MemoryOk;
  }

  /** One new record is saved under a fresh id while the journal is empty. */
  lemma SealKeeps(env: Env, s: Session, record: PendingRecord)
    requires Inv(env, s) && CanSeal(env, s, record)
    ensures Inv(env, Seal(env, s, record)) && CurrentCall(Seal(env, s, record).trace) == CurrentCall(s.trace)
    ensures IsFresh(s) ==> IsFresh(Seal(env, s, record))
    ensures !record.IsUpgrade() && NoUpgrade(s) ==> NoUpgrade(Seal(env, s, record))
  {
    hide IsPurposeCoherent, UpgradeFromFreshTruth, BaselineFromTemplate, ParseQueryResult;
    var stored := Store(s.ports.journal, record, env.shown(s.ports.saves));
    assert stored == [Slot(record.transactionId, [record], 0)];
  }

  ghost predicate CanSeal(env: Env, s: Session, record: PendingRecord) {
    && EntryOk(env, s.trace, SealedNew(record))
    && env.saveOk(s.ports.saves)
    && record.Core() == record && record.identityBinding == env.actor && record.networkBinding == env.network
    && (s.phase == EntitlementReady ==> record.IsUpgrade())
    && (record.IsUpgrade() ==> !s.upgrade.notificationEligible)
    && forall i: nat :: i >= s.ports.minted ==> env.mint(i).transactionId != record.transactionId
  }

  lemma MarkKeeps(env: Env, s: Session, r: Session)
    requires Base(env, s)
    requires r == s.(timing := s.timing.(confirmationStartedReachableMs := Some(s.timing.reachableElapsedMs)),
                     lastOutcomeCode := r.lastOutcomeCode, trace := Then(s.trace, Marked))
    ensures Books(env, s.(timing := r.timing), r) && HeldNow(r.trace) == HeldNow(s.trace)
  {
    hide IsPurposeCoherent, UpgradeFromFreshTruth, BaselineFromTemplate, ParseQueryResult;
  }

  /** A record may be handed out only when the journal holds it, byte for byte. */
  lemma SendKeeps(env: Env, s: Session, record: PendingRecord)
    requires Base(env, s) && ProjectionOk(s) && !s.control.cancelled && s.pending.record == Some(record)
    requires IsPurposeCoherent(env.intentOf(record.transaction.exactJson), record)
    ensures Inv(env, Send(s, record)) && CurrentCall(Send(s, record).trace) == CurrentCall(s.trace)
    ensures IsFresh(s) ==> IsFresh(Send(s, record))
    ensures NoUpgrade(s) ==> NoUpgrade(Send(s, record))
  {
    hide IsPurposeCoherent, UpgradeFromFreshTruth, BaselineFromTemplate, ParseQueryResult, Load;
    HeldIsShown(env, s.ports.journal, record.Core());
    var marked := s.(timing := s.timing.(confirmationStartedReachableMs := Some(s.timing.reachableElapsedMs)),
                     trace := Then(s.trace, Marked));
    MarkKeeps(env, s, marked);
    assert EntryOk(env, marked.trace, Submitted(record, Load(s.ports.journal, record.transactionId)));
  }

  lemma GateKeeps(env: Env, s: Session, phase: Phase, code: OutcomeCode)
    requires Base(env, s) && phase != EntitlementReady
    ensures Keeps(env, s, Gate(s, phase, code)) && IsFresh(Gate(s, phase, code))
  {
    hide EntryOk;
  }

  lemma StaleRejectionKeeps(env: Env, s: Session)
    requires Inv(env, s) && !s.control.cancelled && HasLiveUpgrade(s)
    ensures Keeps(env, s, SpecStaleRejection(env, s))
  {
    hide EntryOk;
    assert !s.upgrade.notificationEligible;
    ResolveEmpties(env, s, Retired);
    hide SpecResolve;
  }

  /** An answer is used only while unlocked; what it establishes is then known to this call. */
  lemma AnswerKeeps(env: Env, s: Session, result: QueryTransportResult)
    requires Inv(env, s) && !s.control.cancelled
    ensures var outcome := ParseQueryResult(result, env.actor, env.network);
            var r := Answer(env, s, result, outcome);
            && Base(env, r) && CurrentCall(r.trace) == CurrentCall(s.trace) && (NoUpgrade(s) ==> NoUpgrade(r))
            && (if outcome.NotAuthenticated? then Keeps(env, s, r) else VerdictOfCall(r.trace) == Some(outcome))
  {
    hide IsPurposeCoherent, UpgradeFromFreshTruth, BaselineFromTemplate;
    hide ParseQueryResult;
  }

  lemma AskedKeeps(env: Env, s: Session, r: Session)
    requires Inv(env, s) && !s.control.cancelled
    requires r == s.(control := s.control.(attemptCount := s.control.attemptCount + 1), trace := Then(s.trace, Asked))
    ensures Keeps(env, s, r)
  {
    hide IsPurposeCoherent, UpgradeFromFreshTruth, BaselineFromTemplate, ParseQueryResult;
  }

  lemma AskKeeps(env: Env, s: Session)
    requires Inv(env, s) && !s.control.cancelled
    ensures Keeps(env, s, SpecAsk(s))
    ensures !Interrupted(SpecAsk(s)) ==> s.ports.tape != [] && SpecAsk(s).ports.tape == s.ports.tape[1..]
  {
    hide SpecAwait, Inv;
    var asked := s.(control := s.control.(attemptCount := s.control.attemptCount + 1), trace := Then(s.trace, Asked));
    AskedKeeps(env, s, asked);
    AwaitKeeps(env, asked);
  }

  // ----- the mutually recursive part ----------------------------------------------------------

  lemma {:induction false} RunFreshQueryKeeps(env: Env, s: Session, reason: Reason)
    requires Inv(env, s) && MintsFresh(env)
    ensures var r := SpecRunFreshQuery(env, s, reason);
            && Keeps(env, s, r) && (!s.control.inFlight ==> !r.control.inFlight)
            && (!s.control.inFlight && !s.control.cancelled && !Interrupted(r) ==> IsFresh(r))
    decreases |s.ports.tape|, 4
  {
    hide EntryOk, SpecQueryAttempt, FreshFrom, TraceOk, JournalOk, MemoryOk, Verdict, VerdictOfCall, CurrentCall,
         HeldNow;
    if !s.control.inFlight && !s.control.cancelled {
      var flying := s.(control := s.control.(inFlight := true));
      QueryAttemptKeeps(env, flying, reason, 1);
    }
  }

  lemma {:induction false} QueryAttemptKeeps(env: Env, s: Session, reason: Reason, attempt: nat)
    requires Inv(env, s) && MintsFresh(env) && !s.control.cancelled
    ensures var r := SpecQueryAttempt(env, s, reason, attempt);
            Keeps(env, s, r) && (!Interrupted(r) ==> IsFresh(r))
    decreases |s.ports.tape|, 3
  {
    hide Inv, Base, AccessOk, ParseQueryResult, SpecApplyOutcome, SpecAsk;
    AskKeeps(env, s);
    var back := SpecAsk(s);
    if !Interrupted(back) {
      var result := s.ports.tape[0].query;
      var outcome := ParseQueryResult(result, env.actor, env.network);
      var done := Answer(env, back, result, outcome);
      AnswerKeeps(env, back, result);
      if !outcome.NotAuthenticated? {
        BaseUnrelated(env, done, CountRefusals(done, 0));
        ApplyOutcomeKeeps(env, CountRefusals(done, 0), outcome, reason);
      } else if attempt == 1 && reason != FOR_RETRY {
        var again := CountRefusals(done, 1).(lastOutcomeCode := UnauthenticatedRetryOnce);
        UnrelatedKeeps(env, done, again);
        QueryAttemptKeeps(env, again, reason, 2);
      } else {
        ForcedLockKeeps(env, done);
      }
    }
  }

  lemma BaseUnrelated(env: Env, s: Session, r: Session)
    requires Base(env, s)
    requires r == s.(lastOutcomeCode := r.lastOutcomeCode, control := r.control)
    requires r.control.cancelled == s.control.cancelled
    ensures Base(env, r)
  {
    hide EntryOk;
  }

  lemma ForcedLockKeeps(env: Env, s: Session)
    requires Inv(env, s)
    ensures Keeps(env, s, SpecForcedLock(s)) && IsFresh(SpecForcedLock(s))
  {
    hide EntryOk;
  }

  lemma {:induction false} ApplyOutcomeKeeps(env: Env, s: Session, outcome: QueryOutcome, reason: Reason)
    requires Base(env, s) && MintsFresh(env) && !s.control.cancelled
    requires !outcome.NotAuthenticated? && VerdictOfCall(s.trace) == Some(outcome)
    ensures var r := SpecApplyOutcome(env, s, outcome, reason);
            Keeps(env, s, r) && IsFresh(r)
    decreases |s.ports.tape|, 6
  {
    hide Base, AccessOk, SpecReady, SpecHandleNoActive;
    match outcome
    case Ready(active) => ReadyKeeps(env, s, active);
    case NoActiveLicence(template) => HandleNoActiveKeeps(env, s, template, reason);
    case LicenceUnavailable(code) => GateKeeps(env, s, EntitlementUnavailable, ServerCode(code));
    case Unsupported(why) => GateKeeps(env, s, EntitlementUnsupported, UnsupportedOutcome(why));
    case TransportFailure =>
      GateKeeps(env, s, if s.pending.record.Some? && s.pending.id.Some? then AwaitingIndex else EntitlementUnavailable,
                TransportUncertain);
    case MalformedResponse => GateKeeps(env, s, EntitlementRepair, MalformedResponseCode);
    case Guidance => GateKeeps(env, s, EntitlementUnsupported, TerminalGuidance);
  }

  /** The template of the no-active answer yields a record that may be sealed. */
  lemma BaselineCanSeal(env: Env, s: Session, template: TemplateView)
    requires Base(env, s) && MintsFresh(env) && !s.control.cancelled && HeldNow(s.trace).None?
    requires VerdictOfCall(s.trace) == Some(NoActiveLicence(template))
    ensures var staged := StageBaseline(env.actor, env.network, env.digestOf, env.mint(s.ports.minted), template);
            var signing := Mint(s).(phase := BaselineSigning, lastOutcomeCode := ConstructingBaseline);
            staged.Staged? ==>
              && !staged.record.IsUpgrade() && Base(env, signing)
              && (env.saveOk(s.ports.saves) ==> CanSeal(env, signing, staged.record))
  {
    hide IsPurposeCoherent, UpgradeFromFreshTruth, ParseQueryResult, UnsignedTransaction, EntryOk;
    var staged := StageBaseline(env.actor, env.network, env.digestOf, env.mint(s.ports.minted), template);
    if staged.Staged? { BaselineEntry(env, s, template, staged.record); }
  }

  lemma BaselineEntry(env: Env, s: Session, template: TemplateView, record: PendingRecord)
    requires Base(env, s) && !s.control.cancelled && HeldNow(s.trace).None?
    requires VerdictOfCall(s.trace) == Some(NoActiveLicence(template))
    requires StageBaseline(env.actor, env.network, env.digestOf, env.mint(s.ports.minted), template) == Staged(record)
    ensures EntryOk(env, s.trace, SealedNew(record))
  {
    hide IsPurposeCoherent, UpgradeFromFreshTruth, ParseQueryResult, UnsignedTransaction, TraceOk;
  }

  lemma {:induction false} HandleNoActiveKeeps(env: Env, s: Session, template: TemplateView, reason: Reason)
    requires Base(env, s) && MintsFresh(env) && !s.control.cancelled
    requires VerdictOfCall(s.trace) == Some(NoActiveLicence(template))
    ensures var r := SpecHandleNoActive(env, s.(projection := None), template, reason);
            Keeps(env, s, r) && IsFresh(r)
    decreases |s.ports.tape|, 5
  {
    hide EntryOk, SpecSubmitPending, SpecSealAndSubmit, SpecFindBound, StageBaseline, TraceOk, Verdict,
         VerdictOfCall, CurrentCall, HeldNow;
    var t := s.(projection := None);
    FindBoundIsHeld(env, t);
    var bound := SpecFindBound(env, t);
    if s.control.rejectionRefreshOnly {
    } else if bound.Some? {
      var attached := Attach(t, bound.value);
      if !bound.value.IsUpgrade() && reason != FOR_POLL {
        SubmitPendingKeeps(env, attached.(lastOutcomeCode := NoActiveResubmitExact), bound.value);
      }
    } else {
      NewBaselineKeeps(env, t, template);
    }
  }

  /** With nothing held, one baseline is built from the template of this answer. */
  lemma {:induction false} NewBaselineKeeps(env: Env, s: Session, template: TemplateView)
    requires Base(env, s) && MintsFresh(env) && !s.control.cancelled && s.projection.None? && HeldNow(s.trace).None?
    requires VerdictOfCall(s.trace) == Some(NoActiveLicence(template))
    ensures var signing := Mint(s).(phase := BaselineSigning, lastOutcomeCode := ConstructingBaseline);
            var staged := StageBaseline(env.actor, env.network, env.digestOf, env.mint(s.ports.minted), template);
            Keeps(env, s, if staged.NotStaged?
                          then signing.(phase := EntitlementRepair, lastOutcomeCode := TemplateRejected)
                          else SpecSealAndSubmit(env, signing, staged.record))
    decreases |s.ports.tape|, 4, 1
  {
    hide EntryOk, SpecSealAndSubmit, StageBaseline, TraceOk, Verdict, VerdictOfCall, CurrentCall, HeldNow;
    var staged := StageBaseline(env.actor, env.network, env.digestOf, env.mint(s.ports.minted), template);
    if staged.Staged? {
      BaselineCanSeal(env, s, template);
      SealAndSubmitKeeps(env, Mint(s).(phase := BaselineSigning, lastOutcomeCode := ConstructingBaseline),
                         staged.record);
    }
  }

  lemma {:induction false} SealAndSubmitKeeps(env: Env, s: Session, record: PendingRecord)
    requires Inv(env, s) && MintsFresh(env) && !s.control.cancelled
    requires env.saveOk(s.ports.saves) ==> CanSeal(env, s, record)
    ensures var r := SpecSealAndSubmit(env, s, record);
            && Inv(env, r) && CurrentCall(r.trace) == CurrentCall(s.trace) && (IsFresh(s) ==> IsFresh(r))
            && (!record.IsUpgrade() && NoUpgrade(s) ==> NoUpgrade(r)) && (r.control.inFlight ==> s.control.inFlight)
    decreases |s.ports.tape|, 4, 0
  {
    hide EntryOk, SpecSubmitPending;
    if env.saveOk(s.ports.saves) {
      SealKeeps(env, s, record);
      SubmitPendingKeeps(env, Seal(env, s, record), record);
      hide Base;
    }
  }

  lemma {:induction false} SubmitPendingKeeps(env: Env, s: Session, record: PendingRecord)
    requires Base(env, s) && ProjectionOk(s) && MintsFresh(env)
    requires !s.control.cancelled && s.pending.record == Some(record)
    ensures Keeps(env, s, SpecSubmitPending(env, s, record))
    decreases |s.ports.tape|, 3
  {
    hide EntryOk, SpecAfterAdmission, SpecAwait, IsPurposeCoherent;
    if IsPurposeCoherent(env.intentOf(record.transaction.exactJson), record) {
      var sent := Send(s, record);
      SendKeeps(env, s, record);
      AwaitKeeps(env, sent);
      var back := SpecAwait(sent);
      hide Inv;
      if Interrupted(back) {
        UnrelatedKeeps(env, back, Landed(back));
      } else {
        AfterAdmissionKeeps(env, back, record, s.ports.tape[0].admission);
      }
    }
  }

  lemma {:induction false} AfterAdmissionKeeps(env: Env, s: Session, record: PendingRecord, admission: Admission)
    requires Inv(env, s) && MintsFresh(env) && !s.control.cancelled && s.pending.record == Some(record)
    requires s.phase == BaselineSubmitting
    ensures Keeps(env, s, SpecAfterAdmission(env, s, record, admission))
    ensures !SpecAfterAdmission(env, s, record, admission).control.inFlight
    decreases |s.ports.tape|, 6
  {
    hide Inv, SpecRunFreshQuery, SpecReconcileRejected, SpecRecordAttempt, SpecAdmission;
    AdmissionKeeps(env, s, record, admission);
    var decided := Landed(SpecAdmission(SpecRecordAttempt(env, s, record, admission), record, admission));
    var queried := decided;
    if decided.control.needsImmediateQuery && !decided.control.cancelled {
      var asking := decided.(control := decided.control.(needsImmediateQuery := false));
      UnrelatedKeeps(env, decided, asking);
      RunFreshQueryKeeps(env, asking, FOR_ALREADY_EXISTS);
      queried := SpecRunFreshQuery(env, asking, FOR_ALREADY_EXISTS);
    }
    if !queried.control.thrown && queried.upgrade.rejectedRequery && !queried.control.cancelled {
      var consumed := queried.(upgrade := queried.upgrade.(rejectedRequery := false));
      ConsumedKeeps(env, queried, consumed);
      ReconcileRejectedKeeps(env, consumed);
    }
  }

  lemma ConsumedKeeps(env: Env, s: Session, r: Session)
    requires Inv(env, s) && r == s.(upgrade := s.upgrade.(rejectedRequery := false))
    ensures Keeps(env, s, r)
  {
    hide EntryOk;
  }

  lemma {:induction false} ReconcileRejectedKeeps(env: Env, s: Session)
    requires Inv(env, s) && MintsFresh(env) && !s.control.inFlight
    ensures Keeps(env, s, SpecReconcileRejected(env, s)) && !SpecReconcileRejected(env, s).control.inFlight
    decreases |s.ports.tape|, 5
  {
    hide Inv, SpecRunFreshQuery, SpecStaleRejection;
    RunFreshQueryKeeps(env, s, FOR_UPGRADE_REJECTED);
    var queried := SpecRunFreshQuery(env, s, FOR_UPGRADE_REJECTED);
    if !Interrupted(queried) && HasLiveUpgrade(queried) {
      StaleRejectionKeeps(env, queried);
    }
  }

  // ----- public operations --------------------------------------------------------------------

  /** Between two operations: the invariant holds and no call is in flight. */
  ghost predicate Quiescent(env: Env, s: Session) { Inv(env, s) && !s.control.inFlight }

  lemma StartKeeps(env: Env, s: Session)
    requires Quiescent(env, s) && MintsFresh(env)
    ensures Quiescent(env, SpecStart(env, s))
  {
    hide SpecRunFreshQuery;
    assert Quiescent(env, StartOver(s)) by {
      hide IsPurposeCoherent, UpgradeFromFreshTruth, BaselineFromTemplate, ParseQueryResult;
    }
    RunFreshQueryKeeps(env, StartOver(s), FOR_START);
  }

  /** Reachable time is counted only by an eligible tick, and never negatively. */
  lemma CreditKeeps(env: Env, s: Session)
    requires Quiescent(env, s)
    ensures Quiescent(env, SpecCredit(env, s)) && SpecCredit(env, s).ports.journal == s.ports.journal
  {
    hide IsPurposeCoherent, UpgradeFromFreshTruth, BaselineFromTemplate, ParseQueryResult;
  }

  lemma FireTimerKeeps(env: Env, s: Session)
    requires Quiescent(env, s) && DelayDue(s)
    ensures Quiescent(env, SpecFireTimer(s))
  {
    hide IsPurposeCoherent, UpgradeFromFreshTruth, BaselineFromTemplate, ParseQueryResult;
  }

  lemma UnreachableKeeps(env: Env, s: Session, r: Session)
    requires Quiescent(env, s)
    requires r == s.(timing := r.timing, ports := s.ports.(clockReads := r.ports.clockReads),
                     trace := Then(s.trace, Unreachable))
    requires r.timing == s.timing.(lastReachableAtMs := None, reachableElapsedMs := r.timing.reachableElapsedMs)
    requires r.timing.reachableElapsedMs == s.timing.reachableElapsedMs || r.timing.reachableElapsedMs == 0
    ensures Quiescent(env, r)
  {
    hide IsPurposeCoherent, UpgradeFromFreshTruth, BaselineFromTemplate, ParseQueryResult;
  }

  lemma ReconnectedKeeps(env: Env, s: Session)
    requires Quiescent(env, s)
    ensures Quiescent(env, Reconnected(env, s))
  {
    var stopped := s.(timing := s.timing.(reachableElapsedMs := 0, lastReachableAtMs := None),
                      trace := Then(s.trace, Unreachable));
    UnreachableKeeps(env, s, stopped);
    CreditKeeps(env, stopped);
    hide Quiescent;
    assert SpecCredit(env, stopped) == Reconnected(env, s);
  }

  lemma AdvanceReachableKeeps(env: Env, s: Session, e: Eligibility)
    requires Quiescent(env, s)
    ensures Quiescent(env, SpecAdvanceReachable(env, s, e))
  {
    hide Inv, SpecCredit, SpecFireTimer, DelayDue;
    if e.Eligible() {
      CreditKeeps(env, s);
      if DelayDue(SpecCredit(env, s)) { FireTimerKeeps(env, SpecCredit(env, s)); }
    } else {
      UnreachableKeeps(env, s, SpecAdvanceReachable(env, s, e));
    }
  }

  lemma RevalidateKeeps(env: Env, s: Session, trigger: Reason)
    requires Quiescent(env, s) && MintsFresh(env)
    ensures Quiescent(env, SpecRevalidate(env, s, trigger))
  {
    hide SpecRunFreshQuery, EntryOk;
    RunFreshQueryKeeps(env, s.(control := s.control.(rejectionRefreshOnly :=
                                 s.control.rejectionRefreshOnly || trigger == FOR_AUTHORITATIVE_REJECTION),
                               phase := Resolving, projection := None, lastOutcomeCode := RevalidateCode(trigger)),
                       trigger);
  }

  lemma PollKeeps(env: Env, s: Session)
    requires Quiescent(env, s) && MintsFresh(env)
    ensures Quiescent(env, SpecPoll(env, s))
  {
    hide SpecRunFreshQuery, Inv, PollsInPhase;
    UnrelatedKeeps(env, s, ReadClock(s));
    RunFreshQueryKeeps(env, s, FOR_POLL);
    RunFreshQueryKeeps(env, ReadClock(s), FOR_POLL);
  }

  lemma TickKeeps(env: Env, s: Session, e: Eligibility)
    requires Quiescent(env, s) && MintsFresh(env)
    ensures Quiescent(env, SpecTick(env, s, e))
  {
    hide Inv, SpecAdvanceReachable, SpecPoll, SpecRevalidate, ExpiryDue;
    AdvanceReachableKeeps(env, s, e);
    var t := SpecAdvanceReachable(env, s, e);
    if e.Eligible() && !t.control.inFlight {
      if ShowsExpiry(t) && ExpiryDue(env, t) {
        var woken := ReadClock(t).(timing := t.timing.(
                                     lastExpiryWakeup := Some(Wakeup(t)),
                                     nextExpiryRecheckAtMs :=
                                       env.clock(t.ports.clockReads) + EXPIRY_RECHECK_INTERVAL_MS));
        UnrelatedKeeps(env, t, woken);
        RevalidateKeeps(env, woken, FOR_EXPIRY);
      } else {
        UnrelatedKeeps(env, t, ReadClock(t));
        PollKeeps(env, if ShowsExpiry(t) then ReadClock(t) else t);
      }
    }
  }

  lemma OfflineKeeps(env: Env, s: Session)
    requires Quiescent(env, s)
    ensures Quiescent(env, SpecOffline(s))
  {
    hide EntryOk;
    var stopped := s.(timing := s.timing.(reachableElapsedMs := 0, lastReachableAtMs := None),
                      trace := Then(s.trace, Unreachable));
    UnreachableKeeps(env, s, stopped);
  }

  lemma ConnectivityKeeps(env: Env, s: Session, event: ConnectivityEvent)
    requires Quiescent(env, s) && MintsFresh(env)
    ensures Quiescent(env, SpecOnConnectivity(env, s, event))
  {
    hide EntryOk, SpecRunFreshQuery;
    if event == Online {
      ReconnectedKeeps(env, s);
      RunFreshQueryKeeps(env, Reconnected(env, s), FOR_RECONNECT);
      hide Inv;
    } else if event != Paused {
      OfflineKeeps(env, s);
      hide Inv;
    }
  }

  lemma RetryExactKeeps(env: Env, s: Session)
    requires Quiescent(env, s) && MintsFresh(env)
    ensures Quiescent(env, SpecRetryExact(env, s))
  {
    if HasPending(s) {
      var marked := s.(timing := s.timing.(confirmationStartedReachableMs := Some(s.timing.reachableElapsedMs)),
                       lastOutcomeCode := RetryExactCode, trace := Then(s.trace, Marked));
      MarkKeeps(env, s, marked);
      SubmitPendingKeeps(env, marked, s.pending.record.value);
    } else {
      StartKeeps(env, s);
    }
    hide SpecSubmitPending, SpecStart, EntryOk;
  }

  lemma RecoverKeeps(env: Env, s: Session)
    requires Quiescent(env, s) && MintsFresh(env)
    ensures Quiescent(env, SpecRecoverFromError(env, s))
  {
    hide SpecRetryExact, SpecRunFreshQuery, Inv;
    var t := s.(control := s.control.(rejectionRefreshOnly := false));
    UnrelatedKeeps(env, s, t);
    RetryExactKeeps(env, t);
    RunFreshQueryKeeps(env, t, FOR_RECOVERY);
  }

  /** The fresh licence of a confirmation yields an upgrade that may be sealed. */
  lemma UpgradeEntry(env: Env, s: Session, displayed: SafeProjection, plan: string, record: PendingRecord)
    requires Base(env, s) && !s.control.cancelled && s.projection.Some? && HeldNow(s.trace).None? && IsFresh(s)
    requires CurrentCall(s.trace) ==
             Some((ConfirmUpgrade(Some(plan)), Some(Shown(displayed.licenceReference, displayed.planId))))
    requires var current := s.projection.value;
             && current.licenceReference == displayed.licenceReference && current.planId == displayed.planId
             && current.planId != plan && plan in PlanIds(current.higherOptions)
             && StageUpgrade(env.actor, env.network, env.digestOf, env.mint(s.ports.minted), BindingFor(current, plan))
             == Staged(record)
    ensures EntryOk(env, s.trace, SealedNew(record))
    ensures record.IsUpgrade() && record.Core() == record
    ensures record.transactionId == env.mint(s.ports.minted).transactionId
    ensures record.identityBinding == env.actor && record.networkBinding == env.network
  {
    hide IsPurposeCoherent, BaselineFromTemplate, ParseQueryResult, UnsignedTransaction, TraceOk, RefuseUpgrade;
  }

  lemma ConfirmFreshKeeps(env: Env, s: Session, displayed: SafeProjection, plan: string)
    requires Quiescent(env, s) && MintsFresh(env) && NoUpgrade(s) && IsFresh(s)
    requires CurrentCall(s.trace) ==
             Some((ConfirmUpgrade(Some(plan)), Some(Shown(displayed.licenceReference, displayed.planId))))
    ensures Quiescent(env, SpecConfirmFresh(env, s, displayed, plan))
  {
    hide EntryOk, SpecSealAndSubmit, StageUpgrade;
    if !HasLiveUpgrade(s) && s.phase == EntitlementReady && s.projection.Some? {
      var current := s.projection.value;
      var staged := StageUpgrade(env.actor, env.network, env.digestOf, env.mint(s.ports.minted),
                                 BindingFor(current, plan));
      if staged.Staged? && current.licenceReference == displayed.licenceReference
         && current.planId == displayed.planId && current.planId != plan && plan in PlanIds(current.higherOptions) {
        UpgradeEntry(env, s, displayed, plan, staged.record);
        SealAndSubmitKeeps(env, Mint(s), staged.record);
      }
    }
  }

  lemma ConfirmUpgradeKeeps(env: Env, s: Session, target: Option<string>)
    requires Quiescent(env, s) && MintsFresh(env)
    requires CurrentCall(s.trace) == Some((ConfirmUpgrade(target), Displayed(s)))
    ensures Quiescent(env, SpecConfirmUpgrade(env, s, target))
  {
    hide EntryOk, SpecRunFreshQuery, SpecConfirmFresh;
    var t := ClearNotices(s);
    assert Quiescent(env, t);
    if t.phase == EntitlementReady && t.pending.record.None? && t.projection.Some? {
      assert NoUpgrade(t);
      RunFreshQueryKeeps(env, t, FOR_CONFIRM_UPGRADE);
      var queried := SpecRunFreshQuery(env, t, FOR_CONFIRM_UPGRADE);
      if IsBoundedPlanId(target) && !Interrupted(queried) {
        ConfirmFreshKeeps(env, queried, t.projection.value, target.value);
      }
    }
  }

  lemma BeginKeeps(env: Env, s: Session, step: Step)
    requires Quiescent(env, s)
    ensures Quiescent(env, Begin(s, step)) && CurrentCall(Begin(s, step).trace) == Some((step.op, Displayed(s)))
  {
    hide IsPurposeCoherent, UpgradeFromFreshTruth, BaselineFromTemplate, ParseQueryResult;
  }

  lemma SimpleKeeps(env: Env, s: Session)
    requires Quiescent(env, s)
    ensures Quiescent(env, SpecAcknowledge(s)) && Quiescent(env, SpecLock(s)) && Quiescent(env, SpecRestart(s))
  {
    hide IsPurposeCoherent, UpgradeFromFreshTruth, BaselineFromTemplate, ParseQueryResult;
  }

  lemma PerformKeeps(env: Env, s: Session, step: Step)
    requires Quiescent(env, s) && MintsFresh(env)
    ensures Quiescent(env, SpecPerform(env, s, step))
  {
    hide Quiescent, SpecStart, SpecTick, SpecOnConnectivity, SpecRetryExact, SpecRecoverFromError, SpecRevalidate,
      SpecConfirmUpgrade;
    BeginKeeps(env, s, step);
    var t := Begin(s, step);
    match step.op
    case Start => StartKeeps(env, t);
    case Tick(e) => TickKeeps(env, t, e);
    case OnConnectivity(event) => ConnectivityKeeps(env, t, event);
    case RetryExact => RetryExactKeeps(env, t);
    case RecoverFromError => RecoverKeeps(env, t);
    case Revalidate(trigger) => RevalidateKeeps(env, t, trigger);
    case ConfirmUpgrade(target) => ConfirmUpgradeKeeps(env, t, target);
    case AcknowledgeOutcome => SimpleKeeps(env, t);
    case LockOp => SimpleKeeps(env, t);
    case Restart => SimpleKeeps(env, t);
  }

  /** Every reachable state between two operations is quiescent. */
  lemma {:induction false} RunKeeps(env: Env, steps: seq<Step>)
    requires MintsFresh(env)
    ensures Quiescent(env, Run(env, steps))
  {
    if steps != [] {
      RunKeeps(env, steps[..|steps| - 1]);
      PerformKeeps(env, Run(env, steps[..|steps| - 1]), steps[|steps| - 1]);
      hide SpecPerform;
    }
  }
}
