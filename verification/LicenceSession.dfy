/**
  The licence entitlement coordinator as a transition system (coordinator.ts): its fields, the
  ports it drives and the log of what it did, with one function for each of its operations.
  The class in LicenceCoordinator.dfy is proved to be this system; LicenceSessionSafety.dfy
  proves what every run of it keeps.
*/
module LicenceSession {
  import opened Wrappers
  import opened LicenceContracts
  import opened LicenceProjection
  import opened LicenceQueryParser
  import opened LicencePending

  const POLL_INTERVAL_MS: int := 3_000
  const CONFIRMATION_DELAYED_MS: int := 30_000
  const EXPIRY_RECHECK_INTERVAL_MS: int := 60_000

  datatype Phase =
    | Resolving | BaselineSigning | BaselineSubmitting | AwaitingIndex | ConfirmationDelayed
    | EntitlementUnavailable | EntitlementUnsupported | EntitlementRepair | EntitlementReady | LockedOut

  datatype Eligibility = Eligibility(authenticated: bool, foregrounded: bool, reachable: bool)
  {
    predicate Eligible() { authenticated && foregrounded && reachable }
  }

  datatype ConnectivityEvent = Online | Paused | Offline | Reconnecting

  /** Why a query is made: one of the fixed reasons, or the text a caller passed to `revalidate`. */
  type Reason = string

  const FOR_START: Reason := "start"
  const FOR_POLL: Reason := "poll"
  const FOR_RECONNECT: Reason := "reconnect"
  const FOR_RECOVERY: Reason := "recovery"
  const FOR_RETRY: Reason := "retry"
  const FOR_CONFIRM_UPGRADE: Reason := "confirm-upgrade"
  const FOR_ALREADY_EXISTS: Reason := "already-exists"
  const FOR_UPGRADE_REJECTED: Reason := "upgrade-rejected"
  const FOR_EXPIRY: Reason := "expiry"
  const FOR_AUTHORITATIVE_REJECTION: Reason := "authoritative-rejection"

  datatype OutcomeCode =
    | NoOutcome | CodeOffline | UpgradeChainPaused | ChainPaused | RetryExactCode | RevalidateCode(trigger: Reason)
    | UpgradeInvalidInput | UpgradeAlreadyPending | UpgradeNotReady | UpgradeStaleCurrentChanged
    | UpgradeStaleCatalogueChanged | UpgradeOutcomeAcknowledged | Locked | UpgradeConfirmationDelayed
    | ConfirmationDelayedCode | UnauthenticatedRetryOnce | UnauthenticatedForcedLock | ReadyCode
    | ServerCode(code: string) | PlanFamilyUnknown | CatalogueIncompatible | UnsupportedCode
    | TransportUncertain | MalformedResponseCode | TerminalGuidance | AuthoritativeRejectionQueryOnly
    | UpgradeNoActiveQueryOnly | StillWaiting | NoActiveResubmitExact | ConstructingBaseline | TemplateRejected
    | JournalUnavailable | UpgradePendingOldCurrent | UpgradeLocalSuccess | UpgradeCompetingActivation
    | UpgradeRecordMissingBinding | AcceptedCode | PendingCode | AlreadyExistsQueryNow
    | UpgradeTerminalRejectedRequery | TerminalRejectedCode | SubmitUncertain | UpgradeStaleRejection
    | UpgradeTemplateRejected(refusal: UpgradeRefusal)

  datatype StaleReason = CurrentChanged | CatalogueChanged | StaleRejection

  datatype UpgradeOperation = UpgradeOperation(pendingTransactionId: string, expectedCurrentPlanId: string,
                                               targetPlanId: string, observedCatalogueVersion: string,
                                               sealedAtUtc: string)

  datatype Terminal = LocalSuccess(operation: UpgradeOperation) | CompetingActivation | Stale(reason: StaleReason)

  /** One answer of an asynchronous port: `lock()` may fire before it arrives, and it may reject. */
  datatype PortEvent = PortEvent(lockFires: bool, rejects: bool, query: QueryTransportResult, admission: Admission)

  /**
    The fixed surroundings of a session. The functions are oracles: the readings of the clock,
    the identities minted, whether the n-th save succeeds and which saved version the journal
    then shows. `dateParse` is None where `Date.parse` is not a number.
  */
  datatype Env = Env(
    actor: string, network: string,
    clock: nat -> int, mint: nat -> Identity, saveOk: nat -> bool, shown: nat -> nat,
    intentOf: string -> Option<Intent>, digestOf: string -> string,
    isoOf: int -> string, dateParse: string -> Option<int>)

  /** One transaction of the journal: the records saved under its id, and the one it shows. */
  datatype Slot = Slot(id: string, versions: seq<PendingRecord>, shown: nat)

  /** What the confirmation surface displayed when an operation began. */
  datatype Shown = Shown(licenceReference: string, planId: string)

  datatype Op =
    | Start
    | Tick(eligibility: Eligibility)
    | OnConnectivity(event: ConnectivityEvent)
    | RetryExact
    | RecoverFromError
    | Revalidate(trigger: Reason)
    | ConfirmUpgrade(target: Option<string>)
    | AcknowledgeOutcome
    | LockOp
    | Restart          // the process ends; the journal survives

  datatype Entry =
    | Began(op: Op, displayed: Option<Shown>)
    | Started
    | Restarted
    | LockFired
    | Asked                                // a query was issued
    | Answered(result: QueryTransportResult, outcome: QueryOutcome, at: int)   // and its answer was used
    | SealedNew(record: PendingRecord)     // first save of a new transaction
    | SavedAgain(record: PendingRecord)    // later save of the same transaction
    | Deleted(id: string)
    // handed to the submission port, with what the journal then showed under its id
    | Submitted(record: PendingRecord, journaled: Option<PendingRecord>)
    | Succeeded(id: string)                // local success was recorded for this sealed upgrade
    | Marked                               // the confirmation window restarted
    | Reached(now: int)                    // the clock, read while time counts
    | Unreachable                          // time stopped counting
    | TimerFired                           // the window elapsed

  /** What happened so far, latest last. */
  datatype Trace = Nothing | Then(before: Trace, last: Entry)

  datatype InMemory = InMemory(id: Option<string>, record: Option<PendingRecord>)

  datatype Control = Control(
    inFlight: bool, cancelled: bool, needsImmediateQuery: bool, rejectionRefreshOnly: bool,
    consecutiveUnauthenticated: nat, attemptCount: nat,
    thrown: bool)   // an exception of a port is propagating

  datatype Timing = Timing(
    lastQueryAtMs: Option<int>, reachableElapsedMs: int, lastReachableAtMs: Option<int>,
    confirmationStartedReachableMs: Option<int>, lastExpiryWakeup: Option<(string, string)>,
    nextExpiryRecheckAtMs: int)

  datatype UpgradeNotice = UpgradeNotice(
    notificationEligible: bool, delayed: bool, terminal: Option<Terminal>, rejectedRequery: bool)

  datatype Ports = Ports(tape: seq<PortEvent>, journal: seq<Slot>, clockReads: nat, minted: nat, saves: nat)

  /** The fields of the coordinator, grouped, with its ports and the log of the session. */
  datatype Session = Session(
    phase: Phase, projection: Option<SafeProjection>, lastOutcomeCode: OutcomeCode,
    pending: InMemory, control: Control, timing: Timing, upgrade: UpgradeNotice,
    ports: Ports, trace: Trace)

  const NOTHING_PENDING := InMemory(None, None)

  function Log(s: Session, e: Entry): Session { s.(trace := Then(s.trace, e)) }

  // ----- the journal port ---------------------------------------------------------------------

  function Find(journal: seq<Slot>, id: string): nat
    ensures Find(journal, id) <= |journal|
    ensures Find(journal, id) < |journal| ==> journal[Find(journal, id)].id == id
  {
    if journal == [] || journal[0].id == id then 0 else 1 + Find(journal[1..], id)
  }

  function ShownVersion(slot: Slot): Option<PendingRecord> {
    if slot.shown < |slot.versions| then Some(slot.versions[slot.shown]) else None
  }

  function Load(journal: seq<Slot>, id: string): Option<PendingRecord> {
    var at := Find(journal, id);
    if at == |journal| then None else ShownVersion(journal[at])
  }

  function LoadForIdentity(journal: seq<Slot>, actor: string, network: string): Option<PendingRecord> {
    if journal == [] then None
    else
      var first := ShownVersion(journal[0]);
      if first.Some? && first.value.identityBinding == actor && first.value.networkBinding == network then first
      else LoadForIdentity(journal[1..], actor, network)
  }

  function Store(journal: seq<Slot>, record: PendingRecord, pick: nat): seq<Slot> {
    var at := Find(journal, record.transactionId);
    var versions := if at == |journal| then [record] else journal[at].versions + [record];
    var slot := Slot(record.transactionId, versions, pick % |versions|);
    if at == |journal| then journal + [slot] else journal[at := slot]
  }

  function Remove(journal: seq<Slot>, id: string): seq<Slot> {
    var at := Find(journal, id);
    if at == |journal| then journal else journal[..at] + journal[at + 1..]
  }

  /** `savePending`: the ports afterwards. Whether it succeeded is `env.saveOk(p.saves)`. */
  function Save(env: Env, p: Ports, record: PendingRecord): Ports {
    p.(saves := p.saves + 1,
       journal := if env.saveOk(p.saves) then Store(p.journal, record, env.shown(p.saves)) else p.journal)
  }

  /** A save of a transaction that the journal already holds; logged when it succeeds. */
  function SaveAgain(env: Env, s: Session, record: PendingRecord): Session {
    s.(ports := Save(env, s.ports, record),
       trace := if env.saveOk(s.ports.saves) then Then(s.trace, SavedAgain(record)) else s.trace)
  }

  // ----- helpers of the coordinator -----------------------------------------------------------

  predicate HasLiveUpgrade(s: Session) {
    s.pending.record.Some? && s.pending.id.Some? && s.pending.record.value.IsUpgrade()
  }

  function OperationOf(record: PendingRecord, binding: UpgradeBinding): UpgradeOperation {
    UpgradeOperation(record.transactionId, binding.expectedCurrentPlanId, binding.requestedPlanId,
                     binding.observedCatalogueVersion, record.createdUtc)
  }

  function SpecLock(s: Session): Session {
    s.(phase := LockedOut, projection := None, lastOutcomeCode := Locked, pending := NOTHING_PENDING,
       control := s.control.(cancelled := true, inFlight := false),
       upgrade := UpgradeNotice(false, false, None, false),
       trace := Then(s.trace, LockFired))
  }

  /**
    Waiting for a port. With no answer left it rejects; otherwise `lock()` may fire first.
    The answer itself is read from the head of the tape.
  */
  function SpecAwait(s: Session): Session {
    if s.ports.tape == [] then s.(control := s.control.(thrown := true))
    else
      var resumed := s.(ports := s.ports.(tape := s.ports.tape[1..]));
      var locked := if s.ports.tape[0].lockFires then SpecLock(resumed) else resumed;
      if s.ports.tape[0].rejects then locked.(control := locked.control.(thrown := true)) else locked
  }

  predicate Interrupted(s: Session) { s.control.thrown || s.control.cancelled }

  function SpecFindBound(env: Env, s: Session): Option<PendingRecord> {
    var direct := if s.pending.id.Some? then Load(s.ports.journal, s.pending.id.value) else None;
    if direct.Some? then direct else LoadForIdentity(s.ports.journal, env.actor, env.network)
  }

  function Attach(s: Session, record: PendingRecord): Session {
    s.(pending := InMemory(Some(record.transactionId), Some(record)))
  }

  function SpecAttach(env: Env, s: Session): Session {
    if s.pending.record.Some? || s.pending.id.Some? then s
    else
      var bound := SpecFindBound(env, s);
      if bound.None? then s else Attach(s, bound.value)
  }

  /** `retirePending`: the final state is saved, then the transaction is deleted. */
  function SpecRetire(env: Env, s: Session, state: RecoveryState): Session {
    if s.pending.id.None? then s
    else
      var id := s.pending.id.value;
      var loaded := Load(s.ports.journal, id);
      var marked := if loaded.None? then s else SaveAgain(env, s, loaded.value.(recoveryState := state));
      marked.(ports := marked.ports.(journal := Remove(marked.ports.journal, id)),
              trace := Then(marked.trace, Deleted(id)))
  }

  /** Retiring the pending record, and forgetting it in memory. */
  function SpecResolve(env: Env, s: Session, state: RecoveryState): Session {
    SpecRetire(env, s, state).(pending := NOTHING_PENDING)
  }

  function SpecReconcileUpgrade(env: Env, s: Session, record: PendingRecord, active: string): Session
    requires record.IsUpgrade()
  {
    var binding := record.upgradeBinding.value;
    if active == binding.expectedCurrentTransactionId then s.(lastOutcomeCode := UpgradePendingOldCurrent)
    else if active == record.transactionId then
      var resolved := SpecResolve(env, s, ConfirmedIndexed);
      resolved.(upgrade := resolved.upgrade.(terminal := Some(LocalSuccess(OperationOf(record, binding))),
                                             notificationEligible := true, delayed := false),
                lastOutcomeCode := UpgradeLocalSuccess,
                trace := Then(resolved.trace, Succeeded(record.transactionId)))
    else
      var resolved := SpecResolve(env, s, Superseded);
      resolved.(upgrade := resolved.upgrade.(terminal := Some(CompetingActivation), delayed := false),
                lastOutcomeCode := UpgradeCompetingActivation)
  }

  /** Whether the reconciliation is that of an upgrade, which sets its own outcome code. */
  predicate ReconcilesUpgrade(s: Session) { HasLiveUpgrade(s) }

  function SpecReconcile(env: Env, s: Session, active: string): Session {
    if s.pending.id.None? then s
    else if ReconcilesUpgrade(s) then SpecReconcileUpgrade(env, s, s.pending.record.value, active)
    else SpecResolve(env, s, if active == s.pending.id.value then ConfirmedIndexed else Superseded)
  }

  function AfterAttempt(env: Env, s: Session, record: PendingRecord, admission: Admission): PendingRecord {
    record.(
      recoveryState :=
        if admission == TerminalRejected then Unrecoverable
        else if record.recoveryState != Sealed then record.recoveryState
        else if admission == Accepted then WaitingAccepted
        else WaitingPending,
      attemptEvidence := record.attemptEvidence + [Attempt(env.isoOf(env.clock(s.ports.clockReads)), admission)])
  }

  function ReadClock(s: Session): Session { s.(ports := s.ports.(clockReads := s.ports.clockReads + 1)) }

  /** `recordAttempt`: the result of the save is ignored, the memory copy is always updated. */
  function SpecRecordAttempt(env: Env, s: Session, record: PendingRecord, admission: Admission): Session {
    var updated := AfterAttempt(env, s, record, admission);
    SaveAgain(env, ReadClock(s), updated).(pending := s.pending.(record := Some(updated)))
  }

  /** What one admission result decides, before any further query. */
  function SpecAdmission(s: Session, record: PendingRecord, admission: Admission): Session {
    var waiting := if record.IsUpgrade() && s.projection.Some? then EntitlementReady else AwaitingIndex;
    match admission
    case Accepted => s.(phase := waiting, lastOutcomeCode := AcceptedCode)
    case Pending => s.(phase := waiting, lastOutcomeCode := PendingCode)
    case AlreadyExists =>
      s.(phase := Resolving, lastOutcomeCode := AlreadyExistsQueryNow,
         control := s.control.(needsImmediateQuery := true))
    case TerminalRejected =>
      if record.IsUpgrade()
      then s.(upgrade := s.upgrade.(rejectedRequery := true), lastOutcomeCode := UpgradeTerminalRejectedRequery)
      else s.(phase := EntitlementRepair, lastOutcomeCode := TerminalRejectedCode)
    case Uncertain => s.(phase := waiting, lastOutcomeCode := SubmitUncertain)
  }

  function Landed(s: Session): Session { s.(control := s.control.(inFlight := false)) }

  // ----- queries and submissions --------------------------------------------------------------
  // These functions call one another as the methods do; every query and every submission
  // consumes one answer of the tape.

  function SpecRunFreshQuery(env: Env, s: Session, reason: Reason): (r: Session)
    ensures |r.ports.tape| <= |s.ports.tape|
    decreases |s.ports.tape|, 4
  {
    if s.control.inFlight || s.control.cancelled then s
    else Landed(SpecQueryAttempt(env, s.(control := s.control.(inFlight := true)), reason, 1))
  }

  function Answer(env: Env, back: Session, result: QueryTransportResult, outcome: QueryOutcome): Session {
    var now := env.clock(back.ports.clockReads);
    ReadClock(back).(timing := back.timing.(lastQueryAtMs := Some(now)),
                     trace := Then(back.trace, Answered(result, outcome, now)))
  }

  function CountRefusals(s: Session, times: nat): Session {
    s.(control := s.control.(consecutiveUnauthenticated := times))
  }

  function SpecForcedLock(s: Session): Session {
    CountRefusals(s, 2).(phase := LockedOut, projection := None, pending := NOTHING_PENDING,
                           lastOutcomeCode := UnauthenticatedForcedLock)
  }

  function SpecAsk(s: Session): Session {
    SpecAwait(s.(control := s.control.(attemptCount := s.control.attemptCount + 1), trace := Then(s.trace, Asked)))
  }

  function SpecQueryAttempt(env: Env, s: Session, reason: Reason, attempt: nat): (r: Session)
    ensures |r.ports.tape| <= |s.ports.tape|
    decreases |s.ports.tape|, 3
  {
    var back := SpecAsk(s);
    if Interrupted(back) then back
    else
      var result := s.ports.tape[0].query;
      var outcome := ParseQueryResult(result, env.actor, env.network);
      var done := Answer(env, back, result, outcome);
      if !outcome.NotAuthenticated? then SpecApplyOutcome(env, CountRefusals(done, 0), outcome, reason)
      else if attempt == 1 && reason != FOR_RETRY then
        SpecQueryAttempt(env, CountRefusals(done, 1).(lastOutcomeCode := UnauthenticatedRetryOnce), reason, 2)
      else SpecForcedLock(done)
  }

  function SpecReady(env: Env, s: Session, projection: SafeProjection): Session {
    var attached := SpecAttach(env, s);
    var reconciled := SpecReconcile(env, attached, projection.licenceReference);
    reconciled.(control := reconciled.control.(rejectionRefreshOnly := false),
                projection := Some(projection), phase := EntitlementReady,
                lastOutcomeCode := if ReconcilesUpgrade(attached) then reconciled.lastOutcomeCode else ReadyCode)
  }

  /** An outcome that ends the entitlement without any further call. */
  function Gate(s: Session, phase: Phase, code: OutcomeCode): Session {
    s.(projection := None, phase := phase, lastOutcomeCode := code)
  }

  function UnsupportedOutcome(reason: RejectionReason): OutcomeCode {
    if reason.UnknownPlanFamily? then PlanFamilyUnknown
    else if reason.IncompatibleCatalogueVersion? then CatalogueIncompatible
    else UnsupportedCode
  }

  function SpecApplyOutcome(env: Env, s: Session, outcome: QueryOutcome, reason: Reason): (r: Session)
    requires !outcome.NotAuthenticated?
    ensures |r.ports.tape| <= |s.ports.tape|
    decreases |s.ports.tape|, 6
  {
    match outcome
    case Ready(projection) => SpecReady(env, s, projection)
    case NoActiveLicence(template) => SpecHandleNoActive(env, s.(projection := None), template, reason)
    case LicenceUnavailable(code) => Gate(s, EntitlementUnavailable, ServerCode(code))
    case Unsupported(why) => Gate(s, EntitlementUnsupported, UnsupportedOutcome(why))
    case TransportFailure =>
      Gate(s, if s.pending.record.Some? && s.pending.id.Some? then AwaitingIndex else EntitlementUnavailable,
           TransportUncertain)
    case MalformedResponse => Gate(s, EntitlementRepair, MalformedResponseCode)
    case Guidance => Gate(s, EntitlementUnsupported, TerminalGuidance)
  }

  function SpecHandleNoActive(env: Env, s: Session, template: TemplateView, reason: Reason): (r: Session)
    ensures |r.ports.tape| <= |s.ports.tape|
    decreases |s.ports.tape|, 5
  {
    if s.control.rejectionRefreshOnly then Gate(s, EntitlementUnavailable, AuthoritativeRejectionQueryOnly)
    else
      var bound := SpecFindBound(env, s);
      if bound.Some? then
        var attached := Attach(s, bound.value);
        if bound.value.IsUpgrade() then
          attached.(phase := AwaitingIndex, lastOutcomeCode := UpgradeNoActiveQueryOnly)
        else if reason == FOR_POLL then
          if attached.phase == ConfirmationDelayed then attached
          else attached.(phase := AwaitingIndex, lastOutcomeCode := StillWaiting)
        else
          SpecSubmitPending(env, attached.(lastOutcomeCode := NoActiveResubmitExact), bound.value)
      else
        var signing := Mint(s).(phase := BaselineSigning, lastOutcomeCode := ConstructingBaseline);
        var staged := StageBaseline(env.actor, env.network, env.digestOf, env.mint(s.ports.minted), template);
        if staged.NotStaged? then
          signing.(phase := EntitlementRepair, lastOutcomeCode := TemplateRejected)
        else SpecSealAndSubmit(env, signing, staged.record)
  }

  function Mint(s: Session): Session { s.(ports := s.ports.(minted := s.ports.minted + 1)) }

  function Seal(env: Env, s: Session, record: PendingRecord): Session {
    Attach(s, record).(ports := Save(env, s.ports, record), trace := Then(s.trace, SealedNew(record)))
  }

  /** Seal-before-submit: the new record is saved first, and submitted only if the save succeeded. */
  function SpecSealAndSubmit(env: Env, s: Session, record: PendingRecord): (r: Session)
    ensures |r.ports.tape| <= |s.ports.tape|
    decreases |s.ports.tape|, 4
  {
    if !env.saveOk(s.ports.saves) then
      s.(ports := Save(env, s.ports, record), phase := EntitlementRepair, lastOutcomeCode := JournalUnavailable)
    else SpecSubmitPending(env, Seal(env, s, record), record)
  }

  /** The state in which one record is handed to the submission port. */
  function Send(s: Session, record: PendingRecord): Session {
    s.(phase := BaselineSubmitting,
       control := s.control.(inFlight := true),
       timing := s.timing.(confirmationStartedReachableMs := Some(s.timing.reachableElapsedMs)),
       upgrade := s.upgrade.(delayed := false),
       trace := Then(Then(s.trace, Marked), Submitted(record, Load(s.ports.journal, record.transactionId))))
  }

  function SpecSubmitPending(env: Env, s: Session, record: PendingRecord): (r: Session)
    ensures |r.ports.tape| <= |s.ports.tape|
    decreases |s.ports.tape|, 3
  {
    if s.control.cancelled then s
    else if !IsPurposeCoherent(env.intentOf(record.transaction.exactJson), record) then
      s.(phase := EntitlementRepair, lastOutcomeCode := UpgradeRecordMissingBinding)
    else
      var back := SpecAwait(Send(s, record));
      if Interrupted(back) then Landed(back)
      else SpecAfterAdmission(env, back, record, s.ports.tape[0].admission)
  }

  /** The rest of `submitPending`: the admission is recorded and decided, then queries it asks for run. */
  function SpecAfterAdmission(env: Env, s: Session, record: PendingRecord, admission: Admission): (r: Session)
    ensures |r.ports.tape| <= |s.ports.tape|
    decreases |s.ports.tape|, 6
  {
    var decided := Landed(SpecAdmission(SpecRecordAttempt(env, s, record, admission), record, admission));
    var queried :=
      if decided.control.needsImmediateQuery && !decided.control.cancelled
      then SpecRunFreshQuery(env, decided.(control := decided.control.(needsImmediateQuery := false)),
                             FOR_ALREADY_EXISTS)
      else decided;
    if !queried.control.thrown && queried.upgrade.rejectedRequery && !queried.control.cancelled
    then SpecReconcileRejected(env, queried.(upgrade := queried.upgrade.(rejectedRequery := false)))
    else queried
  }

  function SpecReconcileRejected(env: Env, s: Session): (r: Session)
    ensures |r.ports.tape| <= |s.ports.tape|
    decreases |s.ports.tape|, 5
  {
    var queried := SpecRunFreshQuery(env, s, FOR_UPGRADE_REJECTED);
    if Interrupted(queried) || s.pending.id.None? then queried
    else if HasLiveUpgrade(queried) && queried.phase == EntitlementReady && queried.projection.Some? then
      SpecStaleRejection(env, queried)
    else queried
  }

  function SpecStaleRejection(env: Env, s: Session): Session {
    var resolved := SpecResolve(env, s, Retired);
    resolved.(upgrade := resolved.upgrade.(terminal := Some(Stale(StaleRejection)), delayed := false),
              lastOutcomeCode := UpgradeStaleRejection)
  }

  // ----- public operations --------------------------------------------------------------------

  function StartOver(s: Session): Session {
    s.(phase := Resolving, projection := None,
       control := s.control.(cancelled := false, attemptCount := 0, consecutiveUnauthenticated := 0),
       timing := s.timing.(lastExpiryWakeup := None, nextExpiryRecheckAtMs := 0),
       upgrade := UpgradeNotice(false, false, None, false),
       trace := Then(s.trace, Started))
  }

  function SpecStart(env: Env, s: Session): Session { SpecRunFreshQuery(env, StartOver(s), FOR_START) }

  function Max(a: int, b: int): int { if a < b then b else a }

  /** The reachable clock advanced by one tick, before the delay is judged. */
  function SpecCredit(env: Env, s: Session): Session {
    var now := env.clock(s.ports.clockReads);
    var read := ReadClock(s);
    if s.timing.lastReachableAtMs.None? then
      read.(timing := s.timing.(lastReachableAtMs := Some(now)), trace := Then(s.trace, Reached(now)))
    else
      var delta := Max(0, now - s.timing.lastReachableAtMs.value);
      read.(timing := s.timing.(lastReachableAtMs := Some(now),
                                reachableElapsedMs := s.timing.reachableElapsedMs + delta),
            trace := Then(s.trace, Reached(now)))
  }

  /** The window since the latest mark has elapsed while something is awaited. */
  predicate DelayDue(s: Session) {
    && s.timing.confirmationStartedReachableMs.Some?
    && s.timing.reachableElapsedMs - s.timing.confirmationStartedReachableMs.value >= CONFIRMATION_DELAYED_MS
    && (s.phase == AwaitingIndex || s.phase == BaselineSubmitting || (s.phase == EntitlementReady && HasLiveUpgrade(s)))
  }

  function SpecFireTimer(s: Session): Session {
    if HasLiveUpgrade(s) && s.projection.Some?
    then s.(upgrade := s.upgrade.(delayed := true), lastOutcomeCode := UpgradeConfirmationDelayed,
            trace := Then(s.trace, TimerFired))
    else s.(phase := ConfirmationDelayed, lastOutcomeCode := ConfirmationDelayedCode,
            trace := Then(s.trace, TimerFired))
  }

  function SpecAdvanceReachable(env: Env, s: Session, e: Eligibility): Session {
    if !e.Eligible() then
      ReadClock(s).(timing := s.timing.(lastReachableAtMs := None), trace := Then(s.trace, Unreachable))
    else
      var credited := SpecCredit(env, s);
      if DelayDue(credited) then SpecFireTimer(credited) else credited
  }

  predicate ShowsExpiry(s: Session) {
    s.phase == EntitlementReady && s.projection.Some? && s.projection.value.expiresAtUtc.Some?
  }

  function Wakeup(s: Session): (string, string)
    requires ShowsExpiry(s)
  {
    (s.projection.value.licenceReference, s.projection.value.expiresAtUtc.value)
  }

  /** The expiry boundary of the current licence has passed and is due for a (re)check. */
  predicate ExpiryDue(env: Env, s: Session)
    requires ShowsExpiry(s)
  {
    var boundary := env.dateParse(s.projection.value.expiresAtUtc.value);
    var now := env.clock(s.ports.clockReads);
    && boundary.Some? && now >= boundary.value
    && (s.timing.lastExpiryWakeup != Some(Wakeup(s)) || now >= s.timing.nextExpiryRecheckAtMs)
  }

  predicate PollsInPhase(s: Session) {
    || s.phase == AwaitingIndex || s.phase == ConfirmationDelayed || s.phase == EntitlementUnavailable
    || (s.phase == EntitlementReady && HasLiveUpgrade(s))
  }

  function SpecTick(env: Env, s: Session, e: Eligibility): Session {
    var t := SpecAdvanceReachable(env, s, e);
    if !e.Eligible() || t.control.inFlight then t
    else if ShowsExpiry(t) && ExpiryDue(env, t) then
      SpecRevalidate(env, ReadClock(t).(timing := t.timing.(
                                          lastExpiryWakeup := Some(Wakeup(t)),
                                          nextExpiryRecheckAtMs :=
                                            env.clock(t.ports.clockReads) + EXPIRY_RECHECK_INTERVAL_MS)),
                     FOR_EXPIRY)
    else SpecPoll(env, if ShowsExpiry(t) then ReadClock(t) else t)
  }

  /** The query-only cadence: at most one query in three seconds, and only while waiting. */
  function SpecPoll(env: Env, s: Session): Session {
    if !PollsInPhase(s) then s
    else if s.timing.lastQueryAtMs.None? then SpecRunFreshQuery(env, s, FOR_POLL)
    else if env.clock(s.ports.clockReads) - s.timing.lastQueryAtMs.value < POLL_INTERVAL_MS then ReadClock(s)
    else SpecRunFreshQuery(env, ReadClock(s), FOR_POLL)
  }

  function SpecPaused(s: Session): Session {
    if HasLiveUpgrade(s) && s.projection.Some? then
      s.(upgrade := s.upgrade.(delayed := true), lastOutcomeCode := UpgradeChainPaused)
    else if s.phase == AwaitingIndex then s.(phase := ConfirmationDelayed, lastOutcomeCode := ChainPaused)
    else s
  }

  /** Reachable time starts again, from nothing. */
  function Reconnected(env: Env, s: Session): Session {
    var now := env.clock(s.ports.clockReads);
    ReadClock(s).(timing := s.timing.(reachableElapsedMs := 0, lastReachableAtMs := Some(now)),
                  trace := Then(Then(s.trace, Unreachable), Reached(now)))
  }

  function SpecOnline(env: Env, s: Session): Session {
    var t := Reconnected(env, s);
    if t.phase == Resolving || t.phase == ConfirmationDelayed || t.phase == EntitlementUnavailable
    then SpecRunFreshQuery(env, t, FOR_RECONNECT) else t
  }

  function SpecOffline(s: Session): Session {
    s.(phase := if s.phase == LockedOut then LockedOut else Resolving, projection := None,
       timing := s.timing.(reachableElapsedMs := 0, lastReachableAtMs := None),
       upgrade := s.upgrade.(delayed := false), lastOutcomeCode := CodeOffline, trace := Then(s.trace, Unreachable))
  }

  function SpecOnConnectivity(env: Env, s: Session, event: ConnectivityEvent): Session {
    match event
    case Paused => SpecPaused(s)
    case Online => SpecOnline(env, s)
    case Offline => SpecOffline(s)
    case Reconnecting => SpecOffline(s)
  }

  predicate HasPending(s: Session) { s.pending.record.Some? && s.pending.id.Some? }

  function SpecRetryExact(env: Env, s: Session): Session {
    if !HasPending(s) then SpecStart(env, s)
    else
      SpecSubmitPending(env, s.(timing := s.timing.(
                                  confirmationStartedReachableMs := Some(s.timing.reachableElapsedMs)),
                                lastOutcomeCode := RetryExactCode, trace := Then(s.trace, Marked)),
                        s.pending.record.value)
  }

  function SpecRecoverFromError(env: Env, s: Session): Session {
    var t := s.(control := s.control.(rejectionRefreshOnly := false));
    if HasPending(t) then SpecRetryExact(env, t) else SpecRunFreshQuery(env, t, FOR_RECOVERY)
  }

  function SpecRevalidate(env: Env, s: Session, trigger: Reason): Session {
    SpecRunFreshQuery(env, s.(control := s.control.(rejectionRefreshOnly :=
                                s.control.rejectionRefreshOnly || trigger == FOR_AUTHORITATIVE_REJECTION),
                              phase := Resolving, projection := None, lastOutcomeCode := RevalidateCode(trigger)),
                      trigger)
  }

  function Outcome(s: Session, code: OutcomeCode): Session { s.(lastOutcomeCode := code) }

  function SpecStale(s: Session, why: StaleReason, code: OutcomeCode): Session {
    s.(upgrade := s.upgrade.(terminal := Some(Stale(why))), lastOutcomeCode := code)
  }

  /** After the fresh query of a confirmation: the guards, then the seal. */
  function SpecConfirmFresh(env: Env, s: Session, displayed: SafeProjection, plan: string): Session {
    if HasLiveUpgrade(s) then Outcome(s, UpgradeAlreadyPending)
    else if s.phase != EntitlementReady || s.projection.None? then Outcome(s, UpgradeNotReady)
    else
      var current := s.projection.value;
      if current.licenceReference != displayed.licenceReference || current.planId != displayed.planId
         || current.planId == plan then SpecStale(s, CurrentChanged, UpgradeStaleCurrentChanged)
      else if plan !in PlanIds(current.higherOptions) then
        SpecStale(s, CatalogueChanged, UpgradeStaleCatalogueChanged)
      else
        var staged := StageUpgrade(env.actor, env.network, env.digestOf, env.mint(s.ports.minted),
                                   BindingFor(current, plan));
        if staged.NotStaged? then
          Mint(s).(phase := EntitlementRepair, lastOutcomeCode := UpgradeTemplateRejected(staged.refusal))
        else SpecSealAndSubmit(env, Mint(s), staged.record)
  }

  function ClearNotices(s: Session): Session {
    s.(upgrade := s.upgrade.(terminal := None, notificationEligible := false))
  }

  function SpecConfirmUpgrade(env: Env, s: Session, target: Option<string>): Session {
    var t := ClearNotices(s);
    if !IsBoundedPlanId(target) then Outcome(t, UpgradeInvalidInput)
    else if HasLiveUpgrade(t) then Outcome(t, UpgradeAlreadyPending)
    else if t.pending.record.Some? || t.pending.id.Some? then Outcome(t, UpgradeNotReady)
    else if t.phase != EntitlementReady || t.projection.None? then Outcome(t, UpgradeNotReady)
    else
      var queried := SpecRunFreshQuery(env, t, FOR_CONFIRM_UPGRADE);
      if Interrupted(queried) then queried
      else SpecConfirmFresh(env, queried, t.projection.value, target.value)
  }

  function SpecAcknowledge(s: Session): Session { Outcome(ClearNotices(s), UpgradeOutcomeAcknowledged) }

  /** A new coordinator over the given ports. */
  function NewSession(ports: Ports, trace: Trace): Session {
    Session(Resolving, None, NoOutcome, NOTHING_PENDING, Control(false, false, false, false, 0, 0, false),
            Timing(None, 0, None, None, None, 0), UpgradeNotice(false, false, None, false), ports, trace)
  }

  function SpecRestart(s: Session): Session { NewSession(s.ports, Then(s.trace, Restarted)) }

  // ----- runs ---------------------------------------------------------------------------------

  /** One operation of the host, and the answers the ports will give during it. */
  datatype Step = Step(op: Op, answers: seq<PortEvent>)

  function Displayed(s: Session): Option<Shown> {
    if s.projection.None? then None
    else Some(Shown(s.projection.value.licenceReference, s.projection.value.planId))
  }

  function Begin(s: Session, step: Step): Session {
    s.(ports := s.ports.(tape := step.answers), control := s.control.(thrown := false),
       trace := Then(s.trace, Began(step.op, Displayed(s))))
  }

  function SpecPerform(env: Env, s: Session, step: Step): Session {
    var t := Begin(s, step);
    match step.op
    case Start => SpecStart(env, t)
    case Tick(e) => SpecTick(env, t, e)
    case OnConnectivity(event) => SpecOnConnectivity(env, t, event)
    case RetryExact => SpecRetryExact(env, t)
    case RecoverFromError => SpecRecoverFromError(env, t)
    case Revalidate(trigger) => SpecRevalidate(env, t, trigger)
    case ConfirmUpgrade(target) => SpecConfirmUpgrade(env, t, target)
    case AcknowledgeOutcome => SpecAcknowledge(t)
    case LockOp => SpecLock(t)
    case Restart => SpecRestart(t)
  }

  function Initial(): Session { NewSession(Ports([], [], 0, 0, 0), Nothing) }

  /** The session after a run of host operations, from an empty journal. */
  function Run(env: Env, steps: seq<Step>): Session {
    if steps == [] then Initial()
    else SpecPerform(env, Run(env, steps[..|steps| - 1]), steps[|steps| - 1])
  }
}
