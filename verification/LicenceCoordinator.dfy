/**
  The licence entitlement coordinator in its own form (coordinator.ts): a class whose methods
  update its fields around the calls of its ports. Each method is proved to be the operation of
  the same name of LicenceSession.dfy, so everything proved there holds of it.

  An asynchronous port that rejects is an exception: `thrown` is set while it propagates, and
  the `finally` blocks run. `lock()` may fire while a port is awaited.
*/
module LicenceCoordinator {
  import opened Wrappers
  import opened LicenceContracts
  import opened LicenceProjection
  import opened LicenceQueryParser
  import opened LicencePending
  import opened LicenceSession

  /** The injected ports and the journal behind them; they outlive a coordinator. */
  class LicencePorts {
    const env: Env
    var tape: seq<PortEvent>
    var journal: seq<Slot>
    var clockReads: nat
    var minted: nat
    var saves: nat
    ghost var trace: Trace

    ghost function View(): Ports
      reads this
    {
      Ports(tape, journal, clockReads, minted, saves)
    }

    constructor (env: Env)
      ensures this.env == env && View() == Ports([], [], 0, 0, 0) && trace == Nothing
    {
      this.env := env;
      tape, journal, clockReads, minted, saves := [], [], 0, 0, 0;
      trace := Nothing;
    }

    ghost method Log(e: Entry)
      modifies this`trace
      ensures trace == Then(old(trace), e)
    {
      trace := Then(trace, e);
    }

    method NowMs() returns (now: int)
      modifies this`clockReads
      ensures now == env.clock(old(clockReads)) && clockReads == old(clockReads) + 1
    {
      now := env.clock(clockReads);
      clockReads := clockReads + 1;
    }

    method NextBaselineIdentity() returns (identity: Identity)
      modifies this`minted
      ensures identity == env.mint(old(minted)) && minted == old(minted) + 1
    {
      identity := env.mint(minted);
      minted := minted + 1;
    }

    method SavePending(record: PendingRecord) returns (ok: bool)
      modifies this`journal, this`saves
      ensures ok == env.saveOk(old(saves)) && View() == Save(env, old(View()), record)
    {
      ok := env.saveOk(saves);
      if ok { journal := Store(journal, record, env.shown(saves)); }
      saves := saves + 1;
    }

    method DeletePending(id: string)
      modifies this`journal
      ensures journal == Remove(old(journal), id)
    {
      journal := Remove(journal, id);
    }
  }

  class LicenceEntitlementCoordinator {
    const ports: LicencePorts
    var phase: Phase
    var projection: Option<SafeProjection>
    var lastOutcomeCode: OutcomeCode
    var pendingTransactionId: Option<string>
    var pendingRecord: Option<PendingRecord>
    // the flags, clock readings and upgrade notices of the source, each in one record
    var control: Control
    var timing: Timing
    var upgrade: UpgradeNotice

    ghost function View(): Session
      reads this, ports
    {
      Session(phase, projection, lastOutcomeCode, InMemory(pendingTransactionId, pendingRecord),
              control, timing, upgrade, ports.View(), ports.trace)
    }

    /** A coordinator over ports that may hold the journal of an earlier process. */
    constructor (ports: LicencePorts)
      ensures this.ports == ports && View() == NewSession(ports.View(), ports.trace)
    {
      this.ports := ports;
      phase, projection, lastOutcomeCode := Resolving, None, NoOutcome;
      pendingTransactionId, pendingRecord := None, None;
      control := Control(false, false, false, false, 0, 0, false);
      timing := Timing(None, 0, None, None, None, 0);
      upgrade := UpgradeNotice(false, false, None, false);
    }

    // ----- public operations ------------------------------------------------------------------

    method Start()
      modifies this, ports
      ensures View() == SpecStart(ports.env, old(View()))
    {
      hide SpecRunFreshQuery;
      control := control.(cancelled := false);
      timing := timing.(lastExpiryWakeup := None, nextExpiryRecheckAtMs := 0);
      control := control.(attemptCount := 0, consecutiveUnauthenticated := 0);
      projection := None;
      upgrade := upgrade.(delayed := false, terminal := None, notificationEligible := false, rejectedRequery := false);
      phase := Resolving;
      ports.Log(Started);
      RunFreshQuery(FOR_START);
    }

    method Tick(e: Eligibility)
      modifies this, ports
      ensures View() == SpecTick(ports.env, old(View()), e)
    {
      hide SpecPoll, SpecAdvanceReachable, SpecRevalidate;
      AdvanceReachable(e);
      if !e.Eligible() || control.inFlight { return; }
      if phase == EntitlementReady && projection.Some? && projection.value.expiresAtUtc.Some? {
        var boundary := projection.value.expiresAtUtc.value;
        var wakeup := (projection.value.licenceReference, boundary);
        var now := ports.NowMs();
        var due := ports.env.dateParse(boundary);
        if due.Some? && now >= due.value
           && (timing.lastExpiryWakeup != Some(wakeup) || now >= timing.nextExpiryRecheckAtMs) {
          timing := timing.(lastExpiryWakeup := Some(wakeup),
                            nextExpiryRecheckAtMs := now + EXPIRY_RECHECK_INTERVAL_MS);
          Revalidate(FOR_EXPIRY);
          return;
        }
      }
      Poll();
    }

    /** The query-only cadence while something is awaited. */
    method Poll()
      modifies this, ports
      ensures View() == SpecPoll(ports.env, old(View()))
    {
      hide SpecRunFreshQuery;
      if phase != AwaitingIndex && phase != ConfirmationDelayed && phase != EntitlementUnavailable {
        var live := HasLiveUpgradeOperation();
        if !(phase == EntitlementReady && live) { return; }
      }
      if timing.lastQueryAtMs.Some? {
        var now := ports.NowMs();
        if now - timing.lastQueryAtMs.value < POLL_INTERVAL_MS { return; }
      }
      RunFreshQuery(FOR_POLL);
    }

    method OnConnectivity(event: ConnectivityEvent)
      modifies this, ports
      ensures View() == SpecOnConnectivity(ports.env, old(View()), event)
    {
      hide SpecRunFreshQuery;
      if event == Offline || event == Reconnecting {
        if phase != LockedOut { phase := Resolving; }
        projection := None;
        timing := timing.(reachableElapsedMs := 0, lastReachableAtMs := None);
        ports.Log(Unreachable);
        upgrade := upgrade.(delayed := false);
        lastOutcomeCode := CodeOffline;
        return;
      }
      if event == Paused {
        var live := HasLiveUpgradeOperation();
        if live && projection.Some? {
          upgrade := upgrade.(delayed := true);
          lastOutcomeCode := UpgradeChainPaused;
          return;
        }
        if phase == AwaitingIndex {
          phase := ConfirmationDelayed;
          lastOutcomeCode := ChainPaused;
        }
        return;
      }
      timing := timing.(reachableElapsedMs := 0);
      ports.Log(Unreachable);
      var now := ports.NowMs();
      timing := timing.(lastReachableAtMs := Some(now));
      ports.Log(Reached(now));
      if phase == Resolving || phase == ConfirmationDelayed || phase == EntitlementUnavailable {
        RunFreshQuery(FOR_RECONNECT);
      }
    }

    method RetryExact()
      modifies this, ports
      ensures View() == SpecRetryExact(ports.env, old(View()))
    {
      hide SpecStart, SpecSubmitPending;
      if pendingRecord.None? || pendingTransactionId.None? {
        Start();
        return;
      }
      timing := timing.(confirmationStartedReachableMs := Some(timing.reachableElapsedMs));
      lastOutcomeCode := RetryExactCode;
      ports.Log(Marked);
      SubmitPending(pendingRecord.value);
    }

    method RecoverFromError()
      modifies this, ports
      ensures View() == SpecRecoverFromError(ports.env, old(View()))
    {
      hide SpecRetryExact, SpecRunFreshQuery;
      control := control.(rejectionRefreshOnly := false);
      if pendingRecord.Some? && pendingTransactionId.Some? {
        RetryExact();
        return;
      }
      RunFreshQuery(FOR_RECOVERY);
    }

    method Revalidate(trigger: Reason)
      modifies this, ports
      ensures View() == SpecRevalidate(ports.env, old(View()), trigger)
    {
      hide SpecRunFreshQuery;
      if trigger == FOR_AUTHORITATIVE_REJECTION { control := control.(rejectionRefreshOnly := true); }
      phase := Resolving;
      projection := None;
      lastOutcomeCode := RevalidateCode(trigger);
      RunFreshQuery(trigger);
    }

    method ConfirmUpgrade(target: Option<string>)
      modifies this, ports
      ensures View() == SpecConfirmUpgrade(ports.env, old(View()), target)
    {
      hide SpecRunFreshQuery, SpecSealAndSubmit, StageUpgrade;
      upgrade := upgrade.(terminal := None, notificationEligible := false);
      if !IsBoundedPlanId(target) {
        lastOutcomeCode := UpgradeInvalidInput;
        return;
      }
      var requestedPlanId := target.value;
      var live := HasLiveUpgradeOperation();
      if live {
        lastOutcomeCode := UpgradeAlreadyPending;
        return;
      }
      if pendingRecord.Some? || pendingTransactionId.Some? {
        lastOutcomeCode := UpgradeNotReady;
        return;
      }
      if phase != EntitlementReady || projection.None? {
        lastOutcomeCode := UpgradeNotReady;
        return;
      }
      var displayed := projection.value;
      RunFreshQuery(FOR_CONFIRM_UPGRADE);
      if control.thrown || control.cancelled { return; }
      live := HasLiveUpgradeOperation();
      if live {
        lastOutcomeCode := UpgradeAlreadyPending;
        return;
      }
      if phase != EntitlementReady || projection.None? {
        lastOutcomeCode := UpgradeNotReady;
        return;
      }
      var current := projection.value;
      if current.licenceReference != displayed.licenceReference || current.planId != displayed.planId
         || current.planId == requestedPlanId {
        upgrade := upgrade.(terminal := Some(Stale(CurrentChanged)));
        lastOutcomeCode := UpgradeStaleCurrentChanged;
        return;
      }
      if requestedPlanId !in PlanIds(current.higherOptions) {
        upgrade := upgrade.(terminal := Some(Stale(CatalogueChanged)));
        lastOutcomeCode := UpgradeStaleCatalogueChanged;
        return;
      }
      SealAndSubmitConfirmedUpgrade(requestedPlanId, current);
    }

    method AcknowledgeUpgradeOutcome()
      modifies this
      ensures View() == SpecAcknowledge(old(View()))
    {
      upgrade := upgrade.(terminal := None, notificationEligible := false);
      lastOutcomeCode := UpgradeOutcomeAcknowledged;
    }

    method Lock()
      modifies this, ports`trace
      ensures View() == SpecLock(old(View()))
    {
      control := control.(cancelled := true, inFlight := false);
      projection := None;
      pendingRecord := None;
      pendingTransactionId := None;
      upgrade := upgrade.(delayed := false, terminal := None, notificationEligible := false, rejectedRequery := false);
      phase := LockedOut;
      lastOutcomeCode := Locked;
      ports.Log(LockFired);
    }

    // ----- private helpers --------------------------------------------------------------------

    method HasLiveUpgradeOperation() returns (live: bool)
      ensures live == HasLiveUpgrade(View())
    {
      live := pendingRecord.Some? && pendingTransactionId.Some? && pendingRecord.value.IsUpgrade();
    }

    method AdvanceReachable(e: Eligibility)
      modifies this, ports
      ensures View() == SpecAdvanceReachable(ports.env, old(View()), e)
    {
      var now := ports.NowMs();
      if e.Eligible() {
        if timing.lastReachableAtMs.None? {
          timing := timing.(lastReachableAtMs := Some(now));
        } else {
          var delta := Max(0, now - timing.lastReachableAtMs.value);
          timing := timing.(reachableElapsedMs := timing.reachableElapsedMs + delta, lastReachableAtMs := Some(now));
        }
        ports.Log(Reached(now));
        var live := HasLiveUpgradeOperation();
        if timing.confirmationStartedReachableMs.Some?
           && timing.reachableElapsedMs - timing.confirmationStartedReachableMs.value >= CONFIRMATION_DELAYED_MS
           && (phase == AwaitingIndex || phase == BaselineSubmitting || (phase == EntitlementReady && live)) {
          if live && projection.Some? {
            upgrade := upgrade.(delayed := true);
            lastOutcomeCode := UpgradeConfirmationDelayed;
          } else {
            phase := ConfirmationDelayed;
            lastOutcomeCode := ConfirmationDelayedCode;
          }
          ports.Log(TimerFired);
        }
      } else {
        timing := timing.(lastReachableAtMs := None);
        ports.Log(Unreachable);
      }
    }

    /** A suspension point: the port answers with the head of the tape, or rejects. */
    method Await() returns (answer: Option<PortEvent>)
      modifies this, ports
      ensures View() == SpecAwait(old(View()))
      ensures !Interrupted(View()) ==> answer.Some? && old(ports.tape) == [answer.value] + ports.tape
      ensures |ports.tape| <= |old(ports.tape)|
    {
      if ports.tape == [] {
        control := control.(thrown := true);
        return None;
      }
      var event := ports.tape[0];
      ports.tape := ports.tape[1..];
      if event.lockFires { Lock(); }
      if event.rejects { control := control.(thrown := true); }
      return Some(event);
    }

    method Ask() returns (answer: Option<PortEvent>)
      modifies this, ports
      ensures View() == SpecAsk(old(View()))
      ensures !Interrupted(View()) ==> answer.Some? && old(ports.tape) == [answer.value] + ports.tape
      ensures |ports.tape| <= |old(ports.tape)|
    {
      control := control.(attemptCount := control.attemptCount + 1);
      ports.Log(Asked);
      answer := Await();
    }

    method UseAnswer(result: QueryTransportResult) returns (outcome: QueryOutcome)
      modifies this, ports
      ensures outcome == ParseQueryResult(result, ports.env.actor, ports.env.network)
      ensures View() == Answer(ports.env, old(View()), result, outcome)
      ensures control == old(control) && ports.tape == old(ports.tape)
    {
      hide ParseQueryResult;
      var now := ports.NowMs();
      timing := timing.(lastQueryAtMs := Some(now));
      outcome := ParseQueryResult(result, ports.env.actor, ports.env.network);
      ports.Log(Answered(result, outcome, now));
    }

    method ForceLock()
      modifies this
      ensures View() == SpecForcedLock(old(View()))
    {
      control := control.(consecutiveUnauthenticated := 2);
      projection := None;
      pendingRecord := None;
      pendingTransactionId := None;
      phase := LockedOut;
      lastOutcomeCode := UnauthenticatedForcedLock;
    }

    /** One serialized query, with a single fresh retry after a refused authentication. */
    method RunFreshQuery(reason: Reason)
      modifies this, ports
      ensures View() == SpecRunFreshQuery(ports.env, old(View()), reason)
      decreases |ports.tape|, 4
    {
      hide SpecApplyOutcome, ParseQueryResult, SpecAsk, Answer, SpecForcedLock;
      if control.inFlight || control.cancelled { return; }
      control := control.(inFlight := true);
      var attempt := 1;
      ghost var entry := View();
      while true
        invariant 1 <= attempt <= 2 && !control.cancelled
        invariant |ports.tape| <= |old(ports.tape)|
        invariant SpecQueryAttempt(ports.env, View(), reason, attempt)
               == SpecQueryAttempt(ports.env, entry, reason, 1)
        decreases 2 - attempt
      {
        var answer := Ask();
        if control.thrown || control.cancelled { break; }
        var outcome := UseAnswer(answer.value.query);
        if outcome.NotAuthenticated? && attempt == 1 && reason != FOR_RETRY {
          control := control.(consecutiveUnauthenticated := 1);
          lastOutcomeCode := UnauthenticatedRetryOnce;
          attempt := 2;
          continue;
        }
        if outcome.NotAuthenticated? {
          ForceLock();
          break;
        }
        control := control.(consecutiveUnauthenticated := 0);
        ApplyQueryOutcome(outcome, reason);
        break;
      }
      control := control.(inFlight := false);
    }

    method ApplyQueryOutcome(outcome: QueryOutcome, reason: Reason)
      requires !outcome.NotAuthenticated?
      modifies this, ports
      ensures View() == SpecApplyOutcome(ports.env, old(View()), outcome, reason)
      decreases |ports.tape|, 6
    {
      hide SpecHandleNoActive, SpecReconcile, SpecAttach;
      match outcome
      case Ready(active) =>
        AttachBoundPendingRecord();
        var reconciledUpgrade := ReconcilePendingAgainstActive(active.licenceReference);
        control := control.(rejectionRefreshOnly := false);
        projection := Some(active);
        phase := EntitlementReady;
        if !reconciledUpgrade { lastOutcomeCode := ReadyCode; }
      case NoActiveLicence(template) =>
        projection := None;
        HandleNoActive(template, reason);
      case LicenceUnavailable(code) =>
        projection := None;
        phase := EntitlementUnavailable;
        lastOutcomeCode := ServerCode(code);
      case Unsupported(why) =>
        projection := None;
        phase := EntitlementUnsupported;
        lastOutcomeCode := UnsupportedOutcome(why);
      case TransportFailure =>
        projection := None;
        lastOutcomeCode := TransportUncertain;
        phase := if pendingRecord.Some? && pendingTransactionId.Some? then AwaitingIndex else EntitlementUnavailable;
      case MalformedResponse =>
        projection := None;
        phase := EntitlementRepair;
        lastOutcomeCode := MalformedResponseCode;
      case Guidance =>
        projection := None;
        phase := EntitlementUnsupported;
        lastOutcomeCode := TerminalGuidance;
    }

    method HandleNoActive(template: TemplateView, reason: Reason)
      modifies this, ports
      ensures View() == SpecHandleNoActive(ports.env, old(View()), template, reason)
      decreases |ports.tape|, 5
    {
      hide SpecSubmitPending, SpecSealAndSubmit, StageBaseline, SpecFindBound;
      if control.rejectionRefreshOnly {
        phase := EntitlementUnavailable;
        projection := None;
        lastOutcomeCode := AuthoritativeRejectionQueryOnly;
        return;
      }
      var bound := FindBoundPending();
      if bound.Some? {
        pendingRecord := bound;
        pendingTransactionId := Some(bound.value.transactionId);
        if bound.value.IsUpgrade() {
          phase := AwaitingIndex;
          lastOutcomeCode := UpgradeNoActiveQueryOnly;
          return;
        }
        if reason == FOR_POLL {
          if phase != ConfirmationDelayed {
            phase := AwaitingIndex;
            lastOutcomeCode := StillWaiting;
          }
          return;
        }
        lastOutcomeCode := NoActiveResubmitExact;
        SubmitPending(bound.value);
        return;
      }
      phase := BaselineSigning;
      lastOutcomeCode := ConstructingBaseline;
      var identity := ports.NextBaselineIdentity();
      var staged := StageBaseline(ports.env.actor, ports.env.network, ports.env.digestOf, identity, template);
      if staged.NotStaged? {
        phase := EntitlementRepair;
        lastOutcomeCode := TemplateRejected;
        return;
      }
      SealAndSubmit(staged.record);
    }

    /** The common end of both constructions: the save must succeed before the submission. */
    method SealAndSubmit(record: PendingRecord)
      modifies this, ports
      ensures View() == SpecSealAndSubmit(ports.env, old(View()), record)
      decreases |ports.tape|, 4
    {
      hide SpecSubmitPending, Store;
      var saved := ports.SavePending(record);
      if !saved {
        phase := EntitlementRepair;
        lastOutcomeCode := JournalUnavailable;
        return;
      }
      ports.Log(SealedNew(record));
      pendingRecord := Some(record);
      pendingTransactionId := Some(record.transactionId);
      SubmitPending(record);
    }

    method FindBoundPending() returns (bound: Option<PendingRecord>)
      ensures bound == SpecFindBound(ports.env, View())
    {
      if pendingTransactionId.Some? {
        var direct := Load(ports.journal, pendingTransactionId.value);
        if direct.Some? { return direct; }
      }
      return LoadForIdentity(ports.journal, ports.env.actor, ports.env.network);
    }

    method ReconcilePendingAgainstActive(active: string) returns (processed: bool)
      modifies this, ports
      ensures View() == SpecReconcile(ports.env, old(View()), active)
      ensures processed == ReconcilesUpgrade(old(View()))
    {
      hide SpecReconcileUpgrade, SpecRetire;
      if pendingTransactionId.None? { return false; }
      if pendingRecord.Some? && pendingRecord.value.IsUpgrade() {
        ReconcilePendingUpgrade(active);
        return true;
      }
      RetirePending(if active == pendingTransactionId.value then ConfirmedIndexed else Superseded);
      pendingRecord := None;
      pendingTransactionId := None;
      return false;
    }

    method ReconcilePendingUpgrade(active: string)
      requires pendingRecord.Some? && pendingRecord.value.IsUpgrade()
      modifies this, ports
      ensures View() == SpecReconcileUpgrade(ports.env, old(View()), old(pendingRecord.value), active)
    {
      hide SpecRetire;
      var record := pendingRecord.value;
      var binding := record.upgradeBinding.value;
      if active == binding.expectedCurrentTransactionId {
        lastOutcomeCode := UpgradePendingOldCurrent;
        return;
      }
      if active == record.transactionId {
        var operation := OperationOf(record, binding);
        RetirePending(ConfirmedIndexed);
        pendingRecord := None;
        pendingTransactionId := None;
        upgrade := upgrade.(terminal := Some(LocalSuccess(operation)), notificationEligible := true, delayed := false);
        lastOutcomeCode := UpgradeLocalSuccess;
        ports.Log(Succeeded(record.transactionId));
        return;
      }
      RetirePending(Superseded);
      pendingRecord := None;
      pendingTransactionId := None;
      upgrade := upgrade.(terminal := Some(CompetingActivation), delayed := false);
      lastOutcomeCode := UpgradeCompetingActivation;
    }

    method SubmitPending(record: PendingRecord)
      modifies this, ports
      ensures View() == SpecSubmitPending(ports.env, old(View()), record)
      decreases |ports.tape|, 3
    {
      hide SpecRunFreshQuery, SpecReconcileRejected, IsPurposeCoherent, SpecRecordAttempt, SpecAdmission, SpecAwait;
      if control.cancelled { return; }
      if !IsPurposeCoherent(ports.env.intentOf(record.transaction.exactJson), record) {
        phase := EntitlementRepair;
        lastOutcomeCode := UpgradeRecordMissingBinding;
        return;
      }
      control := control.(inFlight := true);
      phase := BaselineSubmitting;
      timing := timing.(confirmationStartedReachableMs := Some(timing.reachableElapsedMs));
      upgrade := upgrade.(delayed := false);
      ports.Log(Marked);
      ports.Log(Submitted(record, Load(ports.journal, record.transactionId)));
      var answer := Await();
      if control.thrown || control.cancelled {
        control := control.(inFlight := false);
        return;
      }
      var admission := answer.value.admission;
      RecordAttempt(record, admission);
      DecideAdmission(record, admission);
      control := control.(inFlight := false);
      if control.needsImmediateQuery && !control.cancelled {
        control := control.(needsImmediateQuery := false);
        RunFreshQuery(FOR_ALREADY_EXISTS);
        if control.thrown { return; }
      }
      if upgrade.rejectedRequery && !control.cancelled {
        upgrade := upgrade.(rejectedRequery := false);
        ReconcileRejectedUpgrade();
      }
    }

    method DecideAdmission(record: PendingRecord, admission: Admission)
      modifies this
      ensures View() == SpecAdmission(old(View()), record, admission)
      ensures control.thrown == old(control.thrown)
    {
      var isUpgrade := record.IsUpgrade();
      match admission {
        case Accepted =>
          phase := if isUpgrade && projection.Some? then EntitlementReady else AwaitingIndex;
          lastOutcomeCode := AcceptedCode;
        case Pending =>
          phase := if isUpgrade && projection.Some? then EntitlementReady else AwaitingIndex;
          lastOutcomeCode := PendingCode;
        case AlreadyExists =>
          phase := Resolving;
          lastOutcomeCode := AlreadyExistsQueryNow;
          control := control.(needsImmediateQuery := true);
        case TerminalRejected =>
          if isUpgrade {
            upgrade := upgrade.(rejectedRequery := true);
            lastOutcomeCode := UpgradeTerminalRejectedRequery;
          } else {
            phase := EntitlementRepair;
            lastOutcomeCode := TerminalRejectedCode;
          }
        case Uncertain =>
          phase := if isUpgrade && projection.Some? then EntitlementReady else AwaitingIndex;
          lastOutcomeCode := SubmitUncertain;
      }
    }

    method ReconcileRejectedUpgrade()
      modifies this, ports
      ensures View() == SpecReconcileRejected(ports.env, old(View()))
      decreases |ports.tape|, 5
    {
      hide SpecRunFreshQuery, SpecRetire;
      var wasPendingId := pendingTransactionId;
      RunFreshQuery(FOR_UPGRADE_REJECTED);
      if control.thrown || control.cancelled || wasPendingId.None? { return; }
      if pendingTransactionId.None? || pendingRecord.None? { return; }
      if pendingRecord.value.IsUpgrade() && phase == EntitlementReady && projection.Some? {
        RetirePending(Retired);
        pendingRecord := None;
        pendingTransactionId := None;
        upgrade := upgrade.(terminal := Some(Stale(StaleRejection)), delayed := false);
        lastOutcomeCode := UpgradeStaleRejection;
      }
    }

    method RecordAttempt(record: PendingRecord, admission: Admission)
      modifies this, ports
      ensures View() == SpecRecordAttempt(ports.env, old(View()), record, admission)
      ensures ports.tape == old(ports.tape) && control == old(control)
    {
      hide Store;
      var now := ports.NowMs();
      var state :=
        if admission == TerminalRejected then Unrecoverable
        else if record.recoveryState == Sealed then (if admission == Accepted then WaitingAccepted else WaitingPending)
        else record.recoveryState;
      var updated := record.(recoveryState := state,
                             attemptEvidence := record.attemptEvidence + [Attempt(ports.env.isoOf(now), admission)]);
      var saved := ports.SavePending(updated);
      if saved { ports.Log(SavedAgain(updated)); }
      pendingRecord := Some(updated);
    }

    method RetirePending(state: RecoveryState)
      modifies ports
      ensures View() == SpecRetire(ports.env, old(View()), state)
    {
      hide Store, Remove;
      if pendingTransactionId.Some? {
        var id := pendingTransactionId.value;
        var loaded := Load(ports.journal, id);
        if loaded.Some? {
          var updated := loaded.value.(recoveryState := state);
          var saved := ports.SavePending(updated);
          if saved { ports.Log(SavedAgain(updated)); }
        }
        ports.DeletePending(id);
        ports.Log(Deleted(id));
      }
    }

    method AttachBoundPendingRecord()
      modifies this
      ensures View() == SpecAttach(ports.env, old(View()))
    {
      hide SpecFindBound;
      if pendingRecord.Some? || pendingTransactionId.Some? { return; }
      var bound := FindBoundPending();
      if bound.Some? {
        pendingRecord := bound;
        pendingTransactionId := Some(bound.value.transactionId);
      }
    }

    method SealAndSubmitConfirmedUpgrade(requestedPlanId: string, truth: SafeProjection)
      modifies this, ports
      ensures var s := old(View());
              var staged := StageUpgrade(ports.env.actor, ports.env.network, ports.env.digestOf,
                                         ports.env.mint(s.ports.minted), BindingFor(truth, requestedPlanId));
              View() == if staged.NotStaged?
                        then Mint(s).(phase := EntitlementRepair,
                                      lastOutcomeCode := UpgradeTemplateRejected(staged.refusal))
                        else SpecSealAndSubmit(ports.env, Mint(s), staged.record)
    {
      hide SpecSealAndSubmit, StageUpgrade;
      var identity := ports.NextBaselineIdentity();
      var binding := BindingFor(truth, requestedPlanId);
      var staged := StageUpgrade(ports.env.actor, ports.env.network, ports.env.digestOf, identity, binding);
      if staged.NotStaged? {
        phase := EntitlementRepair;
        lastOutcomeCode := UpgradeTemplateRejected(staged.refusal);
        return;
      }
      SealAndSubmit(staged.record);
    }
  }

  /** Begins one operation of the host: the ports are given the answers they will make during it. */
  method Perform(c: LicenceEntitlementCoordinator, step: Step)
    requires step.op != Restart
    modifies c, c.ports
    ensures c.View() == SpecPerform(c.ports.env, old(c.View()), step)
  {
    hide SpecStart, SpecTick, SpecOnConnectivity, SpecRetryExact, SpecRecoverFromError, SpecRevalidate,
         SpecConfirmUpgrade, SpecAcknowledge, SpecLock;
    c.ports.Log(Began(step.op, Displayed(c.View())));
    c.ports.tape := step.answers;
    c.control := c.control.(thrown := false);
    match step.op
    case Start => c.Start();
    case Tick(e) => c.Tick(e);
    case OnConnectivity(event) => c.OnConnectivity(event);
    case RetryExact => c.RetryExact();
    case RecoverFromError => c.RecoverFromError();
    case Revalidate(trigger) => c.Revalidate(trigger);
    case ConfirmUpgrade(target) => c.ConfirmUpgrade(target);
    case AcknowledgeOutcome => c.AcknowledgeUpgradeOutcome();
    case LockOp => c.Lock();
  }

  /** Any sequence of host operations, with restarts that replace the coordinator but keep its ports. */
  method RunHost(env: Env, steps: seq<Step>) returns (c: LicenceEntitlementCoordinator)
    ensures c.View() == Run(env, steps)
  {
    hide SpecPerform;
    var ports := new LicencePorts(env);
    c := new LicenceEntitlementCoordinator(ports);
    for i := 0 to |steps|
      invariant fresh(c) && c.ports == ports && fresh(ports) && ports.env == env
      invariant c.View() == Run(env, steps[..i])
    {
      assert steps[..i + 1][..i] == steps[..i] && steps[..i + 1][i] == steps[i];
      if steps[i].op == Restart {
        c := Replace(c, steps[i]);
      } else {
        Perform(c, steps[i]);
      }
    }
    assert steps[..|steps|] == steps;
  }

  method Replace(c: LicenceEntitlementCoordinator, step: Step) returns (next: LicenceEntitlementCoordinator)
    requires step.op == Restart
    modifies c.ports
    ensures fresh(next) && next.ports == c.ports
    ensures next.View() == SpecPerform(c.ports.env, old(c.View()), step)
  {
    c.ports.Log(Began(step.op, Displayed(c.View())));
    c.ports.Log(Restarted);
    c.ports.tape := step.answers;
    next := new LicenceEntitlementCoordinator(c.ports);
  }
}
