/**
  What the licence coordinator does, as opposed to what it may do: which operation asks, which one
  hands over the held record, and what each answer and each admission then decides. Everything is
  read from the log of the operation and the fields that the surface shows.
*/
module LicenceDeeds {
  import opened Wrappers
  import opened TextFormats
  import opened LicenceQueryParser
  import opened LicencePending
  import opened LicenceIntent
  import opened LicenceSession
  import opened LicenceTrace
  import opened LicenceSessionSafety
  import opened LicenceClock
  import opened LicenceGuarantees

  /** The first port call of the operation in progress. */
  ghost function FirstOfCall(t: Trace): Option<Entry> {
    match t
    case Nothing => None
    case Then(_, Began(_, _)) => None
    case Then(before, e) =>
      if FirstOfCall(before).Some? then FirstOfCall(before) else if IsPortCall(e) then Some(e) else None
  }

  lemma {:induction false} FirstStays(p: Trace, t: Trace)
    requires Extends(p, t) && FirstOfCall(p).Some?
    ensures FirstOfCall(t) == FirstOfCall(p)
  {
    if p != t { FirstStays(p, t.before); }
  }

  lemma FirstIs(p: Trace, e: Entry, t: Trace)
    requires FirstOfCall(p).None? && IsPortCall(e) && Extends(Then(p, e), t)
    ensures FirstOfCall(t) == Some(e)
  {
    FirstStays(Then(p, e), t);
  }

  // ----- asking and submitting ----------------------------------------------------------------

  lemma AskedFirst(s: Session)
    ensures Extends(Then(s.trace, Asked), SpecAsk(s).trace)
  {
    hide SpecAwait;
    AwaitIsQuiet(s.(control := s.control.(attemptCount := s.control.attemptCount + 1), trace := Then(s.trace, Asked)));
  }

  /** A query that may run asks first; one that may not does nothing. */
  lemma QueryAsksExactly(env: Env, s: Session, reason: Reason)
    requires FirstOfCall(s.trace).None?
    ensures FirstOfCall(SpecRunFreshQuery(env, s, reason).trace)
         == if s.control.inFlight || s.control.cancelled then None else Some(Asked)
  {
    hide SpecQueryAttempt, SpecAsk, Continues;
    if !s.control.inFlight && !s.control.cancelled {
      var flying := s.(control := s.control.(inFlight := true));
      AttemptContinues(env, flying, reason, 1);
      AskedFirst(flying);
      var r := SpecQueryAttempt(env, flying, reason, 1);
      ContinuesExtends(SpecAsk(flying), r);
      ExtendsTransitive(Then(s.trace, Asked), SpecAsk(flying).trace, r.trace);
      FirstIs(s.trace, Asked, r.trace);
    }
  }

  lemma ContinuesExtends(s: Session, r: Session)
    requires Continues(s, r)
    ensures Extends(s.trace, r.trace)
  {
  }

  /** What is handed over: the record, and what the journal shows under its id. */
  function HandedOver(s: Session, record: PendingRecord): Entry {
    Submitted(record, Load(s.ports.journal, record.transactionId))
  }

  lemma SubmitHandsOver(env: Env, s: Session, record: PendingRecord)
    requires !s.control.cancelled && IsPurposeCoherent(env.intentOf(record.transaction.exactJson), record)
    ensures Extends(Then(Then(s.trace, Marked), HandedOver(s, record)), SpecSubmitPending(env, s, record).trace)
  {
    hide IsPurposeCoherent, SpecSubmitPending, Continues, Load;
    SubmitContinues(env, s, record);
    ContinuesExtends(Send(s, record), SpecSubmitPending(env, s, record));
  }

  /** The record that memory holds is handed over before any other port call. */
  lemma SubmitIsFirst(env: Env, s: Session, record: PendingRecord)
    requires !s.control.cancelled && IsPurposeCoherent(env.intentOf(record.transaction.exactJson), record)
    requires FirstOfCall(s.trace).None?
    ensures FirstOfCall(SpecSubmitPending(env, s, record).trace) == Some(HandedOver(s, record))
  {
    hide IsPurposeCoherent, SpecSubmitPending, Load;
    SubmitHandsOver(env, s, record);
    FirstIs(Then(s.trace, Marked), HandedOver(s, record), SpecSubmitPending(env, s, record).trace);
  }

  // ----- what each operation does first -------------------------------------------------------

  /** An exact retry: the pending record is handed over, or else the session starts over. */
  lemma RetryFirst(env: Env, s: Session)
    requires Quiescent(env, s) && ReadsIntents(env.intentOf) && FirstOfCall(s.trace).None?
    ensures FirstOfCall(SpecRetryExact(env, s).trace)
         == Some(if s.pending.record.Some? then HandedOver(s, s.pending.record.value) else Asked)
  {
    if s.pending.record.Some? {
      var record := s.pending.record.value;
      var marked := s.(timing := s.timing.(confirmationStartedReachableMs := Some(s.timing.reachableElapsedMs)),
                       lastOutcomeCode := RetryExactCode, trace := Then(s.trace, Marked));
      PurposeGuardPasses(env, s, record);
      hide SpecSubmitPending, IsPurposeCoherent, Inv, Load;
      assert !s.control.cancelled && s.pending.id.Some? by { PendingIsUnlocked(env, s); }
      SubmitIsFirst(env, marked, record);
    } else {
      hide SpecRunFreshQuery;
      QueryAsksExactly(env, StartOver(s), FOR_START);
    }
  }

  lemma PendingIsUnlocked(env: Env, s: Session)
    requires Inv(env, s) && s.pending.record.Some?
    ensures !s.control.cancelled && s.pending.id.Some? && s.pending.id.value == s.pending.record.value.transactionId
  {
    hide EntryOk;
  }

  /**
    From every reachable state, the first thing an exact retry does is to hand the pending record to
    the submission port, if there is one, and to ask, if there is none.
  */
  lemma RetrySubmitsExactly(env: Env, steps: seq<Step>, answers: seq<PortEvent>)
    requires MintsFresh(env) && ReadsIntents(env.intentOf)
    ensures var s := Run(env, steps);
            FirstOfCall(SpecPerform(env, s, Step(RetryExact, answers)).trace)
            == Some(if s.pending.record.Some? then HandedOver(s, s.pending.record.value) else Asked)
  {
    hide SpecRetryExact, EntryOk;
    RunKeeps(env, steps);
    var s := Run(env, steps);
    BeginKeeps(env, s, Step(RetryExact, answers));
    RetryFirst(env, Begin(s, Step(RetryExact, answers)));
  }

  /** A recovery hands the pending record over, if there is one, and otherwise asks unless locked. */
  lemma RecoverySubmitsExactly(env: Env, steps: seq<Step>, answers: seq<PortEvent>)
    requires MintsFresh(env) && ReadsIntents(env.intentOf)
    ensures var s := Run(env, steps);
            FirstOfCall(SpecPerform(env, s, Step(RecoverFromError, answers)).trace)
            == if s.pending.record.Some? then Some(HandedOver(s, s.pending.record.value))
               else if IsLocked(s.trace) then None else Some(Asked)
  {
    hide SpecRetryExact, EntryOk, SpecRunFreshQuery, Load;
    RunKeeps(env, steps);
    var s := Run(env, steps);
    var t := Begin(s, Step(RecoverFromError, answers));
    BeginKeeps(env, s, Step(RecoverFromError, answers));
    var open := t.(control := t.control.(rejectionRefreshOnly := false));
    UnrelatedKeeps(env, t, open);
    RetryFirst(env, open);
    QueryAsksExactly(env, open, FOR_RECOVERY);
    if s.pending.record.Some? { PendingIsUnlocked(env, s); }
    LockIsTold(env, s);
    NoRecordNoId(env, s);
  }

  lemma LockIsTold(env: Env, s: Session)
    requires Inv(env, s)
    ensures s.control.cancelled == IsLocked(s.trace)
  {
    hide EntryOk;
  }

  lemma NoRecordNoId(env: Env, s: Session)
    requires Inv(env, s)
    ensures s.pending.record.None? ==> s.pending.id.None?
  {
    hide EntryOk;
  }

  /** The surface may confirm: the plan is a bounded text, a licence is shown and nothing is pending. */
  predicate MayConfirm(s: Session, target: Option<string>) {
    && target.Some? && IsBounded(target.value, 128)
    && s.phase == EntitlementReady && s.projection.Some? && s.pending.record.None?
  }

  /** The operations, retries, recoveries and ticks aside, that ask, and when. */
  predicate AsksAtOnce(s: Session, op: Op, locked: bool) {
    match op
    case Start => true
    case Revalidate(_) => !locked
    case OnConnectivity(event) =>
      && event == Online && !locked
      && (s.phase == Resolving || s.phase == ConfirmationDelayed || s.phase == EntitlementUnavailable)
    case ConfirmUpgrade(target) => MayConfirm(s, target)
    case _ => false
  }

  lemma OperationAsks(env: Env, s: Session, step: Step)
    requires Quiescent(env, s) && !step.op.RetryExact? && !step.op.RecoverFromError? && !step.op.Tick?
    ensures FirstOfCall(SpecPerform(env, s, step).trace)
         == if AsksAtOnce(s, step.op, IsLocked(s.trace)) then Some(Asked) else None
  {
    LockIsTold(env, s);
    NoRecordNoId(env, s);
    ReadyIsUnlocked(env, s);
    var t := Begin(s, step);
    hide Inv, SpecRunFreshQuery, SpecConfirmUpgrade, SpecOnConnectivity, SpecRevalidate, MayConfirm;
    assert FirstOfCall(t.trace).None?;
    match step.op
    case Start => QueryAsksExactly(env, StartOver(t), FOR_START);
    case OnConnectivity(event) => ConnectivityFirst(env, t, event);
    case Revalidate(trigger) => RevalidationFirst(env, t, trigger);
    case ConfirmUpgrade(target) =>
      assert MayConfirm(t, target) == MayConfirm(s, target) by { SameSurface(s, t, target); }
      ConfirmationFirst(env, t, target);
    case AcknowledgeOutcome =>
    case LockOp =>
    case Restart =>
  }

  lemma ReadyIsUnlocked(env: Env, s: Session)
    requires Inv(env, s)
    ensures s.phase == EntitlementReady ==> !s.control.cancelled
  {
    hide EntryOk;
  }

  lemma RevalidationFirst(env: Env, s: Session, trigger: Reason)
    requires FirstOfCall(s.trace).None? && !s.control.inFlight
    ensures FirstOfCall(SpecRevalidate(env, s, trigger).trace) == if s.control.cancelled then None else Some(Asked)
  {
    hide SpecRunFreshQuery;
    QueryAsksExactly(env, s.(control := s.control.(rejectionRefreshOnly :=
                               s.control.rejectionRefreshOnly || trigger == FOR_AUTHORITATIVE_REJECTION),
                             phase := Resolving, projection := None, lastOutcomeCode := RevalidateCode(trigger)),
                     trigger);
  }

  lemma ConnectivityFirst(env: Env, s: Session, event: ConnectivityEvent)
    requires FirstOfCall(s.trace).None? && !s.control.inFlight
    ensures FirstOfCall(SpecOnConnectivity(env, s, event).trace)
         == if event == Online && !s.control.cancelled
               && (s.phase == Resolving || s.phase == ConfirmationDelayed || s.phase == EntitlementUnavailable)
            then Some(Asked) else None
  {
    hide SpecRunFreshQuery;
    assert FirstOfCall(Then(s.trace, Unreachable)).None?;
    QueryAsksExactly(env, Reconnected(env, s), FOR_RECONNECT);
  }

  lemma SameSurface(s: Session, t: Session, target: Option<string>)
    requires t.phase == s.phase && t.projection == s.projection && t.pending == s.pending
    ensures MayConfirm(t, target) == MayConfirm(s, target)
  {
  }

  lemma ConfirmationFirst(env: Env, s: Session, target: Option<string>)
    requires FirstOfCall(s.trace).None? && (s.pending.record.None? ==> s.pending.id.None?)
    requires !s.control.inFlight && (s.phase == EntitlementReady ==> !s.control.cancelled)
    ensures FirstOfCall(SpecConfirmUpgrade(env, s, target).trace) == if MayConfirm(s, target) then Some(Asked) else None
  {
    hide SpecRunFreshQuery, SpecConfirmFresh, Continues;
    if MayConfirm(s, target) {
      var t := ClearNotices(s);
      QueryAsksExactly(env, t, FOR_CONFIRM_UPGRADE);
      var queried := SpecRunFreshQuery(env, t, FOR_CONFIRM_UPGRADE);
      ConfirmFreshContinues(env, queried, s.projection.value, target.value);
      var r := SpecConfirmFresh(env, queried, s.projection.value, target.value);
      ContinuesExtends(queried, r);
      FirstStays(queried.trace, r.trace);
    }
  }

  /** From every reachable state these operations ask first exactly when they should, and never silently. */
  lemma OperationsAskExactly(env: Env, steps: seq<Step>, step: Step)
    requires MintsFresh(env) && !step.op.RetryExact? && !step.op.RecoverFromError? && !step.op.Tick?
    ensures var s := Run(env, steps);
            FirstOfCall(SpecPerform(env, s, step).trace)
            == if AsksAtOnce(s, step.op, IsLocked(s.trace)) then Some(Asked) else None
  {
    hide SpecPerform, EntryOk, AsksAtOnce;
    RunKeeps(env, steps);
    OperationAsks(env, Run(env, steps), step);
  }

  // ----- what is forgotten --------------------------------------------------------------------

  /** A start opens a new scope: unless an upgrade is held, no notification survives it. */
  lemma StartForgets(env: Env, s: Session, answers: seq<PortEvent>)
    requires Quiescent(env, s) && MintsFresh(env)
    requires HeldNow(s.trace).Some? ==> !HeldNow(s.trace).value.IsUpgrade()
    ensures !SpecPerform(env, s, Step(Start, answers)).upgrade.notificationEligible
  {
    hide SpecRunFreshQuery, EntryOk;
    var step := Step(Start, answers);
    BeginKeeps(env, s, step);
    var t := Begin(s, step);
    StartOverKeeps(env, t);
    assert NoUpgrade(StartOver(t));
    RunFreshQueryKeeps(env, StartOver(t), FOR_START);
  }

  /** Before its question is answered, a start has forgotten all that a session shows. */
  lemma UnansweredStart(env: Env, s: Session)
    requires !s.control.inFlight
    ensures var r := SpecPerform(env, s, Step(Start, []));
            && r.trace == Then(Then(Then(s.trace, Began(Start, Displayed(s))), Started), Asked)
            && r.phase == Resolving && r.projection.None?
            && r.pending == s.pending && r.ports.journal == s.ports.journal
            && r.upgrade.terminal.None? && !r.upgrade.delayed && !r.upgrade.notificationEligible
            && r.control.consecutiveUnauthenticated == 0 && r.control.attemptCount == 1 && !r.control.cancelled
            && r.timing == s.timing.(lastExpiryWakeup := None, nextExpiryRecheckAtMs := 0)
  {
    hide SpecApplyOutcome, ParseQueryResult;
    var begun := StartOver(Begin(s, Step(Start, [])));
    var flying := begun.(control := begun.control.(inFlight := true));
    var asked := SpecAsk(flying);
    assert asked == flying.(control := flying.control.(attemptCount := 1, thrown := true),
                            trace := Then(flying.trace, Asked));
    assert SpecQueryAttempt(env, flying, FOR_START, 1) == asked;
    assert SpecRunFreshQuery(env, begun, FOR_START) == Landed(asked);
  }

  /** A lock forgets everything but the journal, at rest and while a call waits. */
  lemma LockForgets(env: Env, s: Session, answers: seq<PortEvent>)
    ensures var r := SpecPerform(env, s, Step(LockOp, answers));
            && r.phase == LockedOut && r.projection.None? && r.pending == NOTHING_PENDING
            && r.upgrade.terminal.None? && !r.upgrade.delayed && !r.upgrade.notificationEligible
            && r.control.cancelled && !r.control.inFlight && r.ports.journal == s.ports.journal
            && r.lastOutcomeCode == Locked
  {
  }

  /** Acknowledging an outcome forgets it, and nothing else. */
  lemma AcknowledgementForgets(env: Env, s: Session, answers: seq<PortEvent>)
    ensures var r := SpecPerform(env, s, Step(AcknowledgeOutcome, answers));
            && r.upgrade == s.upgrade.(terminal := None, notificationEligible := false)
            && r.phase == s.phase && r.projection == s.projection && r.pending == s.pending
            && r.ports.journal == s.ports.journal
            && r.trace == Then(s.trace, Began(AcknowledgeOutcome, Displayed(s)))
  {
  }

  lemma StartOverKeeps(env: Env, s: Session)
    requires Quiescent(env, s)
    ensures Quiescent(env, StartOver(s))
  {
    hide IsPurposeCoherent, UpgradeFromFreshTruth, BaselineFromTemplate, ParseQueryResult;
  }

  /** A pause marks an upgrade beside its licence as delayed, and delays any other wait; an outage gates. */
  lemma PausesAndOutages(env: Env, s: Session, step: Step)
    requires Quiescent(env, s) && step.op.OnConnectivity? && step.op.event != Online
    ensures var r := SpecPerform(env, s, step);
            var live := s.pending.record.Some? && s.pending.record.value.upgradeBinding.Some?;
            && r.pending == s.pending && r.ports.journal == s.ports.journal
            && (step.op.event == Paused ==>
                  && r.projection == s.projection
                  && r.upgrade.delayed == (s.upgrade.delayed || (live && s.projection.Some?))
                  && r.phase == (if !(live && s.projection.Some?) && s.phase == AwaitingIndex then ConfirmationDelayed
                                 else s.phase))
            && (step.op.event != Paused ==>
                  && r.projection.None? && !r.upgrade.delayed && r.upgrade.terminal == s.upgrade.terminal
                  && r.upgrade.notificationEligible == s.upgrade.notificationEligible
                  && r.phase == (if s.phase == LockedOut then LockedOut else Resolving))
  {
    if s.pending.record.Some? { PendingIsUnlocked(env, s); }
    hide Inv;
  }
}
