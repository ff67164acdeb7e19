/**
  What the log alone says about time and restrictions: how much reachable time was counted, when
  the confirmation window started, when the latest answer came and whether an authoritative
  rejection still restricts the session. After every run the coordinator's fields say the same.
*/
module LicenceClock {
  import opened Wrappers
  import opened LicenceContracts
  import opened LicenceProjection
  import opened LicenceQueryParser
  import opened LicencePending
  import opened LicenceSession
  import opened LicenceTrace

  /** The log `t` continues `p` within the same operation. */
  ghost predicate Extends(p: Trace, t: Trace) { p == t || (t.Then? && !t.last.Began? && Extends(p, t.before)) }

  /** An outage or a reconnection. */
  predicate ResetsReachable(op: Op) { op.OnConnectivity? && op.event != Paused }

  /** The reachable time counted since the latest outage, reconnection or restart. */
  ghost function Elapsed(t: Trace): int {
    match t
    case Nothing => 0
    case Then(before, Reached(now)) => Elapsed(before) + Credit(before, now)
    case Then(before, Began(op, _)) => if ResetsReachable(op) then 0 else Elapsed(before)
    case Then(before, Restarted) => 0
    case Then(before, _) => Elapsed(before)
  }

  /** The reachable time that stood counted when the window last restarted. */
  ghost function WindowFrom(t: Trace): Option<int> {
    match t
    case Nothing => None
    case Then(before, Marked) => Some(Elapsed(before))
    case Then(before, Restarted) => None
    case Then(before, _) => WindowFrom(before)
  }

  ghost function AnsweredAt(t: Trace): Option<int> {
    match t
    case Nothing => None
    case Then(before, Answered(_, _, at)) => Some(at)
    case Then(before, Restarted) => None
    case Then(before, _) => AnsweredAt(before)
  }

  /** An authoritative rejection was reported, and neither an active licence nor a recovery followed. */
  ghost predicate Restricted(t: Trace) {
    match t
    case Nothing => false
    case Then(before, Began(op, _)) =>
      op == Revalidate("authoritative-rejection") || (!op.RecoverFromError? && Restricted(before))
    case Then(before, Answered(_, outcome, _)) => !outcome.Ready? && Restricted(before)
    case Then(before, Restarted) => false
    case Then(before, _) => Restricted(before)
  }

  ghost predicate TellsTimes(s: Session) {
    && LastReached(s.trace) == s.timing.lastReachableAtMs && Elapsed(s.trace) == s.timing.reachableElapsedMs
    && WindowFrom(s.trace) == s.timing.confirmationStartedReachableMs
    && AnsweredAt(s.trace) == s.timing.lastQueryAtMs
  }

  ghost predicate Tells(s: Session) { TellsTimes(s) && Restricted(s.trace) == s.control.rejectionRefreshOnly }

  ghost predicate Continues(s: Session, r: Session) { Extends(s.trace, r.trace) && (Tells(s) ==> Tells(r)) }

  /** A step that changes nothing of this. */
  ghost predicate Quiet(s: Session, r: Session) {
    && Extends(s.trace, r.trace) && (TellsTimes(s) ==> TellsTimes(r))
    && Restricted(r.trace) == Restricted(s.trace)
    && r.control.rejectionRefreshOnly == s.control.rejectionRefreshOnly
  }

  lemma {:induction false} ExtendsTransitive(p: Trace, q: Trace, t: Trace)
    requires Extends(p, q) && Extends(q, t)
    ensures Extends(p, t)
  {
    if q != t { ExtendsTransitive(p, q, t.before); }
  }

  lemma Chain(s: Session, m: Session, r: Session)
    requires Continues(s, m) && Continues(m, r)
    ensures Continues(s, r)
  {
    ExtendsTransitive(s.trace, m.trace, r.trace);
  }

  lemma QuietChain(s: Session, m: Session, r: Session)
    requires Quiet(s, m) && Quiet(m, r)
    ensures Quiet(s, r)
  {
    ExtendsTransitive(s.trace, m.trace, r.trace);
  }

  lemma QuietContinues(s: Session, r: Session)
    requires Quiet(s, r)
    ensures Continues(s, r)
  {
  }

  /** Nothing that the log tells has changed. */
  predicate SameTold(s: Session, r: Session) {
    && r.trace == s.trace && r.control.rejectionRefreshOnly == s.control.rejectionRefreshOnly
    && r.timing.lastReachableAtMs == s.timing.lastReachableAtMs
    && r.timing.reachableElapsedMs == s.timing.reachableElapsedMs
    && r.timing.confirmationStartedReachableMs == s.timing.confirmationStartedReachableMs
    && r.timing.lastQueryAtMs == s.timing.lastQueryAtMs
  }

  /** One entry that says nothing about time or restrictions. */
  predicate IsSilent(e: Entry) {
    !e.Reached? && !e.Unreachable? && !e.Began? && !e.Restarted? && !e.Marked? && !e.Answered?
  }

  lemma SilentIsQuiet(s: Session, r: Session, e: Entry)
    requires IsSilent(e) && SameTold(s.(trace := Then(s.trace, e)), r)
    ensures Quiet(s, r)
  {
    assert Extends(s.trace, s.trace);
  }

  lemma SameIsQuiet(s: Session, r: Session)
    requires SameTold(s, r)
    ensures Quiet(s, r)
  {
  }

  // ----- single steps -------------------------------------------------------------------------

  lemma AwaitIsQuiet(s: Session)
    ensures Quiet(s, SpecAwait(s))
  {
    if s.ports.tape != [] && s.ports.tape[0].lockFires { SilentIsQuiet(s, SpecAwait(s), LockFired); }
  }

  lemma AskIsQuiet(s: Session)
    ensures Quiet(s, SpecAsk(s))
  {
    hide SpecAwait, Quiet;
    var asked := s.(control := s.control.(attemptCount := s.control.attemptCount + 1), trace := Then(s.trace, Asked));
    SilentIsQuiet(s, asked, Asked);
    AwaitIsQuiet(asked);
    QuietChain(s, asked, SpecAsk(s));
  }

  lemma SaveIsQuiet(env: Env, s: Session, record: PendingRecord)
    ensures Quiet(s, SaveAgain(env, s, record))
  {
    hide Store;
    if env.saveOk(s.ports.saves) { SilentIsQuiet(s, SaveAgain(env, s, record), SavedAgain(record)); }
  }

  lemma ResolveIsQuiet(env: Env, s: Session, state: RecoveryState)
    ensures Quiet(s, SpecResolve(env, s, state))
  {
    hide Load, SaveAgain, Remove, Quiet, Store;
    if s.pending.id.Some? {
      var loaded := Load(s.ports.journal, s.pending.id.value);
      var marked := if loaded.None? then s else SaveAgain(env, s, loaded.value.(recoveryState := state));
      if loaded.Some? { SaveIsQuiet(env, s, loaded.value.(recoveryState := state)); } else { SameIsQuiet(s, s); }
      SilentIsQuiet(marked, SpecResolve(env, s, state), Deleted(s.pending.id.value));
      QuietChain(s, marked, SpecResolve(env, s, state));
    } else {
      SameIsQuiet(s, SpecResolve(env, s, state));
    }
  }

  lemma ReconcileIsQuiet(env: Env, s: Session, active: string)
    ensures Quiet(s, SpecReconcile(env, s, active))
  {
    hide SpecResolve, Quiet;
    ResolveIsQuiet(env, s, ConfirmedIndexed);
    ResolveIsQuiet(env, s, Superseded);
    var r := SpecReconcile(env, s, active);
    if s.pending.id.None? {
      SameIsQuiet(s, r);
    } else if ReconcilesUpgrade(s) {
      var record := s.pending.record.value;
      if active == record.upgradeBinding.value.expectedCurrentTransactionId {
        SameIsQuiet(s, r);
      } else if active == record.transactionId {
        var resolved := SpecResolve(env, s, ConfirmedIndexed);
        SilentIsQuiet(resolved, r, Succeeded(record.transactionId));
        QuietChain(s, resolved, r);
      } else {
        var resolved := SpecResolve(env, s, Superseded);
        SameIsQuiet(resolved, r);
        QuietChain(s, resolved, r);
      }
    }
  }

  /** The answer is used: it is the latest, and an active licence lifts the restriction. */
  lemma AnswerTells(env: Env, s: Session, result: QueryTransportResult, outcome: QueryOutcome)
    ensures var done := Answer(env, s, result, outcome);
            && Extends(s.trace, done.trace)
            && (Tells(s) ==> TellsTimes(done)
                             && Restricted(done.trace) == (!outcome.Ready? && done.control.rejectionRefreshOnly))
  {
  }

  /** A step after an active answer, which the field still has to follow. */
  lemma ReadyContinues(env: Env, s: Session, active: SafeProjection)
    ensures Extends(s.trace, SpecReady(env, s, active).trace)
    ensures TellsTimes(s) && !Restricted(s.trace) ==> Tells(SpecReady(env, s, active))
  {
    hide SpecFindBound, SpecReconcile;
    var attached := SpecAttach(env, s);
    ReconcileIsQuiet(env, attached, active.licenceReference);
    SameIsQuiet(s, attached);
    QuietChain(s, attached, SpecReconcile(env, attached, active.licenceReference));
  }

  lemma AdmissionIsQuiet(env: Env, s: Session, record: PendingRecord, admission: Admission)
    ensures Quiet(s, Landed(SpecAdmission(SpecRecordAttempt(env, s, record, admission), record, admission)))
  {
    hide Store, AfterAttempt, Quiet;
    var updated := AfterAttempt(env, s, record, admission);
    var saved := SaveAgain(env, ReadClock(s), updated);
    SameIsQuiet(s, ReadClock(s));
    SaveIsQuiet(env, ReadClock(s), updated);
    QuietChain(s, ReadClock(s), saved);
    var r := Landed(SpecAdmission(SpecRecordAttempt(env, s, record, admission), record, admission));
    SameIsQuiet(saved, r);
    QuietChain(s, saved, r);
  }

  /** The window restarts. */
  lemma MarkContinues(s: Session, r: Session)
    requires SameTold(s.(trace := Then(s.trace, Marked), timing := s.timing.(confirmationStartedReachableMs :=
                           Some(s.timing.reachableElapsedMs))), r)
    ensures Continues(s, r)
  {
    assert Extends(s.trace, s.trace);
  }

  lemma SendContinues(s: Session, record: PendingRecord)
    ensures Continues(s, Send(s, record))
  {
    hide Continues, Load;
    var marked := s.(trace := Then(s.trace, Marked), timing := s.timing.(confirmationStartedReachableMs :=
                       Some(s.timing.reachableElapsedMs)));
    MarkContinues(s, marked);
    SilentIsQuiet(marked, Send(s, record), Submitted(record, Load(s.ports.journal, record.transactionId)));
    QuietContinues(marked, Send(s, record));
    Chain(s, marked, Send(s, record));
  }

  lemma SealIsQuiet(env: Env, s: Session, record: PendingRecord)
    ensures Quiet(s, Seal(env, s, record)) && Seal(env, s, record).ports.tape == s.ports.tape
  {
    hide Store;
    SilentIsQuiet(s, Seal(env, s, record), SealedNew(record));
  }

  // ----- queries and submissions --------------------------------------------------------------

  lemma {:induction false} QueryContinues(env: Env, s: Session, reason: Reason)
    ensures Continues(s, SpecRunFreshQuery(env, s, reason))
    decreases |s.ports.tape|, 4
  {
    hide SpecQueryAttempt, Continues;
    if !s.control.inFlight && !s.control.cancelled {
      var flying := s.(control := s.control.(inFlight := true));
      SameContinues(s, flying);
      AttemptContinues(env, flying, reason, 1);
      var done := SpecQueryAttempt(env, flying, reason, 1);
      Chain(s, flying, done);
      SameContinues(done, Landed(done));
      Chain(s, done, Landed(done));
    } else {
      SameContinues(s, s);
    }
  }

  lemma SameContinues(s: Session, r: Session)
    requires SameTold(s, r)
    ensures Continues(s, r)
  {
    SameIsQuiet(s, r);
  }

  lemma {:induction false} AttemptContinues(env: Env, s: Session, reason: Reason, attempt: nat)
    ensures Continues(s, SpecQueryAttempt(env, s, reason, attempt))
    ensures Continues(SpecAsk(s), SpecQueryAttempt(env, s, reason, attempt))
    decreases |s.ports.tape|, 3
  {
    hide ParseQueryResult, SpecApplyOutcome, SpecAsk, Continues, Quiet, Tells, TellsTimes, Restricted, Extends;
    AskIsQuiet(s);
    AskConsumes(s);
    var back := SpecAsk(s);
    QuietContinues(s, back);
    var r := SpecQueryAttempt(env, s, reason, attempt);
    if !Interrupted(back) {
      var result := s.ports.tape[0].query;
      var outcome := ParseQueryResult(result, env.actor, env.network);
      var done := Answer(env, back, result, outcome);
      AnswerTells(env, back, result, outcome);
      if !outcome.NotAuthenticated? {
        ApplyContinues(env, CountRefusals(done, 0), outcome, reason);
        AnsweredContinues(back, done, CountRefusals(done, 0), r, outcome);
      } else if attempt == 1 && reason != FOR_RETRY {
        var again := CountRefusals(done, 1).(lastOutcomeCode := UnauthenticatedRetryOnce);
        AttemptContinues(env, again, reason, 2);
        RefusedContinues(back, done, again);
        Chain(back, again, r);
      } else {
        RefusedContinues(back, done, r);
      }
    } else {
      SameContinues(back, r);
    }
    Chain(s, back, r);
  }

  lemma RefusedContinues(s: Session, done: Session, r: Session)
    requires Extends(s.trace, done.trace) && SameTold(done, r)
    requires done.control.rejectionRefreshOnly == s.control.rejectionRefreshOnly
    requires Tells(s) ==> TellsTimes(done) && Restricted(done.trace) == done.control.rejectionRefreshOnly
    ensures Continues(s, r)
  {
  }

  lemma AnsweredContinues(s: Session, done: Session, counted: Session, r: Session, outcome: QueryOutcome)
    requires Extends(s.trace, done.trace) && SameTold(done, counted) && Extends(counted.trace, r.trace)
    requires Tells(s) ==>
               TellsTimes(done) && Restricted(done.trace) == (!outcome.Ready? && done.control.rejectionRefreshOnly)
    requires Follows(counted, outcome) ==> Tells(r)
    ensures Continues(s, r)
  {
    ExtendsTransitive(s.trace, done.trace, r.trace);
  }

  /** The log is ahead of the field at most by an active answer. */
  ghost predicate Follows(s: Session, outcome: QueryOutcome) {
    TellsTimes(s) && Restricted(s.trace) == (!outcome.Ready? && s.control.rejectionRefreshOnly)
  }

  lemma AskConsumes(s: Session)
    ensures |SpecAsk(s).ports.tape| <= |s.ports.tape|
    ensures !Interrupted(SpecAsk(s)) ==> |SpecAsk(s).ports.tape| < |s.ports.tape|
  {
  }

  lemma {:induction false} ApplyContinues(env: Env, s: Session, outcome: QueryOutcome, reason: Reason)
    requires !outcome.NotAuthenticated?
    ensures var r := SpecApplyOutcome(env, s, outcome, reason);
            Extends(s.trace, r.trace) && (Follows(s, outcome) ==> Tells(r))
    decreases |s.ports.tape|, 6
  {
    hide SpecReady, SpecHandleNoActive, TellsTimes, Restricted;
    if outcome.Ready? {
      ReadyContinues(env, s, outcome.projection);
    } else if outcome.NoActiveLicence? {
      HandleNoActiveContinues(env, s.(projection := None), outcome.template, reason);
      SameContinues(s, s.(projection := None));
    } else {
      SameContinues(s, SpecApplyOutcome(env, s, outcome, reason));
    }
  }

  lemma {:induction false} HandleNoActiveContinues(env: Env, s: Session, template: TemplateView, reason: Reason)
    ensures Continues(s, SpecHandleNoActive(env, s, template, reason))
    decreases |s.ports.tape|, 5
  {
    hide SpecFindBound, SpecSubmitPending, SpecSealAndSubmit, StageBaseline, Continues;
    var bound := SpecFindBound(env, s);
    var r := SpecHandleNoActive(env, s, template, reason);
    var staged := StageBaseline(env.actor, env.network, env.digestOf, env.mint(s.ports.minted), template);
    if s.control.rejectionRefreshOnly {
      SameContinues(s, r);
    } else if bound.Some? {
      var attached := Attach(s, bound.value).(lastOutcomeCode := NoActiveResubmitExact);
      SameContinues(s, attached);
      SubmitContinues(env, attached, bound.value);
      Chain(s, attached, SpecSubmitPending(env, attached, bound.value));
      if bound.value.IsUpgrade() || reason == FOR_POLL { SameContinues(s, r); }
    } else if staged.Staged? {
      var signing := Mint(s).(phase := BaselineSigning, lastOutcomeCode := ConstructingBaseline);
      SameContinues(s, signing);
      SealAndSubmitContinues(env, signing, staged.record);
      Chain(s, signing, r);
    } else {
      SameContinues(s, r);
    }
  }

  lemma {:induction false} SealAndSubmitContinues(env: Env, s: Session, record: PendingRecord)
    ensures Continues(s, SpecSealAndSubmit(env, s, record))
    decreases |s.ports.tape|, 4
  {
    hide SpecSubmitPending, Store, Continues, Seal;
    var r := SpecSealAndSubmit(env, s, record);
    if env.saveOk(s.ports.saves) {
      var sealed := Seal(env, s, record);
      SealIsQuiet(env, s, record);
      QuietContinues(s, sealed);
      SubmitContinues(env, sealed, record);
      Chain(s, sealed, r);
    } else {
      SameContinues(s, r);
    }
  }

  lemma {:induction false} SubmitContinues(env: Env, s: Session, record: PendingRecord)
    ensures Continues(s, SpecSubmitPending(env, s, record))
    ensures !s.control.cancelled && IsPurposeCoherent(env.intentOf(record.transaction.exactJson), record) ==>
              Continues(Send(s, record), SpecSubmitPending(env, s, record))
    decreases |s.ports.tape|, 3
  {
    hide IsPurposeCoherent, SpecAwait, Send, SpecAfterAdmission, Continues;
    var r := SpecSubmitPending(env, s, record);
    if s.control.cancelled || !IsPurposeCoherent(env.intentOf(record.transaction.exactJson), record) {
      SameContinues(s, r);
    } else {
      var sent := Send(s, record);
      var back := SpecAwait(sent);
      AwaitIsQuiet(sent);
      QuietContinues(sent, back);
      SendConsumes(s, record);
      if Interrupted(back) {
        SameContinues(back, r);
      } else {
        AfterAdmissionContinues(env, back, record, s.ports.tape[0].admission);
      }
      Chain(sent, back, r);
      SendContinues(s, record);
      Chain(s, sent, r);
    }
  }

  lemma SendConsumes(s: Session, record: PendingRecord)
    ensures var back := SpecAwait(Send(s, record));
            && |back.ports.tape| <= |s.ports.tape|
            && (!Interrupted(back) ==> |back.ports.tape| < |s.ports.tape|)
  {
  }

  lemma {:induction false} AfterAdmissionContinues(env: Env, s: Session, record: PendingRecord, admission: Admission)
    ensures Continues(s, SpecAfterAdmission(env, s, record, admission))
    decreases |s.ports.tape|, 6
  {
    hide SpecAdmission, SpecRecordAttempt, SpecRunFreshQuery, SpecReconcileRejected, Continues;
    var decided := Landed(SpecAdmission(SpecRecordAttempt(env, s, record, admission), record, admission));
    AdmissionIsQuiet(env, s, record, admission);
    QuietContinues(s, decided);
    AdmissionLeavesTape(env, s, record, admission);
    var queried := decided;
    if decided.control.needsImmediateQuery && !decided.control.cancelled {
      var asking := decided.(control := decided.control.(needsImmediateQuery := false));
      SameContinues(decided, asking);
      Chain(s, decided, asking);
      QueryContinues(env, asking, FOR_ALREADY_EXISTS);
      queried := SpecRunFreshQuery(env, asking, FOR_ALREADY_EXISTS);
      Chain(s, asking, queried);
    }
    if !queried.control.thrown && queried.upgrade.rejectedRequery && !queried.control.cancelled {
      var rejected := queried.(upgrade := queried.upgrade.(rejectedRequery := false));
      SameContinues(queried, rejected);
      Chain(s, queried, rejected);
      RejectedContinues(env, rejected);
      Chain(s, rejected, SpecReconcileRejected(env, rejected));
    }
  }

  lemma AdmissionLeavesTape(env: Env, s: Session, record: PendingRecord, admission: Admission)
    ensures SpecAdmission(SpecRecordAttempt(env, s, record, admission), record, admission).ports.tape == s.ports.tape
  {
  }

  lemma {:induction false} RejectedContinues(env: Env, s: Session)
    ensures Continues(s, SpecReconcileRejected(env, s))
    decreases |s.ports.tape|, 5
  {
    hide SpecRunFreshQuery, SpecResolve, Continues;
    QueryContinues(env, s, FOR_UPGRADE_REJECTED);
    var queried := SpecRunFreshQuery(env, s, FOR_UPGRADE_REJECTED);
    var resolved := SpecResolve(env, queried, Retired);
    ResolveIsQuiet(env, queried, Retired);
    QuietContinues(queried, resolved);
    SameContinues(resolved, SpecStaleRejection(env, queried));
    Chain(s, queried, resolved);
    Chain(s, resolved, SpecStaleRejection(env, queried));
  }

  // ----- public operations --------------------------------------------------------------------

  /** The entry of the operation itself may reset the reachable time and the restriction. */
  lemma BeginTells(s: Session, step: Step)
    requires Tells(s)
    ensures var t := Begin(s, step).trace;
            && Elapsed(t) == (if ResetsReachable(step.op) then 0 else s.timing.reachableElapsedMs)
            && LastReached(t) == s.timing.lastReachableAtMs
            && WindowFrom(t) == s.timing.confirmationStartedReachableMs && AnsweredAt(t) == s.timing.lastQueryAtMs
            && (Restricted(t) <==> step.op == Revalidate(FOR_AUTHORITATIVE_REJECTION)
                                   || (!step.op.RecoverFromError? && s.control.rejectionRefreshOnly))
  {
  }

  lemma CreditContinues(env: Env, s: Session)
    ensures Continues(s, SpecCredit(env, s))
  {
    assert Extends(s.trace, s.trace);
  }

  lemma AdvanceContinues(env: Env, s: Session, e: Eligibility)
    ensures Continues(s, SpecAdvanceReachable(env, s, e))
  {
    hide Continues, SpecCredit;
    var r := SpecAdvanceReachable(env, s, e);
    if e.Eligible() {
      var credited := SpecCredit(env, s);
      CreditContinues(env, s);
      if DelayDue(credited) {
        SilentIsQuiet(credited, r, TimerFired);
        QuietContinues(credited, r);
        Chain(s, credited, r);
      }
    } else {
      UnreachableContinues(s, r);
    }
  }

  lemma UnreachableContinues(s: Session, r: Session)
    requires SameTold(s.(trace := Then(s.trace, Unreachable), timing := s.timing.(lastReachableAtMs := None)), r)
    ensures Continues(s, r)
  {
    assert Extends(s.trace, s.trace);
  }

  lemma RevalidateContinues(env: Env, s: Session, trigger: Reason)
    requires trigger != FOR_AUTHORITATIVE_REJECTION
    ensures Continues(s, SpecRevalidate(env, s, trigger))
  {
    hide SpecRunFreshQuery, Continues;
    var gated := s.(phase := Resolving, projection := None, lastOutcomeCode := RevalidateCode(trigger));
    SameContinues(s, gated);
    QueryContinues(env, gated, trigger);
    Chain(s, gated, SpecRunFreshQuery(env, gated, trigger));
  }

  lemma QueryFrom(env: Env, s: Session, m: Session, reason: Reason)
    requires SameTold(s, m)
    ensures Continues(s, SpecRunFreshQuery(env, m, reason))
  {
    hide SpecRunFreshQuery, Continues;
    SameContinues(s, m);
    QueryContinues(env, m, reason);
    Chain(s, m, SpecRunFreshQuery(env, m, reason));
  }

  lemma PollContinues(env: Env, s: Session)
    ensures Continues(s, SpecPoll(env, s))
  {
    hide SpecRunFreshQuery, Continues;
    SameContinues(s, s);
    SameContinues(s, ReadClock(s));
    QueryFrom(env, s, s, FOR_POLL);
    QueryFrom(env, s, ReadClock(s), FOR_POLL);
  }

  lemma TickFromAdvance(env: Env, s: Session, e: Eligibility)
    ensures Continues(SpecAdvanceReachable(env, s, e), SpecTick(env, s, e))
  {
    hide SpecAdvanceReachable, SpecRevalidate, SpecPoll, ExpiryDue, Continues;
    var t := SpecAdvanceReachable(env, s, e);
    var r := SpecTick(env, s, e);
    if !e.Eligible() || t.control.inFlight {
      SameContinues(t, r);
    } else if ShowsExpiry(t) && ExpiryDue(env, t) {
      var woken := ReadClock(t).(timing := t.timing.(
                                   lastExpiryWakeup := Some(Wakeup(t)),
                                   nextExpiryRecheckAtMs :=
                                     env.clock(t.ports.clockReads) + EXPIRY_RECHECK_INTERVAL_MS));
      SameContinues(t, woken);
      RevalidateContinues(env, woken, FOR_EXPIRY) by { assert |FOR_EXPIRY| != |FOR_AUTHORITATIVE_REJECTION|; }
      Chain(t, woken, r);
    } else {
      var u := if ShowsExpiry(t) then ReadClock(t) else t;
      SameContinues(t, u);
      PollContinues(env, u);
      Chain(t, u, r);
    }
  }

  lemma TickContinues(env: Env, s: Session, e: Eligibility)
    ensures Continues(s, SpecTick(env, s, e))
  {
    hide SpecAdvanceReachable, SpecTick, Continues;
    AdvanceContinues(env, s, e);
    TickFromAdvance(env, s, e);
    Chain(s, SpecAdvanceReachable(env, s, e), SpecTick(env, s, e));
  }

  lemma StartContinues(env: Env, s: Session)
    ensures Continues(s, SpecStart(env, s))
  {
    hide SpecRunFreshQuery, Continues;
    SilentIsQuiet(s, StartOver(s), Started);
    QuietContinues(s, StartOver(s));
    QueryContinues(env, StartOver(s), FOR_START);
    Chain(s, StartOver(s), SpecStart(env, s));
  }

  lemma RetryContinues(env: Env, s: Session)
    ensures Continues(s, SpecRetryExact(env, s))
  {
    hide SpecSubmitPending, SpecStart, Continues;
    if HasPending(s) {
      var marked := s.(timing := s.timing.(confirmationStartedReachableMs := Some(s.timing.reachableElapsedMs)),
                       lastOutcomeCode := RetryExactCode, trace := Then(s.trace, Marked));
      MarkContinues(s, marked);
      SubmitContinues(env, marked, s.pending.record.value);
      Chain(s, marked, SpecRetryExact(env, s));
    } else {
      StartContinues(env, s);
    }
  }

  lemma ConfirmContinues(env: Env, s: Session, target: Option<string>)
    ensures Continues(s, SpecConfirmUpgrade(env, s, target))
  {
    hide SpecRunFreshQuery, SpecConfirmFresh, Continues;
    var t := ClearNotices(s);
    var r := SpecConfirmUpgrade(env, s, target);
    QueryFrom(env, s, t, FOR_CONFIRM_UPGRADE);
    var queried := SpecRunFreshQuery(env, t, FOR_CONFIRM_UPGRADE);
    if t.projection.Some? && target.Some? {
      ConfirmFreshContinues(env, queried, t.projection.value, target.value);
      Chain(s, queried, SpecConfirmFresh(env, queried, t.projection.value, target.value));
    }
    if SameTold(s, r) { SameContinues(s, r); }
  }

  lemma ConfirmFreshContinues(env: Env, s: Session, displayed: SafeProjection, plan: string)
    ensures Continues(s, SpecConfirmFresh(env, s, displayed, plan))
  {
    hide SpecSealAndSubmit, StageUpgrade, Continues;
    var r := SpecConfirmFresh(env, s, displayed, plan);
    if s.projection.Some? {
      var staged := StageUpgrade(env.actor, env.network, env.digestOf, env.mint(s.ports.minted),
                                 BindingFor(s.projection.value, plan));
      if staged.Staged? {
        SameContinues(s, Mint(s));
        SealAndSubmitContinues(env, Mint(s), staged.record);
        Chain(s, Mint(s), SpecSealAndSubmit(env, Mint(s), staged.record));
      }
    }
    if SameTold(s, r) { SameContinues(s, r); }
  }

  /** The operations whose own entry resets nothing. */
  predicate IsPlainOp(op: Op) {
    !ResetsReachable(op) && op != Revalidate(FOR_AUTHORITATIVE_REJECTION) && !op.RecoverFromError? && !op.Restart?
  }

  lemma PlainContinues(env: Env, s: Session, step: Step)
    requires IsPlainOp(step.op)
    ensures Continues(Begin(s, step), SpecPerform(env, s, step))
  {
    hide SpecRetryExact, SpecTick, SpecStart, SpecConfirmUpgrade, SpecRevalidate, Continues;
    var t := Begin(s, step);
    var r := SpecPerform(env, s, step);
    match step.op
    case Start => StartContinues(env, t);
    case Tick(e) => TickContinues(env, t, e);
    case OnConnectivity(event) => SameContinues(t, r);
    case RetryExact => RetryContinues(env, t);
    case Revalidate(trigger) => RevalidateContinues(env, t, trigger);
    case ConfirmUpgrade(target) => ConfirmContinues(env, t, target);
    case AcknowledgeOutcome => SameContinues(t, r);
    case LockOp =>
      SilentIsQuiet(t, r, LockFired);
      QuietContinues(t, r);
  }

  lemma OutageTells(env: Env, s: Session, step: Step)
    requires Tells(s) && ResetsReachable(step.op)
    ensures Tells(SpecPerform(env, s, step))
  {
    hide SpecRunFreshQuery, Continues, Tells;
    BeginResets(s, step);
    var t := Begin(s, step);
    var reset := t.(timing := t.timing.(reachableElapsedMs := 0));
    if step.op.event == Online {
      var stopped := reset.(trace := Then(t.trace, Unreachable),
                            timing := reset.timing.(lastReachableAtMs := None));
      UnreachableContinues(reset, stopped);
      CreditContinues(env, stopped);
      var read := Reconnected(env, t);
      assert SpecCredit(env, stopped) == read;
      Chain(reset, stopped, read);
      QueryContinues(env, read, FOR_RECONNECT);
      Chain(reset, read, SpecRunFreshQuery(env, read, FOR_RECONNECT));
      ContinuesTells(reset, read);
      ContinuesTells(reset, SpecRunFreshQuery(env, read, FOR_RECONNECT));
    } else {
      UnreachableContinues(reset, SpecOffline(t));
      ContinuesTells(reset, SpecOffline(t));
    }
  }

  lemma BeginResets(s: Session, step: Step)
    requires Tells(s)
    ensures var t := Begin(s, step);
            && (ResetsReachable(step.op) ==> Tells(t.(timing := t.timing.(reachableElapsedMs := 0))))
            && (step.op.RecoverFromError? ==> Tells(t.(control := t.control.(rejectionRefreshOnly := false))))
            && (step.op == Revalidate(FOR_AUTHORITATIVE_REJECTION) ==>
                  Tells(t.(control := t.control.(rejectionRefreshOnly := true))))
            && (IsPlainOp(step.op) ==> Tells(t))
  {
    BeginTells(s, step);
  }

  lemma ContinuesTells(s: Session, r: Session)
    requires Continues(s, r) && Tells(s)
    ensures Tells(r)
  {
  }

  lemma PerformTells(env: Env, s: Session, step: Step)
    requires Tells(s)
    ensures Tells(SpecPerform(env, s, step))
  {
    hide SpecRetryExact, SpecRunFreshQuery, Continues, Tells, SpecTick, SpecStart, SpecConfirmUpgrade;
    BeginResets(s, step);
    var t := Begin(s, step);
    if IsPlainOp(step.op) {
      PlainContinues(env, s, step);
      ContinuesTells(t, SpecPerform(env, s, step));
    } else if ResetsReachable(step.op) {
      OutageTells(env, s, step);
    } else if step.op.RecoverFromError? {
      var open := t.(control := t.control.(rejectionRefreshOnly := false));
      RetryContinues(env, open);
      QueryContinues(env, open, FOR_RECOVERY);
      ContinuesTells(open, SpecPerform(env, s, step));
    } else if step.op.Restart? {
      RestartTells(t);
    } else {
      var closed := t.(control := t.control.(rejectionRefreshOnly := true));
      var gated := closed.(phase := Resolving, projection := None,
                           lastOutcomeCode := RevalidateCode(FOR_AUTHORITATIVE_REJECTION));
      QueryFrom(env, closed, gated, FOR_AUTHORITATIVE_REJECTION);
      ContinuesTells(closed, SpecPerform(env, s, step));
    }
  }

  lemma RestartTells(s: Session)
    ensures Tells(SpecRestart(s))
  {
  }

  lemma InitiallyTells()
    ensures Tells(Initial())
  {
  }

  /** After every run the fields say what the log says. */
  lemma {:induction false} RunTells(env: Env, steps: seq<Step>)
    ensures Tells(Run(env, steps))
  {
    hide SpecPerform, Tells;
    if steps == [] {
      InitiallyTells();
    } else {
      RunTells(env, steps[..|steps| - 1]);
      PerformTells(env, Run(env, steps[..|steps| - 1]), steps[|steps| - 1]);
    }
  }
}
