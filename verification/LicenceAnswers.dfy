/**
  What the latest answer of all, refused authentications included, says about a ready session.
  The count of consecutive refusals that the coordinator reports tells exactly when the licence
  shown is that of the latest answer.
*/
module LicenceAnswers {
  import opened Wrappers
  import opened LicenceContracts
  import opened LicenceProjection
  import opened LicenceQueryParser
  import opened LicencePending
  import opened LicenceSession
  import opened LicenceTrace
  import opened LicenceSessionSafety

  /** The outcome of the latest answer that was used. */
  ghost function LastAnswer(t: Trace): Option<QueryOutcome> {
    match t
    case Nothing => None
    case Then(_, Answered(_, outcome, _)) => Some(outcome)
    case Then(before, _) => LastAnswer(before)
  }

  /** While a licence is shown, the refusals counted are those since the answer that brought it. */
  ghost predicate CountOk(s: Session) {
    s.projection.Some? ==>
      (LastAnswer(s.trace) == Some(NotAuthenticated) <==> s.control.consecutiveUnauthenticated > 0)
  }

  /** A step that uses no answer: the count and the latest answer stay, and no licence appears. */
  ghost predicate UsesNoAnswer(s: Session, r: Session) {
    && r.control.consecutiveUnauthenticated == s.control.consecutiveUnauthenticated
    && LastAnswer(r.trace) == LastAnswer(s.trace)
    && (r.projection == s.projection || r.projection.None?)
  }

  // ----- single steps -------------------------------------------------------------------------

  lemma AwaitUsesNone(s: Session)
    ensures UsesNoAnswer(s, SpecAwait(s))
  {
  }

  lemma AskUsesNone(s: Session)
    ensures UsesNoAnswer(s, SpecAsk(s))
  {
    hide SpecAwait;
    var asked := s.(control := s.control.(attemptCount := s.control.attemptCount + 1), trace := Then(s.trace, Asked));
    assert UsesNoAnswer(s, asked);
    AwaitUsesNone(asked);
  }

  lemma ResolveUsesNone(env: Env, s: Session, state: RecoveryState)
    ensures UsesNoAnswer(s, SpecResolve(env, s, state)) && SpecResolve(env, s, state).projection == s.projection
  {
    hide Load, Save, Remove;
    if s.pending.id.Some? && Load(s.ports.journal, s.pending.id.value).Some? {
      var record := Load(s.ports.journal, s.pending.id.value).value.(recoveryState := state);
      assert UsesNoAnswer(s, SaveAgain(env, s, record));
    }
  }

  lemma ReconcileUsesNone(env: Env, s: Session, active: string)
    ensures UsesNoAnswer(s, SpecReconcile(env, s, active))
  {
    hide SpecResolve;
    ResolveUsesNone(env, s, ConfirmedIndexed);
    ResolveUsesNone(env, s, Superseded);
  }

  lemma ReadyCounts(env: Env, s: Session, active: SafeProjection)
    requires s.control.consecutiveUnauthenticated == 0 && LastAnswer(s.trace) != Some(NotAuthenticated)
    ensures CountOk(SpecReady(env, s, active))
  {
    hide SpecFindBound, SpecReconcile;
    var attached := SpecAttach(env, s);
    assert UsesNoAnswer(s, attached);
    ReconcileUsesNone(env, attached, active.licenceReference);
  }

  lemma AdmissionUsesNone(env: Env, s: Session, record: PendingRecord, admission: Admission)
    ensures UsesNoAnswer(s, Landed(SpecAdmission(SpecRecordAttempt(env, s, record, admission), record, admission)))
  {
    hide Save, AfterAttempt;
    var recorded := SpecRecordAttempt(env, s, record, admission);
    assert UsesNoAnswer(s, recorded);
    assert SpecAdmission(recorded, record, admission).trace == recorded.trace;
  }

  lemma SendUsesNone(s: Session, record: PendingRecord)
    ensures UsesNoAnswer(s, Send(s, record))
  {
    hide Load;
    assert LastAnswer(Then(s.trace, Marked)) == LastAnswer(s.trace);
  }

  // ----- queries and submissions --------------------------------------------------------------

  lemma {:induction false} QueryCounts(env: Env, s: Session, reason: Reason)
    requires CountOk(s)
    ensures CountOk(SpecRunFreshQuery(env, s, reason))
    decreases |s.ports.tape|, 4
  {
    hide SpecQueryAttempt;
    if !s.control.inFlight && !s.control.cancelled {
      AttemptCounts(env, s.(control := s.control.(inFlight := true)), reason, 1);
    }
  }

  lemma {:induction false} AttemptCounts(env: Env, s: Session, reason: Reason, attempt: nat)
    requires CountOk(s)
    ensures CountOk(SpecQueryAttempt(env, s, reason, attempt))
    decreases |s.ports.tape|, 3
  {
    hide ParseQueryResult, SpecApplyOutcome, SpecAsk;
    AskUsesNone(s);
    AskConsumes(s);
    var back := SpecAsk(s);
    if !Interrupted(back) {
      var outcome := ParseQueryResult(s.ports.tape[0].query, env.actor, env.network);
      var done := Answer(env, back, s.ports.tape[0].query, outcome);
      assert LastAnswer(done.trace) == Some(outcome);
      if !outcome.NotAuthenticated? {
        ApplyCounts(env, CountRefusals(done, 0), outcome, reason);
      } else if attempt == 1 && reason != FOR_RETRY {
        AttemptCounts(env, CountRefusals(done, 1).(lastOutcomeCode := UnauthenticatedRetryOnce), reason, 2);
      }
    }
  }

  lemma AskConsumes(s: Session)
    ensures |SpecAsk(s).ports.tape| <= |s.ports.tape|
    ensures !Interrupted(SpecAsk(s)) ==> |SpecAsk(s).ports.tape| < |s.ports.tape|
  {
  }

  lemma {:induction false} ApplyCounts(env: Env, s: Session, outcome: QueryOutcome, reason: Reason)
    requires !outcome.NotAuthenticated?
    requires s.control.consecutiveUnauthenticated == 0 && LastAnswer(s.trace) != Some(NotAuthenticated)
    ensures CountOk(SpecApplyOutcome(env, s, outcome, reason))
    decreases |s.ports.tape|, 6
  {
    hide SpecReady, SpecHandleNoActive;
    match outcome
    case Ready(active) => ReadyCounts(env, s, active);
    case NoActiveLicence(template) => HandleNoActiveCounts(env, s.(projection := None), template, reason);
    case _ =>
  }

  lemma {:induction false} HandleNoActiveCounts(env: Env, s: Session, template: TemplateView, reason: Reason)
    requires s.projection.None?
    ensures CountOk(SpecHandleNoActive(env, s, template, reason))
    decreases |s.ports.tape|, 5
  {
    hide SpecFindBound, SpecSubmitPending, SpecSealAndSubmit, StageBaseline;
    var bound := SpecFindBound(env, s);
    if s.control.rejectionRefreshOnly {
    } else if bound.Some? {
      SubmitCounts(env, Attach(s, bound.value).(lastOutcomeCode := NoActiveResubmitExact), bound.value);
    } else {
      var staged := StageBaseline(env.actor, env.network, env.digestOf, env.mint(s.ports.minted), template);
      if staged.Staged? {
        SealAndSubmitCounts(env, Mint(s).(phase := BaselineSigning, lastOutcomeCode := ConstructingBaseline),
                            staged.record);
      }
    }
  }

  lemma {:induction false} SealAndSubmitCounts(env: Env, s: Session, record: PendingRecord)
    requires CountOk(s)
    ensures CountOk(SpecSealAndSubmit(env, s, record))
    decreases |s.ports.tape|, 4
  {
    hide SpecSubmitPending, Save;
    assert LastAnswer(Seal(env, s, record).trace) == LastAnswer(s.trace);
    if env.saveOk(s.ports.saves) {
      SealLeavesTape(env, s, record);
      SubmitCounts(env, Seal(env, s, record), record);
    }
  }

  lemma SealLeavesTape(env: Env, s: Session, record: PendingRecord)
    ensures Seal(env, s, record).ports.tape == s.ports.tape
  {
  }

  lemma {:induction false} SubmitCounts(env: Env, s: Session, record: PendingRecord)
    requires CountOk(s)
    ensures CountOk(SpecSubmitPending(env, s, record))
    decreases |s.ports.tape|, 3
  {
    hide IsPurposeCoherent, SpecAwait, Send, SpecAfterAdmission;
    var sent := Send(s, record);
    SendUsesNone(s, record);
    AwaitUsesNone(sent);
    SendConsumes(s, record);
    var back := SpecAwait(sent);
    if !Interrupted(back) {
      AfterAdmissionCounts(env, back, record, s.ports.tape[0].admission);
    }
  }

  lemma SendConsumes(s: Session, record: PendingRecord)
    ensures var back := SpecAwait(Send(s, record));
            && |back.ports.tape| <= |s.ports.tape|
            && (!Interrupted(back) ==> |back.ports.tape| < |s.ports.tape|)
  {
  }

  lemma {:induction false} AfterAdmissionCounts(env: Env, s: Session, record: PendingRecord, admission: Admission)
    requires CountOk(s)
    ensures CountOk(SpecAfterAdmission(env, s, record, admission))
    decreases |s.ports.tape|, 6
  {
    hide SpecAdmission, SpecRecordAttempt, SpecRunFreshQuery, SpecReconcileRejected;
    AdmissionUsesNone(env, s, record, admission);
    AdmissionLeavesTape(env, s, record, admission);
    var decided := Landed(SpecAdmission(SpecRecordAttempt(env, s, record, admission), record, admission));
    var queried := decided;
    if decided.control.needsImmediateQuery && !decided.control.cancelled {
      var asking := decided.(control := decided.control.(needsImmediateQuery := false));
      QueryCounts(env, asking, FOR_ALREADY_EXISTS);
      queried := SpecRunFreshQuery(env, asking, FOR_ALREADY_EXISTS);
    }
    if !queried.control.thrown && queried.upgrade.rejectedRequery && !queried.control.cancelled {
      RejectedCounts(env, queried.(upgrade := queried.upgrade.(rejectedRequery := false)));
    }
  }

  lemma AdmissionLeavesTape(env: Env, s: Session, record: PendingRecord, admission: Admission)
    ensures SpecAdmission(SpecRecordAttempt(env, s, record, admission), record, admission).ports.tape == s.ports.tape
  {
  }

  lemma {:induction false} RejectedCounts(env: Env, s: Session)
    requires CountOk(s)
    ensures CountOk(SpecReconcileRejected(env, s))
    decreases |s.ports.tape|, 5
  {
    hide SpecRunFreshQuery, SpecResolve;
    QueryCounts(env, s, FOR_UPGRADE_REJECTED);
    var queried := SpecRunFreshQuery(env, s, FOR_UPGRADE_REJECTED);
    ResolveUsesNone(env, queried, Retired);
  }

  // ----- public operations --------------------------------------------------------------------

  lemma AdvanceUsesNone(env: Env, s: Session, e: Eligibility)
    ensures UsesNoAnswer(s, SpecAdvanceReachable(env, s, e))
  {
    if e.Eligible() {
      assert LastAnswer(SpecCredit(env, s).trace) == LastAnswer(s.trace);
    }
  }

  lemma RevalidateCounts(env: Env, s: Session, trigger: Reason)
    ensures CountOk(SpecRevalidate(env, s, trigger))
  {
    hide SpecRunFreshQuery;
    QueryCounts(env, s.(control := s.control.(rejectionRefreshOnly :=
                          s.control.rejectionRefreshOnly || trigger == FOR_AUTHORITATIVE_REJECTION),
                        phase := Resolving, projection := None, lastOutcomeCode := RevalidateCode(trigger)),
                trigger);
  }

  lemma TickCounts(env: Env, s: Session, e: Eligibility)
    requires CountOk(s)
    ensures CountOk(SpecTick(env, s, e))
  {
    hide SpecAdvanceReachable, SpecRevalidate, SpecRunFreshQuery, ExpiryDue;
    AdvanceUsesNone(env, s, e);
    var t := SpecAdvanceReachable(env, s, e);
    if ShowsExpiry(t) {
      var woken := ReadClock(t).(timing := t.timing.(
                                   lastExpiryWakeup := Some(Wakeup(t)),
                                   nextExpiryRecheckAtMs :=
                                     env.clock(t.ports.clockReads) + EXPIRY_RECHECK_INTERVAL_MS));
      RevalidateCounts(env, woken, FOR_EXPIRY);
    }
    QueryCounts(env, t, FOR_POLL);
    QueryCounts(env, ReadClock(t), FOR_POLL);
    QueryCounts(env, ReadClock(ReadClock(t)), FOR_POLL);
  }

  lemma RetryCounts(env: Env, s: Session)
    requires CountOk(s)
    ensures CountOk(SpecRetryExact(env, s))
  {
    hide SpecSubmitPending, SpecRunFreshQuery;
    if HasPending(s) {
      var marked := s.(timing := s.timing.(confirmationStartedReachableMs := Some(s.timing.reachableElapsedMs)),
                       lastOutcomeCode := RetryExactCode, trace := Then(s.trace, Marked));
      SubmitCounts(env, marked, s.pending.record.value);
    } else {
      QueryCounts(env, StartOver(s), FOR_START);
    }
  }

  lemma ConfirmCounts(env: Env, s: Session, target: Option<string>)
    requires CountOk(s)
    ensures CountOk(SpecConfirmUpgrade(env, s, target))
  {
    hide SpecRunFreshQuery, SpecConfirmFresh;
    var t := ClearNotices(s);
    QueryCounts(env, t, FOR_CONFIRM_UPGRADE);
    var queried := SpecRunFreshQuery(env, t, FOR_CONFIRM_UPGRADE);
    if t.projection.Some? && target.Some? {
      ConfirmFreshCounts(env, queried, t.projection.value, target.value);
    }
  }

  lemma ConfirmFreshCounts(env: Env, s: Session, displayed: SafeProjection, plan: string)
    requires CountOk(s)
    ensures CountOk(SpecConfirmFresh(env, s, displayed, plan))
  {
    hide SpecSealAndSubmit, StageUpgrade;
    if s.projection.Some? {
      var staged := StageUpgrade(env.actor, env.network, env.digestOf, env.mint(s.ports.minted),
                                 BindingFor(s.projection.value, plan));
      if staged.Staged? { SealAndSubmitCounts(env, Mint(s), staged.record); }
    }
  }

  lemma PerformCounts(env: Env, s: Session, step: Step)
    requires CountOk(s)
    ensures CountOk(SpecPerform(env, s, step))
  {
    hide SpecRunFreshQuery, SpecTick, SpecRetryExact, SpecRevalidate, SpecConfirmUpgrade;
    var t := Begin(s, step);
    assert CountOk(t);
    match step.op
    case Start => QueryCounts(env, StartOver(t), FOR_START);
    case Tick(e) => TickCounts(env, t, e);
    case OnConnectivity(event) =>
      assert LastAnswer(Reconnected(env, t).trace) == LastAnswer(t.trace);
      QueryCounts(env, Reconnected(env, t), FOR_RECONNECT);
    case RetryExact => RetryCounts(env, t);
    case RecoverFromError =>
      var open := t.(control := t.control.(rejectionRefreshOnly := false));
      RetryCounts(env, open);
      QueryCounts(env, open, FOR_RECOVERY);
    case Revalidate(trigger) => RevalidateCounts(env, t, trigger);
    case ConfirmUpgrade(target) => ConfirmCounts(env, t, target);
    case AcknowledgeOutcome =>
    case LockOp =>
    case Restart =>
  }

  lemma {:induction false} RunCounts(env: Env, steps: seq<Step>)
    ensures CountOk(Run(env, steps))
  {
    hide SpecPerform;
    if steps != [] {
      RunCounts(env, steps[..|steps| - 1]);
      PerformCounts(env, Run(env, steps[..|steps| - 1]), steps[|steps| - 1]);
    }
  }

  // ----- what it means ------------------------------------------------------------------------

  lemma {:induction false} UnrefusedIsVerdict(t: Trace)
    requires LastAnswer(t) != Some(NotAuthenticated)
    ensures LastAnswer(t) == Verdict(t)
  {
    if t.Then? && !t.last.Answered? { UnrefusedIsVerdict(t.before); }
  }

  /**
    A ready session shows the licence of the latest answer of all exactly if no consecutive
    refusals are counted; otherwise the latest answer was a refused authentication, after which
    the second attempt was cut off.
  */
  lemma ReadyShowsLatestAnswer(env: Env, steps: seq<Step>)
    requires MintsFresh(env) && Run(env, steps).phase == EntitlementReady
    ensures var s := Run(env, steps);
            && s.projection.Some?
            && (LastAnswer(s.trace) == Some(Ready(s.projection.value))
                <==> s.control.consecutiveUnauthenticated == 0)
            && (s.control.consecutiveUnauthenticated > 0 ==> LastAnswer(s.trace) == Some(NotAuthenticated))
  {
    RunKeeps(env, steps);
    RunCounts(env, steps);
    hide Run, TraceOk;
    var s := Run(env, steps);
    if LastAnswer(s.trace) != Some(NotAuthenticated) { UnrefusedIsVerdict(s.trace); }
  }
}
