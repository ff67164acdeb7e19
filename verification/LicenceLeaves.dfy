/**
  What queries and submissions leave alone: when the expiry was last asked about, and, between two
  operations, that no query asked for by a submission is still due.
*/
module LicenceLeaves {
  import opened Wrappers
  import opened LicenceContracts
  import opened LicenceProjection
  import opened LicenceQueryParser
  import opened LicencePending
  import opened LicenceSession
  import opened LicenceClock

  /** No query is due that a submission asked for. */
  predicate NothingDue(s: Session) { !s.control.needsImmediateQuery && !s.upgrade.rejectedRequery }

  /** What a query or a submission leaves alone. */
  predicate Leaves(s: Session, r: Session) {
    && r.timing.lastExpiryWakeup == s.timing.lastExpiryWakeup
    && r.timing.nextExpiryRecheckAtMs == s.timing.nextExpiryRecheckAtMs
    && (NothingDue(s) ==> NothingDue(r))
  }

  lemma {:induction false} QueryLeaves(env: Env, s: Session, reason: Reason)
    ensures Leaves(s, SpecRunFreshQuery(env, s, reason))
    decreases |s.ports.tape|, 4
  {
    hide SpecQueryAttempt;
    if !s.control.inFlight && !s.control.cancelled {
      AttemptLeaves(env, s.(control := s.control.(inFlight := true)), reason, 1);
    }
  }

  lemma {:induction false} AttemptLeaves(env: Env, s: Session, reason: Reason, attempt: nat)
    ensures Leaves(s, SpecQueryAttempt(env, s, reason, attempt))
    decreases |s.ports.tape|, 3
  {
    hide ParseQueryResult, SpecApplyOutcome, SpecAsk;
    AskConsumes(s);
    AskLeaves(s);
    var back := SpecAsk(s);
    if !Interrupted(back) {
      var outcome := ParseQueryResult(s.ports.tape[0].query, env.actor, env.network);
      var done := Answer(env, back, s.ports.tape[0].query, outcome);
      if !outcome.NotAuthenticated? {
        ApplyLeaves(env, CountRefusals(done, 0), outcome, reason);
      } else if attempt == 1 && reason != FOR_RETRY {
        AttemptLeaves(env, CountRefusals(done, 1).(lastOutcomeCode := UnauthenticatedRetryOnce), reason, 2);
      }
    }
  }

  lemma AskLeaves(s: Session)
    ensures Leaves(s, SpecAsk(s))
  {
  }

  lemma ResolveLeaves(env: Env, s: Session, state: RecoveryState)
    ensures Leaves(s, SpecResolve(env, s, state))
  {
    hide Load, Save, Remove;
  }

  lemma ReadyLeaves(env: Env, s: Session, active: SafeProjection)
    ensures Leaves(s, SpecReady(env, s, active))
  {
    hide SpecFindBound, SpecResolve;
    var attached := SpecAttach(env, s);
    ResolveLeaves(env, attached, ConfirmedIndexed);
    ResolveLeaves(env, attached, Superseded);
  }

  lemma {:induction false} ApplyLeaves(env: Env, s: Session, outcome: QueryOutcome, reason: Reason)
    requires !outcome.NotAuthenticated?
    ensures Leaves(s, SpecApplyOutcome(env, s, outcome, reason))
    decreases |s.ports.tape|, 6
  {
    hide SpecReady, SpecHandleNoActive;
    match outcome
    case Ready(active) => ReadyLeaves(env, s, active);
    case NoActiveLicence(template) => HandleNoActiveLeaves(env, s.(projection := None), template, reason);
    case _ =>
  }

  lemma {:induction false} HandleNoActiveLeaves(env: Env, s: Session, template: TemplateView, reason: Reason)
    ensures Leaves(s, SpecHandleNoActive(env, s, template, reason))
    decreases |s.ports.tape|, 5
  {
    hide SpecFindBound, SpecSubmitPending, SpecSealAndSubmit, StageBaseline;
    var bound := SpecFindBound(env, s);
    if bound.Some? {
      SubmitLeaves(env, Attach(s, bound.value).(lastOutcomeCode := NoActiveResubmitExact), bound.value);
    } else {
      var staged := StageBaseline(env.actor, env.network, env.digestOf, env.mint(s.ports.minted), template);
      var signing := Mint(s).(phase := BaselineSigning, lastOutcomeCode := ConstructingBaseline);
      if staged.Staged? {
        SealLeaves(env, signing, staged.record);
      }
    }
  }

  lemma {:induction false} SealLeaves(env: Env, s: Session, record: PendingRecord)
    ensures Leaves(s, SpecSealAndSubmit(env, s, record))
    decreases |s.ports.tape|, 4
  {
    hide SpecSubmitPending, Store;
    if env.saveOk(s.ports.saves) {
      SealIsQuiet(env, s, record);
      SubmitLeaves(env, Seal(env, s, record), record);
    }
  }

  lemma {:induction false} SubmitLeaves(env: Env, s: Session, record: PendingRecord)
    ensures Leaves(s, SpecSubmitPending(env, s, record))
    decreases |s.ports.tape|, 3
  {
    hide IsPurposeCoherent, SpecAfterAdmission, Load;
    SendConsumes(s, record);
    var back := SpecAwait(Send(s, record));
    if !Interrupted(back) {
      AfterAdmissionLeaves(env, back, record, s.ports.tape[0].admission);
    }
  }

  lemma {:induction false} AfterAdmissionLeaves(env: Env, s: Session, record: PendingRecord, admission: Admission)
    requires !Interrupted(s)
    ensures Leaves(s, SpecAfterAdmission(env, s, record, admission))
    decreases |s.ports.tape|, 6
  {
    hide SpecAdmission, SpecRecordAttempt, SpecRunFreshQuery, SpecReconcileRejected;
    AdmissionLeaves(env, s, record, admission);
    AdmissionLeavesTape(env, s, record, admission);
    var decided := Landed(SpecAdmission(SpecRecordAttempt(env, s, record, admission), record, admission));
    var queried := decided;
    if decided.control.needsImmediateQuery && !decided.control.cancelled {
      var asking := decided.(control := decided.control.(needsImmediateQuery := false));
      QueryLeaves(env, asking, FOR_ALREADY_EXISTS);
      queried := SpecRunFreshQuery(env, asking, FOR_ALREADY_EXISTS);
    }
    if !queried.control.thrown && queried.upgrade.rejectedRequery && !queried.control.cancelled {
      RejectedLeaves(env, queried.(upgrade := queried.upgrade.(rejectedRequery := false)));
    }
  }

  lemma AdmissionLeaves(env: Env, s: Session, record: PendingRecord, admission: Admission)
    ensures var r := SpecAdmission(SpecRecordAttempt(env, s, record, admission), record, admission);
            && r.timing == s.timing
            && r.control.cancelled == s.control.cancelled && r.control.thrown == s.control.thrown
            && (NothingDue(s) ==> !(r.control.needsImmediateQuery && r.upgrade.rejectedRequery))
            && (NothingDue(s) && !r.control.needsImmediateQuery && !r.upgrade.rejectedRequery ==> NothingDue(r))
  {
    hide Store;
  }

  lemma {:induction false} RejectedLeaves(env: Env, s: Session)
    ensures Leaves(s, SpecReconcileRejected(env, s))
    decreases |s.ports.tape|, 5
  {
    hide SpecRunFreshQuery, SpecResolve;
    QueryLeaves(env, s, FOR_UPGRADE_REJECTED);
    ResolveLeaves(env, SpecRunFreshQuery(env, s, FOR_UPGRADE_REJECTED), Retired);
  }

  // ----- between two operations ---------------------------------------------------------------

  lemma RetryLeaves(env: Env, s: Session)
    requires NothingDue(s)
    ensures NothingDue(SpecRetryExact(env, s))
  {
    hide SpecSubmitPending, SpecRunFreshQuery;
    if HasPending(s) {
      SubmitLeaves(env, s.(timing := s.timing.(confirmationStartedReachableMs := Some(s.timing.reachableElapsedMs)),
                           lastOutcomeCode := RetryExactCode, trace := Then(s.trace, Marked)), s.pending.record.value);
    } else {
      QueryLeaves(env, StartOver(s), FOR_START);
    }
  }

  lemma RevalidationLeaves(env: Env, s: Session, trigger: Reason)
    ensures Leaves(s, SpecRevalidate(env, s, trigger))
  {
    hide SpecRunFreshQuery;
    QueryLeaves(env, s.(control := s.control.(rejectionRefreshOnly :=
                          s.control.rejectionRefreshOnly || trigger == FOR_AUTHORITATIVE_REJECTION),
                        phase := Resolving, projection := None, lastOutcomeCode := RevalidateCode(trigger)),
                trigger);
  }

  lemma TickLeaves(env: Env, s: Session, e: Eligibility)
    requires NothingDue(s)
    ensures NothingDue(SpecTick(env, s, e))
  {
    hide SpecRunFreshQuery, SpecRevalidate, ExpiryDue, SpecAdvanceReachable;
    var t := SpecAdvanceReachable(env, s, e);
    assert NothingDue(t) by { AdvanceLeaves(env, s, e); }
    if ShowsExpiry(t) {
      var woken := ReadClock(t).(timing := t.timing.(lastExpiryWakeup := Some(Wakeup(t)), nextExpiryRecheckAtMs :=
                                   env.clock(t.ports.clockReads) + EXPIRY_RECHECK_INTERVAL_MS));
      RevalidationLeaves(env, woken, FOR_EXPIRY);
    }
    QueryLeaves(env, t, FOR_POLL);
    QueryLeaves(env, ReadClock(t), FOR_POLL);
    QueryLeaves(env, ReadClock(ReadClock(t)), FOR_POLL);
  }

  lemma AdvanceLeaves(env: Env, s: Session, e: Eligibility)
    ensures NothingDue(s) ==> NothingDue(SpecAdvanceReachable(env, s, e))
  {
  }

  lemma ConfirmLeaves(env: Env, s: Session, target: Option<string>)
    requires NothingDue(s)
    ensures NothingDue(SpecConfirmUpgrade(env, s, target))
  {
    hide SpecRunFreshQuery, SpecSealAndSubmit, StageUpgrade;
    var t := ClearNotices(s);
    QueryLeaves(env, t, FOR_CONFIRM_UPGRADE);
    var queried := SpecRunFreshQuery(env, t, FOR_CONFIRM_UPGRADE);
    if t.projection.Some? && target.Some? && queried.projection.Some? {
      var staged := StageUpgrade(env.actor, env.network, env.digestOf, env.mint(queried.ports.minted),
                                 BindingFor(queried.projection.value, target.value));
      if staged.Staged? { SealLeaves(env, Mint(queried), staged.record); }
    }
  }

  lemma PerformLeaves(env: Env, s: Session, step: Step)
    requires NothingDue(s)
    ensures NothingDue(SpecPerform(env, s, step))
  {
    hide SpecRunFreshQuery, SpecTick, SpecRetryExact, SpecRevalidate, SpecConfirmUpgrade;
    var t := Begin(s, step);
    match step.op
    case Start => QueryLeaves(env, StartOver(t), FOR_START);
    case Tick(e) => TickLeaves(env, t, e);
    case OnConnectivity(event) => QueryLeaves(env, Reconnected(env, t), FOR_RECONNECT);
    case RetryExact => RetryLeaves(env, t);
    case RecoverFromError =>
      var open := t.(control := t.control.(rejectionRefreshOnly := false));
      RetryLeaves(env, open);
      QueryLeaves(env, open, FOR_RECOVERY);
    case Revalidate(trigger) => RevalidationLeaves(env, t, trigger);
    case ConfirmUpgrade(target) => ConfirmLeaves(env, t, target);
    case AcknowledgeOutcome =>
    case LockOp =>
    case Restart =>
  }

  /** Between two operations no query is due that a submission asked for. */
  lemma {:induction false} NothingStaysDue(env: Env, steps: seq<Step>)
    ensures NothingDue(Run(env, steps))
  {
    hide SpecPerform;
    if steps != [] {
      NothingStaysDue(env, steps[..|steps| - 1]);
      PerformLeaves(env, Run(env, steps[..|steps| - 1]), steps[|steps| - 1]);
    }
  }
}
