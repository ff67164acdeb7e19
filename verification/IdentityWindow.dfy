/**
  The three-minute window of a registration, read from the log alone: it starts with the reading
  of the clock at the latest accepted or pending admission.
*/
module IdentityWindow {
  import opened Wrappers
  import opened IdentityPending
  import opened IdentityConvergence
  import opened IdentitySafety

  /** How often the clock was read. */
  ghost function Readings(t: Trace): nat {
    match t
    case Nothing => 0
    case Then(before, ClockRead(_)) => Readings(before) + 1
    case Then(before, _) => Readings(before)
  }

  /**
    When the window started: at the first reading of the clock after the latest accepted or pending
    admission. A profile found by a poll or a resumption ends it, and so does another device; a
    restart brings what its authority restored.
  */
  ghost function WindowStart(env: Env, t: Trace): Option<int> {
    match t
    case Nothing => None
    case Then(before, Admitted(outcome)) =>
      if outcome.Accepted? || outcome.Pending? then Some(env.clock(Readings(before))) else WindowStart(env, before)
    case Then(before, Called(op)) =>
      if op.Restart? then op.acceptedSinceMs
      else if op.SynchronizeOtherDevice? then None
      else WindowStart(env, before)
    case Then(before, LookedUp(found)) =>
      if found.ExactProfile? && !IsConfirmCall(CurrentCall(before)) then None else WindowStart(env, before)
    case Then(before, _) => WindowStart(env, before)
  }

  /** Whether this coordinator remembers a sealed record. */
  ghost predicate RemembersSealed(t: Trace) {
    match t
    case Nothing => false
    case Then(_, Written(_)) => true
    case Then(_, Cleared) => false
    case Then(before, Called(op)) => if op.Restart? then op.sealedRef.Some? else RemembersSealed(before)
    case Then(before, _) => RemembersSealed(before)
  }

  /** What the coordinator remembers is what the log tells. */
  ghost predicate Tells(env: Env, s: State) {
    && WindowStart(env, s.trace) == s.acceptedSinceMs && Readings(s.trace) == s.clockReads
    && RemembersSealed(s.trace) == s.sealedRef.Some?
  }

  lemma ConfirmTells(env: Env, s: State, intent: Intent, epoch: string, answers: Answers)
    requires CurrentCall(s.trace) == Some(ConfirmMissingProfile(intent, epoch)) && Tells(env, s)
    ensures Tells(env, SpecConfirm(env, s, intent, epoch, answers).state)
  {
    hide IsValid, Read, Switch, SpecSeal, SpecSubmit;
    if s.review.Some? && intent == ConfirmIntent {
      SealTells(env, s, s.review.value);
      var (sealed, record) := SpecSeal(env, s, s.review.value);
      if record.Some? && answers.lookup.Some? {
        var found := Log(sealed, LookedUp(answers.lookup.value));
        assert Tells(env, found);
        SubmitTells(env, found, record.value, answers, Editable);
        assert Tells(env, Clear(found));
      }
    }
  }

  lemma SealTells(env: Env, s: State, review: Review)
    requires Tells(env, s)
    ensures var (t, _) := SpecSeal(env, s, review);
            Tells(env, t) && CurrentCall(t.trace) == CurrentCall(s.trace)
  {
    hide IsValid, Read, Switch;
    var (t, _) := SpecSeal(env, s, review);
    if t.trace != s.trace && t.trace.before != s.trace {
      var signed := t.trace.before;
      assert WindowStart(env, signed) == WindowStart(env, s.trace) && CurrentCall(signed) == CurrentCall(s.trace);
      assert Readings(signed) == Readings(s.trace) && RemembersSealed(signed) == RemembersSealed(s.trace);
    }
  }

  lemma SubmitTells(env: Env, s: State, record: PendingRegistration, answers: Answers, editable: Result)
    requires Tells(env, s)
    ensures Tells(env, SpecSubmit(env, s, record, answers, editable).state)
  {
    hide SpecAdmission;
    var sent := Log(s, Submitted(record));
    assert Tells(env, sent);
    if answers.submit.Some? { AdmissionTells(env, sent, answers.submit.value, editable); }
  }

  lemma AdmissionTells(env: Env, s: State, outcome: SubmitOutcome, editable: Result)
    requires Tells(env, s)
    ensures Tells(env, SpecAdmission(env, Log(s, Admitted(outcome)), outcome, editable).state)
  {
    var admitted := Then(s.trace, Admitted(outcome));
    assert Readings(admitted) == s.clockReads && RemembersSealed(admitted) == RemembersSealed(s.trace);
  }

  lemma ResumeTells(env: Env, s: State, epoch: string, eligible: bool, answers: Answers)
    requires CurrentCall(s.trace) == Some(Resume(epoch, eligible)) && Tells(env, s)
    ensures Tells(env, SpecResume(env, s, epoch, eligible, answers).state)
  {
    hide IsValid, Read, SpecSubmit;
    if answers.lookup.Some? {
      var found := Log(s, LookedUp(answers.lookup.value));
      if answers.lookup.value.ExactProfile? {
        assert Tells(env, found.(acceptedSinceMs := None));
      } else {
        assert Tells(env, found);
        var record := Bound(env, s);
        if record.Some? { SubmitTells(env, found, record.value, answers, Retryable); }
      }
    }
  }

  lemma ReconcileTells(env: Env, s: State, eligible: bool, answers: Answers)
    requires !IsConfirmCall(CurrentCall(s.trace)) && Tells(env, s)
    ensures Tells(env, SpecReconcile(env, s, eligible, answers).state)
  {
    var read := Log(s, ClockRead(env.clock(s.clockReads))).(clockReads := s.clockReads + 1);
    assert Tells(env, read) && CurrentCall(read.trace) == CurrentCall(s.trace);
    if answers.lookup.Some? {
      var found := Log(read, LookedUp(answers.lookup.value));
      assert Tells(env, if answers.lookup.value.ExactProfile? then found.(acceptedSinceMs := None) else found);
    }
  }

  lemma PerformTells(env: Env, s: State, step: Step)
    requires Tells(env, s)
    ensures Tells(env, SpecPerform(env, s, step).state)
  {
    hide IsValid, Read, Spoil, SpecConfirm, SpecReconcile, SpecResume;
    var t := Log(s, Called(step.op));
    match step.op
    case EnterReview(_) =>
    case ConfirmMissingProfile(intent, epoch) => ConfirmTells(env, t, intent, epoch, step.answers);
    case Reconcile(f, o, v) => ReconcileTells(env, t, f && o && v, step.answers);
    case Resume(epoch, eligible) => ResumeTells(env, t, epoch, eligible, step.answers);
    case SynchronizeOtherDevice(_) => assert Tells(env, t.(acceptedSinceMs := None));
    case DamageInactive =>
    case DamageActive => assert Tells(env, t);
    case Restart(_, _, _, _) =>
      assert WindowStart(env, t.trace) == step.op.acceptedSinceMs && Readings(t.trace) == s.clockReads;
      assert RemembersSealed(t.trace) == step.op.sealedRef.Some?;
  }

  /** After every run the window that the coordinator remembers is the one of the log. */
  lemma {:induction false} RunTells(env: Env, epoch: string, steps: seq<Step>)
    ensures Tells(env, Run(env, Initial(epoch), steps))
  {
    hide SpecPerform;
    if steps != [] {
      RunTells(env, epoch, steps[..|steps| - 1]);
      PerformTells(env, Run(env, Initial(epoch), steps[..|steps| - 1]), steps[|steps| - 1]);
    }
  }

  /** The loop polls: it is eligible, a record is sealed and a window has started. */
  ghost predicate Polls(env: Env, t: Trace, op: Op) {
    && op.Reconcile? && op.foregrounded && op.online && op.visible
    && RemembersSealed(t) && WindowStart(env, t).Some?
  }

  /**
    After any run, `reconcile` answers "delayed", without a lookup, exactly if the loop polls and
    180 000 ms have passed since the reading made at the latest accepted or pending admission.
  */
  lemma DelayedExactly(env: Env, epoch: string, steps: seq<Step>, poll: Step)
    requires poll.op.Reconcile?
    ensures var s := Run(env, Initial(epoch), steps);
            var r := SpecPerform(env, s, poll);
            && (r.result == Delayed <==>
                && Polls(env, s.trace, poll.op)
                && env.clock(Readings(s.trace)) - WindowStart(env, s.trace).value >= 180_000)
            && (r.result == Delayed ==> !LookedUpInCall(r.state.trace) && HeldNow(r.state.trace) == HeldNow(s.trace))
  {
    hide Run;
    RunTells(env, epoch, steps);
    var s := Run(env, Initial(epoch), steps);
    assert HeldNow(Then(s.trace, Called(poll.op))) == HeldNow(s.trace);
    assert !LookedUpInCall(Then(s.trace, Called(poll.op)));
  }

  /** A loop that polls within its window does look up, and what it finds decides the answer. */
  lemma PollsLookUp(env: Env, epoch: string, steps: seq<Step>, poll: Step)
    requires poll.op.Reconcile?
    ensures var s := Run(env, Initial(epoch), steps);
            var r := SpecPerform(env, s, poll);
            var asks := Polls(env, s.trace, poll.op)
                        && env.clock(Readings(s.trace)) - WindowStart(env, s.trace).value < 180_000;
            && (LookedUpInCall(r.state.trace) <==> asks && poll.answers.lookup.Some?)
            && (asks ==>
                  r.result == match poll.answers.lookup
                              case None => Threw
                              case Some(ExactProfile(proof)) => Confirmed(proof)
                              case Some(ExplicitNotFound) => Waiting
                              case Some(_) => Retryable)
            && (!Polls(env, s.trace, poll.op) ==> r.result == Waiting)
  {
    hide Run;
    RunTells(env, epoch, steps);
    var s := Run(env, Initial(epoch), steps);
    var called := Then(s.trace, Called(poll.op));
    assert !LookedUpInCall(called);
    var read := Then(called, ClockRead(env.clock(s.clockReads)));
    assert !LookedUpInCall(read);
    if poll.answers.lookup.Some? {
      var found := Then(read, LookedUp(poll.answers.lookup.value));
      assert LookedUpInCall(found) && LookedUpInCall(Then(found, Cleared));
    }
  }
}
