/**
  What every run of the identity registration keeps. The log alone tells which record is
  sealed (`HeldNow`), which one was already sent (`Sent`) and what happened in the current
  call; `EntryOk` states when each thing may happen.
*/
module IdentitySafety {
  import opened Wrappers
  import opened IdentityPending
  import opened IdentityConvergence

  /** The record that the log says the store holds. */
  ghost function HeldNow(t: Trace): Option<PendingRegistration> {
    match t
    case Nothing => None
    case Then(_, Written(r)) => Some(r)
    case Then(_, Cleared) => None
    case Then(_, Damaged(left)) => left
    case Then(before, _) => HeldNow(before)
  }

  /** The sealed state was dropped, damaged or left to another epoch. */
  predicate Breaks(e: Entry) { e.Cleared? || e.Damaged? || e.Rebound? }

  /** The record submitted since the sealed state was last dropped, damaged or rebound. */
  ghost function Sent(t: Trace): Option<PendingRegistration> {
    match t
    case Nothing => None
    case Then(before, e) => if e.Submitted? then Some(e.record) else if Breaks(e) then None else Sent(before)
  }

  /** The operation that is running at the end of the log. */
  ghost function CurrentCall(t: Trace): Option<Op> {
    match t
    case Nothing => None
    case Then(before, Called(op)) => Some(op)
    case Then(before, _) => CurrentCall(before)
  }

  /** Something of this kind already happened in the current call. */
  ghost predicate SubmittedInCall(t: Trace) {
    t.Then? && !t.last.Called? && (t.last.Submitted? || SubmittedInCall(t.before))
  }

  ghost predicate LookedUpInCall(t: Trace) {
    t.Then? && !t.last.Called? && (t.last.LookedUp? || LookedUpInCall(t.before))
  }

  ghost predicate IsConfirmCall(call: Option<Op>) {
    call.Some? && call.value.ConfirmMissingProfile? && call.value.intent == ConfirmIntent
  }

  ghost predicate EntryOk(before: Trace, e: Entry) {
    match e
    case Signed(_) => IsConfirmCall(CurrentCall(before)) && !LookedUpInCall(before)
    case Written(r) =>
      && IsConfirmCall(CurrentCall(before)) && !LookedUpInCall(before)
      && ((before.Then? && before.last == Signed(r)) || HeldNow(before) == Some(r))
    case LookedUp(_) => !LookedUpInCall(before)
    case Submitted(r) =>
      && before.Then? && before.last == LookedUp(ExplicitNotFound)
      && HeldNow(before) == Some(r)
      && !SubmittedInCall(before)
      && (IsConfirmCall(CurrentCall(before)) || (CurrentCall(before).Some? && CurrentCall(before).value.Resume?))
    case Cleared =>
      && before.Then?
      && (before.last == Admitted(RejectedTerminal)
          || (before.last.LookedUp? && before.last.lookup.ExactProfile?)
          || (before.last.Called? && before.last.op.SynchronizeOtherDevice?))
    case _ => true
  }

  ghost predicate TraceOk(t: Trace) { t.Nothing? || (EntryOk(t.before, t.last) && TraceOk(t.before)) }

  /** Each submission repeats what was sent before it, unless the sealed state was given up. */
  ghost predicate RepeatsOk(t: Trace) {
    t.Then? ==>
      && RepeatsOk(t.before)
      && (t.last.Submitted? && Sent(t.before).Some? ==> Sent(t.before) == Some(t.last.record))
  }

  /** The signer only answers with records for the epoch and network it was asked for. */
  ghost predicate SignsForCurrent(env: Env) {
    forall n, review, epoch ::
      env.sign(n, review, epoch).Some? ==> MatchesBinding(env.sign(n, review, epoch).value, epoch, env.network)
  }

  /** What was sent is what is held, and so is what will be sent. */
  ghost predicate SameBytes(env: Env, s: State) {
    RepeatsOk(s.trace) && (Sent(s.trace).Some? ==> Bound(env, s) == Sent(s.trace))
  }

  /** Between operations: the log and the store agree. */
  ghost predicate Inv(env: Env, s: State) {
    && TraceOk(s.trace)
    && HeldNow(s.trace) == Held(env, s)
    && (SignsForCurrent(env) ==> SameBytes(env, s))
  }

  // ----- every operation keeps it -------------------------------------------------------------

  lemma ClearKeeps(env: Env, s: State)
    requires TraceOk(s.trace) && EntryOk(s.trace, Cleared) && (SignsForCurrent(env) ==> RepeatsOk(s.trace))
    ensures Inv(env, Clear(s))
  {
    hide SignsForCurrent;
  }

  lemma SubmitKeeps(env: Env, s: State, record: PendingRegistration, answers: Answers, editable: Result)
    requires Inv(env, s) && EntryOk(s.trace, Submitted(record))
    requires SignsForCurrent(env) ==> Bound(env, s) == Some(record)
    ensures Inv(env, SpecSubmit(env, s, record, answers, editable).state)
  {
    hide IsValid, Read, SignsForCurrent;
    var sent := Log(s, Submitted(record));
    assert TraceOk(sent.trace) && Sent(sent.trace) == Some(record);
    assert Inv(env, sent);
    if answers.submit.Some? {
      AdmissionKeeps(env, sent, answers.submit.value, editable);
    }
  }

  lemma AdmissionKeeps(env: Env, s: State, outcome: SubmitOutcome, editable: Result)
    requires Inv(env, s)
    ensures Inv(env, SpecAdmission(env, Log(s, Admitted(outcome)), outcome, editable).state)
  {
    hide IsValid, Read, SignsForCurrent;
    var t := Log(s, Admitted(outcome));
    assert TraceOk(t.trace) && HeldNow(t.trace) == HeldNow(s.trace) && Sent(t.trace) == Sent(s.trace);
    assert Inv(env, t);
    if outcome == RejectedTerminal {
      ClearKeeps(env, t);
    } else {
      WaitingKeeps(env, t);
    }
  }

  lemma WaitingKeeps(env: Env, s: State)
    requires Inv(env, s)
    ensures Inv(env, StartWaiting(env, s))
  {
    hide IsValid, Read, SignsForCurrent;
  }

  lemma SealKeeps(env: Env, s: State, review: Review)
    requires Inv(env, s)
    requires IsConfirmCall(CurrentCall(s.trace)) && !LookedUpInCall(s.trace) && !SubmittedInCall(s.trace)
    ensures var (t, record) := SpecSeal(env, s, review);
            && Inv(env, t) && t.epoch == s.epoch
            && (record.Some? ==> HeldNow(t.trace) == record && !t.trace.Nothing?)
            && (record.Some? && SignsForCurrent(env) ==> Bound(env, t) == record)
            && CurrentCall(t.trace) == CurrentCall(s.trace)
            && !LookedUpInCall(t.trace) && !SubmittedInCall(t.trace)
  {
    hide IsValid, Read, Switch;
    var (t, record) := SpecSeal(env, s, review);
    var held := Bound(env, s);
    var asked := if held.Some? then held else env.sign(s.signs, review, s.epoch);
    if asked.Some? {
      var signed := if held.Some? then s.trace else Then(s.trace, Signed(asked.value));
      assert TraceOk(signed) && HeldNow(signed) == HeldNow(s.trace) && Sent(signed) == Sent(s.trace);
      assert SignsForCurrent(env) ==> RepeatsOk(signed) && MatchesBinding(asked.value, s.epoch, env.network);
      if IsValid(env.platform, asked.value) {
        WriteIsReadBack(env.platform, s.store, asked.value);
        assert t.trace == Then(signed, Written(asked.value));
        assert Sent(t.trace) == Sent(signed);
      }
    }
  }

  lemma ConfirmKeeps(env: Env, s: State, intent: Intent, epoch: string, answers: Answers)
    requires Inv(env, s)
    requires CurrentCall(s.trace) == Some(ConfirmMissingProfile(intent, epoch))
    requires !LookedUpInCall(s.trace) && !SubmittedInCall(s.trace)
    ensures Inv(env, SpecConfirm(env, s, intent, epoch, answers).state)
  {
    hide IsValid, Read, SpecSeal, SpecSubmit, SignsForCurrent;
    if intent == ConfirmIntent && epoch == s.epoch && s.review.Some? && s.review.value.sameIdentityAcknowledged {
      SealKeeps(env, s, s.review.value);
      var (sealed, record) := SpecSeal(env, s, s.review.value);
      if record.Some? && answers.lookup.Some? {
        var found := Log(sealed, LookedUp(answers.lookup.value));
        assert Inv(env, found);
        if answers.lookup.value.ExactProfile? {
          ClearKeeps(env, found);
        } else if answers.lookup.value.ExplicitNotFound? {
          SubmitKeeps(env, found, record.value, answers, Editable);
        }
      }
    }
  }

  lemma ResumeKeeps(env: Env, s: State, epoch: string, eligible: bool, answers: Answers)
    requires Inv(env, s)
    requires CurrentCall(s.trace) == Some(Resume(epoch, eligible))
    requires !LookedUpInCall(s.trace) && !SubmittedInCall(s.trace)
    ensures Inv(env, SpecResume(env, s, epoch, eligible, answers).state)
  {
    hide IsValid, Read, SpecSubmit, SignsForCurrent;
    var record := Bound(env, s);
    if epoch == s.epoch && record.Some? && IsRetryEligible(record.value) && answers.lookup.Some? {
      var found := Log(s, LookedUp(answers.lookup.value));
      assert Inv(env, found);
      if answers.lookup.value.ExactProfile? {
        ClearKeeps(env, found.(acceptedSinceMs := None));
      } else if answers.lookup.value.ExplicitNotFound? && eligible {
        SubmitKeeps(env, found, record.value, answers, Retryable);
      }
    }
  }

  lemma ReconcileKeeps(env: Env, s: State, eligible: bool, answers: Answers)
    requires Inv(env, s) && !LookedUpInCall(s.trace)
    ensures Inv(env, SpecReconcile(env, s, eligible, answers).state)
  {
    hide IsValid, Read, SignsForCurrent;
    if eligible && IsArmed(s) && answers.lookup.Some? {
      var read := Log(s, ClockRead(env.clock(s.clockReads))).(clockReads := s.clockReads + 1);
      assert Inv(env, read) && !LookedUpInCall(read.trace);
      var found := Log(read, LookedUp(answers.lookup.value));
      assert Inv(env, found);
      if answers.lookup.value.ExactProfile? {
        ClearKeeps(env, found.(acceptedSinceMs := None));
      }
    }
  }

  lemma PerformKeeps(env: Env, s: State, step: Step)
    requires Inv(env, s)
    ensures Inv(env, SpecPerform(env, s, step).state)
  {
    hide IsValid, SpecConfirm, SpecReconcile, SpecResume, SignsForCurrent;
    var t := Log(s, Called(step.op));
    assert Inv(env, t);
    match step.op
    case EnterReview(_) =>
    case ConfirmMissingProfile(intent, epoch) => ConfirmKeeps(env, t, intent, epoch, step.answers);
    case Reconcile(f, o, v) => ReconcileKeeps(env, t, f && o && v, step.answers);
    case Resume(epoch, eligible) => ResumeKeeps(env, t, epoch, eligible, step.answers);
    case SynchronizeOtherDevice(proof) => ClearKeeps(env, t.(acceptedSinceMs := None));
    case DamageInactive =>
    case DamageActive =>
    case Restart(_, _, _, _) =>
  }

  lemma {:induction false} RunKeeps(env: Env, epoch: string, steps: seq<Step>)
    ensures Inv(env, Run(env, Initial(epoch), steps))
  {
    hide SpecPerform, SignsForCurrent, Inv;
    if steps == [] {
      InitiallyInv(env, epoch);
    } else {
      RunKeeps(env, epoch, steps[..|steps| - 1]);
      PerformKeeps(env, Run(env, Initial(epoch), steps[..|steps| - 1]), steps[|steps| - 1]);
    }
  }

  lemma InitiallyInv(env: Env, epoch: string)
    ensures Inv(env, Initial(epoch))
  {
  }

  // ----- what it means ------------------------------------------------------------------------

  /** `earlier` is an initial part of `later`. */
  ghost predicate Earlier(earlier: Trace, later: Trace) {
    earlier == later || (later.Then? && Earlier(earlier, later.before))
  }

  lemma {:induction false} EarlierOk(earlier: Trace, later: Trace)
    requires Earlier(earlier, later)
    ensures TraceOk(later) ==> TraceOk(earlier)
    ensures RepeatsOk(later) ==> RepeatsOk(earlier)
  {
    if earlier != later { EarlierOk(earlier, later.before); }
  }

  /** The later log extends the earlier one, and the sealed state was not given up in between. */
  ghost predicate Unbroken(earlier: Trace, later: Trace) {
    earlier == later || (later.Then? && !Breaks(later.last) && Unbroken(earlier, later.before))
  }

  /** Whatever a run logged was allowed to happen then. */
  lemma EntryWasOk(env: Env, epoch: string, steps: seq<Step>, before: Trace, e: Entry)
    requires Earlier(Then(before, e), Run(env, Initial(epoch), steps).trace)
    ensures EntryOk(before, e) && TraceOk(before)
    ensures SignsForCurrent(env) ==> RepeatsOk(Then(before, e))
  {
    hide SignsForCurrent, SpecPerform, EntryOk, HeldNow, Sent;
    RunKeeps(env, epoch, steps);
    EarlierOk(Then(before, e), Run(env, Initial(epoch), steps).trace);
  }

  /**
    In every run, every submission directly follows a lookup of the same call that answered
    "not found", sends the very record the store then holds, is the only one of its call, and
    happens only in a confirmation or a resumption: never in `reconcile`.
  */
  lemma SubmitsFollowLookup(env: Env, epoch: string, steps: seq<Step>, before: Trace, record: PendingRegistration)
    requires Earlier(Then(before, Submitted(record)), Run(env, Initial(epoch), steps).trace)
    ensures before.Then? && before.last == LookedUp(ExplicitNotFound)
    ensures HeldNow(before) == Some(record) && !SubmittedInCall(before)
    ensures IsConfirmCall(CurrentCall(before)) || (CurrentCall(before).Some? && CurrentCall(before).value.Resume?)
  {
    hide SignsForCurrent, Run, TraceOk, RepeatsOk, Sent, Earlier;
    EntryWasOk(env, epoch, steps, before, Submitted(record));
  }

  /**
    Until the store is cleared or its committed slot damaged, or the epoch changes, every
    submission of a run carries the same record, byte for byte, across any number of calls,
    reviews and restarts, provided the signer answers for the epoch and network it is asked for.
  */
  lemma SameBytesUntilCleared(env: Env, epoch: string, steps: seq<Step>, first: Trace, r1: PendingRegistration,
                              second: Trace, r2: PendingRegistration)
    requires SignsForCurrent(env)
    requires Earlier(Then(second, Submitted(r2)), Run(env, Initial(epoch), steps).trace)
    requires Unbroken(Then(first, Submitted(r1)), second)
    ensures r1 == r2
  {
    hide SignsForCurrent, Run;
    EntryWasOk(env, epoch, steps, second, Submitted(r2));
    SentStays(first, r1, second);
  }

  lemma {:induction false} SentStays(first: Trace, r1: PendingRegistration, later: Trace)
    requires RepeatsOk(later) && Unbroken(Then(first, Submitted(r1)), later)
    ensures Sent(later) == Some(r1)
  {
    if later != Then(first, Submitted(r1)) { SentStays(first, r1, later.before); }
  }

  lemma StaysUnbroken(earlier: Trace, later: Trace, e: Entry)
    requires Unbroken(earlier, later) && !Breaks(e)
    ensures Unbroken(earlier, Then(later, e))
  {
  }

  /** A confirmation whose lookup finds nothing and whose submission stays uncertain. */
  function Uncertainly(epoch: string): Step {
    Step(ConfirmMissingProfile(ConfirmIntent, epoch), Answers(Some(ExplicitNotFound), Some(TransportUncertain)))
  }

  function SignedAndSent(t: Trace, epoch: string, r: PendingRegistration): Trace {
    Then(Then(Then(Then(Then(t, Called(Uncertainly(epoch).op)), Signed(r)), Written(r)), LookedUp(ExplicitNotFound)),
         Submitted(r))
  }

  lemma SignsAndSends(env: Env, s: State, r: PendingRegistration)
    requires s.review.Some? && s.review.value.sameIdentityAcknowledged && Bound(env, s).None?
    requires env.sign(s.signs, s.review.value, s.epoch) == Some(r) && IsValid(env.platform, r)
    ensures SpecPerform(env, s, Uncertainly(s.epoch)).state
         == s.(trace := Then(SignedAndSent(s.trace, s.epoch, r), Admitted(TransportUncertain)),
               store := Switch(s.store, r), sealedRef := Some(Other(s.store.active)), signs := s.signs + 1)
  {
    hide IsValid, Read;
    assert Bound(env, Log(s, Called(Uncertainly(s.epoch).op))).None?;
  }

  /**
    The proviso is needed: if the first signature is for another binding, a second confirmation
    signs again and submits other bytes, although nothing was cleared.
  */
  lemma UnboundSignatureIsReplaced(env: Env, s: State, r0: PendingRegistration, r1: PendingRegistration)
    requires s.review.Some? && s.review.value.sameIdentityAcknowledged && Bound(env, s).None?
    requires env.sign(s.signs, s.review.value, s.epoch) == Some(r0) && IsValid(env.platform, r0)
    requires env.sign(s.signs + 1, s.review.value, s.epoch) == Some(r1) && IsValid(env.platform, r1)
    requires !MatchesBinding(r0, s.epoch, env.network)
    ensures var first := SignedAndSent(s.trace, s.epoch, r0);
            var second := SignedAndSent(Then(first, Admitted(TransportUncertain)), s.epoch, r1);
            && Run(env, s, [Uncertainly(s.epoch), Uncertainly(s.epoch)]).trace
               == Then(second, Admitted(TransportUncertain))
            && Unbroken(first, second.before)
  {
    hide IsValid, SpecPerform, Read;
    var again := Uncertainly(s.epoch);
    SignsAndSends(env, s, r0);
    WriteIsReadBack(env.platform, s.store, r0);
    var s1 := SpecPerform(env, s, again).state;
    SignsAndSends(env, s1, r1);
    assert [again, again][..1] == [again] && [again][..0] == [];
    assert Run(env, s, [again]) == s1;
    var first := SignedAndSent(s.trace, s.epoch, r0);
    var admitted := Then(first, Admitted(TransportUncertain));
    StaysUnbroken(first, first, Admitted(TransportUncertain));
    StaysUnbroken(first, admitted, Called(again.op));
    StaysUnbroken(first, Then(admitted, Called(again.op)), Signed(r1));
    StaysUnbroken(first, Then(Then(admitted, Called(again.op)), Signed(r1)), Written(r1));
  }

  /**
    A confirmation signs exactly when no bound record is held. A corrected review after an
    editable rejection therefore changes nothing: the rejected bytes are sent again.
  */
  lemma SignsExactlyWhenNothingBound(env: Env, s: State, answers: Answers)
    requires s.review.Some? && s.review.value.sameIdentityAcknowledged
    ensures var r := SpecPerform(env, s, Step(ConfirmMissingProfile(ConfirmIntent, s.epoch), answers));
            r.state.signs == if Bound(env, s).Some? then s.signs else s.signs + 1
  {
    hide IsValid, Read, Switch;
    var t := Log(s, Called(ConfirmMissingProfile(ConfirmIntent, s.epoch)));
    assert Bound(env, t) == Bound(env, s);
  }

  /**
    The store is only ever cleared for a reason: an exact profile was just found, the
    transaction was terminally rejected, or another device confirmed.
  */
  lemma ClearedOnlyWhenResolved(env: Env, epoch: string, steps: seq<Step>, before: Trace)
    requires Earlier(Then(before, Cleared), Run(env, Initial(epoch), steps).trace)
    ensures before.Then?
    ensures || before.last == Admitted(RejectedTerminal)
            || (before.last.LookedUp? && before.last.lookup.ExactProfile?)
            || (before.last.Called? && before.last.op.SynchronizeOtherDevice?)
  {
    hide SignsForCurrent, Run, TraceOk, RepeatsOk, HeldNow, Sent, Earlier;
    EntryWasOk(env, epoch, steps, before, Cleared);
  }

  /**
    Resuming never arms the poll loop: from a state without a sealed reference, whatever is done
    short of a confirmation or a restart that restores one, `reconcile` waits without a lookup.
  */
  lemma {:induction false} ResumeNeverArms(env: Env, s: State, steps: seq<Step>, poll: Step)
    requires s.sealedRef.None? && poll.op.Reconcile?
    requires forall i :: 0 <= i < |steps| ==> !steps[i].op.ConfirmMissingProfile? && !steps[i].op.Restart?
    ensures var t := Run(env, s, steps);
            t.sealedRef.None? && SpecPerform(env, t, poll) == Reaction(Log(t, Called(poll.op)), Waiting)
  {
    hide Read, Switch, Spoil;
    if steps != [] {
      ResumeNeverArms(env, s, steps[..|steps| - 1], poll);
    }
  }

  /** The proof of an exact profile found in the current call, if any. */
  ghost function ProofOfCall(t: Trace): Option<Proof> {
    match t
    case Nothing => None
    case Then(_, Called(op)) => if op.SynchronizeOtherDevice? then Some(op.proof) else None
    case Then(_, LookedUp(ExactProfile(proof))) => Some(proof)
    case Then(before, _) => ProofOfCall(before)
  }

  /** The confirmed reaction is the one that a proof of the call explains. */
  ghost predicate Proves(r: Reaction) {
    && (r.result.Confirmed? <==> ProofOfCall(r.state.trace).Some?)
    && (r.result.Confirmed? ==>
        && ProofOfCall(r.state.trace) == Some(r.result.proof)
        && r.state.store == EMPTY_SLOTS && r.state.sealedRef.None?
        && !SubmittedInCall(r.state.trace))
  }

  /**
    From any state: an operation answers `confirmed` with exactly the proof its own lookup
    returned (or the one the other device supplied), answers it whenever there is such a
    proof, and then nothing is sealed any more.
  */
  lemma ConfirmedMeansProved(env: Env, s: State, step: Step)
    ensures Proves(SpecPerform(env, s, step))
  {
    hide IsValid, Read, Switch, Spoil, SpecConfirm, SpecResume, SpecReconcile;
    var t := Log(s, Called(step.op));
    assert step.op.SynchronizeOtherDevice? || ProofOfCall(t.trace).None?;
    assert !SubmittedInCall(t.trace);
    match step.op
    case EnterReview(_) =>
    case ConfirmMissingProfile(intent, epoch) => ConfirmProves(env, t, intent, epoch, step.answers);
    case Reconcile(f, o, v) => ReconcileProves(env, t, f && o && v, step.answers);
    case Resume(epoch, eligible) => ResumeProves(env, t, epoch, eligible, step.answers);
    case SynchronizeOtherDevice(proof) => assert ProofOfCall(Then(t.trace, Cleared)) == Some(proof);
    case DamageInactive =>
    case DamageActive =>
    case Restart(_, _, _, _) =>
  }

  lemma SubmitProvesNothing(env: Env, s: State, record: PendingRegistration, answers: Answers, editable: Result)
    requires !editable.Confirmed? && ProofOfCall(s.trace).None?
    ensures Proves(SpecSubmit(env, s, record, answers, editable))
  {
    var sent := Log(s, Submitted(record));
    assert ProofOfCall(sent.trace).None?;
    if answers.submit.Some? {
      assert ProofOfCall(Log(sent, Admitted(answers.submit.value)).trace).None?;
    }
  }

  lemma FoundProves(s: State, proof: Proof)
    requires !SubmittedInCall(s.trace)
    ensures Proves(SpecConfirmFound(Log(s, LookedUp(ExactProfile(proof))), proof))
  {
    var found := Then(s.trace, LookedUp(ExactProfile(proof)));
    assert ProofOfCall(found) == Some(proof) && !SubmittedInCall(found);
    assert ProofOfCall(Then(found, Cleared)) == Some(proof);
  }

  lemma ConfirmProves(env: Env, s: State, intent: Intent, epoch: string, answers: Answers)
    requires ProofOfCall(s.trace).None? && !SubmittedInCall(s.trace)
    ensures Proves(SpecConfirm(env, s, intent, epoch, answers))
  {
    hide IsValid, Read, Switch, SpecSeal, SpecSubmit, SpecConfirmFound, Proves;
    UnprovedOk();
    if s.review.Some? && answers.lookup.Some? {
      SealFindsNoProof(env, s);
      var (sealed, record) := SpecSeal(env, s, s.review.value);
      match answers.lookup.value
      case ExactProfile(proof) => FoundProves(sealed, proof);
      case ExplicitNotFound =>
        if record.Some? {
          SubmitProvesNothing(env, Log(sealed, LookedUp(ExplicitNotFound)), record.value, answers, Editable);
        }
      case TransportAmbiguity =>
      case Malformed =>
    }
    if s.review.Some? { SealFindsNoProof(env, s); }
  }

  lemma ResumeProves(env: Env, s: State, epoch: string, eligible: bool, answers: Answers)
    requires ProofOfCall(s.trace).None? && !SubmittedInCall(s.trace)
    ensures Proves(SpecResume(env, s, epoch, eligible, answers))
  {
    hide IsValid, Read, Switch, SpecSubmit, SpecConfirmFound, Proves;
    UnprovedOk();
    var record := Bound(env, s);
    if record.Some? && answers.lookup.Some? {
      match answers.lookup.value
      case ExactProfile(proof) => FoundProves(s.(acceptedSinceMs := None), proof);
      case ExplicitNotFound =>
        SubmitProvesNothing(env, Log(s, LookedUp(ExplicitNotFound)), record.value, answers, Retryable);
      case TransportAmbiguity =>
      case Malformed =>
    }
  }

  lemma ReconcileProves(env: Env, s: State, eligible: bool, answers: Answers)
    requires ProofOfCall(s.trace).None? && !SubmittedInCall(s.trace)
    ensures Proves(SpecReconcile(env, s, eligible, answers))
  {
    hide SpecConfirmFound, Proves;
    UnprovedOk();
    var now := Then(s.trace, ClockRead(env.clock(s.clockReads)));
    assert ProofOfCall(now).None? && !SubmittedInCall(now);
    if answers.lookup.Some? && answers.lookup.value.ExactProfile? {
      var read := Log(s, ClockRead(env.clock(s.clockReads))).(acceptedSinceMs := None, clockReads := s.clockReads + 1);
      FoundProves(read, answers.lookup.value.proof);
    }
  }

  lemma UnprovedOk()
    ensures forall result: Result, t: State ::
        !result.Confirmed? && ProofOfCall(t.trace).None? ==> Proves(Reaction(t, result))
  {
  }

  lemma SealFindsNoProof(env: Env, s: State)
    requires s.review.Some?
    ensures var (t, _) := SpecSeal(env, s, s.review.value);
            && ProofOfCall(t.trace) == ProofOfCall(s.trace)
            && SubmittedInCall(t.trace) == SubmittedInCall(s.trace)
  {
    hide IsValid, Read, Switch;
    var (t, _) := SpecSeal(env, s, s.review.value);
    if t.trace != s.trace && t.trace.before != s.trace {
      assert ProofOfCall(t.trace.before) == ProofOfCall(s.trace);
    }
  }
}
