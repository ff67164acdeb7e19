/**
  What the identity coordinator does, as opposed to what it may do: when an operation looks up and
  when it submits, and what it answers, each exactly and read from the state of the store before
  the operation, the answers of the ports and the log of the operation.
*/
module IdentityDeeds {
  import opened Wrappers
  import opened IdentityPending
  import opened IdentityConvergence

  /** The valid record in the committed slot, if it names this epoch and network. */
  ghost function Mine(env: Env, s: State): Option<PendingRegistration> {
    var slot := if s.store.active == A then s.store.slotA else s.store.slotB;
    if slot.Some? && IsValid(env.platform, slot.value) && slot.value.epochBinding == s.epoch
       && slot.value.networkBinding == env.network
    then slot else None
  }

  lemma MineIsBound(env: Env, s: State)
    ensures Mine(env, s) == Bound(env, s)
  {
    hide IsValid;
  }

  /** A confirmation of an acknowledged review under the current epoch. */
  ghost predicate Confirms(s: State, op: Op) {
    && op.ConfirmMissingProfile? && op.intent == ConfirmIntent && op.epoch == s.epoch
    && s.review.Some? && s.review.value.sameIdentityAcknowledged
  }

  /** A resumption under the current epoch, of a record that was sealed and not yet resolved. */
  ghost predicate Resumes(env: Env, s: State, op: Op) {
    && op.Resume? && op.epoch == s.epoch && Mine(env, s).Some?
    && (Mine(env, s).value.rollbackState == PostSeal || Mine(env, s).value.rollbackState == PostSubmit)
    && (|| Mine(env, s).value.lifecycle == SealedOnly || Mine(env, s).value.lifecycle == WaitingAccepted
        || Mine(env, s).value.lifecycle == WaitingPending)
  }

  /** The record that such an operation is about: the store's, or else a new signature. */
  ghost function Subject(env: Env, s: State, op: Op): Option<PendingRegistration> {
    if Mine(env, s).Some? then Mine(env, s)
    else if Confirms(s, op) then env.sign(s.signs, s.review.value, s.epoch)
    else None
  }

  /** The store accepts the record that a confirmation seals. */
  ghost predicate Seals(env: Env, s: State, op: Op) {
    Confirms(s, op) && Subject(env, s, op).Some? && IsValid(env.platform, Subject(env, s, op).value)
  }

  ghost function SubmittedRecord(t: Trace): Option<PendingRegistration> {
    match t
    case Nothing => None
    case Then(_, Submitted(r)) => Some(r)
    case Then(_, Called(_)) => None
    case Then(before, _) => SubmittedRecord(before)
  }

  /** What the current call found out: its lookup, and the admission of its submission. */
  ghost function Found(t: Trace): Option<Lookup> {
    match t
    case Nothing => None
    case Then(_, LookedUp(found)) => Some(found)
    case Then(_, Called(_)) => None
    case Then(before, _) => Found(before)
  }

  ghost function Admission(t: Trace): Option<SubmitOutcome> {
    match t
    case Nothing => None
    case Then(_, Admitted(outcome)) => Some(outcome)
    case Then(_, Called(_)) => None
    case Then(before, _) => Admission(before)
  }

  /** The answer to a confirmation or resumption whose record is sealed, from what its call found out. */
  ghost function Answered(t: Trace, confirming: bool): Result {
    match Found(t)
    case None => Threw
    case Some(ExactProfile(proof)) => Confirmed(proof)
    case Some(TransportAmbiguity) => Retryable
    case Some(Malformed) => Retryable
    case Some(ExplicitNotFound) =>
      if SubmittedRecord(t).None? then Retryable
      else
        match Admission(t)
        case None => Threw
        case Some(Accepted) => Waiting
        case Some(Pending) => Waiting
        case Some(AlreadyExists) => ExistsAlready
        case Some(RejectedEditable) => if confirming then Editable else Retryable
        case Some(RejectedTerminal) => Terminal
        case Some(TransportUncertain) => Retryable
  }

  ghost predicate IsResolved(r: Result) { r == Terminal || r.Confirmed? }

  /** A call that must fail closed before it does anything, and its answer. */
  ghost function Declined(env: Env, s: State, op: Op): Result
    requires op.ConfirmMissingProfile? || op.Resume?
  {
    if (op.Resume? || op.intent == ConfirmIntent) && op.epoch != s.epoch then StaleEpoch
    else if !Confirms(s, op) && !Resumes(env, s, op) then NoPendingRegistration
    else Threw
  }

  /** What one confirmation or resumption does. */
  ghost predicate Does(env: Env, s: State, step: Step, r: Reaction)
    requires step.op.ConfirmMissingProfile? || step.op.Resume?
  {
    var t := r.state.trace;
    var (op, answers) := (step.op, step.answers);
    var looks := Seals(env, s, op) || Resumes(env, s, op);
    var submits := looks && answers.lookup == Some(ExplicitNotFound) && (op.Resume? ==> op.eligible);
    && Found(t) == (if looks then answers.lookup else None)
    && SubmittedRecord(t) == (if submits then Subject(env, s, op) else None)
    && Admission(t) == (if submits then answers.submit else None)
    && r.result == (if looks then Answered(t, op.ConfirmMissingProfile?) else Declined(env, s, op))
    && (if IsResolved(r.result) then r.state.store == EMPTY_SLOTS && r.state.sealedRef.None?
        else if Seals(env, s, op) then
          Read(env.platform, r.state.store) == Subject(env, s, op) && r.state.sealedRef.Some?
        else r.state.store == s.store && r.state.sealedRef == s.sealedRef)
    && r.state.review == s.review && r.state.epoch == s.epoch
  }

  /** The log at the beginning of a call holds nothing of it yet. */
  ghost predicate IsBlank(t: Trace) { Found(t).None? && SubmittedRecord(t).None? && Admission(t).None? }

  /** The submission of a sealed record, and the answer to it. */
  lemma SubmissionAnswers(env: Env, s: State, record: PendingRegistration, answers: Answers, confirming: bool)
    requires Found(s.trace) == Some(ExplicitNotFound) && SubmittedRecord(s.trace).None? && Admission(s.trace).None?
    ensures var r := SpecSubmit(env, s, record, answers, if confirming then Editable else Retryable);
            && Found(r.state.trace) == Some(ExplicitNotFound) && SubmittedRecord(r.state.trace) == Some(record)
            && Admission(r.state.trace) == answers.submit
            && r.result == Answered(r.state.trace, confirming) && !r.result.Confirmed?
            && (if r.result == Terminal then r.state.store == EMPTY_SLOTS && r.state.sealedRef.None?
                else r.state.store == s.store && r.state.sealedRef == s.sealedRef)
            && r.state.review == s.review && r.state.epoch == s.epoch
  {
    var sent := Then(s.trace, Submitted(record));
    assert Found(sent) == Found(s.trace) && SubmittedRecord(sent) == Some(record) && Admission(sent).None?;
    if answers.submit.Some? {
      var t := Then(sent, Admitted(answers.submit.value));
      assert Found(t) == Found(sent) && SubmittedRecord(t) == Some(record) && Admission(t) == answers.submit;
    }
  }

  lemma SealingIsBlank(env: Env, s: State, op: Op)
    requires Confirms(s, op) && IsBlank(s.trace)
    ensures var (t, record) := SpecSeal(env, s, s.review.value);
            && IsBlank(t.trace) && t.review == s.review && t.epoch == s.epoch
            && record == (if Seals(env, s, op) then Subject(env, s, op) else None)
            && (if record.Some? then Read(env.platform, t.store) == record && t.sealedRef.Some?
                else t.store == s.store && t.sealedRef == s.sealedRef)
  {
    hide IsValid, Read, Switch, Mine;
    MineIsBound(env, s);
    var record := Subject(env, s, op);
    if record.Some? {
      var signed := if Mine(env, s).Some? then s.trace else Then(s.trace, Signed(record.value));
      assert IsBlank(signed) && IsBlank(Then(signed, Written(record.value)));
      if IsValid(env.platform, record.value) { WriteIsReadBack(env.platform, s.store, record.value); }
    }
  }

  lemma ConfirmationDoes(env: Env, s: State, step: Step)
    requires step.op.ConfirmMissingProfile? && IsBlank(s.trace)
    ensures Does(env, s, step, SpecConfirm(env, s, step.op.intent, step.op.epoch, step.answers))
  {
    hide IsValid, Read, SpecSeal, SpecSubmit, Mine, Subject;
    var (op, answers) := (step.op, step.answers);
    if Confirms(s, op) {
      SealingIsBlank(env, s, op);
      var (sealed, record) := SpecSeal(env, s, s.review.value);
      if record.Some? && answers.lookup.Some? {
        var found := Log(sealed, LookedUp(answers.lookup.value));
        assert SubmittedRecord(found.trace).None? && Admission(found.trace).None?;
        SubmissionOrClear(env, found, record.value, answers, true);
      }
    }
  }

  lemma SubmissionOrClear(env: Env, s: State, record: PendingRegistration, answers: Answers, confirming: bool)
    requires answers.lookup.Some? && Found(s.trace) == answers.lookup
    requires SubmittedRecord(s.trace).None? && Admission(s.trace).None?
    ensures IsFoundOnly(Clear(s), answers.lookup)
    ensures answers.lookup.value.ExplicitNotFound? ==>
              var r := SpecSubmit(env, s, record, answers, if confirming then Editable else Retryable);
              && Found(r.state.trace) == Some(ExplicitNotFound) && SubmittedRecord(r.state.trace) == Some(record)
              && Admission(r.state.trace) == answers.submit
              && r.result == Answered(r.state.trace, confirming) && !r.result.Confirmed?
              && (if r.result == Terminal then r.state.store == EMPTY_SLOTS && r.state.sealedRef.None?
                  else r.state.store == s.store && r.state.sealedRef == s.sealedRef)
              && r.state.review == s.review && r.state.epoch == s.epoch
  {
    if answers.lookup.value.ExplicitNotFound? { SubmissionAnswers(env, s, record, answers, confirming); }
  }

  ghost predicate IsFoundOnly(s: State, found: Option<Lookup>) {
    Found(s.trace) == found && SubmittedRecord(s.trace).None? && Admission(s.trace).None?
  }

  lemma ResumptionDoes(env: Env, s: State, step: Step)
    requires step.op.Resume? && IsBlank(s.trace)
    ensures Does(env, s, step, SpecResume(env, s, step.op.epoch, step.op.eligible, step.answers))
  {
    hide IsValid, Read, SpecSubmit, Mine;
    MineIsBound(env, s);
    var (op, answers) := (step.op, step.answers);
    if Resumes(env, s, op) && answers.lookup.Some? {
      var found := Log(s, LookedUp(answers.lookup.value));
      assert SubmittedRecord(found.trace).None? && Admission(found.trace).None?;
      SubmissionOrClear(env, found, Mine(env, s).value, answers, false);
      SubmissionOrClear(env, found.(acceptedSinceMs := None), Mine(env, s).value, answers, false);
    }
  }

  /**
    Every confirmation and every resumption looks up exactly if it has a sealed record of this
    epoch and network to look up for, submits exactly that record exactly if the lookup found
    nothing, and answers what the lookup and the admission decide.
  */
  lemma DeedsAreExact(env: Env, s: State, step: Step)
    requires step.op.ConfirmMissingProfile? || step.op.Resume?
    ensures Does(env, s, step, SpecPerform(env, s, step))
  {
    hide SpecConfirm, SpecResume, Does, Mine;
    var t := Log(s, Called(step.op));
    assert IsBlank(t.trace);
    if step.op.Resume? { ResumptionDoes(env, t, step); } else { ConfirmationDoes(env, t, step); }
    SameDeeds(env, s, t, step, SpecPerform(env, s, step));
  }

  lemma SameDeeds(env: Env, s: State, t: State, step: Step, r: Reaction)
    requires step.op.ConfirmMissingProfile? || step.op.Resume?
    requires t == s.(trace := t.trace) && Does(env, t, step, r)
    ensures Does(env, s, step, r)
  {
    hide Answered, Read, IsValid;
    assert Mine(env, s) == Mine(env, t);
  }

  /** A review is remembered as it was entered, and replaces the one before; nothing else changes. */
  lemma ReviewIsRemembered(env: Env, s: State, review: Review, answers: Answers)
    ensures var r := SpecPerform(env, s, Step(EnterReview(review), answers));
            && r.result == Reviewing && r.state.review == Some(review) && r.state.store == s.store
            && r.state.sealedRef == s.sealedRef && r.state.acceptedSinceMs == s.acceptedSinceMs
            && r.state.trace == Then(s.trace, Called(EnterReview(review)))
  {
  }
}
