/**
  The registration of a missing identity (identity-convergence/coordinator.ts) as a transition
  system over its sealed store, with a log of what it did. IdentityCoordinator.dfy proves that
  the class is this system; IdentitySafety.dfy proves what every run of it keeps.
*/
module IdentityConvergence {
  import opened Wrappers
  import opened IdentityPending

  const ABNORMAL_DELAY_MS: int := 180_000

  datatype Proof = Proof(signingAddress: string, encryptionAddress: string, alias: string, visibility: Visibility)

  datatype Lookup = ExactProfile(proof: Proof) | ExplicitNotFound | TransportAmbiguity | Malformed

  datatype Review = Review(alias: string, visibility: Visibility, sameIdentityAcknowledged: bool)

  datatype Intent = ReviewIntent | ConfirmIntent | CancelIntent

  datatype Result =
    | Reviewing | Waiting | Confirmed(proof: Proof) | Delayed | Retryable | ExistsAlready
    | Editable | Terminal | StaleEpoch | NoPendingRegistration
    | Threw       // a port rejected, or the store refused the record

  /** What the two ports will answer during one operation; None is a rejection. */
  datatype Answers = Answers(lookup: Option<Lookup>, submit: Option<SubmitOutcome>)

  /** The n-th signature (None: the signer rejects) and the readings of the clock are oracles. */
  datatype Env = Env(
    platform: Platform, network: string,
    sign: (nat, Review, string) -> Option<PendingRegistration>, clock: nat -> int)

  datatype Op =
    | EnterReview(review: Review)
    | ConfirmMissingProfile(intent: Intent, epoch: string)
    | Reconcile(foregrounded: bool, online: bool, visible: bool)
    | Resume(epoch: string, eligible: bool)
    | SynchronizeOtherDevice(proof: Proof)
    | DamageInactive
    | DamageActive
    // a new coordinator over the same store, with whatever state its authority restored
    | Restart(epoch: string, restored: Option<Review>, sealedRef: Option<SlotName>, acceptedSinceMs: Option<int>)

  datatype Entry =
    | Called(op: Op)
    | Signed(record: PendingRegistration)
    | Written(record: PendingRegistration)
    | LookedUp(lookup: Lookup)
    | Submitted(record: PendingRegistration)
    | Admitted(outcome: SubmitOutcome)
    | ClockRead(now: int)
    | Cleared
    | Damaged(left: Option<PendingRegistration>)   // the committed slot was damaged; what it still reads as
    | Rebound                                      // the coordinator now runs under another epoch

  datatype Trace = Nothing | Then(before: Trace, last: Entry)

  datatype State = State(
    epoch: string, review: Option<Review>, sealedRef: Option<SlotName>, acceptedSinceMs: Option<int>,
    store: Slots, signs: nat, clockReads: nat, trace: Trace)

  datatype Reaction = Reaction(state: State, result: Result)

  function Log(s: State, e: Entry): State { s.(trace := Then(s.trace, e)) }

  function Held(env: Env, s: State): Option<PendingRegistration> { Read(env.platform, s.store) }

  /** The record held for this coordinator: the store's, if bound to its epoch and network. */
  function Bound(env: Env, s: State): Option<PendingRegistration> {
    var held := Held(env, s);
    if held.Some? && MatchesBinding(held.value, s.epoch, env.network) then held else None
  }

  function Clear(s: State): State {
    Log(s, Cleared).(store := EMPTY_SLOTS, sealedRef := None)
  }

  function StartWaiting(env: Env, s: State): State {
    var now := env.clock(s.clockReads);
    Log(s, ClockRead(now)).(acceptedSinceMs := Some(now), clockReads := s.clockReads + 1)
  }

  /** What an admission decides; only a fresh confirmation surfaces an editable rejection. */
  function SpecAdmission(env: Env, s: State, outcome: SubmitOutcome, editable: Result): Reaction {
    match outcome
    case Accepted => Reaction(StartWaiting(env, s), Waiting)
    case Pending => Reaction(StartWaiting(env, s), Waiting)
    case AlreadyExists => Reaction(s, ExistsAlready)
    case RejectedEditable => Reaction(s, editable)
    case RejectedTerminal => Reaction(Clear(s), Terminal)
    case TransportUncertain => Reaction(s, Retryable)
  }

  /** `submit` with the answer of its port. */
  function SpecSubmit(env: Env, s: State, record: PendingRegistration, answers: Answers, editable: Result): Reaction {
    var sent := Log(s, Submitted(record));
    if answers.submit.None? then Reaction(sent, Threw)
    else SpecAdmission(env, Log(sent, Admitted(answers.submit.value)), answers.submit.value, editable)
  }

  function SpecConfirmFound(s: State, proof: Proof): Reaction { Reaction(Clear(s), Confirmed(proof)) }

  /** Sealing: a new signature unless a bound record is held, then the write. */
  function SpecSeal(env: Env, s: State, review: Review): (State, Option<PendingRegistration>) {
    var held := Bound(env, s);
    var record := if held.Some? then held else env.sign(s.signs, review, s.epoch);
    var asked := if held.Some? then s else s.(signs := s.signs + 1);
    var signed := if held.Some? || record.None? then asked else Log(asked, Signed(record.value));
    if record.None? || !IsValid(env.platform, record.value) then (signed, None)
    else
      var store := Switch(s.store, record.value);
      (Log(signed, Written(record.value)).(store := store, sealedRef := Some(store.active)), record)
  }

  function SpecConfirm(env: Env, s: State, intent: Intent, epoch: string, answers: Answers): Reaction {
    if intent != ConfirmIntent then Reaction(s, NoPendingRegistration)
    else if epoch != s.epoch then Reaction(s, StaleEpoch)
    else if s.review.None? || !s.review.value.sameIdentityAcknowledged then Reaction(s, NoPendingRegistration)
    else
      var (sealed, record) := SpecSeal(env, s, s.review.value);
      if record.None? || answers.lookup.None? then Reaction(sealed, Threw)
      else
        var found := Log(sealed, LookedUp(answers.lookup.value));
        match answers.lookup.value
        case ExactProfile(proof) => SpecConfirmFound(found, proof)
        case TransportAmbiguity => Reaction(found, Retryable)
        case Malformed => Reaction(found, Retryable)
        case ExplicitNotFound => SpecSubmit(env, found, record.value, answers, Editable)
  }

  predicate IsDelayed(since: int, now: int) { now - since >= ABNORMAL_DELAY_MS }

  /** Whether the coalesced loop is armed at all. */
  predicate IsArmed(s: State) { s.sealedRef.Some? && s.acceptedSinceMs.Some? }

  function SpecReconcile(env: Env, s: State, eligible: bool, answers: Answers): Reaction {
    if !eligible || !IsArmed(s) then Reaction(s, Waiting)
    else
      var now := env.clock(s.clockReads);
      var read := Log(s, ClockRead(now)).(clockReads := s.clockReads + 1);
      if IsDelayed(s.acceptedSinceMs.value, now) then Reaction(read, Delayed)
      else if answers.lookup.None? then Reaction(read, Threw)
      else
        var found := Log(read, LookedUp(answers.lookup.value));
        match answers.lookup.value
        case ExactProfile(proof) => SpecConfirmFound(found.(acceptedSinceMs := None), proof)
        case ExplicitNotFound => Reaction(found, Waiting)
        case TransportAmbiguity => Reaction(found, Retryable)
        case Malformed => Reaction(found, Retryable)
  }

  function SpecResume(env: Env, s: State, epoch: string, eligible: bool, answers: Answers): Reaction {
    if epoch != s.epoch then Reaction(s, StaleEpoch)
    else
      var record := Bound(env, s);
      if record.None? || !IsRetryEligible(record.value) then Reaction(s, NoPendingRegistration)
      else if answers.lookup.None? then Reaction(s, Threw)
      else
        var found := Log(s, LookedUp(answers.lookup.value));
        match answers.lookup.value
        case ExactProfile(proof) => SpecConfirmFound(found.(acceptedSinceMs := None), proof)
        case TransportAmbiguity => Reaction(found, Retryable)
        case Malformed => Reaction(found, Retryable)
        case ExplicitNotFound =>
          if eligible then SpecSubmit(env, found, record.value, answers, Retryable) else Reaction(found, Retryable)
  }

  function SpecDamageActive(env: Env, s: State): State {
    var store := Spoil(s.store, s.store.active);
    Log(s, Damaged(Read(env.platform, store))).(store := store)
  }

  function SpecRestart(s: State, op: Op): State
    requires op.Restart?
  {
    var rebound := if op.epoch == s.epoch then s else Log(s, Rebound);
    rebound.(epoch := op.epoch, review := op.restored, sealedRef := op.sealedRef, acceptedSinceMs := op.acceptedSinceMs)
  }

  /** One operation, and the answers the ports will give during it. */
  datatype Step = Step(op: Op, answers: Answers)

  function SpecPerform(env: Env, before: State, step: Step): Reaction {
    var s := Log(before, Called(step.op));
    match step.op
    case EnterReview(review) => Reaction(s.(review := Some(review)), Reviewing)
    case ConfirmMissingProfile(intent, epoch) => SpecConfirm(env, s, intent, epoch, step.answers)
    case Reconcile(f, o, v) => SpecReconcile(env, s, f && o && v, step.answers)
    case Resume(epoch, eligible) => SpecResume(env, s, epoch, eligible, step.answers)
    case SynchronizeOtherDevice(proof) => SpecConfirmFound(s.(acceptedSinceMs := None), proof)
    case DamageInactive => Reaction(s.(store := Spoil(s.store, Other(s.store.active))), Waiting)
    case DamageActive => Reaction(SpecDamageActive(env, s), Waiting)
    case Restart(_, _, _, _) => Reaction(SpecRestart(s, step.op), Waiting)
  }

  function Initial(epoch: string): State { State(epoch, None, None, None, EMPTY_SLOTS, 0, 0, Nothing) }

  /** The state after a run of operations. */
  function Run(env: Env, start: State, steps: seq<Step>): State {
    if steps == [] then start
    else SpecPerform(env, Run(env, start, steps[..|steps| - 1]), steps[|steps| - 1]).state
  }
}
