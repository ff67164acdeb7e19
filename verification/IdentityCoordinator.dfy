/**
  The identity convergence coordinator in its own form (identity-convergence/coordinator.ts): a
  class over its ports and its sealed store, each method proved to be the operation of the same
  name of IdentityConvergence.dfy.
*/
module IdentityCoordinator {
  import opened Wrappers
  import opened IdentityPending
  import opened IdentityConvergence

  class ConvergencePorts {
    const env: Env
    const store: InMemorySealedPendingStore
    var answers: Answers      // what the two transports will answer during the current operation
    var signs: nat
    var clockReads: nat
    ghost var trace: Trace

    constructor (env: Env, store: InMemorySealedPendingStore)
      ensures this.env == env && this.store == store && signs == 0 && clockReads == 0 && trace == Nothing
    {
      this.env, this.store := env, store;
      answers, signs, clockReads, trace := Answers(None, None), 0, 0, Nothing;
    }

    ghost method Log(e: Entry)
      modifies this`trace
      ensures trace == Then(old(trace), e)
    {
      trace := Then(trace, e);
    }

    method Now() returns (now: int)
      modifies this`clockReads, this`trace
      ensures now == env.clock(old(clockReads)) && clockReads == old(clockReads) + 1
      ensures trace == Then(old(trace), ClockRead(now))
    {
      now := env.clock(clockReads);
      clockReads := clockReads + 1;
      Log(ClockRead(now));
    }

    /** None when the lookup rejects. */
    method Lookup() returns (found: Option<Lookup>)
      modifies this`trace
      ensures found == answers.lookup
      ensures trace == if found.Some? then Then(old(trace), LookedUp(found.value)) else old(trace)
    {
      found := answers.lookup;
      if found.Some? { Log(LookedUp(found.value)); }
    }

    method SealAndSign(review: Review, epoch: string) returns (record: Option<PendingRegistration>)
      modifies this`signs, this`trace
      ensures record == env.sign(old(signs), review, epoch) && signs == old(signs) + 1
      ensures trace == if record.Some? then Then(old(trace), Signed(record.value)) else old(trace)
    {
      record := env.sign(signs, review, epoch);
      signs := signs + 1;
      if record.Some? { Log(Signed(record.value)); }
    }

    method Submit(record: PendingRegistration) returns (outcome: Option<SubmitOutcome>)
      modifies this`trace
      ensures outcome == answers.submit
      ensures trace == (var sent := Then(old(trace), Submitted(record));
                        if outcome.Some? then Then(sent, Admitted(outcome.value)) else sent)
    {
      Log(Submitted(record));
      outcome := answers.submit;
      if outcome.Some? { Log(Admitted(outcome.value)); }
    }
  }

  class IdentityConvergenceCoordinator {
    const ports: ConvergencePorts
    const epoch: string
    var review: Option<Review>
    var sealedRef: Option<SlotName>
    var acceptedSinceMs: Option<int>

    ghost function View(): State
      reads this, ports, ports.store
    {
      State(epoch, review, sealedRef, acceptedSinceMs, ports.store.View(), ports.signs, ports.clockReads, ports.trace)
    }

    ghost predicate Valid()
    {
      ports.store.platform == ports.env.platform
    }

    constructor (ports: ConvergencePorts, epoch: string, review: Option<Review>, sealedRef: Option<SlotName>,
                 acceptedSinceMs: Option<int>)
      ensures this.ports == ports
      ensures View() == State(epoch, review, sealedRef, acceptedSinceMs, ports.store.View(), ports.signs,
                              ports.clockReads, ports.trace)
    {
      this.ports, this.epoch := ports, epoch;
      this.review, this.sealedRef, this.acceptedSinceMs := review, sealedRef, acceptedSinceMs;
    }

    method EnterReview(review: Review) returns (result: Result)
      modifies this
      ensures View() == old(View()).(review := Some(review)) && result == Reviewing
    {
      this.review := Some(review);
      result := Reviewing;
    }

    method ConfirmMissingProfile(intent: Intent, epoch: string) returns (result: Result)
      requires Valid()
      modifies this, ports, ports.store
      ensures ports.answers == old(ports.answers)
      ensures Reaction(View(), result) == SpecConfirm(ports.env, old(View()), intent, epoch, old(ports.answers))
    {
      hide IsValid, Read, Switch;
      if intent != ConfirmIntent { return NoPendingRegistration; }
      if epoch != this.epoch { return StaleEpoch; }
      if review.None? || !review.value.sameIdentityAcknowledged { return NoPendingRegistration; }
      var sealed := Seal(review.value);
      if sealed.None? { return Threw; }
      var found := ports.Lookup();
      if found.None? { return Threw; }
      match found.value
      case ExactProfile(proof) =>
        Retire();
        return Confirmed(proof);
      case TransportAmbiguity => return Retryable;
      case Malformed => return Retryable;
      case ExplicitNotFound => result := SubmitSealed(sealed.value, Editable);
    }

    /** Seal before submit: the held record if it is bound to this authority, else a new signature. */
    method Seal(review: Review) returns (record: Option<PendingRegistration>)
      requires Valid()
      modifies this, ports, ports.store
      ensures (View(), record) == SpecSeal(ports.env, old(View()), review)
      ensures ports.answers == old(ports.answers)
    {
      hide IsValid, Read, Switch;
      var existing := ports.store.ReadRecord();
      if existing.Some? && MatchesBinding(existing.value, epoch, ports.env.network) {
        record := existing;
      } else {
        record := ports.SealAndSign(review, epoch);
        if record.None? { return None; }
      }
      var ref := ports.store.Write(record.value);
      if ref.None? { return None; }
      ports.Log(Written(record.value));
      sealedRef := ref;
    }

    method Reconcile(foregrounded: bool, online: bool, visible: bool) returns (result: Result)
      modifies this, ports, ports.store
      ensures ports.answers == old(ports.answers)
      ensures Reaction(View(), result)
           == SpecReconcile(ports.env, old(View()), foregrounded && online && visible, old(ports.answers))
    {
      if !foregrounded || !online || !visible || sealedRef.None? || acceptedSinceMs.None? { return Waiting; }
      var now := ports.Now();
      if IsDelayed(acceptedSinceMs.value, now) { return Delayed; }
      var found := ports.Lookup();
      if found.None? { return Threw; }
      match found.value
      case ExactProfile(proof) =>
        Retire();
        acceptedSinceMs := None;
        return Confirmed(proof);
      case ExplicitNotFound => return Waiting;
      case TransportAmbiguity => return Retryable;
      case Malformed => return Retryable;
    }

    method Resume(epoch: string, eligible: bool) returns (result: Result)
      requires Valid()
      modifies this, ports, ports.store
      ensures ports.answers == old(ports.answers)
      ensures Reaction(View(), result) == SpecResume(ports.env, old(View()), epoch, eligible, old(ports.answers))
    {
      hide IsValid, Read, Switch;
      if epoch != this.epoch { return StaleEpoch; }
      var record := ports.store.ReadRecord();
      if record.None? || !MatchesBinding(record.value, epoch, ports.env.network) { return NoPendingRegistration; }
      if !IsRetryEligible(record.value) { return NoPendingRegistration; }
      var found := ports.Lookup();
      if found.None? { return Threw; }
      if found.value.ExactProfile? {
        Retire();
        acceptedSinceMs := None;
        return Confirmed(found.value.proof);
      }
      if found.value.ExplicitNotFound? && eligible {
        result := SubmitSealed(record.value, Retryable);
        return;
      }
      return Retryable;
    }

    method SynchronizeOtherDevice(proof: Proof) returns (result: Result)
      modifies this, ports, ports.store
      ensures Reaction(View(), result) == SpecConfirmFound(old(View()).(acceptedSinceMs := None), proof)
    {
      Retire();
      acceptedSinceMs := None;
      return Confirmed(proof);
    }

    /** The submission of the sealed bytes and what its outcome decides. */
    method SubmitSealed(record: PendingRegistration, editable: Result) returns (result: Result)
      modifies this, ports, ports.store
      ensures ports.answers == old(ports.answers)
      ensures Reaction(View(), result) == SpecSubmit(ports.env, old(View()), record, old(ports.answers), editable)
    {
      var outcome := ports.Submit(record);
      if outcome.None? { return Threw; }
      match outcome.value
      case Accepted => result := BeginWaiting();
      case Pending => result := BeginWaiting();
      case AlreadyExists => return ExistsAlready;
      case RejectedEditable => return editable;
      case RejectedTerminal =>
        Retire();
        return Terminal;
      case TransportUncertain => return Retryable;
    }

    method BeginWaiting() returns (result: Result)
      modifies this, ports`clockReads, ports`trace
      ensures View() == StartWaiting(ports.env, old(View())) && result == Waiting
    {
      var now := ports.Now();
      acceptedSinceMs := Some(now);
      return Waiting;
    }

    method Retire()
      modifies this, ports`trace, ports.store
      ensures View() == Clear(old(View()))
    {
      ports.store.Clear();
      sealedRef := None;
      ports.Log(Cleared);
    }
  }

  /** One operation of the host; damage to the store and a restart come from outside. */
  method Perform(c: IdentityConvergenceCoordinator, step: Step)
    returns (next: IdentityConvergenceCoordinator, result: Result)
    requires c.Valid()
    modifies c, c.ports, c.ports.store
    ensures next.ports == c.ports && (next == c || fresh(next))
    ensures Reaction(next.View(), result) == SpecPerform(c.ports.env, old(c.View()), step)
  {
    hide SpecConfirm, SpecReconcile, SpecResume, Spoil, Read;
    c.ports.Log(Called(step.op));
    c.ports.answers := step.answers;
    next, result := c, Waiting;
    match step.op
    case EnterReview(review) => result := c.EnterReview(review);
    case ConfirmMissingProfile(intent, epoch) => result := c.ConfirmMissingProfile(intent, epoch);
    case Reconcile(f, o, v) => result := c.Reconcile(f, o, v);
    case Resume(epoch, eligible) => result := c.Resume(epoch, eligible);
    case SynchronizeOtherDevice(proof) => result := c.SynchronizeOtherDevice(proof);
    case DamageInactive => c.ports.store.CorruptInactiveSlot();
    case DamageActive =>
      c.ports.store.CorruptActiveSlot();
      c.ports.Log(Damaged(Read(c.ports.env.platform, c.ports.store.View())));
    case Restart(epoch, review, sealedRef, acceptedSinceMs) =>
      if epoch != c.epoch { c.ports.Log(Rebound); }
      next := new IdentityConvergenceCoordinator(c.ports, epoch, review, sealedRef, acceptedSinceMs);
  }

  /** Any sequence of operations over one store. */
  method RunHost(env: Env, epoch: string, steps: seq<Step>) returns (c: IdentityConvergenceCoordinator)
    ensures c.View() == Run(env, Initial(epoch), steps)
  {
    hide SpecPerform;
    var store := new InMemorySealedPendingStore(env.platform);
    var ports := new ConvergencePorts(env, store);
    c := new IdentityConvergenceCoordinator(ports, epoch, None, None, None);
    for i := 0 to |steps|
      invariant fresh(c) && c.ports == ports && fresh(ports) && ports.env == env
      invariant fresh(ports.store) && c.Valid()
      invariant c.View() == Run(env, Initial(epoch), steps[..i])
    {
      assert steps[..i + 1][..i] == steps[..i] && steps[..i + 1][i] == steps[i];
      var result;
      c, result := Perform(c, steps[i]);
    }
    assert steps[..|steps|] == steps;
  }
}
