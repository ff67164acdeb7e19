/**
  What a log of the licence session says, read from the log alone: which record the journal
  holds, what the last query established, whether the session is locked, how much reachable
  time was counted. `EntryOk` states when each thing was allowed to happen, and `TraceOk` that
  everything in a log was.
*/
module LicenceTrace {
  import opened Wrappers
  import opened LicenceContracts
  import opened LicenceProjection
  import opened LicenceQueryParser
  import opened LicencePending
  import opened LicenceCanonicalText
  import opened LicenceSession

  /** The core of the record that the journal holds now. */
  ghost function HeldNow(t: Trace): Option<PendingRecord> {
    match t
    case Nothing => None
    case Then(before, SealedNew(r)) => Some(r.Core())
    case Then(before, SavedAgain(r)) => Some(r.Core())
    case Then(before, Deleted(_)) => None
    case Then(before, _) => HeldNow(before)
  }

  /** The core of the record first sealed under `id`. */
  ghost function SealedCore(t: Trace, id: string): Option<PendingRecord> {
    match t
    case Nothing => None
    case Then(before, SealedNew(r)) => if r.transactionId == id then Some(r.Core()) else SealedCore(before, id)
    case Then(before, _) => SealedCore(before, id)
  }

  ghost predicate HasSucceeded(t: Trace, id: string) {
    t.Then? && (t.last == Succeeded(id) || HasSucceeded(t.before, id))
  }

  /** Locked, and neither started nor replaced by a new process since. */
  ghost predicate IsLocked(t: Trace) {
    match t
    case Nothing => false
    case Then(before, LockFired) => true
    case Then(before, Started) => false
    case Then(before, Restarted) => false
    case Then(before, _) => IsLocked(before)
  }

  /** What the latest used answer established; a refused authentication establishes nothing. */
  ghost function Verdict(t: Trace): Option<QueryOutcome> {
    match t
    case Nothing => None
    case Then(before, Answered(_, outcome, _)) => if outcome.NotAuthenticated? then Verdict(before) else Some(outcome)
    case Then(before, _) => Verdict(before)
  }

  /** The same, looking no further back than the start of the current operation. */
  ghost function VerdictOfCall(t: Trace): Option<QueryOutcome> {
    match t
    case Nothing => None
    case Then(before, Answered(_, outcome, _)) =>
      if outcome.NotAuthenticated? then VerdictOfCall(before) else Some(outcome)
    case Then(before, Began(_, _)) => None
    case Then(before, _) => VerdictOfCall(before)
  }

  /** The operation in progress, with what was displayed when it began. */
  ghost function CurrentCall(t: Trace): Option<(Op, Option<Shown>)> {
    match t
    case Nothing => None
    case Then(before, Began(op, displayed)) => Some((op, displayed))
    case Then(before, _) => CurrentCall(before)
  }

  /** A call of one of the ports, or the use of its answer. */
  predicate IsPortCall(e: Entry) {
    e.Asked? || e.Answered? || e.SealedNew? || e.SavedAgain? || e.Deleted? || e.Submitted?
  }

  ghost predicate HasMark(t: Trace) { t.Then? && (t.last.Marked? || HasMark(t.before)) }

  /** The latest reading of the clock, if time has counted since. */
  ghost function LastReached(t: Trace): Option<int> {
    match t
    case Nothing => None
    case Then(before, Reached(now)) => Some(now)
    case Then(before, Unreachable) => None
    case Then(before, Restarted) => None
    case Then(before, _) => LastReached(before)
  }

  /** What a reading adds to the reachable time: how far the clock ran forward since the latest one. */
  ghost function Credit(t: Trace, now: int): int {
    if LastReached(t).Some? && now > LastReached(t).value then now - LastReached(t).value else 0
  }

  /** The reachable time counted since the confirmation window last restarted. */
  ghost function CreditedSinceMark(t: Trace): int {
    match t
    case Nothing => 0
    case Then(before, Reached(now)) => CreditedSinceMark(before) + Credit(before, now)
    case Then(before, Marked) => 0
    case Then(before, _) => CreditedSinceMark(before)
  }

  /** A freshly staged record: the canonical text of the payload, its digest, and no evidence yet. */
  ghost predicate IsStaged(env: Env, r: PendingRecord, payload: Payload, binding: Option<UpgradeBinding>) {
    && r.transaction.exactJson == UnsignedTransaction(Web, r.transactionId, r.createdUtc, payload)
    && r.transaction.digest == env.digestOf(r.transaction.exactJson)
    && r.identityBinding == env.actor && r.networkBinding == env.network
    && r.attemptEvidence == [] && r.recoveryState == Sealed && r.upgradeBinding == binding
  }

  /** A baseline is built only from the template of the no-active answer of the same call. */
  ghost predicate BaselineFromTemplate(env: Env, p: Trace, r: PendingRecord) {
    match VerdictOfCall(p)
    case Some(NoActiveLicence(template)) => IsStaged(env, r, Baseline(template.observedCatalogueVersion), None)
    case _ => false
  }

  /**
    An upgrade is sealed only inside the confirmation of one plan, from the active licence that
    the query of that same call returned: the licence that was displayed, which still offers
    the plan. The binding copies that licence.
  */
  ghost predicate UpgradeFromFreshTruth(env: Env, p: Trace, r: PendingRecord) {
    match (CurrentCall(p), VerdictOfCall(p))
    case (Some((ConfirmUpgrade(Some(plan)), Some(shown))), Some(Ready(truth))) =>
      && truth.licenceReference == shown.licenceReference && truth.planId == shown.planId
      && plan != truth.planId && plan in PlanIds(truth.higherOptions)
      && IsStaged(env, r, Upgrade(plan, truth.catalogueVersion, truth.licenceReference, truth.planId),
                  Some(BindingFor(truth, plan)))
    case _ => false
  }

  /** When each entry may follow the log `p`. */
  ghost predicate EntryOk(env: Env, p: Trace, e: Entry) {
    match e
    case Asked => !IsLocked(p)
    case Answered(result, outcome, _) =>
      !IsLocked(p) && outcome == ParseQueryResult(result, env.actor, env.network)
    case SealedNew(r) =>
      && !IsLocked(p)
      && HeldNow(p).None?                                // one operation per authority
      && SealedCore(p, r.transactionId).None?            // under an id never used before
      && (if r.IsUpgrade() then UpgradeFromFreshTruth(env, p, r) else BaselineFromTemplate(env, p, r))
    case SavedAgain(r) => !IsLocked(p) && HeldNow(p) == Some(r.Core())
    case Deleted(id) => !IsLocked(p) && HeldNow(p).Some? && HeldNow(p).value.transactionId == id
    case Submitted(r, journaled) =>
      && !IsLocked(p)
      && HeldNow(p) == Some(r.Core())                    // sealed before submitted, with the same bytes
      && journaled.Some? && journaled.value.Core() == r.Core()
      && IsPurposeCoherent(env.intentOf(r.transaction.exactJson), r)
    case Succeeded(id) =>
      && SealedCore(p, id).Some? && SealedCore(p, id).value.IsUpgrade()
      && HeldNow(p).None? && !HasSucceeded(p, id)
      && (match Verdict(p) case Some(Ready(truth)) => truth.licenceReference == id case _ => false)
    case TimerFired => HasMark(p) && CreditedSinceMark(p) >= CONFIRMATION_DELAYED_MS
    case _ => true
  }

  ghost predicate TraceOk(env: Env, t: Trace) {
    t.Then? ==> TraceOk(env, t.before) && EntryOk(env, t.before, t.last)
  }

  /** `p` is an earlier state of the log `t`. */
  ghost predicate Earlier(p: Trace, t: Trace) { p == t || (t.Then? && Earlier(p, t.before)) }

  // ----- consequences of TraceOk --------------------------------------------------------------

  lemma {:induction false} EarlierOk(env: Env, p: Trace, t: Trace)
    requires TraceOk(env, t) && Earlier(p, t)
    ensures TraceOk(env, p)
  {
    if p != t { EarlierOk(env, p, t.before); }
  }

  /** What the journal holds was sealed, byte for byte, under its own id, and has not succeeded. */
  lemma {:induction false} HeldWasSealed(env: Env, t: Trace)
    requires TraceOk(env, t) && HeldNow(t).Some?
    ensures var c := HeldNow(t).value;
            SealedCore(t, c.transactionId) == Some(c) && !HasSucceeded(t, c.transactionId)
  {
    hide ParseQueryResult, UpgradeFromFreshTruth, BaselineFromTemplate, IsPurposeCoherent;
    var c := HeldNow(t).value;
    if t.last.SealedNew? {
      if HasSucceeded(t.before, c.transactionId) { SuccessWasSealed(env, t.before, c.transactionId); }
    } else {
      HeldWasSealed(env, t.before);
    }
  }

  lemma {:induction false} SuccessWasSealed(env: Env, t: Trace, id: string)
    requires TraceOk(env, t) && HasSucceeded(t, id)
    ensures SealedCore(t, id).Some? && SealedCore(t, id).value.IsUpgrade()
  {
    if t.last != Succeeded(id) { SuccessWasSealed(env, t.before, id); }
  }

  /** The bytes sealed under an id never change. */
  lemma {:induction false} SealedForever(env: Env, p: Trace, t: Trace, id: string)
    requires TraceOk(env, t) && Earlier(p, t) && SealedCore(p, id).Some?
    ensures SealedCore(t, id) == SealedCore(p, id)
  {
    if p != t { SealedForever(env, p, t.before, id); }
  }

  lemma {:induction false} CallVerdictIsVerdict(t: Trace)
    requires VerdictOfCall(t).Some?
    ensures Verdict(t) == VerdictOfCall(t)
  {
    if !t.last.Answered? || t.last.outcome.NotAuthenticated? { CallVerdictIsVerdict(t.before); }
  }
}
