/** What the licence coordinator guarantees, over every run of host operations and port answers. */
module LicenceGuarantees {
  import opened Wrappers
  import opened LicenceContracts
  import opened LicenceProjection
  import opened LicenceShown
  import opened LicenceQueryParser
  import opened LicencePending
  import opened LicenceCanonicalText
  import opened LicenceIntent
  import opened LicenceSession
  import opened LicenceTrace
  import opened LicenceSessionSafety

  /** The log of a run. */
  function Log(env: Env, steps: seq<Step>): Trace { Run(env, steps).trace }

  /** In the log `t`, the entry `e` happened right after `p`. */
  ghost predicate Happened(t: Trace, p: Trace, e: Entry) { Earlier(Then(p, e), t) }

  lemma HappenedOk(env: Env, t: Trace, p: Trace, e: Entry)
    requires TraceOk(env, t) && Happened(t, p, e)
    ensures TraceOk(env, p) && EntryOk(env, p, e)
  {
    hide EntryOk;
    EarlierOk(env, Then(p, e), t);
  }

  lemma RunLogOk(env: Env, steps: seq<Step>)
    requires MintsFresh(env)
    ensures TraceOk(env, Log(env, steps))
  {
    hide EntryOk;
    RunKeeps(env, steps);
  }

  // ----- sealing and submission ---------------------------------------------------------------

  /**
    Seal before submit, exact bytes: whenever a record is submitted, loading its id from the
    journal at that call gives a record with the same bytes and digest, which are the ones first
    sealed under the id; and no submission happens while the session is locked.
  */
  lemma SealedBeforeSubmit(env: Env, steps: seq<Step>, p: Trace, r: PendingRecord, journaled: Option<PendingRecord>)
    requires MintsFresh(env) && Happened(Log(env, steps), p, Submitted(r, journaled))
    ensures journaled.Some? && journaled.value.transaction == r.transaction && journaled.value.Core() == r.Core()
    ensures HeldNow(p) == Some(r.Core()) && SealedCore(p, r.transactionId) == Some(r.Core())
    ensures !IsLocked(p) && !HasSucceeded(p, r.transactionId)
  {
    RunLogOk(env, steps);
    HappenedOk(env, Log(env, steps), p, Submitted(r, journaled));
    HeldWasSealed(env, p);
    hide Run, TraceOk, UpgradeFromFreshTruth, BaselineFromTemplate, ParseQueryResult;
  }

  /** Retries are exact: two submissions of one id, anywhere in a run, carry identical bytes. */
  lemma RetriesAreExact(env: Env, steps: seq<Step>, p: Trace, r: PendingRecord, j: Option<PendingRecord>,
                        q: Trace, r': PendingRecord, j': Option<PendingRecord>)
    requires MintsFresh(env) && r.transactionId == r'.transactionId
    requires Happened(Log(env, steps), p, Submitted(r, j)) && Happened(Log(env, steps), q, Submitted(r', j'))
    ensures r.transaction == r'.transaction && r.Core() == r'.Core()
  {
    var t := Log(env, steps);
    SealedBeforeSubmit(env, steps, p, r, j);
    SealedBeforeSubmit(env, steps, q, r', j');
    RunLogOk(env, steps);
    BeforeIsEarlier(p, Submitted(r, j), t);
    BeforeIsEarlier(q, Submitted(r', j'), t);
    SealedForever(env, p, t, r.transactionId);
    SealedForever(env, q, t, r.transactionId);
    hide Run, TraceOk;
  }

  lemma {:induction false} BeforeIsEarlier(p: Trace, e: Entry, t: Trace)
    requires Earlier(Then(p, e), t)
    ensures Earlier(p, t)
  {
    if t == Then(p, e) {
      assert Earlier(t.before, t);
    } else {
      BeforeIsEarlier(p, e, t.before);
    }
  }

  /** An upgrade is sealed only from the licence that the same confirmation displayed and re-queried. */
  lemma UpgradesComeFromFreshTruth(env: Env, steps: seq<Step>, p: Trace, r: PendingRecord)
    requires MintsFresh(env) && Happened(Log(env, steps), p, SealedNew(r)) && r.IsUpgrade()
    ensures UpgradeFromFreshTruth(env, p, r) && HeldNow(p).None? && SealedCore(p, r.transactionId).None?
  {
    hide Run, TraceOk, UpgradeFromFreshTruth, BaselineFromTemplate, ParseQueryResult;
    RunLogOk(env, steps);
    HappenedOk(env, Log(env, steps), p, SealedNew(r));
  }

  /** A baseline is sealed only from the template of a no-active answer of the same operation. */
  lemma BaselinesComeFromTheServer(env: Env, steps: seq<Step>, p: Trace, r: PendingRecord)
    requires MintsFresh(env) && Happened(Log(env, steps), p, SealedNew(r)) && !r.IsUpgrade()
    ensures BaselineFromTemplate(env, p, r) && HeldNow(p).None? && SealedCore(p, r.transactionId).None?
  {
    hide Run, TraceOk, UpgradeFromFreshTruth, BaselineFromTemplate, ParseQueryResult;
    RunLogOk(env, steps);
    HappenedOk(env, Log(env, steps), p, SealedNew(r));
  }

  /** Whatever the builder refuses, nothing is sealed, and the session ends in repair naming the refusal. */
  lemma RefusalSealsNothing(env: Env, s: Session, shown: SafeProjection, plan: string)
    requires s.phase == EntitlementReady && s.projection == Some(shown) && !HasLiveUpgrade(s)
    requires plan != shown.planId && plan in PlanIds(shown.higherOptions)
    requires RefuseUpgrade(BindingFor(shown, plan), env.mint(s.ports.minted)).Some?
    ensures var r := SpecConfirmFresh(env, s, shown, plan);
            && r.phase == EntitlementRepair && r.trace == s.trace && r.ports.journal == s.ports.journal
            && r.lastOutcomeCode
               == UpgradeTemplateRejected(RefuseUpgrade(BindingFor(shown, plan), env.mint(s.ports.minted)).value)
  {
    hide SpecSealAndSubmit, RefuseUpgrade;
  }

  // ----- the purpose guard --------------------------------------------------------------------

  /** The exact bytes of the record declare the purpose of its binding. */
  ghost predicate IsCoherent(env: Env, r: PendingRecord) {
    IsPurposeCoherent(env.intentOf(r.transaction.exactJson), r)
  }

  lemma CoreIsCoherent(env: Env, r: PendingRecord)
    ensures IsCoherent(env, r.Core()) == IsCoherent(env, r)
  {
  }

  lemma SealedIsCoherent(env: Env, p: Trace, r: PendingRecord)
    requires ReadsIntents(env.intentOf) && EntryOk(env, p, SealedNew(r))
    ensures IsCoherent(env, r)
  {
    hide ReadsIntents, UnsignedTransaction, IsPurposeCoherent, PlanIds;
    var identity := Identity(r.transactionId, r.createdUtc);
    var truth := VerdictOfCall(p).value;
    if r.IsUpgrade() {
      var binding := r.upgradeBinding.value;
      StagedDetermines(env, r, Upgrade(CurrentCall(p).value.0.target.value, truth.projection.catalogueVersion,
                                       truth.projection.licenceReference, truth.projection.planId),
                       Some(BindingFor(truth.projection, CurrentCall(p).value.0.target.value)));
    } else {
      StagedDetermines(env, r, Baseline(truth.template.observedCatalogueVersion), None);
    }
  }

  lemma StagedDetermines(env: Env, r: PendingRecord, p: Payload, binding: Option<UpgradeBinding>)
    requires ReadsIntents(env.intentOf) && IsStaged(env, r, p, binding) && p.Upgrade? == binding.Some?
    ensures IsCoherent(env, r)
  {
    hide ReadsIntents, UnsignedTransaction, IsPurposeCoherent;
    StagedIsCoherent(env.intentOf, env.actor, env.network, env.digestOf, Identity(r.transactionId, r.createdUtc),
                     p, binding);
  }

  lemma {:induction false} HeldIsCoherent(env: Env, t: Trace)
    requires TraceOk(env, t) && ReadsIntents(env.intentOf) && HeldNow(t).Some?
    ensures IsCoherent(env, HeldNow(t).value)
  {
    hide ReadsIntents, UpgradeFromFreshTruth, BaselineFromTemplate, ParseQueryResult, IsCoherent;
    if t.last.SealedNew? {
      SealedIsCoherent(env, t.before, t.last.record);
      CoreIsCoherent(env, t.last.record);
    } else {
      HeldIsCoherent(env, t.before);
    }
  }

  /**
    The purpose guard never refuses: at rest and in the middle of every operation, whatever is
    pending declares its own purpose in its exact bytes, and so does every record of the journal.
  */
  lemma PurposeGuardPasses(env: Env, s: Session, r: PendingRecord)
    requires Base(env, s) && ReadsIntents(env.intentOf)
    requires s.pending.record == Some(r) || (exists slot :: slot in s.ports.journal && r in slot.versions)
    ensures IsPurposeCoherent(env.intentOf(r.transaction.exactJson), r)
  {
    assert TraceOk(env, s.trace) && MemoryOk(s.pending, HeldNow(s.trace))
        && JournalOk(env, s.ports.journal, HeldNow(s.trace));
    hide ReadsIntents, TraceOk, Base, IsPurposeCoherent;
    HeldIsCoherent(env, s.trace);
    CoreIsCoherent(env, r);
  }

  /** So no run of the session leaves a record that a later submission would refuse for its purpose. */
  lemma PendingIsCoherent(env: Env, steps: seq<Step>, r: PendingRecord)
    requires MintsFresh(env) && ReadsIntents(env.intentOf)
    requires var s := Run(env, steps);
             s.pending.record == Some(r) || (exists slot :: slot in s.ports.journal && r in slot.versions)
    ensures IsPurposeCoherent(env.intentOf(r.transaction.exactJson), r)
  {
    hide EntryOk, IsPurposeCoherent, ReadsIntents;
    RunKeeps(env, steps);
    PurposeGuardPasses(env, Run(env, steps), r);
  }

  // ----- one operation per authority ----------------------------------------------------------

  ghost predicate OneOperation(env: Env, s: Session) {
    && s.pending.id.None? == s.pending.record.None?
    && |s.ports.journal| <= 1
    && (forall slot, v :: slot in s.ports.journal && v in slot.versions ==>
                            v.transactionId == slot.id && v.identityBinding == env.actor
                            && v.networkBinding == env.network)
    && (s.pending.record.Some? ==>
          && s.pending.id == Some(s.pending.record.value.transactionId)
          && Load(s.ports.journal, s.pending.id.value).Some?
          && Load(s.ports.journal, s.pending.id.value).value.Core() == s.pending.record.value.Core())
    && (s.phase == EntitlementReady && s.pending.record.None? ==> s.ports.journal == [])
  }

  lemma BooksHoldOneOperation(env: Env, s: Session)
    requires JournalOk(env, s.ports.journal, HeldNow(s.trace)) && MemoryOk(s.pending, HeldNow(s.trace)) && AccessOk(s)
    ensures OneOperation(env, s)
  {
    if s.ports.journal != [] {
      var slot := s.ports.journal[0];
      forall v | v in slot.versions
        ensures v.transactionId == slot.id && v.identityBinding == env.actor && v.networkBinding == env.network
      {
        assert v.Core().transactionId == v.transactionId;
      }
      assert slot.versions[slot.shown] in slot.versions;
    }
  }

  /**
    Between two operations the memory and the journal agree: the pending id and the pending
    record are both absent or name one transaction, which the journal holds; the journal holds
    at most one transaction, bound to this actor and network, and a ready session without a
    pending record has an empty journal.
  */
  lemma OneOperationPerAuthority(env: Env, steps: seq<Step>)
    requires MintsFresh(env)
    ensures OneOperation(env, Run(env, steps))
  {
    hide OneOperation, EntryOk;
    RunKeeps(env, steps);
    BooksHoldOneOperation(env, Run(env, steps));
    hide Run;
  }

  /** A search of the journal by identity finds the first record shown that is bound to both. */
  lemma {:induction false} IdentitySearchIsExact(journal: seq<Slot>, actor: string, network: string) returns (at: nat)
    ensures at <= |journal|
    ensures forall i :: 0 <= i < at ==>
              !(ShownVersion(journal[i]).Some? && ShownVersion(journal[i]).value.identityBinding == actor
                && ShownVersion(journal[i]).value.networkBinding == network)
    ensures var found := LoadForIdentity(journal, actor, network);
            if at == |journal| then found.None?
            else found.Some? && found == ShownVersion(journal[at])
                 && found.value.identityBinding == actor && found.value.networkBinding == network
  {
    hide ShownVersion;
    at := 0;
    if journal != [] {
      var first := ShownVersion(journal[0]);
      if !(first.Some? && first.value.identityBinding == actor && first.value.networkBinding == network) {
        var rest := IdentitySearchIsExact(journal[1..], actor, network);
        at := rest + 1;
        assert forall i :: 0 < i < at ==> journal[i] == journal[1..][i - 1];
      }
    }
  }

  /** The journal may show any record saved under an id, the latest or an older one. */
  lemma AnyVersionMayShow(journal: seq<Slot>, record: PendingRecord, k: nat)
    requires var at := Find(journal, record.transactionId);
             k <= if at == |journal| then 0 else |journal[at].versions|
    ensures var at := Find(journal, record.transactionId);
            var versions := (if at == |journal| then [] else journal[at].versions) + [record];
            Load(Store(journal, record, k), record.transactionId) == Some(versions[k])
  {
    var at := Find(journal, record.transactionId);
    FindsStored(journal, record, k);
    var versions := (if at == |journal| then [] else journal[at].versions) + [record];
    Remainder(k, |versions|);
    hide Find;
    assert Store(journal, record, k)[at] == Slot(record.transactionId, versions, k);
  }

  lemma Remainder(k: nat, n: nat)
    requires k < n
    ensures k % n == k
  {
  }

  lemma {:induction false} FindsStored(journal: seq<Slot>, record: PendingRecord, pick: nat)
    ensures Find(Store(journal, record, pick), record.transactionId) == Find(journal, record.transactionId)
  {
    var id := record.transactionId;
    var at := Find(journal, id);
    if journal != [] && journal[0].id != id {
      FindsStored(journal[1..], record, pick);
      assert Store(journal, record, pick)[1..] == Store(journal[1..], record, pick);
    }
  }

  // ----- truthful success ---------------------------------------------------------------------

  /**
    Local success is recorded only for a sealed upgrade, when the latest answer reports an active
    licence whose reference is that upgrade's own id.
  */
  lemma SuccessIsTruthful(env: Env, steps: seq<Step>, p: Trace, id: string)
    requires MintsFresh(env) && Happened(Log(env, steps), p, Succeeded(id))
    ensures SealedCore(p, id).Some? && SealedCore(p, id).value.IsUpgrade() && HeldNow(p).None?
    ensures Verdict(p).Some? && Verdict(p).value.Ready? && Verdict(p).value.projection.licenceReference == id
  {
    hide Run, TraceOk, UpgradeFromFreshTruth, BaselineFromTemplate, ParseQueryResult;
    RunLogOk(env, steps);
    HappenedOk(env, Log(env, steps), p, Succeeded(id));
  }

  lemma {:induction false} EarlierAreComparable(a: Trace, b: Trace, t: Trace)
    requires Earlier(a, t) && Earlier(b, t)
    ensures Earlier(a, b) || Earlier(b, a)
  {
    if a != t && b != t { EarlierAreComparable(a, b, t.before); }
  }

  lemma {:induction false} SuccessIsRemembered(p: Trace, id: string, t: Trace)
    requires Earlier(Then(p, Succeeded(id)), t)
    ensures HasSucceeded(t, id)
  {
    if t != Then(p, Succeeded(id)) { SuccessIsRemembered(p, id, t.before); }
  }

  /** Each sealed upgrade succeeds at most once in a run. */
  lemma SuccessAtMostOnce(env: Env, steps: seq<Step>, p: Trace, q: Trace, id: string)
    requires MintsFresh(env)
    requires Happened(Log(env, steps), p, Succeeded(id)) && Happened(Log(env, steps), q, Succeeded(id))
    ensures p == q
  {
    var t := Log(env, steps);
    RunLogOk(env, steps);
    HappenedOk(env, t, p, Succeeded(id));
    HappenedOk(env, t, q, Succeeded(id));
    EarlierAreComparable(Then(p, Succeeded(id)), Then(q, Succeeded(id)), t);
    hide Run, TraceOk, UpgradeFromFreshTruth, BaselineFromTemplate, ParseQueryResult;
    if p != q {
      if Earlier(Then(p, Succeeded(id)), q) {
        SuccessIsRemembered(p, id, q);
      } else {
        SuccessIsRemembered(q, id, p);
      }
      assert false;
    }
  }

  ghost predicate NotificationIsTruthful(s: Session) {
    && s.upgrade.terminal.Some? && s.upgrade.terminal.value.LocalSuccess?
    && HasSucceeded(s.trace, s.upgrade.terminal.value.operation.pendingTransactionId)
    && !HasLiveUpgrade(s)
    && forall slot, v :: slot in s.ports.journal && v in slot.versions ==> !v.IsUpgrade()
  }

  lemma NoticeIsTruthful(env: Env, s: Session)
    requires JournalOk(env, s.ports.journal, HeldNow(s.trace)) && MemoryOk(s.pending, HeldNow(s.trace))
    requires NoticeOk(s) && s.upgrade.notificationEligible
    ensures NotificationIsTruthful(s)
  {
    forall slot, v | slot in s.ports.journal && v in slot.versions
      ensures !v.IsUpgrade()
    {
      assert v.Core().IsUpgrade() == v.IsUpgrade();
    }
  }

  /** A notification is due only for a retained, recorded success, with no upgrade still live. */
  lemma NotificationMeansSuccess(env: Env, steps: seq<Step>)
    requires MintsFresh(env) && Run(env, steps).upgrade.notificationEligible
    ensures NotificationIsTruthful(Run(env, steps))
  {
    hide NotificationIsTruthful, EntryOk;
    RunKeeps(env, steps);
    NoticeIsTruthful(env, Run(env, steps));
    hide Run;
  }

  // ----- access -------------------------------------------------------------------------------

  lemma {:induction false} VerdictWasAnswered(env: Env, t: Trace)
    returns (p: Trace, result: QueryTransportResult, at: int)
    requires TraceOk(env, t) && Verdict(t).Some?
    ensures Earlier(Then(p, Answered(result, Verdict(t).value, at)), t)
    ensures ParseQueryResult(result, env.actor, env.network) == Verdict(t).value
  {
    if t.last.Answered? && !t.last.outcome.NotAuthenticated? {
      p, result, at := t.before, t.last.result, t.last.at;
      assert EntryOk(env, t.before, t.last);
      hide UpgradeFromFreshTruth, BaselineFromTemplate, ParseQueryResult, TraceOk;
    } else {
      hide EntryOk;
      p, result, at := VerdictWasAnswered(env, t.before);
    }
  }

  /**
    Access: the session is ready only with a projection, and that projection shows, member by
    member and for this actor and network, the licence of the latest answer that was not a refused
    authentication: one whose members are all present, bounded and known.
  */
  lemma ReadyMeansActiveLicence(env: Env, steps: seq<Step>) returns (p: Trace, active: ActiveView, at: int)
    requires MintsFresh(env) && Run(env, steps).phase == EntitlementReady
    ensures var s := Run(env, steps);
            && s.projection.Some? && Verdict(s.trace) == Some(Ready(s.projection.value))
            && Happened(s.trace, p, Answered(Active(active), Ready(s.projection.value), at))
            && IsPresentable(active) && Shows(s.projection.value, env.actor, env.network, active)
  {
    hide IsPresentable, Shows;
    RunKeeps(env, steps);
    var s := Run(env, steps);
    assert TraceOk(env, s.trace);
    hide Run, TraceOk, BuildSafeProjection;
    var result;
    p, result, at := VerdictWasAnswered(env, s.trace);
    active := result.active;
    BuiltShows(env.actor, env.network, active);
  }

  /** Operations after which old truth may no longer be shown. */
  ghost predicate Gates(op: Op) {
    op.Start? || op.Revalidate? || op.LockOp? || op.Restart? || IsOutage(op)
  }

  ghost predicate IsOutage(op: Op) { op == OnConnectivity(Offline) || op == OnConnectivity(Reconnecting) }

  /**
    Gate first, then query: after a start, a revalidation, an outage, a lock or a restart a
    projection is shown only if a query of that same operation established it; an outage, a lock
    and a restart show none.
  */
  lemma GatesNeedFreshTruth(env: Env, s: Session, step: Step)
    requires Quiescent(env, s) && MintsFresh(env) && Gates(step.op)
    ensures var r := SpecPerform(env, s, step);
            && (r.projection.Some? ==> VerdictOfCall(r.trace) == Some(Ready(r.projection.value)))
            && (IsOutage(step.op) || step.op.LockOp? || step.op.Restart? ==> r.projection.None?)
            && (r.phase == EntitlementReady ==> r.projection.Some?)
  {
    hide EntryOk, SpecRunFreshQuery, SpecTick, SpecRetryExact, SpecRecoverFromError, SpecConfirmUpgrade, Inv;
    PerformKeeps(env, s, step);
    ReadyShows(env, SpecPerform(env, s, step));
    BeginKeeps(env, s, step);
    var t := Begin(s, step);
    match step.op
    case Start => StartIsFresh(env, t);
    case Revalidate(trigger) => RevalidationIsFresh(env, t, trigger);
    case _ =>
  }

  lemma ReadyShows(env: Env, s: Session)
    requires Quiescent(env, s)
    ensures s.phase == EntitlementReady ==> s.projection.Some?
  {
    hide EntryOk;
  }

  lemma StartIsFresh(env: Env, s: Session)
    requires Quiescent(env, s) && MintsFresh(env)
    ensures IsFresh(SpecStart(env, s))
  {
    hide SpecRunFreshQuery;
    assert Quiescent(env, StartOver(s)) by {
      hide IsPurposeCoherent, UpgradeFromFreshTruth, BaselineFromTemplate, ParseQueryResult;
    }
    RunFreshQueryKeeps(env, StartOver(s), FOR_START);
  }

  lemma RevalidationIsFresh(env: Env, s: Session, trigger: Reason)
    requires Quiescent(env, s) && MintsFresh(env)
    ensures IsFresh(SpecRevalidate(env, s, trigger))
  {
    hide EntryOk, SpecRunFreshQuery;
    RunFreshQueryKeeps(env, s.(control := s.control.(rejectionRefreshOnly :=
                                 s.control.rejectionRefreshOnly || trigger == FOR_AUTHORITATIVE_REJECTION),
                               phase := Resolving, projection := None, lastOutcomeCode := RevalidateCode(trigger)),
                       trigger);
  }

  // ----- lock ---------------------------------------------------------------------------------

  /**
    Once `lock()` fired, at rest or while a port call was suspended, no query, submission or
    journal write happens, and no late answer is used, until the session is started again or
    the process restarts.
  */
  lemma LockIsQuiet(env: Env, steps: seq<Step>, p: Trace, e: Entry)
    requires MintsFresh(env) && Happened(Log(env, steps), p, e) && IsPortCall(e)
    ensures !IsLocked(p)
  {
    hide Run, TraceOk, UpgradeFromFreshTruth, BaselineFromTemplate, ParseQueryResult;
    RunLogOk(env, steps);
    HappenedOk(env, Log(env, steps), p, e);
  }

  /** A locked session shows nothing, is never ready and remembers no pending record. */
  lemma LockedShowsNothing(env: Env, steps: seq<Step>)
    requires MintsFresh(env) && IsLocked(Log(env, steps))
    ensures var s := Run(env, steps);
            s.projection.None? && s.phase != EntitlementReady && s.pending == NOTHING_PENDING
  {
    RunKeeps(env, steps);
    hide Run, TraceOk;
  }

  ghost predicate Unlocks(op: Op) { op.Start? || op.RetryExact? || op.Restart? }

  ghost predicate StaysLocked(s: Session, r: Session) {
    r.control.cancelled && r.ports.journal == s.ports.journal && r.projection.None? && r.phase != EntitlementReady
  }

  /** Every other operation leaves a locked session locked, and the journal as it was. */
  lemma LockLasts(env: Env, s: Session, step: Step)
    requires Quiescent(env, s) && s.control.cancelled && !Unlocks(step.op)
    ensures StaysLocked(s, SpecPerform(env, s, step))
  {
    hide EntryOk, SpecQueryAttempt, SpecConfirmFresh, ParseQueryResult, SpecTick, SpecStart, SpecRetryExact;
    match step.op
    case Tick(e) => LockLastsInTick(env, Begin(s, step), e);
    case _ =>
  }

  lemma LockLastsInTick(env: Env, s: Session, e: Eligibility)
    requires s.control.cancelled && s.projection.None? && s.phase != EntitlementReady
    ensures StaysLocked(s, SpecTick(env, s, e))
  {
    hide SpecQueryAttempt, ParseQueryResult, SpecAdvanceReachable;
    AdvanceLeavesPorts(env, s, e);
  }

  lemma AdvanceLeavesPorts(env: Env, s: Session, e: Eligibility)
    ensures var r := SpecAdvanceReachable(env, s, e);
            r.control == s.control && r.ports.journal == s.ports.journal && r.projection == s.projection
            && r.pending == s.pending && HeldNow(r.trace) == HeldNow(s.trace)
            && (r.phase == EntitlementReady ==> s.phase == EntitlementReady)
  {
  }

  // ----- the delay timer ----------------------------------------------------------------------

  /** The timer never fires before 30 000 ms of reachable time were counted since the latest mark. */
  lemma DelayNeverEarly(env: Env, steps: seq<Step>, p: Trace)
    requires MintsFresh(env) && Happened(Log(env, steps), p, TimerFired)
    ensures HasMark(p) && CreditedSinceMark(p) >= CONFIRMATION_DELAYED_MS
  {
    hide Run, TraceOk, UpgradeFromFreshTruth, BaselineFromTemplate, ParseQueryResult;
    RunLogOk(env, steps);
    HappenedOk(env, Log(env, steps), p, TimerFired);
  }

  /** An ineligible tick counts nothing, and neither does a clock that stands still or runs back. */
  lemma OnlyForwardReachableTimeCounts(env: Env, s: Session, e: Eligibility)
    requires Quiescent(env, s)
    ensures !e.Eligible() || s.timing.lastReachableAtMs.None?
            || env.clock(s.ports.clockReads) <= s.timing.lastReachableAtMs.value
            ==> SpecAdvanceReachable(env, s, e).timing.reachableElapsedMs == s.timing.reachableElapsedMs
    ensures CreditedSinceMark(SpecAdvanceReachable(env, s, e).trace) - CreditedSinceMark(s.trace)
         == SpecAdvanceReachable(env, s, e).timing.reachableElapsedMs - s.timing.reachableElapsedMs
  {
  }

  /** Something is awaited whose delay the timer watches. */
  predicate Awaits(s: Session) {
    s.phase == AwaitingIndex || s.phase == BaselineSubmitting || (s.phase == EntitlementReady && HasLiveUpgrade(s))
  }

  /**
    The time counted starts at the previous eligible tick, not at the submission: on the first
    eligible tick after a submission or retry, whatever is awaited, the timer fires exactly when
    30 000 ms passed since the tick before it, however recent the submission is.
  */
  lemma FirstTickAfterSubmission(env: Env, s: Session, e: Eligibility)
    requires e.Eligible() && Awaits(s)
    requires s.timing.confirmationStartedReachableMs == Some(s.timing.reachableElapsedMs)
    ensures var r := SpecAdvanceReachable(env, s, e);
            var due := s.timing.lastReachableAtMs.Some?
                       && env.clock(s.ports.clockReads) - s.timing.lastReachableAtMs.value >= CONFIRMATION_DELAYED_MS;
            && (due ==>
                  && r.trace == Then(SpecCredit(env, s).trace, TimerFired)
                  && if HasLiveUpgrade(s) && s.projection.Some? then r.upgrade.delayed && r.phase == s.phase
                     else r.phase == ConfirmationDelayed)
            && (!due ==>
                  && r.trace == SpecCredit(env, s).trace
                  && r.phase == s.phase && r.upgrade == s.upgrade && r.lastOutcomeCode == s.lastOutcomeCode)
  {
    hide Max;
    MaxIs(0, if s.timing.lastReachableAtMs.Some?
             then env.clock(s.ports.clockReads) - s.timing.lastReachableAtMs.value else 0);
  }

  lemma MaxIs(a: int, b: int)
    ensures a <= Max(a, b) && b <= Max(a, b) && (Max(a, b) == a || Max(a, b) == b)
  {
  }

  // ----- query-only operations ----------------------------------------------------------------

  /** How many records were sealed or submitted. */
  ghost function Issued(t: Trace): nat {
    match t
    case Nothing => 0
    case Then(before, SealedNew(_)) => 1 + Issued(before)
    case Then(before, Submitted(_, _)) => 1 + Issued(before)
    case Then(before, _) => Issued(before)
  }

  /** When a fresh query may not issue anything, whatever it is answered. */
  ghost predicate QueryOnly(s: Session, reason: Reason) {
    || s.control.rejectionRefreshOnly
    || (HeldNow(s.trace).Some? && (reason == FOR_POLL || HeldNow(s.trace).value.IsUpgrade()))
  }

  lemma AwaitIssuesNothing(s: Session)
    ensures Issued(SpecAwait(s).trace) == Issued(s.trace) && HeldNow(SpecAwait(s).trace) == HeldNow(s.trace)
    ensures SpecAwait(s).control.rejectionRefreshOnly == s.control.rejectionRefreshOnly
  {
  }

  lemma ResolveIssuesNothing(env: Env, s: Session, state: RecoveryState)
    ensures Issued(SpecResolve(env, s, state).trace) == Issued(s.trace)
  {
    hide Load, LoadForIdentity, Store, Remove;
    if s.pending.id.Some? && Load(s.ports.journal, s.pending.id.value).Some? {
      var record := Load(s.ports.journal, s.pending.id.value).value.(recoveryState := state);
      assert Issued(SaveAgain(env, s, record).trace) == Issued(s.trace);
    }
  }

  lemma ReadyIssuesNothing(env: Env, s: Session, active: SafeProjection)
    ensures Issued(SpecReady(env, s, active).trace) == Issued(s.trace)
  {
    hide SpecFindBound, SpecResolve;
    var attached := SpecAttach(env, s);
    ResolveIssuesNothing(env, attached, ConfirmedIndexed);
    ResolveIssuesNothing(env, attached, Superseded);
  }

  lemma ApplyIssuesNothing(env: Env, s: Session, outcome: QueryOutcome, reason: Reason)
    requires Base(env, s) && QueryOnly(s, reason) && !outcome.NotAuthenticated?
    ensures Issued(SpecApplyOutcome(env, s, outcome, reason).trace) == Issued(s.trace)
  {
    hide EntryOk, SpecReady, SpecFindBound, SpecSubmitPending, SpecSealAndSubmit, StageBaseline;
    match outcome
    case Ready(active) => ReadyIssuesNothing(env, s, active);
    case NoActiveLicence(template) => FindBoundIsHeld(env, s.(projection := None));
    case _ =>
  }

  lemma {:induction false} AttemptIssuesNothing(env: Env, s: Session, reason: Reason, attempt: nat)
    requires Inv(env, s) && !s.control.cancelled && QueryOnly(s, reason) && attempt <= 2
    ensures Issued(SpecQueryAttempt(env, s, reason, attempt).trace) == Issued(s.trace)
    decreases 2 - attempt
  {
    hide Inv, Base, ParseQueryResult, SpecApplyOutcome, SpecAwait;
    AskKeeps(env, s);
    AwaitIssuesNothing(s.(control := s.control.(attemptCount := s.control.attemptCount + 1),
                          trace := Then(s.trace, Asked)));
    var back := SpecAsk(s);
    if !Interrupted(back) {
      var outcome := ParseQueryResult(s.ports.tape[0].query, env.actor, env.network);
      var done := Answer(env, back, s.ports.tape[0].query, outcome);
      AnswerKeeps(env, back, s.ports.tape[0].query);
      if !outcome.NotAuthenticated? {
        BaseUnrelated(env, done, CountRefusals(done, 0));
        ApplyIssuesNothing(env, CountRefusals(done, 0), outcome, reason);
      } else if attempt == 1 && reason != FOR_RETRY {
        var again := CountRefusals(done, 1).(lastOutcomeCode := UnauthenticatedRetryOnce);
        UnrelatedKeeps(env, done, again);
        AttemptIssuesNothing(env, again, reason, 2);
      }
    }
  }

  /**
    A query that must not issue: after an authoritative rejection, while an upgrade is held, or
    for a poll while any record is held, nothing is sealed and nothing is submitted.
  */
  lemma QueryIssuesNothing(env: Env, s: Session, reason: Reason)
    requires Inv(env, s) && QueryOnly(s, reason)
    ensures Issued(SpecRunFreshQuery(env, s, reason).trace) == Issued(s.trace)
  {
    hide EntryOk, SpecQueryAttempt;
    if !s.control.inFlight && !s.control.cancelled {
      AttemptIssuesNothing(env, s.(control := s.control.(inFlight := true)), reason, 1);
    }
  }

  /** A tick never submits, and never seals, while a record is pending. */
  lemma TickNeverResubmits(env: Env, s: Session, e: Eligibility)
    requires Quiescent(env, s) && HeldNow(s.trace).Some?
    ensures Issued(SpecTick(env, s, e).trace) == Issued(s.trace)
  {
    hide Inv, SpecRunFreshQuery, SpecAdvanceReachable, ExpiryDue;
    AdvanceReachableKeeps(env, s, e);
    AdvanceIssuesNothing(env, s, e);
    var t := SpecAdvanceReachable(env, s, e);
    if e.Eligible() && !t.control.inFlight {
      if ShowsExpiry(t) && ExpiryDue(env, t) {
        ReadyHoldsUpgrade(env, t);
        var woken := ReadClock(t).(timing := t.timing.(
                                     lastExpiryWakeup := Some(Wakeup(t)),
                                     nextExpiryRecheckAtMs :=
                                       env.clock(t.ports.clockReads) + EXPIRY_RECHECK_INTERVAL_MS));
        UnrelatedKeeps(env, t, woken);
        var gated := woken.(phase := Resolving, projection := None, lastOutcomeCode := RevalidateCode(FOR_EXPIRY));
        GatedKeeps(env, woken, gated);
        QueryIssuesNothing(env, gated, FOR_EXPIRY);
      } else {
        var u := if ShowsExpiry(t) then ReadClock(t) else t;
        UnrelatedKeeps(env, t, u);
        UnrelatedKeeps(env, u, ReadClock(u));
        QueryIssuesNothing(env, u, FOR_POLL);
        QueryIssuesNothing(env, ReadClock(u), FOR_POLL);
      }
    }
  }

  lemma AdvanceIssuesNothing(env: Env, s: Session, e: Eligibility)
    ensures Issued(SpecAdvanceReachable(env, s, e).trace) == Issued(s.trace)
            && HeldNow(SpecAdvanceReachable(env, s, e).trace) == HeldNow(s.trace)
  {
  }

  lemma ReadyHoldsUpgrade(env: Env, s: Session)
    requires Inv(env, s) && s.phase == EntitlementReady && HeldNow(s.trace).Some?
    ensures HeldNow(s.trace).value.IsUpgrade()
  {
    hide EntryOk;
  }

  lemma GatedKeeps(env: Env, s: Session, r: Session)
    requires Inv(env, s)
    requires r == s.(phase := Resolving, projection := None, lastOutcomeCode := r.lastOutcomeCode)
    ensures Inv(env, r)
  {
    hide EntryOk;
  }

  /**
    An authoritative rejection asks for observation only: its query issues nothing, and the
    restriction lasts until a query reports an active licence or the user recovers explicitly.
  */
  lemma RejectionIssuesNothing(env: Env, s: Session)
    requires Quiescent(env, s)
    ensures Issued(SpecRevalidate(env, s, FOR_AUTHORITATIVE_REJECTION).trace) == Issued(s.trace)
  {
    hide EntryOk, SpecRunFreshQuery;
    var gated := s.(control := s.control.(rejectionRefreshOnly := true), phase := Resolving, projection := None,
                    lastOutcomeCode := RevalidateCode(FOR_AUTHORITATIVE_REJECTION));
    QueryIssuesNothing(env, gated, FOR_AUTHORITATIVE_REJECTION);
  }

  // ----- reconciliation of a sealed upgrade ---------------------------------------------------

  /** A success reported for the operation sealed in this record, member by member. */
  predicate Reports(terminal: Terminal, record: PendingRecord) {
    && terminal.LocalSuccess? && record.upgradeBinding.Some?
    && terminal.operation.pendingTransactionId == record.transactionId
    && terminal.operation.expectedCurrentPlanId == record.upgradeBinding.value.expectedCurrentPlanId
    && terminal.operation.targetPlanId == record.upgradeBinding.value.requestedPlanId
    && terminal.operation.observedCatalogueVersion == record.upgradeBinding.value.observedCatalogueVersion
    && terminal.operation.sealedAtUtc == record.createdUtc
  }

  /** The log of a resolution: the final state is noted, if the journal takes it, and the record deleted. */
  ghost function ResolvedLog(env: Env, s: Session, base: Trace, id: string, state: RecoveryState): Trace {
    var shown := Load(s.ports.journal, id);
    var noted := if shown.Some? && env.saveOk(s.ports.saves)
                 then Then(base, SavedAgain(shown.value.(recoveryState := state))) else base;
    Then(noted, Deleted(id))
  }

  lemma ResolutionIsLogged(env: Env, s: Session, state: RecoveryState)
    requires s.pending.id.Some?
    ensures SpecResolve(env, s, state).trace == ResolvedLog(env, s, s.trace, s.pending.id.value, state)
  {
    hide Load, Store, Remove;
  }

  /**
    The reconciliation table. When a query reports an active licence while an upgrade is held,
    in memory or only in the journal of an earlier process, then exactly one of three things
    happens, decided by the reference of that licence: the expected old licence keeps the
    operation pending; the upgrade's own id is recorded as a success and empties the journal;
    any other licence is a competing activation, which empties the journal and claims nothing.
  */
  lemma ReconciliationTable(env: Env, s: Session, active: SafeProjection)
    requires Base(env, s) && !s.control.cancelled && VerdictOfCall(s.trace) == Some(Ready(active))
    requires HeldNow(s.trace).Some? && HeldNow(s.trace).value.IsUpgrade()
    ensures var held := HeldNow(s.trace).value;
            var r := SpecReady(env, s, active);
            var own := held.transactionId;
            && r.phase == EntitlementReady && r.projection == Some(active)
            && (if active.licenceReference == held.upgradeBinding.value.expectedCurrentTransactionId then
                  && r.pending.record.Some? && r.pending.record.value.Core() == held
                  && r.ports.journal == s.ports.journal && r.upgrade == s.upgrade && r.trace == s.trace
                  && HasSucceeded(r.trace, own) == HasSucceeded(s.trace, own)
                else
                  && r.pending == NOTHING_PENDING && r.ports.journal == []
                  && (if active.licenceReference == own
                      then r.upgrade.notificationEligible && !r.upgrade.delayed && HasSucceeded(r.trace, own)
                           && r.trace == Then(ResolvedLog(env, s, s.trace, own, ConfirmedIndexed), Succeeded(own))
                           && r.upgrade.terminal.Some? && Reports(r.upgrade.terminal.value, held)
                      else r.upgrade.terminal == Some(CompetingActivation) && !r.upgrade.delayed
                           && r.trace == ResolvedLog(env, s, s.trace, own, Superseded)
                           && r.upgrade.notificationEligible == s.upgrade.notificationEligible
                           && HasSucceeded(r.trace, own) == HasSucceeded(s.trace, own)))
  {
    hide EntryOk;
    var held := HeldNow(s.trace).value;
    AttachKeeps(env, s);
    FindBoundIsHeld(env, s);
    var attached := SpecAttach(env, s);
    assert HasLiveUpgrade(attached) && attached.pending.record.value.Core() == held;
    assert attached == s.(pending := attached.pending);
    hide SpecAttach, SpecFindBound;
    var reference := active.licenceReference;
    if reference != held.upgradeBinding.value.expectedCurrentTransactionId {
      var state := if reference == held.transactionId then ConfirmedIndexed else Superseded;
      ResolveEmpties(env, attached, state);
      ResolutionIsLogged(env, attached, state);
    }
    hide SpecResolve, Base;
  }
}
