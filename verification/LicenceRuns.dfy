/**
  Runs of the licence coordinator that reach the corners of its guarantees: a refused upgrade
  builder, a licence shown after a refused authentication, and a delay counted from before the
  submission. Each holds for every surroundings, with the condition under which it happens.
*/
module LicenceRuns {
  import opened Wrappers
  import opened TextFormats
  import opened LicenceContracts
  import opened LicenceProjection
  import opened LicenceQueryParser
  import opened LicencePending
  import opened LicenceCanonicalText
  import opened LicenceIntent
  import opened LicenceSession
  import opened LicenceAnswers

  /** A port answer that arrives undisturbed. */
  function Arrives(query: QueryTransportResult, admission: Admission): PortEvent {
    PortEvent(false, false, query, admission)
  }

  /** Nothing is pending, in memory or in the journal, and nothing runs. */
  ghost predicate IsIdle(s: Session) {
    && s.pending == NOTHING_PENDING && s.ports.journal == []
    && !s.control.inFlight && !s.control.cancelled && !s.control.thrown && !s.control.rejectionRefreshOnly
  }

  lemma AskArrives(s: Session, query: QueryTransportResult, admission: Admission, rest: seq<PortEvent>)
    requires s.ports.tape == [Arrives(query, admission)] + rest && !Interrupted(s)
    ensures SpecAsk(s) == s.(control := s.control.(attemptCount := s.control.attemptCount + 1),
                             ports := s.ports.(tape := rest), trace := Then(s.trace, Asked))
  {
  }

  /** One query that reports an active licence to an idle session. */
  lemma ActiveIsShown(env: Env, s: Session, reason: Reason, active: ActiveView, shown: SafeProjection,
                      admission: Admission, rest: seq<PortEvent>)
    requires IsIdle(s) && s.ports.tape == [Arrives(Active(active), admission)] + rest
    requires BuildSafeProjection(env.actor, env.network, active) == Built(shown)
    ensures var r := SpecRunFreshQuery(env, s, reason);
            && IsIdle(r) && r.phase == EntitlementReady && r.projection == Some(shown)
            && r.control.consecutiveUnauthenticated == 0 && r.lastOutcomeCode == ReadyCode
            && r.upgrade == s.upgrade
            && r.ports == s.ports.(tape := rest, clockReads := s.ports.clockReads + 1)
            && r.trace == Then(Then(s.trace, Asked),
                               Answered(Active(active), Ready(shown), env.clock(s.ports.clockReads)))
  {
    hide SpecAsk, BuildSafeProjection, SpecQueryAttempt, SpecHandleNoActive;
    var flying := s.(control := s.control.(inFlight := true));
    AskArrives(flying, Active(active), admission, rest);
    var done := CountRefusals(Answer(env, SpecAsk(flying), Active(active), Ready(shown)), 0);
    AttemptApplies(env, flying, reason, Ready(shown));
    NothingToReconcile(env, done, shown);
  }

  /** The first attempt, when its answer is not a refused authentication. */
  lemma AttemptApplies(env: Env, s: Session, reason: Reason, outcome: QueryOutcome)
    requires !Interrupted(SpecAsk(s)) && !outcome.NotAuthenticated?
    requires ParseQueryResult(s.ports.tape[0].query, env.actor, env.network) == outcome
    ensures SpecQueryAttempt(env, s, reason, 1)
         == SpecApplyOutcome(env, CountRefusals(Answer(env, SpecAsk(s), s.ports.tape[0].query, outcome), 0),
                             outcome, reason)
  {
    hide SpecAsk, SpecApplyOutcome, ParseQueryResult;
  }

  lemma NothingToReconcile(env: Env, s: Session, active: SafeProjection)
    requires s.pending == NOTHING_PENDING && s.ports.journal == []
    ensures SpecReady(env, s, active)
         == s.(control := s.control.(rejectionRefreshOnly := false), projection := Some(active),
               phase := EntitlementReady, lastOutcomeCode := ReadyCode)
  {
  }

  /** The run that starts a session with an active licence. */
  function Started(active: ActiveView): Step { Step(Start, [Arrives(Active(active), Uncertain)]) }

  lemma StartedShows(env: Env, active: ActiveView, shown: SafeProjection)
    requires BuildSafeProjection(env.actor, env.network, active) == Built(shown)
    ensures var s := Run(env, [Started(active)]);
            && IsIdle(s) && s.phase == EntitlementReady && s.projection == Some(shown)
            && s.control.consecutiveUnauthenticated == 0 && s.upgrade == UpgradeNotice(false, false, None, false)
            && s.ports == Ports([], [], 1, 0, 0)
  {
    hide SpecRunFreshQuery, BuildSafeProjection;
    var steps := [Started(active)];
    assert steps[..0] == [] && Run(env, []) == Initial();
    var s := StartOver(Begin(Initial(), Started(active)));
    assert s.ports.tape == [Arrives(Active(active), Uncertain)] + [];
    ActiveIsShown(env, s, FOR_START, active, shown, Uncertain, []);
    assert Run(env, steps) == SpecRunFreshQuery(env, s, FOR_START);
  }

  lemma RunTwo(env: Env, first: Step, second: Step)
    ensures Run(env, [first, second]) == SpecPerform(env, Run(env, [first]), second)
  {
    hide SpecPerform;
    assert [first, second][..1] == [first];
  }

  // ----- a licence shown after a refused authentication ---------------------------------------

  /**
    The latest answer need not be the one shown: a ready session that queries again, is refused
    and then gets no second answer stays ready with its old licence. One refusal is counted.
  */
  lemma RefusedQueryKeepsLicence(env: Env, active: ActiveView, shown: SafeProjection)
    requires BuildSafeProjection(env.actor, env.network, active) == Built(shown)
    ensures var again := Step(RecoverFromError, [Arrives(Failed(Unauthenticated), Uncertain)]);
            var s := Run(env, [Started(active), again]);
            && s.phase == EntitlementReady && s.projection == Some(shown)
            && LastAnswer(s.trace) == Some(NotAuthenticated) && s.control.consecutiveUnauthenticated == 1
  {
    hide BuildSafeProjection, SpecRunFreshQuery;
    var again := Step(RecoverFromError, [Arrives(Failed(Unauthenticated), Uncertain)]);
    StartedShows(env, active, shown);
    RunTwo(env, Started(active), again);
    var s := Begin(Run(env, [Started(active)]), again);
    assert s.ports.tape == [Arrives(Failed(Unauthenticated), Uncertain)] + [];
    RefusedOnce(env, s.(control := s.control.(rejectionRefreshOnly := false)), FOR_RECOVERY);
  }

  lemma RefusedOnce(env: Env, s: Session, reason: Reason)
    requires IsIdle(s) && reason != FOR_RETRY
    requires s.ports.tape == [Arrives(Failed(Unauthenticated), Uncertain)] + []
    ensures var r := SpecRunFreshQuery(env, s, reason);
            && r.phase == s.phase && r.projection == s.projection
            && LastAnswer(r.trace) == Some(NotAuthenticated) && r.control.consecutiveUnauthenticated == 1
  {
    hide SpecAsk, SpecApplyOutcome, SpecQueryAttempt;
    var flying := s.(control := s.control.(inFlight := true));
    AskArrives(flying, Failed(Unauthenticated), Uncertain, []);
    var done := Answer(env, SpecAsk(flying), Failed(Unauthenticated), NotAuthenticated);
    var again := CountRefusals(done, 1).(lastOutcomeCode := UnauthenticatedRetryOnce);
    FirstAttemptRefused(env, flying, reason);
    AskRejects(again);
    SecondAttemptRejects(env, again, reason);
    assert LastAnswer(done.trace) == Some(NotAuthenticated);
    AskUsesNone(again);
  }

  lemma FirstAttemptRefused(env: Env, s: Session, reason: Reason)
    requires !Interrupted(SpecAsk(s)) && s.ports.tape[0].query == Failed(Unauthenticated) && reason != FOR_RETRY
    ensures SpecQueryAttempt(env, s, reason, 1)
         == SpecQueryAttempt(env, CountRefusals(Answer(env, SpecAsk(s), Failed(Unauthenticated), NotAuthenticated), 1)
                                  .(lastOutcomeCode := UnauthenticatedRetryOnce), reason, 2)
  {
    hide SpecAsk, SpecApplyOutcome;
  }

  lemma SecondAttemptRejects(env: Env, s: Session, reason: Reason)
    requires Interrupted(SpecAsk(s))
    ensures SpecQueryAttempt(env, s, reason, 2) == SpecAsk(s)
  {
    hide SpecAsk, SpecApplyOutcome, ParseQueryResult;
  }

  lemma AskRejects(s: Session)
    requires s.ports.tape == []
    ensures var r := SpecAsk(s);
            && r == s.(control := s.control.(attemptCount := s.control.attemptCount + 1, thrown := true),
                       trace := Then(s.trace, Asked))
  {
  }

  // ----- the upgrade builder ------------------------------------------------------------------

  /** When the builder refuses an offered upgrade: by the licence, by the plan, or by the minted identity. */
  predicate BuilderRefuses(shown: SafeProjection, plan: string, identity: Identity) {
    || !MatchesUuid(shown.licenceReference) || plan == PLAN_DIRECT_FREE
    || !MatchesUuid(identity.transactionId) || identity.transactionId == shown.licenceReference
    || !MatchesUtcInstant(identity.timestampUtc)
  }

  lemma KnownPlansAreBounded(plan: string)
    requires plan in KNOWN_PLAN_IDS
    ensures IsBounded(plan, MAX_PLAN_ID)
  {
    var known := KNOWN_PLAN_IDS;
    assert plan == known[0] || plan == known[1] || plan == known[2] || plan == known[3] || plan == known[4];
    assert plan != "" && |plan| <= 32;
    LengthsCompare(plan);
  }

  lemma BuiltIsKnown(actor: string, network: string, active: ActiveView, shown: SafeProjection)
    requires BuildSafeProjection(actor, network, active) == Built(shown)
    ensures shown.planId in KNOWN_PLAN_IDS && shown.catalogueVersion == CATALOGUE_VERSION_V1
    ensures shown.licenceReference == active.licenceReference
  {
    hide Utf16Length, MatchesUtcInstant, KeptOptions;
  }

  /**
    The builder refuses an upgrade that the projection of an active licence offers exactly if the
    licence reference is no UUID, the plan is Direct Free, or the minted identity is malformed or
    that of the licence itself.
  */
  lemma BuilderRefusesExactly(actor: string, network: string, active: ActiveView, shown: SafeProjection, plan: string,
                              identity: Identity)
    requires BuildSafeProjection(actor, network, active) == Built(shown)
    requires IsBounded(plan, MAX_PLAN_ID) && plan != shown.planId
    ensures RefuseUpgrade(BindingFor(shown, plan), identity).Some? <==> BuilderRefuses(shown, plan, identity)
  {
    hide BuildSafeProjection, MatchesUuid, MatchesUtcInstant, IsBounded;
    BuiltIsKnown(actor, network, active, shown);
    KnownPlansAreBounded(shown.planId);
    UuidIsBounded(shown.licenceReference);
    UuidIsBounded(identity.transactionId);
    InstantIsBounded(identity.timestampUtc);
  }

  lemma UuidIsBounded(s: string)
    ensures MatchesUuid(s) ==> IsBounded(s, MAX_PLAN_ID)
  {
    if MatchesUuid(s) { UuidIsAscii(s); }
  }

  lemma InstantIsBounded(s: string)
    ensures MatchesUtcInstant(s) ==> IsBounded(s, 64)
  {
    if MatchesUtcInstant(s) { InstantIsAscii(s); }
  }

  /** The run that starts with an active licence and confirms an upgrade, the licence unchanged. */
  function Confirmed(active: ActiveView, plan: string): seq<Step> {
    [Started(active), Step(ConfirmUpgrade(Some(plan)), [Arrives(Active(active), Uncertain)])]
  }

  /** The session ended in repair by a refusal of the builder. */
  predicate EndsRefused(s: Session) { s.phase == EntitlementRepair && s.lastOutcomeCode.UpgradeTemplateRejected? }

  /**
    In the run that shows an active licence and confirms one of its offers, the builder refuses
    exactly under these conditions; nothing is then sealed, and otherwise the session does not
    end in its repair. The first identity minted is `env.mint(0)`.
  */
  lemma ConfirmationRefusedExactly(env: Env, active: ActiveView, shown: SafeProjection, plan: string)
    requires BuildSafeProjection(env.actor, env.network, active) == Built(shown)
    requires plan in PlanIds(shown.higherOptions) && plan != shown.planId && IsBounded(plan, MAX_PLAN_ID)
    ensures var s := Run(env, Confirmed(active, plan));
            && (EndsRefused(s) <==> BuilderRefuses(shown, plan, env.mint(0)))
            && (EndsRefused(s) ==> s.ports.journal == [] && s.pending == NOTHING_PENDING)
  {
    hide BuildSafeProjection, SpecConfirmUpgrade, BuilderRefuses, EndsRefused, IsBounded;
    var steps := Confirmed(active, plan);
    StartedShows(env, active, shown);
    RunTwo(env, steps[0], steps[1]);
    var t := Begin(Run(env, [steps[0]]), steps[1]);
    assert t.ports.tape == [Arrives(Active(active), Uncertain)] + [];
    assert steps == [steps[0], steps[1]];
    ConfirmIsRefused(env, t, active, shown, plan);
  }

  lemma ConfirmIsRefused(env: Env, s: Session, active: ActiveView, shown: SafeProjection, plan: string)
    requires BuildSafeProjection(env.actor, env.network, active) == Built(shown)
    requires plan in PlanIds(shown.higherOptions) && plan != shown.planId && IsBounded(plan, MAX_PLAN_ID)
    requires IsIdle(s) && s.phase == EntitlementReady && s.projection == Some(shown) && s.ports.minted == 0
    requires s.ports.tape == [Arrives(Active(active), Uncertain)] + []
    ensures var r := SpecConfirmUpgrade(env, s, Some(plan));
            && (EndsRefused(r) <==> BuilderRefuses(shown, plan, env.mint(0)))
            && (EndsRefused(r) ==> r.ports.journal == [] && r.pending == NOTHING_PENDING)
  {
    hide BuildSafeProjection, SpecRunFreshQuery, SpecConfirmFresh, BuilderRefuses, EndsRefused, IsBounded;
    var t := ClearNotices(s);
    ActiveIsShown(env, t, FOR_CONFIRM_UPGRADE, active, shown, Uncertain, []);
    var queried := SpecRunFreshQuery(env, t, FOR_CONFIRM_UPGRADE);
    BuilderRefusesExactly(env.actor, env.network, active, shown, plan, env.mint(0));
    FreshConfirmIsRefused(env, queried, shown, plan);
  }

  lemma FreshConfirmIsRefused(env: Env, s: Session, shown: SafeProjection, plan: string)
    requires plan in PlanIds(shown.higherOptions) && plan != shown.planId
    requires IsIdle(s) && s.phase == EntitlementReady && s.projection == Some(shown)
    requires s.ports.tape == [] && s.lastOutcomeCode == ReadyCode
    ensures var r := SpecConfirmFresh(env, s, shown, plan);
            var refusal := RefuseUpgrade(BindingFor(shown, plan), env.mint(s.ports.minted));
            && (EndsRefused(r) <==> refusal.Some?)
            && (EndsRefused(r) ==> r.ports.journal == [] && r.pending == NOTHING_PENDING)
            && (refusal.Some? ==> r.lastOutcomeCode == UpgradeTemplateRejected(refusal.value))
  {
    hide RefuseUpgrade, SpecSealAndSubmit, Stage;
    var refusal := RefuseUpgrade(BindingFor(shown, plan), env.mint(s.ports.minted));
    if refusal.None? {
      var staged := StageUpgrade(env.actor, env.network, env.digestOf, env.mint(s.ports.minted),
                                 BindingFor(shown, plan));
      SealedIsNotRefused(env, Mint(s), staged.record);
    }
  }

  lemma SealedIsNotRefused(env: Env, s: Session, record: PendingRecord)
    requires s.ports.tape == [] && s.lastOutcomeCode == ReadyCode
    ensures !SpecSealAndSubmit(env, s, record).lastOutcomeCode.UpgradeTemplateRejected?
  {
    hide IsPurposeCoherent, Load, Store;
  }

  // ----- licences that the builder refuses to upgrade -----------------------------------------

  function Offer(plan: string): OptionView { OptionRecord(plan, "d", "d", None, None, None, None) }

  /** An active licence with one offer. */
  function Licence(reference: string, offer: string): ActiveView {
    ActiveView(reference, "hushvoting.veritas.500", "veritas", "d", "d", None, None, None, None,
               "2026-01-01T00:00:00Z", None, CATALOGUE_VERSION_V1, [], [Offer(offer)], None)
  }

  lemma ShortIsBounded(s: string, max: nat)
    requires s != "" && 2 * |s| <= max
    ensures IsBounded(s, max)
  {
    UnitsAtMostTwice(s);
  }

  lemma {:induction false} UnitsAtMostTwice(s: string)
    ensures Utf16Length(s) <= 2 * |s|
  {
    if s != "" { UnitsAtMostTwice(s[1..]); }
  }

  lemma NewYearIsInstant()
    ensures MatchesUtcInstant("2026-01-01T00:00:00Z")
  {
    var d := "2026-01-01T00:00:00Z"[..19];
    assert d == "2026-01-01T00:00:00";
  }

  /** The projection admits any short reference and offers any short plan other than the current one. */
  lemma LicenceIsShown(actor: string, network: string, reference: string, offer: string)
    requires reference != "" && |reference| <= 64 && offer != "" && |offer| <= 64
    requires offer != "hushvoting.veritas.500"
    ensures var built := BuildSafeProjection(actor, network, Licence(reference, offer));
            && built.Built? && built.projection.licenceReference == reference
            && built.projection.planId == "hushvoting.veritas.500"
            && offer in PlanIds(built.projection.higherOptions)
  {
    hide IsBounded, MatchesUtcInstant;
    var active := Licence(reference, offer);
    ShortIsBounded(reference, MAX_REFERENCE);
    ShortIsBounded(offer, MAX_OPTION_TEXT);
    ShortIsBounded("d", MAX_SAFE_TEXT);
    ShortIsBounded("d", MAX_OPTION_TEXT);
    ShortIsBounded("veritas", MAX_SAFE_TEXT);
    ShortIsBounded(active.planId, MAX_SAFE_TEXT);
    NewYearIsInstant();
    assert KNOWN_PLAN_IDS[1] == active.planId;
    assert active.higherOptions == [Offer(offer)] && [Offer(offer)][..0] == [];
    assert IsKept(active, active.higherOptions, 0);
    assert KeptOptions(active, []) == [];
    assert KeptOptions(active, active.higherOptions) == [ToSafeOption(Offer(offer))];
  }

  /** So a run with a licence whose reference is no UUID, and one with an offer of Direct Free, end in repair. */
  lemma BuilderRefusalIsReachable(env: Env)
    ensures EndsRefused(Run(env, Confirmed(Licence("x", "hushvoting.veritas.2000"), "hushvoting.veritas.2000")))
    ensures EndsRefused(Run(env, Confirmed(Licence("01234567-89ab-cdef-0123-456789abcdef", PLAN_DIRECT_FREE),
                                           PLAN_DIRECT_FREE)))
  {
    hide BuildSafeProjection, Licence, EndsRefused, Confirmed, IsBounded;
    var plan, uuid := "hushvoting.veritas.2000", "01234567-89ab-cdef-0123-456789abcdef";
    assert |plan| == 23 && |"hushvoting.veritas.500"| == 22 && |PLAN_DIRECT_FREE| == 22;
    assert PLAN_DIRECT_FREE[11] == 'd' && "hushvoting.veritas.500"[11] == 'v';
    ShortIsBounded(plan, MAX_PLAN_ID);
    ShortIsBounded(PLAN_DIRECT_FREE, MAX_PLAN_ID);
    LicenceIsShown(env.actor, env.network, "x", plan);
    LicenceIsShown(env.actor, env.network, uuid, PLAN_DIRECT_FREE);
    ConfirmationRefusedExactly(env, Licence("x", plan),
                               BuildSafeProjection(env.actor, env.network, Licence("x", plan)).projection, plan);
    ConfirmationRefusedExactly(env, Licence(uuid, PLAN_DIRECT_FREE),
                               BuildSafeProjection(env.actor, env.network, Licence(uuid, PLAN_DIRECT_FREE)).projection,
                               PLAN_DIRECT_FREE);
  }

  // ----- a delay that began before the submission ---------------------------------------------

  const ELIGIBLE := Eligibility(true, true, true)

  function Template(catalogue: string): TemplateView { TemplateView(INTENT_BASELINE_FREE, PLAN_DIRECT_FREE, catalogue) }

  /** A tick, then a start that submits a new baseline and is told "accepted", then a tick. */
  function SubmittedBetweenTicks(catalogue: string): seq<Step> {
    [Step(Tick(ELIGIBLE), []),
     Step(Start, [Arrives(NoActive(Template(catalogue)), Uncertain), Arrives(Malformed, Accepted)]),
     Step(Tick(ELIGIBLE), [])]
  }

  /**
    The submission of this run happens between the second and the third reading of the clock; the
    tick after it reports a delay exactly if 30 000 ms passed since the first reading, made by the
    tick before the submission.
  */
  lemma DelayCountsFromTickBefore(env: Env, catalogue: string)
    requires ReadsIntents(env.intentOf) && env.saveOk(0) && IsBounded(catalogue, MAX_CATALOGUE)
    ensures Run(env, SubmittedBetweenTicks(catalogue)).phase == ConfirmationDelayed
       <==> env.clock(3) - env.clock(0) >= CONFIRMATION_DELAYED_MS
  {
    hide SpecPerform, ReadsIntents, IsBounded, WaitsSince;
    var steps := SubmittedBetweenTicks(catalogue);
    var (tick, start) := (steps[0], steps[1]);
    assert [tick][..0] == [] && Run(env, [tick]) == SpecPerform(env, Initial(), tick);
    RunTwo(env, tick, start);
    assert steps[..2] == [tick, start] && steps[2] == tick;
    TickIsFirst(env);
    StartIsSecond(env, Run(env, [tick]), catalogue);
    TickIsLast(env, Run(env, [tick, start]));
  }

  lemma TickIsFirst(env: Env)
    ensures var s := SpecPerform(env, Initial(), Step(Tick(ELIGIBLE), []));
            && IsIdle(s) && !s.control.needsImmediateQuery
            && s.ports == Ports([], [], 1, 0, 0) && s.timing == Timing(None, 0, Some(env.clock(0)), None, None, 0)
  {
    hide SpecTick;
    FirstTick(env, Begin(Initial(), Step(Tick(ELIGIBLE), [])));
  }

  lemma StartIsSecond(env: Env, s: Session, catalogue: string)
    requires IsIdle(s) && !s.control.needsImmediateQuery && s.ports == Ports([], [], 1, 0, 0)
    requires s.timing == Timing(None, 0, Some(env.clock(0)), None, None, 0)
    requires ReadsIntents(env.intentOf) && env.saveOk(0) && IsBounded(catalogue, MAX_CATALOGUE)
    ensures var r := SpecPerform(env, s, SubmittedBetweenTicks(catalogue)[1]);
            WaitsSince(env, r, env.clock(0)) && r.ports.clockReads == 3
  {
    hide SpecStart, ReadsIntents, IsBounded, WaitsSince;
    StartSubmits(env, Begin(s, SubmittedBetweenTicks(catalogue)[1]), catalogue);
  }

  lemma TickIsLast(env: Env, s: Session)
    requires WaitsSince(env, s, env.clock(0)) && s.ports.clockReads == 3
    ensures SpecPerform(env, s, Step(Tick(ELIGIBLE), [])).phase == ConfirmationDelayed
       <==> env.clock(3) - env.clock(0) >= CONFIRMATION_DELAYED_MS
  {
    hide SpecTick;
    LastTick(env, Begin(s, Step(Tick(ELIGIBLE), [])));
  }

  /** The first tick of a new session only notes the time. */
  lemma FirstTick(env: Env, s: Session)
    requires s.phase == Resolving && s.projection.None? && !s.control.inFlight
    requires s.timing == Timing(None, 0, None, None, None, 0)
    ensures SpecTick(env, s, ELIGIBLE)
         == ReadClock(s).(timing := s.timing.(lastReachableAtMs := Some(env.clock(s.ports.clockReads))),
                          trace := Then(s.trace, Reached(env.clock(s.ports.clockReads))))
  {
    hide SpecRunFreshQuery, SpecRevalidate, ExpiryDue;
  }

  /** A session with an accepted submission that waits, and what its clock readings were. */
  ghost predicate WaitsSince(env: Env, s: Session, tick: int) {
    && s.phase == AwaitingIndex && s.projection.None? && !s.control.inFlight
    && s.timing.confirmationStartedReachableMs == Some(0) && s.timing.reachableElapsedMs == 0
    && s.timing.lastReachableAtMs == Some(tick) && s.timing.lastQueryAtMs.Some?
    && s.pending.record.Some? && !s.pending.record.value.IsUpgrade()
  }

  lemma StartSubmits(env: Env, s: Session, catalogue: string)
    requires IsIdle(s) && !s.control.needsImmediateQuery
    requires s.ports.minted == 0 && s.ports.saves == 0 && s.ports.clockReads == 1
    requires s.ports.tape == [Arrives(NoActive(Template(catalogue)), Uncertain), Arrives(Malformed, Accepted)]
    requires ReadsIntents(env.intentOf) && env.saveOk(0) && IsBounded(catalogue, MAX_CATALOGUE)
    requires s.timing.reachableElapsedMs == 0 && s.timing.lastReachableAtMs == Some(env.clock(0))
    ensures var r := SpecStart(env, s);
            WaitsSince(env, r, env.clock(0)) && r.ports.clockReads == 3
  {
    hide SpecAsk, SpecApplyOutcome, SpecQueryAttempt, IsBounded, ReadsIntents, WaitsSince;
    var flying := StartOver(s).(control := StartOver(s).control.(inFlight := true));
    var template := NoActive(Template(catalogue));
    assert flying.ports.tape == [Arrives(template, Uncertain)] + [Arrives(Malformed, Accepted)];
    AskArrives(flying, template, Uncertain, [Arrives(Malformed, Accepted)]);
    TemplateIsParsed(env, catalogue);
    var outcome := NoActiveLicence(Template(catalogue));
    AttemptApplies(env, flying, FOR_START, outcome);
    var done := CountRefusals(Answer(env, SpecAsk(flying), template, outcome), 0);
    BaselineIsSubmitted(env, done, catalogue);
    LandedWaits(env, SpecApplyOutcome(env, done, outcome, FOR_START), env.clock(0));
  }

  lemma LandedWaits(env: Env, s: Session, tick: int)
    requires WaitsSince(env, s, tick)
    ensures WaitsSince(env, Landed(s), tick)
  {
  }

  lemma TemplateIsParsed(env: Env, catalogue: string)
    requires IsBounded(catalogue, MAX_CATALOGUE)
    ensures ParseQueryResult(NoActive(Template(catalogue)), env.actor, env.network)
         == NoActiveLicence(Template(catalogue))
  {
  }

  lemma BaselineIsSubmitted(env: Env, s: Session, catalogue: string)
    requires s.pending == NOTHING_PENDING && s.ports.journal == [] && !s.control.rejectionRefreshOnly
    requires !Interrupted(s) && s.ports.minted == 0 && s.ports.saves == 0 && s.ports.clockReads == 2
    requires s.ports.tape == [Arrives(Malformed, Accepted)] && !s.upgrade.rejectedRequery
    requires ReadsIntents(env.intentOf) && env.saveOk(0) && IsBounded(catalogue, MAX_CATALOGUE)
    requires s.timing.reachableElapsedMs == 0 && s.timing.lastReachableAtMs == Some(env.clock(0))
    requires s.timing.lastQueryAtMs.Some? && !s.control.needsImmediateQuery
    ensures var r := SpecApplyOutcome(env, s, NoActiveLicence(Template(catalogue)), FOR_START);
            WaitsSince(env, r, env.clock(0)) && r.ports.clockReads == 3
  {
    hide SpecSubmitPending, IsBounded, ReadsIntents, Stage, WaitsSince, Store;
    var identity := env.mint(0);
    var record := Stage(env.actor, env.network, env.digestOf, identity, Baseline(catalogue), None);
    var signing := Mint(s.(projection := None)).(phase := BaselineSigning, lastOutcomeCode := ConstructingBaseline);
    StagedIsCoherent(env.intentOf, env.actor, env.network, env.digestOf, identity, Baseline(catalogue), None);
    BaselineStages(env, catalogue, identity);
    NothingIsBound(env, s.(projection := None), Template(catalogue), FOR_START);
    assert SpecSealAndSubmit(env, signing, record) == SpecSubmitPending(env, Seal(env, signing, record), record);
    AcceptedWaits(env, Seal(env, signing, record), record);
  }

  lemma NothingIsBound(env: Env, s: Session, template: TemplateView, reason: Reason)
    requires s.pending == NOTHING_PENDING && s.ports.journal == [] && !s.control.rejectionRefreshOnly
    ensures var signing := Mint(s).(phase := BaselineSigning, lastOutcomeCode := ConstructingBaseline);
            var staged := StageBaseline(env.actor, env.network, env.digestOf, env.mint(s.ports.minted), template);
            staged.Staged? ==>
              SpecHandleNoActive(env, s, template, reason) == SpecSealAndSubmit(env, signing, staged.record)
  {
    hide SpecSealAndSubmit, StageBaseline, SpecSubmitPending;
  }

  lemma BaselineStages(env: Env, catalogue: string, identity: Identity)
    requires IsBounded(catalogue, MAX_CATALOGUE)
    ensures StageBaseline(env.actor, env.network, env.digestOf, identity, Template(catalogue))
         == Staged(Stage(env.actor, env.network, env.digestOf, identity, Baseline(catalogue), None))
    ensures !Stage(env.actor, env.network, env.digestOf, identity, Baseline(catalogue), None).IsUpgrade()
  {
  }

  lemma AcceptedWaits(env: Env, s: Session, record: PendingRecord)
    requires IsPurposeCoherent(env.intentOf(record.transaction.exactJson), record) && !record.IsUpgrade()
    requires !Interrupted(s) && s.ports.tape == [Arrives(Malformed, Accepted)] && s.projection.None?
    requires s.timing.reachableElapsedMs == 0 && s.timing.lastReachableAtMs == Some(env.clock(0))
    requires s.timing.lastQueryAtMs.Some? && s.ports.clockReads == 2
    requires !s.upgrade.rejectedRequery && !s.control.needsImmediateQuery && s.pending.id.Some?
    ensures var r := SpecSubmitPending(env, s, record);
            WaitsSince(env, r, env.clock(0)) && r.ports.clockReads == 3
  {
    hide IsPurposeCoherent, SpecRunFreshQuery, SpecReconcileRejected, Load, Store;
    assert s.ports.tape[1..] == [];
  }

  lemma LastTick(env: Env, s: Session)
    requires WaitsSince(env, s, env.clock(0)) && s.ports.clockReads == 3 && s.ports.tape == []
    ensures SpecTick(env, s, ELIGIBLE).phase == ConfirmationDelayed
       <==> env.clock(3) - env.clock(0) >= CONFIRMATION_DELAYED_MS
  {
    hide SpecRunFreshQuery, SpecRevalidate;
    var t := SpecAdvanceReachable(env, s, ELIGIBLE);
    UnansweredKeepsPhase(env, t, FOR_POLL);
    UnansweredKeepsPhase(env, ReadClock(t), FOR_POLL);
  }

  lemma UnansweredKeepsPhase(env: Env, s: Session, reason: Reason)
    requires s.ports.tape == []
    ensures SpecRunFreshQuery(env, s, reason).phase == s.phase
  {
    hide SpecApplyOutcome, ParseQueryResult, SpecAsk;
    AskRejects(s.(control := s.control.(inFlight := true)));
  }
}
