/**
  What a tick does, exactly and from the log: which time it counts, when it reports a delay and
  when it asks, for a poll or because the licence shown has expired.
*/
module LicenceTicks {
  import opened Wrappers
  import opened LicenceSession
  import opened LicenceTrace
  import opened LicenceSessionSafety
  import opened LicenceClock
  import opened LicenceDeeds

  /** The session waits for the confirmation of a record. */
  predicate IsWatched(s: Session) {
    || s.phase == AwaitingIndex || s.phase == BaselineSubmitting
    || (s.phase == EntitlementReady && s.pending.record.Some? && s.pending.record.value.upgradeBinding.Some?)
  }

  /** 30 000 ms of reachable time will have been counted since the window restarted. */
  ghost predicate IsOverdue(s: Session, now: int) {
    && IsWatched(s) && WindowFrom(s.trace).Some?
    && Elapsed(s.trace) + Credit(s.trace, now) - WindowFrom(s.trace).value >= 30_000
  }

  /** The delay of an upgrade is a mark beside its old licence, any other a phase of its own. */
  predicate IsMarkedOnly(s: Session) {
    s.pending.record.Some? && s.pending.record.value.upgradeBinding.Some? && s.projection.Some?
  }

  /** What the reading of the clock at a tick does, and all of it. */
  ghost predicate Times(env: Env, s: Session, e: Eligibility, r: Session) {
    var now := env.clock(s.ports.clockReads);
    if !(e.authenticated && e.foregrounded && e.reachable) then
      r.trace == Then(s.trace, Unreachable) && r.phase == s.phase && r.upgrade == s.upgrade
    else if !IsOverdue(s, now) then
      r.trace == Then(s.trace, Reached(now)) && r.phase == s.phase && r.upgrade == s.upgrade
    else
      && r.trace == Then(Then(s.trace, Reached(now)), TimerFired)
      && (if IsMarkedOnly(s) then r.phase == s.phase && r.upgrade == s.upgrade.(delayed := true)
          else r.phase == ConfirmationDelayed && r.upgrade == s.upgrade)
  }

  lemma AdvanceTimes(env: Env, s: Session, e: Eligibility)
    requires TellsTimes(s) && (s.pending.record.Some? ==> s.pending.id.Some?)
    ensures Times(env, s, e, SpecAdvanceReachable(env, s, e))
    ensures var r := SpecAdvanceReachable(env, s, e);
            && r.projection == s.projection && r.pending == s.pending && r.control == s.control
            && r.ports == s.ports.(clockReads := s.ports.clockReads + 1)
            && r.timing.lastQueryAtMs == s.timing.lastQueryAtMs
            && r.timing.lastExpiryWakeup == s.timing.lastExpiryWakeup
            && r.timing.nextExpiryRecheckAtMs == s.timing.nextExpiryRecheckAtMs
  {
    MaxIsCredit(s, env.clock(s.ports.clockReads));
    hide Max, Elapsed, WindowFrom, LastReached;
  }

  lemma MaxIsCredit(s: Session, now: int)
    requires LastReached(s.trace) == s.timing.lastReachableAtMs
    ensures s.timing.lastReachableAtMs.Some? ==>
              Max(0, now - s.timing.lastReachableAtMs.value) == Credit(s.trace, now)
    ensures s.timing.lastReachableAtMs.None? ==> Credit(s.trace, now) == 0
  {
  }

  // ----- asking -------------------------------------------------------------------------------

  /** The licence shown has passed its expiry, and was not asked about within its last minute. */
  ghost predicate IsExpired(env: Env, s: Session, now: int) {
    && s.phase == EntitlementReady && s.projection.Some? && s.projection.value.expiresAtUtc.Some?
    && env.dateParse(s.projection.value.expiresAtUtc.value).Some?
    && now >= env.dateParse(s.projection.value.expiresAtUtc.value).value
    && (|| s.timing.lastExpiryWakeup
           != Some((s.projection.value.licenceReference, s.projection.value.expiresAtUtc.value))
        || now >= s.timing.nextExpiryRecheckAtMs)
  }

  /** The phase of the session once the tick has judged the delay. */
  ghost function PhaseAt(env: Env, s: Session): Phase {
    if IsOverdue(s, env.clock(s.ports.clockReads)) && !IsMarkedOnly(s) then ConfirmationDelayed else s.phase
  }

  /** A session that waits is polled, every 3 000 ms at most. */
  ghost predicate IsPolled(env: Env, s: Session, now: int) {
    && (|| PhaseAt(env, s) == AwaitingIndex || PhaseAt(env, s) == ConfirmationDelayed
        || PhaseAt(env, s) == EntitlementUnavailable
        || (s.phase == EntitlementReady && s.pending.record.Some? && s.pending.record.value.upgradeBinding.Some?))
    && (AnsweredAt(s.trace).None? || now - AnsweredAt(s.trace).value >= 3_000)
  }

  /** The readings of the clock that a tick makes after the first one. */
  function NextReading(env: Env, s: Session): int { env.clock(s.ports.clockReads + 1) }

  function PollReading(env: Env, s: Session): int {
    env.clock(s.ports.clockReads + if ShowsExpiry(s) then 2 else 1)
  }

  ghost predicate AsksInTick(env: Env, s: Session, e: Eligibility) {
    && e.authenticated && e.foregrounded && e.reachable && !IsLocked(s.trace)
    && (IsExpired(env, s, NextReading(env, s)) || IsPolled(env, s, PollReading(env, s)))
  }

  lemma PollAsks(env: Env, s: Session)
    requires FirstOfCall(s.trace).None? && !s.control.inFlight
    ensures FirstOfCall(SpecPoll(env, s).trace)
         == if PollsInPhase(s) && !s.control.cancelled
               && (|| s.timing.lastQueryAtMs.None?
                   || env.clock(s.ports.clockReads) - s.timing.lastQueryAtMs.value >= 3_000)
            then Some(Asked) else None
  {
    hide SpecRunFreshQuery;
    QueryAsksExactly(env, s, FOR_POLL);
    QueryAsksExactly(env, ReadClock(s), FOR_POLL);
  }

  /** The rest of a tick, once it has advanced the time. */
  lemma AdvancedAsks(env: Env, s: Session, e: Eligibility)
    requires var t := SpecAdvanceReachable(env, s, e); FirstOfCall(t.trace).None? && !t.control.inFlight
    ensures var t := SpecAdvanceReachable(env, s, e);
            var u := if ShowsExpiry(t) then ReadClock(t) else t;
            FirstOfCall(SpecTick(env, s, e).trace)
            == if e.Eligible() && !t.control.cancelled
                  && (|| (ShowsExpiry(t) && ExpiryDue(env, t))
                      || (PollsInPhase(u) && (u.timing.lastQueryAtMs.None?
                          || env.clock(u.ports.clockReads) - u.timing.lastQueryAtMs.value >= 3_000)))
               then Some(Asked) else None
  {
    hide SpecAdvanceReachable, SpecPoll, SpecRevalidate, ExpiryDue;
    var t := SpecAdvanceReachable(env, s, e);
    if ShowsExpiry(t) {
      RevalidationFirst(env, ReadClock(t).(timing := t.timing.(
                                            lastExpiryWakeup := Some(Wakeup(t)),
                                            nextExpiryRecheckAtMs :=
                                              env.clock(t.ports.clockReads) + EXPIRY_RECHECK_INTERVAL_MS)),
                       FOR_EXPIRY);
    }
    PollAsks(env, if ShowsExpiry(t) then ReadClock(t) else t);
  }

  /** The conditions of the rest of the tick, said of the session before it. */
  lemma ConditionsCarry(env: Env, s: Session, e: Eligibility, t: Session)
    requires Times(env, s, e, t) && e.Eligible() && (s.pending.record.Some? ==> s.pending.id.Some?)
    requires t.projection == s.projection && t.pending == s.pending && t.control == s.control
    requires t.ports == s.ports.(clockReads := s.ports.clockReads + 1)
    requires t.timing.lastQueryAtMs == AnsweredAt(s.trace) && t.timing.lastExpiryWakeup == s.timing.lastExpiryWakeup
    requires t.timing.nextExpiryRecheckAtMs == s.timing.nextExpiryRecheckAtMs
    ensures ShowsExpiry(t) == ShowsExpiry(s)
    ensures ShowsExpiry(t) && ExpiryDue(env, t) <==> IsExpired(env, s, NextReading(env, s))
    ensures var u := if ShowsExpiry(t) then ReadClock(t) else t;
            && (PollsInPhase(u) && (u.timing.lastQueryAtMs.None?
                                    || env.clock(u.ports.clockReads) - u.timing.lastQueryAtMs.value >= 3_000)
                <==> IsPolled(env, s, PollReading(env, s)))
  {
    hide Elapsed, WindowFrom, Credit, AnsweredAt;
  }

  lemma TickAsks(env: Env, s: Session, e: Eligibility)
    requires Quiescent(env, s) && Tells(s) && FirstOfCall(s.trace).None?
    ensures FirstOfCall(SpecTick(env, s, e).trace) == if AsksInTick(env, s, e) then Some(Asked) else None
  {
    NoRecordNoId(env, s);
    LockIsTold(env, s);
    TellsTimesIs(s);
    hide Inv, SpecAdvanceReachable, SpecTick, Tells, TellsTimes, IsPolled, IsExpired, ExpiryDue, ShowsExpiry,
         PollsInPhase;
    AdvanceTimes(env, s, e);
    var t := SpecAdvanceReachable(env, s, e);
    TimesAreNoCalls(env, s, e, t);
    AdvancedAsks(env, s, e);
    hide Times;
    if e.Eligible() { ConditionsCarry(env, s, e, t); }
  }

  lemma TimesAreNoCalls(env: Env, s: Session, e: Eligibility, t: Session)
    requires Times(env, s, e, t) && FirstOfCall(s.trace).None?
    ensures FirstOfCall(t.trace).None?
  {
    hide IsOverdue;
  }

  lemma TellsTimesIs(s: Session)
    requires Tells(s)
    ensures TellsTimes(s) && AnsweredAt(s.trace) == s.timing.lastQueryAtMs
  {
  }

  /**
    After any run, a tick counts the time, reports a delay and asks exactly as the log and the
    readings of the clock say; nothing else in the log of the tick comes before its question.
  */
  lemma TicksExactly(env: Env, steps: seq<Step>, e: Eligibility, answers: seq<PortEvent>)
    requires MintsFresh(env)
    ensures var t := Begin(Run(env, steps), Step(Tick(e), answers));
            var r := SpecPerform(env, Run(env, steps), Step(Tick(e), answers));
            && Times(env, t, e, SpecAdvanceReachable(env, t, e))
            && Extends(SpecAdvanceReachable(env, t, e).trace, r.trace)
            && FirstOfCall(r.trace) == if AsksInTick(env, t, e) then Some(Asked) else None
  {
    hide EntryOk, SpecAdvanceReachable, Times, AsksInTick, SpecTick;
    RunKeeps(env, steps);
    RunTells(env, steps);
    var s := Run(env, steps);
    var step := Step(Tick(e), answers);
    BeginKeeps(env, s, step);
    BeginResets(s, step);
    var t := Begin(s, step);
    hide Run, Tells;
    TickAsks(env, t, e);
    TellsTimesIs(t);
    NoRecordNoId(env, t);
    AdvanceTimes(env, t, e);
    TickFromAdvance(env, t, e);
  }

  /**
    An outage does not restart the window: the reachable time starts again from nothing, but the mark
    of the window stays. Whatever is counted afterwards, the delay of the same submission is then only
    due once the time counted before its mark has been counted again besides the 30 000 ms.
  */
  lemma OutageLengthensWindow(env: Env, s: Session, step: Step, later: Session, now: int)
    requires Tells(s) && step.op.OnConnectivity? && (step.op.event == Offline || step.op.event == Reconnecting)
    requires var r := SpecPerform(env, s, step);
             WindowFrom(later.trace) == WindowFrom(r.trace) && s.timing.confirmationStartedReachableMs.Some?
    ensures var r := SpecPerform(env, s, step);
            && Elapsed(r.trace) == 0 && WindowFrom(r.trace) == s.timing.confirmationStartedReachableMs
            && (IsOverdue(later, now) <==>
                  && IsWatched(later)
                  && Elapsed(later.trace) + Credit(later.trace, now)
                     >= s.timing.confirmationStartedReachableMs.value + 30_000)
  {
    hide Elapsed, Credit;
    BeginTells(s, step);
    PerformTells(env, s, step);
    TellsTimesIs(SpecPerform(env, s, step));
  }
}
