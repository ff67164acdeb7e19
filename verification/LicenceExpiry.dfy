/**
  The expiry of the licence shown: local time only asks. A licence past its expiry is shown again
  only if its own question was answered so, and it is then asked about once a minute.
*/
module LicenceExpiry {
  import opened Wrappers
  import opened LicenceSession
  import opened LicenceSessionSafety
  import opened LicenceClock
  import opened LicenceLeaves
  import opened LicenceGuarantees
  import opened LicenceDeeds
  import opened LicenceTicks

  // ----- what it means ------------------------------------------------------------------------

  /** An eligible tick at which the licence shown is due for a question about its expiry. */
  ghost predicate IsDue(env: Env, s: Session, e: Eligibility) {
    e.authenticated && e.foregrounded && e.reachable && IsExpired(env, s, NextReading(env, s))
  }

  /**
    Local time only asks: a tick at which the licence shown is due leaves a licence shown only if
    its own question was answered so, and remembers which licence it asked about and when to ask
    again.
  */
  lemma ExpiryNeedsFreshTruth(env: Env, s: Session, e: Eligibility)
    requires Quiescent(env, s) && Tells(s) && MintsFresh(env) && IsDue(env, s, e)
    ensures var r := SpecTick(env, s, e);
            && IsFresh(r)
            && r.timing.lastExpiryWakeup
               == Some((s.projection.value.licenceReference, s.projection.value.expiresAtUtc.value))
            && r.timing.nextExpiryRecheckAtMs == NextReading(env, s) + 60_000
  {
    TellsTimesIs(s);
    NoRecordNoId(env, s);
    hide Inv, SpecAdvanceReachable, SpecPoll, SpecRevalidate, ExpiryDue, Tells, TellsTimes, IsExpired, IsPolled, Times,
         ShowsExpiry, IsFresh;
    AdvanceReachableKeeps(env, s, e);
    AdvanceTimes(env, s, e);
    var t := SpecAdvanceReachable(env, s, e);
    ConditionsCarry(env, s, e, t);
    var woken := ReadClock(t).(timing := t.timing.(lastExpiryWakeup := Some(Wakeup(t)), nextExpiryRecheckAtMs :=
                                 env.clock(t.ports.clockReads) + EXPIRY_RECHECK_INTERVAL_MS));
    UnrelatedKeeps(env, t, woken);
    RevalidationIsFresh(env, woken, FOR_EXPIRY);
    RevalidationLeaves(env, woken, FOR_EXPIRY);
  }

  /**
    Once a minute: if the tick after a due one shows the same licence again, it is due exactly if a
    minute has passed since the reading of the clock at the due tick.
  */
  lemma ExpiryAsksAgainExactly(env: Env, s: Session, e: Eligibility, answers: seq<PortEvent>, e': Eligibility)
    requires Quiescent(env, s) && Tells(s) && MintsFresh(env) && IsDue(env, s, e) && e'.Eligible()
    requires var r := SpecTick(env, s, e);
             && r.phase == EntitlementReady && r.projection.Some?
             && r.projection.value.licenceReference == s.projection.value.licenceReference
             && r.projection.value.expiresAtUtc == s.projection.value.expiresAtUtc
    ensures var again := Begin(SpecTick(env, s, e), Step(Tick(e'), answers));
            IsDue(env, again, e')
            <==> && NextReading(env, again) >= NextReading(env, s) + 60_000
                 && NextReading(env, again) >= env.dateParse(s.projection.value.expiresAtUtc.value).value
  {
    hide SpecTick, Quiescent, Tells, Inv, IsFresh;
    ExpiryNeedsFreshTruth(env, s, e);
  }
}
