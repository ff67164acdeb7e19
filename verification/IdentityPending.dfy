/**
  The sealed pending registration (identity-convergence/pending-transaction.ts) and the two-slot
  store that holds it (sealed-pending-store.ts). The store switches slots only after the new
  record is in place; unlike the licence journal it never falls back to the other slot.
*/
module IdentityPending {
  import opened Wrappers
  import opened TextFormats

  const SCHEMA_VERSION := 2
  const MAX_JSON_BYTES := 65_536
  const MAX_ATTEMPTS := 64
  const MAX_ID_BYTES := 128
  const MAX_TEXT_BYTES := 256

  datatype Visibility = Private | Public
  datatype Lifecycle =
    | SealedOnly | WaitingAccepted | WaitingPending | ConfirmedByChain | RejectedForEdit | Discarded
  datatype RollbackState = PreSeal | PostSeal | PostSubmit
  datatype SubmitOutcome =
    | Accepted | Pending | AlreadyExists | RejectedEditable | RejectedTerminal | TransportUncertain
  datatype Attempt = Attempt(at: string, outcome: SubmitOutcome)

  datatype PendingRegistration = PendingRegistration(
    schemaVersion: int, exactJson: string, digest: string, transactionId: string,
    alias: string, visibility: Visibility, lifecycle: Lifecycle, attemptEvidence: seq<Attempt>,
    epochBinding: string, networkBinding: string, rollbackState: RollbackState)

  /** SHA-256 as lowercase hexadecimal, and `Date.parse` (None where it is not a number). */
  datatype Platform = Platform(digestOf: string -> string, dateParse: string -> Option<int>)

  /** A nonempty text of at most `max` bytes of UTF-8. */
  predicate IsBoundedUtf8(s: string, max: nat) { s != "" && Utf8Length(s) <= max }

  predicate IsAttempt(platform: Platform, a: Attempt) {
    MatchesMinuteInstant(a.at) && platform.dateParse(a.at).Some?
  }

  predicate HasValidShape(r: PendingRegistration) {
    && IsBoundedUtf8(r.exactJson, MAX_JSON_BYTES)
    && |r.digest| == 64 && AllLowerHex(r.digest)
    && IsBoundedUtf8(r.transactionId, MAX_ID_BYTES)
    && IsBoundedUtf8(r.alias, MAX_TEXT_BYTES)
    && IsBoundedUtf8(r.epochBinding, MAX_TEXT_BYTES)
    && IsBoundedUtf8(r.networkBinding, MAX_TEXT_BYTES)
    && |r.attemptEvidence| <= MAX_ATTEMPTS
  }

  predicate IsValid(platform: Platform, r: PendingRegistration) {
    && HasValidShape(r)
    && (forall i :: 0 <= i < |r.attemptEvidence| ==> IsAttempt(platform, r.attemptEvidence[i]))
    && r.schemaVersion == SCHEMA_VERSION
    && platform.digestOf(r.exactJson) == r.digest
  }

  method ValidatePendingTransaction(platform: Platform, r: PendingRegistration) returns (ok: bool)
    ensures ok == IsValid(platform, r)
  {
    if !HasValidShape(r) { return false; }
    for i := 0 to |r.attemptEvidence|
      invariant forall k :: 0 <= k < i ==> IsAttempt(platform, r.attemptEvidence[k])
    {
      if !IsAttempt(platform, r.attemptEvidence[i]) { return false; }
    }
    return r.schemaVersion == SCHEMA_VERSION && platform.digestOf(r.exactJson) == r.digest;
  }

  predicate MatchesBinding(r: PendingRegistration, epoch: string, network: string) {
    r.epochBinding == epoch && r.networkBinding == network
  }

  predicate IsRetryEligible(r: PendingRegistration) {
    && r.rollbackState != PreSeal
    && r.lifecycle in {SealedOnly, WaitingAccepted, WaitingPending}
  }

  // ----- the two slots ------------------------------------------------------------------------

  datatype SlotName = A | B

  datatype Slots = Slots(slotA: Option<PendingRegistration>, slotB: Option<PendingRegistration>, active: SlotName)

  const EMPTY_SLOTS := Slots(None, None, A)

  function Other(name: SlotName): SlotName { if name == A then B else A }

  function Slot(s: Slots, name: SlotName): Option<PendingRegistration> {
    if name == A then s.slotA else s.slotB
  }

  function SetSlot(s: Slots, name: SlotName, value: Option<PendingRegistration>): Slots {
    if name == A then s.(slotA := value) else s.(slotB := value)
  }

  /** The store after an accepted write. */
  function Switch(s: Slots, record: PendingRegistration): Slots {
    SetSlot(s, Other(s.active), Some(record)).(active := Other(s.active))
  }

  function Read(platform: Platform, s: Slots): Option<PendingRegistration> {
    var record := Slot(s, s.active);
    if record.Some? && IsValid(platform, record.value) then record else None
  }

  /** What the fault hooks do to a slot: the exact text gets one more space, the digest stays. */
  function Spoil(s: Slots, name: SlotName): Slots {
    var record := Slot(s, name);
    if record.None? then s else SetSlot(s, name, Some(Spoiled(record.value)))
  }

  function Spoiled(r: PendingRegistration): PendingRegistration { r.(exactJson := r.exactJson + " ") }

  /**
    A write is read back, leaves the record committed before it in place as the other slot, and
    damage to a slot that is not committed is never seen.
  */
  lemma WriteIsReadBack(platform: Platform, s: Slots, record: PendingRegistration)
    requires IsValid(platform, record)
    ensures Read(platform, Switch(s, record)) == Some(record)
    ensures Slot(Switch(s, record), s.active) == Slot(s, s.active)
    ensures Read(platform, Spoil(Switch(s, record), s.active)) == Some(record)
    ensures Read(platform, Spoil(s, Other(s.active))) == Read(platform, s)
  {
    hide IsValid;
  }

  lemma {:induction false} Utf8LengthOfAppend(s: string, t: string)
    ensures Utf8Length(s + t) == Utf8Length(s) + Utf8Length(t)
  {
    if s == "" {
      assert s + t == t;
    } else {
      assert (s + t)[1..] == s[1..] + t;
      Utf8LengthOfAppend(s[1..], t);
    }
  }

  /**
    Damage to the committed slot is seen as an absent record, whatever the other slot holds,
    exactly unless the text is below its bound and the digest collides on it.
  */
  lemma SpoiledCommitIsAbsent(platform: Platform, s: Slots)
    requires Read(platform, s).Some?
    ensures var r := Read(platform, s).value;
            Read(platform, Spoil(s, s.active)).None?
            <==> (Utf8Length(r.exactJson) == MAX_JSON_BYTES
                  || platform.digestOf(r.exactJson + " ") != platform.digestOf(r.exactJson))
  {
    var r := Read(platform, s).value;
    Utf8LengthOfAppend(r.exactJson, " ");
    assert Utf8Length(" ") == Utf8Width(' ') + Utf8Length("") == 1;
    assert Slot(Spoil(s, s.active), s.active) == Some(Spoiled(r));
  }

  class InMemorySealedPendingStore {
    const platform: Platform
    var slotA: Option<PendingRegistration>
    var slotB: Option<PendingRegistration>
    var active: SlotName

    ghost function View(): Slots
      reads this
    {
      Slots(slotA, slotB, active)
    }

    constructor (platform: Platform)
      ensures this.platform == platform && View() == EMPTY_SLOTS
    {
      this.platform := platform;
      slotA, slotB, active := None, None, A;
    }

    /** None when the record is refused; the store is then unchanged. */
    method Write(record: PendingRegistration) returns (ref: Option<SlotName>)
      modifies this
      ensures IsValid(platform, record) <==> ref.Some?
      ensures ref.Some? ==> View() == Switch(old(View()), record) && ref.value == active
      ensures ref.None? ==> View() == old(View())
    {
      hide IsValid;
      var ok := ValidatePendingTransaction(platform, record);
      if !ok { return None; }
      var target := if active == A then B else A;
      Set(target, Some(record));
      active := target;
      return Some(active);
    }

    method ReadRecord() returns (record: Option<PendingRegistration>)
      ensures record == Read(platform, View())
    {
      hide IsValid;
      record := if active == A then slotA else slotB;
      if record.Some? {
        var ok := ValidatePendingTransaction(platform, record.value);
        if !ok { return None; }
      }
    }

    method Clear()
      modifies this
      ensures View() == EMPTY_SLOTS
    {
      slotA, slotB, active := None, None, A;
    }

    method Corrupt(name: SlotName)
      modifies this
      ensures View() == Spoil(old(View()), name)
    {
      var record := if name == A then slotA else slotB;
      if record.Some? { Set(name, Some(Spoiled(record.value))); }
    }

    method CorruptInactiveSlot()
      modifies this
      ensures View() == Spoil(old(View()), Other(old(active)))
    {
      Corrupt(if active == A then B else A);
    }

    method CorruptActiveSlot()
      modifies this
      ensures View() == Spoil(old(View()), old(active))
    {
      Corrupt(active);
    }

    method Set(name: SlotName, value: Option<PendingRegistration>)
      modifies this
      ensures View() == SetSlot(old(View()), name, value)
    {
      if name == A { slotA := value; } else { slotB := value; }
    }
  }

  // ----- the bounds written out ---------------------------------------------------------------

  /** What a valid registration is, with every bound written out. */
  lemma ValidExactly(platform: Platform, r: PendingRegistration)
    ensures IsValid(platform, r) <==>
              && r.schemaVersion == 2
              && IsBoundedUtf8(r.exactJson, 65_536) && IsBoundedUtf8(r.transactionId, 128)
              && |r.digest| == 64 && AllLowerHex(r.digest) && r.digest == platform.digestOf(r.exactJson)
              && IsBoundedUtf8(r.alias, 256) && IsBoundedUtf8(r.epochBinding, 256)
              && IsBoundedUtf8(r.networkBinding, 256)
              && |r.attemptEvidence| <= 64
              && forall a :: a in r.attemptEvidence ==> MatchesMinuteInstant(a.at) && platform.dateParse(a.at).Some?
  {
    hide IsBoundedUtf8, MatchesMinuteInstant, AllLowerHex;
    if forall i :: 0 <= i < |r.attemptEvidence| ==> IsAttempt(platform, r.attemptEvidence[i]) {
      assert forall a :: a in r.attemptEvidence ==> IsAttempt(platform, a);
    }
  }
}
