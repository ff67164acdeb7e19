/**
  The web journal of pending records (licensing/journal-adapter.ts): a pair of slots for each
  transaction. The first slot stays committed, so what is loaded is the first record saved since
  the last deletion, which is all that the coordinator relies on.
*/
module WebLicenceJournal {
  import opened Wrappers
  import opened LicenceContracts
  import opened PendingCodec
  import opened JsonText
  import P = LicencePending
  import S = LicenceSession

  datatype SlotState = SlotState(recordJson: string, committed: bool)
  datatype SlotPair = SlotPair(first: SlotState, second: SlotState)
  type Slots = map<string, SlotPair>

  datatype SaveResult = Saved | BindingMismatch | CorruptRecord
  datatype LoadResult = Loaded(record: Stored) | NotFound | CorruptSlots | OtherIdentity

  const NEW_PAIR := SlotPair(SlotState("", false), SlotState("", false))

  /** The identity that a journal serves, and SHA-256 as lowercase hexadecimal. */
  datatype Custody = Custody(identity: string, digestOf: string -> string)

  function PairFor(slots: Slots, id: string): SlotPair { if id in slots then slots[id] else NEW_PAIR }

  /** The slot that is not committed gets the new state; after a first save that is the second. */
  function Target(pair: SlotPair): SlotState { if pair.first.committed then pair.second else pair.first }

  function Retarget(pair: SlotPair, state: SlotState): SlotPair {
    if pair.first.committed then pair.(second := state) else pair.(first := state)
  }

  function SpecSave(c: Custody, slots: Slots, r: Stored): (Slots, SaveResult) {
    if r.identityBinding != c.identity then (slots, BindingMismatch)
    else
      var pair := PairFor(slots, r.transactionId);
      if ParseText(c.digestOf, TextOf(r)).None? then
        var undone := Retarget(pair, SlotState(Target(pair).recordJson, false));
        (if r.transactionId in slots then slots[r.transactionId := undone] else slots, CorruptRecord)
      else (slots[r.transactionId := Retarget(pair, SlotState(TextOf(r), true))], Saved)
  }

  /** One slot of `load`: None when its text is no record. */
  function LoadSlot(c: Custody, slot: SlotState): Option<LoadResult> {
    var parsed := ParseText(c.digestOf, slot.recordJson);
    if parsed.None? then None
    else if parsed.value.identityBinding != c.identity then Some(OtherIdentity)
    else Some(Loaded(parsed.value))
  }

  /** The first of the two slots that satisfies a test, as `find` gives it. */
  function FirstSlot(pair: SlotPair, first: bool, second: bool): Option<SlotState> {
    if first then Some(pair.first) else if second then Some(pair.second) else None
  }

  function SpecLoad(c: Custody, slots: Slots, id: string): LoadResult {
    if id !in slots then NotFound
    else
      var pair := slots[id];
      var committed := FirstSlot(pair, pair.first.committed, pair.second.committed);
      var loaded := if committed.Some? && committed.value.recordJson != "" then LoadSlot(c, committed.value) else None;
      if loaded.Some? then loaded.value
      else
        var other := FirstSlot(pair, !pair.first.committed && pair.first.recordJson != "",
                               !pair.second.committed && pair.second.recordJson != "");
        var again := if other.Some? then LoadSlot(c, other.value) else None;
        if again.Some? then again.value else CorruptSlots
  }

  class InMemoryTwoSlotLicenceJournal {
    const custody: Custody
    var slots: Slots

    constructor (custody: Custody)
      ensures this.custody == custody && slots == map[]
    {
      this.custody, slots := custody, map[];
    }

    method Save(r: Stored) returns (result: SaveResult)
      modifies this
      ensures (slots, result) == SpecSave(custody, old(slots), r)
    {
      hide ParseText, Print, Members;
      if r.identityBinding != custody.identity { return BindingMismatch; }
      var pair := if r.transactionId in slots then slots[r.transactionId] else NEW_PAIR;
      var nextJson := Serialize(r);
      var previousJson := Target(pair).recordJson;
      pair := Retarget(pair, SlotState(nextJson, false));
      if r.transactionId in slots { slots := slots[r.transactionId := pair]; }
      var parsed := ParseText(custody.digestOf, nextJson);
      if parsed.None? {
        pair := Retarget(pair, SlotState(previousJson, false));
        if r.transactionId in slots {
          slots := slots[r.transactionId := pair];
          assert slots == old(slots)[r.transactionId := pair];
        }
        return CorruptRecord;
      }
      pair := Retarget(pair, SlotState(nextJson, true));
      slots := slots[r.transactionId := pair];
      assert slots == old(slots)[r.transactionId := pair];
      return Saved;
    }

    method Load(id: string) returns (result: LoadResult)
      ensures result == SpecLoad(custody, slots, id)
    {
      hide ParseText;
      if id !in slots { return NotFound; }
      var pair := slots[id];
      var committed := FirstSlot(pair, pair.first.committed, pair.second.committed);
      if committed.Some? && committed.value.recordJson != "" {
        var parsed := ParseText(custody.digestOf, committed.value.recordJson);
        if parsed.Some? {
          return if parsed.value.identityBinding != custody.identity then OtherIdentity else Loaded(parsed.value);
        }
      }
      var other := FirstSlot(pair, !pair.first.committed && pair.first.recordJson != "",
                             !pair.second.committed && pair.second.recordJson != "");
      if other.Some? {
        var parsed := ParseText(custody.digestOf, other.value.recordJson);
        if parsed.Some? {
          return if parsed.value.identityBinding != custody.identity then OtherIdentity else Loaded(parsed.value);
        }
      }
      return CorruptSlots;
    }

    method Delete(id: string)
      modifies this
      ensures slots == old(slots) - {id}
    {
      slots := slots - {id};
    }
  }

  // ----- whole runs ---------------------------------------------------------------------------

  datatype Op = Save(record: Stored) | Delete(id: string)

  function Apply(c: Custody, slots: Slots, op: Op): Slots {
    match op
    case Save(r) => SpecSave(c, slots, r).0
    case Delete(id) => slots - {id}
  }

  function Run(c: Custody, ops: seq<Op>): Slots {
    if ops == [] then map[] else Apply(c, Run(c, ops[..|ops| - 1]), ops[|ops| - 1])
  }

  /** A record of this identity that the codec accepts. */
  predicate IsSaved(c: Custody, r: Stored) { r.identityBinding == c.identity && IsValid(c.digestOf, r) }

  /** The first record saved under the id since its last deletion. */
  function FirstSaved(c: Custody, ops: seq<Op>, id: string): Option<Stored> {
    if ops == [] then None
    else
      var last, before := ops[|ops| - 1], FirstSaved(c, ops[..|ops| - 1], id);
      match last
      case Delete(other) => if other == id then None else before
      case Save(r) => if r.transactionId == id && before.None? && IsSaved(c, r) then Some(r) else before
  }

  /** A stored pair holds, in its committed first slot, the text of a record saved under the id. */
  ghost predicate Holds(c: Custody, pair: SlotPair, r: Stored) {
    pair.first == SlotState(TextOf(r), true) && IsSaved(c, r)
  }

  lemma HeldIsLoaded(c: Custody, slots: Slots, id: string, r: Stored)
    requires id in slots && Holds(c, slots[id], r)
    ensures SpecLoad(c, slots, id) == Loaded(r)
  {
    hide IsValid, ParseText, TextOf;
    TextIsParsedBack(c.digestOf, r);
    assert TextOf(r) != "" by { TextIsNotEmpty(r); }
  }

  lemma TextIsNotEmpty(r: Stored)
    ensures TextOf(r) != ""
  {
  }

  /** Saving succeeds exactly for valid records of this identity, whatever the journal holds. */
  lemma SavesExactly(c: Custody, slots: Slots, r: Stored)
    ensures SpecSave(c, slots, r).1 == Saved <==> IsSaved(c, r)
  {
    hide IsValid, ParseText, TextOf;
    TextIsParsedBack(c.digestOf, r);
  }

  /** What every run keeps: an id is stored exactly if something is saved under it, and then it is held. */
  ghost predicate Inv(c: Custody, slots: Slots, id: string, first: Option<Stored>) {
    && (id in slots <==> first.Some?)
    && (first.Some? ==> Holds(c, slots[id], first.value))
  }

  lemma {:induction false} RunHoldsFirst(c: Custody, ops: seq<Op>, id: string)
    ensures Inv(c, Run(c, ops), id, FirstSaved(c, ops, id))
  {
    hide IsValid, ParseText, TextOf;
    if ops != [] {
      var before, last := ops[..|ops| - 1], ops[|ops| - 1];
      RunHoldsFirst(c, before, id);
      if last.Save? { TextIsParsedBack(c.digestOf, last.record); }
    }
  }

  /**
    After any sequence of saves and deletions, loading an id gives the first record saved under
    it since its last deletion, or "not found"; never an unsaved, damaged or foreign record.
  */
  lemma LoadIsFirstSaved(c: Custody, ops: seq<Op>, id: string)
    ensures SpecLoad(c, Run(c, ops), id)
         == (if FirstSaved(c, ops, id).Some? then Loaded(FirstSaved(c, ops, id).value) else NotFound)
  {
    hide IsValid, ParseText, TextOf, Run;
    RunHoldsFirst(c, ops, id);
    if FirstSaved(c, ops, id).Some? { HeldIsLoaded(c, Run(c, ops), id, FirstSaved(c, ops, id).value); }
  }

  /** The record loaded was saved by some operation, after which the id was not deleted. */
  lemma {:induction false} FirstSavedWasSaved(c: Custody, ops: seq<Op>, id: string) returns (i: nat)
    requires FirstSaved(c, ops, id).Some?
    ensures i < |ops| && ops[i] == Save(FirstSaved(c, ops, id).value)
    ensures IsSaved(c, ops[i].record) && ops[i].record.transactionId == id
    ensures forall j :: i < j < |ops| ==> ops[j] != Delete(id)
  {
    hide IsSaved;
    var before := ops[..|ops| - 1];
    if FirstSaved(c, before, id).Some? {
      i := FirstSavedWasSaved(c, before, id);
      assert ops[i] == before[i];
      assert forall j :: i < j < |before| ==> ops[j] == before[j];
    } else {
      i := |ops| - 1;
    }
  }

  /** It need not be the latest: a second save under the same id is accepted and never seen. */
  lemma SecondSaveIsNotSeen(c: Custody, one: Stored, two: Stored)
    requires IsSaved(c, one) && IsSaved(c, two) && one.transactionId == two.transactionId && one != two
    ensures var slots := Run(c, [Save(one)]);
            && SpecSave(c, slots, two).1 == Saved
            && SpecLoad(c, SpecSave(c, slots, two).0, two.transactionId) == Loaded(one)
  {
    hide IsSaved, SpecSave, SpecLoad;
    var ops := [Save(one), Save(two)];
    assert ops[..1] == [Save(one)] && [Save(one)][..0] == [];
    SavesExactly(c, Run(c, [Save(one)]), two);
    assert FirstSaved(c, [Save(one)], two.transactionId) == Some(one);
    assert FirstSaved(c, ops, two.transactionId) == Some(one);
    LoadIsFirstSaved(c, ops, two.transactionId);
    assert Run(c, ops) == SpecSave(c, Run(c, [Save(one)]), two).0;
  }

  // ----- damage to the committed slot ---------------------------------------------------------

  /** What the second slot of an id holds: nothing, or the latest save after the first. */
  datatype Second = NoSecond | Second(record: Stored, withdrawn: bool)

  /**
    The latest record saved after the first one, and whether a later refused save took back its
    commit: only then does the second slot count as the other, uncommitted one.
  */
  function SecondOf(c: Custody, ops: seq<Op>, id: string): Second {
    if ops == [] then NoSecond
    else
      var earlier := ops[..|ops| - 1];
      var before := SecondOf(c, earlier, id);
      match ops[|ops| - 1]
      case Delete(other) => if other == id then NoSecond else before
      case Save(r) =>
        if r.transactionId != id || r.identityBinding != c.identity || FirstSaved(c, earlier, id).None? then before
        else if IsSaved(c, r) then Second(r, false)
        else if before.Second? then before.(withdrawn := true)
        else NoSecond
  }

  ghost predicate HoldsSecond(c: Custody, pair: SlotPair, second: Second) {
    match second
    case NoSecond => pair.second == SlotState("", false)
    case Second(r, withdrawn) => pair.second == SlotState(TextOf(r), !withdrawn) && IsSaved(c, r)
  }

  lemma {:induction false} RunHoldsSecond(c: Custody, ops: seq<Op>, id: string)
    ensures FirstSaved(c, ops, id).None? ==> SecondOf(c, ops, id) == NoSecond
    ensures FirstSaved(c, ops, id).Some? ==>
              id in Run(c, ops) && HoldsSecond(c, Run(c, ops)[id], SecondOf(c, ops, id))
  {
    hide IsValid, ParseText, TextOf;
    if ops != [] {
      var before, last := ops[..|ops| - 1], ops[|ops| - 1];
      RunHoldsSecond(c, before, id);
      RunHoldsFirst(c, before, id);
      if last.Save? { TextIsParsedBack(c.digestOf, last.record); }
    }
  }

  /** The text of the committed first slot is replaced by something else. */
  function Damaged(slots: Slots, id: string, garbage: string): Slots
    requires id in slots
  {
    slots[id := slots[id].(first := slots[id].first.(recordJson := garbage))]
  }

  /**
    With another text in the committed slot, a load gives the record of that text, or a mismatch if it
    is of another identity. If the text is no record, the load rolls back to the other slot exactly if
    a second record was saved and a refused save came after it; the second save itself leaves both
    slots committed, and then the journal answers "corrupt".
  */
  lemma DamageRollsBackExactly(c: Custody, ops: seq<Op>, id: string, garbage: string)
    requires FirstSaved(c, ops, id).Some?
    ensures id in Run(c, ops)
    ensures var second := SecondOf(c, ops, id);
            var instead := if garbage == "" then None else ParseText(c.digestOf, garbage);
            SpecLoad(c, Damaged(Run(c, ops), id, garbage), id)
            == if instead.Some? then
                 if instead.value.identityBinding == c.identity then Loaded(instead.value) else OtherIdentity
               else if second.Second? && second.withdrawn then Loaded(second.record)
               else CorruptSlots
  {
    hide IsValid, ParseText, TextOf, Run;
    RunHoldsFirst(c, ops, id);
    RunHoldsSecond(c, ops, id);
    var second := SecondOf(c, ops, id);
    if second.Second? {
      TextIsParsedBack(c.digestOf, second.record);
      TextIsNotEmpty(second.record);
    }
  }

  // ----- the journal that the coordinator relies on -------------------------------------------

  function OutcomeName(a: P.Admission): string {
    match a
    case Accepted => "accepted"
    case Pending => "pending"
    case AlreadyExists => "alreadyExists"
    case TerminalRejected => "terminalRejected"
    case Uncertain => "uncertain"
  }

  function StateName(s: P.RecoveryState): string {
    match s
    case Sealed => "sealed"
    case WaitingAccepted => "waitingAccepted"
    case WaitingPending => "waitingPending"
    case ConfirmedIndexed => "confirmedIndexed"
    case Superseded => "superseded"
    case Retired => "retired"
    case Unrecoverable => "unrecoverable"
  }

  /** A record of the coordinator with the members that are the same in every record of the web. */
  function StoredOf(r: P.PendingRecord): Stored {
    Stored(SCHEMA_VERSION, PURPOSE, r.transaction.exactJson, r.transaction.digest, r.transactionId,
           r.identityBinding, r.networkBinding, TARGETS[0], r.createdUtc,
           seq(|r.attemptEvidence|, i requires 0 <= i < |r.attemptEvidence| =>
             Attempt(r.attemptEvidence[i].at, OutcomeName(r.attemptEvidence[i].outcome))),
           StateName(r.recoveryState), None, None,
           if r.upgradeBinding.None? then None
           else
             var b := r.upgradeBinding.value;
             Some(Binding(INTENT_CONFIRMED_UPGRADE, b.expectedCurrentTransactionId, b.expectedCurrentPlanId,
                          b.requestedPlanId, b.observedCatalogueVersion)))
  }

  /** The names under which outcomes and states are stored. */
  lemma NamesAreThoseOfTheWeb()
    ensures [OutcomeName(P.Accepted), OutcomeName(P.Pending), OutcomeName(P.AlreadyExists),
             OutcomeName(P.TerminalRejected), OutcomeName(P.Uncertain)]
         == ["accepted", "pending", "alreadyExists", "terminalRejected", "uncertain"]
    ensures [StateName(P.Sealed), StateName(P.WaitingAccepted), StateName(P.WaitingPending),
             StateName(P.ConfirmedIndexed), StateName(P.Superseded), StateName(P.Retired), StateName(P.Unrecoverable)]
         == ["sealed", "waitingAccepted", "waitingPending", "confirmedIndexed", "superseded", "retired",
             "unrecoverable"]
  {
  }

  /** Nothing of the coordinator's record is lost in the stored one. */
  lemma StoredDetermines(a: P.PendingRecord, b: P.PendingRecord)
    requires StoredOf(a) == StoredOf(b)
    ensures a == b
  {
    NamesDiffer();
    assert |a.attemptEvidence| == |StoredOf(a).attemptEvidence| == |b.attemptEvidence|;
    forall i | 0 <= i < |a.attemptEvidence|
      ensures a.attemptEvidence[i] == b.attemptEvidence[i]
    {
      assert StoredOf(a).attemptEvidence[i] == StoredOf(b).attemptEvidence[i];
    }
  }

  lemma NamesDiffer()
    ensures forall x, y :: OutcomeName(x) == OutcomeName(y) ==> x == y
    ensures forall x, y :: StateName(x) == StateName(y) ==> x == y
  {
    assert "accepted"[0] != "sealed"[0];
  }

  /** The abstract journal of LicenceSession, always showing the first version of a transaction. */
  ghost predicate IsOldestFirst(journal: seq<S.Slot>) {
    && (forall i :: 0 <= i < |journal| ==> journal[i].shown == 0 && journal[i].versions != [])
    && (forall i, j :: 0 <= i < j < |journal| ==> journal[i].id != journal[j].id)
  }

  /** Both journals answer every load alike. */
  ghost predicate Agrees(c: Custody, slots: Slots, journal: seq<S.Slot>, id: string) {
    match S.Load(journal, id)
    case None => id !in slots
    case Some(r) => id in slots && Holds(c, slots[id], StoredOf(r))
  }

  lemma {:induction false} FindIs(journal: seq<S.Slot>, i: nat)
    requires i < |journal| && IsOldestFirst(journal)
    ensures S.Find(journal, journal[i].id) == i
  {
    if i > 0 { FindIs(journal[1..], i - 1); }
  }

  lemma {:induction false} FindNone(journal: seq<S.Slot>, id: string)
    requires forall i :: 0 <= i < |journal| ==> journal[i].id != id
    ensures S.Find(journal, id) == |journal|
  {
    if journal != [] { FindNone(journal[1..], id); }
  }

  lemma {:induction false} FoundFirst(journal: seq<S.Slot>, id: string)
    ensures forall i :: 0 <= i < S.Find(journal, id) ==> journal[i].id != id
  {
    if journal != [] && journal[0].id != id {
      FoundFirst(journal[1..], id);
      assert forall i :: 0 < i < |journal| ==> journal[i] == journal[1..][i - 1];
    }
  }

  /** What the abstract journal shows for an id is the oldest version it holds. */
  lemma LoadIs(journal: seq<S.Slot>, i: nat)
    requires i < |journal| && IsOldestFirst(journal)
    ensures S.Load(journal, journal[i].id) == Some(journal[i].versions[0])
  {
    FindIs(journal, i);
  }

  lemma LoadNone(journal: seq<S.Slot>, id: string)
    requires forall i :: 0 <= i < |journal| ==> journal[i].id != id
    ensures S.Load(journal, id) == None
  {
    FindNone(journal, id);
  }

  /** Storing keeps what is shown for an id that has something, and shows the record for one that has not. */
  lemma StoreShows(journal: seq<S.Slot>, r: P.PendingRecord, id: string)
    requires IsOldestFirst(journal)
    ensures IsOldestFirst(S.Store(journal, r, 0))
    ensures S.Load(S.Store(journal, r, 0), id)
         == if id == r.transactionId && S.Load(journal, id).None? then Some(r) else S.Load(journal, id)
  {
    hide S.Load;
    var at := S.Find(journal, r.transactionId);
    var stored := S.Store(journal, r, 0);
    FoundFirst(journal, r.transactionId);
    assert IsOldestFirst(stored);
    if k: nat :| k < |journal| && journal[k].id == id {
      LoadIs(journal, k);
      LoadIs(stored, k);
      assert stored[k].versions[0] == journal[k].versions[0];
    } else {
      LoadNone(journal, id);
      if id == r.transactionId {
        assert stored == journal + [S.Slot(r.transactionId, [r], 0)];
        LoadIs(stored, |journal|);
      } else {
        LoadNone(stored, id);
      }
    }
  }

  lemma RemoveShows(journal: seq<S.Slot>, gone: string, id: string)
    requires IsOldestFirst(journal)
    ensures IsOldestFirst(S.Remove(journal, gone))
    ensures S.Load(S.Remove(journal, gone), id) == if id == gone then None else S.Load(journal, id)
  {
    hide S.Load;
    var at := S.Find(journal, gone);
    var rest := S.Remove(journal, gone);
    FoundFirst(journal, gone);
    if k: nat :| k < |journal| && journal[k].id == id && id != gone {
      LoadIs(journal, k);
      LoadIs(rest, if k < at then k else k - 1);
    } else {
      LoadNone(rest, id);
      if id != gone { LoadNone(journal, id); }
    }
  }

  /**
    The web journal is the journal of the coordinator's model that always shows the oldest
    version: a save that the codec accepts agrees with `Store`, a refused one with no change,
    and a deletion with `Remove`. Its runs are therefore among those proved safe there.
  */
  lemma SaveAgrees(c: Custody, slots: Slots, journal: seq<S.Slot>, r: P.PendingRecord, id: string)
    requires IsOldestFirst(journal) && Agrees(c, slots, journal, id) && Agrees(c, slots, journal, r.transactionId)
    ensures var (after, result) := SpecSave(c, slots, StoredOf(r));
            && (result == Saved <==> IsSaved(c, StoredOf(r)))
            && (result == Saved ==> Agrees(c, after, S.Store(journal, r, 0), id))
            && (result != Saved ==> Agrees(c, after, journal, id))
  {
    hide IsValid, ParseText, TextOf, S.Load, S.Store, StoredOf;
    assert StoredOf(r).transactionId == r.transactionId by { StoredId(r); }
    SavesExactly(c, slots, StoredOf(r));
    TextIsParsedBack(c.digestOf, StoredOf(r));
    StoreShows(journal, r, id);
  }

  lemma StoredId(r: P.PendingRecord)
    ensures StoredOf(r).transactionId == r.transactionId
  {
  }

  lemma DeleteAgrees(c: Custody, slots: Slots, journal: seq<S.Slot>, gone: string, id: string)
    requires IsOldestFirst(journal) && Agrees(c, slots, journal, id)
    ensures Agrees(c, slots - {gone}, S.Remove(journal, gone), id) && IsOldestFirst(S.Remove(journal, gone))
  {
    hide IsValid, TextOf, S.Load, S.Remove, StoredOf;
    RemoveShows(journal, gone, id);
  }
}
