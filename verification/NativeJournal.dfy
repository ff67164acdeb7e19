/**
  The native two-slot journal (licence_vault.rs) over the primitive operations of its storage.
  Every operation may fail, a write to a slot may be torn and leave anything behind, and the
  process may stop between any two operations; only the write of the pointer is one atomic step.
*/
module NativeJournal {
  import opened Wrappers

  const SLOT_A := "slot-a"
  const SLOT_B := "slot-b"
  const COMMIT_KEY := "pointer"

  /**
    What goes wrong in one storage operation. A torn write leaves `left` under its key and may
    still be reported as a success. A stop of the process is a refusal of the next operation:
    the journal does nothing more after one.
  */
  datatype Fault = Healthy | Refused | Torn(left: Option<string>, reported: bool)

  /** The entries that survive, and what will happen to the next operations (then all is well). */
  datatype Storage = Storage(entries: map<string, string>, faults: seq<Fault>)

  datatype Fetched = Unreadable | Fetched(value: Option<string>)
  datatype Written = Done | Unavailable | NotReadBack
  datatype Found = Nothing | Record(value: string) | CorruptJournal

  function NextFault(st: Storage): Fault { if st.faults == [] then Healthy else st.faults[0] }

  function Later(st: Storage): Storage { st.(faults := if st.faults == [] then [] else st.faults[1..]) }

  function Get(entries: map<string, string>, key: string): Option<string> {
    if key in entries then Some(entries[key]) else None
  }

  function Put(entries: map<string, string>, key: string, value: Option<string>): map<string, string> {
    if value.Some? then entries[key := value.value] else entries - {key}
  }

  function Fetch(st: Storage, key: string): Fetched {
    if NextFault(st) == Refused then Unreadable else Fetched(Get(st.entries, key))
  }

  /** What one write leaves under its key; the pointer is either switched or not. */
  function Left(fault: Fault, key: string, value: string, was: Option<string>): Option<string> {
    match fault
    case Healthy => Some(value)
    case Refused => was
    case Torn(left, reported) =>
      if key != COMMIT_KEY then left else if left.Some? || reported then Some(value) else was
  }

  function Stored(st: Storage, key: string, value: string): Storage {
    Later(st).(entries := Put(st.entries, key, Left(NextFault(st), key, value, Get(st.entries, key))))
  }

  predicate Reports(st: Storage) { NextFault(st).Healthy? || (NextFault(st).Torn? && NextFault(st).reported) }

  function PointerAfter(fetched: Fetched): string {
    if fetched.Fetched? && fetched.value.Some? then fetched.value.value else ""
  }

  function OtherSlot(pointer: string): string { if pointer == SLOT_B then SLOT_A else SLOT_B }

  /** `write`: the other slot, read back, then the pointer. */
  function SpecWrite(st: Storage, record: string): (Storage, Written) {
    var target := OtherSlot(PointerAfter(Fetch(st, COMMIT_KEY)));
    var written := Stored(Later(st), target, record);
    if !Reports(Later(st)) then (written, Unavailable)
    else
      var back := Fetch(written, target);
      if back.Unreadable? || back.value.None? then (Later(written), Unavailable)
      else if back.value.value != record then (Later(written), NotReadBack)
      else
        (Stored(Later(written), COMMIT_KEY, target), if Reports(Later(written)) then Done else Unavailable)
  }

  predicate HasText(fetched: Fetched) { fetched.Fetched? && fetched.value.Some? && fetched.value.value != "" }

  /** `read`: the committed slot, else the other one. */
  function SpecRead(st: Storage): (Storage, Found) {
    var pointer := PointerAfter(Fetch(st, COMMIT_KEY));
    if pointer == "" then (Later(st), Nothing)
    else
      var known := pointer == SLOT_A || pointer == SLOT_B;
      var first := Fetch(Later(st), pointer);
      var tried := if known then Later(Later(st)) else Later(st);
      if known && HasText(first) then (tried, Record(first.value.value))
      else
        var second := Fetch(tried, OtherSlot(pointer));
        (Later(tried), if HasText(second) then Record(second.value.value) else CorruptJournal)
  }

  /** What an undisturbed read finds. */
  function ReadNow(entries: map<string, string>): Found { SpecRead(Storage(entries, [])).1 }

  function PointerOf(entries: map<string, string>): string { PointerAfter(Fetched(Get(entries, COMMIT_KEY))) }

  /** A slot is committed, and holds something. */
  predicate HasCommitted(entries: map<string, string>) {
    var pointer := PointerOf(entries);
    (pointer == SLOT_A || pointer == SLOT_B) && HasText(Fetched(Get(entries, pointer)))
  }

  /** Nothing was ever committed, or the committed slot is intact. */
  predicate Settled(entries: map<string, string>) { PointerOf(entries) == "" || HasCommitted(entries) }

  /** `before` is still what is read, or the pointer was switched and the new record is. */
  predicate OldOrNew(before: map<string, string>, after: map<string, string>, record: string) {
    || (PointerOf(after) == PointerOf(before) && ReadNow(after) == ReadNow(before))
    || (PointerOf(after) == OtherSlot(PointerOf(before)) && ReadNow(after) == Record(record))
  }

  lemma KeysDiffer()
    ensures SLOT_A != SLOT_B && SLOT_A != COMMIT_KEY && SLOT_B != COMMIT_KEY
    ensures SLOT_A != "" && SLOT_B != ""
  {
    assert SLOT_A[5] != SLOT_B[5];
    assert SLOT_A[0] != COMMIT_KEY[0];
    assert SLOT_B[0] != COMMIT_KEY[0];
  }

  /** The entries once something was left in the slot that is not committed. */
  function SlotLeft(entries: map<string, string>, left: Option<string>): map<string, string> {
    Put(entries, OtherSlot(PointerOf(entries)), left)
  }

  /** The entries once the pointer was switched to a slot that holds the record. */
  function Switched(entries: map<string, string>, record: string): map<string, string> {
    SlotLeft(entries, Some(record))[COMMIT_KEY := OtherSlot(PointerOf(entries))]
  }

  /** A write either leaves something in the slot that is not committed, or switches to the record. */
  lemma WriteLeavesOrSwitches(st: Storage, record: string) returns (left: Option<string>)
    requires NextFault(st) != Refused
    ensures var (after, result) := SpecWrite(st, record);
            || after.entries == Switched(st.entries, record)
            || (after.entries == SlotLeft(st.entries, left) && result != Done)
  {
    KeysDiffer();
    var target := OtherSlot(PointerOf(st.entries));
    var was := Get(st.entries, target);
    left := Left(NextFault(Later(st)), target, record, was);
    var written := Stored(Later(st), target, record);
    assert written.entries == SlotLeft(st.entries, left);
    assert Get(written.entries, COMMIT_KEY) == Get(st.entries, COMMIT_KEY);
    assert Put(written.entries, COMMIT_KEY, Get(written.entries, COMMIT_KEY)) == written.entries;
    assert left == Some(record) ==> written.entries == SlotLeft(st.entries, Some(record));
  }

  /** A write that can read the pointer changes at most the slot that is not committed, and the pointer. */
  lemma CommittedSlotUntouched(st: Storage, record: string, key: string)
    requires NextFault(st) != Refused
    requires key != OtherSlot(PointerOf(st.entries)) && key != COMMIT_KEY
    ensures Get(SpecWrite(st, record).0.entries, key) == Get(st.entries, key)
  {
    hide SpecWrite;
    var left := WriteLeavesOrSwitches(st, record);
  }

  lemma SlotLeftIsUnread(entries: map<string, string>, left: Option<string>)
    requires Settled(entries)
    ensures PointerOf(SlotLeft(entries, left)) == PointerOf(entries)
    ensures ReadNow(SlotLeft(entries, left)) == ReadNow(entries) && Settled(SlotLeft(entries, left))
  {
    KeysDiffer();
  }

  lemma SwitchedIsRead(entries: map<string, string>, record: string)
    requires record != ""
    ensures ReadNow(Switched(entries, record)) == Record(record) && Settled(Switched(entries, record))
    ensures PointerOf(Switched(entries, record)) == OtherSlot(PointerOf(entries))
  {
    KeysDiffer();
  }

  /**
    Crash atomicity: whatever is refused, torn or cut off, a write leaves the old record readable,
    or the new one once the pointer was switched; and a reported success did switch it.
  */
  lemma WriteIsAtomic(st: Storage, record: string)
    requires NextFault(st) != Refused && Settled(st.entries) && record != ""
    ensures var (after, result) := SpecWrite(st, record);
            && OldOrNew(st.entries, after.entries, record)
            && Settled(after.entries)
            && (result == Done ==> PointerOf(after.entries) == OtherSlot(PointerOf(st.entries)))
  {
    hide SpecWrite, Settled, ReadNow, SlotLeft, Switched;
    var left := WriteLeavesOrSwitches(st, record);
    SlotLeftIsUnread(st.entries, left);
    SwitchedIsRead(st.entries, record);
  }

  /** A reported success always switches, and the record written is then what is read, blind or not. */
  lemma AcknowledgedIsRead(st: Storage, record: string)
    requires SpecWrite(st, record).1 == Done && record != ""
    ensures var after := SpecWrite(st, record).0.entries;
            Settled(after) && ReadNow(after) == Record(record)
    ensures NextFault(st) != Refused ==> SpecWrite(st, record).0.entries == Switched(st.entries, record)
  {
    if NextFault(st) != Refused {
      hide SpecWrite, Switched, Settled, ReadNow;
      var left := WriteLeavesOrSwitches(st, record);
      SwitchedIsRead(st.entries, record);
    } else {
      BlindSuccessIsRead(st, record);
    }
  }

  lemma BlindSuccessIsRead(st: Storage, record: string)
    requires NextFault(st) == Refused && SpecWrite(st, record).1 == Done && record != ""
    ensures var after := SpecWrite(st, record).0.entries;
            Settled(after) && ReadNow(after) == Record(record)
  {
    KeysDiffer();
    var written := Stored(Later(st), SLOT_B, record);
    assert OtherSlot("") == SLOT_B;
    assert Get(written.entries, SLOT_B) == Some(record);
    var after := SpecWrite(st, record).0.entries;
    assert after == written.entries[COMMIT_KEY := SLOT_B];
  }

  /** The fault that befalls the n-th operation from now. */
  function FaultAt(st: Storage, n: nat): Fault { if n < |st.faults| then st.faults[n] else Healthy }

  predicate IsReported(fault: Fault) { fault.Healthy? || (fault.Torn? && fault.reported) }

  /**
    What a write answers: success exactly if both writes were reported and the slot was read back as
    written, "not read back" exactly if it was read back as something else, and otherwise that the
    journal is unavailable.
  */
  lemma AnswersExactly(st: Storage, record: string)
    ensures var target := OtherSlot(if FaultAt(st, 0) == Refused then "" else PointerOf(st.entries));
            var left := match FaultAt(st, 1)
                        case Healthy => Some(record)
                        case Refused => Get(st.entries, target)
                        case Torn(garbage, _) => garbage;
            var readable := IsReported(FaultAt(st, 1)) && FaultAt(st, 2) != Refused && left.Some?;
            && (SpecWrite(st, record).1 == Done <==> readable && left == Some(record) && IsReported(FaultAt(st, 3)))
            && (SpecWrite(st, record).1 == NotReadBack <==> readable && left != Some(record))
  {
    KeysDiffer();
  }

  /**
    When a read falls back, after two acknowledged writes and whatever then happened to the
    committed slot: to exactly the record of the first write if that slot is missing, empty or
    cannot be read; any other content is returned as it is.
  */
  lemma LossShowsPrevious(one: Storage, two: Storage, first: string, second: string, left: Option<string>)
    requires NextFault(one) != Refused && SpecWrite(one, first).1 == Done && first != ""
    requires two.entries == SpecWrite(one, first).0.entries
    requires NextFault(two) != Refused && SpecWrite(two, second).1 == Done && second != ""
    ensures var twice := SpecWrite(two, second).0.entries;
            && ReadNow(Put(twice, PointerOf(twice), left))
               == Record(if left.None? || left.value == "" then first else left.value)
            && SpecRead(Storage(twice, [Healthy, Refused])).1 == Record(first)
  {
    hide SpecWrite;
    AcknowledgedIsRead(one, first);
    AcknowledgedIsRead(two, second);
    SwitchedTwice(one.entries, first, second, left);
  }

  lemma SwitchedTwice(entries: map<string, string>, first: string, second: string, left: Option<string>)
    requires first != "" && second != ""
    ensures var twice := Switched(Switched(entries, first), second);
            && ReadNow(Put(twice, PointerOf(twice), left))
               == Record(if left.None? || left.value == "" then first else left.value)
            && SpecRead(Storage(twice, [Healthy, Refused])).1 == Record(first)
  {
    KeysDiffer();
    var twice := Switched(Switched(entries, first), second);
    var pointer := PointerOf(twice);
    assert pointer == SLOT_A || pointer == SLOT_B;
    assert Get(twice, OtherSlot(pointer)) == Some(first) && Get(twice, pointer) == Some(second);
    assert Get(Put(twice, pointer, left), OtherSlot(pointer)) == Some(first);
    assert PointerOf(Put(twice, pointer, left)) == pointer;
  }

  ghost predicate SeeingWriteIsAtomic(entries: map<string, string>, record: string) {
    forall faults: seq<Fault> :: (faults == [] || faults[0] != Refused) ==>
      OldOrNew(entries, SpecWrite(Storage(entries, faults), record).0.entries, record)
  }

  /**
    When the pointer can be read, atomicity survives every disturbance if and only if nothing was
    committed or the committed slot is intact: otherwise a torn write hits the slot read instead.
  */
  lemma SeeingWriteIsAtomicExactly(entries: map<string, string>, record: string)
    requires record != ""
    ensures SeeingWriteIsAtomic(entries, record) <==> Settled(entries)
  {
    hide SpecWrite, OldOrNew;
    if Settled(entries) {
      forall faults: seq<Fault> | faults == [] || faults[0] != Refused
        ensures OldOrNew(entries, SpecWrite(Storage(entries, faults), record).0.entries, record)
      {
        WriteIsAtomic(Storage(entries, faults), record);
      }
    } else {
      var other := Get(entries, OtherSlot(PointerOf(entries)));
      SeeingTear(entries, record, (if other.Some? then other.value else "") + "x");
    }
  }

  lemma SeeingTear(entries: map<string, string>, record: string, garbage: string)
    requires !Settled(entries) && garbage != "" && Get(entries, OtherSlot(PointerOf(entries))) != Some(garbage)
    ensures !OldOrNew(entries, SpecWrite(Storage(entries, [Healthy, Torn(Some(garbage), false)]), record).0.entries,
                      record)
  {
    KeysDiffer();
    var st := Storage(entries, [Healthy, Torn(Some(garbage), false)]);
    assert Later(st).faults == [Torn(Some(garbage), false)];
    var after := SlotLeft(entries, Some(garbage));
    assert SpecWrite(st, record).0.entries == after;
    assert PointerOf(after) == PointerOf(entries) != "";
    assert ReadNow(after) == Record(garbage);
  }

  /** A write that cannot read the pointer takes it to be unset. */
  lemma BlindWriteTargetsSlotB(st: Storage, record: string)
    requires NextFault(st) == Refused && OtherSlot(PointerOf(st.entries)) == SLOT_B
    ensures SpecWrite(st, record) == SpecWrite(st.(faults := [Healthy] + st.faults[1..]), record)
  {
    KeysDiffer();
    var seen := st.(faults := [Healthy] + st.faults[1..]);
    assert Later(seen) == Later(st);
    assert OtherSlot("") == SLOT_B;
  }

  ghost predicate BlindWriteIsAtomic(entries: map<string, string>, record: string) {
    forall faults: seq<Fault> :: |faults| > 0 && faults[0] == Refused ==>
      OldOrNew(entries, SpecWrite(Storage(entries, faults), record).0.entries, record)
  }

  /**
    When the pointer cannot be read, atomicity survives every further disturbance if and only if
    slot B is not the committed one: a torn write would hit the committed slot.
  */
  lemma BlindWriteIsAtomicExactly(entries: map<string, string>, record: string)
    requires Settled(entries) && record != ""
    ensures BlindWriteIsAtomic(entries, record) <==> PointerOf(entries) != SLOT_B
  {
    hide SpecWrite, OldOrNew;
    KeysDiffer();
    if PointerOf(entries) != SLOT_B {
      forall faults: seq<Fault> | |faults| > 0 && faults[0] == Refused
        ensures OldOrNew(entries, SpecWrite(Storage(entries, faults), record).0.entries, record)
      {
        BlindWriteTargetsSlotB(Storage(entries, faults), record);
        WriteIsAtomic(Storage(entries, [Healthy] + faults[1..]), record);
      }
    } else {
      var garbage := entries[SLOT_B] + record;
      BlindTear(entries, record, garbage);
    }
  }

  lemma BlindTear(entries: map<string, string>, record: string, garbage: string)
    requires PointerOf(entries) == SLOT_B && HasCommitted(entries) && record != ""
    requires garbage == entries[SLOT_B] + record
    ensures !OldOrNew(entries, SpecWrite(Storage(entries, [Refused, Torn(Some(garbage), false)]), record).0.entries,
                      record)
  {
    KeysDiffer();
    var st := Storage(entries, [Refused, Torn(Some(garbage), false)]);
    assert Later(st).faults == [Torn(Some(garbage), false)];
    assert SpecWrite(st, record).0.entries == entries[SLOT_B := garbage];
    assert |garbage| > |record| && |garbage| > |entries[SLOT_B]|;
    assert ReadNow(entries) == Record(entries[SLOT_B]);
  }

  /** However its operations fail, a read never invents: it finds one of the two slots. */
  lemma ReadFindsASlot(st: Storage)
    ensures var found := SpecRead(st).1;
            && (found == Nothing <==> NextFault(st) == Refused || PointerOf(st.entries) == "")
            && (found.Record? ==>
                Get(st.entries, SLOT_A) == Some(found.value) || Get(st.entries, SLOT_B) == Some(found.value))
  {
    KeysDiffer();
  }

  // ----- clearing -----------------------------------------------------------------------------

  const CLEARED_KEYS := [SLOT_A, SLOT_B, COMMIT_KEY]

  /** `clear` from the k-th key on: it stops at the first deletion that fails. */
  function SpecClear(st: Storage, k: nat): (Storage, Written)
    requires k <= 3
    decreases 3 - k
  {
    if k == 3 then (st, Done)
    else if NextFault(st) == Healthy then
      SpecClear(Later(st).(entries := st.entries - {CLEARED_KEYS[k]}), k + 1)
    else (Later(st), Unavailable)
  }

  /** The entries when a clear stopped after `k` deletions. */
  function PartlyCleared(entries: map<string, string>, k: nat): map<string, string>
    requires k <= 3
  {
    if k == 0 then entries
    else if k == 1 then entries - {SLOT_A}
    else if k == 2 then entries - {SLOT_A} - {SLOT_B}
    else entries - {SLOT_A} - {SLOT_B} - {COMMIT_KEY}
  }

  lemma ClearStopsSomewhere(st: Storage) returns (k: nat)
    ensures k == Deletions(st)
    ensures k <= 3 && SpecClear(st, 0).0.entries == PartlyCleared(st.entries, k)
    ensures SpecClear(st, 0).1 == Done <==> k == 3
  {
    KeysDiffer();
    var s1 := Later(st).(entries := st.entries - {SLOT_A});
    var s2 := Later(s1).(entries := s1.entries - {SLOT_B});
    k := if NextFault(st) != Healthy then 0
         else if NextFault(s1) != Healthy then 1
         else if NextFault(s2) != Healthy then 2 else 3;
    assert NextFault(st) == Healthy ==> SpecClear(st, 0) == SpecClear(s1, 1);
    assert NextFault(st) == Healthy && NextFault(s1) == Healthy ==> SpecClear(s1, 1) == SpecClear(s2, 2);
  }

  /**
    A clear is not atomic, and this is exactly what a stop leaves: before the first deletion the
    old record, after the second an unreadable journal; in between, slot B keeps its record, so
    the old record is still read only if slot B held it, and otherwise the one before it.
  */
  lemma InterruptedClear(entries: map<string, string>)
    requires HasCommitted(entries)
    ensures ReadNow(PartlyCleared(entries, 1))
         == (if PointerOf(entries) == SLOT_B then ReadNow(entries)
             else if HasText(Fetched(Get(entries, SLOT_B))) then Record(entries[SLOT_B]) else CorruptJournal)
    ensures ReadNow(PartlyCleared(entries, 2)) == CorruptJournal
    ensures ReadNow(PartlyCleared(entries, 3)) == Nothing
  {
    KeysDiffer();
  }

  /** How many keys a clear deletes before it stops. */
  function Deletions(st: Storage): nat {
    if NextFault(st) != Healthy then 0
    else if NextFault(Later(st)) != Healthy then 1
    else if NextFault(Later(Later(st))) != Healthy then 2 else 3
  }

  // ----- whole runs ---------------------------------------------------------------------------

  datatype Step = Write(record: string, faults: seq<Fault>) | Clear(faults: seq<Fault>)

  function Apply(entries: map<string, string>, step: Step): map<string, string> {
    match step
    case Write(record, faults) => SpecWrite(Storage(entries, faults), record).0.entries
    case Clear(faults) => SpecClear(Storage(entries, faults), 0).0.entries
  }

  /** The entries after a run of the journal over an empty storage. */
  function Run(steps: seq<Step>): map<string, string> {
    if steps == [] then map[] else Apply(Run(steps[..|steps| - 1]), steps[|steps| - 1])
  }

  /** The write could not read the pointer while slot B was committed: it aimed at that very slot. */
  predicate AimsAtCommitted(entries: map<string, string>, step: Step)
    requires step.Write?
  {
    NextFault(Storage(entries, step.faults)) == Refused && PointerOf(entries) == SLOT_B
  }

  /** The write was acknowledged, or switched the pointer without being acknowledged. */
  predicate Commits(entries: map<string, string>, step: Step)
    requires step.Write?
  {
    || SpecWrite(Storage(entries, step.faults), step.record).1 == Done
    || (!AimsAtCommitted(entries, step) && PointerOf(Apply(entries, step)) != PointerOf(entries))
  }

  /** The clear stopped where the committed record, or all that could stand in for it, was gone. */
  predicate LosesCommitted(entries: map<string, string>, step: Step)
    requires step.Clear?
  {
    var k := Deletions(Storage(entries, step.faults));
    PointerOf(entries) != "" && (k == 2 || (k == 1 && PointerOf(entries) != SLOT_B))
  }

  /** What a step of a run leaves readable, given what was readable before; None when that is not determined. */
  function Next(entries: map<string, string>, step: Step, found: Option<Found>): Option<Found> {
    match step
    case Write(record, _) =>
      if Commits(entries, step) then (if record == "" then None else Some(Record(record)))
      else if AimsAtCommitted(entries, step) then None
      else found
    case Clear(faults) =>
      if Deletions(Storage(entries, faults)) == 3 then Some(Nothing)
      else if LosesCommitted(entries, step) then None
      else found
  }

  /** The record of the latest write that committed, nothing after a clear. */
  function Latest(steps: seq<Step>): Option<Found> {
    if steps == [] then Some(Nothing)
    else
      var before := steps[..|steps| - 1];
      Next(Run(before), steps[|steps| - 1], Latest(before))
  }

  /**
    After any run of writes and clears, each disturbed in any way, a read finds the record of the
    latest write that committed, or nothing after a clear; it is undetermined only from a write
    that aimed at the committed slot, a clear that stopped halfway, or an empty record, until the
    next write that commits or clear that completes.
  */
  lemma {:induction false} ReadFindsLatest(steps: seq<Step>)
    ensures Latest(steps).Some? ==> Settled(Run(steps)) && ReadNow(Run(steps)) == Latest(steps).value
  {
    hide SpecWrite, SpecClear, Settled, ReadNow;
    if steps == [] {
      NothingStored();
    } else {
      var before, last := steps[..|steps| - 1], steps[|steps| - 1];
      ReadFindsLatest(before);
      if last.Write? {
        WriteStep(Run(before), last, Latest(before));
      } else {
        ClearStep(Run(before), last, Latest(before));
      }
    }
  }

  lemma NothingStored()
    ensures Settled(map[]) && ReadNow(map[]) == Nothing
  {
  }

  lemma WriteStep(entries: map<string, string>, step: Step, found: Option<Found>)
    requires step.Write?
    requires found.Some? ==> Settled(entries) && ReadNow(entries) == found.value
    ensures var after := Apply(entries, step);
            var next := Next(entries, step, found);
            next.Some? ==> Settled(after) && ReadNow(after) == next.value
  {
    hide SpecWrite, Settled, ReadNow, Switched, SlotLeft;
    var st := Storage(entries, step.faults);
    if SpecWrite(st, step.record).1 == Done {
      if step.record != "" { AcknowledgedIsRead(st, step.record); }
    } else if !AimsAtCommitted(entries, step) {
      var seeing := if NextFault(st) == Refused then st.(faults := [Healthy] + st.faults[1..]) else st;
      if NextFault(st) == Refused { BlindWriteTargetsSlotB(st, step.record); }
      var left := WriteLeavesOrSwitches(seeing, step.record);
      PointerMoves(entries, step.record, left);
      if step.record != "" { SwitchedIsRead(entries, step.record); }
      if found.Some? { SlotLeftIsUnread(entries, left); }
    }
  }

  lemma PointerMoves(entries: map<string, string>, record: string, left: Option<string>)
    ensures PointerOf(Switched(entries, record)) != PointerOf(entries)
    ensures PointerOf(SlotLeft(entries, left)) == PointerOf(entries)
  {
    KeysDiffer();
  }

  lemma ClearStep(entries: map<string, string>, step: Step, found: Option<Found>)
    requires step.Clear?
    requires found.Some? ==> Settled(entries) && ReadNow(entries) == found.value
    ensures var after := Apply(entries, step);
            var next := Next(entries, step, found);
            next.Some? ==> Settled(after) && ReadNow(after) == next.value
  {
    hide SpecClear, Settled, ReadNow;
    var st := Storage(entries, step.faults);
    var k := ClearStopsSomewhere(st);
    assert k == Deletions(st);
    PartlyClearedKeeps(entries, k);
  }

  lemma PartlyClearedKeeps(entries: map<string, string>, k: nat)
    requires k <= 3
    ensures k == 3 ==> Settled(PartlyCleared(entries, k)) && ReadNow(PartlyCleared(entries, k)) == Nothing
    ensures Settled(entries) && k < 3
            && (PointerOf(entries) == "" || k == 0 || (k == 1 && PointerOf(entries) == SLOT_B))
            ==> Settled(PartlyCleared(entries, k)) && ReadNow(PartlyCleared(entries, k)) == ReadNow(entries)
  {
    KeysDiffer();
  }

  // ----- the journal in its own form ----------------------------------------------------------

  class JournalStorage {
    var entries: map<string, string>
    var faults: seq<Fault>

    ghost function View(): Storage
      reads this
    {
      Storage(entries, faults)
    }

    constructor ()
      ensures View() == Storage(map[], [])
    {
      entries, faults := map[], [];
    }

    method NextOperation() returns (fault: Fault)
      modifies this`faults
      ensures fault == NextFault(old(View())) && View() == Later(old(View()))
    {
      fault := Healthy;
      if faults != [] { fault, faults := faults[0], faults[1..]; }
    }

    method Read(key: string) returns (fetched: Fetched)
      modifies this`faults
      ensures fetched == Fetch(old(View()), key) && View() == Later(old(View()))
    {
      var fault := NextOperation();
      fetched := if fault == Refused then Unreadable else Fetched(Get(entries, key));
    }

    method Write(key: string, value: string) returns (ok: bool)
      modifies this
      ensures ok == Reports(old(View())) && View() == Stored(old(View()), key, value)
    {
      var fault := NextOperation();
      entries := Put(entries, key, Left(fault, key, value, Get(entries, key)));
      ok := fault.Healthy? || (fault.Torn? && fault.reported);
    }

    method Delete(key: string) returns (ok: bool)
      modifies this
      ensures ok == NextFault(old(View())).Healthy?
      ensures View() == Later(old(View())).(entries := if ok then old(entries) - {key} else old(entries))
    {
      var fault := NextOperation();
      ok := fault.Healthy?;
      if ok { entries := entries - {key}; }
    }
  }

  class TwoSlotLicenceJournal {
    const storage: JournalStorage

    constructor (storage: JournalStorage)
      ensures this.storage == storage
    {
      this.storage := storage;
    }

    method Write(record: string) returns (result: Written)
      modifies storage
      ensures (storage.View(), result) == SpecWrite(old(storage.View()), record)
    {
      hide Stored, Reports;
      var fetched := storage.Read(COMMIT_KEY);
      var pointer := PointerAfter(fetched);
      var target := if pointer == SLOT_B then SLOT_A else SLOT_B;
      var ok := storage.Write(target, record);
      if !ok { return Unavailable; }
      var readBack := storage.Read(target);
      if readBack.Unreadable? || readBack.value.None? { return Unavailable; }
      if readBack.value.value != record { return NotReadBack; }
      ok := storage.Write(COMMIT_KEY, target);
      return if ok then Done else Unavailable;
    }

    method Read() returns (found: Found)
      modifies storage
      ensures (storage.View(), found) == SpecRead(old(storage.View()))
      ensures storage.entries == old(storage.entries)
    {
      var fetched := storage.Read(COMMIT_KEY);
      var pointer := PointerAfter(fetched);
      if pointer == "" { return Nothing; }
      if pointer == SLOT_A || pointer == SLOT_B {
        var value := storage.Read(pointer);
        if value.Fetched? && value.value.Some? && value.value.value != "" { return Record(value.value.value); }
      }
      var other := if pointer == SLOT_B then SLOT_A else SLOT_B;
      var value := storage.Read(other);
      if value.Fetched? && value.value.Some? && value.value.value != "" { return Record(value.value.value); }
      return CorruptJournal;
    }

    method Clear() returns (result: Written)
      modifies storage
      ensures (storage.View(), result) == SpecClear(old(storage.View()), 0)
    {
      for k := 0 to |CLEARED_KEYS|
        invariant SpecClear(storage.View(), k) == SpecClear(old(storage.View()), 0)
      {
        var ok := storage.Delete(CLEARED_KEYS[k]);
        if !ok { return Unavailable; }
      }
      return Done;
    }
  }
}
