/**
  The native mirror of the pending record (licensing_record.rs): its own checks of instants,
  identifiers and bounds in bytes, and its reader of the shared text.
*/
module NativePendingRecord {
  import opened Wrappers
  import opened TextFormats
  import opened LicenceContracts
  import opened JsonText
  import opened PendingCodec

  predicate IsBoundedBytes(s: string, max: nat) { s != "" && Utf8Length(s) <= max }

  // ----- instants -----------------------------------------------------------------------------

  function Split(s: seq<byte>, c: byte): (parts: seq<seq<byte>>)
    ensures |parts| > 0
  {
    if s == [] then [[]]
    else
      var rest := Split(s[1..], c);
      if s[0] == c then [[]] + rest else [[s[0]] + rest[0]] + rest[1..]
  }

  function Byte(c: char): byte
    requires c as int < 0x80
  {
    c as int
  }

  /** `is_iso_utc`; it looks at the bytes of the separators only. */
  predicate NativeIsInstant(s: string) {
    var bytes := Utf8(s);
    && 0 < |bytes| <= 64 && bytes[|bytes| - 1] == Byte('Z')
    && var parts := Split(bytes[..|bytes| - 1], Byte('T'));
    && |parts| == 2
    && |parts[0]| == 10 && parts[0][4] == Byte('-') && parts[0][7] == Byte('-')
    && |parts[1]| >= 8 && parts[1][2] == Byte(':') && parts[1][5] == Byte(':')
  }

  lemma {:induction false} SplitNever(s: seq<byte>, c: byte)
    requires c !in s
    ensures Split(s, c) == [s]
  {
    if s != [] {
      SplitNever(s[1..], c);
      assert [s[0]] + s[1..] == s;
    }
  }

  lemma {:induction false} SplitOnce(front: seq<byte>, back: seq<byte>, c: byte)
    requires c !in front && c !in back
    ensures Split(front + [c] + back, c) == [front, back]
  {
    var all := front + [c] + back;
    if front == [] {
      assert all[1..] == back;
      SplitNever(back, c);
    } else {
      assert all[1..] == front[1..] + [c] + back;
      SplitOnce(front[1..], back, c);
      assert [front[0]] + front[1..] == front;
    }
  }

  lemma {:induction false} SplitInOne(s: seq<byte>, c: byte)
    requires |Split(s, c)| == 1
    ensures c !in s && Split(s, c) == [s]
  {
    if s != [] {
      SplitInOne(s[1..], c);
      assert s == [s[0]] + s[1..];
    }
  }

  lemma {:induction false} SplitInTwo(s: seq<byte>, c: byte)
    requires |Split(s, c)| == 2
    ensures var parts := Split(s, c); s == parts[0] + [c] + parts[1] && c !in parts[0] && c !in parts[1]
  {
    assert s == [s[0]] + s[1..];
    if s[0] == c { SplitInOne(s[1..], c); } else { SplitInTwo(s[1..], c); }
  }

  /** The native check, byte by byte: four separators in their places, one T and a final Z. */
  lemma NativeInstantExactly(s: string)
    ensures NativeIsInstant(s) <==>
              var b := Utf8(s);
              && 20 <= |b| <= 64 && b[|b| - 1] == 0x5A && b[10] == 0x54
              && (forall i :: 0 <= i < |b| - 1 && i != 10 ==> b[i] != 0x54)
              && b[4] == 0x2D && b[7] == 0x2D && b[13] == 0x3A && b[16] == 0x3A
  {
    hide Utf8, Split;
    var b := Utf8(s);
    if b != [] {
      var body := b[..|b| - 1];
      if |Split(body, 0x54)| == 2 {
        SplitInTwo(body, 0x54);
        var parts := Split(body, 0x54);
        assert forall i :: 0 <= i < |parts[0]| ==> b[i] == parts[0][i];
        assert forall i :: 0 <= i < |parts[1]| ==> b[|parts[0]| + 1 + i] == parts[1][i];
        assert b[|parts[0]|] == 0x54;
      }
      if 20 <= |b| && b[10] == 0x54 && forall i :: 0 <= i < |b| - 1 && i != 10 ==> b[i] != 0x54 {
        assert forall i :: 0 <= i < 10 ==> body[..10][i] == b[i];
        assert forall i :: 0 <= i < |body| - 11 ==> body[11..][i] == b[11 + i];
        SplitOnce(body[..10], body[11..], 0x54);
        assert body == body[..10] + [0x54] + body[11..];
      }
    }
  }

  /** The separators of an instant are all that the native check asks for. */
  lemma SeparatedIsNative(s: string)
    requires 20 <= |s| <= 24 && s[4] == '-' && s[7] == '-' && s[10] == 'T' && s[13] == ':' && s[16] == ':'
    requires s[|s| - 1] == 'Z' && forall i :: 0 <= i < |s| - 1 && i != 10 ==> IsInstantChar(s[i])
    ensures NativeIsInstant(s)
  {
    hide Utf8;
    AsciiLengths(s);
    var bytes := Utf8(s);
    var front, back := bytes[..10], bytes[11..|s| - 1];
    assert bytes[..|s| - 1] == front + [Byte('T')] + back;
    assert forall i :: 0 <= i < |front| ==> front[i] == s[i] as int;
    assert forall i :: 0 <= i < |back| ==> back[i] == s[11 + i] as int;
    SplitOnce(front, back, Byte('T'));
  }

  /** Every instant of the web format passes the native check. */
  lemma InstantIsNative(s: string)
    requires MatchesUtcInstant(s)
    ensures NativeIsInstant(s)
  {
    InstantChars(s);
    hide MatchesUtcInstant, NativeIsInstant;
    SeparatedIsNative(s);
  }

  /** The native check is weaker: it also passes an instant whose first digit was lost. */
  lemma NativeInstantIsWeaker(s: string)
    requires MatchesUtcInstant(s)
    ensures NativeIsInstant(s[0 := '.']) && !MatchesUtcInstant(s[0 := '.'])
  {
    InstantChars(s);
    hide NativeIsInstant;
    var t := s[0 := '.'];
    SeparatedIsNative(t);
    var year := t[..19][..4];
    assert year[0] == t[0] == '.';
    assert !AllDigits(year);
  }

  // ----- identifiers --------------------------------------------------------------------------

  const GROUPS: seq<nat> := [8, 4, 4, 4, 12]

  /** Where a group of hexadecimal digits begins. */
  function GroupStart(group: nat): nat
    requires group <= 5
  {
    [0, 9, 14, 19, 24, 36][group]
  }

  predicate IsLowerHexByte(b: byte) { Byte('0') <= b <= Byte('9') || Byte('a') <= b <= Byte('f') }

  predicate AllLowerHexBytes(bytes: seq<byte>) { forall i :: 0 <= i < |bytes| ==> IsLowerHexByte(bytes[i]) }

  predicate IsUuidBytes(bytes: seq<byte>) {
    && |bytes| == 36
    && bytes[8] == Byte('-') && bytes[13] == Byte('-') && bytes[18] == Byte('-') && bytes[23] == Byte('-')
    && AllLowerHexBytes(bytes[..8]) && AllLowerHexBytes(bytes[9..13]) && AllLowerHexBytes(bytes[14..18])
    && AllLowerHexBytes(bytes[19..23]) && AllLowerHexBytes(bytes[24..36])
  }

  /** `is_uuid`: five groups of bytes, each checked digit by digit. */
  method IsUuid(value: string) returns (ok: bool)
    ensures ok == MatchesUuid(value)
  {
    hide Utf8, MatchesUuid;
    UuidIsItsBytes(value);
    var bytes := Utf8(value);
    if |bytes| != 36 { return false; }
    if bytes[8] != Byte('-') || bytes[13] != Byte('-') || bytes[18] != Byte('-') || bytes[23] != Byte('-') {
      return false;
    }
    var index := 0;
    for group := 0 to 5
      invariant index == GroupStart(group)
      invariant group > 0 ==> AllLowerHexBytes(bytes[..8])
      invariant group > 1 ==> AllLowerHexBytes(bytes[9..13])
      invariant group > 2 ==> AllLowerHexBytes(bytes[14..18])
      invariant group > 3 ==> AllLowerHexBytes(bytes[19..23])
      invariant group > 4 ==> AllLowerHexBytes(bytes[24..36])
    {
      var start := index;
      for i := 0 to GROUPS[group]
        invariant index == start + i
        invariant AllLowerHexBytes(bytes[start..index])
      {
        if !IsLowerHexByte(bytes[index]) {
          assert bytes[start..start + GROUPS[group]][i] == bytes[index];
          return false;
        }
        OneMoreHexByte(bytes, start, index);
        index := index + 1;
      }
      if group < 4 { index := index + 1; }
    }
    return true;
  }

  lemma OneMoreHexByte(bytes: seq<byte>, start: nat, index: nat)
    requires start <= index < |bytes| && AllLowerHexBytes(bytes[start..index]) && IsLowerHexByte(bytes[index])
    ensures AllLowerHexBytes(bytes[start..index + 1])
  {
    var more := bytes[start..index + 1];
    assert forall i :: 0 <= i < index - start ==> more[i] == bytes[start..index][i];
  }

  lemma HexIsItsBytes(s: string, bytes: seq<byte>)
    requires |s| == |bytes| && forall i :: 0 <= i < |s| ==> bytes[i] == s[i] as int
    ensures AllLowerHex(s) <==> AllLowerHexBytes(bytes)
  {
    assert forall i :: 0 <= i < |s| ==> (IsLowerHex(s[i]) <==> IsLowerHexByte(bytes[i]));
  }

  /** The format of the characters is the format of the bytes. */
  lemma UuidIsItsBytes(s: string)
    ensures MatchesUuid(s) <==> IsUuidBytes(Utf8(s))
  {
    hide Utf8, AllLowerHex, AllLowerHexBytes;
    var bytes := Utf8(s);
    if MatchesUuid(s) { UuidIsAscii(s); }
    if IsUuidBytes(bytes) {
      UuidBytesAreAscii(bytes);
      AsciiBytesAreText(s);
    }
    if IsAscii(s) {
      AsciiLengths(s);
      if |s| == 36 {
        HexIsItsBytes(s[..8], bytes[..8]);
        HexIsItsBytes(s[9..13], bytes[9..13]);
        HexIsItsBytes(s[14..18], bytes[14..18]);
        HexIsItsBytes(s[19..23], bytes[19..23]);
        HexIsItsBytes(s[24..], bytes[24..36]);
      }
    }
  }

  lemma UuidBytesAreAscii(bytes: seq<byte>)
    requires IsUuidBytes(bytes)
    ensures forall i :: 0 <= i < 36 ==> bytes[i] < 0x80
  {
    forall i | 0 <= i < 36
      ensures bytes[i] < 0x80
    {
      if i < 8 { assert bytes[i] == bytes[..8][i]; }
      else if 9 <= i < 13 { assert bytes[i] == bytes[9..13][i - 9]; }
      else if 14 <= i < 18 { assert bytes[i] == bytes[14..18][i - 14]; }
      else if 19 <= i < 23 { assert bytes[i] == bytes[19..23][i - 19]; }
      else if 24 <= i { assert bytes[i] == bytes[24..36][i - 24]; }
    }
  }

  // ----- validation ---------------------------------------------------------------------------

  predicate IsHex(s: string) { forall i :: 0 <= i < |s| ==> IsLowerHex(s[i]) || 'A' <= s[i] <= 'F' }

  predicate NativeBindingOk(b: Binding) {
    && b.kind == INTENT_CONFIRMED_UPGRADE
    && IsBoundedBytes(b.expectedCurrentTransactionId, MAX_ID) && MatchesUuid(b.expectedCurrentTransactionId)
    && IsBoundedBytes(b.expectedCurrentPlanId, MAX_ID) && IsBoundedBytes(b.requestedPlanId, MAX_ID)
    && b.requestedPlanId != b.expectedCurrentPlanId && b.requestedPlanId != PLAN_DIRECT_FREE
    && IsBoundedBytes(b.observedCatalogueVersion, MAX_CATALOGUE) && b.observedCatalogueVersion == CATALOGUE_VERSION_V1
  }

  predicate NativeInstantOrAbsent(value: Option<string>) { value.Some? ==> NativeIsInstant(value.value) }

  predicate NativeAttemptOk(a: Attempt) { NativeIsInstant(a.at) && a.outcome in ATTEMPT_OUTCOMES }

  /** `validate` */
  predicate NativeValid(digestOf: string -> string, r: Stored) {
    hide Utf8Length, Utf8, Split, NativeIsInstant, IsHex, NativeBindingOk, NativeAttemptOk;
    && r.schemaVersion == SCHEMA_VERSION && r.purpose == PURPOSE
    && IsBoundedBytes(r.exactJson, MAX_JSON)
    && |r.digest| == 64 && IsHex(r.digest) && digestOf(r.exactJson) == r.digest
    && IsBoundedBytes(r.transactionId, MAX_ID)
    && IsBoundedBytes(r.identityBinding, MAX_IDENTITY) && IsBoundedBytes(r.networkBinding, MAX_ID)
    && r.targetBinding in TARGETS
    && NativeIsInstant(r.createdUtc)
    && NativeInstantOrAbsent(r.submittedUtc) && NativeInstantOrAbsent(r.indexObservedUtc)
    && (r.upgradeBinding.Some? ==>
        NativeBindingOk(r.upgradeBinding.value)
        && r.upgradeBinding.value.expectedCurrentTransactionId != r.transactionId)
    && r.recoveryState in RECOVERY_STATES
    && |r.attemptEvidence| <= MAX_ATTEMPTS
    && forall i :: 0 <= i < |r.attemptEvidence| ==> NativeAttemptOk(r.attemptEvidence[i])
  }

  /** The free texts of a record, measured in bytes, keep the bounds that the web measures in UTF-16. */
  predicate FitsBytes(r: Stored) {
    && Utf8Length(r.exactJson) <= MAX_JSON
    && Utf8Length(r.identityBinding) <= MAX_IDENTITY && Utf8Length(r.networkBinding) <= MAX_ID
    && (r.upgradeBinding.Some? ==>
        && Utf8Length(r.upgradeBinding.value.expectedCurrentPlanId) <= MAX_ID
        && Utf8Length(r.upgradeBinding.value.requestedPlanId) <= MAX_ID)
  }

  lemma CatalogueBytes()
    ensures IsBoundedBytes(CATALOGUE_VERSION_V1, MAX_CATALOGUE)
  {
    LengthsCompare(CATALOGUE_VERSION_V1);
  }

  /** Of the records that the web accepts, the native authority accepts exactly those that fit in bytes. */
  lemma NativeAcceptsExactly(digestOf: string -> string, r: Stored)
    requires IsValid(digestOf, r)
    ensures NativeValid(digestOf, r) <==> FitsBytes(r)
  {
    hide MatchesUuid, MatchesUtcInstant, NativeIsInstant, Utf8Length, Utf16Length;
    UuidIsAscii(r.transactionId);
    CatalogueBytes();
    InstantIsNative(r.createdUtc);
    if r.submittedUtc.Some? { InstantIsNative(r.submittedUtc.value); }
    if r.indexObservedUtc.Some? { InstantIsNative(r.indexObservedUtc.value); }
    if r.upgradeBinding.Some? { UuidIsAscii(r.upgradeBinding.value.expectedCurrentTransactionId); }
    forall i | 0 <= i < |r.attemptEvidence|
      ensures NativeAttemptOk(r.attemptEvidence[i])
    {
      InstantIsNative(r.attemptEvidence[i].at);
    }
  }

  /** In particular it accepts every web record whose free texts are ASCII. */
  lemma AsciiRecordsFit(digestOf: string -> string, r: Stored)
    requires IsValid(digestOf, r)
    requires IsAscii(r.exactJson) && IsAscii(r.identityBinding) && IsAscii(r.networkBinding)
    requires r.upgradeBinding.Some? ==>
               IsAscii(r.upgradeBinding.value.expectedCurrentPlanId) && IsAscii(r.upgradeBinding.value.requestedPlanId)
    ensures NativeValid(digestOf, r)
  {
    hide MatchesUuid, MatchesUtcInstant, NativeValid, Utf8Length, Utf16Length;
    AsciiLengths(r.exactJson);
    AsciiLengths(r.identityBinding);
    AsciiLengths(r.networkBinding);
    if r.upgradeBinding.Some? {
      AsciiLengths(r.upgradeBinding.value.expectedCurrentPlanId);
      AsciiLengths(r.upgradeBinding.value.requestedPlanId);
    }
    NativeAcceptsExactly(digestOf, r);
  }

  /** What the native validator leaves unchecked of the formats. */
  predicate KeepsFormats(r: Stored) {
    && MatchesUuid(r.transactionId) && AllLowerHex(r.digest)
    && MatchesUtcInstant(r.createdUtc)
    && IsInstantOrAbsent(r.submittedUtc) && IsInstantOrAbsent(r.indexObservedUtc)
    && forall i :: 0 <= i < |r.attemptEvidence| ==> MatchesUtcInstant(r.attemptEvidence[i].at)
  }

  /**
    Of the records that the native authority accepts, the web accepts exactly those whose
    transaction id is a UUID, whose digest is in lower case and whose instants are instants.
  */
  lemma WebAcceptsExactly(digestOf: string -> string, r: Stored)
    requires NativeValid(digestOf, r)
    ensures IsValid(digestOf, r) <==> KeepsFormats(r)
  {
    hide MatchesUuid, MatchesUtcInstant, NativeIsInstant, AllLowerHex, Utf8Length, Utf16Length;
    LengthsCompare(r.exactJson);
    LengthsCompare(r.transactionId);
    LengthsCompare(r.identityBinding);
    LengthsCompare(r.networkBinding);
    if r.upgradeBinding.Some? {
      var b := r.upgradeBinding.value;
      LengthsCompare(b.expectedCurrentTransactionId);
      LengthsCompare(b.expectedCurrentPlanId);
      LengthsCompare(b.requestedPlanId);
      LengthsCompare(b.observedCatalogueVersion);
    }
  }

  /** The two validators differ by exactly these conditions, one on each side. */
  lemma ValidatorsAgreeExactly(digestOf: string -> string, r: Stored)
    ensures IsValid(digestOf, r) && FitsBytes(r) <==> NativeValid(digestOf, r) && KeepsFormats(r)
  {
    hide IsValid, NativeValid, FitsBytes, KeepsFormats;
    if IsValid(digestOf, r) { NativeAcceptsExactly(digestOf, r); }
    if NativeValid(digestOf, r) { WebAcceptsExactly(digestOf, r); }
  }

  /** The native validator does not ask that the transaction id is a UUID. */
  lemma NativeIsWeaker(digestOf: string -> string, r: Stored)
    requires NativeValid(digestOf, r) && r.upgradeBinding.None?
    ensures var other := r.(transactionId := "x");
            NativeValid(digestOf, other) && !IsValid(digestOf, other)
  {
    hide NativeIsInstant, IsValid;
    AsciiLengths("x");
    WebAcceptsExactly(digestOf, r.(transactionId := "x"));
  }

  // ----- reading the shared text --------------------------------------------------------------

  const FIELDS := [SCHEMA, PURPOSE_NAME, TRANSACTION, TRANSACTION_ID, IDENTITY, NETWORK, TARGET, CREATED, ATTEMPTS,
                   RECOVERY, SUBMITTED, INDEXED, UPGRADE]
  const TRANSACTION_FIELDS := [EXACT_JSON, DIGEST]
  const ATTEMPT_FIELDS := [AT, OUTCOME]
  const BINDING_FIELDS := [KIND, EXPECTED_TRANSACTION, EXPECTED_PLAN, REQUESTED_PLAN, CATALOGUE]

  /** A field of the structure may be given once; unknown members are skipped. */
  predicate NoDuplicates(m: seq<Entry>, fields: seq<string>) {
    forall i, j :: 0 <= i < j < |m| && m[i].name in fields ==> m[i].name != m[j].name
  }

  predicate HasTexts(m: seq<Entry>, fields: seq<string>) {
    forall i :: 0 <= i < |fields| ==> TextAt(m, fields[i]).Some?
  }

  predicate IsOptionalText(m: seq<Entry>, name: string) { IsMissing(m, name) || TextAt(m, name).Some? }

  predicate IsAttemptObject(j: Json) {
    && j.Object? && NoDuplicates(j.members, ATTEMPT_FIELDS) && HasTexts(j.members, ATTEMPT_FIELDS)
  }

  predicate IsBindingObject(j: Json) {
    && j.Object? && NoDuplicates(j.members, BINDING_FIELDS) && HasTexts(j.members, BINDING_FIELDS)
  }

  predicate IsTransactionObject(j: Json) {
    && j.Object? && NoDuplicates(j.members, TRANSACTION_FIELDS) && HasTexts(j.members, TRANSACTION_FIELDS)
  }

  predicate AreAttemptObjects(j: Json) {
    j.List? && forall i :: 0 <= i < |j.items| ==> IsAttemptObject(j.items[i])
  }

  /** What the derived deserialisation asks of the members. */
  predicate IsRecordObject(m: seq<Entry>) {
    && NoDuplicates(m, FIELDS)
    && Get(m, SCHEMA).Some? && Get(m, SCHEMA).value.Number? && Get(m, SCHEMA).value.n < 0x1_0000_0000
    && HasTexts(m, [PURPOSE_NAME, TRANSACTION_ID, IDENTITY, NETWORK, TARGET, CREATED, RECOVERY])
    && Get(m, TRANSACTION).Some? && IsTransactionObject(Get(m, TRANSACTION).value)
    && Get(m, ATTEMPTS).Some? && AreAttemptObjects(Get(m, ATTEMPTS).value)
    && IsOptionalText(m, SUBMITTED) && IsOptionalText(m, INDEXED)
    && (IsMissing(m, UPGRADE) || IsBindingObject(Get(m, UPGRADE).value))
  }

  function NativeAttempts(items: seq<Json>): seq<Attempt>
    requires AreAttemptObjects(List(items))
  {
    seq(|items|, i requires 0 <= i < |items| => NativeAttempt(items[i]))
  }

  function NativeAttempt(j: Json): Attempt
    requires IsAttemptObject(j)
  {
    assert ATTEMPT_FIELDS[0] == AT && ATTEMPT_FIELDS[1] == OUTCOME;
    Attempt(TextAt(j.members, AT).value, TextAt(j.members, OUTCOME).value)
  }

  function NativeBinding(j: Json): Binding
    requires IsBindingObject(j)
  {
    var m, f := j.members, BINDING_FIELDS;
    Binding(TextAt(m, f[0]).value, TextAt(m, f[1]).value, TextAt(m, f[2]).value, TextAt(m, f[3]).value,
            TextAt(m, f[4]).value)
  }

  function Deserialized(m: seq<Entry>): Stored
    requires IsRecordObject(m)
  {
    var texts := [PURPOSE_NAME, TRANSACTION_ID, IDENTITY, NETWORK, TARGET, CREATED, RECOVERY];
    var tx := Get(m, TRANSACTION).value.members;
    Stored(Get(m, SCHEMA).value.n, TextAt(m, texts[0]).value,
           TextAt(tx, TRANSACTION_FIELDS[0]).value, TextAt(tx, TRANSACTION_FIELDS[1]).value,
           TextAt(m, texts[1]).value, TextAt(m, texts[2]).value, TextAt(m, texts[3]).value,
           TextAt(m, texts[4]).value, TextAt(m, texts[5]).value,
           NativeAttempts(Get(m, ATTEMPTS).value.items), TextAt(m, texts[6]).value,
           TextAt(m, SUBMITTED), TextAt(m, INDEXED),
           if IsMissing(m, UPGRADE) then None else Some(NativeBinding(Get(m, UPGRADE).value)))
  }

  /** `parse_record_json`; None is its error. */
  function NativeParse(digestOf: string -> string, text: string): Option<Stored> {
    var j := ReadAll(text);
    if j.None? || !j.value.Object? || !IsRecordObject(j.value.members) then None
    else if !NativeValid(digestOf, Deserialized(j.value.members)) then None
    else Some(Deserialized(j.value.members))
  }

  lemma NamesAreDistinct(r: Stored)
    ensures Distinct(Members(r))
  {
    hide Tag, Always;
    Tags();
    AlwaysFound(r);
    var m := Members(r);
    forall i | 0 <= i < 10
      ensures Tag(m[i].name) == i
    {
      AlwaysTagged(r, i);
      assert m[i] == Always(r)[i];
    }
    var tail := m[10..];
    assert tail
        == IfText(SUBMITTED, r.submittedUtc) + IfText(INDEXED, r.indexObservedUtc) + IfBinding(r.upgradeBinding);
    forall i, j | 0 <= i < j < |m|
      ensures Tag(m[i].name) < Tag(m[j].name)
    {
      if j >= 10 {
        assert m[j] == tail[j - 10];
        if i >= 10 { assert m[i] == tail[i - 10]; }
      }
    }
  }

  lemma AttemptIsRead(a: Attempt)
    ensures IsAttemptObject(AttemptJson(a)) && NativeAttempt(AttemptJson(a)) == a
  {
    AttemptFound(a);
    assert |AT| == 2 && |OUTCOME| == 7;
  }

  lemma BindingIsRead(b: Binding)
    ensures IsBindingObject(BindingJson(b)) && NativeBinding(BindingJson(b)) == b
  {
    hide Get;
    BindingFound(b);
    var m := BindingJson(b).members;
    assert |m[0].name| == 4 && |m[1].name| == 35 && |m[2].name| == 21 && |m[3].name| == 15 && |m[4].name| == 24;
  }

  lemma TransactionIsRead(r: Stored)
    ensures IsTransactionObject(TransactionJson(r))
  {
    hide Get;
    TransactionFound(r);
    assert |EXACT_JSON| == 9 && |DIGEST| == 6;
  }

  lemma AttemptsAreRead(attempts: seq<Attempt>)
    ensures AreAttemptObjects(List(AttemptsJson(attempts))) && NativeAttempts(AttemptsJson(attempts)) == attempts
  {
    hide IsAttemptObject, AttemptJson, NativeAttempt;
    forall i | 0 <= i < |attempts|
      ensures IsAttemptObject(AttemptsJson(attempts)[i]) && NativeAttempt(AttemptsJson(attempts)[i]) == attempts[i]
    {
      AttemptIsRead(attempts[i]);
    }
  }

  /** The native reader recovers any record from its text, up to the width of the schema number. */
  lemma WrittenIsDeserialized(r: Stored)
    ensures IsRecordObject(Members(r)) <==> r.schemaVersion < 0x1_0000_0000
    ensures IsRecordObject(Members(r)) ==> Deserialized(Members(r)) == r
  {
    hide Get, Members, AttemptsJson, BindingJson, TransactionJson, AreAttemptObjects, IsBindingObject,
         IsTransactionObject, NativeAttempts, NativeBinding;
    NamesAreDistinct(r);
    MembersFound(r);
    TransactionFound(r);
    TransactionIsObject(r);
    TransactionIsRead(r);
    AttemptsAreRead(r.attemptEvidence);
    if r.upgradeBinding.Some? { BindingIsRead(r.upgradeBinding.value); BindingIsObject(r.upgradeBinding.value); }
  }

  /**
    The two languages meet on the text: what the web writes is read by the native authority as
    the same record, and accepted exactly when the record passes the native checks; for a record
    the web accepts, that is exactly when it fits in bytes.
  */
  lemma WebTextIsNative(digestOf: string -> string, r: Stored)
    ensures NativeParse(digestOf, TextOf(r)) == if NativeValid(digestOf, r) then Some(r) else None
    ensures IsValid(digestOf, r) ==>
              (NativeParse(digestOf, TextOf(r)) == ParseText(digestOf, TextOf(r)) <==> FitsBytes(r))
  {
    hide Print, ReadAll, Members, IsRecordObject, Deserialized, FitsBytes, IsValid;
    StringifiedIsParsed(Object(Members(r)));
    WrittenIsDeserialized(r);
    TextIsParsedBack(digestOf, r);
    assert NativeValid(digestOf, r) ==> r.schemaVersion < 0x1_0000_0000;
    if IsValid(digestOf, r) { NativeAcceptsExactly(digestOf, r); }
  }
}
