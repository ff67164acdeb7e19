/**
  The text of a sealed pending record and its two validators: the web codec
  (licensing/pending-transaction.ts) and the native one (licensing_record.rs). Every valid record
  is read back from its text, and the native authority accepts what the web one does exactly when
  the texts of the record also fit its bounds in bytes.
*/
module PendingCodec {
  import opened Wrappers
  import opened TextFormats
  import opened LicenceContracts
  import opened JsonText

  const PURPOSE := "pending_licence_transaction"
  const SCHEMA_VERSION := 1
  const MAX_JSON := 65_536
  const MAX_ATTEMPTS := 64
  const MAX_ID := 128
  const MAX_IDENTITY := 130
  const MAX_CATALOGUE := 256

  const TARGETS := ["web-sharedworker", "ubuntu-native", "android-native"]
  const RECOVERY_STATES :=
    ["sealed", "waitingAccepted", "waitingPending", "confirmedIndexed", "superseded", "retired", "unrecoverable"]
  const ATTEMPT_OUTCOMES := ["accepted", "pending", "alreadyExists", "uncertain", "terminalRejected", "superseded"]

  datatype Attempt = Attempt(at: string, outcome: string)

  datatype Binding = Binding(kind: string, expectedCurrentTransactionId: string, expectedCurrentPlanId: string,
                             requestedPlanId: string, observedCatalogueVersion: string)

  datatype Stored = Stored(
    schemaVersion: nat, purpose: string, exactJson: string, digest: string, transactionId: string,
    identityBinding: string, networkBinding: string, targetBinding: string, createdUtc: string,
    attemptEvidence: seq<Attempt>, recoveryState: string,
    submittedUtc: Option<string>, indexObservedUtc: Option<string>, upgradeBinding: Option<Binding>)

  // the member names, in their frozen order
  const SCHEMA := "schemaVersion"
  const PURPOSE_NAME := "purpose"
  const TRANSACTION := "transaction"
  const TRANSACTION_ID := "transactionId"
  const IDENTITY := "identityBinding"
  const NETWORK := "networkBinding"
  const TARGET := "targetBinding"
  const CREATED := "createdUtc"
  const ATTEMPTS := "attemptEvidence"
  const RECOVERY := "recoveryState"
  const SUBMITTED := "submittedUtc"
  const INDEXED := "indexObservedUtc"
  const UPGRADE := "upgradeBinding"
  const EXACT_JSON := "exactJson"
  const DIGEST := "digest"
  const AT := "at"
  const OUTCOME := "outcome"
  const KIND := "kind"
  const EXPECTED_TRANSACTION := "expectedCurrentLicenceTransactionId"
  const EXPECTED_PLAN := "expectedCurrentPlanId"
  const REQUESTED_PLAN := "requestedPlanId"
  const CATALOGUE := "observedCatalogueVersion"

  // ----- writing ------------------------------------------------------------------------------

  function AttemptJson(a: Attempt): Json { Object([Entry(AT, Text(a.at)), Entry(OUTCOME, Text(a.outcome))]) }

  function BindingJson(b: Binding): Json {
    Object([Entry(KIND, Text(b.kind)), Entry(EXPECTED_TRANSACTION, Text(b.expectedCurrentTransactionId)),
            Entry(EXPECTED_PLAN, Text(b.expectedCurrentPlanId)), Entry(REQUESTED_PLAN, Text(b.requestedPlanId)),
            Entry(CATALOGUE, Text(b.observedCatalogueVersion))])
  }

  function AttemptsJson(attempts: seq<Attempt>): seq<Json> {
    seq(|attempts|, i requires 0 <= i < |attempts| => AttemptJson(attempts[i]))
  }

  function Always(r: Stored): seq<Entry> {
    [Entry(SCHEMA, Number(r.schemaVersion)), Entry(PURPOSE_NAME, Text(r.purpose)),
     Entry(TRANSACTION, Object([Entry(EXACT_JSON, Text(r.exactJson)), Entry(DIGEST, Text(r.digest))])),
     Entry(TRANSACTION_ID, Text(r.transactionId)), Entry(IDENTITY, Text(r.identityBinding)),
     Entry(NETWORK, Text(r.networkBinding)), Entry(TARGET, Text(r.targetBinding)),
     Entry(CREATED, Text(r.createdUtc)), Entry(ATTEMPTS, List(AttemptsJson(r.attemptEvidence))),
     Entry(RECOVERY, Text(r.recoveryState))]
  }

  function IfText(name: string, value: Option<string>): seq<Entry> {
    if value.None? then [] else [Entry(name, Text(value.value))]
  }

  function IfBinding(value: Option<Binding>): seq<Entry> {
    if value.None? then [] else [Entry(UPGRADE, BindingJson(value.value))]
  }

  function Members(r: Stored): seq<Entry> {
    Always(r) + IfText(SUBMITTED, r.submittedUtc) + IfText(INDEXED, r.indexObservedUtc) + IfBinding(r.upgradeBinding)
  }

  /** `serializePendingLicenceRecord`: optional members are appended, the binding last. */
  method Serialize(r: Stored) returns (text: string)
    ensures text == Print(Object(Members(r)))
  {
    hide Print, Always;
    var json := Always(r);
    if r.submittedUtc.Some? { json := json + [Entry(SUBMITTED, Text(r.submittedUtc.value))]; }
    if r.indexObservedUtc.Some? { json := json + [Entry(INDEXED, Text(r.indexObservedUtc.value))]; }
    if r.upgradeBinding.Some? { json := json + [Entry(UPGRADE, BindingJson(r.upgradeBinding.value))]; }
    assert json == Members(r);
    text := Print(Object(json));
  }

  function TextOf(r: Stored): string { Print(Object(Members(r))) }

  // ----- the web parser -----------------------------------------------------------------------

  /** The text of a member, when it is one. */
  function TextAt(members: seq<Entry>, name: string): Option<string> {
    var value := Get(members, name);
    if value.Some? && value.value.Text? then Some(value.value.s) else None
  }

  predicate HasBoundedText(members: seq<Entry>, name: string, max: nat) {
    TextAt(members, name).Some? && IsBounded(TextAt(members, name).value, max)
  }

  predicate HasInstant(members: seq<Entry>, name: string) {
    TextAt(members, name).Some? && MatchesUtcInstant(TextAt(members, name).value)
  }

  predicate IsMissing(members: seq<Entry>, name: string) {
    Get(members, name).None? || Get(members, name).value.Null?
  }

  function ParseBinding(j: Json): Option<Binding> {
    if !j.Object? then None
    else
      var m := j.members;
      if TextAt(m, KIND) != Some(INTENT_CONFIRMED_UPGRADE) then None
      else if !HasBoundedText(m, EXPECTED_TRANSACTION, MAX_ID)
              || !MatchesUuid(TextAt(m, EXPECTED_TRANSACTION).value) then None
      else if !HasBoundedText(m, EXPECTED_PLAN, MAX_ID) || !HasBoundedText(m, REQUESTED_PLAN, MAX_ID) then None
      else if TextAt(m, REQUESTED_PLAN) == TextAt(m, EXPECTED_PLAN) then None
      else if TextAt(m, REQUESTED_PLAN).value == PLAN_DIRECT_FREE then None
      else if !HasBoundedText(m, CATALOGUE, MAX_CATALOGUE)
              || TextAt(m, CATALOGUE).value != CATALOGUE_VERSION_V1 then None
      else
        Some(Binding(INTENT_CONFIRMED_UPGRADE, TextAt(m, EXPECTED_TRANSACTION).value,
                     TextAt(m, EXPECTED_PLAN).value, TextAt(m, REQUESTED_PLAN).value, TextAt(m, CATALOGUE).value))
  }

  predicate IsAttempt(j: Json) {
    && j.Object? && HasInstant(j.members, AT)
    && TextAt(j.members, OUTCOME).Some? && TextAt(j.members, OUTCOME).value in ATTEMPT_OUTCOMES
  }

  predicate AreAttempts(items: seq<Json>) { forall i :: 0 <= i < |items| ==> IsAttempt(items[i]) }

  function AttemptsOf(items: seq<Json>): seq<Attempt>
    requires AreAttempts(items)
  {
    seq(|items|, i requires 0 <= i < |items| =>
      Attempt(TextAt(items[i].members, AT).value, TextAt(items[i].members, OUTCOME).value))
  }

  /** The checks up to the optional members. */
  predicate HasFrame(digestOf: string -> string, m: seq<Entry>) {
    && Get(m, SCHEMA) == Some(Number(SCHEMA_VERSION)) && TextAt(m, PURPOSE_NAME) == Some(PURPOSE)
    && Get(m, TRANSACTION).Some? && Get(m, TRANSACTION).value.Object?
    && var tx := Get(m, TRANSACTION).value.members;
    && HasBoundedText(tx, EXACT_JSON, MAX_JSON)
    && TextAt(tx, DIGEST).Some? && |TextAt(tx, DIGEST).value| == 64 && AllLowerHex(TextAt(tx, DIGEST).value)
    && digestOf(TextAt(tx, EXACT_JSON).value) == TextAt(tx, DIGEST).value
    && HasBoundedText(m, TRANSACTION_ID, MAX_ID) && MatchesUuid(TextAt(m, TRANSACTION_ID).value)
    && HasBoundedText(m, IDENTITY, MAX_IDENTITY) && HasBoundedText(m, NETWORK, MAX_ID)
    && TextAt(m, TARGET).Some? && TextAt(m, TARGET).value in TARGETS
    && HasInstant(m, CREATED)
    && (IsMissing(m, SUBMITTED) || HasInstant(m, SUBMITTED))
    && (IsMissing(m, INDEXED) || HasInstant(m, INDEXED))
    && TextAt(m, RECOVERY).Some? && TextAt(m, RECOVERY).value in RECOVERY_STATES
  }

  /** The binding is absent, or parses and names another transaction. */
  predicate HasBinding(m: seq<Entry>) {
    IsMissing(m, UPGRADE)
    || (ParseBinding(Get(m, UPGRADE).value).Some?
        && Some(ParseBinding(Get(m, UPGRADE).value).value.expectedCurrentTransactionId) != TextAt(m, TRANSACTION_ID))
  }

  predicate HasAttempts(m: seq<Entry>) {
    && Get(m, ATTEMPTS).Some? && Get(m, ATTEMPTS).value.List?
    && |Get(m, ATTEMPTS).value.items| <= MAX_ATTEMPTS && AreAttempts(Get(m, ATTEMPTS).value.items)
  }

  /** The record built from the checked members. */
  function Build(digestOf: string -> string, m: seq<Entry>): Stored
    requires HasFrame(digestOf, m) && HasBinding(m) && HasAttempts(m)
  {
    var tx := Get(m, TRANSACTION).value.members;
    Stored(SCHEMA_VERSION, PURPOSE, TextAt(tx, EXACT_JSON).value, TextAt(tx, DIGEST).value,
           TextAt(m, TRANSACTION_ID).value, TextAt(m, IDENTITY).value, TextAt(m, NETWORK).value,
           TextAt(m, TARGET).value, TextAt(m, CREATED).value,
           AttemptsOf(Get(m, ATTEMPTS).value.items), TextAt(m, RECOVERY).value,
           TextAt(m, SUBMITTED), TextAt(m, INDEXED),
           if IsMissing(m, UPGRADE) then None else ParseBinding(Get(m, UPGRADE).value))
  }

  /** `parsePendingLicenceRecord`; None is its null. */
  function Parse(digestOf: string -> string, j: Json): Option<Stored> {
    if !j.Object? || !HasFrame(digestOf, j.members) || !HasBinding(j.members) || !HasAttempts(j.members) then None
    else Some(Build(digestOf, j.members))
  }

  method ParsePendingRecord(digestOf: string -> string, j: Json) returns (record: Option<Stored>)
    ensures record == Parse(digestOf, j)
  {
    hide HasFrame, ParseBinding, IsAttempt, Get, Build;
    if !j.Object? { return None; }
    var m := j.members;
    if !HasFrame(digestOf, m) { return None; }
    if !IsMissing(m, UPGRADE) {
      var binding := ParseBinding(Get(m, UPGRADE).value);
      if binding.None? || Some(binding.value.expectedCurrentTransactionId) == TextAt(m, TRANSACTION_ID) {
        return None;
      }
    }
    var attempts := Get(m, ATTEMPTS);
    if attempts.None? || !attempts.value.List? || |attempts.value.items| > MAX_ATTEMPTS { return None; }
    var items := attempts.value.items;
    for i := 0 to |items|
      invariant forall k :: 0 <= k < i ==> IsAttempt(items[k])
    {
      if !IsAttempt(items[i]) { return None; }
    }
    return Some(Build(digestOf, m));
  }

  /** `parsePendingLicenceRecordJson` */
  function ParseText(digestOf: string -> string, text: string): Option<Stored> {
    var j := ReadAll(text);
    if j.None? then None else Parse(digestOf, j.value)
  }

  // ----- what a valid record is ---------------------------------------------------------------

  predicate IsValidBinding(b: Binding) {
    && b.kind == INTENT_CONFIRMED_UPGRADE
    && IsBounded(b.expectedCurrentTransactionId, MAX_ID) && MatchesUuid(b.expectedCurrentTransactionId)
    && IsBounded(b.expectedCurrentPlanId, MAX_ID) && IsBounded(b.requestedPlanId, MAX_ID)
    && b.requestedPlanId != b.expectedCurrentPlanId && b.requestedPlanId != PLAN_DIRECT_FREE
    && IsBounded(b.observedCatalogueVersion, MAX_CATALOGUE) && b.observedCatalogueVersion == CATALOGUE_VERSION_V1
  }

  predicate IsValidAttempt(a: Attempt) { MatchesUtcInstant(a.at) && a.outcome in ATTEMPT_OUTCOMES }

  predicate IsInstantOrAbsent(value: Option<string>) { value.Some? ==> MatchesUtcInstant(value.value) }

  predicate IsValid(digestOf: string -> string, r: Stored) {
    && r.schemaVersion == SCHEMA_VERSION && r.purpose == PURPOSE
    && IsBounded(r.exactJson, MAX_JSON)
    && |r.digest| == 64 && AllLowerHex(r.digest) && digestOf(r.exactJson) == r.digest
    && IsBounded(r.transactionId, MAX_ID) && MatchesUuid(r.transactionId)
    && IsBounded(r.identityBinding, MAX_IDENTITY) && IsBounded(r.networkBinding, MAX_ID)
    && r.targetBinding in TARGETS && r.recoveryState in RECOVERY_STATES
    && MatchesUtcInstant(r.createdUtc)
    && IsInstantOrAbsent(r.submittedUtc) && IsInstantOrAbsent(r.indexObservedUtc)
    && (r.upgradeBinding.Some? ==>
        IsValidBinding(r.upgradeBinding.value)
        && r.upgradeBinding.value.expectedCurrentTransactionId != r.transactionId)
    && |r.attemptEvidence| <= MAX_ATTEMPTS
    && forall i :: 0 <= i < |r.attemptEvidence| ==> IsValidAttempt(r.attemptEvidence[i])
  }

  // ----- members are found by their names -----------------------------------------------------

  /** Tells the names apart by their lengths and first letters. */
  function Tag(name: string): nat {
    match |name|
    case 7 => 1
    case 11 => 2
    case 13 => if name[0] == 's' then 0 else if name[0] == 'r' then 9 else if name[1] == 'r' then 3 else 6
    case 15 => if name[0] == 'i' then 4 else 8
    case 14 => if name[0] == 'n' then 5 else 12
    case 10 => 7
    case 12 => 10
    case 16 => 11
    case _ => 13
  }

  lemma Tags()
    ensures Tag(SCHEMA) == 0 && Tag(PURPOSE_NAME) == 1 && Tag(TRANSACTION) == 2 && Tag(TRANSACTION_ID) == 3
    ensures Tag(IDENTITY) == 4 && Tag(NETWORK) == 5 && Tag(TARGET) == 6 && Tag(CREATED) == 7
    ensures Tag(ATTEMPTS) == 8 && Tag(RECOVERY) == 9 && Tag(SUBMITTED) == 10 && Tag(INDEXED) == 11
    ensures Tag(UPGRADE) == 12
  {
  }

  lemma AlwaysTagged(r: Stored, i: nat)
    requires i < 10
    ensures Tag(Always(r)[i].name) == i
  {
    hide Tag;
    Tags();
  }

  lemma AlwaysFound(r: Stored)
    ensures var m := Always(r);
            && |m| == 10
            && forall i :: 0 <= i < 10 ==> Get(m, m[i].name) == Some(m[i].value)
  {
    hide Tag, Get;
    var m := Always(r);
    forall i | 0 <= i < 10
      ensures Tag(m[i].name) == i
    {
      AlwaysTagged(r, i);
    }
    forall i | 0 <= i < 10
      ensures Get(m, m[i].name) == Some(m[i].value)
    {
      GetIs(m, i);
    }
  }

  /** What a member of a record's text holds, by the tag of its name. */
  lemma MemberFound(r: Stored, name: string)
    ensures Tag(name) == 10 && name == SUBMITTED ==> Get(Members(r), name) == AsText(r.submittedUtc)
    ensures Tag(name) == 11 && name == INDEXED ==> Get(Members(r), name) == AsText(r.indexObservedUtc)
    ensures Tag(name) == 12 && name == UPGRADE ==> Get(Members(r), name) == AsBinding(r.upgradeBinding)
    ensures Tag(name) < 10 ==> Get(Members(r), name) == Get(Always(r), name)
  {
    hide Tag, Always;
    Tags();
    var s, x, b := IfText(SUBMITTED, r.submittedUtc), IfText(INDEXED, r.indexObservedUtc), IfBinding(r.upgradeBinding);
    GetConcat(Always(r), s, name);
    GetConcat(Always(r) + s, x, name);
    GetConcat(Always(r) + s + x, b, name);
    if Tag(name) >= 10 { AlwaysHasNo(r, name); }
  }

  lemma AlwaysHasNo(r: Stored, name: string)
    requires Tag(name) >= 10
    ensures Get(Always(r), name) == None
  {
    hide Tag;
    forall i | 0 <= i < 10
      ensures Always(r)[i].name != name
    {
      AlwaysTagged(r, i);
    }
    GetNone(Always(r), name);
  }

  function AsText(value: Option<string>): Option<Json> { if value.None? then None else Some(Text(value.value)) }

  function AsBinding(value: Option<Binding>): Option<Json> {
    if value.None? then None else Some(BindingJson(value.value))
  }

  function TransactionJson(r: Stored): Json {
    Object([Entry(EXACT_JSON, Text(r.exactJson)), Entry(DIGEST, Text(r.digest))])
  }

  lemma MembersFound(r: Stored)
    ensures var m := Members(r);
            && Get(m, SCHEMA) == Some(Number(r.schemaVersion)) && Get(m, PURPOSE_NAME) == Some(Text(r.purpose))
            && Get(m, TRANSACTION) == Some(TransactionJson(r))
            && Get(m, TRANSACTION_ID) == Some(Text(r.transactionId))
            && Get(m, IDENTITY) == Some(Text(r.identityBinding)) && Get(m, NETWORK) == Some(Text(r.networkBinding))
            && Get(m, TARGET) == Some(Text(r.targetBinding)) && Get(m, CREATED) == Some(Text(r.createdUtc))
            && Get(m, ATTEMPTS) == Some(List(AttemptsJson(r.attemptEvidence)))
            && Get(m, RECOVERY) == Some(Text(r.recoveryState))
            && Get(m, SUBMITTED) == AsText(r.submittedUtc) && Get(m, INDEXED) == AsText(r.indexObservedUtc)
            && Get(m, UPGRADE) == AsBinding(r.upgradeBinding)
  {
    hide Tag, Get, Members;
    Tags();
    AlwaysFound(r);
    var a := Always(r);
    assert Get(a, a[0].name) == Some(a[0].value) && Get(a, a[1].name) == Some(a[1].value);
    assert Get(a, a[2].name) == Some(a[2].value) && Get(a, a[3].name) == Some(a[3].value);
    assert Get(a, a[4].name) == Some(a[4].value) && Get(a, a[5].name) == Some(a[5].value);
    assert Get(a, a[6].name) == Some(a[6].value) && Get(a, a[7].name) == Some(a[7].value);
    assert Get(a, a[8].name) == Some(a[8].value) && Get(a, a[9].name) == Some(a[9].value);
    MemberFound(r, SCHEMA);
    MemberFound(r, PURPOSE_NAME);
    MemberFound(r, TRANSACTION);
    MemberFound(r, TRANSACTION_ID);
    MemberFound(r, IDENTITY);
    MemberFound(r, NETWORK);
    MemberFound(r, TARGET);
    MemberFound(r, CREATED);
    MemberFound(r, ATTEMPTS);
    MemberFound(r, RECOVERY);
    MemberFound(r, SUBMITTED);
    MemberFound(r, INDEXED);
    MemberFound(r, UPGRADE);
  }

  lemma TransactionFound(r: Stored)
    ensures var tx := TransactionJson(r).members;
            Get(tx, EXACT_JSON) == Some(Text(r.exactJson)) && Get(tx, DIGEST) == Some(Text(r.digest))
  {
    var tx := TransactionJson(r).members;
    assert |EXACT_JSON| == 9 && |DIGEST| == 6;
    GetIs(tx, 0);
    GetIs(tx, 1);
  }

  lemma AttemptFound(a: Attempt)
    ensures var m := AttemptJson(a).members;
            Get(m, AT) == Some(Text(a.at)) && Get(m, OUTCOME) == Some(Text(a.outcome))
  {
    var m := AttemptJson(a).members;
    assert |AT| == 2 && |OUTCOME| == 7;
    GetIs(m, 0);
    GetIs(m, 1);
  }

  lemma BindingFound(b: Binding)
    ensures var m := BindingJson(b).members;
            && Get(m, KIND) == Some(Text(b.kind))
            && Get(m, EXPECTED_TRANSACTION) == Some(Text(b.expectedCurrentTransactionId))
            && Get(m, EXPECTED_PLAN) == Some(Text(b.expectedCurrentPlanId))
            && Get(m, REQUESTED_PLAN) == Some(Text(b.requestedPlanId))
            && Get(m, CATALOGUE) == Some(Text(b.observedCatalogueVersion))
  {
    hide Get;
    var m := BindingJson(b).members;
    assert |m[0].name| == 4 && |m[1].name| == 35 && |m[2].name| == 21 && |m[3].name| == 15 && |m[4].name| == 24;
    GetIs(m, 0);
    GetIs(m, 1);
    GetIs(m, 2);
    GetIs(m, 3);
    GetIs(m, 4);
  }

  // ----- the round trip -----------------------------------------------------------------------

  lemma BindingIsParsed(b: Binding)
    ensures ParseBinding(BindingJson(b)) == if IsValidBinding(b) then Some(b) else None
  {
    hide Get, MatchesUuid, IsBounded;
    BindingFound(b);
  }

  lemma AttemptsAreParsed(attempts: seq<Attempt>)
    ensures AreAttempts(AttemptsJson(attempts))
       <==> forall i :: 0 <= i < |attempts| ==> IsValidAttempt(attempts[i])
    ensures AreAttempts(AttemptsJson(attempts)) ==> AttemptsOf(AttemptsJson(attempts)) == attempts
  {
    hide Get, MatchesUtcInstant;
    var items := AttemptsJson(attempts);
    forall i | 0 <= i < |attempts|
      ensures IsAttempt(items[i]) <==> IsValidAttempt(attempts[i])
      ensures TextAt(items[i].members, AT) == Some(attempts[i].at)
      ensures TextAt(items[i].members, OUTCOME) == Some(attempts[i].outcome)
    {
      AttemptFound(attempts[i]);
    }
  }

  lemma FrameIsChecked(digestOf: string -> string, r: Stored)
    ensures var m := Members(r);
            HasFrame(digestOf, m) && HasBinding(m) && HasAttempts(m) <==> IsValid(digestOf, r)
  {
    hide Get, MatchesUuid, MatchesUtcInstant, IsBounded, Members, ParseBinding, BindingJson, IsValidBinding,
         AllLowerHex, AreAttempts, AttemptsJson, IsValidAttempt, TransactionJson;
    MembersFound(r);
    TransactionFound(r);
    assert TransactionJson(r).Object? by { TransactionIsObject(r); }
    AttemptsAreParsed(r.attemptEvidence);
    AttemptCount(r.attemptEvidence);
    if r.upgradeBinding.Some? { BindingIsParsed(r.upgradeBinding.value); BindingIsObject(r.upgradeBinding.value); }
  }

  lemma TransactionIsObject(r: Stored)
    ensures TransactionJson(r).Object?
  {
  }

  lemma BindingIsObject(b: Binding)
    ensures BindingJson(b).Object?
  {
  }

  lemma AttemptCount(attempts: seq<Attempt>)
    ensures |AttemptsJson(attempts)| == |attempts|
  {
  }

  /** A record is read back from the members of its text exactly when it is valid. */
  lemma WrittenIsParsed(digestOf: string -> string, r: Stored)
    ensures Parse(digestOf, Object(Members(r))) == if IsValid(digestOf, r) then Some(r) else None
  {
    hide Members, HasFrame, HasBinding, HasAttempts, IsValid, Build;
    FrameIsChecked(digestOf, r);
    if IsValid(digestOf, r) { BuiltIs(digestOf, r); }
  }

  lemma BuiltIs(digestOf: string -> string, r: Stored)
    requires IsValid(digestOf, r)
    requires HasFrame(digestOf, Members(r)) && HasBinding(Members(r)) && HasAttempts(Members(r))
    ensures Build(digestOf, Members(r)) == r
  {
    hide Get, MatchesUuid, MatchesUtcInstant, IsBounded, Members, ParseBinding, BindingJson, AllLowerHex,
         AreAttempts, AttemptsJson, IsValidAttempt, TransactionJson, HasFrame, HasBinding;
    MembersFound(r);
    TransactionFound(r);
    AttemptsAreParsed(r.attemptEvidence);
    if r.upgradeBinding.Some? { BindingIsParsed(r.upgradeBinding.value); BindingIsObject(r.upgradeBinding.value); }
  }

  /**
    Round trip on texts: parsing the serialised text gives the record back exactly when the
    record is valid, and nothing otherwise.
  */
  lemma TextIsParsedBack(digestOf: string -> string, r: Stored)
    ensures ParseText(digestOf, TextOf(r)) == if IsValid(digestOf, r) then Some(r) else None
  {
    hide Print, ReadAll, Members, Parse, IsValid;
    StringifiedIsParsed(Object(Members(r)));
    WrittenIsParsed(digestOf, r);
  }

  /** Whatever text is accepted, the record it yields is valid, so it can be written and read again. */
  lemma ParsedIsValid(digestOf: string -> string, j: Json)
    requires Parse(digestOf, j).Some?
    ensures IsValid(digestOf, Parse(digestOf, j).value)
  {
    hide Get, MatchesUuid, MatchesUtcInstant, IsBounded, AllLowerHex;
  }

  // ----- the frozen form ----------------------------------------------------------------------

  function FrozenAttempt(a: Attempt): Json { Object([Entry("at", Text(a.at)), Entry("outcome", Text(a.outcome))]) }

  function FrozenAttempts(attempts: seq<Attempt>): seq<Json> {
    seq(|attempts|, i requires 0 <= i < |attempts| => FrozenAttempt(attempts[i]))
  }

  function FrozenBinding(b: Binding): Json {
    Object([Entry("kind", Text(b.kind)),
            Entry("expectedCurrentLicenceTransactionId", Text(b.expectedCurrentTransactionId)),
            Entry("expectedCurrentPlanId", Text(b.expectedCurrentPlanId)),
            Entry("requestedPlanId", Text(b.requestedPlanId)),
            Entry("observedCatalogueVersion", Text(b.observedCatalogueVersion))])
  }

  /** The members of a stored record under their literal names and in their order. */
  function FrozenRecord(r: Stored): seq<Entry> {
    [Entry("schemaVersion", Number(r.schemaVersion)), Entry("purpose", Text(r.purpose)),
     Entry("transaction", Object([Entry("exactJson", Text(r.exactJson)), Entry("digest", Text(r.digest))])),
     Entry("transactionId", Text(r.transactionId)), Entry("identityBinding", Text(r.identityBinding)),
     Entry("networkBinding", Text(r.networkBinding)), Entry("targetBinding", Text(r.targetBinding)),
     Entry("createdUtc", Text(r.createdUtc)),
     Entry("attemptEvidence", List(FrozenAttempts(r.attemptEvidence))),
     Entry("recoveryState", Text(r.recoveryState))]
    + (if r.submittedUtc.Some? then [Entry("submittedUtc", Text(r.submittedUtc.value))] else [])
    + (if r.indexObservedUtc.Some? then [Entry("indexObservedUtc", Text(r.indexObservedUtc.value))] else [])
    + (if r.upgradeBinding.Some? then [Entry("upgradeBinding", FrozenBinding(r.upgradeBinding.value))] else [])
  }

  /** The stored text parses to exactly these members, absent optional ones left out. */
  lemma TextIsFrozen(r: Stored)
    ensures ReadAll(TextOf(r)) == Some(Object(FrozenRecord(r)))
  {
    hide ReadAll, Print;
    assert AttemptsJson(r.attemptEvidence) == FrozenAttempts(r.attemptEvidence);
    assert Members(r) == FrozenRecord(r);
    StringifiedIsParsed(Object(Members(r)));
  }

  /** What a valid record is, with every bound and every name written out. */
  lemma ValidExactly(digestOf: string -> string, r: Stored)
    ensures IsValid(digestOf, r) <==>
              && r.schemaVersion == 1 && r.purpose == "pending_licence_transaction"
              && IsBounded(r.exactJson, 65_536)
              && |r.digest| == 64 && AllLowerHex(r.digest) && r.digest == digestOf(r.exactJson)
              && IsBounded(r.transactionId, 128) && MatchesUuid(r.transactionId)
              && IsBounded(r.identityBinding, 130) && IsBounded(r.networkBinding, 128)
              && r.targetBinding in ["web-sharedworker", "ubuntu-native", "android-native"]
              && r.recoveryState in ["sealed", "waitingAccepted", "waitingPending", "confirmedIndexed", "superseded",
                                     "retired", "unrecoverable"]
              && MatchesUtcInstant(r.createdUtc)
              && (r.submittedUtc.Some? ==> MatchesUtcInstant(r.submittedUtc.value))
              && (r.indexObservedUtc.Some? ==> MatchesUtcInstant(r.indexObservedUtc.value))
              && (r.upgradeBinding.Some? ==> IsUpgradeOf(r.upgradeBinding.value, r.transactionId))
              && |r.attemptEvidence| <= 64
              && forall a :: a in r.attemptEvidence ==>
                   && MatchesUtcInstant(a.at)
                   && a.outcome in ["accepted", "pending", "alreadyExists", "uncertain", "terminalRejected",
                                    "superseded"]
  {
    hide IsBounded, MatchesUuid, MatchesUtcInstant, AllLowerHex;
    if forall i :: 0 <= i < |r.attemptEvidence| ==> IsValidAttempt(r.attemptEvidence[i]) {
      assert forall a :: a in r.attemptEvidence ==> IsValidAttempt(a);
    }
  }

  /** An upgrade from one plan to another, of a licence that is not the transaction itself. */
  predicate IsUpgradeOf(b: Binding, transactionId: string) {
    && b.kind == "confirmed_upgrade"
    && MatchesUuid(b.expectedCurrentTransactionId) && b.expectedCurrentTransactionId != transactionId
    && IsBounded(b.expectedCurrentTransactionId, 128)
    && IsBounded(b.expectedCurrentPlanId, 128) && IsBounded(b.requestedPlanId, 128)
    && b.requestedPlanId != b.expectedCurrentPlanId && b.requestedPlanId != "hushvoting.direct.free"
    && IsBounded(b.observedCatalogueVersion, 256)
    && b.observedCatalogueVersion == "hushvoting-licence-catalogue/v1.0.0"
  }
}
