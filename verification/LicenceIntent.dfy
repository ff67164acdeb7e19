/**
  Reading the purpose of a sealed transaction back from its exact bytes (upgrade.ts): the guard
  that a record is only submitted under the purpose its bytes declare. The bytes that the
  authority stages are JSON, so what it stages always passes.
*/
module LicenceIntent {
  import opened Wrappers
  import opened TextFormats
  import opened LicenceContracts
  import opened LicenceCanonicalText
  import opened LicencePending
  import opened JsonText

  const PAYLOAD_INTENT := "TransitionIntent"

  /** `licenceTransitionIntentOfPendingRecord`, from the parsed envelope. */
  function IntentIn(envelope: Json): Option<Intent> {
    if !envelope.Object? then None
    else
      var payload := Get(envelope.members, PAYLOAD_NAME);
      if payload.None? || !payload.value.Object? then None
      else
        var intent := Get(payload.value.members, PAYLOAD_INTENT);
        if intent == Some(Text(INTENT_CONFIRMED_UPGRADE)) then Some(UpgradeIntent)
        else if intent == Some(Text(INTENT_BASELINE_FREE)) then Some(BaselineIntent)
        else None
  }

  /** The purpose that a payload declares. */
  function IntentOf(p: Payload): Intent { if p.Upgrade? then UpgradeIntent else BaselineIntent }

  // ----- the canonical texts are JSON ---------------------------------------------------------

  function TextEntries(names: seq<string>, values: seq<string>): (entries: seq<Entry>)
    requires |names| == |values|
    ensures |entries| == |names|
    ensures forall i :: 0 <= i < |names| ==> entries[i] == Entry(names[i], Text(values[i]))
  {
    if names == [] then [] else [Entry(names[0], Text(values[0]))] + TextEntries(names[1..], values[1..])
  }

  function PayloadEntries(p: Payload): seq<Entry> {
    match p
    case Baseline(catalogue) => TextEntries(HEAD_NAMES, [INTENT_BASELINE_FREE, PLAN_DIRECT_FREE, catalogue])
    case Upgrade(requested, catalogue, expectedTx, expectedPlan) =>
      TextEntries(HEAD_NAMES, [INTENT_CONFIRMED_UPGRADE, requested, catalogue])
      + TextEntries(TAIL_NAMES, [expectedTx, expectedPlan])
  }

  function LastEntries(p: Payload): seq<Entry> {
    [Entry(PAYLOAD_NAME, Object(PayloadEntries(p))), Entry(SIZE_NAME, Number(Utf8Length(PayloadText(Web, p))))]
  }

  function TransactionEntries(id: string, timestamp: string, p: Payload): seq<Entry> {
    TextEntries(TRANSACTION_NAMES, [id, PAYLOAD_KIND, timestamp]) + LastEntries(p)
  }

  predicate AllPlainNames(names: seq<string>) { forall i :: 0 <= i < |names| ==> AllPlain(names[i]) }

  /** What follows a member: the end of the object, or a comma and the members left. */
  function Closing(more: seq<Entry>): string {
    if more == [] then ['}'] else [','] + PrintMembers(more)
  }

  lemma PrintedMember(e: Entry, more: seq<Entry>)
    ensures PrintMembers([e] + more) == Quoted(e.name) + ([':'] + (Print(e.value) + Closing(more)))
  {
    assert ([e] + more)[1..] == more;
  }

  lemma PlainQuoted(s: string)
    requires AllPlain(s)
    ensures Quoted(s) == "\"" + s + "\""
  {
    PlainTextIsUnchanged(Web, s);
  }

  /** One member of the canonical writer is the printed member, between what opens it and what follows. */
  lemma MemberIsPrinted(open: char, name: string, value: string, rest: string)
    requires AllPlain(name)
    ensures [open] + (Quoted(name) + ([':'] + (Quoted(value) + rest)))
         == Member(Web, [open] + ("\"" + name + "\":\""), value) + rest
  {
    hide EscapeText;
    PlainQuoted(name);
    Spread(open, name, EscapeText(Web, value), rest);
  }

  lemma Spread(open: char, name: string, value: string, rest: string)
    ensures [open] + (("\"" + name + "\"") + ([':'] + ((['"'] + (value + ['"'])) + rest)))
         == (([open] + ("\"" + name + "\":\"")) + value + "\"") + rest
  {
  }

  /** Consecutive text members of the canonical writer are printed members. */
  lemma {:induction false} MembersArePrinted(open: char, names: seq<string>, values: seq<string>, more: seq<Entry>)
    requires |names| == |values| > 0 && AllPlainNames(names)
    ensures [open] + PrintMembers(TextEntries(names, values) + more)
         == Members(Web, Heads(open, names), values) + Closing(more)
    decreases names
  {
    hide PrintMembers, Print, Quoted, Member, AllPlain;
    var rest := TextEntries(names[1..], values[1..]) + more;
    FirstIsPrinted(open, names, values, more);
    MembersSplit(open, names, values);
    var first := Member(Web, [open] + ("\"" + names[0] + "\":\""), values[0]);
    var others := Members(Web, Heads(',', names[1..]), values[1..]);
    if |names| == 1 {
      assert rest == more;
      assert others == "";
    } else {
      MembersArePrinted(',', names[1..], values[1..], more);
      assert Closing(rest) == others + Closing(more);
    }
    Regroup(first, others, Closing(more));
  }

  lemma MembersSplit(open: char, names: seq<string>, values: seq<string>)
    requires |names| == |values| > 0
    ensures Members(Web, Heads(open, names), values)
         == Member(Web, [open] + ("\"" + names[0] + "\":\""), values[0])
            + Members(Web, Heads(',', names[1..]), values[1..])
  {
    hide Member;
    assert Heads(open, names)[1..] == Heads(',', names[1..]);
  }

  lemma FirstIsPrinted(open: char, names: seq<string>, values: seq<string>, more: seq<Entry>)
    requires |names| == |values| > 0 && AllPlainNames(names)
    ensures [open] + PrintMembers(TextEntries(names, values) + more)
         == Member(Web, [open] + ("\"" + names[0] + "\":\""), values[0])
            + Closing(TextEntries(names[1..], values[1..]) + more)
  {
    hide PrintMembers, Quoted, Member, AllPlain, Closing;
    var rest := TextEntries(names[1..], values[1..]) + more;
    assert TextEntries(names, values) + more == [Entry(names[0], Text(values[0]))] + rest;
    PrintedMember(Entry(names[0], Text(values[0])), rest);
    MemberIsPrinted(open, names[0], values[0], Closing(rest));
  }

  lemma InSeq(s: string)
    requires forall c :: c in s ==> IsPlain(c)
    ensures AllPlain(s)
  {
  }

  lemma HeadNamesArePlain()
    ensures AllPlainNames(HEAD_NAMES)
  {
    hide AllPlain;
    InSeq("TransitionIntent");
    InSeq("RequestedPlanId");
    InSeq("ObservedCatalogueVersion");
  }

  lemma TailNamesArePlain()
    ensures AllPlainNames(TAIL_NAMES)
  {
    hide AllPlain;
    LongNameIsPlain();
    InSeq("ExpectedCurrentPlanId");
  }

  lemma LongNameIsPlain()
    ensures AllPlain("ExpectedCurrentLicenceTransactionId")
  {
    var front, back := "ExpectedCurrent", "LicenceTransactionId";
    InSeq(front);
    InSeq(back);
    assert front + back == "ExpectedCurrentLicenceTransactionId";
  }

  lemma TransactionNamesArePlain()
    ensures AllPlainNames(TRANSACTION_NAMES) && AllPlain(PAYLOAD_NAME) && AllPlain(SIZE_NAME)
  {
    hide AllPlain;
    InSeq("TransactionId");
    InSeq("PayloadKind");
    InSeq("TransactionTimeStamp");
    InSeq(PAYLOAD_NAME);
    InSeq(SIZE_NAME);
  }

  /** The canonical payload is the text of its members. */
  lemma PayloadIsJson(p: Payload)
    ensures PayloadText(Web, p) == Print(Object(PayloadEntries(p)))
  {
    hide PrintMembers, Members, Heads, AllPlainNames, TextEntries;
    HeadNamesArePlain();
    match p
    case Baseline(catalogue) =>
      var values := [INTENT_BASELINE_FREE, PLAN_DIRECT_FREE, catalogue];
      MembersArePrinted('{', HEAD_NAMES, values, []);
      assert TextEntries(HEAD_NAMES, values) + [] == TextEntries(HEAD_NAMES, values);
    case Upgrade(requested, catalogue, expectedTx, expectedPlan) =>
      TailNamesArePlain();
      var tail := TextEntries(TAIL_NAMES, [expectedTx, expectedPlan]);
      MembersArePrinted('{', HEAD_NAMES, [INTENT_CONFIRMED_UPGRADE, requested, catalogue], tail);
      MembersArePrinted(',', TAIL_NAMES, [expectedTx, expectedPlan], []);
      assert tail + [] == tail;
  }

  /** The canonical unsigned transaction is the text of its members. */
  lemma UnsignedTransactionIsJson(id: string, timestamp: string, p: Payload)
    ensures UnsignedTransaction(Web, id, timestamp, p) == Print(Object(TransactionEntries(id, timestamp, p)))
  {
    hide PrintMembers, Members, Heads, AllPlainNames, TextEntries, PayloadText, PayloadEntries, AllPlain;
    TransactionNamesArePlain();
    MembersArePrinted('{', TRANSACTION_NAMES, [id, PAYLOAD_KIND, timestamp], LastEntries(p));
    LastAreClosing(p);
  }

  lemma LastAreClosing(p: Payload)
    ensures Closing(LastEntries(p))
         == PAYLOAD + (PayloadText(Web, p) + SizeMember(PayloadText(Web, p)))
  {
    TransactionNamesArePlain();
    hide PrintMembers, AllPlain, PayloadText, PayloadEntries, AllPlainNames, Quoted, Decimal, Utf8Length;
    PayloadIsJson(p);
    var text := PayloadText(Web, p);
    var size := Entry(SIZE_NAME, Number(Utf8Length(text)));
    PrintedMember(Entry(PAYLOAD_NAME, Object(PayloadEntries(p))), [size]);
    PrintedMember(size, []);
    assert [size] + [] == [size];
    PlainQuoted(PAYLOAD_NAME);
    PlainQuoted(SIZE_NAME);
    SpreadField(PAYLOAD_NAME, text + Closing([size]));
    SpreadField(SIZE_NAME, Decimal(Utf8Length(text)) + ['}']);
    Regroup(Field(SIZE_NAME), Decimal(Utf8Length(text)), ['}']);
    assert LastEntries(p) == [Entry(PAYLOAD_NAME, Object(PayloadEntries(p)))] + [size];
  }

  lemma SpreadField(name: string, rest: string)
    ensures [','] + (("\"" + name + "\"") + ([':'] + rest)) == Field(name) + rest
  {
  }

  // ----- what is staged declares its purpose --------------------------------------------------

  lemma PayloadDeclares(p: Payload)
    ensures Get(PayloadEntries(p), PAYLOAD_INTENT)
         == Some(Text(if p.Upgrade? then INTENT_CONFIRMED_UPGRADE else INTENT_BASELINE_FREE))
  {
    hide Get, TextEntries;
    var entries := PayloadEntries(p);
    assert |HEAD_NAMES[0]| == 16 && |HEAD_NAMES[1]| == 15 && |HEAD_NAMES[2]| == 24;
    assert |TAIL_NAMES[0]| == 35 && |TAIL_NAMES[1]| == 21;
    assert entries[0].name == PAYLOAD_INTENT;
    GetIs(entries, 0);
  }

  lemma TransactionDeclares(id: string, timestamp: string, p: Payload)
    ensures Get(TransactionEntries(id, timestamp, p), PAYLOAD_NAME) == Some(Object(PayloadEntries(p)))
  {
    hide Get, TextEntries, PayloadEntries, PayloadText;
    var entries := TransactionEntries(id, timestamp, p);
    assert |TRANSACTION_NAMES[0]| == 13 && |TRANSACTION_NAMES[1]| == 11 && |TRANSACTION_NAMES[2]| == 20;
    assert |PAYLOAD_NAME| == 7 && SIZE_NAME[7] == 'S' && |SIZE_NAME| == 11 && TRANSACTION_NAMES[1][7] == 'K';
    assert entries[3].name == PAYLOAD_NAME;
    GetIs(entries, 3);
  }

  /** The exact bytes of a canonical transaction parse, and declare the purpose of its payload. */
  lemma UnsignedTransactionDeclares(id: string, timestamp: string, p: Payload)
    ensures var envelope := ReadAll(UnsignedTransaction(Web, id, timestamp, p));
            envelope.Some? && IntentIn(envelope.value) == Some(IntentOf(p))
  {
    hide Print, ReadAll, Get, TransactionEntries, PayloadEntries, UnsignedTransaction;
    UnsignedTransactionIsJson(id, timestamp, p);
    StringifiedIsParsed(Object(TransactionEntries(id, timestamp, p)));
    TransactionDeclares(id, timestamp, p);
    PayloadDeclares(p);
    assert |INTENT_CONFIRMED_UPGRADE| != |INTENT_BASELINE_FREE|;
  }

  /** A reader of intents that agrees with the JSON reader on every text in canonical form. */
  ghost predicate ReadsIntents(intentOf: string -> Option<Intent>) {
    forall text :: ReadAll(text).Some? ==> intentOf(text) == IntentIn(ReadAll(text).value)
  }

  /** Whatever the authority stages is coherent: its bytes declare the purpose of its binding. */
  lemma StagedIsCoherent(intentOf: string -> Option<Intent>, actor: string, network: string,
                         digestOf: string -> string, identity: Identity, p: Payload, binding: Option<UpgradeBinding>)
    requires ReadsIntents(intentOf) && p.Upgrade? == binding.Some?
    ensures var r := Stage(actor, network, digestOf, identity, p, binding);
            IsPurposeCoherent(intentOf(r.transaction.exactJson), r)
  {
    hide ReadAll, IntentIn, UnsignedTransaction;
    UnsignedTransactionDeclares(identity.transactionId, identity.timestampUtc, p);
  }
}
