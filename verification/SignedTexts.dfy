/**
  What the signed licence texts say, member by member and under literal names: the query envelope
  and the unsigned transaction of both writers (licence_vault.rs, canonical.ts, contracts.ts).
  The frozen member lists below are independent of the constants that the writers are built from.
*/
module SignedTexts {
  import opened Wrappers
  import opened TextFormats
  import opened LicenceCanonicalText
  import opened JsonText
  import opened LicenceIntent

  // ----- the transaction ----------------------------------------------------------------------

  function FrozenPayload(p: Payload): seq<Entry> {
    match p
    case Baseline(catalogue) =>
      [Entry("TransitionIntent", Text("baseline_free")), Entry("RequestedPlanId", Text("hushvoting.direct.free")),
       Entry("ObservedCatalogueVersion", Text(catalogue))]
    case Upgrade(requested, catalogue, expectedTransaction, expectedPlan) =>
      [Entry("TransitionIntent", Text("confirmed_upgrade")), Entry("RequestedPlanId", Text(requested)),
       Entry("ObservedCatalogueVersion", Text(catalogue)),
       Entry("ExpectedCurrentLicenceTransactionId", Text(expectedTransaction)),
       Entry("ExpectedCurrentPlanId", Text(expectedPlan))]
  }

  function FrozenTransaction(id: string, timestamp: string, p: Payload): seq<Entry> {
    [Entry("TransactionId", Text(id)), Entry("PayloadKind", Text("71370664-5eb4-4ce9-b96a-d7e7ffe53db5")),
     Entry("TransactionTimeStamp", Text(timestamp)), Entry("Payload", Object(FrozenPayload(p))),
     Entry("PayloadSize", Number(Utf8Length(Print(Object(FrozenPayload(p))))))]
  }

  lemma {:induction false} TextEntriesAre(names: seq<string>, values: seq<string>, entries: seq<Entry>)
    requires |names| == |values| == |entries|
    requires forall i :: 0 <= i < |names| ==> entries[i] == Entry(names[i], Text(values[i]))
    ensures TextEntries(names, values) == entries
  {
  }

  lemma PayloadIsFrozen(p: Payload)
    ensures PayloadEntries(p) == FrozenPayload(p)
  {
    hide TextEntries;
    var frozen := FrozenPayload(p);
    var values := [frozen[0].value.s, frozen[1].value.s, frozen[2].value.s];
    TextEntriesAre(HEAD_NAMES, values, frozen[..3]);
    if p.Upgrade? {
      TextEntriesAre(TAIL_NAMES, [p.expectedTransaction, p.expectedPlan], frozen[3..]);
      assert frozen == frozen[..3] + frozen[3..];
    } else {
      assert frozen == frozen[..3];
    }
  }

  lemma TransactionIsFrozen(id: string, timestamp: string, p: Payload)
    ensures TransactionEntries(id, timestamp, p) == FrozenTransaction(id, timestamp, p)
  {
    hide TextEntries, PayloadEntries, FrozenPayload, PayloadText, Print;
    PayloadIsFrozen(p);
    PayloadIsJson(p);
    var frozen := FrozenTransaction(id, timestamp, p);
    var values := [frozen[0].value.s, frozen[1].value.s, frozen[2].value.s];
    TextEntriesAre(TRANSACTION_NAMES, values, frozen[..3]);
    assert frozen == frozen[..3] + [frozen[3], frozen[4]];
  }

  /**
    The canonical transaction parses to exactly its members in their frozen order, and PayloadSize
    is the length in bytes of the payload's own text.
  */
  lemma TransactionIsRead(id: string, timestamp: string, p: Payload)
    ensures UnsignedTransaction(Web, id, timestamp, p) == Print(Object(FrozenTransaction(id, timestamp, p)))
    ensures ReadAll(UnsignedTransaction(Web, id, timestamp, p))
         == Some(Object(FrozenTransaction(id, timestamp, p)))
  {
    hide TransactionEntries, FrozenTransaction, UnsignedTransaction, Print, ReadAll;
    TransactionIsFrozen(id, timestamp, p);
    UnsignedTransactionIsJson(id, timestamp, p);
    StringifiedIsParsed(Object(FrozenTransaction(id, timestamp, p)));
  }

  /** The member of that name of the payload in a parsed transaction. */
  function PayloadMember(envelope: Json, name: string): Option<Json> {
    if !envelope.Object? then None
    else
      var payload := Get(envelope.members, "Payload");
      if payload.Some? && payload.value.Object? then Get(payload.value.members, name) else None
  }

  /** The preconditions of an upgrade are found under their own names. */
  lemma UpgradeNamesItsPreconditions(id: string, timestamp: string, p: Payload)
    requires p.Upgrade?
    ensures var envelope := ReadAll(UnsignedTransaction(Web, id, timestamp, p));
            && envelope.Some?
            && PayloadMember(envelope.value, "ExpectedCurrentLicenceTransactionId") == Some(Text(p.expectedTransaction))
            && PayloadMember(envelope.value, "ExpectedCurrentPlanId") == Some(Text(p.expectedPlan))
            && PayloadMember(envelope.value, "RequestedPlanId") == Some(Text(p.requestedPlan))
            && PayloadMember(envelope.value, "ObservedCatalogueVersion") == Some(Text(p.catalogue))
  {
    hide UnsignedTransaction, ReadAll, Get, Print;
    TransactionIsRead(id, timestamp, p);
    FrozenNamesDiffer(id, timestamp, p);
    var members := FrozenTransaction(id, timestamp, p);
    GetIs(members, 3);
    var payload := FrozenPayload(p);
    GetIs(payload, 1);
    GetIs(payload, 2);
    GetIs(payload, 3);
    GetIs(payload, 4);
  }

  lemma FrozenNamesDiffer(id: string, timestamp: string, p: Payload)
    ensures Distinct(FrozenTransaction(id, timestamp, p)) && Distinct(FrozenPayload(p))
  {
    hide Print;
    assert |"TransactionId"| == 13 && |"PayloadKind"| == 11 && |"TransactionTimeStamp"| == 20;
    assert |"Payload"| == 7 && |"PayloadSize"| == 11 && "PayloadKind"[7] == 'K' && "PayloadSize"[7] == 'S';
    assert |"TransitionIntent"| == 16 && |"RequestedPlanId"| == 15 && |"ObservedCatalogueVersion"| == 24;
    assert |"ExpectedCurrentLicenceTransactionId"| == 35 && |"ExpectedCurrentPlanId"| == 21;
  }

  // ----- the query envelope -------------------------------------------------------------------

  function FrozenQuery(actor: string, signedAt: string): seq<Entry> {
    [Entry("actorAddress", Text(actor)), Entry("method", Text("GetMyEntitlement")), Entry("request", Object([])),
     Entry("signedAt", Text(signedAt))]
  }

  lemma QueryNamesArePlain()
    ensures Quoted("actorAddress") == "\"actorAddress\"" && Quoted("method") == "\"method\""
    ensures Quoted("GetMyEntitlement") == "\"GetMyEntitlement\""
    ensures Quoted("request") == "\"request\"" && Quoted("signedAt") == "\"signedAt\""
  {
    hide Quoted, AllPlain;
    InSeq("actorAddress");
    InSeq("method");
    InSeq("GetMyEntitlement");
    InSeq("request");
    InSeq("signedAt");
    PlainQuoted("actorAddress");
    PlainQuoted("method");
    PlainQuoted("GetMyEntitlement");
    PlainQuoted("request");
    PlainQuoted("signedAt");
  }

  lemma TwoMembersText(actor: string, signedAt: string)
    ensures QueryEnvelope(Web, actor, signedAt)
         == (ACTOR + EscapeText(Web, actor) + "\"") + ((METHOD_AND_SIGNED_AT + EscapeText(Web, signedAt) + "\"") + "}")
  {
    hide EscapeText;
    TwoMembers(Web, ACTOR, METHOD_AND_SIGNED_AT, actor, signedAt);
    Regroup(Member(Web, ACTOR, actor), Member(Web, METHOD_AND_SIGNED_AT, signedAt), "}");
  }

  lemma FixedTextSplits()
    ensures METHOD_AND_SIGNED_AT
         == Piece(',', "\"method\"", "\"GetMyEntitlement\"") + (Piece(',', "\"request\"", "{}")
            + Piece(',', "\"signedAt\"", "\""))
  {
    PiecesAre();
    hide Piece;
    assert METHOD_AND_SIGNED_AT
        == ",\"method\":\"GetMyEntitlement\"" + (",\"request\":{}" + ",\"signedAt\":\"");
  }

  lemma PiecesAre()
    ensures Piece(',', "\"method\"", "\"GetMyEntitlement\"") == ",\"method\":\"GetMyEntitlement\""
    ensures Piece(',', "\"request\"", "{}") == ",\"request\":{}"
    ensures Piece(',', "\"signedAt\"", "\"") == ",\"signedAt\":\""
  {
  }

  lemma ActorTextSplits()
    ensures ACTOR == Piece('{', "\"actorAddress\"", "\"")
  {
  }

  /** A member between what opens it and the beginning of what follows. */
  function Piece(open: char, name: string, value: string): string { [open] + (name + ([':'] + value)) }

  lemma PieceThen(open: char, name: string, value: string, rest: string)
    ensures Piece(open, name, value) + rest == [open] + (name + ([':'] + (value + rest)))
  {
  }

  lemma QueryText(a: string, b: string)
    ensures (ACTOR + a + "\"") + ((METHOD_AND_SIGNED_AT + b + "\"") + "}")
         == ['{'] + ("\"actorAddress\"" + ([':'] + ((['"'] + (a + ['"'])) + ([','] + ("\"method\"" + ([':']
            + ("\"GetMyEntitlement\"" + ([','] + ("\"request\"" + ([':'] + ("{}" + ([','] + ("\"signedAt\"" + ([':']
            + ((['"'] + (b + ['"'])) + ['}'])))))))))))))))
  {
    FixedTextSplits();
    ActorTextSplits();
    hide Piece;
    var named, asked := Piece(',', "\"method\"", "\"GetMyEntitlement\""), Piece(',', "\"request\"", "{}");
    var signed, actor := Piece(',', "\"signedAt\"", "\""), Piece('{', "\"actorAddress\"", "\"");
    Nested(actor, a, named, asked, signed, b);
    PieceThen(',', "\"signedAt\"", "\"", b + "\"" + "}");
    PieceThen(',', "\"request\"", "{}", signed + (b + "\"" + "}"));
    PieceThen(',', "\"method\"", "\"GetMyEntitlement\"", asked + (signed + (b + "\"" + "}")));
    PieceThen('{', "\"actorAddress\"", "\"", a + "\"" + (named + (asked + (signed + (b + "\"" + "}")))));
    Requoted(a, named + (asked + (signed + (b + "\"" + "}"))));
    Requoted(b, "}");
  }

  lemma Nested(actor: string, a: string, named: string, asked: string, signed: string, b: string)
    ensures (actor + a + "\"") + (((named + (asked + signed)) + b + "\"") + "}")
         == actor + (a + "\"" + (named + (asked + (signed + (b + "\"" + "}")))))
  {
  }

  lemma Requoted(a: string, rest: string)
    ensures "\"" + (a + "\"" + rest) == (['"'] + (a + ['"'])) + rest
  {
  }

  /** The query envelope parses to exactly these four members, in this order. */
  lemma QueryIsRead(actor: string, signedAt: string)
    ensures QueryEnvelope(Web, actor, signedAt) == Print(Object(FrozenQuery(actor, signedAt)))
    ensures ReadAll(QueryEnvelope(Web, actor, signedAt)) == Some(Object(FrozenQuery(actor, signedAt)))
  {
    hide QueryEnvelope, ReadAll, PrintMembers, EscapeText;
    var all := FrozenQuery(actor, signedAt);
    PrintedMember(all[0], all[1..]);
    PrintedMember(all[1], all[2..]);
    PrintedMember(all[2], all[3..]);
    PrintedMember(all[3], []);
    assert all == [all[0]] + all[1..] && all[1..] == [all[1]] + all[2..];
    assert all[2..] == [all[2]] + all[3..] && all[3..] == [all[3]] + [];
    QueryNamesArePlain();
    TwoMembersText(actor, signedAt);
    QueryText(EscapeText(Web, actor), EscapeText(Web, signedAt));
    StringifiedIsParsed(Object(all));
  }
}
