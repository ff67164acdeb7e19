/**
  When the native and the web authority sign the same bytes: the native writer escapes the two
  Unicode line separators, which the web one leaves as they are.
*/
module SignedWriters {
  import opened Wrappers
  import opened TextFormats
  import opened LicenceContracts
  import opened LicenceCanonicalText
  import opened JsonText
  import opened LicenceIntent
  import opened SignedTexts

  /** Neither line separator occurs. */
  predicate IsClean(s: string) { forall c :: c in s ==> !IsSeparator(c) }

  predicate AllClean(values: seq<string>) { forall v :: v in values ==> IsClean(v) }

  lemma {:induction false} EscapedIsClean(s: string)
    ensures IsClean(EscapeText(Native, s))
    ensures IsClean(EscapeText(Web, s)) <==> IsClean(s)
  {
    if s != "" {
      EscapedIsClean(s[1..]);
      EscapedCharIsClean(s[0]);
      hide EscapeChar;
      assert s == [s[0]] + s[1..];
    }
  }

  lemma EscapedCharIsClean(c: char)
    ensures IsClean(EscapeChar(Native, c))
    ensures IsClean(EscapeChar(Web, c)) <==> !IsSeparator(c)
  {
  }

  lemma AgreesOnClean(s: string)
    ensures EscapeText(Native, s) == EscapeText(Web, s) <==> IsClean(s)
  {
    hide EscapeText, IsSeparator;
    WritersAgreeExactly(s);
    assert (forall i :: 0 <= i < |s| ==> !IsSeparator(s[i])) <==> IsClean(s);
  }

  lemma MemberAgrees(name: string, value: string)
    requires IsClean(name)
    ensures IsClean(Member(Native, name, value))
    ensures IsClean(Member(Web, name, value)) <==> IsClean(value)
    ensures IsClean(value) ==> Member(Native, name, value) == Member(Web, name, value)
  {
    EscapedIsClean(value);
    AgreesOnClean(value);
    hide EscapeText;
  }

  lemma CleanParts(a: string, b: string)
    ensures IsClean(a + b) <==> IsClean(a) && IsClean(b)
  {
    assert forall c :: c in a + b <==> c in a || c in b;
  }

  lemma {:induction false} MembersAgree(names: seq<string>, values: seq<string>)
    requires |names| == |values| && AllClean(names)
    ensures IsClean(Members(Native, names, values))
    ensures IsClean(Members(Web, names, values)) <==> AllClean(values)
    ensures AllClean(values) ==> Members(Native, names, values) == Members(Web, names, values)
    decreases names
  {
    if names != [] {
      hide IsClean, Member;
      assert names == [names[0]] + names[1..] && values == [values[0]] + values[1..];
      MembersAgree(names[1..], values[1..]);
      MemberAgrees(names[0], values[0]);
      CleanParts(Member(Native, names[0], values[0]), Members(Native, names[1..], values[1..]));
      CleanParts(Member(Web, names[0], values[0]), Members(Web, names[1..], values[1..]));
    } else {
      assert IsClean("");
    }
  }

  /** The texts of a payload that come from outside. */
  function Texts(p: Payload): seq<string> {
    match p
    case Baseline(catalogue) => [catalogue]
    case Upgrade(requested, catalogue, expectedTransaction, expectedPlan) =>
      [requested, catalogue, expectedTransaction, expectedPlan]
  }

  lemma {:induction false} HeadsAreClean(open: char, names: seq<string>)
    requires AllClean(names) && !IsSeparator(open)
    ensures AllClean(Heads(open, names))
    decreases names
  {
    if names != [] {
      assert names == [names[0]] + names[1..];
      HeadsAreClean(',', names[1..]);
      CleanParts(names[0], "\":\"");
      CleanParts("\"", names[0] + "\":\"");
      CleanParts([open], "\"" + names[0] + "\":\"");
      assert "\"" + (names[0] + "\":\"") == "\"" + names[0] + "\":\"";
    }
  }

  lemma FieldIsClean(name: string)
    requires IsClean(name)
    ensures IsClean(Field(name))
  {
    CleanParts(",\"", name);
    CleanParts(",\"" + name, "\":");
  }

  lemma PlainIsClean(s: string)
    requires AllPlain(s)
    ensures IsClean(s)
  {
  }

  lemma NamesAreClean()
    ensures AllClean(HEAD_NAMES) && AllClean(TAIL_NAMES) && AllClean(TRANSACTION_NAMES)
    ensures IsClean(PAYLOAD_NAME) && IsClean(SIZE_NAME)
  {
    HeadNamesArePlain();
    TailNamesArePlain();
    TransactionNamesArePlain();
    hide AllPlain, IsClean;
    PlainAreClean(HEAD_NAMES);
    PlainAreClean(TAIL_NAMES);
    PlainAreClean(TRANSACTION_NAMES);
    PlainIsClean(PAYLOAD_NAME);
    PlainIsClean(SIZE_NAME);
  }

  lemma PlainAreClean(names: seq<string>)
    requires AllPlainNames(names)
    ensures AllClean(names)
  {
    hide AllPlain, IsClean;
    forall i | 0 <= i < |names|
      ensures IsClean(names[i])
    {
      PlainIsClean(names[i]);
    }
  }

  lemma ValuesAreClean()
    ensures IsClean(INTENT_BASELINE_FREE) && IsClean(PLAN_DIRECT_FREE) && IsClean(INTENT_CONFIRMED_UPGRADE)
    ensures IsClean(PAYLOAD_KIND)
  {
    hide IsClean, AllPlain;
    InSeq(INTENT_BASELINE_FREE);
    InSeq(PLAN_DIRECT_FREE);
    InSeq(INTENT_CONFIRMED_UPGRADE);
    KindIsPlain();
    PlainIsClean(INTENT_BASELINE_FREE);
    PlainIsClean(PLAN_DIRECT_FREE);
    PlainIsClean(INTENT_CONFIRMED_UPGRADE);
    PlainIsClean(PAYLOAD_KIND);
  }

  lemma KindIsPlain()
    ensures AllPlain(PAYLOAD_KIND)
  {
    var front, back := "71370664-5eb4-4ce9", "-b96a-d7e7ffe53db5";
    InSeq(front);
    InSeq(back);
    assert front + back == PAYLOAD_KIND;
  }

  lemma OneMoreIsClean(v: string, values: seq<string>)
    ensures AllClean([v] + values) <==> IsClean(v) && AllClean(values)
  {
    hide IsClean;
    assert ([v] + values)[0] == v;
  }

  lemma FixedTextsAreClean()
    ensures AllClean(PAYLOAD_HEAD) && AllClean(PAYLOAD_TAIL) && AllClean(TRANSACTION_HEAD)
    ensures IsClean(PAYLOAD) && IsClean(Field(SIZE_NAME))
  {
    NamesAreClean();
    hide IsClean, Heads;
    assert !IsSeparator('{') && !IsSeparator(',');
    HeadsAreClean('{', HEAD_NAMES);
    HeadsAreClean(',', TAIL_NAMES);
    HeadsAreClean('{', TRANSACTION_NAMES);
    FieldIsClean(PAYLOAD_NAME);
    FieldIsClean(SIZE_NAME);
  }

  lemma {:induction false} DecimalIsClean(n: nat)
    ensures IsClean(Decimal(n))
  {
    if n >= 10 {
      DecimalIsClean(n / 10);
      CleanParts(Decimal(n / 10), [('0' as int + n % 10) as char]);
    }
  }

  lemma PayloadsAgree(p: Payload)
    ensures IsClean(PayloadText(Native, p))
    ensures IsClean(PayloadText(Web, p)) <==> AllClean(Texts(p))
    ensures AllClean(Texts(p)) ==> PayloadText(Native, p) == PayloadText(Web, p)
  {
    hide PayloadText, AllClean, IsClean;
    if p.Upgrade? { UpgradesAgree(p); } else { BaselinesAgree(p); }
  }

  lemma BaselinesAgree(p: Payload)
    requires p.Baseline?
    ensures IsClean(PayloadText(Native, p))
    ensures IsClean(PayloadText(Web, p)) <==> AllClean(Texts(p))
    ensures AllClean(Texts(p)) ==> PayloadText(Native, p) == PayloadText(Web, p)
  {
    FixedTextsAreClean();
    BaselineTexts(p.catalogue);
    assert IsClean("}");
    hide IsClean, AllClean, Heads, Members;
    var values := [INTENT_BASELINE_FREE, PLAN_DIRECT_FREE, p.catalogue];
    MembersAgree(PAYLOAD_HEAD, values);
    CleanParts(Members(Native, PAYLOAD_HEAD, values), "}");
    CleanParts(Members(Web, PAYLOAD_HEAD, values), "}");
  }

  lemma BaselineTexts(catalogue: string)
    ensures AllClean([INTENT_BASELINE_FREE, PLAN_DIRECT_FREE, catalogue]) <==> AllClean([catalogue])
  {
    ValuesAreClean();
    hide IsClean, AllClean;
    OneMoreIsClean(PLAN_DIRECT_FREE, [catalogue]);
    OneMoreIsClean(INTENT_BASELINE_FREE, [PLAN_DIRECT_FREE, catalogue]);
    assert [PLAN_DIRECT_FREE] + [catalogue] == [PLAN_DIRECT_FREE, catalogue];
    assert [INTENT_BASELINE_FREE] + [PLAN_DIRECT_FREE, catalogue]
        == [INTENT_BASELINE_FREE, PLAN_DIRECT_FREE, catalogue];
  }

  lemma UpgradeTexts(p: Payload)
    requires p.Upgrade?
    ensures AllClean(Texts(p)) <==> AllClean([INTENT_CONFIRMED_UPGRADE, p.requestedPlan, p.catalogue])
                                    && AllClean([p.expectedTransaction, p.expectedPlan])
  {
    ValuesAreClean();
    hide IsClean;
    var head, tail := [p.requestedPlan, p.catalogue], [p.expectedTransaction, p.expectedPlan];
    OneMoreIsClean(INTENT_CONFIRMED_UPGRADE, head);
    assert [INTENT_CONFIRMED_UPGRADE] + head == [INTENT_CONFIRMED_UPGRADE, p.requestedPlan, p.catalogue];
    assert Texts(p) == head + tail;
  }

  lemma UpgradesAgree(p: Payload)
    requires p.Upgrade?
    ensures IsClean(PayloadText(Native, p))
    ensures IsClean(PayloadText(Web, p)) <==> AllClean(Texts(p))
    ensures AllClean(Texts(p)) ==> PayloadText(Native, p) == PayloadText(Web, p)
  {
    FixedTextsAreClean();
    UpgradeTexts(p);
    assert IsClean("}");
    hide IsClean, AllClean, Heads, Members, Texts;
    var head, tail := [INTENT_CONFIRMED_UPGRADE, p.requestedPlan, p.catalogue], [p.expectedTransaction, p.expectedPlan];
    MembersAgree(PAYLOAD_HEAD, head);
    MembersAgree(PAYLOAD_TAIL, tail);
    CleanParts(Members(Native, PAYLOAD_TAIL, tail), "}");
    CleanParts(Members(Web, PAYLOAD_TAIL, tail), "}");
    CleanParts(Members(Native, PAYLOAD_HEAD, head), Members(Native, PAYLOAD_TAIL, tail) + "}");
    CleanParts(Members(Web, PAYLOAD_HEAD, head), Members(Web, PAYLOAD_TAIL, tail) + "}");
  }

  lemma SizeIsClean(payload: string)
    ensures IsClean(SizeMember(payload))
  {
    FixedTextsAreClean();
    DecimalIsClean(Utf8Length(payload));
    assert IsClean("}");
    hide IsClean;
    CleanParts(Field(SIZE_NAME), Decimal(Utf8Length(payload)));
    CleanParts(Field(SIZE_NAME) + Decimal(Utf8Length(payload)), "}");
  }

  /** Both authorities sign the same bytes for a transaction exactly if no text of it holds a line separator. */
  lemma TransactionWritersAgree(id: string, timestamp: string, p: Payload)
    ensures UnsignedTransaction(Native, id, timestamp, p) == UnsignedTransaction(Web, id, timestamp, p)
       <==> AllClean([id, timestamp] + Texts(p))
  {
    FixedTextsAreClean();
    ValuesAreClean();
    PayloadsAgree(p);
    var native, web := PayloadText(Native, p), PayloadText(Web, p);
    SizeIsClean(native);
    SizeIsClean(web);
    hide IsClean, Heads, Members, PayloadText, Texts, SizeMember;
    var values := [id, PAYLOAD_KIND, timestamp];
    MembersAgree(TRANSACTION_HEAD, values);
    CleanParts(native, SizeMember(native));
    CleanParts(web, SizeMember(web));
    CleanParts(PAYLOAD, native + SizeMember(native));
    CleanParts(PAYLOAD, web + SizeMember(web));
    CleanParts(Members(Native, TRANSACTION_HEAD, values), PAYLOAD + (native + SizeMember(native)));
    CleanParts(Members(Web, TRANSACTION_HEAD, values), PAYLOAD + (web + SizeMember(web)));
    assert AllClean(values) && AllClean(Texts(p)) <==> AllClean([id, timestamp] + Texts(p));
  }

  /** So the native transaction says the same, under the same names. */
  lemma NativeTransactionIsRead(id: string, timestamp: string, p: Payload)
    requires AllClean([id, timestamp] + Texts(p))
    ensures ReadAll(UnsignedTransaction(Native, id, timestamp, p))
         == Some(Object(FrozenTransaction(id, timestamp, p)))
  {
    hide UnsignedTransaction, ReadAll, FrozenTransaction, AllClean;
    TransactionWritersAgree(id, timestamp, p);
    TransactionIsRead(id, timestamp, p);
  }
}
