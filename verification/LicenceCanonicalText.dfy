/**
  The canonical texts that the licence authority signs: JSON escaping, the query envelope and
  the unsigned transaction, as written by the native authority (licence_vault.rs) and by the web
  authority (canonical.ts, contracts.ts). A reader for each text shows that it is unambiguous.
*/
module LicenceCanonicalText {
  import opened Wrappers
  import opened LicenceContracts
  import opened TextFormats

  /** Which writer: the native one also escapes the two Unicode line separators. */
  datatype Writer = Native | Web

  const LINE_SEPARATOR := '\U{2028}'
  const PARAGRAPH_SEPARATOR := '\U{2029}'

  predicate IsSeparator(c: char) { c == LINE_SEPARATOR || c == PARAGRAPH_SEPARATOR }

  function HexDigit(n: nat): char
    requires n < 16
  {
    if n < 10 then ('0' as int + n) as char else ('a' as int + (n - 10)) as char
  }

  function HexValue(c: char): Option<nat> {
    if '0' <= c <= '9' then Some(c as int - '0' as int)
    else if 'a' <= c <= 'f' then Some(c as int - 'a' as int + 10)
    else None
  }

  function Hex4(n: nat): string
    requires n < 0x10000
  {
    var a, b, c := n / 16, n / 16 / 16, n / 16 / 16 / 16;
    [HexDigit(c), HexDigit(b % 16), HexDigit(a % 16), HexDigit(n % 16)]
  }

  /** What one character becomes inside a JSON string. */
  function EscapeChar(writer: Writer, c: char): (e: string)
    ensures |e| > 0
  {
    if c == '"' then ['\\', '"']
    else if c == '\\' then ['\\', '\\']
    else if c as int == 8 then ['\\', 'b']
    else if c as int == 12 then ['\\', 'f']
    else if c == '\n' then ['\\', 'n']
    else if c == '\r' then ['\\', 'r']
    else if c == '\t' then ['\\', 't']
    else if IsSeparator(c) && writer == Native then ['\\', 'u'] + Hex4(c as int)
    else if c as int < 0x20 then ['\\', 'u'] + Hex4(c as int)
    else [c]
  }

  function EscapeText(writer: Writer, s: string): string {
    if s == "" then "" else EscapeChar(writer, s[0]) + EscapeText(writer, s[1..])
  }

  /** `escape_json`: the loop that pushes each escaped character. */
  method EscapeJson(input: string) returns (out: string)
    ensures out == EscapeText(Native, input)
  {
    out := "";
    for i := 0 to |input|
        invariant out == EscapeText(Native, input[..i])
    {
      EscapeAppends(Native, input[..i], input[i]);
      assert input[..i] + [input[i]] == input[..i + 1];
      out := out + EscapeChar(Native, input[i]);
    }
    assert input[..|input|] == input;
  }

  lemma {:induction false} EscapeAppends(writer: Writer, s: string, c: char)
    ensures EscapeText(writer, s + [c]) == EscapeText(writer, s) + EscapeChar(writer, c)
  {
    if s == "" {
      assert s + [c] == [c] && EscapeText(writer, [c][1..]) == "";
    } else {
      EscapeAppends(writer, s[1..], c);
      assert (s + [c])[1..] == s[1..] + [c] && (s + [c])[0] == s[0];
    }
  }

  /** The character that an escape sequence starting at `s[0] == '\\'` stands for, and its length. */
  function ReadEscape(s: string): Option<(char, nat)>
    ensures ReadEscape(s).Some? ==> 2 <= ReadEscape(s).value.1 <= |s|
  {
    if |s| < 2 then None
    else match s[1]
      case '"' => Some(('"', 2))
      case '\\' => Some(('\\', 2))
      case 'b' => Some((8 as char, 2))
      case 'f' => Some((12 as char, 2))
      case 'n' => Some(('\n', 2))
      case 'r' => Some(('\r', 2))
      case 't' => Some(('\t', 2))
      case 'u' =>
        if |s| < 6 then None
        else
          var a, b, c, d := HexValue(s[2]), HexValue(s[3]), HexValue(s[4]), HexValue(s[5]);
          if a.None? || b.None? || c.None? || d.None? then None
          else
            var n := a.value * 4096 + b.value * 256 + c.value * 16 + d.value;
            if n < 0xD800 || 0xE000 <= n < 0x10000 then Some((n as char, 6)) else None
      case _ => None
  }

  /** Reads the content of a JSON string up to its first bare quote; also returns what follows. */
  function ReadText(s: string): Option<(string, string)> {
    if s == "" then None
    else if s[0] == '"' then Some(("", s[1..]))
    else if s[0] == '\\' then
      var e := ReadEscape(s);
      if e.None? then None
      else
        var more := ReadText(s[e.value.1..]);
        if more.None? then None else Some(([e.value.0] + more.value.0, more.value.1))
    else
      var more := ReadText(s[1..]);
      if more.None? then None else Some(([s[0]] + more.value.0, more.value.1))
  }

  lemma HexDigitIsReadBack(n: nat)
    requires n < 16
    ensures HexValue(HexDigit(n)) == Some(n)
  {
  }

  lemma UnicodeEscapeIsReadBack(n: nat, rest: string)
    requires n < 0xD800
    ensures ReadEscape(['\\', 'u'] + Hex4(n) + rest) == Some((n as char, 6))
  {
    var a, b, c := n / 16, n / 16 / 16, n / 16 / 16 / 16;
    HexDigitIsReadBack(c);
    HexDigitIsReadBack(b % 16);
    HexDigitIsReadBack(a % 16);
    HexDigitIsReadBack(n % 16);
    assert c * 4096 + b % 16 * 256 + a % 16 * 16 + n % 16 == n;
    hide HexDigit, HexValue;
    var s := ['\\', 'u'] + Hex4(n) + rest;
    assert s[1] == 'u' && s[2] == HexDigit(c) && s[3] == HexDigit(b % 16) && s[4] == HexDigit(a % 16)
        && s[5] == HexDigit(n % 16);
  }

  lemma ReadEscapedChar(writer: Writer, c: char, rest: string)
    ensures var e := EscapeChar(writer, c);
            if e[0] == '\\' then ReadEscape(e + rest) == Some((c, |e|))
            else e == [c] && c != '"'
  {
    var e := EscapeChar(writer, c);
    if |e| == 6 {
      UnicodeEscapeIsReadBack(c as int, rest);
    } else if |e| == 2 {
      assert (e + rest)[1] == e[1];
    }
  }

  /** The two-character escapes, and the numeric ones (section 7 of RFC 8259). */
  lemma EscapesAreStandard(writer: Writer)
    ensures EscapeChar(writer, '"') == "\\\"" && EscapeChar(writer, '\\') == "\\\\"
    ensures EscapeChar(writer, '\U{8}') == "\\b" && EscapeChar(writer, '\U{C}') == "\\f"
    ensures EscapeChar(writer, '\U{A}') == "\\n" && EscapeChar(writer, '\U{D}') == "\\r"
    ensures EscapeChar(writer, '\U{9}') == "\\t"
    ensures EscapeChar(writer, '\U{0}') == "\\u0000" && EscapeChar(writer, '\U{1F}') == "\\u001f"
    ensures EscapeChar(Native, '\U{2028}') == "\\u2028" && EscapeChar(Native, '\U{2029}') == "\\u2029"
    ensures EscapeChar(writer, ' ') == " " && EscapeChar(writer, '/') == "/" && EscapeChar(writer, '\U{7F}') == "\U{7F}"
  {
  }

  /**
    Escaping has a left inverse: whatever follows the closing quote, the text is read back and
    the reader stops at that quote, so no bare quote was emitted.
  */
  lemma {:induction false} EscapedTextIsReadBack(writer: Writer, s: string, rest: string)
    ensures ReadText(EscapeText(writer, s) + "\"" + rest) == Some((s, rest))
  {
    hide EscapeChar, ReadEscape;
    var closed := "\"" + rest;
    if s == "" {
      assert EscapeText(writer, s) + "\"" + rest == closed;
      assert closed[1..] == rest;
    } else {
      var e := EscapeChar(writer, s[0]);
      var tail := EscapeText(writer, s[1..]) + "\"" + rest;
      assert EscapeText(writer, s) + "\"" + rest == e + tail;
      ReadEscapedChar(writer, s[0], tail);
      EscapedTextIsReadBack(writer, s[1..], rest);
      assert (e + tail)[|e|..] == tail;
      assert [s[0]] + s[1..] == s;
    }
  }

  /** The two writers agree on a text exactly when it holds neither line separator. */
  lemma {:induction false} WritersAgreeExactly(s: string)
    ensures EscapeText(Native, s) == EscapeText(Web, s) <==> forall i :: 0 <= i < |s| ==> !IsSeparator(s[i])
  {
    if s != "" {
      WritersAgreeExactly(s[1..]);
      var n, w := EscapeChar(Native, s[0]), EscapeChar(Web, s[0]);
      var nt, wt := EscapeText(Native, s[1..]), EscapeText(Web, s[1..]);
      if IsSeparator(s[0]) {
        assert (n + nt)[0] == '\\' && (w + wt)[0] == s[0];
      } else {
        assert n == w;
        assert (n + nt)[|n|..] == nt && (w + wt)[|w|..] == wt;
        assert forall i :: 0 <= i < |s[1..]| ==> s[1..][i] == s[i + 1];
      }
    }
  }

  /** A character that no writer escapes. */
  predicate IsPlain(c: char) { c as int >= 0x20 && c != '"' && c != '\\' && !IsSeparator(c) }

  lemma {:induction false} PlainTextIsUnchanged(writer: Writer, s: string)
    requires forall i :: 0 <= i < |s| ==> IsPlain(s[i])
    ensures EscapeText(writer, s) == s
  {
    if s != "" {
      PlainTextIsUnchanged(writer, s[1..]);
      assert [s[0]] + s[1..] == s;
    }
  }

  // ----- the frames of the canonical texts ---------------------------------------------------

  /** What follows `prefix` in `text`, when `text` begins with it. */
  function Expect(text: string, prefix: string): Option<string> {
    if prefix <= text then Some(text[|prefix|..]) else None
  }

  lemma ExpectPrefix(prefix: string, rest: string)
    ensures Expect(prefix + rest, prefix) == Some(rest)
  {
  }

  /** `name` and its value as a JSON member, the opening brace or comma included in `name`. */
  function Member(writer: Writer, name: string, value: string): string {
    name + EscapeText(writer, value) + "\""
  }

  function ReadMember(text: string, name: string): Option<(string, string)> {
    var value := Expect(text, name);
    if value.None? then None else ReadText(value.value)
  }

  lemma MemberIsReadBack(writer: Writer, name: string, value: string, rest: string)
    ensures ReadMember(Member(writer, name, value) + rest, name) == Some((value, rest))
  {
    var body := EscapeText(writer, value) + "\"" + rest;
    assert Member(writer, name, value) + rest == name + body;
    ExpectPrefix(name, body);
    EscapedTextIsReadBack(writer, value, rest);
  }

  /** Consecutive members: `names[i]` with the value `values[i]`. */
  function Members(writer: Writer, names: seq<string>, values: seq<string>): string
    requires |names| == |values|
  {
    if names == [] then "" else Member(writer, names[0], values[0]) + Members(writer, names[1..], values[1..])
  }

  function ReadMembers(text: string, names: seq<string>): Option<(seq<string>, string)>
    ensures ReadMembers(text, names).Some? ==> |ReadMembers(text, names).value.0| == |names|
    decreases names
  {
    if names == [] then Some(([], text))
    else
      var first := ReadMember(text, names[0]);
      if first.None? then None
      else
        var more := ReadMembers(first.value.1, names[1..]);
        if more.None? then None else Some(([first.value.0] + more.value.0, more.value.1))
  }

  lemma {:induction false} MembersAreReadBack(writer: Writer, names: seq<string>, values: seq<string>, rest: string)
    requires |names| == |values|
    ensures ReadMembers(Members(writer, names, values) + rest, names) == Some((values, rest))
  {
    if names == [] {
      assert Members(writer, names, values) + rest == rest;
    } else {
      var more := Members(writer, names[1..], values[1..]);
      assert Members(writer, names, values) + rest == Member(writer, names[0], values[0]) + (more + rest);
      MemberIsReadBack(writer, names[0], values[0], more + rest);
      MembersAreReadBack(writer, names[1..], values[1..], rest);
      assert [values[0]] + values[1..] == values;
    }
  }

  const ACTOR := "{\"actorAddress\":\""
  const METHOD_AND_SIGNED_AT := ",\"method\":\"GetMyEntitlement\",\"request\":{},\"signedAt\":\""

  /** `licence_query_signed_json` */
  function QueryEnvelope(writer: Writer, actor: string, signedAt: string): string {
    Members(writer, [ACTOR, METHOD_AND_SIGNED_AT], [actor, signedAt]) + "}"
  }

  function ReadQueryEnvelope(text: string): Option<(string, string)> {
    var read := ReadMembers(text, [ACTOR, METHOD_AND_SIGNED_AT]);
    if read.None? || read.value.1 != "}" then None else Some((read.value.0[0], read.value.0[1]))
  }

  /** A signed query names its actor and instant unambiguously, whatever the two texts hold. */
  lemma QueryEnvelopeIsReadBack(writer: Writer, actor: string, signedAt: string)
    ensures ReadQueryEnvelope(QueryEnvelope(writer, actor, signedAt)) == Some((actor, signedAt))
  {
    MembersAreReadBack(writer, [ACTOR, METHOD_AND_SIGNED_AT], [actor, signedAt], "}");
  }

  lemma QueryEnvelopeIsInjective(writer: Writer, actor: string, signedAt: string, actor': string, signedAt': string)
    requires QueryEnvelope(writer, actor, signedAt) == QueryEnvelope(writer, actor', signedAt')
    ensures actor == actor' && signedAt == signedAt'
  {
    QueryEnvelopeIsReadBack(writer, actor, signedAt);
    QueryEnvelopeIsReadBack(writer, actor', signedAt');
  }

  const BETWEEN := "\"" + METHOD_AND_SIGNED_AT

  /** The web query writer, which interpolates its two values without escaping them. */
  function WebQueryEnvelope(actor: string, signedAt: string): string {
    ACTOR + actor + BETWEEN + signedAt + "\"" + "}"
  }

  /** The two authorities sign the same bytes exactly if neither value needs an escape. */
  lemma QueryWritersAgree(actor: string, signedAt: string)
    ensures WebQueryEnvelope(actor, signedAt) == QueryEnvelope(Native, actor, signedAt)
       <==> AllPlain(actor) && AllPlain(signedAt)
  {
    EscapingLengthens(actor);
    EscapingLengthens(signedAt);
    TwoMembers(Native, ACTOR, METHOD_AND_SIGNED_AT, actor, signedAt);
    Interpolated(ACTOR, actor, METHOD_AND_SIGNED_AT, signedAt);
    if AllPlain(actor) && AllPlain(signedAt) {
      PlainTextIsUnchanged(Native, actor);
      PlainTextIsUnchanged(Native, signedAt);
    } else {
      hide EscapeText, AllPlain;
      assert |QueryEnvelope(Native, actor, signedAt)| > |WebQueryEnvelope(actor, signedAt)|;
    }
  }

  predicate AllPlain(s: string) { forall i :: 0 <= i < |s| ==> IsPlain(s[i]) }

  /** The native writer never shortens a text, and leaves only plain ones at their length. */
  lemma {:induction false} EscapingLengthens(s: string)
    ensures |EscapeText(Native, s)| >= |s|
    ensures |EscapeText(Native, s)| == |s| <==> AllPlain(s)
  {
    if s != "" {
      EscapingLengthens(s[1..]);
      assert |EscapeChar(Native, s[0])| == 1 <==> IsPlain(s[0]);
      assert forall i :: 0 <= i < |s[1..]| ==> s[1..][i] == s[i + 1];
    }
  }

  lemma TwoMembers(writer: Writer, name: string, name': string, value: string, value': string)
    ensures Members(writer, [name, name'], [value, value'])
         == Member(writer, name, value) + Member(writer, name', value')
  {
    assert [name, name'][1..] == [name'] && [value, value'][1..] == [value'];
    assert Members(writer, [name'], [value']) == Member(writer, name', value') + "";
  }

  lemma Interpolated(name: string, value: string, name': string, value': string)
    ensures name + value + ("\"" + name') + value' + "\"" + "}" == (name + value + "\"") + (name' + value' + "\"") + "}"
  {
  }

  /** What the web envelope holds between its fixed ends. */
  function WebBody(actor: string, signedAt: string): string { actor + BETWEEN + signedAt }

  lemma EnvelopeIsBody(actor: string, signedAt: string, actor': string, signedAt': string)
    ensures WebQueryEnvelope(actor, signedAt) == WebQueryEnvelope(actor', signedAt')
       <==> WebBody(actor, signedAt) == WebBody(actor', signedAt')
  {
    EnvelopeParts(actor, signedAt);
    EnvelopeParts(actor', signedAt');
  }

  lemma EnvelopeParts(actor: string, signedAt: string)
    ensures var text := WebQueryEnvelope(actor, signedAt);
            && |text| == |ACTOR| + |WebBody(actor, signedAt)| + 2
            && text == ACTOR + WebBody(actor, signedAt) + "\"}"
            && text[|ACTOR|..|text| - 2] == WebBody(actor, signedAt)
  {
  }

  /**
    As it is called the web envelope is unambiguous: an instant holds no quotation mark, and on
    such instants the text determines the actor, whatever it is, and the instant.
  */
  lemma WebQueryEnvelopeIsInjective(actor: string, signedAt: string, actor': string, signedAt': string)
    requires '"' !in signedAt && '"' !in signedAt'
    requires WebQueryEnvelope(actor, signedAt) == WebQueryEnvelope(actor', signedAt')
    ensures actor == actor' && signedAt == signedAt'
  {
    EnvelopeIsBody(actor, signedAt, actor', signedAt');
    var body := WebBody(actor, signedAt);
    LastQuote(actor, signedAt);
    LastQuote(actor', signedAt');
    assert body[..|actor|] == actor && body[|actor| + |BETWEEN|..] == signedAt;
    assert body[..|actor'|] == actor' && body[|actor'| + |BETWEEN|..] == signedAt';
  }

  /** The fixed text ends with the last quotation mark of the body. */
  lemma LastQuote(actor: string, signedAt: string)
    requires '"' !in signedAt
    ensures var body, last := WebBody(actor, signedAt), |actor| + |BETWEEN| - 1;
            && 0 <= last < |body| && body[last] == '"'
            && forall i :: last < i < |body| ==> body[i] != '"'
  {
    assert BETWEEN[|BETWEEN| - 1] == '"';
    var body := WebBody(actor, signedAt);
    assert forall i :: |actor| + |BETWEEN| <= i < |body| ==> body[i] == signedAt[i - |actor| - |BETWEEN|];
  }

  predicate OccursAt(text: string, part: string, i: nat) {
    i + |part| <= |text| && text[i..i + |part|] == part
  }

  lemma SharingOccurs(actor: string, signedAt: string, actor': string, signedAt': string)
    requires (actor', signedAt') != (actor, signedAt) && WebBody(actor', signedAt') == WebBody(actor, signedAt)
    ensures |actor'| != |actor| && OccursAt(WebBody(actor, signedAt), BETWEEN, |actor'|)
  {
    BodyParts(actor, signedAt);
    BodyParts(actor', signedAt');
  }

  lemma BodyParts(actor: string, signedAt: string)
    ensures var body, n := WebBody(actor, signedAt), |BETWEEN|;
            && |body| == |actor| + n + |signedAt|
            && body[..|actor|] == actor && body[|actor|..|actor| + n] == BETWEEN && body[|actor| + n..] == signedAt
  {
  }

  lemma OccurrenceShares(actor: string, signedAt: string, i: nat) returns (actor': string, signedAt': string)
    requires i != |actor| && OccursAt(WebBody(actor, signedAt), BETWEEN, i)
    ensures |actor'| == i && WebBody(actor', signedAt') == WebBody(actor, signedAt)
  {
    SplitAt(WebBody(actor, signedAt), BETWEEN, i);
    var body := WebBody(actor, signedAt);
    actor', signedAt' := body[..i], body[i + |BETWEEN|..];
  }

  lemma SplitAt(text: string, part: string, i: nat)
    requires OccursAt(text, part, i)
    ensures text[..i] + part + text[i + |part|..] == text
  {
  }

  /** A web envelope is shared with another pair exactly if the fixed text occurs in it a second time. */
  lemma WebQueryEnvelopeIsShared(actor: string, signedAt: string)
    ensures (exists actor', signedAt' ::
               (actor', signedAt') != (actor, signedAt)
               && WebQueryEnvelope(actor', signedAt') == WebQueryEnvelope(actor, signedAt))
       <==> exists i: nat :: i != |actor| && OccursAt(WebBody(actor, signedAt), BETWEEN, i)
  {
    hide WebQueryEnvelope, WebBody, OccursAt;
    if actor', signedAt' :| (actor', signedAt') != (actor, signedAt)
                            && WebQueryEnvelope(actor', signedAt') == WebQueryEnvelope(actor, signedAt) {
      EnvelopeIsBody(actor', signedAt', actor, signedAt);
      SharingOccurs(actor, signedAt, actor', signedAt');
    }
    if i: nat :| i != |actor| && OccursAt(WebBody(actor, signedAt), BETWEEN, i) {
      var actor', signedAt' := OccurrenceShares(actor, signedAt, i);
      EnvelopeIsBody(actor', signedAt', actor, signedAt);
      assert (actor', signedAt') != (actor, signedAt);
    }
  }

  /** Such texts exist, but only with an instant that holds quotation marks. */
  lemma WebQueryEnvelopeIsAmbiguous()
    ensures WebQueryEnvelope("", BETWEEN) == WebQueryEnvelope(BETWEEN, "")
    ensures ("", BETWEEN) != (BETWEEN, "")
  {
    EnvelopeIsBody("", BETWEEN, BETWEEN, "");
    assert WebBody("", BETWEEN) == BETWEEN + BETWEEN == WebBody(BETWEEN, "");
    assert |BETWEEN| > 0;
  }

  // ----- unsigned licence transactions -------------------------------------------------------

  datatype Payload =
    | Baseline(catalogue: string)
    | Upgrade(requestedPlan: string, catalogue: string, expectedTransaction: string, expectedPlan: string)

  /** Text members up to their values: the first follows `open`, the others a comma. */
  function Heads(open: char, names: seq<string>): (heads: seq<string>)
    ensures |heads| == |names|
    decreases names
  {
    if names == [] then [] else [[open] + ("\"" + names[0] + "\":\"")] + Heads(',', names[1..])
  }

  /** A later member up to its value. */
  function Field(name: string): string { ",\"" + name + "\":" }

  const HEAD_NAMES := ["TransitionIntent", "RequestedPlanId", "ObservedCatalogueVersion"]
  const TAIL_NAMES := ["ExpectedCurrentLicenceTransactionId", "ExpectedCurrentPlanId"]
  const PAYLOAD_HEAD := Heads('{', HEAD_NAMES)
  const PAYLOAD_TAIL := Heads(',', TAIL_NAMES)

  /** `baseline_payload_json` and `confirmed_upgrade_payload_json` */
  function PayloadText(writer: Writer, p: Payload): string {
    match p
    case Baseline(catalogue) =>
      Members(writer, PAYLOAD_HEAD, [INTENT_BASELINE_FREE, PLAN_DIRECT_FREE, catalogue]) + "}"
    case Upgrade(requested, catalogue, expectedTx, expectedPlan) =>
      Members(writer, PAYLOAD_HEAD, [INTENT_CONFIRMED_UPGRADE, requested, catalogue])
      + (Members(writer, PAYLOAD_TAIL, [expectedTx, expectedPlan]) + "}")
  }

  const TRANSACTION_NAMES := ["TransactionId", "PayloadKind", "TransactionTimeStamp"]
  const TRANSACTION_HEAD := Heads('{', TRANSACTION_NAMES)
  const PAYLOAD_NAME := "Payload"
  const SIZE_NAME := "PayloadSize"
  const PAYLOAD := Field(PAYLOAD_NAME)

  /** The last member: the byte length of the payload, and the closing brace. */
  function SizeMember(payload: string): string { Field(SIZE_NAME) + Decimal(Utf8Length(payload)) + "}" }

  /** `canonical_unsigned_transaction_json` and its upgrade twin */
  function UnsignedTransaction(writer: Writer, id: string, timestamp: string, p: Payload): string {
    var payload := PayloadText(writer, p);
    Members(writer, TRANSACTION_HEAD, [id, PAYLOAD_KIND, timestamp]) + (PAYLOAD + (payload + SizeMember(payload)))
  }

  /** Reads a payload and also returns what follows it. */
  function ReadPayload(text: string): Option<(Payload, string)> {
    var head := ReadMembers(text, PAYLOAD_HEAD);
    if head.None? then None
    else ReadPayloadEnd(head.value.0[0], head.value.0[1], head.value.0[2], head.value.1)
  }

  /** The end of a payload, whose form depends on the transition intent. */
  function ReadPayloadEnd(intent: string, requested: string, catalogue: string, text: string)
    : Option<(Payload, string)>
  {
    if intent == INTENT_BASELINE_FREE then
      var rest := Expect(text, "}");
      if rest.None? || requested != PLAN_DIRECT_FREE then None else Some((Baseline(catalogue), rest.value))
    else
      var tail := ReadMembers(text, PAYLOAD_TAIL);
      if tail.None? then None
      else
        var rest := Expect(tail.value.1, "}");
        if rest.None? then None
        else Some((Upgrade(requested, catalogue, tail.value.0[0], tail.value.0[1]), rest.value))
  }

  /** Reads a transaction; the size member must be the byte length of the payload as written. */
  function ReadUnsignedTransaction(text: string): Option<(string, string, Payload)> {
    var head := ReadMembers(text, TRANSACTION_HEAD);
    if head.None? || head.value.0[1] != PAYLOAD_KIND then None
    else
      var body := Expect(head.value.1, PAYLOAD);
      if body.None? then None
      else
        var payload := ReadPayload(body.value);
        if payload.None? || |payload.value.1| > |body.value| then None
        else
          var written := body.value[..|body.value| - |payload.value.1|];
          if payload.value.1 != SizeMember(written) then None
          else Some((head.value.0[0], head.value.0[2], payload.value.0))
  }

  lemma PayloadHeadIsReadBack(writer: Writer, intent: string, requested: string, catalogue: string,
                              end: string, rest: string)
    ensures ReadPayload((Members(writer, PAYLOAD_HEAD, [intent, requested, catalogue]) + end) + rest)
         == ReadPayloadEnd(intent, requested, catalogue, end + rest)
  {
    Regroup(Members(writer, PAYLOAD_HEAD, [intent, requested, catalogue]), end, rest);
    MembersAreReadBack(writer, PAYLOAD_HEAD, [intent, requested, catalogue], end + rest);
  }

  lemma UpgradeEndIsReadBack(writer: Writer, p: Payload, rest: string)
    requires p.Upgrade?
    ensures ReadPayloadEnd(INTENT_CONFIRMED_UPGRADE, p.requestedPlan, p.catalogue,
                           (Members(writer, PAYLOAD_TAIL, [p.expectedTransaction, p.expectedPlan]) + "}") + rest)
         == Some((p, rest))
  {
    Regroup(Members(writer, PAYLOAD_TAIL, [p.expectedTransaction, p.expectedPlan]), "}", rest);
    MembersAreReadBack(writer, PAYLOAD_TAIL, [p.expectedTransaction, p.expectedPlan], "}" + rest);
    ExpectPrefix("}", rest);
    assert |INTENT_CONFIRMED_UPGRADE| != |INTENT_BASELINE_FREE|;
  }

  lemma Regroup(a: string, b: string, c: string)
    ensures (a + b) + c == a + (b + c)
  {
  }

  lemma PayloadIsReadBack(writer: Writer, p: Payload, rest: string)
    ensures ReadPayload(PayloadText(writer, p) + rest) == Some((p, rest))
  {
    hide EscapeText, ReadText, ReadMembers, Members, ReadPayload;
    match p
    case Baseline(catalogue) =>
      PayloadHeadIsReadBack(writer, INTENT_BASELINE_FREE, PLAN_DIRECT_FREE, catalogue, "}", rest);
      ExpectPrefix("}", rest);
    case Upgrade(requested, catalogue, expectedTx, expectedPlan) =>
      var end := Members(writer, PAYLOAD_TAIL, [expectedTx, expectedPlan]) + "}";
      PayloadHeadIsReadBack(writer, INTENT_CONFIRMED_UPGRADE, requested, catalogue, end, rest);
      UpgradeEndIsReadBack(writer, p, rest);
  }

  /** The signed text determines the transaction: id, instant, purpose and every payload member. */
  lemma UnsignedTransactionIsReadBack(writer: Writer, id: string, timestamp: string, p: Payload)
    ensures ReadUnsignedTransaction(UnsignedTransaction(writer, id, timestamp, p)) == Some((id, timestamp, p))
  {
    hide EscapeText, ReadText, ReadMembers, Members, PayloadText, ReadPayload, Heads;
    var payload := PayloadText(writer, p);
    var body := payload + SizeMember(payload);
    MembersAreReadBack(writer, TRANSACTION_HEAD, [id, PAYLOAD_KIND, timestamp], PAYLOAD + body);
    ExpectPrefix(PAYLOAD, body);
    PayloadIsReadBack(writer, p, SizeMember(payload));
    assert body[..|body| - |SizeMember(payload)|] == payload;
  }

  lemma UnsignedTransactionIsInjective(writer: Writer, id: string, timestamp: string, p: Payload,
                                       id': string, timestamp': string, p': Payload)
    requires UnsignedTransaction(writer, id, timestamp, p) == UnsignedTransaction(writer, id', timestamp', p')
    ensures id == id' && timestamp == timestamp' && p == p'
  {
    UnsignedTransactionIsReadBack(writer, id, timestamp, p);
    UnsignedTransactionIsReadBack(writer, id', timestamp', p');
  }
}
