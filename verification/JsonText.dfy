/**
  JSON values as `JSON.stringify` writes them without spaces, and a reader for that form: every
  value is read back, so the text of a record determines the record (section 2 of RFC 8259).
*/
module JsonText {
  import opened Wrappers
  import opened TextFormats
  import opened LicenceCanonicalText

  datatype Json =
    | Null
    | Boolean(b: bool)
    | Number(n: nat)
    | Text(s: string)
    | List(items: seq<Json>)
    | Object(members: seq<Entry>)

  datatype Entry = Entry(name: string, value: Json)

  /** The member of that name; `JSON.parse` keeps the last of several. */
  function Get(members: seq<Entry>, name: string): Option<Json> {
    if members == [] then None
    else if members[|members| - 1].name == name then Some(members[|members| - 1].value)
    else Get(members[..|members| - 1], name)
  }

  predicate Distinct(members: seq<Entry>) {
    forall i, j :: 0 <= i < j < |members| ==> members[i].name != members[j].name
  }

  lemma {:induction false} GetIs(members: seq<Entry>, i: nat)
    requires i < |members| && Distinct(members)
    ensures Get(members, members[i].name) == Some(members[i].value)
  {
    if i < |members| - 1 { GetIs(members[..|members| - 1], i); }
  }

  lemma {:induction false} GetConcat(front: seq<Entry>, back: seq<Entry>, name: string)
    ensures Get(front + back, name) == if Get(back, name).Some? then Get(back, name) else Get(front, name)
  {
    if back == [] {
      assert front + back == front;
    } else {
      assert (front + back)[..|front + back| - 1] == front + back[..|back| - 1];
      GetConcat(front, back[..|back| - 1], name);
    }
  }

  lemma {:induction false} GetNone(members: seq<Entry>, name: string)
    requires forall i :: 0 <= i < |members| ==> members[i].name != name
    ensures Get(members, name) == None
  {
    if members != [] { GetNone(members[..|members| - 1], name); }
  }

  // ----- writing ------------------------------------------------------------------------------

  function Quoted(s: string): string { ['"'] + (EscapeText(Web, s) + ['"']) }

  function Print(j: Json): string {
    match j
    case Null => "null"
    case Boolean(b) => if b then "true" else "false"
    case Number(n) => Decimal(n)
    case Text(s) => Quoted(s)
    case List(items) => ['['] + if items == [] then [']'] else PrintItems(items)
    case Object(members) => ['{'] + if members == [] then ['}'] else PrintMembers(members)
  }

  /** The items of a list, and its closing bracket. */
  function PrintItems(items: seq<Json>): string
    requires items != []
  {
    Print(items[0]) + if |items| == 1 then [']'] else [','] + PrintItems(items[1..])
  }

  function PrintMembers(members: seq<Entry>): string
    requires members != []
  {
    Quoted(members[0].name) + ([':'] + (Print(members[0].value)
      + if |members| == 1 then ['}'] else [','] + PrintMembers(members[1..])))
  }

  // ----- reading ------------------------------------------------------------------------------

  predicate Starts(text: string, c: char) { text != "" && text[0] == c }

  function ReadDigits(sofar: nat, text: string): (r: (nat, string))
    ensures |r.1| <= |text|
    decreases |text|
  {
    if text != "" && IsDigit(text[0])
    then ReadDigits(sofar * 10 + (text[0] as int - '0' as int), text[1..])
    else (sofar, text)
  }

  /** A quoted text, and what follows it. */
  function ReadQuoted(text: string): (r: Option<(string, string)>)
    ensures r.Some? ==> |r.value.1| < |text|
  {
    if !Starts(text, '"') then None
    else
      ReadTextShrinks(text[1..]);
      ReadText(text[1..])
  }

  lemma {:induction false} ReadTextShrinks(s: string)
    ensures ReadText(s).Some? ==> |ReadText(s).value.1| < |s|
    decreases |s|
  {
    if s != "" && s[0] == '\\' && ReadEscape(s).Some? {
      ReadTextShrinks(s[ReadEscape(s).value.1..]);
    } else if s != "" && s[0] != '"' {
      ReadTextShrinks(s[1..]);
    }
  }

  function Read(text: string): (r: Option<(Json, string)>)
    ensures r.Some? ==> |r.value.1| < |text|
    decreases |text|, 0
  {
    if text == "" then None
    else if text[0] == '"' then
      var q := ReadQuoted(text);
      if q.None? then None else Some((Text(q.value.0), q.value.1))
    else if IsDigit(text[0]) then
      var d := ReadDigits(text[0] as int - '0' as int, text[1..]);
      Some((Number(d.0), d.1))
    else if text[0] == '[' then
      if Starts(text[1..], ']') then Some((List([]), text[2..]))
      else
        var more := ReadItems(text[1..]);
        if more.None? then None else Some((List(more.value.0), more.value.1))
    else if text[0] == '{' then
      if Starts(text[1..], '}') then Some((Object([]), text[2..]))
      else
        var more := ReadMembers(text[1..]);
        if more.None? then None else Some((Object(more.value.0), more.value.1))
    else if "null" <= text then Some((Null, text[4..]))
    else if "true" <= text then Some((Boolean(true), text[4..]))
    else if "false" <= text then Some((Boolean(false), text[5..]))
    else None
  }

  function ReadItems(text: string): (r: Option<(seq<Json>, string)>)
    ensures r.Some? ==> |r.value.1| < |text|
    decreases |text|, 1
  {
    var first := Read(text);
    if first.None? then None
    else if Starts(first.value.1, ']') then Some(([first.value.0], first.value.1[1..]))
    else if !Starts(first.value.1, ',') then None
    else
      var more := ReadItems(first.value.1[1..]);
      if more.None? then None else Some(([first.value.0] + more.value.0, more.value.1))
  }

  function ReadMembers(text: string): (r: Option<(seq<Entry>, string)>)
    ensures r.Some? ==> |r.value.1| < |text|
    decreases |text|, 1
  {
    var name := ReadQuoted(text);
    if name.None? || !Starts(name.value.1, ':') then None
    else
      var value := Read(name.value.1[1..]);
      if value.None? then None
      else
        var first := Entry(name.value.0, value.value.0);
        if Starts(value.value.1, '}') then Some(([first], value.value.1[1..]))
        else if !Starts(value.value.1, ',') then None
        else
          var more := ReadMembers(value.value.1[1..]);
          if more.None? then None else Some(([first] + more.value.0, more.value.1))
  }

  /** `JSON.parse` of a whole text. */
  function ReadAll(text: string): Option<Json> {
    var r := Read(text);
    if r.None? || r.value.1 != "" then None else Some(r.value.0)
  }

  // ----- the reader undoes the writer ---------------------------------------------------------

  lemma QuotedIsReadBack(s: string, rest: string)
    ensures ReadQuoted(Quoted(s) + rest) == Some((s, rest))
    ensures Starts(Quoted(s) + rest, '"')
  {
    hide EscapeText, ReadText;
    EscapedTextIsReadBack(Web, s, rest);
    assert (Quoted(s) + rest)[1..] == EscapeText(Web, s) + "\"" + rest;
  }

  lemma {:induction false} DecimalIsReadBack(n: nat, rest: string)
    ensures ReadDigits(0, Decimal(n) + rest) == ReadDigits(n, rest)
    ensures IsDigit(Decimal(n)[0])
  {
    var digit := [('0' as int + n % 10) as char];
    assert (digit + rest)[1..] == rest && IsDigit(digit[0]);
    if n >= 10 {
      DecimalIsReadBack(n / 10, digit + rest);
      assert Decimal(n) + rest == Decimal(n / 10) + (digit + rest);
    }
  }

  /** What may follow a value: not another digit. */
  predicate Ends(rest: string) { rest == "" || !IsDigit(rest[0]) }

  lemma NumberIsReadBack(n: nat, rest: string)
    requires Ends(rest)
    ensures Read(Decimal(n) + rest) == Some((Number(n), rest))
  {
    DecimalIsReadBack(n, rest);
    var text := Decimal(n) + rest;
    assert text[0] == Decimal(n)[0];
    assert ReadDigits(0, text) == ReadDigits(text[0] as int - '0' as int, text[1..]);
    assert ReadDigits(n, rest) == (n, rest);
  }

  lemma WordIsReadBack(j: Json, rest: string)
    requires j.Null? || j.Boolean?
    ensures Read(Print(j) + rest) == Some((j, rest))
  {
    var text := Print(j) + rest;
    assert text[0] == Print(j)[0] && text[1] == Print(j)[1];
    assert Print(j) <= text && text[|Print(j)|..] == rest;
  }

  lemma FirstCharacter(j: Json)
    ensures Print(j) != "" && Print(j)[0] != ']' && Print(j)[0] != '}'
  {
    if j.Number? { DecimalIsReadBack(j.n, ""); }
  }

  /** Every value is read back from its text, whatever follows. */
  lemma {:induction false} PrintedIsReadBack(j: Json, rest: string)
    requires Ends(rest)
    ensures Read(Print(j) + rest) == Some((j, rest))
    decreases j, 0
  {
    hide Quoted, EscapeText, ReadText, ReadQuoted, Decimal, ReadDigits, PrintItems, PrintMembers, ReadItems,
         ReadMembers;
    var text := Print(j) + rest;
    match j
    case Null => WordIsReadBack(j, rest);
    case Boolean(_) => WordIsReadBack(j, rest);
    case Number(n) => NumberIsReadBack(n, rest);
    case Text(s) => QuotedIsReadBack(s, rest);
    case List(items) =>
      if items == [] {
        assert text[1..] == [']'] + rest && text[2..] == rest;
      } else {
        ItemsAreReadBack(items, rest);
        assert text[1..] == PrintItems(items) + rest;
      }
    case Object(members) =>
      if members == [] {
        assert text[1..] == ['}'] + rest && text[2..] == rest;
      } else {
        MembersAreRead(members, rest);
        assert text[1..] == PrintMembers(members) + rest;
      }
  }

  lemma {:induction false} ItemsAreReadBack(items: seq<Json>, rest: string)
    requires items != []
    ensures ReadItems(PrintItems(items) + rest) == Some((items, rest))
    ensures !Starts(PrintItems(items) + rest, ']')
    decreases items, 1
  {
    hide Read, Print;
    FirstCharacter(items[0]);
    if |items| == 1 {
      assert PrintItems(items) + rest == Print(items[0]) + ([']'] + rest);
      PrintedIsReadBack(items[0], [']'] + rest);
      assert ([']'] + rest)[1..] == rest && items == [items[0]];
    } else {
      var tail := [','] + (PrintItems(items[1..]) + rest);
      assert PrintItems(items) + rest == Print(items[0]) + tail;
      PrintedIsReadBack(items[0], tail);
      var more := PrintItems(items[1..]) + rest;
      assert tail[1..] == more && Starts(tail, ',');
      ItemsAreReadBack(items[1..], rest);
      assert ReadItems(Print(items[0]) + tail) == Some(([items[0]] + items[1..], rest));
      assert items == [items[0]] + items[1..];
    }
  }

  lemma {:induction false} MembersAreRead(members: seq<Entry>, rest: string)
    requires members != []
    ensures ReadMembers(PrintMembers(members) + rest) == Some((members, rest))
    ensures !Starts(PrintMembers(members) + rest, '}')
    decreases members, 1
  {
    hide Read, Print, Quoted, ReadQuoted;
    var first := members[0];
    var close := if |members| == 1 then ['}'] + rest else [','] + (PrintMembers(members[1..]) + rest);
    var value := Print(first.value) + close;
    assert PrintMembers(members) + rest == Quoted(first.name) + ([':'] + value);
    QuotedIsReadBack(first.name, [':'] + value);
    assert ([':'] + value)[1..] == value;
    PrintedIsReadBack(first.value, close);
    if |members| == 1 {
      assert close[1..] == rest && members == [first];
    } else {
      var more := PrintMembers(members[1..]) + rest;
      assert close[1..] == more && Starts(close, ',');
      MembersAreRead(members[1..], rest);
      assert Entry(first.name, first.value) == first;
      assert ReadMembers(Quoted(first.name) + ([':'] + value)) == Some(([first] + members[1..], rest));
      assert members == [first] + members[1..];
    }
  }

  /** Parsing what was stringified gives the value back. */
  lemma StringifiedIsParsed(j: Json)
    ensures ReadAll(Print(j)) == Some(j)
  {
    hide Print, Read;
    PrintedIsReadBack(j, "");
    assert Print(j) + "" == Print(j);
  }
}
