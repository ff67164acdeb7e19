/**
  Texts and their lengths in the two encodings that bound them, and the fixed formats that
  several components check: lowercase hexadecimal, UUIDs and UTC instants. Each `Matches`
  predicate states one of the regular expressions of the source.
*/
module TextFormats {

  type byte = x: int | 0 <= x < 256

  predicate IsDigit(c: char) { '0' <= c <= '9' }

  predicate IsLowerHex(c: char) { IsDigit(c) || 'a' <= c <= 'f' }

  predicate AllDigits(s: string) { forall i :: 0 <= i < |s| ==> IsDigit(s[i]) }

  predicate AllLowerHex(s: string) { forall i :: 0 <= i < |s| ==> IsLowerHex(s[i]) }

  /** The length of a text in JavaScript: two units for a character outside the basic plane. */
  function Utf16Length(s: string): nat {
    if s == "" then 0 else (if s[0] as int < 0x10000 then 1 else 2) + Utf16Length(s[1..])
  }

  /** A nonempty JavaScript text of at most `max` units. */
  predicate IsBounded(s: string, max: nat) { s != "" && Utf16Length(s) <= max }

  /** One Unicode scalar value in UTF-8. */
  function Utf8Char(c: char): (bytes: seq<byte>)
    ensures |bytes| == Utf8Width(c)
    ensures bytes[0] < 0x80 <==> c as int < 0x80
  {
    var n := c as int;
    if n < 0x80 then [n]
    else if n < 0x800 then [0xC0 + n / 0x40, 0x80 + n % 0x40]
    else if n < 0x10000 then [0xE0 + n / 0x1000, 0x80 + n / 0x40 % 0x40, 0x80 + n % 0x40]
    else [0xF0 + n / 0x40000, 0x80 + n / 0x1000 % 0x40, 0x80 + n / 0x40 % 0x40, 0x80 + n % 0x40]
  }

  function Utf8Width(c: char): nat {
    if c as int < 0x80 then 1 else if c as int < 0x800 then 2 else if c as int < 0x10000 then 3 else 4
  }

  function Utf8Length(s: string): nat {
    if s == "" then 0 else Utf8Width(s[0]) + Utf8Length(s[1..])
  }

  function Utf8(s: string): (bytes: seq<byte>)
    ensures |bytes| == Utf8Length(s)
  {
    if s == "" then [] else Utf8Char(s[0]) + Utf8(s[1..])
  }

  predicate IsAscii(s: string) { forall i :: 0 <= i < |s| ==> s[i] as int < 0x80 }

  /** ASCII texts have one unit and one byte for each character. */
  lemma {:induction false} AsciiLengths(s: string)
    requires IsAscii(s)
    ensures Utf8Length(s) == |s| && Utf16Length(s) == |s|
    ensures |Utf8(s)| == |s| && forall i :: 0 <= i < |s| ==> Utf8(s)[i] == s[i] as int
  {
    if s != "" { AsciiLengths(s[1..]); }
  }

  /** Bytes below 128 stand for themselves, so a text whose bytes all are is ASCII. */
  lemma {:induction false} AsciiBytesAreText(s: string)
    requires forall i :: 0 <= i < |Utf8(s)| ==> Utf8(s)[i] < 0x80
    ensures IsAscii(s)
  {
    if s != "" {
      var first, rest := Utf8Char(s[0]), Utf8(s[1..]);
      assert Utf8(s)[0] == first[0];
      assert forall i :: 0 <= i < |rest| ==> rest[i] == Utf8(s)[|first| + i];
      AsciiBytesAreText(s[1..]);
      assert forall i :: 0 < i < |s| ==> s[i] == s[1..][i - 1];
    }
  }

  /** No text is longer in UTF-16 units than in bytes, nor in bytes than four for each character. */
  lemma {:induction false} LengthsCompare(s: string)
    ensures |s| <= Utf16Length(s) <= Utf8Length(s) <= 4 * |s|
  {
    if s != "" { LengthsCompare(s[1..]); }
  }

  /** A number in decimal digits. */
  function Decimal(n: nat): string {
    var digit := [('0' as int + n % 10) as char];
    if n < 10 then digit else Decimal(n / 10) + digit
  }

  /** `[0-9a-f]{8}-[0-9a-f]{4}-[0-9a-f]{4}-[0-9a-f]{4}-[0-9a-f]{12}` */
  predicate MatchesUuid(s: string) {
    && |s| == 36
    && AllLowerHex(s[..8]) && s[8] == '-'
    && AllLowerHex(s[9..13]) && s[13] == '-'
    && AllLowerHex(s[14..18]) && s[18] == '-'
    && AllLowerHex(s[19..23]) && s[23] == '-'
    && AllLowerHex(s[24..])
  }

  /** `\d{4}-\d{2}-\d{2}T\d{2}:\d{2}:\d{2}` */
  predicate MatchesDateTime(s: string)
  {
    && |s| == 19
    && AllDigits(s[..4]) && s[4] == '-' && AllDigits(s[5..7]) && s[7] == '-' && AllDigits(s[8..10])
    && s[10] == 'T'
    && AllDigits(s[11..13]) && s[13] == ':' && AllDigits(s[14..16]) && s[16] == ':' && AllDigits(s[17..])
  }

  /** `\d{4}-\d{2}-\d{2}T\d{2}:\d{2}(:\d{2}(\.\d{3})?)?Z` */
  predicate MatchesMinuteInstant(s: string) {
    && |s| in {17, 20, 24}
    && AllDigits(s[..4]) && s[4] == '-' && AllDigits(s[5..7]) && s[7] == '-' && AllDigits(s[8..10])
    && s[10] == 'T' && AllDigits(s[11..13]) && s[13] == ':' && AllDigits(s[14..16])
    && (|s| > 17 ==> s[16] == ':' && AllDigits(s[17..19]))
    && (|s| > 20 ==> s[19] == '.' && AllDigits(s[20..23]))
    && s[|s| - 1] == 'Z'
  }

  /** `\d{4}-\d{2}-\d{2}T\d{2}:\d{2}:\d{2}(\.\d{1,3})?Z` */
  predicate MatchesUtcInstant(s: string) {
    && 20 <= |s| <= 24
    && MatchesDateTime(s[..19])
    && s[|s| - 1] == 'Z'
    && (|s| == 20 || (|s| >= 22 && s[19] == '.' && AllDigits(s[20..|s| - 1])))
  }

  lemma UuidIsAscii(s: string)
    requires MatchesUuid(s)
    ensures IsAscii(s) && Utf8Length(s) == 36 && Utf16Length(s) == 36
  {
    forall i | 0 <= i < 36
      ensures s[i] as int < 0x80
    {
      if i < 8 { assert s[i] == s[..8][i]; }
      else if 9 <= i < 13 { assert s[i] == s[9..13][i - 9]; }
      else if 14 <= i < 18 { assert s[i] == s[14..18][i - 14]; }
      else if 19 <= i < 23 { assert s[i] == s[19..23][i - 19]; }
      else if 24 <= i { assert s[i] == s[24..][i - 24]; }
    }
    AsciiLengths(s);
  }

  /** What the characters of an instant are, the separating T and the final Z aside. */
  predicate IsInstantChar(c: char) { IsDigit(c) || c == '-' || c == ':' || c == '.' }

  lemma DateTimeChars(d: string)
    requires MatchesDateTime(d)
    ensures forall i :: 0 <= i < 19 && i != 10 ==> IsInstantChar(d[i])
    ensures d[4] == '-' && d[7] == '-' && d[10] == 'T' && d[13] == ':' && d[16] == ':'
  {
    assert forall i :: 0 <= i < 4 ==> d[..4][i] == d[i];
    assert forall i :: 5 <= i < 7 ==> d[5..7][i - 5] == d[i];
    assert forall i :: 8 <= i < 10 ==> d[8..10][i - 8] == d[i];
    assert forall i :: 11 <= i < 13 ==> d[11..13][i - 11] == d[i];
    assert forall i :: 14 <= i < 16 ==> d[14..16][i - 14] == d[i];
    assert forall i :: 17 <= i < 19 ==> d[17..][i - 17] == d[i];
  }

  lemma InstantChars(s: string)
    requires MatchesUtcInstant(s)
    ensures 20 <= |s| <= 24
    ensures forall i :: 0 <= i < |s| - 1 && i != 10 ==> IsInstantChar(s[i])
    ensures s[4] == '-' && s[7] == '-' && s[10] == 'T' && s[13] == ':' && s[16] == ':' && s[|s| - 1] == 'Z'
  {
    hide MatchesDateTime;
    DateTimeChars(s[..19]);
    forall i | 20 <= i < |s| - 1
      ensures IsInstantChar(s[i])
    {
      assert s[20..|s| - 1][i - 20] == s[i];
    }
  }

  lemma InstantIsAscii(s: string)
    requires MatchesUtcInstant(s)
    ensures IsAscii(s) && Utf8Length(s) == |s| && Utf16Length(s) == |s| && |s| <= 24
  {
    InstantChars(s);
    AsciiLengths(s);
  }
}
