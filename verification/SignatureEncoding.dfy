/**
  ECDSA signatures as 64 bytes r||s and as a DER SEQUENCE of two INTEGERs
  (identity-compatibility/crypto.ts): the two conversions are inverse bijections between pairs
  of 32-byte numbers and exactly the byte strings the decoder accepts.
*/
module SignatureEncoding {
  import opened Wrappers
  import opened TextFormats

  const SEQUENCE: byte := 0x30
  const INTEGER: byte := 0x02

  function ToNat(bytes: seq<byte>): nat {
    if bytes == [] then 0 else 256 * ToNat(bytes[..|bytes| - 1]) + bytes[|bytes| - 1]
  }

  /** The shortest big-endian form, one zero byte for zero. */
  function FromNat(n: nat): (bytes: seq<byte>)
    ensures |bytes| > 0
  {
    if n < 256 then [n] else FromNat(n / 256) + [n % 256]
  }

  /** The contents of an INTEGER: the shortest form whose top bit is clear. */
  function EncodeInt(n: nat): (bytes: seq<byte>)
    ensures |bytes| > 0
  {
    var shortest := FromNat(n);
    if shortest[0] >= 0x80 then [0] + shortest else shortest
  }

  function LengthByte(bytes: seq<byte>): byte { |bytes| % 256 }

  function Tagged(tag: byte, contents: seq<byte>): seq<byte> { [tag, LengthByte(contents)] + contents }

  /** None where reading an empty number throws. */
  function CompactToDer(r: seq<byte>, s: seq<byte>): Option<seq<byte>> {
    if r == [] || s == [] then None
    else Some(Tagged(SEQUENCE, Tagged(INTEGER, EncodeInt(ToNat(r))) + Tagged(INTEGER, EncodeInt(ToNat(s)))))
  }

  function Zeros(n: nat): (z: seq<byte>)
    ensures |z| == n && forall i :: 0 <= i < n ==> z[i] == 0
  {
    if n == 0 then [] else Zeros(n - 1) + [0]
  }

  predicate IsDerInteger(bytes: seq<byte>) {
    && 1 <= |bytes| <= 33
    && bytes[0] < 0x80
    && (|bytes| > 1 && bytes[0] == 0 ==> bytes[1] >= 0x80)
    && (|bytes| == 33 ==> bytes[0] == 0)
  }

  function Padded(bytes: seq<byte>): seq<byte>
    requires IsDerInteger(bytes)
  {
    var unsigned := if |bytes| == 33 then bytes[1..] else bytes;
    Zeros(32 - |unsigned|) + unsigned
  }

  /** None where the source throws. */
  method PadTo32(bytes: seq<byte>) returns (padded: Option<seq<byte>>)
    ensures padded == if IsDerInteger(bytes) then Some(Padded(bytes)) else None
  {
    if |bytes| < 1 || |bytes| > 33 || bytes[0] >= 0x80 { return None; }
    if |bytes| > 1 && bytes[0] == 0 && bytes[1] < 0x80 { return None; }
    if |bytes| == 33 && bytes[0] != 0 { return None; }
    var unsigned := if |bytes| == 33 then bytes[1..] else bytes;
    var buffer := new byte[32](_ => 0);
    var offset := 32 - |unsigned|;
    forall i | 0 <= i < |unsigned| {
      buffer[offset + i] := unsigned[i];
    }
    assert buffer[..] == Padded(bytes);
    return Some(buffer[..]);
  }

  /** One byte, or nothing past the end. */
  function At(bytes: seq<byte>, i: nat): Option<byte> { if i < |bytes| then Some(bytes[i]) else None }

  /** Where the contents of the second INTEGER begin, when the frame of the sequence is right. */
  function Frame(der: seq<byte>): Option<nat> {
    if |der| < 8 || |der| > 72 || der[0] != SEQUENCE then None
    else if der[1] != |der| - 2 || der[2] != INTEGER || der[3] < 1 || der[3] > 33 then None
    else
      var tag := 4 + der[3];
      if At(der, tag) != Some(INTEGER) then None
      else
        var length := At(der, tag + 1);
        if length.None? || length.value < 1 || length.value > 33 || tag + 2 + length.value != |der| then None
        else Some(tag + 2)
  }

  function DerToCompact(der: seq<byte>): Option<seq<byte>> {
    var start := Frame(der);
    if start.None? then None
    else
      var r, s := der[4..start.value - 2], der[start.value..];
      if IsDerInteger(r) && IsDerInteger(s) then Some(Padded(r) + Padded(s)) else None
  }

  // ----- numbers and their shortest forms -----------------------------------------------------

  lemma {:induction false} FromNatIsRead(n: nat)
    ensures ToNat(FromNat(n)) == n
    ensures n > 0 ==> FromNat(n)[0] > 0
  {
    if n >= 256 {
      FromNatIsRead(n / 256);
      assert FromNat(n)[..|FromNat(n)| - 1] == FromNat(n / 256);
    } else {
      assert FromNat(n)[..0] == [];
    }
  }

  predicate IsShortest(bytes: seq<byte>) { |bytes| == 1 || (|bytes| > 1 && bytes[0] > 0) }

  lemma {:induction false} ShortestIsWritten(bytes: seq<byte>)
    requires IsShortest(bytes)
    ensures FromNat(ToNat(bytes)) == bytes
    ensures |bytes| > 1 ==> ToNat(bytes) >= 256
  {
    var front, last := bytes[..|bytes| - 1], bytes[|bytes| - 1];
    if |bytes| == 1 {
      assert front == [];
    } else {
      ShortestIsWritten(front);
      assert ToNat(front) > 0 by { if |front| == 1 { assert front[..0] == []; } }
      assert bytes == front + [last];
      assert (256 * ToNat(front) + last) / 256 == ToNat(front);
    }
  }

  lemma {:induction false} ZerosAreZero(k: nat)
    ensures ToNat(Zeros(k)) == 0
  {
    if k > 0 {
      ZerosAreZero(k - 1);
      assert Zeros(k)[..k - 1] == Zeros(k - 1);
    }
  }

  lemma {:induction false} LeadingZeros(k: nat, bytes: seq<byte>)
    ensures ToNat(Zeros(k) + bytes) == ToNat(bytes)
  {
    hide Zeros;
    var all := Zeros(k) + bytes;
    if bytes == [] {
      assert all == Zeros(k);
      ZerosAreZero(k);
    } else {
      assert all[..|all| - 1] == Zeros(k) + bytes[..|bytes| - 1];
      LeadingZeros(k, bytes[..|bytes| - 1]);
    }
  }

  /** Leading zeros split off any number. */
  lemma {:induction false} SplitZeros(bytes: seq<byte>) returns (k: nat, shortest: seq<byte>)
    requires bytes != []
    ensures bytes == Zeros(k) + shortest && IsShortest(shortest)
  {
    if IsShortest(bytes) {
      k, shortest := 0, bytes;
      assert Zeros(0) == [];
    } else {
      k, shortest := SplitZeros(bytes[1..]);
      assert [0] + Zeros(k) == Zeros(k + 1);
      assert bytes == [bytes[0]] + bytes[1..];
      assert bytes == [0] + (Zeros(k) + shortest) == ([0] + Zeros(k)) + shortest;
      k := k + 1;
    }
  }

  // ----- one INTEGER --------------------------------------------------------------------------

  /** The contents of an INTEGER denote its number, and every longer form only adds zeros in front. */
  lemma IntegerIsMinimal(n: nat, other: seq<byte>) returns (k: nat)
    requires other != [] && other[0] < 0x80 && ToNat(other) == n
    ensures ToNat(EncodeInt(n)) == n && EncodeInt(n)[0] < 0x80
    ensures other == Zeros(k) + EncodeInt(n)
  {
    hide ToNat, FromNat;
    var shortest;
    k, shortest := SplitZeros(other);
    LeadingZeros(k, shortest);
    ShortestIsWritten(shortest);
    FromNatIsRead(n);
    assert k == 0 ==> other == shortest;
    if shortest[0] >= 0x80 {
      assert Zeros(k) == Zeros(k - 1) + [0];
      LeadingZeros(1, shortest);
      assert Zeros(1) == [0];
      assert other == Zeros(k - 1) + ([0] + shortest);
      k := k - 1;
    }
  }

  lemma IntegerIsPadded(b: seq<byte>)
    requires |b| == 32
    ensures IsDerInteger(EncodeInt(ToNat(b))) && Padded(EncodeInt(ToNat(b))) == b
  {
    var k, shortest := SplitZeros(b);
    LeadingZeros(k, shortest);
    ShortestIsWritten(shortest);
    var encoded := EncodeInt(ToNat(b));
    if shortest[0] >= 0x80 {
      assert encoded == [0] + shortest;
      if |shortest| < 32 { assert Zeros(k - 1) + [0] == Zeros(k); }
      assert Padded(encoded) == b;
    } else {
      assert Padded(encoded) == b;
    }
  }

  lemma PaddedIsEncoded(bytes: seq<byte>)
    requires IsDerInteger(bytes)
    ensures |Padded(bytes)| == 32 && EncodeInt(ToNat(Padded(bytes))) == bytes
  {
    var shortest := if |bytes| > 1 && bytes[0] == 0 then bytes[1..] else bytes;
    var k := 32 - |shortest|;
    assert shortest != bytes ==> bytes == [0] + shortest;
    if shortest != bytes && |bytes| < 33 {
      assert Zeros(32 - |bytes|) + [0] == Zeros(k);
      assert Padded(bytes) == Zeros(32 - |bytes|) + ([0] + shortest) == Zeros(k) + shortest;
    }
    assert Padded(bytes) == Zeros(k) + shortest;
    LeadingZeros(k, shortest);
    ShortestIsWritten(shortest);
  }

  // ----- the two conversions ------------------------------------------------------------------

  /** What is encoded is decoded to the same 64 bytes. */
  lemma EncodedIsDecoded(r: seq<byte>, s: seq<byte>)
    requires |r| == 32 && |s| == 32
    ensures CompactToDer(r, s).Some? && DerToCompact(CompactToDer(r, s).value) == Some(r + s)
  {
    hide EncodeInt, Padded, ToNat;
    IntegerIsPadded(r);
    IntegerIsPadded(s);
    var a, b := EncodeInt(ToNat(r)), EncodeInt(ToNat(s));
    var der := CompactToDer(r, s).value;
    assert der == [SEQUENCE, 4 + |a| + |b|, INTEGER, |a|] + a + [INTEGER, |b|] + b;
    assert der[0] == SEQUENCE && der[1] == |der| - 2 && der[2] == INTEGER && der[3] == |a|;
    assert der[4 + |a|] == INTEGER && der[5 + |a|] == |b|;
    assert Frame(der) == Some(6 + |a|);
    assert der[4..4 + |a|] == a && der[6 + |a|..] == b;
  }

  /** What is accepted is exactly the encoding of what it decodes to. */
  lemma DecodedIsEncoded(der: seq<byte>)
    requires DerToCompact(der).Some?
    ensures var c := DerToCompact(der).value;
            |c| == 64 && CompactToDer(c[..32], c[32..]) == Some(der)
  {
    hide EncodeInt, Padded, ToNat;
    var start := Frame(der).value;
    var r, s := der[4..start - 2], der[start..];
    PaddedIsEncoded(r);
    PaddedIsEncoded(s);
    var c := DerToCompact(der).value;
    assert c[..32] == Padded(r) && c[32..] == Padded(s);
    assert der == [SEQUENCE, der[1]] + (([INTEGER, der[3]] + r) + ([INTEGER, der[start - 1]] + s));
  }

  /**
    Exactly one byte string is accepted for each signature: two accepted strings that decode
    alike are equal, so longer, shorter, padded, negative or extended forms are all refused.
  */
  lemma OneEncodingPerSignature(der: seq<byte>, r: seq<byte>, s: seq<byte>)
    requires |r| == 32 && |s| == 32
    ensures DerToCompact(der) == Some(r + s) <==> CompactToDer(r, s) == Some(der)
  {
    hide CompactToDer, DerToCompact;
    EncodedIsDecoded(r, s);
    if DerToCompact(der) == Some(r + s) {
      DecodedIsEncoded(der);
      assert (r + s)[..32] == r && (r + s)[32..] == s;
    }
  }

  /** The contents of an INTEGER, as DER requires: two's complement in as few bytes as possible. */
  predicate IsShortestInteger(contents: seq<byte>, n: nat) {
    && contents != [] && contents[0] < 0x80 && ToNat(contents) == n
    && (|contents| > 1 && contents[0] == 0 ==> contents[1] >= 0x80)
  }

  /**
    The encoding is a SEQUENCE of two INTEGERs with one-byte lengths (sections 8.3, 8.9 and 10.1 of
    X.690), the first for r and the second for s, each in its shortest form.
  */
  lemma EncodingIsDer(r: seq<byte>, s: seq<byte>) returns (a: seq<byte>, b: seq<byte>)
    requires |r| == 32 && |s| == 32
    ensures IsShortestInteger(a, ToNat(r)) && IsShortestInteger(b, ToNat(s)) && |a| <= 33 && |b| <= 33
    ensures CompactToDer(r, s) == Some([0x30, 4 + |a| + |b|, 0x02, |a|] + a + [0x02, |b|] + b)
  {
    hide EncodeInt, Padded, ToNat;
    IntegerIsPadded(r);
    IntegerIsPadded(s);
    a, b := EncodeInt(ToNat(r)), EncodeInt(ToNat(s));
    EncodedNumber(ToNat(r));
    EncodedNumber(ToNat(s));
    assert CompactToDer(r, s).value == [0x30, 4 + |a| + |b|, 0x02, |a|] + a + [0x02, |b|] + b;
  }

  lemma EncodedNumber(n: nat)
    ensures ToNat(EncodeInt(n)) == n
  {
    FromNatIsRead(n);
    LeadingZeros(1, FromNat(n));
    assert Zeros(1) == [0];
  }
}
