/**
  A recovery phrase as a number: its words are digits to the base 2048, the entropy has the base
  256, and the phrase is the entropy shifted by the checksum ("Generating the mnemonic" of
  BIP-39). This says which bit stands where without the regrouping that the program does.
*/
module MnemonicNumbers {
  import opened TextFormats
  import opened Mnemonics

  /** The number with these digits, the most significant first. */
  function Number(digits: seq<nat>, base: nat): nat {
    if digits == [] then 0 else Number(digits[..|digits| - 1], base) * base + digits[|digits| - 1]
  }

  lemma {:induction false} ValueOfConcat(a: Bits, b: Bits)
    ensures Value(a + b) == Value(a) * Pow2(|b|) + Value(b)
  {
    if b == [] {
      assert a + b == a;
    } else {
      var front, last := b[..|b| - 1], if b[|b| - 1] then 1 else 0;
      assert (a + b)[..|a + b| - 1] == a + front;
      ValueOfConcat(a, front);
      assert (a + b)[|a + b| - 1] == b[|b| - 1];
      Distribute(Value(a), Pow2(|front|), Value(front), last);
    }
  }

  lemma Distribute(x: int, y: int, z: int, last: int)
    ensures 2 * (x * y + z) + last == x * (2 * y) + (2 * z + last)
  {
  }

  lemma {:induction false} UngroupedIsNumber(values: seq<nat>, width: nat)
    requires AllBelow(values, Pow2(width))
    ensures Value(Ungroup(values, width)) == Number(values, Pow2(width))
  {
    if values != [] {
      var front, last := values[..|values| - 1], values[|values| - 1];
      UngroupedIsNumber(front, width);
      ValueOfConcat(Ungroup(front, width), ToBits(last, width));
      BitsAreRead(last, width);
    }
  }

  /** The first `k` bits of a number. */
  lemma {:induction false} LeadingBits(n: nat, width: nat, k: nat)
    requires k <= width && n < Pow2(width)
    ensures Value(ToBits(n, width)[..k]) == n / Pow2(width - k)
  {
    var bits := ToBits(n, width);
    assert bits == bits[..k] + bits[k..];
    BitsAreRead(n, width);
    ValueOfConcat(bits[..k], bits[k..]);
    Quotient(n, Value(bits[..k]), Pow2(width - k), Value(bits[k..]));
  }

  lemma Quotient(n: nat, q: nat, d: nat, r: nat)
    requires n == q * d + r && r < d
    ensures n / d == q && n % d == r
  {
    var k := n / d - q;
    assert n == n / d * d + n % d;
    Factor(n / d, q, d);
    SmallMultiple(k, d, r - n % d);
  }

  lemma Factor(a: int, b: int, d: int)
    ensures a * d - b * d == (a - b) * d
  {
  }

  lemma SmallMultiple(k: int, d: int, m: int)
    requires k * d == m && -d < m < d
    ensures k == 0
  {
    if k >= 1 {
      Factor(k, 1, d);
    } else if k <= -1 {
      Factor(-k, 1, d);
    }
  }

  /** The checksum is the top of the first byte of the hash. */
  lemma ChecksumIsTop(p: Platform, entropy: seq<byte>, n: nat)
    requires n <= 8
    ensures Value(Checksum(p, entropy, n)) == p.hash0(entropy) / Pow2(8 - n)
  {
    Pow2Of8();
    LeadingBits(p.hash0(entropy), 8, n);
  }

  lemma PhraseBitsNumber(p: Platform, entropy: seq<byte>, count: nat)
    requires ChecksumBits(count) <= 8
    ensures Value(Ungroup(Naturals(entropy), 8) + Checksum(p, entropy, ChecksumBits(count)))
         == Number(Naturals(entropy), 256) * Pow2(ChecksumBits(count))
            + p.hash0(entropy) / Pow2(8 - ChecksumBits(count))
  {
    hide Ungroup, Number, Value, Pow2, Checksum;
    Pow2Of8();
    ChecksumLength(p, entropy, count);
    ValueOfConcat(Ungroup(Naturals(entropy), 8), Checksum(p, entropy, ChecksumBits(count)));
    UngroupedIsNumber(Naturals(entropy), 8);
    ChecksumIsTop(p, entropy, ChecksumBits(count));
  }

  /** The phrase of an entropy, as a number: the entropy, then the top bits of its hash. */
  lemma PhraseIsNumber(p: Platform, entropy: seq<byte>, count: nat)
    requires IsWordList(p) && |entropy| * 8 == EntropyBits(count) && ChecksumBits(count) <= 8
    ensures |p.words| == 2048
    ensures Number(Indices(p, Phrase(p, entropy, count)), 2048)
         == Number(Naturals(entropy), 256) * Pow2(ChecksumBits(count))
            + p.hash0(entropy) / Pow2(8 - ChecksumBits(count))
  {
    hide IsWordList, Ungroup, Number, Value, Pow2, Checksum, IndexOf, Phrase, EntropyOf;
    ListLength(p);
    PhraseIsRead(p, entropy, count);
    PhraseBitsNumber(p, entropy, count);
    Pow2Of11();
    UngroupedIsNumber(Indices(p, Phrase(p, entropy, count)), BITS_PER_WORD);
  }

  lemma {:induction false} NumberIsInjective(a: seq<nat>, b: seq<nat>, base: nat)
    requires |a| == |b| && AllBelow(a, base) && AllBelow(b, base) && Number(a, base) == Number(b, base)
    ensures a == b
  {
    if a != [] {
      var front, front' := a[..|a| - 1], b[..|b| - 1];
      Quotient(Number(a, base), Number(front, base), base, a[|a| - 1]);
      Quotient(Number(b, base), Number(front', base), base, b[|b| - 1]);
      NumberIsInjective(front, front', base);
      assert a == front + [a[|a| - 1]] && b == front' + [b[|b| - 1]];
    }
  }

  /** As a number, the phrase is this entropy of its length, followed by the top bits of its hash. */
  ghost predicate Spells(p: Platform, phrase: seq<string>, entropy: seq<byte>) {
    && ChecksumBits(|phrase|) <= 8 && |entropy| * 8 == EntropyBits(|phrase|)
    && Number(Indices(p, phrase), 2048)
       == Number(Naturals(entropy), 256) * Pow2(ChecksumBits(|phrase|))
          + p.hash0(entropy) / Pow2(8 - ChecksumBits(|phrase|))
  }

  /** A phrase whose checksum has at most eight bits passes exactly if its words spell some entropy. */
  lemma MatchesExactlyNumbers(p: Platform, phrase: seq<string>)
    requires IsWordList(p) && ChecksumBits(|phrase|) <= 8
    ensures Matches(p, phrase) <==> AllListed(p, phrase) && exists entropy: seq<byte> :: Spells(p, phrase, entropy)
  {
    hide IsWordList, Matches, Phrase, EntropyOf, Number, Pow2, AllListed, Spells, Indices;
    MatchesExactlyEncodings(p, phrase);
    ListLength(p);
    if Matches(p, phrase) {
      var entropy: seq<byte> :| |entropy| * 8 == EntropyBits(|phrase|) && phrase == Phrase(p, entropy, |phrase|);
      EncodingSpells(p, entropy, |phrase|);
    }
    if entropy: seq<byte> :| AllListed(p, phrase) && Spells(p, phrase, entropy) {
      SpelledIsEncoding(p, phrase, entropy);
    }
  }

  lemma EncodingSpells(p: Platform, entropy: seq<byte>, count: nat)
    requires IsWordList(p) && |entropy| * 8 == EntropyBits(count) && ChecksumBits(count) <= 8
    ensures |p.words| == 2048 && AllListed(p, Phrase(p, entropy, count))
    ensures Spells(p, Phrase(p, entropy, count), entropy)
  {
    hide IsWordList, Phrase, EntropyOf, Number, Pow2, Indices, PhraseBits, Ungroup, Checksum, AllListed;
    PhraseIsNumber(p, entropy, count);
    PhraseIsRead(p, entropy, count);
  }

  lemma SpelledIsEncoding(p: Platform, phrase: seq<string>, entropy: seq<byte>)
    requires IsWordList(p) && AllListed(p, phrase) && Spells(p, phrase, entropy)
    ensures |p.words| == 2048 && |entropy| * 8 == EntropyBits(|phrase|) && ChecksumBits(|phrase|) <= 8
    ensures phrase == Phrase(p, entropy, |phrase|)
  {
    hide IsWordList, Phrase, EntropyOf, Number, Pow2, Indices, AllListed;
    PhraseIsNumber(p, entropy, |phrase|);
    SameNumberSamePhrase(p, phrase, Phrase(p, entropy, |phrase|), entropy);
  }

  lemma SameNumberSamePhrase(p: Platform, phrase: seq<string>, other: seq<string>, entropy: seq<byte>)
    requires IsWordList(p) && AllListed(p, phrase) && |p.words| == 2048 && ChecksumBits(|phrase|) <= 8
    requires |entropy| * 8 == EntropyBits(|phrase|) && other == Phrase(p, entropy, |phrase|)
    requires Number(Indices(p, phrase), 2048) == Number(Indices(p, other), 2048)
    ensures phrase == other
  {
    hide IsWordList, Phrase, Number, EntropyOf, IndexOf, PhraseBits;
    PhraseIsRead(p, entropy, |phrase|);
    NumberIsInjective(Indices(p, phrase), Indices(p, other), 2048);
    forall i | 0 <= i < |phrase|
      ensures phrase[i] == other[i]
    {
      assert Indices(p, phrase)[i] == Indices(p, other)[i];
      assert phrase[i] == p.words[IndexOf(p.words, phrase[i])];
    }
  }

  lemma LastDigit(digits: seq<nat>, base: nat)
    requires digits != [] && AllBelow(digits, base) && base > 0
    ensures Number(digits, base) % base == digits[|digits| - 1]
  {
    var last := |digits| - 1;
    Quotient(Number(digits, base), Number(digits[..last], base), base, digits[last]);
  }

  /** The last word of twelve: seven bits of entropy, and the top half of the byte of the hash. */
  lemma LastOfTwelve(p: Platform, entropy: seq<byte>)
    requires IsWordList(p) && |entropy| == 16
    ensures |p.words| == 2048
    ensures Phrase(p, entropy, 12)[11] == p.words[entropy[15] % 128 * 16 + p.hash0(entropy) / 16]
  {
    hide Phrase, Number, Pow2;
    assert ChecksumBits(12) == 4;
    assert Pow2(4) == 16 by { Pow2Of4(); }
    LastIndex(p, entropy, 12);
    ShiftedBySixteen(Number(Naturals(entropy), 256), p.hash0(entropy) / 16);
  }

  /** The last word of twenty-four: three bits of entropy, and the whole byte of the hash. */
  lemma LastOfTwentyFour(p: Platform, entropy: seq<byte>)
    requires IsWordList(p) && |entropy| == 32
    ensures |p.words| == 2048
    ensures Phrase(p, entropy, 24)[23] == p.words[entropy[31] % 8 * 256 + p.hash0(entropy)]
  {
    hide Phrase, Number, Pow2;
    assert ChecksumBits(24) == 8;
    assert Pow2(8) == 256 && Pow2(0) == 1 by { Pow2Of8(); Pow2Of4(); }
    LastIndex(p, entropy, 24);
    ShiftedByByte(Number(Naturals(entropy), 256), p.hash0(entropy));
  }

  lemma Pow2Of4()
    ensures Pow2(4) == 16 && Pow2(0) == 1
  {
  }

  lemma ShiftedBySixteen(number: nat, tail: nat)
    requires tail < 16
    ensures (number * 16 + tail) % 2048 == number % 256 % 128 * 16 + tail
  {
    var (high, low) := (number / 256, number % 256);
    Quotient(number * 16 + tail, 2 * high + low / 128, 2048, low % 128 * 16 + tail);
  }

  lemma ShiftedByByte(number: nat, tail: nat)
    requires tail < 256
    ensures (number * 256 + tail) % 2048 == number % 256 % 8 * 256 + tail
  {
    var (high, low) := (number / 256, number % 256);
    Quotient(number * 256 + tail, 32 * high + low / 8, 2048, low % 8 * 256 + tail);
  }

  lemma LastIndex(p: Platform, entropy: seq<byte>, count: nat)
    requires IsWordList(p) && |entropy| * 8 == EntropyBits(count) && ChecksumBits(count) <= 8 && |entropy| > 0
    ensures |p.words| == 2048 && count > 0
    ensures var number := Number(Naturals(entropy), 256);
            && number % 256 == entropy[|entropy| - 1]
            && Phrase(p, entropy, count)[count - 1]
               == p.words[(number * Pow2(ChecksumBits(count))
                           + p.hash0(entropy) / Pow2(8 - ChecksumBits(count))) % 2048]
  {
    hide IsWordList, Phrase, Number, IndexOf, EntropyOf, PhraseBits, Checksum, Ungroup, Pow2;
    PhraseIsRead(p, entropy, count);
    PhraseIsNumber(p, entropy, count);
    var phrase := Phrase(p, entropy, count);
    LastDigit(Indices(p, phrase), 2048);
    LastDigit(Naturals(entropy), 256);
    assert phrase[count - 1] == p.words[Indices(p, phrase)[count - 1]];
  }
}
