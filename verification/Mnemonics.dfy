/**
  The BIP-39 checksum of a recovery phrase (identity-compatibility/mnemonic.ts): eleven bits a
  word, regrouped into bytes of entropy and a checksum. A phrase is accepted exactly if it is
  the encoding ("Generating the mnemonic") of some entropy, and that entropy is unique.
*/
module Mnemonics {
  import opened Wrappers
  import opened TextFormats

  type Bits = seq<bool>

  const BITS_PER_WORD := 11

  /** The word list, the first byte of SHA-256 and `toLowerCase`. */
  datatype Platform = Platform(words: seq<string>, hash0: seq<byte> -> byte, lower: string -> string)

  /** The English list: 2048 distinct words in lower case. */
  ghost predicate IsWordList(p: Platform) {
    && |p.words| == 2048
    && (forall i, j :: 0 <= i < j < |p.words| ==> p.words[i] != p.words[j])
    && (forall i :: 0 <= i < |p.words| ==> p.lower(p.words[i]) == p.words[i])
  }

  // ----- numbers as bits ----------------------------------------------------------------------

  function Pow2(n: nat): (r: nat)
    ensures r > 0
  {
    if n == 0 then 1 else 2 * Pow2(n - 1)
  }

  /** `n.toString(2).padStart(width, '0')`, for n below 2^width. */
  function ToBits(n: nat, width: nat): (bits: Bits)
    ensures |bits| == width
  {
    if width == 0 then [] else ToBits(n / 2, width - 1) + [n % 2 == 1]
  }

  /** `parseInt(bits, 2)` */
  function Value(bits: Bits): (n: nat)
    ensures n < Pow2(|bits|)
  {
    if bits == [] then 0 else 2 * Value(bits[..|bits| - 1]) + if bits[|bits| - 1] then 1 else 0
  }

  lemma {:induction false} BitsAreRead(n: nat, width: nat)
    requires n < Pow2(width)
    ensures Value(ToBits(n, width)) == n
  {
    if width > 0 {
      BitsAreRead(n / 2, width - 1);
      assert ToBits(n, width)[..width - 1] == ToBits(n / 2, width - 1);
    }
  }

  lemma {:induction false} ValueIsWritten(bits: Bits)
    ensures ToBits(Value(bits), |bits|) == bits
  {
    if bits != [] {
      ValueIsWritten(bits[..|bits| - 1]);
      assert bits == bits[..|bits| - 1] + [bits[|bits| - 1]];
    }
  }

  // ----- groups of bits -----------------------------------------------------------------------

  /** `count * width`, as a sum. */
  function Times(count: nat, width: nat): nat { if count == 0 then 0 else Times(count - 1, width) + width }

  lemma {:induction false} TimesIsProduct(count: nat)
    ensures Times(count, 8) == count * 8 && Times(count, BITS_PER_WORD) == count * BITS_PER_WORD
  {
    if count > 0 { TimesIsProduct(count - 1); }
  }

  function Ungroup(values: seq<nat>, width: nat): (bits: Bits)
    ensures |bits| == Times(|values|, width)
  {
    if values == [] then []
    else
      Ungroup(values[..|values| - 1], width) + ToBits(values[|values| - 1], width)
  }

  function Group(bits: Bits, width: nat): (values: seq<nat>)
    requires width > 0
  {
    if |bits| < width then []
    else Group(bits[..|bits| - width], width) + [Value(bits[|bits| - width..])]
  }

  predicate AllBelow(values: seq<nat>, bound: nat) { forall i :: 0 <= i < |values| ==> values[i] < bound }

  lemma UngroupOneMore(values: seq<nat>, last: nat, width: nat)
    ensures Ungroup(values + [last], width) == Ungroup(values, width) + ToBits(last, width)
  {
    assert (values + [last])[..|values|] == values;
  }

  lemma GroupOneMore(front: Bits, last: Bits, width: nat)
    requires width > 0 && |last| == width
    ensures Group(front + last, width) == Group(front, width) + [Value(last)]
  {
    assert (front + last)[..|front|] == front && (front + last)[|front|..] == last;
  }

  lemma NoGroups(width: nat)
    requires width > 0
    ensures Group([], width) == [] && Ungroup([], width) == []
  {
  }

  lemma {:induction false} UngroupedIsGrouped(values: seq<nat>, width: nat)
    requires width > 0 && AllBelow(values, Pow2(width))
    ensures Group(Ungroup(values, width), width) == values
  {
    hide ToBits, Value, Pow2, Group, Ungroup, Times;
    if values == [] {
      NoGroups(width);
    } else {
      var front, last := values[..|values| - 1], values[|values| - 1];
      assert values == front + [last];
      UngroupedIsGrouped(front, width);
      BitsAreRead(last, width);
      UngroupOneMore(front, last, width);
      GroupOneMore(Ungroup(front, width), ToBits(last, width), width);
    }
  }

  lemma {:induction false} GroupedIsUngrouped(bits: Bits, width: nat, count: nat)
    requires width > 0 && |bits| == Times(count, width)
    ensures |Group(bits, width)| == count
    ensures Ungroup(Group(bits, width), width) == bits
    ensures AllBelow(Group(bits, width), Pow2(width))
    decreases count
  {
    hide ToBits, Value, Pow2, Group, Ungroup;
    if count == 0 {
      assert bits == [];
      NoGroups(width);
    } else {
      var split := Times(count - 1, width);
      GroupedIsUngrouped(bits[..split], width, count - 1);
      GroupedOneMore(bits[..split], bits[split..], width);
      assert bits == bits[..split] + bits[split..];
    }
  }

  lemma GroupedOneMore(front: Bits, last: Bits, width: nat)
    requires width > 0 && |last| == width
    requires Ungroup(Group(front, width), width) == front && AllBelow(Group(front, width), Pow2(width))
    ensures |Group(front + last, width)| == |Group(front, width)| + 1
    ensures Ungroup(Group(front + last, width), width) == front + last
    ensures AllBelow(Group(front + last, width), Pow2(width))
  {
    hide ToBits, Value, Pow2, Group, Ungroup, Times;
    ValueIsWritten(last);
    GroupOneMore(front, last, width);
    UngroupOneMore(Group(front, width), Value(last), width);
  }

  // ----- phrases ------------------------------------------------------------------------------

  /** The position of a word in the list, or its length when it is missing. */
  function IndexOf(words: seq<string>, w: string): (i: nat)
    ensures i <= |words| && (i < |words| ==> words[i] == w) && w !in words[..i]
  {
    if words == [] || words[0] == w then 0
    else
      assert words[..1 + IndexOf(words[1..], w)] == [words[0]] + words[1..][..IndexOf(words[1..], w)];
      1 + IndexOf(words[1..], w)
  }

  predicate AllListed(p: Platform, phrase: seq<string>) {
    forall i :: 0 <= i < |phrase| ==> IndexOf(p.words, phrase[i]) < |p.words|
  }

  function Indices(p: Platform, phrase: seq<string>): seq<nat> {
    seq(|phrase|, i requires 0 <= i < |phrase| => IndexOf(p.words, phrase[i]))
  }

  function PhraseBits(p: Platform, phrase: seq<string>): (bits: Bits)
    ensures |bits| == |phrase| * BITS_PER_WORD
  {
    TimesIsProduct(|phrase|);
    Ungroup(Indices(p, phrase), BITS_PER_WORD)
  }

  function ChecksumBits(count: nat): nat { count * BITS_PER_WORD % 32 }

  function EntropyBits(count: nat): (n: nat)
    ensures n % 32 == 0 && n + ChecksumBits(count) == count * BITS_PER_WORD
  {
    count * BITS_PER_WORD - ChecksumBits(count)
  }

  /** The bits `slice(0, n)` of the first byte of the hash; there are only eight. */
  function Checksum(p: Platform, entropy: seq<byte>, n: nat): Bits {
    ToBits(p.hash0(entropy), 8)[..if n < 8 then n else 8]
  }

  function Bytes(values: seq<nat>): seq<byte>
    requires AllBelow(values, 256)
  {
    seq(|values|, i requires 0 <= i < |values| => values[i])
  }

  function Naturals(bytes: seq<byte>): (values: seq<nat>)
    ensures AllBelow(values, 256) && Bytes(values) == bytes
  {
    seq(|bytes|, i requires 0 <= i < |bytes| => bytes[i])
  }

  /** The entropy part of the bits of a phrase. */
  function EntropyOf(p: Platform, phrase: seq<string>): (entropy: seq<byte>)
    ensures |entropy| * 8 == EntropyBits(|phrase|)
  {
    var bits := PhraseBits(p, phrase)[..EntropyBits(|phrase|)];
    EntropyIsWhole(|phrase|);
    TimesIsProduct(EntropyBits(|phrase|) / 8);
    GroupedIsUngrouped(bits, 8, EntropyBits(|phrase|) / 8);
    Pow2Of8();
    Bytes(Group(bits, 8))
  }

  lemma EntropyIsWhole(count: nat)
    ensures EntropyBits(count) == EntropyBits(count) / 8 * 8
  {
    var words := EntropyBits(count) / 32;
    assert EntropyBits(count) == 8 * (4 * words);
  }

  lemma Pow2Of8()
    ensures Pow2(8) == 256
  {
    assert Pow2(4) == 16;
  }

  lemma Pow2Of11()
    ensures Pow2(11) == 2048
  {
    Pow2Of8();
    assert Pow2(10) == 1024;
  }

  /** What `checksumMatches` decides. */
  predicate Matches(p: Platform, phrase: seq<string>) {
    && AllListed(p, phrase)
    && PhraseBits(p, phrase)[EntropyBits(|phrase|)..]
       == Checksum(p, EntropyOf(p, phrase), ChecksumBits(|phrase|))
  }

  method ChecksumMatches(p: Platform, phrase: seq<string>) returns (ok: bool)
    ensures ok == Matches(p, phrase)
  {
    hide Ungroup, Group, Pow2, Value, IndexOf;
    var bits := AppendWords(p, phrase);
    if bits.None? { return false; }
    var checksumBits := |phrase| * BITS_PER_WORD % 32;
    var entropyBits := |phrase| * BITS_PER_WORD - checksumBits;
    EntropyIsWhole(|phrase|);
    var entropy := PushBytes(bits.value, entropyBits);
    var expected := ToBits(p.hash0(entropy), 8);
    var shortened := if checksumBits < 8 then expected[..checksumBits] else expected;
    return bits.value[entropyBits..] == shortened;
  }

  /** The bits of the words, or None at the first word that is not listed. */
  method AppendWords(p: Platform, phrase: seq<string>) returns (bits: Option<Bits>)
    ensures bits == if AllListed(p, phrase) then Some(PhraseBits(p, phrase)) else None
  {
    hide IndexOf, ToBits;
    var sofar: Bits := [];
    for i := 0 to |phrase|
      invariant forall k :: 0 <= k < i ==> IndexOf(p.words, phrase[k]) < |p.words|
      invariant sofar == PhraseBits(p, phrase[..i])
    {
      var index := IndexOf(p.words, phrase[i]);
      if index == |p.words| { return None; }
      sofar := sofar + ToBits(index, BITS_PER_WORD);
      var values := Indices(p, phrase[..i + 1]);
      assert values[..i] == Indices(p, phrase[..i]);
    }
    assert phrase[..|phrase|] == phrase;
    return Some(sofar);
  }

  /** The first `n` bits as bytes. */
  method PushBytes(bits: Bits, n: nat) returns (entropy: seq<byte>)
    requires n <= |bits| && n % 8 == 0
    ensures AllBelow(Group(bits[..n], 8), 256) && entropy == Bytes(Group(bits[..n], 8))
  {
    hide Value, Pow2, Group, Bytes;
    entropy := [];
    assert Group(bits[..0], 8) == [] && Bytes([]) == [] by { NothingGrouped(bits); }
    var i := 0;
    while i < n
      invariant 0 <= i <= n && i % 8 == 0
      invariant AllBelow(Group(bits[..i], 8), 256) && entropy == Bytes(Group(bits[..i], 8))
    {
      assert i + 8 <= n;
      PushOneMore(bits, i);
      entropy := entropy + [Value(bits[i..i + 8])];
      i := i + 8;
    }
  }

  lemma NothingGrouped(bits: Bits)
    ensures Group(bits[..0], 8) == [] && Bytes([]) == []
  {
  }

  lemma PushOneMore(bits: Bits, i: nat)
    requires i + 8 <= |bits| && AllBelow(Group(bits[..i], 8), 256)
    ensures Value(bits[i..i + 8]) < 256 && AllBelow(Group(bits[..i + 8], 8), 256)
    ensures Bytes(Group(bits[..i + 8], 8)) == Bytes(Group(bits[..i], 8)) + [Value(bits[i..i + 8])]
  {
    hide Value, Pow2, Group;
    Pow2Of8();
    assert bits[..i + 8] == bits[..i] + bits[i..i + 8];
    GroupOneMore(bits[..i], bits[i..i + 8], 8);
  }

  // ----- encoding entropy (BIP-39) ------------------------------------------------------------

  /** The phrase of `count` words for an entropy: its bits and its checksum, eleven at a time. */
  function Phrase(p: Platform, entropy: seq<byte>, count: nat): seq<string>
    requires |p.words| == 2048 && |entropy| * 8 == EntropyBits(count) && ChecksumBits(count) <= 8
  {
    var bits := Ungroup(Naturals(entropy), 8) + Checksum(p, entropy, ChecksumBits(count));
    TimesIsProduct(|entropy|);
    TimesIsProduct(count);
    GroupedIsUngrouped(bits, BITS_PER_WORD, count);
    Pow2Of11();
    var indices := Group(bits, BITS_PER_WORD);
    seq(count, i requires 0 <= i < count => p.words[indices[i]])
  }

  lemma IndexIsFound(p: Platform, i: nat)
    requires IsWordList(p) && i < 2048
    ensures IndexOf(p.words, p.words[i]) == i
  {
    var j := IndexOf(p.words, p.words[i]);
    assert forall k :: 0 <= k < j ==> p.words[..j][k] == p.words[k];
  }

  /** The words of an encoding are listed, and their bits are those of the entropy and its checksum. */
  lemma PhraseIsRead(p: Platform, entropy: seq<byte>, count: nat)
    requires IsWordList(p) && |entropy| * 8 == EntropyBits(count) && ChecksumBits(count) <= 8
    ensures var phrase := Phrase(p, entropy, count);
            && |phrase| == count && AllListed(p, phrase)
            && PhraseBits(p, phrase)
               == Ungroup(Naturals(entropy), 8) + Checksum(p, entropy, ChecksumBits(count))
            && EntropyOf(p, phrase) == entropy
  {
    hide IsWordList, Ungroup, Group, Value, Pow2, Checksum;
    assert |p.words| == 2048 by { ListLength(p); }
    var tail := Checksum(p, entropy, ChecksumBits(count));
    assert |tail| == ChecksumBits(count) by { ChecksumLength(p, entropy, count); }
    var bits := Ungroup(Naturals(entropy), 8) + tail;
    TimesIsProduct(|entropy|);
    TimesIsProduct(count);
    GroupedIsUngrouped(bits, BITS_PER_WORD, count);
    Pow2Of11();
    var indices := Group(bits, BITS_PER_WORD);
    var phrase := Phrase(p, entropy, count);
    forall i | 0 <= i < count
      ensures IndexOf(p.words, phrase[i]) == indices[i]
    {
      IndexIsFound(p, indices[i]);
    }
    assert Indices(p, phrase) == indices;
    assert PhraseBits(p, phrase)[..EntropyBits(count)] == Ungroup(Naturals(entropy), 8);
    Pow2Of8();
    UngroupedIsGrouped(Naturals(entropy), 8);
  }

  lemma ListLength(p: Platform)
    requires IsWordList(p)
    ensures |p.words| == 2048
  {
  }

  lemma ChecksumLength(p: Platform, entropy: seq<byte>, count: nat)
    requires ChecksumBits(count) <= 8
    ensures |Checksum(p, entropy, ChecksumBits(count))| == ChecksumBits(count)
  {
  }

  /** The entropy of a phrase has the bits it was taken from. */
  lemma EntropyKeepsBits(p: Platform, phrase: seq<string>)
    ensures Ungroup(Naturals(EntropyOf(p, phrase)), 8) == PhraseBits(p, phrase)[..EntropyBits(|phrase|)]
  {
    hide Ungroup, Group, Value, Pow2, PhraseBits;
    var bits := PhraseBits(p, phrase)[..EntropyBits(|phrase|)];
    EntropyIsWhole(|phrase|);
    TimesIsProduct(EntropyBits(|phrase|) / 8);
    GroupedIsUngrouped(bits, 8, EntropyBits(|phrase|) / 8);
    Pow2Of8();
    assert Naturals(EntropyOf(p, phrase)) == Group(bits, 8);
  }

  /** A matching phrase is the encoding of its own entropy. */
  lemma MatchingIsEncoded(p: Platform, phrase: seq<string>)
    requires IsWordList(p) && ChecksumBits(|phrase|) <= 8 && Matches(p, phrase)
    ensures |p.words| == 2048 && phrase == Phrase(p, EntropyOf(p, phrase), |phrase|)
  {
    hide IsWordList, Ungroup, Group, Value, Pow2, Checksum, IndexOf, EntropyOf, PhraseBits, Naturals;
    ListLength(p);
    var entropy := EntropyOf(p, phrase);
    var all := PhraseBits(p, phrase);
    EntropyKeepsBits(p, phrase);
    assert all == all[..EntropyBits(|phrase|)] + all[EntropyBits(|phrase|)..];
    IndicesAreGrouped(p, phrase);
    assert Group(Ungroup(Naturals(entropy), 8) + Checksum(p, entropy, ChecksumBits(|phrase|)), BITS_PER_WORD)
        == Indices(p, phrase);
  }

  lemma IndicesAreGrouped(p: Platform, phrase: seq<string>)
    requires |p.words| == 2048 && AllListed(p, phrase)
    ensures Group(PhraseBits(p, phrase), BITS_PER_WORD) == Indices(p, phrase)
  {
    hide Ungroup, Group, Value, Pow2, IndexOf;
    Pow2Of11();
    UngroupedIsGrouped(Indices(p, phrase), BITS_PER_WORD);
  }

  /** The source's answer for phrases whose checksum has at most eight bits, as 12 and 24 words have. */
  lemma MatchesExactlyEncodings(p: Platform, phrase: seq<string>)
    requires IsWordList(p) && ChecksumBits(|phrase|) <= 8
    ensures Matches(p, phrase)
       <==> exists entropy: seq<byte> ::
              |entropy| * 8 == EntropyBits(|phrase|) && phrase == Phrase(p, entropy, |phrase|)
  {
    hide IsWordList, Matches, Phrase, EntropyOf;
    ListLength(p);
    if Matches(p, phrase) {
      MatchingIsEncoded(p, phrase);
      var entropy := EntropyOf(p, phrase);
      assert |entropy| * 8 == EntropyBits(|phrase|);
    }
    if entropy: seq<byte> :| |entropy| * 8 == EntropyBits(|phrase|) && phrase == Phrase(p, entropy, |phrase|) {
      EncodedMatches(p, entropy, |phrase|);
    }
  }

  lemma EncodedMatches(p: Platform, entropy: seq<byte>, count: nat)
    requires IsWordList(p) && |entropy| * 8 == EntropyBits(count) && ChecksumBits(count) <= 8
    ensures Matches(p, Phrase(p, entropy, count))
  {
    hide IsWordList, Phrase, Ungroup, Group, Checksum, IndexOf, EntropyOf, PhraseBits, AllListed;
    ListLength(p);
    PhraseIsRead(p, entropy, count);
    var phrase := Phrase(p, entropy, count);
    TimesIsProduct(|entropy|);
    assert PhraseBits(p, phrase)[EntropyBits(count)..] == Checksum(p, entropy, ChecksumBits(count));
  }

  /** Only one entropy has a given phrase. */
  lemma EntropyIsUnique(p: Platform, one: seq<byte>, other: seq<byte>, count: nat)
    requires IsWordList(p) && ChecksumBits(count) <= 8
    requires |one| * 8 == EntropyBits(count) && |other| * 8 == EntropyBits(count)
    requires Phrase(p, one, count) == Phrase(p, other, count)
    ensures one == other
  {
    hide IsWordList, Phrase, EntropyOf;
    PhraseIsRead(p, one, count);
    PhraseIsRead(p, other, count);
  }

  // ----- validation for a producer ------------------------------------------------------------

  datatype Producer = P01 | P02 | P03
  datatype Verdict = Valid | InvalidMnemonic | InvalidWordCount | UnknownWord | InvalidChecksum | UnsupportedProducer

  predicate IsLowerCase(p: Platform, phrase: seq<string>) {
    forall i :: 0 <= i < |phrase| ==> p.lower(phrase[i]) == phrase[i]
  }

  /** The verdict on the words of a phrase: the first check that fails. */
  function VerdictOnWords(p: Platform, producer: Producer, phrase: seq<string>): Verdict {
    if |phrase| != 24 && (producer != P01 || |phrase| != 12) then InvalidWordCount
    else if producer == P01 && !IsLowerCase(p, phrase) then InvalidMnemonic
    else if !AllListed(p, phrase) then UnknownWord
    else if !Matches(p, phrase) then InvalidChecksum
    else Valid
  }

  /** `validateMnemonicForProducer`, from the words that the splitting of the text gives. */
  method ValidateWords(p: Platform, producer: Producer, phrase: seq<string>) returns (verdict: Verdict)
    ensures verdict == VerdictOnWords(p, producer, phrase)
  {
    if |phrase| != 24 && (producer != P01 || |phrase| != 12) { return InvalidWordCount; }
    if producer == P01 && exists i :: 0 <= i < |phrase| && p.lower(phrase[i]) != phrase[i] { return InvalidMnemonic; }
    if exists i :: 0 <= i < |phrase| && IndexOf(p.words, phrase[i]) == |p.words| { return UnknownWord; }
    var ok := ChecksumMatches(p, phrase);
    return if ok then Valid else InvalidChecksum;
  }

  /** The accepted phrases: the encodings of 32 bytes, and for P-01 also those of 16. */
  lemma ValidExactly(p: Platform, producer: Producer, phrase: seq<string>)
    requires IsWordList(p)
    ensures VerdictOnWords(p, producer, phrase) == Valid
       <==> exists entropy: seq<byte> ::
              && (|entropy| == 32 || (producer == P01 && |entropy| == 16))
              && phrase == Phrase(p, entropy, |entropy| / 4 * 3)
  {
    hide IsWordList, Matches, Phrase, AllListed;
    ListLength(p);
    assert EntropyBits(24) == 256 && ChecksumBits(24) == 8 && EntropyBits(12) == 128 && ChecksumBits(12) == 4;
    if |phrase| == 24 || |phrase| == 12 { MatchesExactlyEncodings(p, phrase); }
    if entropy: seq<byte> :| (|entropy| == 32 || (producer == P01 && |entropy| == 16))
                             && phrase == Phrase(p, entropy, |entropy| / 4 * 3) {
      PhraseIsRead(p, entropy, |entropy| / 4 * 3);
      ListedIsLowerCase(p, phrase);
    }
  }

  lemma ListedIsLowerCase(p: Platform, phrase: seq<string>)
    requires IsWordList(p) && AllListed(p, phrase)
    ensures IsLowerCase(p, phrase)
  {
    forall i | 0 <= i < |phrase|
      ensures p.lower(phrase[i]) == phrase[i]
    {
      var at := IndexOf(p.words, phrase[i]);
      assert p.words[at] == phrase[i];
    }
  }
}
