/**
  A recovery phrase as it is typed (identity-compatibility/mnemonic.ts, producers.ts): trimming,
  splitting, normalising. The texts accepted for a producer are those whose words, written with
  single spaces, are the canonical text of some entropy.
*/
module MnemonicTexts {
  import opened Wrappers
  import opened TextFormats
  import opened Mnemonics

  // ----- white space --------------------------------------------------------------------------

  /** What `trim` removes: white space and line terminators (sections 12.2 and 12.3 of ECMA-262). */
  predicate IsSpace(c: char) {
    || '\t' <= c <= '\r' || c == ' ' || c == '\U{A0}' || c == '\U{1680}' || '\U{2000}' <= c <= '\U{200A}'
    || c == '\U{2028}' || c == '\U{2029}' || c == '\U{202F}' || c == '\U{205F}' || c == '\U{3000}' || c == '\U{FEFF}'
  }

  /** The four characters between which a phrase is split. */
  predicate IsDelimiter(c: char) { c == ' ' || c == '\t' || c == '\n' || c == '\r' }

  /** All of both kinds. */
  lemma SpacesAre(c: char)
    ensures IsDelimiter(c) <==> c in {'\U{9}', '\U{A}', '\U{D}', '\U{20}'}
    ensures IsSpace(c) <==> c in {'\U{9}', '\U{A}', '\U{B}', '\U{C}', '\U{D}', '\U{20}', '\U{A0}', '\U{1680}',
                                  '\U{2000}', '\U{2001}', '\U{2002}', '\U{2003}', '\U{2004}', '\U{2005}',
                                  '\U{2006}', '\U{2007}', '\U{2008}', '\U{2009}', '\U{200A}', '\U{2028}',
                                  '\U{2029}', '\U{202F}', '\U{205F}', '\U{3000}', '\U{FEFF}'}
  {
  }

  predicate IsLetter(c: char) { 'a' <= c <= 'z' }

  function TrimStart(s: string): string { if s != "" && IsSpace(s[0]) then TrimStart(s[1..]) else s }

  function TrimEnd(s: string): string { if s != "" && IsSpace(s[|s| - 1]) then TrimEnd(s[..|s| - 1]) else s }

  /** `trim` */
  function Trim(s: string): string { TrimEnd(TrimStart(s)) }

  // ----- splitting and joining ----------------------------------------------------------------

  /** The length of the leading run without a delimiter, and of the leading run of delimiters. */
  function WordEnd(s: string): (n: nat)
    ensures n <= |s| && (n < |s| ==> IsDelimiter(s[n])) && forall i :: 0 <= i < n ==> !IsDelimiter(s[i])
  {
    if s == "" || IsDelimiter(s[0]) then 0 else 1 + WordEnd(s[1..])
  }

  function GapEnd(s: string): (n: nat)
    ensures n <= |s| && (n < |s| ==> !IsDelimiter(s[n])) && forall i :: 0 <= i < n ==> IsDelimiter(s[i])
  {
    if s == "" || !IsDelimiter(s[0]) then 0 else 1 + GapEnd(s[1..])
  }

  /** `split(/[ \t\n\r]+/)`: empty texts stand before a leading and after a trailing run. */
  function Split(s: string): seq<string>
    decreases |s|
  {
    var word := WordEnd(s);
    if word == |s| then [s]
    else
      assert GapEnd(s[word..]) > 0;
      [s[..word]] + Split(s[word..][GapEnd(s[word..])..])
  }

  function Nonempty(words: seq<string>): seq<string> {
    if words == [] then [] else (if words[0] == "" then [] else [words[0]]) + Nonempty(words[1..])
  }

  /** `join(' ')` */
  function Join(words: seq<string>): string {
    if words == [] then "" else if |words| == 1 then words[0] else words[0] + ([' '] + Join(words[1..]))
  }

  /** `split(' ')` */
  function SplitAtSpaces(s: string): (words: seq<string>)
    ensures words != []
  {
    if s == "" then [""]
    else
      var rest := SplitAtSpaces(s[1..]);
      if s[0] == ' ' then [""] + rest else [[s[0]] + rest[0]] + rest[1..]
  }

  /** `normalizeMnemonicOlimpo` */
  function Normalized(p: Platform, text: string): string { Join(Nonempty(Split(p.lower(text)))) }

  // ----- the words of a text ------------------------------------------------------------------

  /** The maximal runs without a delimiter, in order. */
  function Fields(s: string): seq<string>
    decreases |s|
  {
    if s == "" then []
    else if IsDelimiter(s[0]) then Fields(s[1..])
    else [s[..WordEnd(s)]] + Fields(s[WordEnd(s)..])
  }

  predicate IsWord(w: string) { w != "" && forall c :: c in w ==> !IsDelimiter(c) }

  predicate AllWords(words: seq<string>) { forall w :: w in words ==> IsWord(w) }

  lemma {:induction false} FieldsSkipGap(s: string)
    ensures Fields(s[GapEnd(s)..]) == Fields(s)
  {
    if GapEnd(s) > 0 {
      FieldsSkipGap(s[1..]);
      assert s[1..][GapEnd(s[1..])..] == s[GapEnd(s)..];
    } else {
      assert s[0..] == s;
    }
  }

  lemma {:induction false} SplitGivesFields(s: string)
    ensures Nonempty(Split(s)) == Fields(s)
    decreases |s|
  {
    var word := WordEnd(s);
    if word == |s| {
      assert s[..word] == s && s[word..] == "";
    } else {
      var rest := s[word..];
      SplitGivesFields(rest[GapEnd(rest)..]);
      FieldsSkipGap(rest);
      assert rest != s || word == 0;
      if word == 0 { assert rest == s; }
    }
  }

  /** A text with a word at both ends is split into its words. */
  lemma {:induction false} TightIsSplit(s: string)
    requires s != "" && !IsDelimiter(s[0]) && !IsDelimiter(s[|s| - 1])
    ensures Split(s) == Fields(s)
    decreases |s|
  {
    var word := WordEnd(s);
    hide WordEnd, GapEnd;
    if word < |s| {
      var rest := s[word..];
      var gap := GapEnd(rest);
      assert rest[|rest| - 1] == s[|s| - 1];
      assert gap < |rest| && gap > 0 && word > 0;
      var next := rest[gap..];
      assert next[|next| - 1] == s[|s| - 1];
      TightIsSplit(next);
      FieldsSkipGap(rest);
    } else {
      assert s[..word] == s && s[word..] == "";
    }
  }

  lemma {:induction false} FieldsAreWords(s: string)
    ensures AllWords(Fields(s))
    decreases |s|
  {
    if s != "" {
      if IsDelimiter(s[0]) {
        FieldsAreWords(s[1..]);
      } else {
        FieldsAreWords(s[WordEnd(s)..]);
        assert IsWord(s[..WordEnd(s)]);
      }
    }
  }

  lemma {:induction false} JoinedIsSplit(words: seq<string>)
    requires words != [] && AllWords(words)
    ensures SplitAtSpaces(Join(words)) == words
  {
    assert IsWord(words[0]);
    if |words| > 1 {
      assert forall w :: w in words[1..] ==> w in words;
      JoinedIsSplit(words[1..]);
      SpaceEndsWord(words[0], Join(words[1..]));
    } else {
      NoSpaceIsOneWord(words[0]);
    }
  }

  lemma {:induction false} NoSpaceIsOneWord(w: string)
    requires forall c :: c in w ==> !IsDelimiter(c)
    ensures SplitAtSpaces(w) == [w]
  {
    if w != "" {
      assert forall c :: c in w[1..] ==> c in w;
      NoSpaceIsOneWord(w[1..]);
      assert w == [w[0]] + w[1..] && w[0] in w;
    }
  }

  lemma {:induction false} SpaceEndsWord(w: string, rest: string)
    requires forall c :: c in w ==> !IsDelimiter(c)
    ensures SplitAtSpaces(w + ([' '] + rest)) == [w] + SplitAtSpaces(rest)
  {
    var text := w + ([' '] + rest);
    if w == "" {
      assert text[1..] == rest;
    } else {
      assert forall c :: c in w[1..] ==> c in w;
      SpaceEndsWord(w[1..], rest);
      assert text[1..] == w[1..] + ([' '] + rest) && w == [w[0]] + w[1..] && w[0] in w;
    }
  }

  lemma JoinIsInjective(words: seq<string>, other: seq<string>)
    requires AllWords(words) && AllWords(other) && Join(words) == Join(other)
    ensures words == other
  {
    if words == [] || other == [] {
      JoinOfWords(words);
      JoinOfWords(other);
    } else {
      JoinedIsSplit(words);
      JoinedIsSplit(other);
    }
  }

  lemma JoinOfWords(words: seq<string>)
    requires AllWords(words)
    ensures words != [] ==> Join(words) != "" && !IsDelimiter(Join(words)[0])
  {
    if words != [] { assert IsWord(words[0]) && words[0][0] in words[0]; }
  }

  lemma {:induction false} JoinedHasFields(words: seq<string>)
    requires AllWords(words)
    ensures Fields(Join(words)) == words
  {
    if words != [] {
      assert IsWord(words[0]);
      assert forall w :: w in words[1..] ==> w in words;
      JoinedHasFields(words[1..]);
      WordEndsAtSpace(words[0], if |words| == 1 then "" else [' '] + Join(words[1..]));
      if |words| > 1 {
        assert ([' '] + Join(words[1..]))[1..] == Join(words[1..]);
        assert Fields([' '] + Join(words[1..])) == Fields(Join(words[1..]));
      } else {
        assert words[0] + "" == words[0];
      }
    }
  }

  lemma WordEndsAtSpace(w: string, rest: string)
    requires IsWord(w) && (rest == "" || IsDelimiter(rest[0]))
    ensures Fields(w + rest) == [w] + Fields(rest)
  {
    var text := w + rest;
    assert forall i :: 0 <= i < |w| ==> text[i] in w;
    assert rest != "" ==> text[|w|] == rest[0];
    var n := WordEnd(text);
    assert n == |w|;
    assert text[..n] == w && text[n..] == rest;
  }

  // ----- validation of a text -----------------------------------------------------------------

  /** A text of letters and white space. */
  predicate IsPlainText(s: string) { forall c :: c in s ==> IsLetter(c) || IsSpace(c) }

  predicate AllLetters(w: string) { w != "" && forall c :: c in w ==> IsLetter(c) }

  /** The English list, whose words are letters, and a `toLowerCase` that leaves such texts alone. */
  ghost predicate IsEnglish(p: Platform) {
    && IsWordList(p)
    && (forall w :: w in p.words ==> AllLetters(w))
    && (forall s :: IsPlainText(s) ==> p.lower(s) == s)
  }

  function ProducerOf(id: string): Option<Producer> {
    if id == "P-01" then Some(P01) else if id == "P-02" then Some(P02) else if id == "P-03" then Some(P03) else None
  }

  /** The words that are validated: P-01 takes them as typed, the others from the text in lower case. */
  function TypedWords(p: Platform, producer: Producer, text: string): seq<string> {
    Fields(if producer == P01 then Trim(text) else p.lower(text))
  }

  function VerdictOn(p: Platform, text: string, producerId: string): Verdict {
    match ProducerOf(producerId)
    case None => UnsupportedProducer
    case Some(producer) =>
      if Trim(text) == "" then InvalidMnemonic else VerdictOnWords(p, producer, TypedWords(p, producer, text))
  }

  method ValidateMnemonicForProducer(p: Platform, mnemonic: string, producerId: string) returns (verdict: Verdict)
    ensures verdict == VerdictOn(p, mnemonic, producerId)
  {
    hide Split, SplitAtSpaces, Fields, Nonempty, Join, Matches, AllListed, Trim;
    if producerId == "P-01" {
      if Trim(mnemonic) == "" { return InvalidMnemonic; }
      TrimmedIsTight(mnemonic);
      TightIsSplit(Trim(mnemonic));
      verdict := ValidateWords(p, P01, Split(Trim(mnemonic)));
    } else if producerId == "P-02" || producerId == "P-03" {
      if Trim(mnemonic) == "" { return InvalidMnemonic; }
      NormalizedIsSplit(p, mnemonic);
      verdict := ValidateWords(p, if producerId == "P-02" then P02 else P03, SplitAtSpaces(Normalized(p, mnemonic)));
    } else {
      verdict := UnsupportedProducer;
    }
  }

  lemma TrimmedIsTight(s: string)
    ensures var t := Trim(s); t != "" ==> !IsSpace(t[0]) && !IsSpace(t[|t| - 1])
  {
    StartIsTrimmed(s);
    EndIsTrimmed(TrimStart(s));
  }

  lemma {:induction false} StartIsTrimmed(s: string)
    ensures var t := TrimStart(s); t != "" ==> !IsSpace(t[0])
  {
    if s != "" && IsSpace(s[0]) { StartIsTrimmed(s[1..]); }
  }

  lemma {:induction false} EndIsTrimmed(s: string)
    ensures var t := TrimEnd(s); t <= s && (t != "" ==> !IsSpace(t[|t| - 1]))
  {
    if s != "" && IsSpace(s[|s| - 1]) { EndIsTrimmed(s[..|s| - 1]); }
  }

  /** The words of the normalised text; a text without any has the one empty word. */
  lemma NormalizedIsSplit(p: Platform, text: string)
    ensures var words := Fields(p.lower(text));
            && Normalized(p, text) == Join(words)
            && SplitAtSpaces(Normalized(p, text)) == if words == [] then [""] else words
  {
    var words := Fields(p.lower(text));
    SplitGivesFields(p.lower(text));
    FieldsAreWords(p.lower(text));
    if words != [] { JoinedIsSplit(words); }
  }

  // ----- the accepted texts -------------------------------------------------------------------

  predicate Fits(producer: Producer, entropy: seq<byte>) {
    |entropy| == 32 || (producer == P01 && |entropy| == 16)
  }

  /** The words of an entropy with single spaces. */
  function CanonicalText(p: Platform, entropy: seq<byte>): string
    requires |p.words| == 2048 && (|entropy| == 32 || |entropy| == 16)
  {
    Join(Phrase(p, entropy, |entropy| / 4 * 3))
  }

  lemma PhraseWords(p: Platform, entropy: seq<byte>)
    requires IsEnglish(p) && (|entropy| == 32 || |entropy| == 16)
    ensures |p.words| == 2048
    ensures var words := Phrase(p, entropy, |entropy| / 4 * 3);
            |words| == |entropy| / 4 * 3 && AllWords(words) && forall w :: w in words ==> AllLetters(w)
  {
    hide Phrase, IsWordList, IsEnglish, AllListed, IndexOf, PhraseBits, EntropyOf, Ungroup, Checksum, AllWords;
    EnglishIsList(p);
    assert EntropyBits(24) == 256 && ChecksumBits(24) == 8 && EntropyBits(12) == 128 && ChecksumBits(12) == 4;
    PhraseIsRead(p, entropy, |entropy| / 4 * 3);
    ListedAreWords(p, Phrase(p, entropy, |entropy| / 4 * 3));
  }

  lemma ListedAreWords(p: Platform, words: seq<string>)
    requires IsEnglish(p) && AllListed(p, words)
    ensures AllWords(words) && forall w :: w in words ==> AllLetters(w)
  {
    hide IsWordList, IndexOf;
    forall i | 0 <= i < |words|
      ensures IsWord(words[i]) && AllLetters(words[i])
    {
      assert p.words[IndexOf(p.words, words[i])] in p.words;
    }
  }

  /**
    The accepted texts: their words, written with single spaces, are the canonical text of an
    entropy. For P-02 and P-03 those words are the normalised text.
  */
  lemma AcceptedExactly(p: Platform, text: string, producerId: string)
    requires IsEnglish(p) && ProducerOf(producerId).Some?
    ensures var producer := ProducerOf(producerId).value;
            VerdictOn(p, text, producerId) == Valid
            <==> exists entropy: seq<byte> ::
                   Fits(producer, entropy) && Join(TypedWords(p, producer, text)) == CanonicalText(p, entropy)
  {
    hide IsEnglish, IsWordList, VerdictOnWords, CanonicalText, TypedWords, Trim, Join;
    EnglishIsList(p);
    var producer := ProducerOf(producerId).value;
    var words := TypedWords(p, producer, text);
    if VerdictOn(p, text, producerId) == Valid {
      var entropy := ValidIsCanonical(p, producer, words);
    }
    if entropy: seq<byte> :| Fits(producer, entropy) && Join(words) == CanonicalText(p, entropy) {
      CanonicalIsValid(p, producer, text, entropy);
    }
  }

  lemma ValidIsCanonical(p: Platform, producer: Producer, words: seq<string>) returns (entropy: seq<byte>)
    requires IsWordList(p) && VerdictOnWords(p, producer, words) == Valid
    ensures |p.words| == 2048 && Fits(producer, entropy) && Join(words) == CanonicalText(p, entropy)
  {
    hide IsWordList, VerdictOnWords, Phrase, Join;
    ListLength(p);
    ValidExactly(p, producer, words);
    entropy :| (|entropy| == 32 || (producer == P01 && |entropy| == 16))
               && words == Phrase(p, entropy, |entropy| / 4 * 3);
  }

  lemma CanonicalIsValid(p: Platform, producer: Producer, text: string, entropy: seq<byte>)
    requires IsEnglish(p) && |p.words| == 2048 && Fits(producer, entropy)
    requires Join(TypedWords(p, producer, text)) == CanonicalText(p, entropy)
    ensures VerdictOnWords(p, producer, TypedWords(p, producer, text)) == Valid && Trim(text) != ""
  {
    hide IsEnglish, IsWordList, VerdictOnWords, Phrase, Trim, Fields, Join, AllLetters;
    EnglishIsList(p);
    var words, phrase := TypedWords(p, producer, text), Phrase(p, entropy, |entropy| / 4 * 3);
    ValidExactly(p, producer, words);
    FieldsAreWords(if producer == P01 then Trim(text) else p.lower(text));
    PhraseWords(p, entropy);
    JoinIsInjective(words, phrase);
    assert words[0] in phrase;
    WordsAreNotBlank(p, producer, text);
  }

  lemma EnglishIsList(p: Platform)
    requires IsEnglish(p)
    ensures IsWordList(p) && |p.words| == 2048
  {
  }

  /** A text with a word of letters is not blank. */
  lemma WordsAreNotBlank(p: Platform, producer: Producer, text: string)
    requires IsEnglish(p)
    requires var words := TypedWords(p, producer, text); words != [] && AllLetters(words[0])
    ensures Trim(text) != ""
  {
    if Trim(text) == "" {
      BlankIsSpace(text);
      assert IsPlainText(text);
      var word := TypedWords(p, producer, text)[0];
      assert p.lower(text) == text && Fields("") == [];
      LettersAreNoSpace(word);
      FieldsComeFrom(text, word);
    }
  }

  lemma LettersAreNoSpace(w: string)
    requires AllLetters(w)
    ensures exists c :: c in w && !IsSpace(c)
  {
    assert w[0] in w;
  }

  lemma BlankIsSpace(s: string)
    requires Trim(s) == ""
    ensures AllSpace(s)
  {
    hide Trim, IsSpace;
    var a, b := TrimmedParts(s);
    assert s == a + b;
  }

  predicate AllSpace(s: string) { forall c :: c in s ==> IsSpace(c) }

  lemma {:induction false} StartCutsSpace(s: string) returns (n: nat)
    ensures n <= |s| && TrimStart(s) == s[n..] && AllSpace(s[..n])
  {
    n := 0;
    if s != "" && IsSpace(s[0]) {
      var m := StartCutsSpace(s[1..]);
      n := m + 1;
      assert s[..n] == [s[0]] + s[1..][..m] && s[n..] == s[1..][m..];
    } else {
      assert s[0..] == s;
    }
  }

  lemma {:induction false} EndCutsSpace(s: string) returns (n: nat)
    ensures n <= |s| && TrimEnd(s) == s[..n] && AllSpace(s[n..])
  {
    n := |s|;
    if s != "" && IsSpace(s[|s| - 1]) {
      var front := s[..|s| - 1];
      n := EndCutsSpace(front);
      assert s[n..] == front[n..] + [s[|s| - 1]] && s[..n] == front[..n];
    } else {
      assert s[..n] == s;
    }
  }

  lemma {:induction false} FieldsComeFrom(s: string, w: string)
    requires w in Fields(s)
    ensures forall c :: c in w ==> c in s
    decreases |s|
  {
    if IsDelimiter(s[0]) {
      FieldsComeFrom(s[1..], w);
    } else if w != s[..WordEnd(s)] {
      FieldsComeFrom(s[WordEnd(s)..], w);
    }
  }

  lemma {:induction false} NoFieldIsLost(s: string, c: char) returns (w: string)
    requires c in s && !IsDelimiter(c)
    ensures w in Fields(s) && c in w
    decreases |s|
  {
    var n := WordEnd(s);
    if IsDelimiter(s[0]) {
      w := NoFieldIsLost(s[1..], c);
    } else if c in s[..n] {
      w := s[..n];
    } else {
      assert s == s[..n] + s[n..];
      w := NoFieldIsLost(s[n..], c);
    }
  }

  // ----- what the two rules make of each other's texts ----------------------------------------

  /** The canonical text of an entropy is accepted by every producer that admits its length. */
  lemma CanonicalIsAccepted(p: Platform, producerId: string, entropy: seq<byte>)
    requires IsEnglish(p) && ProducerOf(producerId).Some? && Fits(ProducerOf(producerId).value, entropy)
    ensures |p.words| == 2048 && VerdictOn(p, CanonicalText(p, entropy), producerId) == Valid
  {
    hide IsEnglish, IsWordList, Phrase, Trim, Fields, Join, AllLetters, VerdictOnWords, IsPlainText;
    EnglishIsList(p);
    PhraseWords(p, entropy);
    var words := Phrase(p, entropy, |entropy| / 4 * 3);
    JoinedIsPlain(words);
    LettersAreKept(Join(words));
    JoinedHasFields(words);
    PlainIsLower(p, Join(words));
    AcceptedExactly(p, Join(words), producerId);
  }

  lemma PlainIsLower(p: Platform, s: string)
    requires IsEnglish(p) && IsPlainText(s)
    ensures p.lower(s) == s
  {
  }

  lemma {:induction false} JoinedIsPlain(words: seq<string>)
    requires forall w :: w in words ==> AllLetters(w)
    ensures IsPlainText(Join(words))
    ensures words != [] ==> Join(words) != "" && IsLetter(Join(words)[0]) && IsLetter(Join(words)[|Join(words)| - 1])
  {
    if words != [] {
      assert AllLetters(words[0]);
      assert words[0][0] in words[0] && words[0][|words[0]| - 1] in words[0];
      if |words| > 1 {
        assert forall w :: w in words[1..] ==> w in words;
        JoinedIsPlain(words[1..]);
      }
    }
  }

  lemma LettersAreKept(s: string)
    requires s != "" ==> IsLetter(s[0]) && IsLetter(s[|s| - 1])
    ensures Trim(s) == s
  {
  }

  /** White space that splits words, as opposed to white space that is only trimmed. */
  predicate OnlyDelimiters(text: string) { forall c :: c in text && IsSpace(c) ==> IsDelimiter(c) }

  /**
    A text that P-01 accepts with 24 words is accepted by P-02 exactly if its white space is spaces,
    tabs, newlines and carriage returns: other white space around the words is trimmed by the one
    rule and becomes part of a word by the other.
  */
  lemma ProducersAgreeExactly(p: Platform, text: string)
    requires IsEnglish(p) && VerdictOn(p, text, "P-01") == Valid && |TypedWords(p, P01, text)| == 24
    ensures VerdictOn(p, text, "P-02") == Valid <==> OnlyDelimiters(text)
  {
    hide IsEnglish, IsWordList, Trim, Fields, Matches, AllListed, IsPlainText, IsLowerCase, OnlyDelimiters;
    assert AllListed(p, Fields(Trim(text)));
    ListedTextIsPlain(p, text);
    PlainIsLower(p, text);
    if OnlyDelimiters(text) {
      DelimitersAreTrimmed(text);
    } else if AllListed(p, Fields(text)) {
      ListedTextHasDelimiters(p, text);
    }
  }

  /** Such a text: a canonical text of 24 words and a no-break space. */
  lemma NoBreakSpaceIsOnlyTrimmed(p: Platform, entropy: seq<byte>)
    requires IsEnglish(p) && |entropy| == 32
    ensures |p.words| == 2048
    ensures VerdictOn(p, CanonicalText(p, entropy) + "\U{A0}", "P-01") == Valid
    ensures VerdictOn(p, CanonicalText(p, entropy) + "\U{A0}", "P-02") != Valid
  {
    hide IsEnglish, IsWordList, Phrase, Fields, Join, AllLetters, VerdictOnWords, IsPlainText, TrimStart;
    EnglishIsList(p);
    PhraseWords(p, entropy);
    var words := Phrase(p, entropy, 24);
    JoinedIsPlain(words);
    var text := Join(words) + "\U{A0}";
    NoBreakSpaceIsTrimmed(Join(words));
    LettersAreKept(Join(words));
    JoinedHasFields(words);
    CanonicalIsAccepted(p, "P-01", entropy);
    assert '\U{A0}' in text && !OnlyDelimiters(text);
    ProducersAgreeExactly(p, text);
  }

  lemma NoBreakSpaceIsTrimmed(s: string)
    requires s != "" && IsLetter(s[0]) && IsLetter(s[|s| - 1])
    ensures Trim(s + "\U{A0}") == s
  {
    var text := s + "\U{A0}";
    assert text[..|s|] == s && text[0] == s[0] && text[|s|] == '\U{A0}';
    assert TrimStart(text) == text && TrimEnd(s) == s;
    assert TrimEnd(text) == TrimEnd(text[..|s|]);
  }

  lemma ListedTextHasDelimiters(p: Platform, text: string)
    requires IsEnglish(p) && AllListed(p, Fields(text))
    ensures OnlyDelimiters(text)
  {
    hide IsEnglish, Fields, AllListed;
    ListedAreWords(p, Fields(text));
    forall c | c in text && IsSpace(c)
      ensures IsDelimiter(c)
    {
      if !IsDelimiter(c) { var w := NoFieldIsLost(text, c); }
    }
  }

  lemma ListedTextIsPlain(p: Platform, text: string)
    requires IsEnglish(p) && AllListed(p, Fields(Trim(text)))
    ensures IsPlainText(text)
  {
    hide IsEnglish, Fields, AllListed, Trim;
    var core := Trim(text);
    ListedAreWords(p, Fields(core));
    var a, b := TrimmedParts(text);
    forall c | c in text
      ensures IsLetter(c) || IsSpace(c)
    {
      if c in core && !IsDelimiter(c) { var w := NoFieldIsLost(core, c); }
    }
  }

  lemma TrimmedParts(s: string) returns (a: string, b: string)
    ensures s == a + (Trim(s) + b) && AllSpace(a) && AllSpace(b)
  {
    hide TrimStart, TrimEnd, AllSpace;
    var m := StartCutsSpace(s);
    var t := s[m..];
    var n := EndCutsSpace(t);
    a, b := s[..m], t[n..];
  }

  lemma DelimitersAreTrimmed(text: string)
    requires OnlyDelimiters(text)
    ensures Fields(Trim(text)) == Fields(text)
  {
    hide Fields, Trim;
    var a, b := TrimmedParts(text);
    assert forall c :: c in a || c in b ==> c in text;
    FieldsSkipFront(a, Trim(text) + b);
    FieldsSkipBack(Trim(text), b);
  }

  lemma {:induction false} FieldsSkipFront(a: string, s: string)
    requires forall c :: c in a ==> IsDelimiter(c)
    ensures Fields(a + s) == Fields(s)
  {
    if a == "" {
      assert a + s == s;
    } else {
      assert a[0] in a && (a + s)[1..] == a[1..] + s && forall c :: c in a[1..] ==> c in a;
      FieldsSkipFront(a[1..], s);
    }
  }

  lemma {:induction false} FieldsSkipBack(s: string, b: string)
    requires forall c :: c in b ==> IsDelimiter(c)
    ensures Fields(s + b) == Fields(s)
    decreases |s|
  {
    if s == "" {
      assert s + b == b + "" && b + "" == b;
      FieldsSkipFront(b, "");
    } else if IsDelimiter(s[0]) {
      assert (s + b)[1..] == s[1..] + b;
      FieldsSkipBack(s[1..], b);
    } else {
      var n := WordEnd(s);
      WordEndIsKept(s, b);
      assert (s + b)[..n] == s[..n] && (s + b)[n..] == s[n..] + b;
      FieldsSkipBack(s[n..], b);
    }
  }

  lemma WordEndIsKept(s: string, b: string)
    requires forall c :: c in b ==> IsDelimiter(c)
    ensures WordEnd(s + b) == WordEnd(s)
  {
    var n := WordEnd(s + b);
    assert b != "" ==> b[0] in b && (s + b)[|s|] == b[0];
    assert forall i :: 0 <= i < |s| ==> (s + b)[i] == s[i];
  }

  // ----- the refusals -------------------------------------------------------------------------

  /** The words have the length that the producer admits: 24, or for P-01 also 12. */
  predicate IsCounted(producerId: string, words: seq<string>) {
    |words| == 24 || (producerId == "P-01" && |words| == 12)
  }

  /** Each refusal names the first check that fails. */
  lemma RefusedExactly(p: Platform, text: string, producerId: string)
    ensures var verdict := VerdictOn(p, text, producerId);
            var words := Fields(if producerId == "P-01" then Trim(text) else p.lower(text));
            var known := producerId in {"P-01", "P-02", "P-03"};
            var counted := known && Trim(text) != "" && IsCounted(producerId, words);
            var lower := producerId == "P-01" ==> forall w :: w in words ==> p.lower(w) == w;
            var listed := forall w :: w in words ==> w in p.words;
            && (verdict == UnsupportedProducer <==> !known)
            && (verdict == InvalidMnemonic <==> known && (Trim(text) == "" || (counted && !lower)))
            && (verdict == InvalidWordCount <==> known && Trim(text) != "" && !IsCounted(producerId, words))
            && (verdict == UnknownWord <==> counted && lower && !listed)
            && (verdict == InvalidChecksum <==> counted && lower && listed && !Matches(p, words))
            && (verdict == Valid <==> counted && lower && listed && Matches(p, words))
  {
    hide Trim, Fields, Matches, AllListed, IsLowerCase;
    var words := Fields(if producerId == "P-01" then Trim(text) else p.lower(text));
    ListedIs(p, words);
    LowerIs(p, words);
  }

  lemma ListedIs(p: Platform, words: seq<string>)
    ensures AllListed(p, words) <==> forall w :: w in words ==> w in p.words
  {
    forall i | 0 <= i < |words|
      ensures IndexOf(p.words, words[i]) < |p.words| <==> words[i] in p.words
    {
      var at := IndexOf(p.words, words[i]);
      if at == |p.words| { assert p.words[..at] == p.words; }
    }
    if forall w :: w in words ==> w in p.words {
      assert forall i :: 0 <= i < |words| ==> words[i] in p.words;
    }
  }

  lemma LowerIs(p: Platform, words: seq<string>)
    ensures IsLowerCase(p, words) <==> forall w :: w in words ==> p.lower(w) == w
  {
    if forall w :: w in words ==> p.lower(w) == w {
      assert forall i :: 0 <= i < |words| ==> words[i] in words;
    }
  }
}
