/**
  Deduplication of derived identity candidates and their resolution against a registry
  (identity-compatibility/candidates.ts). Deduplicating never changes what a lookup finds,
  exactly as long as the joined keys tell the address pairs apart.
*/
module Candidates {
  import opened TextFormats

  datatype Candidate = Candidate(
    producerId: string, producerName: string, precedence: int, producerIds: seq<string>,
    signingAddress: string, encryptionAddress: string, publicKeyEncoding: string)
  {
    function Addresses(): (string, string) { (signingAddress, encryptionAddress) }

    function Key(): string { signingAddress + "|" + encryptionAddress }
  }

  datatype RegistryEntry = RegistryEntry(profileAlias: string, signingAddress: string, encryptionAddress: string)
  {
    function Addresses(): (string, string) { (signingAddress, encryptionAddress) }
  }

  datatype Match = Match(registryId: string, profileAlias: string, producerIds: seq<string>)
  datatype LookupResult = LookupResult(matchCount: nat, ambiguous: bool, matches: seq<Match>)

  /** `[...new Set(s)]`: the first occurrences, in order. */
  function Unique<T(==, !new)>(s: seq<T>): (u: seq<T>)
    ensures forall x :: x in u <==> x in s
    ensures forall i, j :: 0 <= i < j < |u| ==> u[i] != u[j]
  {
    if s == [] then []
    else
      var front, last := Unique(s[..|s| - 1]), s[|s| - 1];
      assert forall x :: x in s <==> x in s[..|s| - 1] || x == last;
      if last in front then front else front + [last]
  }

  /** What an earlier candidate becomes when one with the same key follows. */
  function Merge(e: Candidate, c: Candidate): (m: Candidate)
    ensures m.Addresses() == e.Addresses() && m.Key() == e.Key()
  {
    var ids := Unique(e.producerIds + c.producerIds);
    if c.precedence < e.precedence
    then e.(precedence := c.precedence, producerName := c.producerName, producerId := c.producerId, producerIds := ids)
    else e.(producerIds := ids)
  }

  function IndexOfKey(cs: seq<Candidate>, key: string): (i: nat)
    ensures i <= |cs| && (i < |cs| ==> cs[i].Key() == key)
    ensures forall k :: 0 <= k < i ==> cs[k].Key() != key
  {
    if cs == [] || cs[0].Key() == key then 0
    else
      var i := IndexOfKey(cs[1..], key);
      assert forall k :: 0 < k <= i ==> cs[k] == cs[1..][k - 1];
      1 + i
  }

  function Absorb(merged: seq<Candidate>, c: Candidate): seq<Candidate> {
    var i := IndexOfKey(merged, c.Key());
    if i < |merged| then merged[i := Merge(merged[i], c)] else merged + [c]
  }

  /** One candidate for each key, in the order in which the keys first occur. */
  function Dedupe(cs: seq<Candidate>): seq<Candidate> {
    if cs == [] then [] else Absorb(Dedupe(cs[..|cs| - 1]), cs[|cs| - 1])
  }

  method DedupeCandidates(candidates: seq<Candidate>) returns (result: seq<Candidate>)
    ensures result == Dedupe(candidates)
  {
    hide Unique, Merge, Dedupe;
    var byKey: map<string, Candidate> := map[];
    var order: seq<string> := [];
    assert Dedupe([]) == [] && Keys([]) == [] by { NothingToDedupe(); }
    assert candidates[..0] == [];
    for i := 0 to |candidates|
      invariant order == Keys(Dedupe(candidates[..i]))
      invariant forall key :: key in byKey <==> key in order
      invariant forall k :: 0 <= k < |order| ==> byKey[order[k]] == Dedupe(candidates[..i])[k]
    {
      var c := candidates[i];
      DedupeOneMore(candidates, i);
      if c.Key() in byKey {
        byKey := byKey[c.Key() := Merge(byKey[c.Key()], c)];
      } else {
        byKey := byKey[c.Key() := c];
        order := order + [c.Key()];
      }
    }
    assert candidates[..|candidates|] == candidates;
    result := seq(|order|, k requires 0 <= k < |order| => byKey[order[k]]);
  }

  lemma NothingToDedupe()
    ensures Dedupe([]) == [] && Keys([]) == []
  {
  }

  lemma KeysNeverRepeat(cs: seq<Candidate>)
    ensures var kept := Dedupe(cs); forall j, k :: 0 <= j < k < |kept| ==> kept[j].Key() != kept[k].Key()
  {
    hide Unique, Dedupe, Candidate.Key;
    KeysAreUnique(cs);
    var kept := Dedupe(cs);
    forall j, k | 0 <= j < k < |kept|
      ensures kept[j].Key() != kept[k].Key()
    {
      assert Keys(kept)[j] != Keys(kept)[k];
    }
  }

  /** What one more candidate does to the map and the order of keys. */
  lemma DedupeOneMore(cs: seq<Candidate>, i: nat)
    requires i < |cs|
    ensures var before, after, c := Dedupe(cs[..i]), Dedupe(cs[..i + 1]), cs[i];
            && (forall j, k :: 0 <= j < k < |before| ==> before[j].Key() != before[k].Key())
            && Keys(after) == (if c.Key() in Keys(before) then Keys(before) else Keys(before) + [c.Key()])
            && (forall k :: 0 <= k < |before| ==>
                  after[k] == if before[k].Key() == c.Key() then Merge(before[k], c) else before[k])
            && (c.Key() !in Keys(before) ==> after == before + [c])
  {
    hide Unique, Merge, Candidate.Key, IndexOfKey, Keys;
    var before, c := Dedupe(cs[..i]), cs[i];
    assert cs[..i + 1][..i] == cs[..i];
    KeysAreUnique(cs[..i]);
    KeysOfAbsorb(before, c);
    KeysNeverRepeat(cs[..i]);
  }

  function Keys(cs: seq<Candidate>): seq<string> { seq(|cs|, i requires 0 <= i < |cs| => cs[i].Key()) }

  function Pairs(cs: seq<Candidate>): seq<(string, string)> {
    seq(|cs|, i requires 0 <= i < |cs| => cs[i].Addresses())
  }

  lemma KeyIsFound(cs: seq<Candidate>, key: string)
    ensures key in Keys(cs) <==> IndexOfKey(cs, key) < |cs|
  {
    hide IndexOfKey;
    var i, keys := IndexOfKey(cs, key), Keys(cs);
    if i < |cs| {
      assert keys[i] == key;
    } else {
      assert forall k :: 0 <= k < |keys| ==> keys[k] != key;
    }
  }

  lemma KeysOfUpdate(cs: seq<Candidate>, i: nat, m: Candidate)
    requires i < |cs| && m.Key() == cs[i].Key()
    ensures Keys(cs[i := m]) == Keys(cs)
  {
  }

  lemma KeysOfAppend(cs: seq<Candidate>, c: Candidate)
    ensures Keys(cs + [c]) == Keys(cs) + [c.Key()]
  {
  }

  lemma KeysOfAbsorb(merged: seq<Candidate>, c: Candidate)
    ensures Keys(Absorb(merged, c)) == if c.Key() in Keys(merged) then Keys(merged) else Keys(merged) + [c.Key()]
    ensures c.Key() in Keys(merged) <==> IndexOfKey(merged, c.Key()) < |merged|
  {
    hide Merge, Unique, Candidate.Key, IndexOfKey, Keys;
    var i := IndexOfKey(merged, c.Key());
    KeyIsFound(merged, c.Key());
    if i < |merged| {
      KeysOfUpdate(merged, i, Merge(merged[i], c));
    } else {
      KeysOfAppend(merged, c);
    }
  }

  /** One candidate for each key, in first-occurrence order. */
  lemma {:induction false} KeysAreUnique(cs: seq<Candidate>)
    ensures Keys(Dedupe(cs)) == Unique(Keys(cs))
  {
    if cs != [] {
      KeysAreUnique(cs[..|cs| - 1]);
      assert Keys(cs)[..|cs| - 1] == Keys(cs[..|cs| - 1]);
      KeysOfAbsorb(Dedupe(cs[..|cs| - 1]), cs[|cs| - 1]);
    }
  }

  // ----- lookups ------------------------------------------------------------------------------

  /** The producer ids of all candidates with these addresses, in order. */
  function IdsFor(cs: seq<Candidate>, pair: (string, string)): seq<string> {
    if cs == [] then []
    else
      var front, last := IdsFor(cs[..|cs| - 1], pair), cs[|cs| - 1];
      if last.Addresses() == pair then front + last.producerIds else front
  }

  predicate HasPair(cs: seq<Candidate>, pair: (string, string)) { pair in Pairs(cs) }

  /** `String(n).padStart(3, '0')` */
  function RegistryId(n: nat): string {
    var digits := Decimal(n);
    if |digits| == 1 then "00" + digits else if |digits| == 2 then "0" + digits else digits
  }

  function Matches(cs: seq<Candidate>, registry: seq<RegistryEntry>): seq<Match> {
    if registry == [] then []
    else
      var front, last := Matches(cs, registry[..|registry| - 1]), registry[|registry| - 1];
      if HasPair(cs, last.Addresses())
      then front + [Match(RegistryId(|registry|), last.profileAlias, Unique(IdsFor(cs, last.Addresses())))]
      else front
  }

  function Resolve(cs: seq<Candidate>, registry: seq<RegistryEntry>): LookupResult {
    var matches := Matches(cs, registry);
    LookupResult(|matches|, |matches| > 1, matches)
  }

  method ResolveLookup(cs: seq<Candidate>, registry: seq<RegistryEntry>) returns (result: LookupResult)
    ensures result == Resolve(cs, registry)
  {
    hide Unique, IdsFor, RegistryId;
    var matches: seq<Match> := [];
    for index := 0 to |registry|
      invariant matches == Matches(cs, registry[..index])
    {
      var entry := registry[index];
      assert registry[..index + 1][..index] == registry[..index];
      var found, ids := MatchingIds(cs, entry.Addresses());
      if found {
        matches := matches + [Match(RegistryId(index + 1), entry.profileAlias, Unique(ids))];
      }
    }
    assert registry[..|registry|] == registry;
    return LookupResult(|matches|, |matches| > 1, matches);
  }

  /** The filter over the candidates, and the concatenation of their producer ids. */
  method MatchingIds(cs: seq<Candidate>, pair: (string, string)) returns (found: bool, ids: seq<string>)
    ensures found == HasPair(cs, pair) && ids == IdsFor(cs, pair)
  {
    found, ids := false, [];
    for i := 0 to |cs|
      invariant found == HasPair(cs[..i], pair) && ids == IdsFor(cs[..i], pair)
    {
      assert cs[..i + 1][..i] == cs[..i];
      assert Pairs(cs[..i + 1]) == Pairs(cs[..i]) + [cs[i].Addresses()];
      if cs[i].Addresses() == pair { found, ids := true, ids + cs[i].producerIds; }
    }
    assert cs[..|cs|] == cs;
  }

  // ----- deduplication preserves lookups ------------------------------------------------------

  /** Candidates with the same joined key have the same addresses. */
  ghost predicate KeysDistinguish(cs: seq<Candidate>) {
    forall i, j ::
      0 <= i < |cs| && 0 <= j < |cs| && cs[i].Key() == cs[j].Key() ==> cs[i].Addresses() == cs[j].Addresses()
  }

  lemma {:induction false} UniqueOfUnique(a: seq<string>)
    ensures Unique(Unique(a)) == Unique(a)
  {
    if a != [] {
      var front, last := Unique(a[..|a| - 1]), a[|a| - 1];
      UniqueOfUnique(a[..|a| - 1]);
      if last !in front { assert (front + [last])[..|front|] == front; }
    }
  }

  lemma {:induction false} UniqueAbsorbsUnique(a: seq<string>, b: seq<string>)
    ensures Unique(Unique(a) + b) == Unique(a + b)
  {
    if b == [] {
      assert Unique(a) + b == Unique(a) && a + b == a;
      UniqueOfUnique(a);
    } else {
      var front := b[..|b| - 1];
      UniqueAbsorbsUnique(a, front);
      assert (Unique(a) + b)[..|Unique(a) + b| - 1] == Unique(a) + front;
      assert (a + b)[..|a + b| - 1] == a + front;
    }
  }

  /** Each candidate kept has the addresses of an input candidate with its key. */
  lemma {:induction false} KeptComesFrom(cs: seq<Candidate>, k: nat) returns (i: nat)
    requires k < |Dedupe(cs)|
    ensures i < |cs| && cs[i].Key() == Dedupe(cs)[k].Key() && cs[i].Addresses() == Dedupe(cs)[k].Addresses()
  {
    var front := cs[..|cs| - 1];
    if k < |Dedupe(front)| {
      i := KeptComesFrom(front, k);
    } else {
      i := |cs| - 1;
    }
  }

  /** Only one kept candidate has given addresses. */
  lemma {:induction false} IdsOfOne(cs: seq<Candidate>, k: nat, pair: (string, string))
    requires k < |cs| && cs[k].Addresses() == pair
    requires forall i :: 0 <= i < |cs| && i != k ==> cs[i].Addresses() != pair
    ensures IdsFor(cs, pair) == cs[k].producerIds
  {
    var front := cs[..|cs| - 1];
    if k == |cs| - 1 {
      IdsOfNone(front, pair);
    } else {
      IdsOfOne(front, k, pair);
    }
  }

  lemma {:induction false} IdsOfNone(cs: seq<Candidate>, pair: (string, string))
    requires forall i :: 0 <= i < |cs| ==> cs[i].Addresses() != pair
    ensures IdsFor(cs, pair) == []
  {
    if cs != [] { IdsOfNone(cs[..|cs| - 1], pair); }
  }

  lemma {:induction false} PairsAreKept(cs: seq<Candidate>)
    requires KeysDistinguish(cs)
    ensures Pairs(Dedupe(cs)) == Unique(Pairs(cs))
  {
    if cs != [] {
      hide Merge, IndexOfKey;
      var front, c := cs[..|cs| - 1], cs[|cs| - 1];
      PairsAreKept(front);
      assert Pairs(cs)[..|cs| - 1] == Pairs(front);
      var merged := Dedupe(front);
      var i := IndexOfKey(merged, c.Key());
      if i < |merged| {
        var from := KeptComesFrom(front, i);
        assert cs[from] == front[from];
        assert Pairs(merged)[i] == c.Addresses();
        assert Pairs(merged[i := Merge(merged[i], c)]) == Pairs(merged);
      } else {
        assert forall k :: 0 <= k < |merged| ==> merged[k].Addresses() != c.Addresses();
        assert Pairs(merged + [c]) == Pairs(merged) + [c.Addresses()];
      }
    }
  }

  lemma {:induction false} UpdateOther(cs: seq<Candidate>, i: nat, x: Candidate, pair: (string, string))
    requires i < |cs| && cs[i].Addresses() != pair && x.Addresses() != pair
    ensures IdsFor(cs[i := x], pair) == IdsFor(cs, pair)
  {
    var front := cs[..|cs| - 1];
    if i == |cs| - 1 {
      assert cs[i := x][..|cs| - 1] == front;
    } else {
      assert cs[i := x][..|cs| - 1] == front[i := x];
      UpdateOther(front, i, x, pair);
    }
  }

  /** The candidate kept for the key of `c` has its addresses, and is the only one that does. */
  lemma KeptForKey(front: seq<Candidate>, c: Candidate) returns (i: nat)
    requires KeysDistinguish(front + [c]) && Pairs(Dedupe(front)) == Unique(Pairs(front))
    ensures i == IndexOfKey(Dedupe(front), c.Key())
    ensures var merged := Dedupe(front);
            && (i < |merged| ==> merged[i].Addresses() == c.Addresses())
            && forall k :: 0 <= k < |merged| && k != i ==> merged[k].Addresses() != c.Addresses()
  {
    var merged := Dedupe(front);
    i := IndexOfKey(merged, c.Key());
    if i < |merged| {
      var from := KeptComesFrom(front, i);
      assert (front + [c])[from] == front[from] && (front + [c])[|front|] == c;
    }
    forall k | 0 <= k < |merged| && k != i
      ensures merged[k].Addresses() != c.Addresses()
    {
      assert Pairs(merged)[k] == merged[k].Addresses();
      if i < |merged| {
        assert Pairs(merged)[i] == merged[i].Addresses();
      } else {
        assert merged[k].Key() != c.Key();
      }
    }
  }

  /** One more candidate absorbed: with other addresses it changes nothing, with these it adds its ids. */
  lemma AbsorbKeepsIds(front: seq<Candidate>, c: Candidate, pair: (string, string))
    requires KeysDistinguish(front + [c])
    requires Unique(IdsFor(Dedupe(front), pair)) == Unique(IdsFor(front, pair))
    requires Pairs(Dedupe(front)) == Unique(Pairs(front))
    ensures Unique(IdsFor(Absorb(Dedupe(front), c), pair)) == Unique(IdsFor(front + [c], pair))
  {
    hide Unique, KeysDistinguish, Dedupe;
    var merged := Dedupe(front);
    var i := KeptForKey(front, c);
    assert (front + [c])[..|front|] == front;
    if c.Addresses() != pair {
      if i < |merged| {
        UpdateOther(merged, i, Merge(merged[i], c), pair);
      } else {
        assert (merged + [c])[..|merged|] == merged;
      }
    } else {
      UniqueAbsorbsUnique(IdsFor(front, pair), c.producerIds);
      if i < |merged| {
        IdsOfOne(merged, i, pair);
        IdsOfOne(merged[i := Merge(merged[i], c)], i, pair);
        UniqueAbsorbsUnique(merged[i].producerIds, c.producerIds);
        UniqueOfUnique(merged[i].producerIds + c.producerIds);
      } else {
        IdsOfNone(merged, pair);
        IdsOfOne(merged + [c], i, pair);
        UniqueAbsorbsUnique([], c.producerIds);
        assert [] + c.producerIds == c.producerIds;
      }
    }
  }

  /** The addresses of a kept candidate occur only once, and its ids are those of all it merged. */
  lemma {:induction false} IdsAreKept(cs: seq<Candidate>, pair: (string, string))
    requires KeysDistinguish(cs)
    ensures Unique(IdsFor(Dedupe(cs), pair)) == Unique(IdsFor(cs, pair))
  {
    if cs != [] {
      var front, c := cs[..|cs| - 1], cs[|cs| - 1];
      IdsAreKept(front, pair);
      PairsAreKept(front);
      PairsAreKept(cs);
      AbsorbKeepsIds(front, c, pair);
    }
  }

  lemma LookupIsKept(cs: seq<Candidate>, registry: seq<RegistryEntry>)
    requires KeysDistinguish(cs)
    ensures Resolve(Dedupe(cs), registry) == Resolve(cs, registry)
  {
    hide Unique, KeysDistinguish, Dedupe, IdsFor, RegistryId;
    if registry == [] {
    } else {
      var entry := registry[|registry| - 1];
      LookupIsKept(cs, registry[..|registry| - 1]);
      IdsAreKept(cs, entry.Addresses());
      PairsAreKept(cs);
    }
  }

  /** A registry that only knows one pair tells whether some candidate has it. */
  lemma OneEntry(cs: seq<Candidate>, entry: RegistryEntry)
    ensures Resolve(cs, [entry]).matchCount == if HasPair(cs, entry.Addresses()) then 1 else 0
  {
    hide Unique, IdsFor, RegistryId;
    assert [entry][..0] == [] && Matches(cs, []) == [];
  }

  /** When two pairs share a key, one of them is lost. */
  lemma SharedKeyLosesOne(cs: seq<Candidate>, i: nat, j: nat) returns (lost: nat)
    requires i < |cs| && j < |cs| && cs[i].Key() == cs[j].Key() && cs[i].Addresses() != cs[j].Addresses()
    ensures lost < |cs| && !HasPair(Dedupe(cs), cs[lost].Addresses())
  {
    var kept := Dedupe(cs);
    var m := IndexOfKey(kept, cs[i].Key());
    lost := if m < |kept| && kept[m].Addresses() == cs[i].Addresses() then j else i;
    forall k | 0 <= k < |kept|
      ensures kept[k].Addresses() != cs[lost].Addresses()
    {
      if kept[k].Key() == cs[i].Key() { OnlyKept(cs, k, cs[i].Key()); }
    }
  }

  /**
    Deduplication leaves every lookup as it was, with the same matches, ambiguity and producer
    ids, exactly if the joined keys tell the address pairs of the candidates apart.
  */
  lemma LookupIsKeptExactly(cs: seq<Candidate>)
    ensures (forall registry :: Resolve(Dedupe(cs), registry) == Resolve(cs, registry)) <==> KeysDistinguish(cs)
  {
    hide Dedupe, Resolve;
    if KeysDistinguish(cs) {
      forall registry
        ensures Resolve(Dedupe(cs), registry) == Resolve(cs, registry)
      {
        LookupIsKept(cs, registry);
      }
    } else {
      var i: nat, j: nat :|
        i < |cs| && j < |cs| && cs[i].Key() == cs[j].Key() && cs[i].Addresses() != cs[j].Addresses();
      var lost := SharedKeyLosesOne(cs, i, j);
      var entry := RegistryEntry("", cs[lost].signingAddress, cs[lost].encryptionAddress);
      assert Pairs(cs)[lost] == entry.Addresses();
      OneEntry(cs, entry);
      OneEntry(Dedupe(cs), entry);
    }
  }

  /** Addresses without a bar always are told apart. */
  lemma BarlessAddressesDistinguish(cs: seq<Candidate>)
    requires forall i :: 0 <= i < |cs| ==> '|' !in cs[i].signingAddress
    ensures KeysDistinguish(cs)
  {
    forall i, j | 0 <= i < |cs| && 0 <= j < |cs| && cs[i].Key() == cs[j].Key()
      ensures cs[i].Addresses() == cs[j].Addresses()
    {
      JoinIsInjective(cs[i].signingAddress, cs[i].encryptionAddress, cs[j].signingAddress, cs[j].encryptionAddress);
    }
  }

  lemma JoinIsInjective(a: string, b: string, c: string, d: string)
    requires '|' !in a && '|' !in c && a + "|" + b == c + "|" + d
    ensures a == c && b == d
  {
    var ab, cd := a + "|" + b, c + "|" + d;
    assert ab[|a|] == '|' && cd[|c|] == '|';
    assert forall k :: 0 <= k < |a| ==> ab[k] == a[k] && a[k] != '|';
    assert forall k :: 0 <= k < |c| ==> cd[k] == c[k] && c[k] != '|';
    assert a == ab[..|a|] && c == cd[..|c|];
    assert b == ab[|a| + 1..] && d == cd[|c| + 1..];
  }

  /** The candidate kept for a key is described by the first of the most preferred ones it merged. */
  lemma {:induction false} KeptIsMostPreferred(cs: seq<Candidate>, k: nat) returns (i: nat)
    requires k < |Dedupe(cs)|
    ensures var kept := Dedupe(cs)[k];
            && i < |cs| && cs[i].Key() == kept.Key()
            && kept.precedence == cs[i].precedence
            && kept.producerId == cs[i].producerId && kept.producerName == cs[i].producerName
            && (forall j :: 0 <= j < |cs| && cs[j].Key() == kept.Key() ==> cs[i].precedence <= cs[j].precedence)
            && (forall j :: 0 <= j < i && cs[j].Key() == kept.Key() ==> cs[i].precedence < cs[j].precedence)
  {
    hide Unique, Candidate.Key, IndexOfKey;
    var front, c := cs[..|cs| - 1], cs[|cs| - 1];
    var merged := Dedupe(front);
    if k < |merged| {
      i := KeptIsMostPreferred(front, k);
      assert forall j :: 0 <= j < |front| ==> front[j] == cs[j];
      if c.Key() == merged[k].Key() {
        OnlyKept(front, k, c.Key());
        if c.precedence < merged[k].precedence { i := |cs| - 1; }
      }
    } else {
      i := |cs| - 1;
      NoneBefore(front, c.Key());
    }
  }

  lemma OnlyKept(cs: seq<Candidate>, k: nat, key: string)
    requires k < |Dedupe(cs)| && Dedupe(cs)[k].Key() == key
    ensures IndexOfKey(Dedupe(cs), key) == k
  {
    KeysAreUnique(cs);
    var i := IndexOfKey(Dedupe(cs), key);
    assert Keys(Dedupe(cs))[i] == key && Keys(Dedupe(cs))[k] == key;
  }

  lemma NoneBefore(cs: seq<Candidate>, key: string)
    requires IndexOfKey(Dedupe(cs), key) == |Dedupe(cs)|
    ensures forall j :: 0 <= j < |cs| ==> cs[j].Key() != key
  {
    KeysAreUnique(cs);
    assert key !in Keys(Dedupe(cs));
    forall j | 0 <= j < |cs|
      ensures cs[j].Key() != key
    {
      assert Keys(cs)[j] in Keys(cs);
    }
  }

  // ----- what a lookup finds ------------------------------------------------------------------

  /** Some candidate has exactly the two addresses of the entry. */
  ghost predicate IsFound(cs: seq<Candidate>, entry: RegistryEntry) {
    exists c :: c in cs && c.signingAddress == entry.signingAddress && c.encryptionAddress == entry.encryptionAddress
  }

  /** The entry is reported under its number, with every producer of a candidate that matches it, once. */
  ghost predicate Describes(cs: seq<Candidate>, entry: RegistryEntry, number: nat, m: Match) {
    && m.registryId == RegistryId(number) && m.profileAlias == entry.profileAlias
    && (forall id :: id in m.producerIds <==>
          exists c :: && c in cs && c.signingAddress == entry.signingAddress
                      && c.encryptionAddress == entry.encryptionAddress && id in c.producerIds)
    && (forall k, l :: 0 <= k < l < |m.producerIds| ==> m.producerIds[k] != m.producerIds[l])
  }

  lemma FoundIsPair(cs: seq<Candidate>, entry: RegistryEntry)
    ensures HasPair(cs, entry.Addresses()) <==> IsFound(cs, entry)
  {
    if c :| c in cs && c.signingAddress == entry.signingAddress && c.encryptionAddress == entry.encryptionAddress {
      var i :| 0 <= i < |cs| && cs[i] == c;
      assert Pairs(cs)[i] == entry.Addresses();
    }
    if HasPair(cs, entry.Addresses()) {
      var i :| 0 <= i < |cs| && Pairs(cs)[i] == entry.Addresses();
      assert cs[i] in cs && cs[i].Addresses() == entry.Addresses();
    }
  }

  lemma {:induction false} IdsAreOfPair(cs: seq<Candidate>, pair: (string, string), id: string)
    ensures id in IdsFor(cs, pair) <==> exists c :: c in cs && c.Addresses() == pair && id in c.producerIds
  {
    if cs != [] {
      var front, last := cs[..|cs| - 1], cs[|cs| - 1];
      IdsAreOfPair(front, pair, id);
      assert forall c :: c in cs <==> c in front || c == last;
    }
  }

  lemma EntryIsDescribed(cs: seq<Candidate>, entry: RegistryEntry, number: nat)
    ensures Describes(cs, entry, number,
                      Match(RegistryId(number), entry.profileAlias, Unique(IdsFor(cs, entry.Addresses()))))
  {
    hide RegistryId, IdsFor;
    forall id
      ensures id in Unique(IdsFor(cs, entry.Addresses())) <==>
              exists c :: && c in cs && c.signingAddress == entry.signingAddress
                          && c.encryptionAddress == entry.encryptionAddress && id in c.producerIds
    {
      IdsAreOfPair(cs, entry.Addresses(), id);
    }
  }

  /** The matches describe the entries at the increasing positions `at`: those found, and no others. */
  ghost predicate Selects(cs: seq<Candidate>, registry: seq<RegistryEntry>, at: seq<nat>, matches: seq<Match>) {
    && |at| == |matches|
    && (forall k :: 0 <= k < |at| ==>
          at[k] < |registry| && Describes(cs, registry[at[k]], at[k] + 1, matches[k]))
    && (forall k, l :: 0 <= k < l < |at| ==> at[k] < at[l])
    && (forall i: nat :: i < |registry| ==> (i in at <==> IsFound(cs, registry[i])))
  }

  lemma SelectsStep(cs: seq<Candidate>, registry: seq<RegistryEntry>, at: seq<nat>, matches: seq<Match>, m: Match)
    requires registry != [] && Selects(cs, registry[..|registry| - 1], at, matches)
    ensures var last := |registry| - 1;
            if IsFound(cs, registry[last]) then
              Describes(cs, registry[last], |registry|, m) ==> Selects(cs, registry, at + [last], matches + [m])
            else Selects(cs, registry, at, matches)
  {
    hide Describes, IsFound;
    var last := |registry| - 1;
    var front := registry[..last];
    assert forall i: nat :: i < last ==> front[i] == registry[i];
    if IsFound(cs, registry[last]) {
      var more := at + [last];
      assert more[|at|] == last;
      forall i: nat | i < |registry|
        ensures i in more <==> IsFound(cs, registry[i])
      {
        assert i in more <==> i in at || i == last;
        if i < last { assert front[i] == registry[i]; } else { assert i == last; }
      }
    } else {
      forall i: nat | i < |registry|
        ensures i in at <==> IsFound(cs, registry[i])
      {
        if i < last { assert front[i] == registry[i]; } else { NotSelected(at, last); }
      }
    }
  }

  lemma NotSelected(at: seq<nat>, n: nat)
    requires forall k :: 0 <= k < |at| ==> at[k] < n
    ensures n !in at
  {
  }

  /** A lookup reports exactly the entries that some candidate matches, under their numbers from one. */
  lemma {:induction false} MatchesExactly(cs: seq<Candidate>, registry: seq<RegistryEntry>) returns (at: seq<nat>)
    ensures Selects(cs, registry, at, Matches(cs, registry))
  {
    hide Describes, IsFound, HasPair, IdsFor, Unique, RegistryId, Selects;
    if registry == [] {
      at := [];
      NothingIsSelected(cs);
    } else {
      var front, last := registry[..|registry| - 1], registry[|registry| - 1];
      at := MatchesExactly(cs, front);
      FoundIsPair(cs, last);
      EntryIsDescribed(cs, last, |registry|);
      SelectsStep(cs, registry, at, Matches(cs, front),
                  Match(RegistryId(|registry|), last.profileAlias, Unique(IdsFor(cs, last.Addresses()))));
      if HasPair(cs, last.Addresses()) { at := at + [|registry| - 1]; }
    }
  }

  lemma NothingIsSelected(cs: seq<Candidate>)
    ensures Selects(cs, [], [], [])
  {
  }

  /** The lookup counts its matches, and is ambiguous exactly if two entries are found. */
  lemma AmbiguousExactly(cs: seq<Candidate>, registry: seq<RegistryEntry>)
    ensures Resolve(cs, registry).matchCount == |Resolve(cs, registry).matches|
    ensures Resolve(cs, registry).ambiguous <==>
              exists i, j :: 0 <= i < j < |registry| && IsFound(cs, registry[i]) && IsFound(cs, registry[j])
  {
    hide Matches, IsFound, Describes;
    var at := MatchesExactly(cs, registry);
    if |at| > 1 {
      assert at[0] in at && at[1] in at && at[0] < at[1];
    }
    if i, j :| 0 <= i < j < |registry| && IsFound(cs, registry[i]) && IsFound(cs, registry[j]) {
      assert i in at && j in at;
      var k :| 0 <= k < |at| && at[k] == i;
      var l :| 0 <= l < |at| && at[l] == j;
    }
  }

  /** Numbers below a thousand are written with three digits. */
  lemma RegistryIdIs(n: nat)
    requires n < 1_000
    ensures RegistryId(n) == [('0' as int + n / 100) as char, ('0' as int + n / 10 % 10) as char,
                              ('0' as int + n % 10) as char]
  {
    var units, tens, hundreds := n % 10, n / 10 % 10, n / 100;
    if n >= 100 {
      assert n / 10 / 10 == hundreds && n / 10 % 10 == tens;
      assert Decimal(hundreds) == [('0' as int + hundreds) as char];
      assert Decimal(n / 10) == Decimal(hundreds) + [('0' as int + tens) as char];
      assert Decimal(n) == Decimal(n / 10) + [('0' as int + units) as char];
    } else if n >= 10 {
      assert Decimal(n / 10) == [('0' as int + tens) as char];
      assert Decimal(n) == Decimal(n / 10) + [('0' as int + units) as char];
    }
  }

  /** Whatever is merged into it, a kept candidate has the encoding of the first one with its key. */
  lemma {:induction false} EncodingIsTheFirst(cs: seq<Candidate>, k: nat) returns (i: nat)
    requires k < |Dedupe(cs)|
    ensures var kept := Dedupe(cs)[k];
            && i < |cs| && cs[i].Key() == kept.Key() && kept.publicKeyEncoding == cs[i].publicKeyEncoding
            && kept.Addresses() == cs[i].Addresses()
            && forall j :: 0 <= j < i ==> cs[j].Key() != kept.Key()
  {
    hide Unique, Candidate.Key, IndexOfKey;
    var front, c := cs[..|cs| - 1], cs[|cs| - 1];
    if k < |Dedupe(front)| {
      i := EncodingIsTheFirst(front, k);
      assert forall j :: 0 <= j < |front| ==> front[j] == cs[j];
    } else {
      i := |cs| - 1;
      NoneBefore(front, c.Key());
    }
  }
}
