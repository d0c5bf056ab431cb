/** What the mnemonic format guarantees: the round trip, and exactly which phrases decode to a seed. */
module MnemonicTheorems {
  import opened BitRegrouping
  import opened PositionalNumbers
  import opened Text
  import opened Wallet
  import opened Wrappers

  // ---------- 24 groups of eleven bits against 32 bytes ----------

  lemma Sizes()
    ensures Pow(256, 33) == Pow(2048, 24) && Pow(256, 33) == 256 * Pow(256, 32)
  {
    PowersOfTwo();
    PowerOfPower(8, 33);
    PowerOfPower(11, 24);
  }

  /** The seed's value is the value of the groups without its last eight bits. */
  lemma SeedIsHighPart(indices: seq<nat>)
    requires |indices| == 24 && Bounded(2048, indices)
    ensures SeedOf(indices) == Ok(Digits(256, Quotient(Value(2048, indices), 256), 32))
    ensures Quotient(Value(2048, indices), 256) < Pow(256, 32)
  {
    var w := Value(2048, indices);
    WholeBytesOf24(indices);
    DropLastDigit(w, 32);
    hide Value, Pow, Digits, WholeBytes;
    HighPartFits(indices);
  }

  lemma WholeBytesOf24(indices: seq<nat>)
    requires |indices| == 24
    ensures WholeBytes(indices) == Digits(256, Value(2048, indices), 33)
  {
    hide Digits, Value;
    assert 11 * 24 % 8 == 0 && 11 * 24 / 8 == 33;
    assert Quotient(Value(2048, indices), Pow(2, 0)) == Value(2048, indices);
  }

  lemma DropLastDigit(w: nat, n: nat)
    ensures Digits(256, w, n + 1)[..n] == Digits(256, Quotient(w, 256), n)
  {
    assert Digits(256, w, n + 1) == Digits(256, Quotient(w, 256), n) + [Remainder(w, 256)];
  }

  lemma HighPartFits(indices: seq<nat>)
    requires |indices| == 24 && Bounded(2048, indices)
    ensures Quotient(Value(2048, indices), 256) < Pow(256, 32)
  {
    ValueFits(2048, indices);
    Sizes();
  }

  lemma GroupsOfSeed(seed: seq<byte>)
    requires |seed| == 32
    ensures Value(256, seed) < Pow(256, 32)
    ensures |ElevenBitGroups(seed)| == 24 && Value(2048, ElevenBitGroups(seed)) == Value(256, seed) * 256
  {
    ValueFits(256, seed);
    GroupsOf32Bytes(seed);
    Fits24Groups(Value(256, seed));
    hide Value, Pow, Digits, ElevenBitGroups;
    ValueOfDigits(2048, Value(256, seed) * 256, 24);
  }

  lemma Fits24Groups(v: nat)
    requires v < Pow(256, 32)
    ensures v * 256 < Pow(2048, 24)
  {
    Sizes();
    hide Pow;
  }

  lemma SeedFromItsGroups(seed: seq<byte>)
    requires |seed| == 32
    ensures SeedOf(ElevenBitGroups(seed)) == Ok(seed)
  {
    GroupsOfSeed(seed);
    SeedIsHighPart(ElevenBitGroups(seed));
    QuotientIs(Value(256, seed) * 256, 256, Value(256, seed), 0);
    DigitsOfValue(256, seed);
  }

  /** The low byte of the last group is what the seed forgets. */
  lemma HighPart(indices: seq<nat>)
    requires |indices| == 24
    ensures Quotient(Value(2048, indices), 256) == Value(2048, indices[..23]) * 8 + indices[23] / 256
  {
  }

  lemma SameHighPart(a: seq<nat>, b: seq<nat>)
    requires |a| == |b| == 24 && Bounded(2048, a) && Bounded(2048, b)
    ensures Quotient(Value(2048, a), 256) == Quotient(Value(2048, b), 256)
       <==> a[..23] == b[..23] && a[23] / 256 == b[23] / 256
  {
    HighPart(a);
    HighPart(b);
    if Value(2048, a[..23]) == Value(2048, b[..23]) {
      SameValueSameDigits(2048, a[..23], b[..23]);
    }
  }

  /** Two lists of 24 indices decode to the same seed exactly when the first 23 agree and the last agree
      in their top three bits. */
  lemma DecoderKernel(a: seq<nat>, b: seq<nat>)
    requires |a| == |b| == 24 && Bounded(2048, a) && Bounded(2048, b)
    ensures SeedOf(a) == SeedOf(b) <==> a[..23] == b[..23] && a[23] / 256 == b[23] / 256
  {
    SeedIsHighPart(a);
    SeedIsHighPart(b);
    ValueOfDigits(256, Quotient(Value(2048, a), 256), 32);
    ValueOfDigits(256, Quotient(Value(2048, b), 256), 32);
    SameHighPart(a, b);
  }

  /** Encoding what was decoded gives the list back with the low byte of its last index cleared. */
  lemma ReencodingClearsLowByte(indices: seq<nat>)
    requires |indices| == 24 && Bounded(2048, indices)
    ensures var seed := SeedOf(indices).value;
      SeedOf(indices).Ok? && |seed| == 32
      && ElevenBitGroups(seed) == indices[..23] + [indices[23] - indices[23] % 256]
  {
    hide SeedOf, ElevenBitGroups, Digits, Pow;
    var q := Quotient(Value(2048, indices), 256);
    var cleared := indices[..23] + [indices[23] - indices[23] % 256];
    SeedIsHighPart(indices);
    HighPart(indices);
    var seed := SeedOf(indices).value;
    ValueOfDigits(256, q, 32);
    GroupsOfSeed(seed);
    ValueSnoc(2048, indices[..23], indices[23] - indices[23] % 256);
    SameValueSameDigits(2048, ElevenBitGroups(seed), cleared);
  }

  // ---------- words ----------

  lemma {:induction false} IndexOfListed(words: seq<string>, i: nat)
    requires i < |words| && forall j, k :: 0 <= j < k < |words| ==> words[j] != words[k]
    ensures WordIndex(words, words[i]) == Some(i)
  {
    if i > 0 {
      IndexOfListed(words[1..], i - 1);
    }
  }

  lemma {:induction false} IndicesOfLookup(words: seq<string>, indices: seq<nat>, position: nat)
    requires IsWordList(words) && Bounded(2048, indices)
    ensures IndicesOf(words, Lookup(words, indices), position) == Ok(indices)
  {
    if indices != [] {
      IndexOfListed(words, indices[0]);
      IndicesOfLookup(words, indices[1..], position + 1);
      assert Lookup(words, indices)[1..] == Lookup(words, indices[1..]);
      assert [indices[0]] + indices[1..] == indices;
    }
  }

  /** The words of a seed's phrase. */
  function PhraseOf(words: seq<string>, hash: Hash, seed: seq<byte>): (phrase: seq<string>)
    requires IsWordList(words) && |hash(seed)| == 32 && |seed| == 32
    ensures |phrase| == 25 && forall i :: 0 <= i < 25 ==> phrase[i] in words
  {
    Lookup(words, ElevenBitGroups(seed) + [ElevenBitGroups(hash(seed))[0]])
  }

  lemma MnemonicSplits(words: seq<string>, hash: Hash, seed: seq<byte>)
    requires IsWordList(words) && IsHash(hash) && |seed| == 32
    ensures SplitWhitespace(Mnemonic(words, hash, seed)) == PhraseOf(words, hash, seed)
  {
    SplitOfJoin(PhraseOf(words, hash, seed));
  }

  /** For every seed, hash and word list, decoding the mnemonic gives the seed back. */
  lemma MnemonicRoundTrip(words: seq<string>, hash: Hash, seed: seq<byte>)
    requires IsWordList(words) && IsHash(hash) && |seed| == 32
    ensures Recover(words, hash, Mnemonic(words, hash, seed)) == Ok(seed)
  {
    var indices := ElevenBitGroups(seed) + [ElevenBitGroups(hash(seed))[0]];
    MnemonicSplits(words, hash, seed);
    IndicesOfLookup(words, indices, 1);
    assert indices[..24] == ElevenBitGroups(seed);
    SeedFromItsGroups(seed);
  }

  /** Equal words have equal indices, and different words different ones. */
  lemma SameWordSameIndex(words: seq<string>, i: nat, j: nat)
    requires IsWordList(words) && i < 2048 && j < 2048
    ensures words[i] == words[j] <==> i == j
  {
  }

  lemma AcceptedIndices(words: seq<string>, hash: Hash, phrase: seq<string>, indices: seq<nat>, seed: seq<byte>)
    requires IsWordList(words) && IsHash(hash) && |seed| == 32
    requires |phrase| == 25 && IndicesOf(words, phrase, 1) == Ok(indices)
    ensures SeedOf(indices[..24]) == Ok(seed) && indices[24] == ElevenBitGroups(hash(seed))[0] <==>
      var own := PhraseOf(words, hash, seed);
      && phrase[..23] == own[..23] && phrase[24] == own[24]
      && indices[23] / 256 == WordIndex(words, own[23]).value / 256
  {
    hide SeedOf, ElevenBitGroups, WordIndex, IndicesOf;
    var own := ElevenBitGroups(seed) + [ElevenBitGroups(hash(seed))[0]];
    forall i | 0 <= i < 25
      ensures phrase[i] == PhraseOf(words, hash, seed)[i] <==> indices[i] == own[i]
    {
      assert phrase[i] == words[indices[i]] && PhraseOf(words, hash, seed)[i] == words[own[i]];
      SameWordSameIndex(words, indices[i], own[i]);
    }
    IndexOfListed(words, own[23]);
    SeedFromItsGroups(seed);
    DecoderKernel(indices[..24], ElevenBitGroups(seed));
    EqualFronts(phrase, PhraseOf(words, hash, seed), indices, own);
    assert indices[..24][..23] == indices[..23] && ElevenBitGroups(seed)[..23] == own[..23];
  }

  lemma EqualFronts(a: seq<string>, b: seq<string>, i: seq<nat>, j: seq<nat>)
    requires |a| == |b| == |i| == |j| == 25
    requires forall k :: 0 <= k < 25 ==> (a[k] == b[k] <==> i[k] == j[k])
    ensures a[..23] == b[..23] <==> i[..23] == j[..23]
  {
    if a[..23] == b[..23] {
      forall k | 0 <= k < 23 ensures i[k] == j[k] { assert a[..23][k] == b[..23][k]; }
    } else if i[..23] == j[..23] {
      forall k | 0 <= k < 23 ensures a[k] == b[k] { assert i[..23][k] == j[..23][k]; }
    }
  }

  lemma AcceptedAsOwnPhrase(words: seq<string>, hash: Hash, mnemonic: string, seed: seq<byte>)
    requires IsWordList(words) && IsHash(hash) && |seed| == 32
    ensures Recover(words, hash, mnemonic) == Ok(seed) <==>
      var phrase, own := SplitWhitespace(mnemonic), PhraseOf(words, hash, seed);
      && |phrase| == 25 && phrase[..23] == own[..23] && phrase[24] == own[24]
      && phrase[23] in words
      && WordIndex(words, phrase[23]).value / 256 == WordIndex(words, own[23]).value / 256
  {
    hide SeedOf, ElevenBitGroups, WordIndex, IndicesOf, SplitWhitespace;
    var phrase, own := SplitWhitespace(mnemonic), PhraseOf(words, hash, seed);
    if |phrase| == 25 {
      match IndicesOf(words, phrase, 1)
      case Ok(indices) =>
        AcceptedIndices(words, hash, phrase, indices, seed);
        RecoverIndices(words, hash, mnemonic, indices, seed);
        assert WordIndex(words, phrase[23]) == Some(indices[23]);
      case Err(_) =>
        FirstUnknownFound(words, phrase, 1);
        var i :| FirstUnknown(words, phrase, i);
        assert i < 23 ==> phrase[i] == phrase[..23][i] && own[i] == own[..23][i];
    }
  }

  /** A phrase decodes to a seed exactly when it has 25 words, the first 23 those of the seed's groups, the
      last that of the first eleven bits of its hash, and a 24th word that shares its top three bits with
      the seed's last group: 256 phrases for each seed. */
  lemma AcceptedPhrases(words: seq<string>, hash: Hash, mnemonic: string, seed: seq<byte>)
    requires IsWordList(words) && IsHash(hash) && |seed| == 32
    ensures Recover(words, hash, mnemonic) == Ok(seed) <==>
      var phrase, groups := SplitWhitespace(mnemonic), ElevenBitGroups(seed);
      && |phrase| == 25 && phrase[24] == words[ElevenBitGroups(hash(seed))[0]]
      && (forall i :: 0 <= i < 23 ==> phrase[i] == words[groups[i]])
      && phrase[23] in words && WordIndex(words, phrase[23]).value / 256 == groups[23] / 256
  {
    var phrase, own := SplitWhitespace(mnemonic), PhraseOf(words, hash, seed);
    hide Recover, SeedOf, ElevenBitGroups, WordIndex, IndicesOf, SplitWhitespace;
    AcceptedAsOwnPhrase(words, hash, mnemonic, seed);
    IndexOfListed(words, ElevenBitGroups(seed)[23]);
    if |phrase| == 25 { SameFront(phrase, own); }
  }

  lemma SameFront(a: seq<string>, b: seq<string>)
    requires |a| == |b| == 25
    ensures a[..23] == b[..23] <==> forall i :: 0 <= i < 23 ==> a[i] == b[i]
  {
    if a[..23] == b[..23] {
      forall i | 0 <= i < 23 ensures a[i] == b[i] { assert a[..23][i] == b[..23][i]; }
    }
  }

  /** The errors: a wrong number of words, otherwise the first word that is not listed and its one-based
      position, otherwise only the checksum. */
  lemma RejectedPhrases(words: seq<string>, hash: Hash, mnemonic: string)
    requires IsWordList(words) && IsHash(hash)
    ensures var phrase, r := SplitWhitespace(mnemonic), Recover(words, hash, mnemonic);
      && (|phrase| != 25 ==> r == Err(WrongCount(|phrase|)))
      && (|phrase| == 25 ==>
            forall k :: 0 <= k < 25 ==>
              (FirstUnknown(words, phrase, k) <==> r == Err(UnknownWord(k + 1, phrase[k]))))
      && (|phrase| == 25 && (forall k :: 0 <= k < 25 ==> phrase[k] in words) ==>
            r.Ok? || r == Err(ChecksumMismatch))
  {
    var phrase := SplitWhitespace(mnemonic);
    if |phrase| == 25 {
      hide SeedOf, IndicesOf, WordIndex, SplitWhitespace;
      match IndicesOf(words, phrase, 1)
      case Ok(indices) =>
        SeedIsHighPart(indices[..24]);
        AllListed(words, phrase, indices);
      case Err(_) =>
        FirstUnknownFound(words, phrase, 1);
    }
  }

  lemma AllListed(words: seq<string>, phrase: seq<string>, indices: seq<nat>)
    requires IndicesOf(words, phrase, 1) == Ok(indices)
    ensures forall k :: 0 <= k < |phrase| ==> phrase[k] in words
  {
    hide IndicesOf;
    assert forall k :: 0 <= k < |phrase| ==> phrase[k] == words[indices[k]];
  }

  lemma RecoverIndices(words: seq<string>, hash: Hash, mnemonic: string, indices: seq<nat>, seed: seq<byte>)
    requires IsWordList(words) && IsHash(hash) && |seed| == 32
    requires |SplitWhitespace(mnemonic)| == 25 && IndicesOf(words, SplitWhitespace(mnemonic), 1) == Ok(indices)
    ensures Recover(words, hash, mnemonic) == Ok(seed)
       <==> SeedOf(indices[..24]) == Ok(seed) && indices[24] == ElevenBitGroups(hash(seed))[0]
  {
  }
}
