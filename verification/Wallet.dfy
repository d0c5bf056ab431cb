/**
The mnemonic codec of the wallet: 24 words for the 256 bits of a seed, most significant bit first and
padded on the right, and one checksum word.  SHA-512/256 is any function to 32 bytes, and the word list
any list of 2048 distinct words.
*/
module Wallet {
  import opened BitRegrouping
  import opened PositionalNumbers
  import opened Text
  import opened Wrappers

  type Hash = seq<byte> -> seq<byte>

  ghost predicate IsHash(hash: Hash) {
    forall data: seq<byte> :: |hash(data)| == 32
  }

  predicate IsWordList(words: seq<string>) {
    && |words| == 2048
    && (forall i :: 0 <= i < 2048 ==> IsWord(words[i]))
    && (forall i, j :: 0 <= i < j < 2048 ==> words[i] != words[j])
  }

  datatype MnemonicError =
    | WrongCount(count: nat)
    | UnknownWord(position: nat, word: string)
    | TooFewBytes(count: nat)
    | ChecksumMismatch

  /** Position of the first equal word. */
  function WordIndex(words: seq<string>, word: string): (i: Option<nat>)
    ensures i.Some? ==> i.value < |words| && words[i.value] == word
    ensures i.None? ==> word !in words
  {
    if words == [] then None
    else if words[0] == word then Some(0)
    else match WordIndex(words[1..], word)
      case None => None
      case Some(i) => Some(i + 1)
  }

  function Lookup(words: seq<string>, indices: seq<nat>): (found: seq<string>)
    requires forall i :: 0 <= i < |indices| ==> indices[i] < |words|
    ensures |found| == |indices| && forall i :: 0 <= i < |indices| ==> found[i] == words[indices[i]]
  {
    seq(|indices|, i requires 0 <= i < |indices| => words[indices[i]])
  }

  // ---------- what the two functions compute ----------

  function Mnemonic(words: seq<string>, hash: Hash, seed: seq<byte>): string
    requires IsWordList(words) && |hash(seed)| == 32
  {
    Join(Lookup(words, ElevenBitGroups(seed) + [ElevenBitGroups(hash(seed))[0]]), " ")
  }

  /** Indices of all the words, or the first one that is not in the list (counted from `position`). */
  function IndicesOf(words: seq<string>, phrase: seq<string>, position: nat): (r: Result<seq<nat>, MnemonicError>)
    ensures r.Ok? ==> |r.value| == |phrase| && Bounded(|words|, r.value)
    ensures r.Ok? ==> forall i :: 0 <= i < |phrase| ==> WordIndex(words, phrase[i]) == Some(r.value[i])
  {
    if phrase == [] then Ok([])
    else match WordIndex(words, phrase[0])
      case None => Err(UnknownWord(position, phrase[0]))
      case Some(i) =>
        match IndicesOf(words, phrase[1..], position + 1)
        case Err(e) => Err(e)
        case Ok(rest) => Ok([i] + rest)
  }

  /** The k-th word is not in the list, and all before it are. */
  ghost predicate FirstUnknown(words: seq<string>, phrase: seq<string>, k: int) {
    0 <= k < |phrase| && phrase[k] !in words && forall i :: 0 <= i < k ==> phrase[i] in words
  }

  lemma {:induction false} FirstUnknownFound(words: seq<string>, phrase: seq<string>, position: nat)
    requires IndicesOf(words, phrase, position).Err?
    ensures exists k ::
      FirstUnknown(words, phrase, k)
      && IndicesOf(words, phrase, position) == Err(UnknownWord(position + k, phrase[k]))
  {
    match WordIndex(words, phrase[0])
    case None => assert FirstUnknown(words, phrase, 0);
    case Some(_) =>
      FirstUnknownFound(words, phrase[1..], position + 1);
      var k :| FirstUnknown(words, phrase[1..], k)
        && IndicesOf(words, phrase[1..], position + 1) == Err(UnknownWord(position + 1 + k, phrase[1..][k]));
      assert phrase[1..][k] == phrase[k + 1];
      assert forall i :: 0 <= i < k ==> phrase[1..][i] == phrase[i + 1];
      assert FirstUnknown(words, phrase, k + 1);
  }

  /** What the indices, or the error, say about the words. */
  lemma {:induction false} FoundWords(words: seq<string>, phrase: seq<string>)
    ensures match IndicesOf(words, phrase, 1)
      case Ok(indices) => forall i :: 0 <= i < |phrase| ==> words[indices[i]] == phrase[i]
      case Err(e) => exists k :: FirstUnknown(words, phrase, k) && e == UnknownWord(k + 1, phrase[k])
  {
    if IndicesOf(words, phrase, 1).Err? { FirstUnknownFound(words, phrase, 1); }
    hide WordIndex;
  }

  ghost function Recover(words: seq<string>, hash: Hash, mnemonic: string): Result<seq<byte>, MnemonicError>
    requires IsWordList(words) && IsHash(hash)
  {
    var phrase := SplitWhitespace(mnemonic);
    if |phrase| != 25 then Err(WrongCount(|phrase|))
    else match IndicesOf(words, phrase, 1)
      case Err(e) => Err(e)
      case Ok(indices) =>
        match SeedOf(indices[..24])
        case Err(n) => Err(TooFewBytes(n))
        case Ok(seed) => if indices[24] != ElevenBitGroups(hash(seed))[0] then Err(ChecksumMismatch) else Ok(seed)
  }

  // ---------- the two functions of the source ----------

  method SeedToMnemonic(words: seq<string>, hash: Hash, seed: seq<byte>) returns (mnemonic: string)
    requires IsWordList(words) && IsHash(hash) && |seed| == 32
    ensures mnemonic == Mnemonic(words, hash, seed)
    ensures |ElevenBitGroups(seed)| == 24 && |ElevenBitGroups(hash(seed))| == 24
    ensures var phrase := SplitWhitespace(mnemonic);
      && |phrase| == 25 && phrase[24] == words[ElevenBitGroups(hash(seed))[0]]
      && forall i :: 0 <= i < 24 ==> phrase[i] == words[ElevenBitGroups(seed)[i]]
  {
    hide ElevenBitGroups, Join, Lookup;
    var indices := BytesTo11Bit(seed);
    var digest := hash(seed);
    FirstElevenBits(digest);
    indices := indices + [(digest[0] as nat) * 8 + (digest[1] as nat) / 32];
    mnemonic := Join(Lookup(words, indices), " ");
    SplitOfJoin(Lookup(words, indices));
  }

  method MnemonicToSeed(words: seq<string>, hash: Hash, mnemonic: string) returns (r: Result<seq<byte>, MnemonicError>)
    requires IsWordList(words) && IsHash(hash)
    ensures r == Recover(words, hash, mnemonic)
  {
    var phrase := SplitWhitespace(mnemonic);
    if |phrase| != 25 { return Err(WrongCount(|phrase|)); }
    var indices := FindWords(words, phrase);
    if indices.Err? { return Err(indices.error); }
    r := DecodeBits(indices.value[..24]);
    if r.Ok? {
      var digest := hash(r.value);
      FirstElevenBits(digest);
      if indices.value[24] != (digest[0] as nat) * 8 + (digest[1] as nat) / 32 {
        r := Err(ChecksumMismatch);
      }
    }
  }

  /** The lookup loop: every word, or the first unknown one and its one-based position. */
  method FindWords(words: seq<string>, phrase: seq<string>) returns (r: Result<seq<nat>, MnemonicError>)
    ensures r == IndicesOf(words, phrase, 1)
    ensures r.Ok? ==> |r.value| == |phrase|
    ensures r.Ok? ==> forall i :: 0 <= i < |phrase| ==> r.value[i] < |words| && words[r.value[i]] == phrase[i]
    ensures r.Err? ==> exists k :: FirstUnknown(words, phrase, k) && r.error == UnknownWord(k + 1, phrase[k])
  {
    var indices: seq<nat> := [];
    ResumeFromStart(words, phrase);
    FoundWords(words, phrase);
    for i := 0 to |phrase|
      invariant |indices| == i
      invariant IndicesOf(words, phrase, 1) == Resume(words, indices, phrase[i..], i + 1)
    {
      var found := WordIndex(words, phrase[i]);
      if found.None? { return Err(UnknownWord(i + 1, phrase[i])); }
      ResumeStep(words, indices, phrase[i..], i + 1);
      assert phrase[i..][1..] == phrase[i + 1..];
      indices := indices + [found.value];
    }
    assert indices + [] == indices;
    r := Ok(indices);
  }

  method DecodeBits(indices: seq<nat>) returns (r: Result<seq<byte>, MnemonicError>)
    requires Bounded(2048, indices)
    ensures match SeedOf(indices) case Ok(seed) => r == Ok(seed) case Err(n) => r == Err(TooFewBytes(n))
  {
    var seed := BitsToBytes(indices);
    match seed
    case Ok(bytes) => r := Ok(bytes);
    case Err(n) => r := Err(TooFewBytes(n));
  }

  /** The lookup of the words still to come, after those already found. */
  function Resume(words: seq<string>, found: seq<nat>, rest: seq<string>,
                  position: nat): Result<seq<nat>, MnemonicError> {
    match IndicesOf(words, rest, position)
    case Err(e) => Err(e)
    case Ok(more) => Ok(found + more)
  }

  lemma ResumeFromStart(words: seq<string>, phrase: seq<string>)
    ensures Resume(words, [], phrase[0..], 1) == IndicesOf(words, phrase, 1)
  {
    assert phrase[0..] == phrase;
    match IndicesOf(words, phrase, 1)
    case Err(_) =>
    case Ok(more) => assert [] + more == more;
  }

  lemma ResumeStep(words: seq<string>, found: seq<nat>, rest: seq<string>, position: nat)
    requires rest != [] && WordIndex(words, rest[0]).Some?
    ensures Resume(words, found, rest, position)
         == Resume(words, found + [WordIndex(words, rest[0]).value], rest[1..], position + 1)
  {
    var i := WordIndex(words, rest[0]).value;
    match IndicesOf(words, rest[1..], position + 1)
    case Err(_) =>
    case Ok(more) => assert found + ([i] + more) == (found + [i]) + more;
  }
}
