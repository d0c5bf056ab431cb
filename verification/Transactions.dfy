/**
The transaction encoder: two payment builders that append field after field to a buffer, the signed
envelope, and what every reader of the bytes can rely on.
*/
module Transactions {
  import opened MessagePack
  import opened PositionalNumbers
  import opened Wrappers

  /** Base32 without padding, SHA-512/256 and the Ed25519 signature of one key, all left abstract. */
  datatype Primitives = Primitives(
    base32: string -> Option<seq<byte>>,
    sha512_256: seq<byte> -> seq<byte>,
    sign: seq<byte> -> seq<byte>)

  /** Genesis id as its UTF-8 bytes. */
  datatype SuggestedParams = SuggestedParams(
    fee: u64,
    minFee: u64,
    firstValid: u64,
    lastValid: u64,
    genesisId: seq<byte>,
    genesisHash: seq<byte>)

  datatype AddressError =
    | InvalidBase32(address: string)
    | WrongLength(got: nat)
    | BadChecksum(address: string)

  // The keys, and the value of the type field, in ASCII.
  const AMT: seq<byte> := [0x61, 0x6d, 0x74]
  const FEE: seq<byte> := [0x66, 0x65, 0x65]
  const FV: seq<byte> := [0x66, 0x76]
  const GEN: seq<byte> := [0x67, 0x65, 0x6e]
  const GH: seq<byte> := [0x67, 0x68]
  const LV: seq<byte> := [0x6c, 0x76]
  const NOTE: seq<byte> := [0x6e, 0x6f, 0x74, 0x65]
  const RCV: seq<byte> := [0x72, 0x63, 0x76]
  const SND: seq<byte> := [0x73, 0x6e, 0x64]
  const TYPE: seq<byte> := [0x74, 0x79, 0x70, 0x65]
  const PAY: seq<byte> := [0x70, 0x61, 0x79]
  const SIG: seq<byte> := [0x73, 0x69, 0x67]
  const TXN: seq<byte> := [0x74, 0x78, 0x6e]

  /** The public key in an address, if its last four bytes are the last four of the key's 32-byte hash. */
  function DecodeAddress(p: Primitives, address: string): (r: Result<seq<byte>, AddressError>)
    ensures r.Ok? ==> |r.value| == 32
  {
    match p.base32(address)
    case None => Err(InvalidBase32(address))
    case Some(decoded) =>
      if |decoded| != 36 then Err(WrongLength(|decoded|))
      else
        var hash := p.sha512_256(decoded[..32]);
        if |hash| < 4 || hash[|hash| - 4..] != decoded[32..] then Err(BadChecksum(address)) else Ok(decoded[..32])
  }

  /** An address stands for a key exactly if it is the key and the last four bytes of the key's hash. */
  lemma {:induction false} AddressesAccepted(p: Primitives, address: string, key: seq<byte>)
    requires forall m: seq<byte> :: |p.sha512_256(m)| == 32
    ensures DecodeAddress(p, address) == Ok(key)
      <==> |key| == 32 && p.base32(address) == Some(key + p.sha512_256(key)[28..32])
    ensures DecodeAddress(p, address) == Err(InvalidBase32(address)) <==> p.base32(address) == None
    ensures p.base32(address).Some? && |p.base32(address).value| != 36
      ==> DecodeAddress(p, address) == Err(WrongLength(|p.base32(address).value|))
  {
    if p.base32(address).Some? && |p.base32(address).value| == 36 {
      var decoded := p.base32(address).value;
      var hash := p.sha512_256(decoded[..32]);
      assert hash[|hash| - 4..] == hash[28..32];
      assert decoded == decoded[..32] + decoded[32..];
    }
    if |key| == 32 && p.base32(address) == Some(key + p.sha512_256(key)[28..32]) {
      var decoded := p.base32(address).value;
      assert decoded[..32] == key && decoded[32..] == p.sha512_256(key)[28..32];
    }
  }

  // ---------- what a payment says ----------

  /** The part of both payments that starts at `rcv`. */
  function Parties(receiver: seq<byte>, sender: seq<byte>): Fields {
    Field(RCV, Bin(receiver), Field(SND, Bin(sender), Field(TYPE, Str(PAY), End)))
  }

  function Common(params: SuggestedParams, afterLv: Fields): Fields {
    Field(FEE, UInt(params.minFee),
    Field(FV, UInt(params.firstValid),
    Field(GEN, Str(params.genesisId),
    Field(GH, Bin(params.genesisHash),
    Field(LV, UInt(params.lastValid), afterLv)))))
  }

  /** A payment of `amount` micro-Algos; `amt` is absent if the amount is zero. */
  function AmountFields(amount: u64, params: SuggestedParams, receiver: seq<byte>, sender: seq<byte>): Fields {
    var others := Common(params, Parties(receiver, sender));
    if amount > 0 then Field(AMT, UInt(amount), others) else others
  }

  function NoteFields(note: seq<byte>, params: SuggestedParams, receiver: seq<byte>, sender: seq<byte>): Fields {
    Common(params, Field(NOTE, Bin(note), Parties(receiver, sender)))
  }

  // ---------- the builders ----------

  /** A buffer that holds the first fields of a map, of which `rest` are still to be written. */
  ghost predicate Partial(buf: seq<byte>, rest: Fields, whole: Fields) {
    buf + EncodeFields(rest) == Encode(Map(whole))
  }

  lemma FieldWritten(buf: seq<byte>, key: seq<byte>, value: Packed, rest: Fields, whole: Fields)
    requires Partial(buf, Field(key, value, rest), whole)
    ensures Partial(buf + EncodeStr(key) + Encode(value), rest, whole)
  {
    hide Encode, EncodeStr;
    assert buf + EncodeStr(key) + Encode(value) + EncodeFields(rest)
        == buf + (EncodeStr(key) + Encode(value) + EncodeFields(rest));
  }

  method WriteUIntField(buf: seq<byte>, key: seq<byte>, n: u64, ghost rest: Fields, ghost whole: Fields)
    returns (longer: seq<byte>)
    requires Partial(buf, Field(key, UInt(n), rest), whole)
    ensures Partial(longer, rest, whole)
  {
    longer := buf + EncodeStr(key);
    longer := longer + EncodeHead(UIntHead(n));
    FieldWritten(buf, key, UInt(n), rest, whole);
  }

  method WriteStrField(buf: seq<byte>, key: seq<byte>, text: seq<byte>, ghost rest: Fields, ghost whole: Fields)
    returns (longer: seq<byte>)
    requires Partial(buf, Field(key, Str(text), rest), whole)
    ensures Partial(longer, rest, whole)
  {
    longer := buf + EncodeStr(key);
    longer := longer + EncodeStr(text);
    FieldWritten(buf, key, Str(text), rest, whole);
  }

  method WriteBinField(buf: seq<byte>, key: seq<byte>, data: seq<byte>, ghost rest: Fields, ghost whole: Fields)
    returns (longer: seq<byte>)
    requires Partial(buf, Field(key, Bin(data), rest), whole)
    ensures Partial(longer, rest, whole)
  {
    longer := buf + EncodeStr(key);
    longer := longer + EncodeBin(data);
    FieldWritten(buf, key, Bin(data), rest, whole);
  }

  /** fee, fv, gen, gh and lv. */
  method WriteCommon(start: seq<byte>, params: SuggestedParams, ghost rest: Fields, ghost whole: Fields)
    returns (buf: seq<byte>)
    requires Partial(start, Common(params, rest), whole)
    ensures Partial(buf, rest, whole)
  {
    hide Partial;
    ghost var fromLv := Field(LV, UInt(params.lastValid), rest);
    ghost var fromGh := Field(GH, Bin(params.genesisHash), fromLv);
    ghost var fromGen := Field(GEN, Str(params.genesisId), fromGh);
    ghost var fromFv := Field(FV, UInt(params.firstValid), fromGen);
    buf := WriteUIntField(start, FEE, params.minFee, fromFv, whole);
    buf := WriteUIntField(buf, FV, params.firstValid, fromGen, whole);
    buf := WriteStrField(buf, GEN, params.genesisId, fromGh, whole);
    buf := WriteBinField(buf, GH, params.genesisHash, fromLv, whole);
    buf := WriteUIntField(buf, LV, params.lastValid, rest, whole);
  }

  /** rcv, snd and type. */
  method WriteParties(start: seq<byte>, receiver: seq<byte>, sender: seq<byte>, ghost whole: Fields)
    returns (buf: seq<byte>)
    requires Partial(start, Parties(receiver, sender), whole)
    ensures Partial(buf, End, whole)
  {
    hide Partial;
    ghost var fromType := Field(TYPE, Str(PAY), End);
    ghost var fromSnd := Field(SND, Bin(sender), fromType);
    buf := WriteBinField(start, RCV, receiver, fromSnd, whole);
    buf := WriteBinField(buf, SND, sender, fromType, whole);
    buf := WriteStrField(buf, TYPE, PAY, End, whole);
  }

  method BuildPaymentTransactionWithAmount(
      p: Primitives, sender: string, receiver: string, amount: u64, params: SuggestedParams)
    returns (r: Result<seq<byte>, AddressError>)
    ensures match (DecodeAddress(p, sender), DecodeAddress(p, receiver))
      case (Err(e), _) => r == Err(e)
      case (Ok(_), Err(e)) => r == Err(e)
      case (Ok(snd), Ok(rcv)) => r == Ok(Encode(Map(AmountFields(amount, params, rcv, snd))))
    ensures r.Ok? && |params.genesisId| < U32 && |params.genesisHash| == 32 ==>
      Says(r.value, {
        ([0x66, 0x65, 0x65], UInt(params.minFee)),
        ([0x66, 0x76], UInt(params.firstValid)),
        ([0x67, 0x65, 0x6e], Str(params.genesisId)),
        ([0x67, 0x68], Bin(params.genesisHash)),
        ([0x6c, 0x76], UInt(params.lastValid)),
        ([0x72, 0x63, 0x76], Bin(DecodeAddress(p, receiver).value)),
        ([0x73, 0x6e, 0x64], Bin(DecodeAddress(p, sender).value)),
        ([0x74, 0x79, 0x70, 0x65], Str([0x70, 0x61, 0x79]))
      } + if amount > 0 then {([0x61, 0x6d, 0x74], UInt(amount))} else {})
  {
    var snd := DecodeAddress(p, sender);
    if snd.Err? { return Err(snd.error); }
    var rcv := DecodeAddress(p, receiver);
    if rcv.Err? { return Err(rcv.error); }
    ghost var whole := AmountFields(amount, params, rcv.value, snd.value);
    var fieldCount := if amount > 0 then 9 else 8;
    var buf := EncodeHead(MapHead(fieldCount));
    assert whole.Count() == fieldCount by { CountOfAmountFields(amount, params, rcv.value, snd.value); }
    if amount > 0 {
      buf := WriteUIntField(buf, AMT, amount, Common(params, Parties(rcv.value, snd.value)), whole);
    }
    buf := WriteCommon(buf, params, Parties(rcv.value, snd.value), whole);
    buf := WriteParties(buf, rcv.value, snd.value, whole);
    assert buf + [] == buf;
    r := Ok(buf);
    AmountPairs(amount, params, rcv.value, snd.value);
    if |params.genesisHash| == 32 { AmountPaymentDecodes(amount, params, rcv.value, snd.value); }
  }

  method BuildPaymentTransaction(
      p: Primitives, sender: string, receiver: string, note: seq<byte>, params: SuggestedParams)
    returns (r: Result<seq<byte>, AddressError>)
    ensures match (DecodeAddress(p, sender), DecodeAddress(p, receiver))
      case (Err(e), _) => r == Err(e)
      case (Ok(_), Err(e)) => r == Err(e)
      case (Ok(snd), Ok(rcv)) => r == Ok(Encode(Map(NoteFields(note, params, rcv, snd))))
    ensures r.Ok? && |params.genesisId| < U32 && |note| < U32 && |params.genesisHash| == 32 ==>
      Says(r.value, {
        ([0x66, 0x65, 0x65], UInt(params.minFee)),
        ([0x66, 0x76], UInt(params.firstValid)),
        ([0x67, 0x65, 0x6e], Str(params.genesisId)),
        ([0x67, 0x68], Bin(params.genesisHash)),
        ([0x6c, 0x76], UInt(params.lastValid)),
        ([0x72, 0x63, 0x76], Bin(DecodeAddress(p, receiver).value)),
        ([0x73, 0x6e, 0x64], Bin(DecodeAddress(p, sender).value)),
        ([0x74, 0x79, 0x70, 0x65], Str([0x70, 0x61, 0x79])),
        ([0x6e, 0x6f, 0x74, 0x65], Bin(note))
      })
  {
    var snd := DecodeAddress(p, sender);
    if snd.Err? { return Err(snd.error); }
    var rcv := DecodeAddress(p, receiver);
    if rcv.Err? { return Err(rcv.error); }
    ghost var whole := NoteFields(note, params, rcv.value, snd.value);
    ghost var parties := Parties(rcv.value, snd.value);
    var buf := EncodeHead(MapHead(9));
    assert whole.Count() == 9 by { CountOfNoteFields(note, params, rcv.value, snd.value); }
    buf := WriteCommon(buf, params, Field(NOTE, Bin(note), parties), whole);
    buf := WriteBinField(buf, NOTE, note, parties, whole);
    buf := WriteParties(buf, rcv.value, snd.value, whole);
    assert buf + [] == buf;
    r := Ok(buf);
    NotePairs(note, params, rcv.value, snd.value);
    if |params.genesisHash| == 32 { NotePaymentDecodes(note, params, rcv.value, snd.value); }
  }

  /** The envelope {"sig": signature over "TX" + raw, "txn": raw}, with the raw bytes embedded as they are. */
  method SignTransaction(p: Primitives, raw: seq<byte>) returns (signed: seq<byte>)
    ensures signed == Envelope(p, raw)
  {
    var toSign: seq<byte> := [0x54, 0x58];
    toSign := toSign + raw;
    var signature := p.sign(toSign);
    signed := EncodeHead(MapHead(2));
    signed := signed + EncodeStr(SIG);
    signed := signed + EncodeBin(signature);
    signed := signed + EncodeStr(TXN);
    signed := signed + raw;
  }

  function Envelope(p: Primitives, raw: seq<byte>): seq<byte> {
    EncodeHead(MapHead(2)) + EncodeStr(SIG) + EncodeBin(p.sign([0x54, 0x58] + raw)) + EncodeStr(TXN) + raw
  }

  // ---------- header counts ----------

  lemma CountOfCommon(params: SuggestedParams, afterLv: Fields)
    ensures Common(params, afterLv).Count() == 5 + afterLv.Count()
  {
    var fromGh := Field(GH, Bin(params.genesisHash), Field(LV, UInt(params.lastValid), afterLv));
    assert fromGh.Count() == 2 + afterLv.Count();
    assert Field(GEN, Str(params.genesisId), fromGh).Count() == 3 + afterLv.Count();
  }

  lemma CountOfParties(receiver: seq<byte>, sender: seq<byte>)
    ensures Parties(receiver, sender).Count() == 3
  {
    assert Field(TYPE, Str(PAY), End).Count() == 1;
  }

  /** The count in the map header is the number of pairs written. */
  lemma CountOfAmountFields(amount: u64, params: SuggestedParams, receiver: seq<byte>, sender: seq<byte>)
    ensures AmountFields(amount, params, receiver, sender).Count() == if amount > 0 then 9 else 8
  {
    CountOfParties(receiver, sender);
    CountOfCommon(params, Parties(receiver, sender));
  }

  lemma CountOfNoteFields(note: seq<byte>, params: SuggestedParams, receiver: seq<byte>, sender: seq<byte>)
    ensures NoteFields(note, params, receiver, sender).Count() == 9
  {
    CountOfParties(receiver, sender);
    CountOfCommon(params, Field(NOTE, Bin(note), Parties(receiver, sender)));
  }

  // ---------- what a reader of the bytes finds ----------

  /** Addresses and the genesis hash have 32 bytes, signatures 64. */
  predicate Wellformed(params: SuggestedParams, receiver: seq<byte>, sender: seq<byte>) {
    |params.genesisHash| == |receiver| == |sender| == 32
  }

  lemma {:induction false} SizedPayments(amount: u64, note: seq<byte>, params: SuggestedParams, receiver: seq<byte>,
                                         sender: seq<byte>)
    requires Wellformed(params, receiver, sender)
    ensures SizedFields(AmountFields(amount, params, receiver, sender)) <==> |params.genesisId| < U32
    ensures SizedFields(NoteFields(note, params, receiver, sender))
      <==> |params.genesisId| < U32 && |note| < U32
  {
    var parties := Parties(receiver, sender);
    assert SizedFields(parties) by {
      assert SizedFields(Field(TYPE, Str(PAY), End));
      assert SizedFields(Field(SND, Bin(sender), Field(TYPE, Str(PAY), End)));
    }
    assert SizedFields(Field(NOTE, Bin(note), parties)) <==> |note| < U32;
    SizedCommon(params, parties);
    SizedCommon(params, Field(NOTE, Bin(note), parties));
  }

  lemma {:induction false} SizedCommon(params: SuggestedParams, afterLv: Fields)
    requires |params.genesisHash| == 32
    ensures SizedFields(Common(params, afterLv)) <==> |params.genesisId| < U32 && SizedFields(afterLv)
  {
    var fromLv := Field(LV, UInt(params.lastValid), afterLv);
    var fromGh := Field(GH, Bin(params.genesisHash), fromLv);
    var fromGen := Field(GEN, Str(params.genesisId), fromGh);
    assert SizedFields(fromLv) == SizedFields(afterLv);
    assert SizedFields(fromGh) == SizedFields(fromLv);
    assert SizedFields(fromGen) <==> |params.genesisId| < U32 && SizedFields(fromGh);
    assert SizedFields(Field(FV, UInt(params.firstValid), fromGen)) == SizedFields(fromGen);
  }

  /** These bytes are a map with exactly these pairs, and nothing follows it. */
  ghost predicate Says(bytes: seq<byte>, pairs: set<(seq<byte>, Packed)>) {
    exists fields :: Decode(bytes) == Some((Map(fields), [])) && Pairs(fields) == pairs
  }

  /** The amount builder's bytes decode to its fields and nothing else, unless the genesis id is so long
      that its length was truncated. */
  lemma {:induction false} AmountPaymentDecodes(amount: u64, params: SuggestedParams, receiver: seq<byte>,
                                                sender: seq<byte>)
    requires Wellformed(params, receiver, sender)
    ensures var fields := AmountFields(amount, params, receiver, sender);
      Decode(Encode(Map(fields))) == Some((Map(fields), [])) <==> |params.genesisId| < U32
  {
    hide Decode, Encode;
    var fields := AmountFields(amount, params, receiver, sender);
    SizedPayments(amount, [], params, receiver, sender);
    CountOfAmountFields(amount, params, receiver, sender);
    ComesBackIffSized(Map(fields));
  }

  /** The note builder's bytes decode to its fields and nothing else exactly when the note and the genesis
      id are shorter than 2^32 bytes. */
  lemma {:induction false} NotePaymentDecodes(note: seq<byte>, params: SuggestedParams, receiver: seq<byte>,
                                              sender: seq<byte>)
    requires Wellformed(params, receiver, sender)
    ensures var fields := NoteFields(note, params, receiver, sender);
      Decode(Encode(Map(fields))) == Some((Map(fields), [])) <==> |params.genesisId| < U32 && |note| < U32
  {
    hide Decode, Encode;
    var fields := NoteFields(note, params, receiver, sender);
    SizedPayments(0, note, params, receiver, sender);
    CountOfNoteFields(note, params, receiver, sender);
    ComesBackIffSized(Map(fields));
  }

  lemma {:induction false} PartiesPairs(receiver: seq<byte>, sender: seq<byte>)
    ensures Pairs(Parties(receiver, sender)) == {
      ([0x72, 0x63, 0x76], Bin(receiver)),
      ([0x73, 0x6e, 0x64], Bin(sender)),
      ([0x74, 0x79, 0x70, 0x65], Str([0x70, 0x61, 0x79]))
    }
  {
    assert Pairs(Field(TYPE, Str(PAY), End)) == {(TYPE, Str(PAY))};
    assert Pairs(Field(SND, Bin(sender), Field(TYPE, Str(PAY), End))) == {(SND, Bin(sender)), (TYPE, Str(PAY))};
  }

  lemma {:induction false} CommonPairs(params: SuggestedParams, afterLv: Fields)
    ensures Pairs(Common(params, afterLv)) == {
      ([0x66, 0x65, 0x65], UInt(params.minFee)),
      ([0x66, 0x76], UInt(params.firstValid)),
      ([0x67, 0x65, 0x6e], Str(params.genesisId)),
      ([0x67, 0x68], Bin(params.genesisHash)),
      ([0x6c, 0x76], UInt(params.lastValid))
    } + Pairs(afterLv)
  {
    var fromLv := Field(LV, UInt(params.lastValid), afterLv);
    var fromGh := Field(GH, Bin(params.genesisHash), fromLv);
    var fromGen := Field(GEN, Str(params.genesisId), fromGh);
    var fromFv := Field(FV, UInt(params.firstValid), fromGen);
    assert Pairs(fromLv) == {(LV, UInt(params.lastValid))} + Pairs(afterLv);
    assert Pairs(fromGh) == {(GH, Bin(params.genesisHash))} + Pairs(fromLv);
    assert Pairs(fromGen) == {(GEN, Str(params.genesisId))} + Pairs(fromGh);
    assert Pairs(fromFv) == {(FV, UInt(params.firstValid))} + Pairs(fromGen);
  }

  /** What stands under which key in a transfer. */
  lemma {:induction false} AmountPairs(amount: u64, params: SuggestedParams, receiver: seq<byte>, sender: seq<byte>)
    ensures Pairs(AmountFields(amount, params, receiver, sender)) == {
        ([0x66, 0x65, 0x65], UInt(params.minFee)),
        ([0x66, 0x76], UInt(params.firstValid)),
        ([0x67, 0x65, 0x6e], Str(params.genesisId)),
        ([0x67, 0x68], Bin(params.genesisHash)),
        ([0x6c, 0x76], UInt(params.lastValid)),
        ([0x72, 0x63, 0x76], Bin(receiver)),
        ([0x73, 0x6e, 0x64], Bin(sender)),
        ([0x74, 0x79, 0x70, 0x65], Str([0x70, 0x61, 0x79]))
      } + if amount > 0 then {([0x61, 0x6d, 0x74], UInt(amount))} else {}
  {
    PartiesPairs(receiver, sender);
    CommonPairs(params, Parties(receiver, sender));
  }

  /** What stands under which key in a payment with a note. */
  lemma {:induction false} NotePairs(note: seq<byte>, params: SuggestedParams, receiver: seq<byte>, sender: seq<byte>)
    ensures Pairs(NoteFields(note, params, receiver, sender)) == {
        ([0x66, 0x65, 0x65], UInt(params.minFee)),
        ([0x66, 0x76], UInt(params.firstValid)),
        ([0x67, 0x65, 0x6e], Str(params.genesisId)),
        ([0x67, 0x68], Bin(params.genesisHash)),
        ([0x6c, 0x76], UInt(params.lastValid)),
        ([0x72, 0x63, 0x76], Bin(receiver)),
        ([0x73, 0x6e, 0x64], Bin(sender)),
        ([0x74, 0x79, 0x70, 0x65], Str([0x70, 0x61, 0x79])),
        ([0x6e, 0x6f, 0x74, 0x65], Bin(note))
      }
  {
    PartiesPairs(receiver, sender);
    CommonPairs(params, Field(NOTE, Bin(note), Parties(receiver, sender)));
    assert Pairs(Field(NOTE, Bin(note), Parties(receiver, sender)))
        == {(NOTE, Bin(note))} + Pairs(Parties(receiver, sender));
  }
}
