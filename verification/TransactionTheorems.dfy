/** The transaction bytes are canonical: they decode to exactly the fields, no other shortest sorted
    encoding exists, and different payments have different bytes. */
module TransactionTheorems {
  import opened MessagePack
  import opened PositionalNumbers
  import opened Transactions
  import opened Wrappers

  // ---------- key order ----------

  /** Strictly before, comparing byte by byte. */
  predicate Precedes(a: seq<byte>, b: seq<byte>) {
    b != [] && (a == [] || a[0] < b[0] || (a[0] == b[0] && Precedes(a[1..], b[1..])))
  }

  lemma {:induction false} PrecedesTransitive(a: seq<byte>, b: seq<byte>, c: seq<byte>)
    requires Precedes(a, b) && Precedes(b, c)
    ensures Precedes(a, c)
  {
    if a != [] && a[0] == b[0] == c[0] { PrecedesTransitive(a[1..], b[1..], c[1..]); }
  }

  lemma {:induction false} NeverBeforeItself(a: seq<byte>)
    ensures !Precedes(a, a)
  {
    if a != [] { NeverBeforeItself(a[1..]); }
  }

  /** Keys strictly ascend. */
  predicate AscendingKeys(fields: Fields) {
    fields.Field? && fields.rest.Field? ==> Precedes(fields.key, fields.rest.key) && AscendingKeys(fields.rest)
  }

  lemma {:induction false} FirstIsLeast(fields: Fields, key: seq<byte>, value: Packed)
    requires AscendingKeys(fields) && fields.Field? && (key, value) in Pairs(fields.rest)
    ensures Precedes(fields.key, key)
  {
    var rest := fields.rest;
    if (key, value) != (rest.key, rest.value) {
      FirstIsLeast(rest, key, value);
      PrecedesTransitive(fields.key, rest.key, key);
    }
  }

  lemma {:induction false} FirstNotInRest(fields: Fields)
    requires AscendingKeys(fields) && fields.Field?
    ensures (fields.key, fields.value) !in Pairs(fields.rest)
  {
    if (fields.key, fields.value) in Pairs(fields.rest) {
      FirstIsLeast(fields, fields.key, fields.value);
      NeverBeforeItself(fields.key);
    }
  }

  lemma {:induction false} SameFirst(a: Fields, b: Fields)
    requires AscendingKeys(a) && AscendingKeys(b) && a.Field? && b.Field? && Pairs(a) == Pairs(b)
    ensures (a.key, a.value) == (b.key, b.value)
  {
    if (a.key, a.value) != (b.key, b.value) {
      assert (a.key, a.value) in Pairs(b) && (b.key, b.value) in Pairs(a);
      FirstIsLeast(a, b.key, b.value);
      FirstIsLeast(b, a.key, a.value);
      PrecedesTransitive(a.key, b.key, a.key);
      NeverBeforeItself(a.key);
    }
  }

  /** A set of fields has one sorted form only. */
  lemma {:induction false} SortedFormIsUnique(a: Fields, b: Fields)
    requires AscendingKeys(a) && AscendingKeys(b) && Pairs(a) == Pairs(b)
    ensures a == b
  {
    if a.Field? && b.Field? {
      SameFirst(a, b);
      FirstNotInRest(a);
      FirstNotInRest(b);
      assert Pairs(a.rest) == Pairs(a) - {(a.key, a.value)};
      assert Pairs(b.rest) == Pairs(b) - {(b.key, b.value)};
      SortedFormIsUnique(a.rest, b.rest);
    }
  }

  /** Bytes that decode to a map with the same pairs, in ascending order, and that are no longer than
      ours, are ours. */
  lemma {:induction false} CanonicalForm(fields: Fields, bytes: seq<byte>, other: Fields)
    requires AscendingKeys(fields) && AscendingKeys(other) && Pairs(other) == Pairs(fields)
    requires Decode(bytes) == Some((Map(other), []))
    ensures |bytes| >= |Encode(Map(fields))|
    ensures |bytes| == |Encode(Map(fields))| ==> bytes == Encode(Map(fields))
  {
    hide Decode, Encode;
    SortedFormIsUnique(other, fields);
    EncodingIsShortest(bytes);
    assert Encode(Map(fields)) + [] == Encode(Map(fields));
  }

  // ---------- both payments are sorted ----------

  lemma {:induction false} PartiesAscend(receiver: seq<byte>, sender: seq<byte>)
    ensures AscendingKeys(Parties(receiver, sender))
  {
    assert Precedes(RCV, SND) && Precedes(SND, TYPE);
    assert AscendingKeys(Field(TYPE, Str(PAY), End));
    assert AscendingKeys(Field(SND, Bin(sender), Field(TYPE, Str(PAY), End)));
  }

  lemma {:induction false} CommonAscends(params: SuggestedParams, afterLv: Fields)
    requires afterLv.Field? && Precedes(LV, afterLv.key) && AscendingKeys(afterLv)
    ensures AscendingKeys(Common(params, afterLv)) && Common(params, afterLv).key == FEE
  {
    KeysAscend();
    hide Precedes;
    var fromLv := Field(LV, UInt(params.lastValid), afterLv);
    var fromGh := Field(GH, Bin(params.genesisHash), fromLv);
    var fromGen := Field(GEN, Str(params.genesisId), fromGh);
    assert AscendingKeys(fromLv);
    assert AscendingKeys(fromGh);
    assert AscendingKeys(fromGen);
    assert AscendingKeys(Field(FV, UInt(params.firstValid), fromGen));
  }

  lemma {:induction false} KeysAscend()
    ensures Precedes(AMT, FEE) && Precedes(FEE, FV) && Precedes(FV, GEN) && Precedes(GEN, GH) && Precedes(GH, LV)
    ensures Precedes(LV, NOTE) && Precedes(LV, RCV) && Precedes(NOTE, RCV) && Precedes(SIG, TXN)
  {
  }

  lemma {:induction false} PaymentsAscend(amount: u64, note: seq<byte>, params: SuggestedParams, receiver: seq<byte>,
                                          sender: seq<byte>)
    ensures AscendingKeys(AmountFields(amount, params, receiver, sender))
    ensures AscendingKeys(NoteFields(note, params, receiver, sender))
  {
    KeysAscend();
    hide Precedes;
    PartiesAscend(receiver, sender);
    CommonAscends(params, Parties(receiver, sender));
    assert AscendingKeys(Field(NOTE, Bin(note), Parties(receiver, sender)));
    CommonAscends(params, Field(NOTE, Bin(note), Parties(receiver, sender)));
  }

  // ---------- decoding gives back exactly the fields ----------

  /** The amount is among the fields exactly when it is not zero. */
  lemma {:induction false} AmountListedIffPositive(amount: u64, params: SuggestedParams, receiver: seq<byte>,
                                                   sender: seq<byte>)
    ensures (exists v :: (AMT, v) in Pairs(AmountFields(amount, params, receiver, sender))) <==> amount > 0
  {
    var fields := AmountFields(amount, params, receiver, sender);
    if amount > 0 {
      assert (AMT, UInt(amount)) in Pairs(fields);
    } else if v :| (AMT, v) in Pairs(fields) {
      PaymentsAscend(amount, [], params, receiver, sender);
      KeysAscend();
      assert (FEE, fields.value) != (AMT, v);
      FirstIsLeast(fields, AMT, v);
      PrecedesTransitive(AMT, FEE, AMT);
      NeverBeforeItself(AMT);
    }
  }

  // ---------- different payments, different bytes ----------

  /** Everything of the parameters that a payment carries; the suggested fee is not part of it. */
  predicate SameParams(a: SuggestedParams, b: SuggestedParams) { a.(fee := 0) == b.(fee := 0) }

  datatype Payment =
    | Transfer(amount: u64, params: SuggestedParams, receiver: seq<byte>, sender: seq<byte>)
    | Noted(note: seq<byte>, params: SuggestedParams, receiver: seq<byte>, sender: seq<byte>)
  {
    function Meaning(): Fields {
      match this
      case Transfer(amount, params, receiver, sender) => AmountFields(amount, params, receiver, sender)
      case Noted(note, params, receiver, sender) => NoteFields(note, params, receiver, sender)
    }

    predicate Encodable() {
      Wellformed(params, receiver, sender) && |params.genesisId| < U32 && (Noted? ==> |note| < U32)
    }
  }

  /** Two payments, of either builder, have the same bytes only if they agree on everything they carry. */
  lemma {:induction false} DistinctPaymentsDistinctBytes(a: Payment, b: Payment)
    requires a.Encodable() && b.Encodable()
    ensures Encode(Map(a.Meaning())) == Encode(Map(b.Meaning()))
      <==> SameParams(a.params, b.params) && a == b.(params := a.params)
  {
    PaymentDecodes(a);
    PaymentDecodes(b);
    hide Decode, Encode;
    if Encode(Map(a.Meaning())) == Encode(Map(b.Meaning())) {
      assert a.Meaning() == b.Meaning();
      MeaningIsFaithful(a, b);
    }
  }

  lemma {:induction false} PaymentDecodes(a: Payment)
    requires a.Encodable()
    ensures Decode(Encode(Map(a.Meaning()))) == Some((Map(a.Meaning()), []))
  {
    hide Decode, Encode;
    match a
    case Transfer(amount, params, receiver, sender) => AmountPaymentDecodes(amount, params, receiver, sender);
    case Noted(note, params, receiver, sender) => NotePaymentDecodes(note, params, receiver, sender);
  }

  lemma {:induction false} MeaningIsFaithful(a: Payment, b: Payment)
    requires a.Meaning() == b.Meaning()
    ensures SameParams(a.params, b.params) && a == b.(params := a.params)
  {
  }

  // ---------- the envelope ----------

  function EnvelopeFields(signature: seq<byte>, fields: Fields): Fields {
    Field(SIG, Bin(signature), Field(TXN, Map(fields), End))
  }

  lemma {:induction false} EnvelopeIsAMap(p: Primitives, fields: Fields)
    ensures var raw := Encode(Map(fields));
      Envelope(p, raw) == Encode(Map(EnvelopeFields(p.sign([0x54, 0x58] + raw), fields)))
  {
    hide EncodeHead, EncodeStr, EncodeBin;
    var raw := Encode(Map(fields));
    var signature := p.sign([0x54, 0x58] + raw);
    var last := Field(TXN, Map(fields), End);
    assert EnvelopeFields(signature, fields).Count() == 1 + last.Count() == 2 by { assert last.Count() == 1; }
    assert EncodeFields(last) == EncodeStr(TXN) + raw + [];
    assert EncodeFields(EnvelopeFields(signature, fields))
        == EncodeStr(SIG) + Encode(Bin(signature)) + EncodeFields(last);
    Regroup(EncodeHead(MapHead(2)), EncodeStr(SIG), EncodeBin(signature), EncodeStr(TXN), raw);
  }

  lemma {:induction false} Regroup(a: seq<byte>, b: seq<byte>, c: seq<byte>, d: seq<byte>, e: seq<byte>)
    ensures a + b + c + d + e == a + (b + c + (d + e + []))
  {
  }

  /** The signed envelope around any payment decodes to the signature over "TX" and the raw bytes, and to
      the payment's own map, under ascending keys. */
  lemma {:induction false} EnvelopeDecodes(p: Primitives, payment: Payment)
    requires payment.Encodable() && forall m: seq<byte> :: |p.sign(m)| == 64
    ensures var raw := Encode(Map(payment.Meaning()));
      var inside := EnvelopeFields(p.sign([0x54, 0x58] + raw), payment.Meaning());
      Decode(Envelope(p, raw)) == Some((Map(inside), [])) && AscendingKeys(inside)
    ensures var raw := Encode(Map(payment.Meaning()));
      var signature := p.sign([0x54, 0x58] + raw);
      Pairs(EnvelopeFields(signature, payment.Meaning()))
      == {([0x73, 0x69, 0x67], Bin(signature)), ([0x74, 0x78, 0x6e], Map(payment.Meaning()))}
  {
    var raw := Encode(Map(payment.Meaning()));
    var signature := p.sign([0x54, 0x58] + raw);
    var inside := EnvelopeFields(signature, payment.Meaning());
    PaymentDecodes(payment);
    KeysAscend();
    hide Decode, Encode, Precedes;
    ComesBackIffSized(Map(payment.Meaning()));
    EnvelopeIsAMap(p, payment.Meaning());
    assert SizedFields(Field(TXN, Map(payment.Meaning()), End));
    assert SizedFields(inside) && inside.Count() == 1 + Field(TXN, Map(payment.Meaning()), End).Count();
    ComesBackIffSized(Map(inside));
    assert AscendingKeys(Field(TXN, Map(payment.Meaning()), End));
    assert Pairs(Field(TXN, Map(payment.Meaning()), End)) == {(TXN, Map(payment.Meaning()))};
  }
}
