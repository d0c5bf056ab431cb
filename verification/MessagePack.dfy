/**
MessagePack, as far as the transaction encoder uses it: unsigned integers, strings, binaries and maps
with string keys.  The encoder picks the shortest format of each family, as the specification's
"Formats" section lists them; the decoder accepts every width.
*/
module MessagePack {
  import opened PositionalNumbers
  import opened Wrappers

  const U16: nat := 0x1_0000
  const U64: nat := 0x1_0000_0000_0000_0000

  type u64 = x: int | 0 <= x < U64

  datatype Packed =
    | UInt(n: u64)
    | Str(text: seq<byte>)
    | Bin(data: seq<byte>)
    | Map(fields: Fields)

  datatype Fields = End | Field(key: seq<byte>, value: Packed, rest: Fields)
  {
    function Count(): nat { if End? then 0 else 1 + rest.Count() }
  }

  /** What a map says, whatever the order of its fields. */
  function Pairs(fields: Fields): set<(seq<byte>, Packed)> {
    match fields
    case End => {}
    case Field(key, value, rest) => {(key, value)} + Pairs(rest)
  }

  // ---------- heads: the format byte and the length or number behind it ----------

  datatype Head = UIntHead(n: u64) | StrHead(len: nat) | BinHead(len: nat) | MapHead(len: nat)
  {
    predicate Fits() { UIntHead? || len < U32 }
  }

  /** The k low bytes of n, big-endian. */
  function BigEndian(n: nat, k: nat): (bytes: seq<byte>)
    ensures |bytes| == k
  {
    Digits(256, n, k)
  }

  function EncodeHead(h: Head): (bytes: seq<byte>)
    requires h.Fits()
    ensures 1 <= |bytes| <= 9
  {
    match h
    case UIntHead(n) =>
      if n < 128 then [n]
      else if n < 256 then [0xcc] + BigEndian(n, 1)
      else if n < U16 then [0xcd] + BigEndian(n, 2)
      else if n < U32 then [0xce] + BigEndian(n, 4)
      else [0xcf] + BigEndian(n, 8)
    case StrHead(n) =>
      if n < 32 then [0xa0 + n]
      else if n < 256 then [0xd9] + BigEndian(n, 1)
      else if n < U16 then [0xda] + BigEndian(n, 2)
      else [0xdb] + BigEndian(n, 4)
    case BinHead(n) =>
      if n < 256 then [0xc4] + BigEndian(n, 1)
      else if n < U16 then [0xc5] + BigEndian(n, 2)
      else [0xc6] + BigEndian(n, 4)
    case MapHead(n) =>
      if n < 16 then [0x80 + n]
      else if n < U16 then [0xde] + BigEndian(n, 2)
      else [0xdf] + BigEndian(n, 4)
  }

  /** A head and the number of bytes it took. */
  function DecodeHead(bytes: seq<byte>): (r: Option<(Head, nat)>)
    ensures r.Some? ==> r.value.0.Fits() && 1 <= r.value.1 <= |bytes|
  {
    if bytes == [] then None else
    var b := bytes[0];
    if b < 0x80 then Some((UIntHead(b), 1))
    else if b < 0x90 then Some((MapHead(b - 0x80), 1))
    else if 0xa0 <= b < 0xc0 then Some((StrHead(b - 0xa0), 1))
    else match WidthOf(b)
      case None => None
      case Some(k) =>
        if |bytes| < 1 + k then None
        else
          ValueFits(256, bytes[1..1 + k]);
          PowersOf256();
          Some((HeadOf(b, Value(256, bytes[1..1 + k])), 1 + k))
  }

  /** How many bytes follow a format byte that is not a fix format. */
  function WidthOf(b: byte): (k: Option<nat>)
    ensures k.Some? ==> k.value in {1, 2, 4, 8} && (k.value == 8 ==> b == 0xcf)
  {
    if b in {0xcc, 0xd9, 0xc4} then Some(1)
    else if b in {0xcd, 0xda, 0xc5, 0xde} then Some(2)
    else if b in {0xce, 0xdb, 0xc6, 0xdf} then Some(4)
    else if b == 0xcf then Some(8)
    else None
  }

  function HeadOf(b: byte, n: nat): (h: Head)
    requires WidthOf(b).Some? && n < (if b == 0xcf then U64 else U32)
    ensures h.Fits()
  {
    if 0xcc <= b <= 0xcf then UIntHead(n)
    else if 0xd9 <= b <= 0xdb then StrHead(n)
    else if 0xc4 <= b <= 0xc6 then BinHead(n)
    else MapHead(n)
  }

  lemma {:induction false} PowersOf256()
    ensures Pow(256, 1) == 256 && Pow(256, 2) == U16 && Pow(256, 4) == U32 && Pow(256, 8) == U64
  {
    assert Pow(256, 1) == 256 * Pow(256, 0);
    assert Pow(256, 3) == 256 * Pow(256, 2);
    assert Pow(256, 5) == 256 * Pow(256, 4);
    assert Pow(256, 6) == 256 * Pow(256, 5);
    assert Pow(256, 7) == 256 * Pow(256, 6);
  }

  // The big-endian readings of two, four and eight bytes behind the format byte.
  function Two(e: seq<nat>): nat
    requires |e| == 3
  {
    e[1] * 0x100 + e[2]
  }

  function Four(e: seq<nat>): nat
    requires |e| == 5
  {
    e[1] * 0x100_0000 + e[2] * 0x1_0000 + e[3] * 0x100 + e[4]
  }

  function Eight(e: seq<nat>): nat
    requires |e| == 9
  {
    (e[1] * 0x100_0000 + e[2] * 0x1_0000 + e[3] * 0x100 + e[4]) * 0x1_0000_0000
    + e[5] * 0x100_0000 + e[6] * 0x1_0000 + e[7] * 0x100 + e[8]
  }

  lemma {:induction false} ValuesSpelledOut(b: byte, n: nat, k: nat)
    requires k in {1, 2, 4, 8} && n < Pow(256, k)
    ensures var e := [b] + BigEndian(n, k);
      n == if k == 1 then e[1] else if k == 2 then Two(e) else if k == 4 then Four(e) else Eight(e)
  {
    var d := BigEndian(n, k);
    ValueOfDigits(256, n, k);
    ValueOfPrefixes(d);
  }

  lemma {:induction false} ValueOfPrefixes(d: seq<byte>)
    ensures forall i :: 0 <= i < |d| ==> Value(256, d[..i + 1]) == Value(256, d[..i]) * 256 + d[i]
    ensures Value(256, d[..0]) == 0 && d[..|d|] == d
  {
    forall i | 0 <= i < |d| ensures Value(256, d[..i + 1]) == Value(256, d[..i]) * 256 + d[i] {
      assert d[..i + 1] == d[..i] + [d[i]];
      ValueSnoc(256, d[..i], d[i]);
    }
  }

  /** The formats of the specification, byte for byte. */
  lemma {:induction false} HeadFormats(h: Head)
    requires h.Fits()
    ensures var e := EncodeHead(h);
      match h
      case UIntHead(n) =>
        if n <= 127 then e == [n]
        else if n <= 0xff then e == [0xcc, n]
        else if n <= 0xffff then |e| == 3 && e[0] == 0xcd && Two(e) == n
        else if n <= 0xffff_ffff then |e| == 5 && e[0] == 0xce && Four(e) == n
        else |e| == 9 && e[0] == 0xcf && Eight(e) == n
      case StrHead(n) =>
        if n <= 31 then e == [0xa0 + n]
        else if n <= 0xff then e == [0xd9, n]
        else if n <= 0xffff then |e| == 3 && e[0] == 0xda && Two(e) == n
        else |e| == 5 && e[0] == 0xdb && Four(e) == n
      case BinHead(n) =>
        if n <= 0xff then e == [0xc4, n]
        else if n <= 0xffff then |e| == 3 && e[0] == 0xc5 && Two(e) == n
        else |e| == 5 && e[0] == 0xc6 && Four(e) == n
      case MapHead(n) =>
        if n <= 15 then e == [0x80 + n]
        else if n <= 0xffff then |e| == 3 && e[0] == 0xde && Two(e) == n
        else |e| == 5 && e[0] == 0xdf && Four(e) == n
  {
    PowersOf256();
    var n := if h.UIntHead? then h.n else h.len;
    var b := EncodeHead(h)[0];
    if n < U64 && |EncodeHead(h)| > 1 {
      hide Two, Four, Eight, BigEndian, Pow;
      ValuesSpelledOut(b, n, |EncodeHead(h)| - 1);
    }
  }

  // ---------- values ----------

  function EncodeStr(text: seq<byte>): seq<byte> { EncodeHead(StrHead(|text| % U32)) + text }

  function EncodeBin(data: seq<byte>): seq<byte> { EncodeHead(BinHead(|data| % U32)) + data }

  /** What rmp writes.  A length is cast to u32, so that the head of a string or binary of 2^32 bytes or
      more announces only the remainder. */
  function Encode(v: Packed): seq<byte>
    decreases v
  {
    match v
    case UInt(n) => EncodeHead(UIntHead(n))
    case Str(text) => EncodeStr(text)
    case Bin(data) => EncodeBin(data)
    case Map(fields) => EncodeHead(MapHead(fields.Count() % U32)) + EncodeFields(fields)
  }

  function EncodeFields(fields: Fields): seq<byte>
    decreases fields
  {
    match fields
    case End => []
    case Field(key, value, rest) => EncodeStr(key) + Encode(value) + EncodeFields(rest)
  }

  function Decode(bytes: seq<byte>): (r: Option<(Packed, seq<byte>)>)
    ensures r.Some? ==> |r.value.1| < |bytes|
    decreases |bytes|, 0
  {
    match DecodeHead(bytes)
    case None => None
    case Some((head, k)) =>
      var after := bytes[k..];
      match head
      case UIntHead(n) => Some((UInt(n), after))
      case StrHead(len) => if |after| < len then None else Some((Str(after[..len]), after[len..]))
      case BinHead(len) => if |after| < len then None else Some((Bin(after[..len]), after[len..]))
      case MapHead(len) =>
        match DecodeFields(len, after)
        case None => None
        case Some((fields, rest)) => Some((Map(fields), rest))
  }

  function DecodeFields(count: nat, bytes: seq<byte>): (r: Option<(Fields, seq<byte>)>)
    ensures r.Some? ==> |r.value.1| <= |bytes|
    decreases |bytes|, 1
  {
    if count == 0 then Some((End, bytes))
    else match Decode(bytes)
      case Some((Str(key), more)) =>
        (match Decode(more)
         case None => None
         case Some((value, after)) =>
           match DecodeFields(count - 1, after)
           case None => None
           case Some((fields, rest)) => Some((Field(key, value, fields), rest)))
      case _ => None
  }

  /** Every length fits the 32 bits its head has for it. */
  predicate Sized(v: Packed)
    decreases v
  {
    match v
    case UInt(_) => true
    case Str(text) => |text| < U32
    case Bin(data) => |data| < U32
    case Map(fields) => fields.Count() < U32 && SizedFields(fields)
  }

  predicate SizedFields(fields: Fields)
    decreases fields
  {
    match fields
    case End => true
    case Field(key, value, rest) => |key| < U32 && Sized(value) && SizedFields(rest)
  }

  // ---------- the round trip ----------

  lemma {:induction false} BigEndianValue(n: nat, k: nat)
    requires n < Pow(256, k)
    ensures |BigEndian(n, k)| == k && Value(256, BigEndian(n, k)) == n
  {
    ValueOfDigits(256, n, k);
  }

  lemma {:induction false} DecodeWide(b: byte, n: nat, k: nat, rest: seq<byte>)
    requires b >= 0xc0 && WidthOf(b) == Some(k) && n < Pow(256, k) && n < (if b == 0xcf then U64 else U32)
    ensures DecodeHead([b] + BigEndian(n, k) + rest) == Some((HeadOf(b, n), 1 + k))
  {
    hide *;
    var digits := BigEndian(n, k);
    var bytes := [b] + digits + rest;
    BigEndianValue(n, k);
    assert bytes[0] == b && bytes[1..1 + k] == digits;
    DecodeWideBytes(bytes, n, k);
  }

  lemma {:induction false} DecodeWideBytes(bytes: seq<byte>, n: nat, k: nat)
    requires bytes != [] && bytes[0] >= 0xc0 && WidthOf(bytes[0]) == Some(k) && |bytes| >= 1 + k
    requires n == Value(256, bytes[1..1 + k]) < (if bytes[0] == 0xcf then U64 else U32)
    ensures DecodeHead(bytes) == Some((HeadOf(bytes[0], n), 1 + k))
  {
    hide Value, Pow, HeadOf, WidthOf;
  }

  lemma {:induction false} HeadRoundTrip(h: Head, rest: seq<byte>)
    requires h.Fits()
    ensures DecodeHead(EncodeHead(h) + rest) == Some((h, |EncodeHead(h)|))
  {
    PowersOf256();
    match h
    case UIntHead(n) =>
      if 128 <= n < 256 { DecodeWide(0xcc, n, 1, rest); }
      else if 256 <= n < U16 { DecodeWide(0xcd, n, 2, rest); }
      else if U16 <= n < U32 { DecodeWide(0xce, n, 4, rest); }
      else if n >= U32 { DecodeWide(0xcf, n, 8, rest); }
    case StrHead(n) =>
      if 32 <= n < 256 { DecodeWide(0xd9, n, 1, rest); }
      else if 256 <= n < U16 { DecodeWide(0xda, n, 2, rest); }
      else if n >= U16 { DecodeWide(0xdb, n, 4, rest); }
    case BinHead(n) =>
      if n < 256 { DecodeWide(0xc4, n, 1, rest); }
      else if n < U16 { DecodeWide(0xc5, n, 2, rest); }
      else { DecodeWide(0xc6, n, 4, rest); }
    case MapHead(n) =>
      if 16 <= n < U16 { DecodeWide(0xde, n, 2, rest); }
      else if n >= U16 { DecodeWide(0xdf, n, 4, rest); }
  }

  lemma {:induction false} HeadBefore(h: Head, payload: seq<byte>)
    requires h.Fits()
    ensures var bytes := EncodeHead(h) + payload;
      DecodeHead(bytes) == Some((h, |EncodeHead(h)|)) && bytes[|EncodeHead(h)|..] == payload
  {
    HeadRoundTrip(h, payload);
  }

  lemma {:induction false} CutAt(bytes: seq<byte>, front: seq<byte>, back: seq<byte>)
    requires bytes == front + back
    ensures bytes[..|front|] == front && bytes[|front|..] == back
  {
  }

  lemma {:induction false} StrRoundTrip(text: seq<byte>, rest: seq<byte>)
    requires |text| < U32
    ensures Decode(EncodeStr(text) + rest) == Some((Str(text), rest))
  {
    hide DecodeHead, EncodeHead;
    HeadBefore(StrHead(|text|), text + rest);
    assert EncodeStr(text) + rest == EncodeHead(StrHead(|text|)) + (text + rest);
    CutAt(text + rest, text, rest);
    DecodeBody(EncodeStr(text) + rest, StrHead(|text|), |EncodeHead(StrHead(|text|))|);
  }

  lemma {:induction false} BinRoundTrip(data: seq<byte>, rest: seq<byte>)
    requires |data| < U32
    ensures Decode(EncodeBin(data) + rest) == Some((Bin(data), rest))
  {
    hide DecodeHead, EncodeHead;
    HeadBefore(BinHead(|data|), data + rest);
    assert EncodeBin(data) + rest == EncodeHead(BinHead(|data|)) + (data + rest);
    CutAt(data + rest, data, rest);
    DecodeBody(EncodeBin(data) + rest, BinHead(|data|), |EncodeHead(BinHead(|data|))|);
  }

  lemma {:induction false} DecodeBody(bytes: seq<byte>, head: Head, k: nat)
    requires DecodeHead(bytes) == Some((head, k)) && (head.StrHead? || head.BinHead?) && |bytes[k..]| >= head.len
    ensures Decode(bytes) == Some((
      if head.StrHead? then Str(bytes[k..][..head.len]) else Bin(bytes[k..][..head.len]), bytes[k..][head.len..]))
  {
  }

  /** Decoding what was encoded gives the value back and leaves what followed it. */
  lemma {:induction false} RoundTrip(v: Packed, rest: seq<byte>)
    requires Sized(v)
    ensures Decode(Encode(v) + rest) == Some((v, rest))
    decreases v
  {
    hide DecodeHead, EncodeHead;
    match v
    case UInt(n) => HeadBefore(UIntHead(n), rest);
    case Str(text) => StrRoundTrip(text, rest);
    case Bin(data) => BinRoundTrip(data, rest);
    case Map(fields) =>
      HeadBefore(MapHead(fields.Count()), EncodeFields(fields) + rest);
      assert Encode(v) + rest == EncodeHead(MapHead(fields.Count())) + (EncodeFields(fields) + rest);
      FieldsRoundTrip(fields, rest);
  }

  lemma {:induction false} FieldsRoundTrip(fields: Fields, rest: seq<byte>)
    requires SizedFields(fields)
    ensures DecodeFields(fields.Count(), EncodeFields(fields) + rest) == Some((fields, rest))
    decreases fields
  {
    hide DecodeHead, EncodeHead, Encode, Decode, EncodeStr;
    match fields
    case End => assert [] + rest == rest;
    case Field(key, value, more) =>
      var after := EncodeFields(more) + rest;
      assert EncodeFields(fields) + rest == EncodeStr(key) + (Encode(value) + after);
      StrRoundTrip(key, Encode(value) + after);
      RoundTrip(value, after);
      FieldsRoundTrip(more, rest);
  }

  // ---------- the encoding is the only shortest one ----------

  lemma {:induction false} WideIsShortest(b: byte, n: nat, k: nat)
    requires b >= 0xc0 && WidthOf(b) == Some(k) && n < Pow(256, k) && n < (if b == 0xcf then U64 else U32)
    ensures var code := EncodeHead(HeadOf(b, n));
      |code| <= 1 + k && (|code| == 1 + k ==> code == [b] + BigEndian(n, k))
  {
    PowersOf256();
    hide Pow, Digits, BigEndian;
  }

  lemma {:induction false} TailIsBigEndian(tail: seq<byte>)
    ensures Value(256, tail) < Pow(256, |tail|) && BigEndian(Value(256, tail), |tail|) == tail
  {
    ValueFits(256, tail);
    DigitsOfValue(256, tail);
  }

  /** No bytes that decode to a head are shorter than its encoding, and none of the same length differ. */
  lemma {:induction false} HeadIsShortest(bytes: seq<byte>)
    requires DecodeHead(bytes).Some?
    ensures var (h, k) := DecodeHead(bytes).value;
      |EncodeHead(h)| <= k && (|EncodeHead(h)| == k ==> EncodeHead(h) == bytes[..k])
  {
    var b := bytes[0];
    if b < 0x90 || 0xa0 <= b < 0xc0 {
      FixHead(bytes);
    } else {
      WideHeadIsShortest(bytes);
    }
  }

  lemma {:induction false} WideHeadIsShortest(bytes: seq<byte>)
    requires DecodeHead(bytes).Some? && (0x90 <= bytes[0] < 0xa0 || 0xc0 <= bytes[0])
    ensures var (h, k) := DecodeHead(bytes).value;
      |EncodeHead(h)| <= k && (|EncodeHead(h)| == k ==> EncodeHead(h) == bytes[..k])
  {
    hide EncodeHead, DecodeHead, BigEndian, Value, Digits, Pow, WidthOf, HeadOf;
    WideHead(bytes);
    var k := WidthOf(bytes[0]).value;
    TailIsBigEndian(bytes[1..1 + k]);
    WideIsShortest(bytes[0], Value(256, bytes[1..1 + k]), k);
    FirstAndRest(bytes, k);
  }

  lemma {:induction false} FirstAndRest(bytes: seq<byte>, k: nat)
    requires 1 + k <= |bytes|
    ensures bytes[..1 + k] == [bytes[0]] + bytes[1..1 + k]
  {
  }

  lemma {:induction false} FixHead(bytes: seq<byte>)
    requires bytes != [] && (bytes[0] < 0x90 || 0xa0 <= bytes[0] < 0xc0)
    ensures DecodeHead(bytes).Some? && DecodeHead(bytes).value.1 == 1
    ensures EncodeHead(DecodeHead(bytes).value.0) == [bytes[0]] == bytes[..1]
  {
    hide Pow, Value, Digits, BigEndian;
  }

  lemma {:induction false} WideHead(bytes: seq<byte>)
    requires DecodeHead(bytes).Some? && (0x90 <= bytes[0] < 0xa0 || 0xc0 <= bytes[0])
    ensures var b := bytes[0];
      && b >= 0xc0 && WidthOf(b).Some? && 1 + WidthOf(b).value <= |bytes|
      && var n := Value(256, bytes[1..1 + WidthOf(b).value]);
      && n < (if b == 0xcf then U64 else U32)
      && DecodeHead(bytes) == Some((HeadOf(b, n), 1 + WidthOf(b).value))
  {
    var b := bytes[0];
    PowersOf256();
    ValueFits(256, bytes[1..1 + WidthOf(b).value]);
    hide Pow, Value, Digits, BigEndian;
  }

  /** `part` and what follows it take no more than `bytes`, and are `bytes` if they take as much. */
  predicate AtMost(part: seq<byte>, rest: seq<byte>, bytes: seq<byte>) {
    |part| + |rest| <= |bytes| && (|part| + |rest| == |bytes| ==> bytes == part + rest)
  }

  lemma {:induction false} AtMostConcat(first: seq<byte>, more: seq<byte>, second: seq<byte>, rest: seq<byte>,
                                        bytes: seq<byte>)
    requires AtMost(first, more, bytes) && AtMost(second, rest, more)
    ensures AtMost(first + second, rest, bytes)
  {
    assert first + second + rest == first + (second + rest);
  }

  lemma {:induction false} HeadAtMost(bytes: seq<byte>)
    requires DecodeHead(bytes).Some?
    ensures var (h, k) := DecodeHead(bytes).value; AtMost(EncodeHead(h), bytes[k..], bytes)
  {
    hide DecodeHead, EncodeHead;
    HeadIsShortest(bytes);
    var (h, k) := DecodeHead(bytes).value;
    assert bytes == bytes[..k] + bytes[k..];
  }

  lemma {:induction false} BodyAtMost(bytes: seq<byte>, n: nat)
    requires n <= |bytes|
    ensures AtMost(bytes[..n], bytes[n..], bytes)
  {
    assert bytes == bytes[..n] + bytes[n..];
  }

  lemma {:induction false} TextIsShortest(bytes: seq<byte>)
    requires Decode(bytes).Some? && DecodeHead(bytes).value.0.StrHead?
    ensures var (v, rest) := Decode(bytes).value; Sized(v) && AtMost(Encode(v), rest, bytes)
  {
    hide DecodeHead, EncodeHead, AtMost;
    var (head, k) := DecodeHead(bytes).value;
    var after := bytes[k..];
    HeadAtMost(bytes);
    BodyAtMost(after, head.len);
    AtMostConcat(EncodeHead(head), after, after[..head.len], after[head.len..], bytes);
  }

  lemma {:induction false} DataIsShortest(bytes: seq<byte>)
    requires Decode(bytes).Some? && DecodeHead(bytes).value.0.BinHead?
    ensures var (v, rest) := Decode(bytes).value; Sized(v) && AtMost(Encode(v), rest, bytes)
  {
    hide DecodeHead, EncodeHead, AtMost;
    var (head, k) := DecodeHead(bytes).value;
    var after := bytes[k..];
    HeadAtMost(bytes);
    BodyAtMost(after, head.len);
    AtMostConcat(EncodeHead(head), after, after[..head.len], after[head.len..], bytes);
  }

  /** Bytes that decode to a value are at least as long as its encoding, and equal to it if as long. */
  lemma {:induction false} EncodingIsShortest(bytes: seq<byte>)
    requires Decode(bytes).Some?
    ensures var (v, rest) := Decode(bytes).value; Sized(v) && AtMost(Encode(v), rest, bytes)
    decreases |bytes|, 0
  {
    hide DecodeHead, EncodeHead, AtMost;
    var (head, k) := DecodeHead(bytes).value;
    match head
    case UIntHead(n) => HeadAtMost(bytes);
    case StrHead(len) => TextIsShortest(bytes);
    case BinHead(len) => DataIsShortest(bytes);
    case MapHead(len) =>
      HeadAtMost(bytes);
      FieldsAreShortest(len, bytes[k..]);
      var (fields, rest) := DecodeFields(len, bytes[k..]).value;
      AtMostConcat(EncodeHead(head), bytes[k..], EncodeFields(fields), rest, bytes);
  }

  lemma {:induction false} FieldAtMost(bytes: seq<byte>, key: seq<byte>, more: seq<byte>, value: Packed,
                                       after: seq<byte>, fields: Fields, rest: seq<byte>)
    requires AtMost(Encode(Str(key)), more, bytes) && AtMost(Encode(value), after, more)
    requires AtMost(EncodeFields(fields), rest, after)
    requires Sized(Str(key)) && Sized(value) && SizedFields(fields)
    ensures AtMost(EncodeFields(Field(key, value, fields)), rest, bytes) && SizedFields(Field(key, value, fields))
  {
    hide AtMost, EncodeStr;
    AtMostConcat(EncodeStr(key), more, Encode(value), after, bytes);
    AtMostConcat(EncodeStr(key) + Encode(value), after, EncodeFields(fields), rest, bytes);
  }

  lemma {:induction false} NoFieldsAtMost(bytes: seq<byte>)
    ensures AtMost(EncodeFields(End), bytes, bytes) && SizedFields(End) && End.Count() == 0
  {
    assert [] + bytes == bytes;
  }

  lemma {:induction false} FieldsAreShortest(count: nat, bytes: seq<byte>)
    requires DecodeFields(count, bytes).Some?
    ensures var (fields, rest) := DecodeFields(count, bytes).value;
      fields.Count() == count && SizedFields(fields) && AtMost(EncodeFields(fields), rest, bytes)
    decreases |bytes|, 1
  {
    hide DecodeHead, EncodeHead, AtMost, Encode, EncodeFields, Decode, Sized, SizedFields;
    if count == 0 {
      NoFieldsAtMost(bytes);
    } else {
      var (key, more) := Decode(bytes).value;
      var (_, after) := Decode(more).value;
      EncodingIsShortest(bytes);
      EncodingIsShortest(more);
      FieldsAreShortest(count - 1, after);
      FirstFieldIsShortest(count, bytes);
    }
  }

  lemma {:induction false} FirstFieldIsShortest(count: nat, bytes: seq<byte>)
    requires count > 0 && DecodeFields(count, bytes).Some?
    requires var (v, rest) := Decode(bytes).value; Sized(v) && AtMost(Encode(v), rest, bytes)
    requires var more := Decode(bytes).value.1;
      var (v, rest) := Decode(more).value; Sized(v) && AtMost(Encode(v), rest, more)
    requires var after := Decode(Decode(bytes).value.1).value.1;
      var (fields, rest) := DecodeFields(count - 1, after).value;
      fields.Count() == count - 1 && SizedFields(fields) && AtMost(EncodeFields(fields), rest, after)
    ensures var (fields, rest) := DecodeFields(count, bytes).value;
      fields.Count() == count && SizedFields(fields) && AtMost(EncodeFields(fields), rest, bytes)
  {
    hide DecodeHead, EncodeHead, AtMost, Encode, EncodeFields, Decode, Sized, SizedFields;
    var (key, more) := Decode(bytes).value;
    var (value, after) := Decode(more).value;
    var (fields, rest) := DecodeFields(count - 1, after).value;
    FieldAtMost(bytes, key.text, more, value, after, fields, rest);
  }

  /** A value comes back from its encoding exactly when every length fits its 32-bit head. */
  lemma {:induction false} ComesBackIffSized(v: Packed)
    ensures Decode(Encode(v)) == Some((v, [])) <==> Sized(v)
  {
    hide Decode, Encode;
    assert Encode(v) + [] == Encode(v);
    if Sized(v) {
      RoundTrip(v, []);
    } else if Decode(Encode(v)) == Some((v, [])) {
      EncodingIsShortest(Encode(v));
    }
  }
}
