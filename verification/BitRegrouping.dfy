/**
The two regrouping loops of the wallet, which move bits through a 32-bit buffer that is never masked,
so that every left shift silently drops high bits.
*/
module BitRegrouping {
  import opened PositionalNumbers
  import opened Wrappers

  // ---------- u32 ----------

  function Shl(x: nat, n: nat): nat { (x * Pow(2, n)) % U32 }

  function Shr(x: nat, n: nat): nat { x / Pow(2, n) }

  /** `(x << n) | d` for d of n bits: the shift left the low n bits zero, so the or is a sum. */
  function ShiftIn(x: nat, n: nat, d: nat): nat { Shl(x, n) + d }

  /** The buffer after `v` went through it is v truncated to 32 bits; taking a digit that lies in its low
      32 bits is not affected by what was lost. */
  lemma DigitSurvivesTruncation(v: nat, p: nat, base: nat, t: nat)
    requires p > 0 && base > 0 && t > 0 && t * base * p == U32
    ensures ((v % U32) / p) % base == (v / p) % base
  {
    var q, low := v / U32, v % U32;
    var d := low / p;
    calc {
      v;
      q * U32 + low;
      q * (t * base * p) + d * p + low % p;
      (q * (t * base) + d) * p + low % p;
    }
    QuotientIs(v, p, q * (t * base) + d, low % p);
    calc {
      q * (t * base) + d;
      (q * t) * base + (d / base) * base + d % base;
      (q * t + d / base) * base + d % base;
    }
    QuotientIs(q * (t * base) + d, base, q * t + d / base, d % base);
  }

  /** A shift by n bits leaves room for n more. */
  lemma ShiftLeavesRoom(x: nat, base: nat, t: nat, d: nat)
    requires base > 0 && t > 0 && t * base == U32 && d < base
    ensures (x * base) % U32 + d < U32
  {
    var q, r := Quotient(x, t), Remainder(x, t);
    Split(x, t);
    assert x * base == q * (t * base) + r * base by {
      assert (q * t + r) * base == q * t * base + r * base;
    }
    TimesMonotone(r + 1, t, base);
    assert (r + 1) * base == r * base + base;
    QuotientIs(x * base, U32, q, r * base);
  }

  /** One shift-and-or of the buffer follows the unbounded value. */
  lemma ShiftInFollows(v: nat, buffer: nat, base: nat, d: nat)
    requires buffer == v % U32 && base > 0 && (buffer * base) % U32 + d < U32
    ensures (buffer * base) % U32 + d == (v * base + d) % U32
  {
    var q, q' := v / U32, (buffer * base) / U32;
    var low := (buffer * base) % U32;
    calc {
      v * base + d;
      (q * U32 + buffer) * base + d;
      (q * base) * U32 + buffer * base + d;
      (q * base + q') * U32 + (low + d);
    }
    QuotientIs(v * base + d, U32, q * base + q', low + d);
  }

  /** Taking the digit that starts at bit p out of v, which already gave up `taken` in front of it. */
  lemma TakeDigit(v: nat, p: nat, base: nat, taken: nat)
    requires p > 0 && base > 0 && taken == v / (base * p)
    ensures v / p == taken * base + (v / p) % base
  {
    var r := v % (base * p);
    Split(v, base * p);
    var d, low := Quotient(r, p), Remainder(r, p);
    Split(r, p);
    assert v == (taken * base + d) * p + low by {
      assert (taken * base + d) * p == (taken * base) * p + d * p;
      assert (taken * base) * p == taken * (base * p);
    }
    QuotientIs(v, p, taken * base + d, low);
    if d >= base { TimesMonotone(base, d, p); }
    QuotientIs(v / p, base, taken, d);
  }

  // ---------- powers of two ----------

  lemma {:induction false} PowAdds(a: nat, b: nat)
    ensures Pow(2, a + b) == Pow(2, a) * Pow(2, b)
  {
    if a > 0 {
      PowAdds(a - 1, b);
      assert Pow(2, a + b) == 2 * Pow(2, (a - 1) + b);
    }
  }

  lemma PowersOfTwo()
    ensures Pow(2, 0) == 1 && Pow(2, 8) == 256 && Pow(2, 11) == 2048 && Pow(2, 32) == U32
  {
    assert Pow(2, 4) == 16;
    PowAdds(4, 4);
    assert Pow(2, 3) == 8;
    PowAdds(8, 3);
    PowAdds(8, 8);
    PowAdds(16, 16);
  }

  lemma {:induction false} PowerOfPower(w: nat, n: nat)
    ensures Pow(Pow(2, w), n) == Pow(2, w * n)
  {
    if n > 0 {
      PowerOfPower(w, n - 1);
      Distribute(w, n - 1);
      PowAdds(w, w * (n - 1));
    }
  }

  lemma TriplePower(a: nat, b: nat, c: nat)
    ensures Pow(2, a) * Pow(2, b) * Pow(2, c) == Pow(2, a + b + c)
  {
    PowAdds(a + b, c);
    PowAdds(a, b);
  }

  /** Digits entering on the right do not change the quotient above them. */
  lemma QuotientAbove(v: nat, p: nat, base: nat, d: nat, whole: nat)
    requires p > 0 && d < base && whole == p * base
    ensures whole > 0 && Quotient(v * base + d, whole) == Quotient(v, p)
  {
    var q, r := Quotient(v, p), Remainder(v, p);
    Split(v, p);
    assert v * base + d == q * (p * base) + (r * base + d) by {
      assert (q * p + r) * base == q * p * base + r * base;
    }
    TimesMonotone(r + 1, p, base);
    assert (r + 1) * base == r * base + base;
    QuotientIs(v * base + d, p * base, q, r * base + d);
  }

  /** The next byte or index enters: the buffer stays the truncated value, and the digits already taken
      stay the high part. */
  lemma Enter(v: nat, buffer: nat, w: nat, d: nat, numBits: nat)
    requires buffer == v % U32 && w <= 32 && d < Pow(2, w)
    ensures ShiftIn(buffer, w, d) == (v * Pow(2, w) + d) % U32
    ensures Quotient(v * Pow(2, w) + d, Pow(2, numBits + w)) == Quotient(v, Pow(2, numBits))
  {
    PowersOfTwo();
    PowAdds(32 - w, w);
    ShiftLeavesRoom(buffer, Pow(2, w), Pow(2, 32 - w), d);
    ShiftInFollows(v, buffer, Pow(2, w), d);
    PowAdds(numBits, w);
    QuotientAbove(v, Pow(2, numBits), Pow(2, w), d, Pow(2, numBits + w));
  }

  /** One digit of w bits leaves. */
  lemma Leave(v: nat, buffer: nat, w: nat, output: seq<nat>, numBits: nat)
    requires buffer == v % U32 && w <= numBits <= 32
    requires Value(Pow(2, w), output) == Quotient(v, Pow(2, numBits))
    ensures var d := Remainder(Shr(buffer, numBits - w), Pow(2, w));
      Value(Pow(2, w), output + [d]) == Quotient(v, Pow(2, numBits - w))
  {
    PowersOfTwo();
    PowAdds(w, numBits - w);
    TriplePower(32 - numBits, w, numBits - w);
    LeaveDigit(v, buffer, Pow(2, w), Pow(2, numBits - w), Pow(2, 32 - numBits), output);
  }

  lemma LeaveDigit(v: nat, buffer: nat, base: nat, p: nat, t: nat, output: seq<nat>)
    requires buffer == v % U32 && base > 0 && p > 0 && t > 0 && t * base * p == U32
    requires base * p > 0 && Value(base, output) == Quotient(v, base * p)
    ensures Value(base, output + [Remainder(buffer / p, base)]) == Quotient(v, p)
  {
    DigitSurvivesTruncation(v, p, base, t);
    TakeDigit(v, p, base, Value(base, output));
    ValueSnoc(base, output, Remainder(buffer / p, base));
  }

  /** The state of both loops: v is everything read so far as one number, the digits taken are its high
      part, and the buffer is v truncated. */
  ghost predicate Holds(v: nat, buffer: nat, numBits: nat, w: nat, output: seq<nat>) {
    && buffer == v % U32 && Bounded(Pow(2, w), output)
    && Value(Pow(2, w), output) == Quotient(v, Pow(2, numBits))
  }

  lemma LeaveHolds(v: nat, buffer: nat, numBits: nat, w: nat, output: seq<nat>)
    requires w <= numBits <= 32 && Holds(v, buffer, numBits, w, output)
    ensures Holds(v, buffer, numBits - w, w, output + [Remainder(Shr(buffer, numBits - w), Pow(2, w))])
  {
    Leave(v, buffer, w, output, numBits);
  }

  lemma Distribute(w: nat, n: nat)
    ensures w * (n + 1) == w * n + w
  {
  }

  /** The inner loop of both: digits of w bits leave while there are enough bits. */
  method TakeAll(buffer: nat, numBits: nat, w: nat, output: seq<nat>, ghost v: nat)
    returns (numBits': nat, output': seq<nat>)
    requires 0 < w && numBits <= 32 && Holds(v, buffer, numBits, w, output)
    ensures Holds(v, buffer, numBits', w, output')
    ensures numBits' < w && w * |output'| + numBits' == w * |output| + numBits
  {
    numBits', output' := numBits, output;
    while numBits' >= w
      invariant numBits' <= 32 && Holds(v, buffer, numBits', w, output')
      invariant w * |output'| + numBits' == w * |output| + numBits
    {
      LeaveHolds(v, buffer, numBits', w, output');
      Distribute(w, |output'|);
      numBits' := numBits' - w;
      output' := output' + [Remainder(Shr(buffer, numBits'), Pow(2, w))];
    }
  }

  // ---------- the encoding loop ----------

  function Groups(bytes: nat): nat { (8 * bytes + 10) / 11 }

  /** Zero bits appended on the right to fill the last group. */
  function Padding(bytes: nat): (pad: nat)
    ensures pad < 11 && 11 * Groups(bytes) == 8 * bytes + pad
  {
    11 * Groups(bytes) - 8 * bytes
  }

  /** The base-2048 digits of the big-endian number, shifted left by the padding. */
  function ElevenBitGroups(data: seq<byte>): (groups: seq<nat>)
    ensures |groups| == Groups(|data|) && Bounded(2048, groups)
    ensures |data| == 32 ==> |groups| == 24
  {
    Digits(2048, Value(256, data) * Pow(2, Padding(|data|)), Groups(|data|))
  }

  /** The last group: what is left of the value, shifted to the top of eleven bits. */
  lemma LastGroup(v: nat, buffer: nat, output: seq<nat>, numBits: nat)
    requires buffer == v % U32 && 0 < numBits < 11
    requires Value(2048, output) == Quotient(v, Pow(2, numBits))
    ensures Value(2048, output + [Remainder(Shl(buffer, 11 - numBits), 2048)]) == v * Pow(2, 11 - numBits)
  {
    PowersOfTwo();
    PowAdds(11 - numBits, numBits);
    PowAdds(21 + numBits, 11 - numBits);
    LastDigit(v, buffer, Pow(2, 11 - numBits), Pow(2, numBits), Pow(2, 21 + numBits), output);
  }

  lemma LastDigit(v: nat, buffer: nat, s: nat, p: nat, t: nat, output: seq<nat>)
    requires buffer == v % U32 && s > 0 && p > 0 && t > 0 && s * p == 2048 && t * s == U32
    requires Value(2048, output) == Quotient(v, p)
    ensures Value(2048, output + [Remainder((buffer * s) % U32, 2048)]) == v * s
  {
    var q, r := Quotient(v, p), Remainder(v, p);
    LowGroupSurvives(v, buffer, s, t);
    Split(v, p);
    PaddedQuotient(v, q, p, r, s);
    hide Remainder, Quotient, Value;
    ValueSnoc(2048, output, r * s);
  }

  lemma LowGroupSurvives(v: nat, buffer: nat, s: nat, t: nat)
    requires buffer == v % U32 && s > 0 && t > 0 && t * s == U32
    ensures Remainder((buffer * s) % U32, 2048) == (v * s) % 2048
  {
    ShiftLeavesRoom(buffer, s, t, 0);
    ShiftInFollows(v, buffer, s, 0);
    LowBits(v * s, (buffer * s) % U32);
  }

  lemma LowBits(x: nat, low: nat)
    requires low == x % U32
    ensures low % 2048 == x % 2048
  {
    var q, a, b := Quotient(x, U32), Quotient(low, 2048), Remainder(low, 2048);
    Split(x, U32);
    Split(low, 2048);
    QuotientIs(x, 2048, q * 0x20_0000 + a, b);
  }

  lemma PaddedQuotient(v: nat, q: nat, p: nat, r: nat, s: nat)
    requires v == q * p + r && r < p && s > 0 && s * p == 2048
    ensures v * s == q * 2048 + r * s && (v * s) % 2048 == r * s
  {
    assert (q * p + r) * s == q * (s * p) + r * s;
    TimesMonotone(r + 1, p, s);
    assert (r + 1) * s == r * s + s;
    QuotientIs(v * s, 2048, q, r * s);
  }

  lemma NextDigit(base: nat, digits: seq<nat>, i: nat)
    requires i < |digits|
    ensures Value(base, digits[..i + 1]) == Value(base, digits[..i]) * base + digits[i]
  {
    assert digits[..i + 1] == digits[..i] + [digits[i]];
    ValueSnoc(base, digits[..i], digits[i]);
  }

  /** The first group of 32 bytes is their first eleven bits. */
  lemma FirstElevenBits(bytes: seq<byte>)
    requires |bytes| == 32
    ensures ElevenBitGroups(bytes)[0] == (bytes[0] as nat) * 8 + (bytes[1] as nat) / 32
  {
    hide *;
    var groups := ElevenBitGroups(bytes);
    ValueOfGroups(bytes);
    PowerOf23Groups();
    Leading(256, bytes, 2);
    Leading(2048, groups, 1);
    FirstTwo(bytes);
    FirstOne(groups);
    SameLead(bytes[0], bytes[1], Pow(256, 30), Value(256, bytes[2..]), groups[0], Pow(2048, 23),
             Value(2048, groups[1..]));
  }

  lemma FirstOne(digits: seq<nat>)
    requires digits != []
    ensures Value(2048, digits[..1]) == digits[0]
  {
    assert digits[..1][..0] == [];
  }

  lemma FirstTwo(bytes: seq<byte>)
    requires |bytes| >= 2
    ensures Value(256, bytes[..2]) == (bytes[0] as nat) * 256 + (bytes[1] as nat)
  {
    assert bytes[..2][..1] == bytes[..1] && bytes[..1][..0] == [];
    assert Value(256, bytes[..1]) == bytes[0];
  }

  lemma ValueOfGroups(bytes: seq<byte>)
    requires |bytes| == 32
    ensures Value(2048, ElevenBitGroups(bytes)) == Value(256, bytes) * 256
  {
    ValueFits(256, bytes);
    GroupsOf32Bytes(bytes);
    PowerOf23Groups();
    hide Value, Pow, Digits, ElevenBitGroups;
    TimesMonotone(Value(256, bytes) + 1, Pow(256, 32), 256);
    ValueOfDigits(2048, Value(256, bytes) * 256, 24);
  }

  /** The leading digits, the rest, and how small the rest is. */
  lemma Leading(base: nat, digits: seq<nat>, k: nat)
    requires base > 0 && Bounded(base, digits) && k <= |digits|
    ensures Value(base, digits) == Value(base, digits[..k]) * Pow(base, |digits| - k) + Value(base, digits[k..])
    ensures Value(base, digits[k..]) < Pow(base, |digits| - k)
  {
    assert digits == digits[..k] + digits[k..];
    ValueConcat(base, digits[..k], digits[k..]);
    ValueFits(base, digits[k..]);
  }

  lemma SameLead(b0: nat, b1: nat, p: nat, low: nat, d: nat, whole: nat, tail: nat)
    requires whole == 32 * (256 * p) && low < p && tail < whole
    requires d * whole + tail == ((b0 * 256 + b1) * p + low) * 256
    ensures d == b0 * 8 + b1 / 32
  {
    var q, r := b0 * 8 + b1 / 32, b1 % 32;
    assert b0 * 256 + b1 == 32 * q + r;
    assert ((32 * q + r) * p + low) * 256 == q * whole + (r * p + low) * 256;
    TimesMonotone(r + 1, 32, p);
    assert (r + 1) * p == r * p + p;
    QuotientIs(d * whole + tail, whole, d, tail);
    QuotientIs(d * whole + tail, whole, q, (r * p + low) * 256);
  }

  lemma PowerOf23Groups()
    ensures Pow(2048, 23) == 32 * (256 * Pow(256, 30)) && Pow(2048, 24) == 256 * Pow(256, 32)
  {
    PowersOfTwo();
    assert Pow(2, 5) == 32;
    hide Pow;
    PowerOfPower(11, 23);
    PowerOfPower(11, 24);
    PowerOfPower(8, 30);
    PowerOfPower(8, 32);
    PowAdds(5, 248);
    PowAdds(8, 240);
    PowAdds(8, 256);
  }

  lemma GroupsOf32Bytes(seed: seq<byte>)
    requires |seed| == 32
    ensures ElevenBitGroups(seed) == Digits(2048, Value(256, seed) * 256, 24)
  {
    PowersOfTwo();
    hide Digits, Value, Pow;
    assert Padding(32) == 8 && Groups(32) == 24;
  }

  method BytesTo11Bit(data: seq<byte>) returns (output: seq<nat>)
    ensures output == ElevenBitGroups(data)
  {
    var buffer, numBits := 0, 0;
    output := [];
    ghost var v: nat := 0;
    PowersOfTwo();
    hide Pow, Digits, Value;
    for i := 0 to |data|
      invariant v == Value(256, data[..i]) && numBits < 11 && 8 * i == 11 * |output| + numBits
      invariant Holds(v, buffer, numBits, 11, output)
    {
      Enter(v, buffer, 8, data[i], numBits);
      NextDigit(256, data, i);
      buffer, v := ShiftIn(buffer, 8, data[i]), v * 256 + data[i];
      numBits, output := TakeAll(buffer, numBits + 8, 11, output, v);
    }
    assert data[..|data|] == data;
    output := LastOne(buffer, numBits, output, v);
    assert |output| == Groups(|data|) && Padding(|data|) == if numBits > 0 then 11 - numBits else 0;
    DigitsOfValue(2048, output);
  }

  method LastOne(buffer: nat, numBits: nat, output: seq<nat>, ghost v: nat) returns (output': seq<nat>)
    requires numBits < 11 && Holds(v, buffer, numBits, 11, output)
    ensures |output'| == |output| + (if numBits > 0 then 1 else 0) && Bounded(2048, output')
    ensures Value(2048, output') == v * Pow(2, if numBits > 0 then 11 - numBits else 0)
  {
    PowersOfTwo();
    output' := output;
    if numBits > 0 {
      LastGroup(v, buffer, output, numBits);
      output' := output + [Remainder(Shl(buffer, 11 - numBits), 2048)];
    }
  }

  // ---------- the decoding loop ----------

  /** All whole bytes in a sequence of eleven-bit values. */
  function WholeBytes(indices: seq<nat>): (bytes: seq<nat>)
    ensures |bytes| == 11 * |indices| / 8 && Bounded(256, bytes)
  {
    Digits(256, Quotient(Value(2048, indices), Pow(2, 11 * |indices| % 8)), 11 * |indices| / 8)
  }

  /** The first 32 of them, or how many there were if too few. */
  function SeedOf(indices: seq<nat>): (r: Result<seq<byte>, nat>) {
    var bytes := WholeBytes(indices);
    if |bytes| < 32 then Err(|bytes|) else Ok(bytes[..32])
  }

  method TakeBytes(indices: seq<nat>) returns (output: seq<nat>)
    requires Bounded(2048, indices)
    ensures output == WholeBytes(indices)
  {
    var buffer, numBits := 0, 0;
    output := [];
    ghost var v: nat := 0;
    PowersOfTwo();
    hide Pow, Digits, Value;
    for i := 0 to |indices|
      invariant v == Value(2048, indices[..i]) && numBits < 8 && 11 * i == 8 * |output| + numBits
      invariant Holds(v, buffer, numBits, 8, output)
    {
      Enter(v, buffer, 11, indices[i], numBits);
      NextDigit(2048, indices, i);
      buffer, v := ShiftIn(buffer, 11, indices[i]), v * 2048 + indices[i];
      numBits, output := TakeAll(buffer, numBits + 11, 8, output, v);
    }
    assert indices[..|indices|] == indices;
    DigitsOfValue(256, output);
  }

  method BitsToBytes(indices: seq<nat>) returns (r: Result<seq<byte>, nat>)
    requires Bounded(2048, indices)
    ensures r == SeedOf(indices)
  {
    var output := TakeBytes(indices);
    if |output| < 32 {
      r := Err(|output|);
    } else {
      r := Ok(output[..32]);
    }
  }
}
