/** Big-endian digit sequences in any base, and the little arithmetic the codecs need. */
module PositionalNumbers {

  type byte = x: int | 0 <= x < 256

  /** One more than the greatest u32. */
  const U32: nat := 0x1_0000_0000

  function Pow(b: nat, n: nat): (p: nat)
    ensures b > 0 ==> p > 0
  {
    if n == 0 then 1 else b * Pow(b, n - 1)
  }

  function Quotient(v: nat, p: nat): (q: nat)
    requires p > 0
  {
    v / p
  }

  function Remainder(v: nat, p: nat): (r: nat)
    requires p > 0
    ensures r < p
  {
    v % p
  }

  lemma Split(v: nat, p: nat)
    requires p > 0
    ensures v == Quotient(v, p) * p + Remainder(v, p)
  {
  }

  /** The number a big-endian digit sequence stands for. */
  function Value(base: nat, digits: seq<nat>): nat {
    if digits == [] then 0
    else Value(base, digits[..|digits| - 1]) * base + digits[|digits| - 1]
  }

  /** The last `n` digits of v. */
  function Digits(base: nat, v: nat, n: nat): (digits: seq<nat>)
    requires base > 0
    ensures |digits| == n
    ensures forall i :: 0 <= i < n ==> digits[i] < base
    decreases n
  {
    if n == 0 then [] else Digits(base, Quotient(v, base), n - 1) + [Remainder(v, base)]
  }

  predicate Bounded(base: nat, digits: seq<nat>) {
    forall i :: 0 <= i < |digits| ==> digits[i] < base
  }

  lemma QuotientIs(x: int, p: int, q: int, r: int)
    requires 0 <= r < p && x == q * p + r
    ensures x / p == q && x % p == r
  {
    var d := x / p - q;
    assert x == (x / p) * p + x % p;
    assert d * p == r - x % p;
    MultipleInside(d, p);
  }

  lemma MultipleInside(d: int, p: int)
    requires -p < d * p < p
    ensures d == 0
  {
  }

  lemma TimesMonotone(a: int, b: int, c: int)
    requires a <= b && c >= 0
    ensures a * c <= b * c
  {
  }

  lemma ValueSnoc(base: nat, digits: seq<nat>, d: nat)
    ensures Value(base, digits + [d]) == Value(base, digits) * base + d
  {
    assert (digits + [d])[..|digits|] == digits;
  }

  /** The digits of a in front of those of b. */
  lemma {:induction false} ValueConcat(base: nat, a: seq<nat>, b: seq<nat>)
    ensures Value(base, a + b) == Value(base, a) * Pow(base, |b|) + Value(base, b)
  {
    if b == [] {
      assert a + b == a;
    } else {
      var front, d := b[..|b| - 1], b[|b| - 1];
      assert a + b == (a + front) + [d];
      ValueConcat(base, a, front);
      ValueSnoc(base, a + front, d);
      Reassociate(Value(base, a), Pow(base, |front|), base, Value(base, front));
    }
  }

  lemma Reassociate(v: nat, p: nat, base: nat, low: nat)
    ensures (v * p + low) * base == v * (base * p) + low * base
  {
  }

  lemma {:induction false} ValueFits(base: nat, digits: seq<nat>)
    requires base > 0 && Bounded(base, digits)
    ensures Value(base, digits) < Pow(base, |digits|)
  {
    if digits != [] {
      var n := |digits| - 1;
      ValueFits(base, digits[..n]);
      OneMoreFits(base, Value(base, digits[..n]), digits[n], Pow(base, n));
    }
  }

  lemma OneMoreFits(base: nat, front: nat, d: nat, limit: nat)
    requires front < limit && d < base
    ensures front * base + d < base * limit
  {
    TimesMonotone(front + 1, limit, base);
  }

  /** Reading digits back as a number, and writing them again, changes nothing. */
  lemma {:induction false} DigitsOfValue(base: nat, digits: seq<nat>)
    requires base > 0 && Bounded(base, digits)
    ensures Digits(base, Value(base, digits), |digits|) == digits
  {
    if digits != [] {
      var n := |digits| - 1;
      DigitsOfValue(base, digits[..n]);
      QuotientIs(Value(base, digits), base, Value(base, digits[..n]), digits[n]);
      assert Quotient(Value(base, digits), base) == Value(base, digits[..n]);
      assert digits == digits[..n] + [digits[n]];
    }
  }

  lemma {:induction false} ValueOfDigits(base: nat, v: nat, n: nat)
    requires base > 0 && v < Pow(base, n)
    ensures Value(base, Digits(base, v, n)) == v
    decreases n
  {
    if n > 0 {
      var q, r := Quotient(v, base), Remainder(v, base);
      Split(v, base);
      if q >= Pow(base, n - 1) { TimesMonotone(Pow(base, n - 1), q, base); }
      ValueOfDigits(base, q, n - 1);
      ValueSnoc(base, Digits(base, q, n - 1), r);
    }
  }

  lemma SameValueSameDigits(base: nat, a: seq<nat>, b: seq<nat>)
    requires base > 0 && Bounded(base, a) && Bounded(base, b) && |a| == |b|
    requires Value(base, a) == Value(base, b)
    ensures a == b
  {
    DigitsOfValue(base, a);
    DigitsOfValue(base, b);
  }
}
