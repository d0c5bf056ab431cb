/** generate_task_id: `task-<seconds>-<count>`, and why two counts never give the same id. */
module TaskIds {

  const DIGITS: string := "0123456789"

  function Decimal(n: nat): (s: string)
    ensures s != [] && forall i :: 0 <= i < |s| ==> s[i] in DIGITS
    decreases n
  {
    if n < 10 then [DIGITS[n]] else Decimal(n / 10) + [DIGITS[n % 10]]
  }

  function TaskId(now: nat, count: nat): string {
    "task-" + Decimal(now) + "-" + Decimal(count)
  }

  /** The number that decimal digits stand for. */
  function Reading(s: string): int {
    if s == "" then 0 else 10 * Reading(s[..|s| - 1]) + (s[|s| - 1] as int - '0' as int)
  }

  lemma {:induction false} DecimalReadsBack(n: nat)
    ensures Reading(Decimal(n)) == n && (n > 0 ==> Decimal(n)[0] != '0')
    decreases n
  {
    assert DIGITS[n % 10] as int - '0' as int == n % 10 by { DigitIs(n % 10); }
    if n < 10 {
      assert Decimal(n)[..0] == "";
    } else {
      DecimalReadsBack(n / 10);
      assert Decimal(n)[..|Decimal(n)| - 1] == Decimal(n / 10);
    }
  }

  lemma DigitIs(d: nat)
    requires d < 10
    ensures DIGITS[d] as int - '0' as int == d
  {
    assert DIGITS[0] == '0' && DIGITS[1] == '1' && DIGITS[2] == '2' && DIGITS[3] == '3' && DIGITS[4] == '4';
    assert DIGITS[5] == '5' && DIGITS[6] == '6' && DIGITS[7] == '7' && DIGITS[8] == '8' && DIGITS[9] == '9';
  }

  lemma DecimalInjective(a: nat, b: nat)
    requires Decimal(a) == Decimal(b)
    ensures a == b
  {
    DecimalReadsBack(a);
    DecimalReadsBack(b);
  }

  lemma DashEndsDigits(a: string, b: string, c: string, d: string)
    requires (forall i :: 0 <= i < |a| ==> a[i] in DIGITS) && (forall i :: 0 <= i < |c| ==> c[i] in DIGITS)
    requires a + "-" + b == c + "-" + d
    ensures a == c && b == d
  {
    var s := a + "-" + b;
    assert s[|a|] == '-' && s[|c|] == '-';
    assert '-' !in DIGITS;
    assert a == s[..|a|] && c == s[..|c|];
    assert b == s[|a| + 1..] && d == s[|c| + 1..];
  }

  /** The counter alone makes ids unique, whatever the clock says. */
  lemma TaskIdInjective(now: nat, count: nat, now': nat, count': nat)
    requires TaskId(now, count) == TaskId(now', count')
    ensures now == now' && count == count'
  {
    hide Decimal;
    var a, b := Decimal(now) + "-" + Decimal(count), Decimal(now') + "-" + Decimal(count');
    assert TaskId(now, count) == "task-" + a && TaskId(now', count') == "task-" + b;
    assert TaskId(now, count)[5..] == a && TaskId(now', count')[5..] == b;
    DashEndsDigits(Decimal(now), Decimal(count), Decimal(now'), Decimal(count'));
    DecimalInjective(now, now');
    DecimalInjective(count, count');
  }
}
