/**
 * The few pieces of JavaScript's built-in behaviour that the site's scripts
 * rely on: numbers that may be NaN, the truncating `%` operator, the string
 * methods `includes`, `endsWith` and `padStart`, and `Number(...)` applied to
 * a string of decimal digits.
 */
module JsSemantics {
  import Arithmetic

  /** A value that may be `null` or `undefined` (both read as `None`). */
  datatype Option<+T> = None | Some(value: T)

  /** A JavaScript number restricted to the integers, plus NaN. */
  datatype JsNumber = Num(value: int) | NaN

  /** `a + k`: NaN is absorbing. */
  function Add(a: JsNumber, k: int): (r: JsNumber)
    ensures r.NaN? <==> a.NaN?
    ensures r.Num? ==> r.value - k == a.value
  {
    match a
    case NaN => NaN
    case Num(v) => Num(v + k)
  }

  /**
   * `a % n` for a divisor `n` that is a length (never negative): JavaScript
   * truncates toward zero, so the remainder takes the sign of the dividend;
   * a zero divisor gives NaN. On a non-negative dividend it is the
   * mathematical remainder.
   */
  function Rem(a: JsNumber, n: nat): (r: JsNumber)
    ensures r.NaN? <==> a.NaN? || n == 0
    ensures r.Num? && a.value >= 0 ==> 0 <= r.value < n && r.value == a.value % n
    ensures r.Num? && a.value < 0 ==> -(n as int) < r.value <= 0
    ensures r.Num? ==> (a.value - r.value) % (n as int) == 0
  {
    if a.NaN? || n == 0 then NaN
    else if a.value >= 0 then
      RemainderDifference(a.value, n, 1);
      Num(a.value % n)
    else
      RemainderDifference(-a.value, n, -1);
      Num(-((-a.value) % n))
  }

  /** Taking off the remainder of `m`, with either sign, leaves a multiple of `n`. */
  lemma {:induction false} RemainderDifference(m: int, n: int, sign: int)
    requires m >= 0 && n > 0 && (sign == 1 || sign == -1)
    ensures (sign * m - sign * (m % n)) % n == 0
  {
    var q, r := m / n, m % n;
    assert m == q * n + r;
    assert sign * m - sign * r == (sign * q) * n;
    Arithmetic.DivModUnique((sign * q) * n, sign * q, n, 0);
  }

  /** `Math.floor(x)`, with JavaScript's floating-point numbers read as exact reals. */
  function Floor(x: real): (r: int)
    ensures r as real <= x < r as real + 1.0
  {
    x.Floor
  }

  /** `Math.trunc(x)`: rounds toward zero. */
  function Trunc(x: real): int {
    if x >= 0.0 then x.Floor else -((-x).Floor)
  }

  /** `x % y` on floating-point numbers: `x - y * trunc(x / y)`, with the sign of `x`. */
  function FloatRem(x: real, y: real): real
    requires y != 0.0
  {
    x - y * Trunc(x / y) as real
  }

  /** `sub` occurs in `s` starting at index `i`. */
  predicate OccursAt(s: string, sub: string, i: int) {
    0 <= i <= |s| - |sub| && s[i..i + |sub|] == sub
  }

  /** `s.includes(sub)`. */
  predicate Includes(s: string, sub: string)
    decreases |s|
  {
    sub <= s || (|s| > 0 && Includes(s[1..], sub))
  }

  /** `Includes` holds exactly when `sub` occurs at some position of `s`. */
  lemma {:induction false} IncludesIff(s: string, sub: string)
    ensures Includes(s, sub) <==> exists i :: OccursAt(s, sub, i)
    decreases |s|
  {
    if sub <= s {
      assert OccursAt(s, sub, 0);
    } else if |s| == 0 {
      assert forall i :: !OccursAt(s, sub, i);
    } else {
      IncludesIff(s[1..], sub);
      forall i | OccursAt(s, sub, i) ensures OccursAt(s[1..], sub, i - 1) {
        assert s[1..][i - 1..i - 1 + |sub|] == s[i..i + |sub|];
      }
      forall j | OccursAt(s[1..], sub, j) ensures OccursAt(s, sub, j + 1) {
        assert s[1..][j..j + |sub|] == s[j + 1..j + 1 + |sub|];
      }
    }
  }

  /** `s.endsWith(suffix)`. */
  predicate EndsWith(s: string, suffix: string) {
    |suffix| <= |s| && s[|s| - |suffix|..] == suffix
  }

  /** `s.padStart(len, fill)` with a one-character fill string. */
  function PadStart(s: string, len: nat, fill: char): (r: string)
    ensures |r| == if |s| < len then len else |s|
    ensures r[|r| - |s|..] == s
    ensures forall i :: 0 <= i < |r| - |s| ==> r[i] == fill
  {
    if |s| >= len then s else Repeat(fill, len - |s|) + s
  }

  /** `n` copies of `c`. */
  function Repeat(c: char, n: nat): (r: string)
    ensures |r| == n && forall i :: 0 <= i < n ==> r[i] == c
  {
    seq(n, _ => c)
  }

  predicate IsDigit(c: char) {
    '0' <= c <= '9'
  }

  predicate IsDigits(s: string) {
    forall i :: 0 <= i < |s| ==> IsDigit(s[i])
  }

  function Pow10(k: nat): (r: nat)
    ensures r > 0
  {
    if k == 0 then 1 else 10 * Pow10(k - 1)
  }

  /** The value `Number(s)` has when `s` is a string of decimal digits (`Number("")` is 0). */
  function DigitsValue(s: string): (r: nat)
    requires IsDigits(s)
    ensures r < Pow10(|s|)
  {
    if s == [] then 0
    else DigitsValue(s[..|s| - 1]) * 10 + (s[|s| - 1] as int - '0' as int)
  }

  /**
   * `Number(s)`: modelled on strings of decimal digits; every other string
   * is taken to give NaN.
   */
  function Number(s: string): (r: JsNumber)
    ensures r.Num? <==> IsDigits(s)
    ensures r.Num? ==> 0 <= r.value < Pow10(|s|)
  {
    if IsDigits(s) then Num(DigitsValue(s)) else NaN
  }

  lemma {:induction false} DigitsConcat(a: string, b: string)
    requires IsDigits(a) && IsDigits(b)
    ensures IsDigits(a + b)
  {
    var ab := a + b;
    forall i | 0 <= i < |ab| ensures IsDigit(ab[i]) {
      if i < |a| { assert ab[i] == a[i]; } else { assert ab[i] == b[i - |a|]; }
    }
  }

  /** Reading digits left to right: the value of a concatenation. */
  lemma {:induction false} DigitsValueConcat(a: string, b: string)
    requires IsDigits(a) && IsDigits(b)
    ensures IsDigits(a + b)
    ensures DigitsValue(a + b) == DigitsValue(a) * Pow10(|b|) + DigitsValue(b)
    decreases |b|
  {
    DigitsConcat(a, b);
    if b == [] {
      assert a + b == a;
    } else {
      var ab := a + b;
      var b' := b[..|b| - 1];
      var d := b[|b| - 1] as int - '0' as int;
      assert IsDigits(b');
      assert ab[..|ab| - 1] == a + b';
      assert ab[|ab| - 1] == b[|b| - 1];
      DigitsValueConcat(a, b');
      var va, vb, p := DigitsValue(a), DigitsValue(b'), Pow10(|b'|);
      assert DigitsValue(ab) == DigitsValue(a + b') * 10 + d;
      assert DigitsValue(b) == vb * 10 + d;
      assert Pow10(|b|) == p * 10;
      ShiftDigit(va, p, vb, d);
    }
  }

  lemma {:induction false} ShiftDigit(va: int, p: int, vb: int, d: int)
    ensures (va * p + vb) * 10 + d == va * (p * 10) + (vb * 10 + d)
  {
  }

  /** Leading zeros do not change the value of a digit string. */
  lemma {:induction false} LeadingZeros(s: string, len: nat)
    requires IsDigits(s)
    ensures IsDigits(PadStart(s, len, '0'))
    ensures DigitsValue(PadStart(s, len, '0')) == DigitsValue(s)
  {
    if |s| < len {
      var zeros := Repeat('0', len - |s|);
      ZerosValue(len - |s|);
      DigitsValueConcat(zeros, s);
    }
  }

  /** A string of zeros reads as 0. */
  lemma {:induction false} ZerosValue(n: nat)
    ensures IsDigits(Repeat('0', n)) && DigitsValue(Repeat('0', n)) == 0
  {
    if n > 0 {
      ZerosValue(n - 1);
      assert Repeat('0', n)[..n - 1] == Repeat('0', n - 1);
    }
  }

  /** `"01"`, the default month and day, reads as 1. */
  lemma ZeroOneValue()
    ensures IsDigits("01") && DigitsValue("01") == 1
  {
    var s := "01";
    assert s[..1] == ['0'];
    assert ['0'][..0] == [];
  }

  /**
   * A year followed by a month and a day padded to two digits reads as
   * `year * 10000 + month * 100 + day`.
   */
  lemma {:induction false} CalendarDigits(y: string, m: string, d: string)
    requires IsDigits(y) && IsDigits(m) && IsDigits(d)
    requires |m| <= 2 && |d| <= 2
    ensures Number(y + PadStart(m, 2, '0') + PadStart(d, 2, '0')) ==
      Num(DigitsValue(y) * 10000 + DigitsValue(m) * 100 + DigitsValue(d))
  {
    var pm, pd := PadStart(m, 2, '0'), PadStart(d, 2, '0');
    LeadingZeros(m, 2);
    LeadingZeros(d, 2);
    AppendTwoDigits(y, pm);
    AppendTwoDigits(y + pm, pd);
    Hundreds(DigitsValue(y), DigitsValue(m), DigitsValue(d), DigitsValue(y + pm), DigitsValue(y + pm + pd), 100, 100);
  }

  /** Appending two digits shifts a digit string's value by two places. */
  lemma {:induction false} AppendTwoDigits(a: string, b: string)
    requires IsDigits(a) && IsDigits(b) && |b| == 2
    ensures IsDigits(a + b) && DigitsValue(a + b) == DigitsValue(a) * 100 + DigitsValue(b)
  {
    DigitsValueConcat(a, b);
    assert Pow10(|b|) == 100 by { assert Pow10(1) == 10; }
  }

  /** Two two-digit shifts make one four-digit shift. */
  lemma {:induction false} Hundreds(a: int, b: int, c: int, ab: int, abc: int, p: int, q: int)
    requires p == 100 && q == 100
    requires ab == a * p + b && abc == ab * q + c
    ensures abc == a * 10000 + b * 100 + c
  {
  }

}
