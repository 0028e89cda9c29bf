/** Facts about Euclidean division that the models' proofs share. */
module Arithmetic {

  lemma {:induction false} NonNegativeProduct(a: nat, b: nat)
    ensures a * b >= 0
  {
  }

  /** Quotient and remainder are the unique `q`, `r` with `x == q * n + r` and `0 <= r < n`. */
  lemma {:induction false} DivModUnique(x: int, q: int, n: int, r: int)
    requires n > 0 && 0 <= r < n && x == q * n + r
    ensures x / n == q && x % n == r
  {
    var q', r' := x / n, x % n;
    assert x == q' * n + r';
    var d := q - q';
    assert d * n == r' - r;
    if d >= 1 {
      assert d * n == n + (d - 1) * n;
      NonNegativeProduct(d - 1, n);
    } else if d <= -1 {
      assert -d * n == n + (-d - 1) * n;
      NonNegativeProduct(-d - 1, n);
    }
  }

  /** Dividing by `b` and then by `c` is dividing by `b * c`. */
  lemma {:induction false} DivDiv(a: int, b: int, c: int)
    requires a >= 0 && b > 0 && c > 0
    ensures a / b / c == a / (b * c)
  {
    var q1, r1 := a / b, a % b;
    var q2, r2 := q1 / c, q1 % c;
    assert a == q1 * b + r1;
    assert q1 == q2 * c + r2;
    assert a == q2 * (b * c) + (r2 * b + r1) by {
      assert q1 * b == (q2 * c + r2) * b == q2 * (b * c) + r2 * b;
    }
    assert r2 * b + r1 < b * c by {
      assert r2 <= c - 1;
      NonNegativeProduct(c - 1 - r2, b);
      assert (c - 1 - r2) * b == c * b - b - r2 * b;
    }
    NonNegativeProduct(r2, b);
    DivModUnique(a, q2, b * c, r2 * b + r1);
  }
}
