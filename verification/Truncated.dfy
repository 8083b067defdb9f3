/** Integer division and remainder that truncate toward zero, as in
    web/src/lib/format/jalali.ts (Dafny's own `/` and `%` are Euclidean). */
module Truncated {
  function Div(a: int, b: int): int
    requires b > 0
    decreases a < 0, if a < 0 then -a else a
  {
    if a < 0 then -Div(-a, b)
    else if a < b then 0
    else 1 + Div(a - b, b)
  }

  function Mod(a: int, b: int): int
    requires b > 0
  {
    a - Div(a, b) * b
  }

  lemma {:induction false} QuotientIs(q: nat, r: nat, b: int)
    requires r < b
    ensures Div(q * b + r, b) == q
  {
    if q > 0 {
      assert q * b + r - b == (q - 1) * b + r;
      QuotientIs(q - 1, r, b);
    }
  }

  /** Euclidean quotient and remainder are determined by the shape of the dividend. */
  lemma EuclidIs(a: int, q: int, r: int, m: int)
    requires 0 <= r < m && a == m * q + r
    ensures a / m == q && a % m == r
  {
    var d := a / m - q;
    assert m * d == r - a % m;
    assert d >= 1 ==> m * d >= m;
    assert d <= -1 ==> m * d <= -m;
  }

  /** On the natural numbers truncation and the Euclidean operators agree. */
  lemma OnNat(a: nat, b: int)
    requires b > 0
    ensures Div(a, b) == a / b && Mod(a, b) == a % b
  {
    assert a == (a / b) * b + a % b;
    QuotientIs(a / b, a % b, b);
  }
}
