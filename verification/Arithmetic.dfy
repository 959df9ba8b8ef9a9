/** Products, squares and quotients of integers. */
module Arithmetic {
  lemma Products(a: nat, b: nat, c: nat)
    ensures 0 <= a * b && (a <= c ==> a * b <= c * b)
  {
    if a <= c { assert c * b == a * b + (c - a) * b; }
  }

  lemma Distribute(a: int, b: int, c: int)
    ensures (a + b) * c == a * c + b * c && c * (a + b) == c * a + c * b
  {}

  lemma SquaresGrow(a: int, b: int)
    requires 0 <= a && 0 <= b
    ensures a <= b <==> a * a <= b * b
    ensures a < b <==> a * a < b * b
  {
    if a <= b { assert a * a <= a * b <= b * b; }
    if a < b { assert a * a <= a * b < b * b; }
    if b < a { assert b * b <= a * b < a * a; }
    if b <= a { assert b * b <= a * b <= a * a; }
  }

  lemma MulOrder(a: int, b: int, d: int)
    requires d > 0
    ensures a < b <==> a * d < b * d
    ensures a <= b <==> a * d <= b * d
  {
    assert (b - a) * d == b * d - a * d;
    assert b - a > 0 ==> (b - a) * d > 0;
    assert b - a < 0 ==> (b - a) * d < 0;
  }

  /** `q` is the quotient exactly when `numerator` lies between its multiple and the next. */
  lemma {:induction false} QuotientIs(numerator: int, d: int, bound: int)
    requires d > 0 && 0 <= numerator
    ensures numerator < (bound + 1) * d <==> numerator / d <= bound
    ensures bound * d <= numerator <==> bound <= numerator / d
  {
    var q := numerator / d;
    assert q * d <= numerator < q * d + d;
    assert (q + 1) * d == q * d + d;
    MulOrder(q, bound + 1, d);
    MulOrder(bound, q + 1, d);
    MulOrder(bound, q, d);
    MulOrder(q + 1, bound + 1, d);
  }
}
