/** The few facts about products and quotients of reals that the accounting proofs use. */
module Reals {

  function Min(a: real, b: real): real {
    if a < b then a else b
  }

  function Max(a: real, b: real): real {
    if a < b then b else a
  }

  function Abs(x: real): real {
    if x < 0.0 then -x else x
  }

  lemma MulPos(x: real, y: real)
    requires 0.0 < x && 0.0 < y
    ensures 0.0 < x * y
  {
  }

  lemma MulNonNeg(x: real, y: real)
    requires 0.0 <= x && 0.0 <= y
    ensures 0.0 <= x * y
  {
  }

  lemma MulMono(x: real, a: real, b: real)
    requires 0.0 <= x && a <= b
    ensures x * a <= x * b && a * x <= b * x
  {
    assert x * (b - a) >= 0.0;
  }

  lemma MulStrict(x: real, a: real, b: real)
    requires 0.0 < x && a < b
    ensures x * a < x * b && a * x < b * x
  {
    assert x * (b - a) > 0.0;
  }

  lemma DivMul(x: real, p: real)
    requires p != 0.0
    ensures (x / p) * p == x
  {
  }

  /** Comparing a quotient is comparing with a product. */
  lemma QuotientBelow(q: real, x: real, p: real, b: real)
    requires 0.0 < p && q * p == x
    ensures q < b <==> x < b * p
    ensures q <= b <==> x <= b * p
  {
    if q < b { assert (b - q) * p > 0.0; }
    if b < q { assert (q - b) * p > 0.0; }
    if b == q { assert x == b * p; }
  }

  lemma DivBelow(x: real, p: real, b: real)
    requires 0.0 < p
    ensures x / p < b <==> x < b * p
    ensures x / p <= b <==> x <= b * p
  {
    DivMul(x, p);
    QuotientBelow(x / p, x, p, b);
  }

  lemma DivNonNeg(x: real, p: real)
    requires 0.0 <= x && 0.0 < p
    ensures 0.0 <= x / p
  {
    DivBelow(x, p, 0.0);
  }

  /** Reciprocals reverse the order of positive numbers. */
  lemma RecipMono(a: real, b: real)
    requires 0.0 < a <= b
    ensures 0.0 < 1.0 / b <= 1.0 / a
    ensures a < b ==> 1.0 / b < 1.0 / a
  {
    var u, v := 1.0 / a, 1.0 / b;
    DivMul(1.0, a);
    DivMul(1.0, b);
    DivBelow(1.0, a, 0.0);
    DivBelow(1.0, b, 0.0);
    RecipGap(a, b, u, v);
  }

  lemma RecipGap(a: real, b: real, u: real, v: real)
    requires 0.0 < a <= b && 0.0 < u && 0.0 < v && u * a == 1.0 && v * b == 1.0
    ensures u - v == (b - a) * (u * v)
    ensures v <= u && (a < b ==> v < u)
  {
    assert (b - a) * (u * v) == u * (v * b) - v * (u * a);
    MulPos(u, v);
    MulNonNeg(b - a, u * v);
    if a < b { MulPos(b - a, u * v); }
  }
}
