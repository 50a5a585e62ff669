/** The replay of a range position in exact integers: amounts and liquidity with floors, and the
    re-centring step. The floored product-quotient is a parameter, so that the error bound rests
    only on its being a floor; `MulDivFloor` is the one the replay computes with. The bounds of a
    day's range come with the day, since they need a float root. */
module Replay {
  import opened Reals

  const Q: nat := 0x1_0000_0000_0000_0000_0000_0000
  const E18: nat := 1_000_000_000_000_000_000

  /** `a * b // d`. */
  type MulDiv = (nat, nat, nat) -> nat

  function MulDivFloor(a: nat, b: nat, d: nat): nat {
    if d == 0 then 0 else a * b / d
  }

  datatype Amounts = Amounts(a0: nat, a1: nat)

  datatype Range = Range(lo: nat, hi: nat)

  predicate ValidRange(range: Range) {
    0 < range.lo < range.hi
  }

  /** Token amounts of `liq` at root `sP`: one-sided outside the range. */
  function AmountsOf(md: MulDiv, liq: nat, sP: nat, range: Range): Amounts
    requires ValidRange(range)
  {
    var (sL, sU) := (range.lo, range.hi);
    if sP <= sL then Amounts(md(liq, (sU - sL) * Q, sL * sU), 0)
    else if sP >= sU then Amounts(0, md(liq, sU - sL, Q))
    else Amounts(md(liq, (sU - sP) * Q, sP * sU), md(liq, sP - sL, Q))
  }

  /** Both legs in units of the first, `rate` being the price of the second times 1e18. */
  function ValueOf(md: MulDiv, a: Amounts, rate: nat): nat {
    a.a0 + md(a.a1, rate, E18)
  }

  function PositionValue(md: MulDiv, liq: nat, sP: nat, range: Range, rate: nat): nat
    requires ValidRange(range)
  {
    ValueOf(md, AmountsOf(md, liq, sP, range), rate)
  }

  /** The liquidity a value buys. */
  function LiquidityFor(md: MulDiv, value: nat, sP: nat, range: Range, rate: nat): nat
    requires ValidRange(range)
  {
    var per := PositionValue(md, E18, sP, range, rate);
    if per == 0 then 0 else md(E18, value, per)
  }

  // ---- floors as reals ----

  ghost predicate Bracketed(x: real, y: real) {
    x <= y <= x + 1.0
  }

  ghost predicate FloorAt(md: MulDiv, a: nat, b: nat, d: nat)
    requires 0 < d
  {
    Bracketed(md(a, b, d) as real, a as real * (b as real / d as real))
  }

  ghost predicate Floors(md: MulDiv) {
    forall a: nat, b: nat, d: nat | 0 < d :: FloorAt(md, a, b, d)
  }

  lemma {:induction false} ProductAsReal(a: nat, b: nat)
    ensures (a * b) as real == a as real * b as real
  {
    if a > 0 {
      ProductAsReal(a - 1, b);
      assert a * b == (a - 1) * b + b;
      assert a as real * b as real == (a - 1) as real * b as real + b as real;
    }
  }

  /** The replay's integer quotient is a floor. */
  lemma MulDivFloors()
    ensures Floors(MulDivFloor)
  {
    forall a: nat, b: nat, d: nat | 0 < d
      ensures FloorAt(MulDivFloor, a, b, d)
    {
      var q := a * b / d;
      var r := a * b % d;
      assert a * b == q * d + r;
      ProductAsReal(a, b);
      ProductAsReal(q, d);
      DivMul(b as real, d as real);
      FloorAlgebra(q as real, d as real, a as real, b as real, b as real / d as real, r as real);
    }
  }

  lemma FloorAlgebra(q: real, d: real, a: real, b: real, c: real, r: real)
    requires 0.0 < d && 0.0 <= r < d && c * d == b && a * b == q * d + r
    ensures Bracketed(q, a * c)
  {
    assert (a * c) * d == q * d + r by { assert (a * c) * d == a * (c * d); }
    QuotientBelow(a * c, q * d + r, d, q);
    QuotientBelow(a * c, q * d + r, d, q + 1.0);
    assert (q + 1.0) * d == q * d + d;
  }

  // ---- the error bound, on numbers ----

  /** A floored leg priced at `r` and floored again. */
  lemma TwoFloors(x: real, r: real, a: real, f: real)
    requires 0.0 <= r && Bracketed(a, x) && Bracketed(f, a * r)
    ensures f <= x * r && x * r <= f + 1.0 + r
  {
    var d := x - a;
    assert x * r == a * r + d * r;
    MulNonNeg(d, r);
    MulNonNeg(1.0 - d, r);
    assert (1.0 - d) * r == r - d * r;
  }

  lemma UpperBound(e: real, w: real, per: real, liq: real, v: real, v': real, slack: real)
    requires 0.0 < per && 0.0 <= v && liq * per <= e * v && v' <= liq * w && e * w <= per + slack && 0.0 <= w
    ensures v' * per <= v * per + v * slack
  {
    MulMono(per, v', liq * w);
    assert (liq * w) * per == (liq * per) * w;
    MulMono(w, liq * per, e * v);
    assert (e * v) * w == v * (e * w);
    MulMono(v, e * w, per + slack);
    assert v * (per + slack) == v * per + v * slack;
  }

  lemma LowerBound(e: real, w: real, per: real, liq: real, v: real, v': real, slack: real)
    requires 0.0 < per && 0.0 < e && 0.0 <= liq && e * v <= (liq + 1.0) * per && per <= e * w && liq * w - slack <= v'
    ensures v - w - slack <= v'
  {
    MulMono(liq + 1.0, per, e * w);
    assert (liq + 1.0) * (e * w) == e * ((liq + 1.0) * w);
    if v > (liq + 1.0) * w { MulStrict(e, (liq + 1.0) * w, v); }
    assert (liq + 1.0) * w == liq * w + w;
  }

  lemma WorthNonNeg(e: real, w: real, per: real)
    requires 0.0 < e && 0.0 < per <= e * w
    ensures 0.0 <= w
  {
    if w < 0.0 { MulStrict(e, w, 0.0); }
  }

  lemma WorthAlgebra(liq: real, c0: real, c1: real, r: real)
    ensures liq * (c0 + c1 * r) == liq * c0 + (liq * c1) * r
  {
  }

  /** A floored quotient, multiplied back. */
  lemma FloorTimes(e: real, v: real, per: real, liq: real)
    requires 0.0 < per && Bracketed(liq, e * (v / per))
    ensures liq * per <= e * v && e * v <= (liq + 1.0) * per
  {
    var q := v / per;
    DivMul(v, per);
    assert (e * q) * per == e * v by { assert (e * q) * per == e * (q * per); }
    QuotientBelow(e * q, e * v, per, liq + 1.0);
    MulMono(per, liq, e * q);
  }

  // ---- the error bound ----

  ghost function Ratio(n: nat, d: nat): real {
    if d == 0 then 0.0 else n as real / d as real
  }

  lemma RatioNonNeg(n: nat, d: nat)
    ensures 0.0 <= Ratio(n, d)
  {
    if d > 0 { DivNonNeg(n as real, d as real); }
  }

  /** The exact amounts per unit of liquidity, as two fractions. */
  datatype Unit = Unit(n0: nat, d0: nat, n1: nat, d1: nat)

  predicate ValidUnit(u: Unit) {
    0 < u.d0 && 0 < u.d1
  }

  function UnitOf(sP: nat, range: Range): Unit
    requires ValidRange(range)
  {
    var (sL, sU) := (range.lo, range.hi);
    if sP <= sL then Unit((sU - sL) * Q, sL * sU, 0, 1)
    else if sP >= sU then Unit(0, 1, sU - sL, Q)
    else Unit((sU - sP) * Q, sP * sU, sP - sL, Q)
  }

  lemma UnitOfIsValid(sP: nat, range: Range)
    requires ValidRange(range)
    ensures ValidUnit(UnitOf(sP, range))
  {
  }

  function Shares(md: MulDiv, liq: nat, u: Unit): Amounts {
    Amounts(md(liq, u.n0, u.d0), md(liq, u.n1, u.d1))
  }

  /** The exact worth of one unit of liquidity. */
  ghost function Worth(u: Unit, rate: nat): real {
    Ratio(u.n0, u.d0) + Ratio(u.n1, u.d1) * Ratio(rate, E18)
  }

  /** What the floors of one valuation can lose. */
  ghost function Slack(rate: nat): real {
    2.0 + Ratio(rate, E18)
  }

  lemma FloorsHere(md: MulDiv, a: nat, b: nat, d: nat)
    requires Floors(md) && 0 < d
    ensures Bracketed(md(a, b, d) as real, a as real * Ratio(b, d))
  {
    assert FloorAt(md, a, b, d);
  }

  lemma LegsBracketed(liq: real, c0: real, c1: real, r: real, a0: real, a1: real, f1: real)
    requires 0.0 <= r && Bracketed(a0, liq * c0) && Bracketed(a1, liq * c1) && Bracketed(f1, a1 * r)
    ensures a0 + f1 <= liq * (c0 + c1 * r)
    ensures liq * (c0 + c1 * r) <= a0 + f1 + (2.0 + r)
  {
    TwoFloors(liq * c1, r, a1, f1);
    WorthAlgebra(liq, c0, c1, r);
  }

  /** The floored value of a position is within 2 + r below its exact worth. */
  lemma ValueBracketed(md: MulDiv, liq: nat, u: Unit, rate: nat)
    requires Floors(md) && ValidUnit(u)
    ensures var v, x := ValueOf(md, Shares(md, liq, u), rate) as real, liq as real * Worth(u, rate);
      v <= x && x <= v + Slack(rate)
  {
    var a := Shares(md, liq, u);
    FloorsHere(md, liq, u.n0, u.d0);
    FloorsHere(md, liq, u.n1, u.d1);
    FloorsHere(md, a.a1, rate, E18);
    RatioNonNeg(rate, E18);
    LegsBracketed(liq as real, Ratio(u.n0, u.d0), Ratio(u.n1, u.d1), Ratio(rate, E18),
                  a.a0 as real, a.a1 as real, md(a.a1, rate, E18) as real);
  }

  /** Re-depositing `value` and reading it back, on numbers. */
  lemma RoundTripBounds(e: real, v: real, per: real, liq: real, w: real, v': real, slack: real)
    requires 0.0 < e && 0.0 <= v && 0.0 < per && 0.0 <= liq
    requires Bracketed(liq, e * (v / per))
    requires per <= e * w && e * w <= per + slack
    requires v' <= liq * w && liq * w <= v' + slack
    ensures v' * per <= v * per + v * slack
    ensures v - w - slack <= v'
  {
    FloorTimes(e, v, per, liq);
    WorthNonNeg(e, w, per);
    UpperBound(e, w, per, liq, v, v', slack);
    LowerBound(e, w, per, liq, v, v', slack);
  }

  ghost predicate Near(v: nat, liq: nat, w: real, slack: real) {
    v as real <= liq as real * w && liq as real * w <= v as real + slack
  }

  /** Every amount of liquidity is worth `w` a unit, less at most `slack` for the floors. */
  ghost predicate Priced(md: MulDiv, u: Unit, rate: nat, w: real, slack: real) {
    forall liq: nat :: Near(ValueOf(md, Shares(md, liq, u), rate), liq, w, slack)
  }

  lemma UnitIsPriced(md: MulDiv, u: Unit, rate: nat)
    requires Floors(md) && ValidUnit(u)
    ensures Priced(md, u, rate, Worth(u, rate), Slack(rate))
  {
    forall liq: nat
      ensures Near(ValueOf(md, Shares(md, liq, u), rate), liq, Worth(u, rate), Slack(rate))
    {
      ValueBracketed(md, liq, u, rate);
    }
  }

  /** `v` against the value `v'` read back: at most v slack / per more, and at most w + slack less. */
  ghost predicate RoundTrip(v: nat, v': nat, per: nat, w: real, slack: real) {
    v' as real * per as real <= v as real * per as real + v as real * slack && v as real - w - slack <= v' as real
  }

  lemma UnitRecentre(md: MulDiv, value: nat, u: Unit, rate: nat, w: real, slack: real)
    requires Floors(md) && Priced(md, u, rate, w, slack) && 0 < ValueOf(md, Shares(md, E18, u), rate)
    ensures var per := ValueOf(md, Shares(md, E18, u), rate);
      RoundTrip(value, ValueOf(md, Shares(md, md(E18, value, per), u), rate), per, w, slack)
  {
    var per := ValueOf(md, Shares(md, E18, u), rate);
    var liq := md(E18, value, per);
    var v' := ValueOf(md, Shares(md, liq, u), rate);
    assert Near(per, E18, w, slack);
    assert Near(v', liq, w, slack);
    assert FloorAt(md, E18, value, per);
    RoundTripBounds(E18 as real, value as real, per as real, liq as real, w, v' as real, slack);
  }

  /** Every region's amounts are shares of its unit; a missing leg is a share of nothing. */
  lemma AmountsAreShares(md: MulDiv, liq: nat, sP: nat, range: Range)
    requires Floors(md) && ValidRange(range)
    ensures AmountsOf(md, liq, sP, range) == Shares(md, liq, UnitOf(sP, range))
  {
    assert FloorAt(md, liq, 0, 1);
  }

  /** What re-depositing `value` at root `sP` is worth afterwards, against `value`. */
  ghost predicate Preserves(md: MulDiv, value: nat, sP: nat, range: Range, rate: nat)
    requires ValidRange(range)
  {
    var per := PositionValue(md, E18, sP, range, rate);
    var after := PositionValue(md, LiquidityFor(md, value, sP, range, rate), sP, range, rate);
    if per == 0 then after == 0
    else RoundTrip(value, after, per, Worth(UnitOf(sP, range), rate), Slack(rate))
  }

  /** Re-centring is value-preserving up to its floors, in all three price regions: re-depositing
      `value` and reading it back gives at most value (2 + r) / per more, and at most one unit's
      worth plus 2 + r less; with a worthless unit nothing is bought and nothing is held. */
  lemma RecentreBound(md: MulDiv, value: nat, sP: nat, range: Range, rate: nat)
    requires Floors(md) && ValidRange(range)
    ensures Preserves(md, value, sP, range, rate)
  {
    var u, liq := UnitOf(sP, range), LiquidityFor(md, value, sP, range, rate);
    UnitOfIsValid(sP, range);
    AmountsAreShares(md, E18, sP, range);
    AmountsAreShares(md, liq, sP, range);
    if ValueOf(md, Shares(md, E18, u), rate) == 0 {
      NothingHeld(md, u, rate);
    } else {
      UnitIsPriced(md, u, rate);
      UnitRecentre(md, value, u, rate, Worth(u, rate), Slack(rate));
    }
  }

  lemma NothingHeld(md: MulDiv, u: Unit, rate: nat)
    requires Floors(md) && ValidUnit(u)
    ensures ValueOf(md, Shares(md, 0, u), rate) == 0
  {
    FloorsHere(md, 0, u.n0, u.d0);
    FloorsHere(md, 0, u.n1, u.d1);
    FloorsHere(md, 0, rate, E18);
  }

  /** The bound for the replay's own integer arithmetic. */
  lemma ReplayPreserves(value: nat, sP: nat, range: Range, rate: nat)
    requires ValidRange(range)
    ensures Preserves(MulDivFloor, value, sP, range, rate)
  {
    MulDivFloors();
    RecentreBound(MulDivFloor, value, sP, range, rate);
  }
}
