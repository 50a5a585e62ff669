/** Loss versus rebalancing: its closed form in square-root prices, its sign, and its growth. */
module OverlayLvr {
  import opened Reals
  import opened Overlay
  import opened OverlayRules
  import opened OverlayBounds

  /** The tick's `s` is the square root of its price. Only this module uses it. */
  predicate IsRoot(t: Tick) {
    t.p == t.s * t.s
  }

  /** The dollar value of a range of the given depth. */
  function ValueOf(depth: real, t: Tick, sa: real, sb: real): real {
    depth * UnitEth(t.s, sa, sb) * t.p + depth * UnitUsd(t.s, sa, sb)
  }

  /** What one move costs the range against a portfolio that holds the same ETH and trades at the
      external price. */
  function Lvr(depth: real, sa: real, sb: real, m: Tick, t: Tick): real {
    depth * UnitEth(m.s, sa, sb) * (t.p - m.p) - (ValueOf(depth, t, sa, sb) - ValueOf(depth, m, sa, sb))
  }

  lemma ClampBounds(s: real, sa: real, sb: real)
    requires 0.0 < sa < sb
    ensures sa <= Clamp(s, sa, sb) <= sb
    ensures Clamp(s, sa, sb) > sa ==> Clamp(s, sa, sb) <= s
    ensures Clamp(s, sa, sb) < sb ==> s <= Clamp(s, sa, sb)
    ensures sa <= s <= sb ==> Clamp(s, sa, sb) == s
  {
  }

  // ---- the closed form ----

  /** `u` is one over `c`. */
  ghost predicate Recip(u: real, c: real) {
    u * c == 1.0
  }

  /** `x` is the loss of one unit of liquidity when the clamped root moves from `c0` to `c1` and the
      price ends at `p`: (c1 - c0) * (p / (c0 * c1) - 1). */
  ghost predicate UnitLoss(x: real, c0: real, c1: real, p: real) {
    forall u0, u1 :: Recip(u0, c0) && Recip(u1, c1) ==> x == (c1 - c0) * (u0 * u1 * p - 1.0)
  }

  lemma RecipUnique(u: real, v: real, c: real)
    requires Recip(u, c) && Recip(v, c)
    ensures u == v
  {
    assert u * (v * c) == v * (u * c);
  }

  lemma HasRecip(c: real) returns (u: real)
    requires 0.0 < c
    ensures Recip(u, c) && u == 1.0 / c && 0.0 < u
  {
    u := 1.0 / c;
    DivMul(1.0, c);
    RecipMono(c, c);
  }

  lemma UnitLossFrom(x: real, c0: real, c1: real, p: real, u0: real, u1: real)
    requires Recip(u0, c0) && Recip(u1, c1) && x == (c1 - c0) * (u0 * u1 * p - 1.0)
    ensures UnitLoss(x, c0, c1, p)
  {
    forall v0, v1 | Recip(v0, c0) && Recip(v1, c1) ensures x == (c1 - c0) * (v0 * v1 * p - 1.0) {
      RecipUnique(u0, v0, c0);
      RecipUnique(u1, v1, c1);
    }
  }

  lemma UnitLossOf(c0: real, c1: real, p: real) returns (x: real)
    requires 0.0 < c0 && 0.0 < c1
    ensures UnitLoss(x, c0, c1, p)
  {
    var u0 := HasRecip(c0);
    var u1 := HasRecip(c1);
    x := (c1 - c0) * (u0 * u1 * p - 1.0);
    UnitLossFrom(x, c0, c1, p, u0, u1);
  }

  lemma LvrAlgebra(L: real, p0: real, p1: real, c0: real, c1: real, u0: real, u1: real, ub: real, sa: real)
    requires u0 * c0 == 1.0 && u1 * c1 == 1.0
    ensures (L * (u0 - ub)) * (p1 - p0)
      - (((L * (u1 - ub)) * p1 + L * (c1 - sa)) - ((L * (u0 - ub)) * p0 + L * (c0 - sa)))
      == L * ((c1 - c0) * (u0 * u1 * p1 - 1.0))
  {
    var lhs := (L * (u0 - ub)) * (p1 - p0)
      - (((L * (u1 - ub)) * p1 + L * (c1 - sa)) - ((L * (u0 - ub)) * p0 + L * (c0 - sa)));
    assert lhs == L * ((u0 - u1) * p1 - (c1 - c0));
    assert (c1 - c0) * (u0 * u1) == u0 - u1 by {
      assert (c1 - c0) * (u0 * u1) == u0 * (u1 * c1) - u1 * (u0 * c0);
    }
    assert (c1 - c0) * (u0 * u1 * p1) == (u0 - u1) * p1 by {
      assert (c1 - c0) * (u0 * u1 * p1) == ((c1 - c0) * (u0 * u1)) * p1;
    }
  }

  lemma LvrExpands(depth: real, sa: real, sb: real, m: Tick, t: Tick, u0: real, u1: real, x: real)
    requires 0.0 < sa < sb
    requires var c0, c1 := Clamp(m.s, sa, sb), Clamp(t.s, sa, sb);
      u0 == 1.0 / c0 && u1 == 1.0 / c1 && Recip(u0, c0) && Recip(u1, c1)
      && x == (c1 - c0) * (u0 * u1 * t.p - 1.0)
    ensures Lvr(depth, sa, sb, m, t) == depth * x
  {
    LvrAlgebra(depth, m.p, t.p, Clamp(m.s, sa, sb), Clamp(t.s, sa, sb), u0, u1, 1.0 / sb, sa);
  }

  lemma LvrIsUnitLoss(depth: real, sa: real, sb: real, m: Tick, t: Tick, x: real)
    requires 0.0 < sa < sb && UnitLoss(x, Clamp(m.s, sa, sb), Clamp(t.s, sa, sb), t.p)
    ensures Lvr(depth, sa, sb, m, t) == depth * x
  {
    var u0 := HasRecip(Clamp(m.s, sa, sb));
    var u1 := HasRecip(Clamp(t.s, sa, sb));
    LvrExpands(depth, sa, sb, m, t, u0, u1, x);
  }

  /** The closed form, in every region: inside, entering, leaving or jumping over the band. */
  lemma LvrClosedForm(depth: real, sa: real, sb: real, m: Tick, t: Tick) returns (x: real)
    requires 0.0 < sa < sb
    ensures Lvr(depth, sa, sb, m, t) == depth * x
    ensures UnitLoss(x, Clamp(m.s, sa, sb), Clamp(t.s, sa, sb), t.p)
  {
    ClampBounds(m.s, sa, sb);
    ClampBounds(t.s, sa, sb);
    x := UnitLossOf(Clamp(m.s, sa, sb), Clamp(t.s, sa, sb), t.p);
    LvrIsUnitLoss(depth, sa, sb, m, t, x);
  }

  // ---- inside the band ----

  lemma InsideAlgebra(a: real, b: real, u: real, v: real, p: real, x: real)
    requires Recip(u, a) && Recip(v, b) && p == b * b && x == (b - a) * (u * v * p - 1.0)
    ensures x * a == (b - a) * (b - a)
  {
    assert u * v * (b * b) == (u * b) * (v * b);
    assert x == (b - a) * (u * b - 1.0);
    assert x * a == (b - a) * ((u * a) * b - a);
  }

  lemma UnitLossInside(x: real, sa: real, sb: real, m: Tick, t: Tick)
    requires 0.0 < sa < sb && IsRoot(t) && sa <= m.s <= sb && sa <= t.s <= sb
    requires UnitLoss(x, Clamp(m.s, sa, sb), Clamp(t.s, sa, sb), t.p)
    ensures x * m.s == (t.s - m.s) * (t.s - m.s)
  {
    ClampBounds(m.s, sa, sb);
    ClampBounds(t.s, sa, sb);
    var u := HasRecip(m.s);
    var v := HasRecip(t.s);
    InsideAlgebra(m.s, t.s, u, v, t.p, x);
  }

  /** Inside the band a move costs depth * (s1 - s0)^2 / s0. */
  lemma LvrInside(depth: real, sa: real, sb: real, m: Tick, t: Tick) returns (x: real)
    requires 0.0 < sa < sb && IsRoot(t) && sa <= m.s <= sb && sa <= t.s <= sb
    ensures x * m.s == (t.s - m.s) * (t.s - m.s)
    ensures Lvr(depth, sa, sb, m, t) == depth * x
  {
    x := LvrClosedForm(depth, sa, sb, m, t);
    UnitLossInside(x, sa, sb, m, t);
  }

  // ---- the sign ----

  lemma SquareAbove(s: real, c0: real, c1: real)
    requires 0.0 < c0 < c1 <= s
    ensures c0 * c1 < s * s
  {
    MulStrict(c1, c0, c1);
    MulMono(c1, c1, s);
    MulMono(s, c1, s);
  }

  lemma SquareBelow(s: real, c0: real, c1: real)
    requires 0.0 < s <= c1 < c0
    ensures s * s < c0 * c1
  {
    MulStrict(c1, c1, c0);
    MulMono(c1, s, c1);
    MulMono(s, s, c1);
  }

  lemma Scaled(w: real, x: real, y: real, z: real)
    requires 0.0 < w && w * y == z
    ensures y < x ==> w * x > z
    ensures x < y ==> w * x < z
  {
    if y < x { assert w * (x - y) > 0.0; }
    if x < y { assert w * (y - x) > 0.0; }
  }

  lemma Recips(c0: real, c1: real, u0: real, u1: real)
    requires 0.0 < u0 && 0.0 < u1 && Recip(u0, c0) && Recip(u1, c1)
    ensures 0.0 < u0 * u1 && (u0 * u1) * (c0 * c1) == 1.0
  {
    MulPos(u0, u1);
    assert (u0 * u1) * (c0 * c1) == (u0 * c0) * (u1 * c1);
  }

  lemma SignedProduct(d: real, z: real, x: real)
    requires x == d * z && (d > 0.0 ==> z > 0.0) && (d < 0.0 ==> z < 0.0)
    ensures x >= 0.0 && (x > 0.0 <==> d != 0.0)
  {
    if d > 0.0 { MulPos(d, z); }
    else if d < 0.0 {
      MulPos(-d, -z);
      assert (-d) * (-z) == d * z;
    }
  }

  /** The factor p / (c0 c1) - 1 has the sign of the move. */
  lemma FactorSign(s: real, p: real, c0: real, c1: real, u0: real, u1: real, z: real)
    requires 0.0 < c0 && 0.0 < c1 && 0.0 < s && p == s * s && (c0 < c1 ==> c1 <= s) && (c1 < c0 ==> s <= c1)
    requires 0.0 < u0 && 0.0 < u1 && Recip(u0, c0) && Recip(u1, c1) && z == u0 * u1 * p - 1.0
    ensures (c0 < c1 ==> z > 0.0) && (c1 < c0 ==> z < 0.0)
  {
    Recips(c0, c1, u0, u1);
    Scaled(u0 * u1, p, c0 * c1, 1.0);
    if c0 < c1 { SquareAbove(s, c0, c1); }
    if c1 < c0 { SquareBelow(s, c0, c1); }
  }

  /** The loss of one unit is never negative, and positive exactly when the clamped price moved. */
  lemma UnitLossSign(x: real, s: real, p: real, c0: real, sa: real, sb: real)
    requires 0.0 < sa < sb && sa <= c0 <= sb && 0.0 < s && p == s * s
    requires UnitLoss(x, c0, Clamp(s, sa, sb), p)
    ensures x >= 0.0 && (x > 0.0 <==> c0 != Clamp(s, sa, sb))
  {
    var c1 := Clamp(s, sa, sb);
    ClampBounds(s, sa, sb);
    var u0 := HasRecip(c0);
    var u1 := HasRecip(c1);
    var z := u0 * u1 * p - 1.0;
    FactorSign(s, p, c0, c1, u0, u1, z);
    SignedProduct(c1 - c0, z, x);
  }

  lemma ProductSign(d: real, x: real, y: real)
    requires 0.0 <= d && 0.0 <= x && y == d * x
    ensures y >= 0.0 && (y > 0.0 <==> d > 0.0 && x > 0.0)
  {
    MulNonNeg(d, x);
    if d > 0.0 && x > 0.0 { MulPos(d, x); }
  }

  lemma UnitLossAt(x: real, sa: real, sb: real, m: Tick, t: Tick)
    requires 0.0 < sa < sb && 0.0 < t.s && IsRoot(t)
    requires UnitLoss(x, Clamp(m.s, sa, sb), Clamp(t.s, sa, sb), t.p)
    ensures x >= 0.0 && (x > 0.0 <==> Clamp(m.s, sa, sb) != Clamp(t.s, sa, sb))
  {
    ClampBounds(m.s, sa, sb);
    UnitLossSign(x, t.s, t.p, Clamp(m.s, sa, sb), sa, sb);
  }

  /** The loss of a move is never negative, and it is positive exactly when there is depth in the
      range and the price moved inside, into, out of or across the band. */
  lemma LvrSign(depth: real, sa: real, sb: real, m: Tick, t: Tick)
    requires 0.0 < sa < sb && 0.0 < t.s && IsRoot(t) && depth >= 0.0
    ensures Lvr(depth, sa, sb, m, t) >= 0.0
    ensures Lvr(depth, sa, sb, m, t) > 0.0 <==> depth > 0.0 && Clamp(m.s, sa, sb) != Clamp(t.s, sa, sb)
  {
    var x := LvrClosedForm(depth, sa, sb, m, t);
    UnitLossAt(x, sa, sb, m, t);
    ProductSign(depth, x, Lvr(depth, sa, sb, m, t));
  }

  // ---- over a walk ----

  function LvrAt(o: Options, ticks: seq<Tick>, n: nat): real
    requires o.dt != 0.0 && ValidPath(ticks) && 0 < n < |ticks|
  {
    var st := After(o, ticks, n - 1);
    if st.dead != 0.0 then 0.0 else Lvr(st.depth, st.sa, st.sb, ticks[n - 1], ticks[n])
  }

  /** `lvrUsd`, the running total. */
  function LvrTotal(o: Options, ticks: seq<Tick>, n: nat): real
    requires o.dt != 0.0 && ValidPath(ticks) && n < |ticks|
  {
    if n == 0 then 0.0 else LvrTotal(o, ticks, n - 1) + LvrAt(o, ticks, n)
  }

  lemma LvrAtNonNeg(o: Options, ticks: seq<Tick>, n: nat)
    requires ValidOptions(o) && ValidPath(ticks) && 0 < n < |ticks| && IsRoot(ticks[n])
    ensures LvrAt(o, ticks, n) >= 0.0
  {
    WalkSane(o, ticks, n - 1);
    var st := After(o, ticks, n - 1);
    LvrSign(st.depth, st.sa, st.sb, ticks[n - 1], ticks[n]);
  }

  /** Along every path the total never decreases. */
  lemma {:induction false} LvrGrows(o: Options, ticks: seq<Tick>, i: nat, j: nat)
    requires ValidOptions(o) && ValidPath(ticks) && i <= j < |ticks|
    requires forall k :: 0 <= k < |ticks| ==> IsRoot(ticks[k])
    ensures LvrTotal(o, ticks, i) <= LvrTotal(o, ticks, j)
    decreases j
  {
    if i < j {
      LvrGrows(o, ticks, i, j - 1);
      LvrAtNonNeg(o, ticks, j);
    }
  }
}
