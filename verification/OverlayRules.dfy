/** The formulas the simulation ships: concentrated-range amounts, the fee, the theta throttle and
    the impermanent-loss target; and that they are rules the walk accepts. */
module OverlayRules {
  import opened Wrappers
  import opened Reals
  import opened Overlay

  datatype Params = Params(k: real, fee: real, turnover: real, dt: real, theta: Option<real>, staticBuffer: bool)

  const CAP: real := 0.75
  const DUST: real := 0.000_000_000_001

  predicate ValidParams(prm: Params) {
    0.0 < prm.k && 0.0 <= prm.fee && 0.0 <= prm.turnover && 0.0 < prm.dt
  }

  function Clamp(s: real, sa: real, sb: real): real {
    Max(sa, Min(s, sb))
  }

  /** `amts(...).eth` of one unit of liquidity: zero outside a proper range. */
  function UnitEth(s: real, sa: real, sb: real): real {
    if 0.0 < sa < sb then 1.0 / Clamp(s, sa, sb) - 1.0 / sb else 0.0
  }

  /** `amts(...).usd` of one unit of liquidity. */
  function UnitUsd(s: real, sa: real, sb: real): real {
    Clamp(s, sa, sb) - sa
  }

  /** Fees scale with the gross depth of the position, capped at ten times. */
  function GrossMultiple(prm: Params, x: FeeInput): real {
    if x.ethNow > DUST then Min(10.0, (x.ethNow + (if prm.staticBuffer then 0.0 else x.buffer)) / x.ethNow) else 1.0
  }

  /** One over the relative width of the range. */
  function Concentration(x: FeeInput): real
    requires x.p != 0.0
  {
    var halfWidth := (x.sb * x.sb - x.sa * x.sa) / x.p / 2.0;
    if halfWidth > 0.0 then 1.0 / halfWidth / 2.0 else 1.0
  }

  /** Path volume on gross depth, and noise turnover on the position while in range. */
  function Fee(prm: Params, x: FeeInput): real {
    if x.p == 0.0 then 0.0
    else
      prm.fee * (Abs(x.ethNow - x.ethPrev) * x.p) * GrossMultiple(prm, x) / 2.0
      + (if x.sa <= x.s <= x.sb then prm.fee * prm.turnover * x.position * prm.dt * Concentration(x) else 0.0)
  }

  /** theta = fee yield over K sigma^2, at most one; it fails open. */
  function Throttle(prm: Params, theta: real, feeYield: real, variance: real): real {
    if prm.theta.Some? then theta
    else
      var work := prm.k * variance;
      if variance == 0.0 || work == 0.0 || feeYield == 0.0 then 1.0 else Min(1.0, feeYield / work)
  }

  /** `1 - sqrt(entry / price)` written in roots, capped, and zero at or below entry. */
  function IlTarget(entry: real, s: real): real
    requires 0.0 < s
  {
    if s <= entry then 0.0 else Min(1.0 - entry / s, CAP)
  }

  function Shipped(prm: Params): Rules {
    Rules(
      (s: real, sa: real, sb: real) => UnitEth(s, sa, sb),
      (x: FeeInput) => Fee(prm, x),
      (th: real, y: real, v: real) => Throttle(prm, th, y, v),
      (e: real, s: real) => if 0.0 < s then IlTarget(e, s) else 0.0)
  }

  /** The ETH leg is never negative, and vanishes exactly at or above the upper bound. */
  lemma UnitEthSign(s: real, sa: real, sb: real)
    requires 0.0 < sa < sb
    ensures UnitEth(s, sa, sb) >= 0.0
    ensures UnitEth(s, sa, sb) > 0.0 <==> s < sb
  {
    RecipMono(Clamp(s, sa, sb), sb);
  }

  lemma Product3(a: real, b: real, c: real)
    requires 0.0 <= a && 0.0 <= b && 0.0 <= c
    ensures 0.0 <= a * b * c
  {
    MulNonNeg(a, b);
    MulNonNeg(a * b, c);
  }

  lemma GrossNonNeg(prm: Params, x: FeeInput)
    requires SoundInput(x)
    ensures GrossMultiple(prm, x) >= 0.0
  {
    if x.ethNow > DUST {
      DivNonNeg(x.ethNow + (if prm.staticBuffer then 0.0 else x.buffer), x.ethNow);
    }
  }

  lemma ConcentrationNonNeg(x: FeeInput)
    requires x.p != 0.0
    ensures Concentration(x) >= 0.0
  {
    var halfWidth := (x.sb * x.sb - x.sa * x.sa) / x.p / 2.0;
    if halfWidth > 0.0 { RecipMono(halfWidth, halfWidth); }
  }

  lemma FeeNonNeg(prm: Params, x: FeeInput)
    requires ValidParams(prm) && SoundInput(x)
    ensures Fee(prm, x) >= 0.0
  {
    MulNonNeg(Abs(x.ethNow - x.ethPrev), x.p);
    GrossNonNeg(prm, x);
    ConcentrationNonNeg(x);
    Product3(prm.fee, Abs(x.ethNow - x.ethPrev) * x.p, GrossMultiple(prm, x));
    Product3(prm.fee, prm.turnover, x.position);
    Product3(prm.fee * prm.turnover * x.position, prm.dt, Concentration(x));
  }

  lemma ThrottleIsAFraction(prm: Params, theta: real, y: real, v: real)
    requires ValidParams(prm) && 0.0 <= theta <= 1.0 && 0.0 <= y && 0.0 <= v
    ensures 0.0 <= Throttle(prm, theta, y, v) <= 1.0
  {
    MulNonNeg(prm.k, v);
    if prm.k * v > 0.0 { DivNonNeg(y, prm.k * v); }
  }

  /** The shipped formulas meet everything the walk relies on. */
  lemma ShippedIsValid(prm: Params)
    requires ValidParams(prm)
    ensures ValidRules(Shipped(prm))
  {
    var g := Shipped(prm);
    forall s, sa, sb | 0.0 < sa < sb
      ensures g.unit(s, sa, sb) >= 0.0 && (g.unit(s, sa, sb) > 0.0 <==> s < sb)
    {
      UnitEthSign(s, sa, sb);
    }
    forall th, y, v | 0.0 <= th <= 1.0 && 0.0 <= y && 0.0 <= v ensures 0.0 <= g.theta(th, y, v) <= 1.0 {
      ThrottleIsAFraction(prm, th, y, v);
    }
    forall e, s | 0.0 < e && 0.0 < s ensures 0.0 <= g.target(e, s) <= 0.75 {
      DivBelow(e, s, 1.0);
    }
    forall x | SoundInput(x) ensures g.fee(x) >= 0.0 {
      FeeNonNeg(prm, x);
    }
  }
}
