/** What every state of every walk satisfies, and how far a live position can be levered. */
module OverlayBounds {
  import opened Reals
  import opened Overlay
  import opened OverlayLedger

  /** The run-wide invariant: the throttle is a fraction and nothing that must not be is negative. */
  predicate Sane(st: State) {
    && Shaped(st) && 0.0 <= st.theta <= 1.0 && 0.0 <= st.depth && 0.0 <= st.ewma
    && 0.0 <= st.buffer && 0.0 <= st.debt && 0.0 <= st.e0
  }

  lemma EarnedSane(o: Options, st: State, m: Tick, t: Tick)
    requires ValidOptions(o) && Sane(st) && ValidTick(t)
    ensures Sane(Earned(o, st, m, t))
  {
    var g := o.rules;
    MulNonNeg(st.depth, g.unit(t.s, st.sa, st.sb));
    var position, f := Position(g, st, t), FeeOf(g, st, m, t);
    if position > 0.0 {
      var x := FeeInput(EthNow(g, st, m), EthNow(g, st, t), st.buffer, position, st.sa, st.sb, t.p, t.s);
      assert SoundInput(x) && f == g.fee(x);
      DivNonNeg(f, o.dt);
      DivNonNeg(f / o.dt, position);
    }
  }

  lemma AccruedSane(o: Options, st: State, m: Tick, t: Tick)
    requires ValidOptions(o) && Sane(st) && ValidTick(t)
    ensures Sane(Accrued(o, st, m, t))
  {
    var st1 := Repriced(o.rules, st, m, t);
    EarnedSane(o, st1, m, t);
    var st3 := Staked(o, Earned(o, st1, m, t), t);
    MulNonNeg(o.borrow, st3.debt);
    MulNonNeg(o.borrow * st3.debt, o.dt);
  }

  lemma PlacedSane(g: Rules, st: State, t: Tick, theta: real, wealth: real)
    requires ValidRules(g) && Sane(st) && 0.0 <= theta <= 1.0 && 0.0 <= wealth
    ensures Sane(Placed(g, st, t, theta, wealth))
  {
    MulNonNeg(theta, wealth);
    if g.unit(t.s, st.sa, st.sb) > 0.0 { DivNonNeg(theta * wealth, g.unit(t.s, st.sa, st.sb)); }
  }

  lemma ResizedSane(o: Options, st: State, t: Tick)
    requires ValidOptions(o) && Sane(st) && ValidTick(t)
    ensures Sane(Resized(o, st, t))
  {
    if Resizes(o, st, t) {
      PlacedSane(o.rules, Recentred(o, st, t), t, NewTheta(o.rules, st, t), Max(0.0, RawWealth(o.rules, st, t)));
    }
  }

  lemma TargetNonNeg(o: Options, st: State, entry: real, t: Tick)
    requires ValidOptions(o) && 0.0 < entry && Sane(st) && ValidTick(t) && Collateral(o.rules, st, t) > 0.0
    ensures TargetDebt(o, st, entry, t) >= 0.0
  {
    MulNonNeg(o.rules.target(entry, t.s), st.e0);
    MulNonNeg(o.rules.target(entry, t.s) * st.e0, t.p);
  }

  lemma HedgedSane(o: Options, st: State, entry: real, t: Tick)
    requires 0.0 < entry
    requires ValidOptions(o) && Sane(st) && ValidTick(t)
    ensures Sane(Hedged(o, st, entry, t))
  {
    var st1 := Reseated(o.rules, st, t);
    if Rebalances(o, st1, entry, t) { TargetNonNeg(o, st1, entry, t); }
  }

  lemma StepSane(o: Options, entry: real, st: State, m: Tick, t: Tick)
    requires 0.0 < entry
    requires ValidOptions(o) && Sane(st) && ValidTick(t)
    ensures Sane(Step(o, entry, st, m, t))
  {
    if st.dead == 0.0 {
      AccruedSane(o, st, m, t);
      ResizedSane(o, Accrued(o, st, m, t), t);
      HedgedSane(o, Resized(o, Accrued(o, st, m, t), t), entry, t);
    }
  }

  lemma OpenedSane(o: Options, t: Tick)
    requires ValidOptions(o) && ValidTick(t)
    ensures Sane(Opened(o, t))
  {
    var q := o.equity / t.p;
    DivNonNeg(o.equity, t.p);
    DivMul(o.equity, t.p);
    var bare := State(o.theta, 0.0, t.lo, t.hi, 0.0, 0.0, 0.0, 0.0, q, 0.0, 0.0, 0, 0.0, 0.0, 0.0, 0.0, 0.0);
    PlacedSane(o.rules, bare, t, o.theta, q);
  }

  /** Every state of every walk is sane, liquidations included. */
  lemma {:induction false} WalkSane(o: Options, ticks: seq<Tick>, n: nat)
    requires ValidOptions(o) && ValidPath(ticks) && n < |ticks|
    ensures Sane(After(o, ticks, n))
  {
    if n == 0 {
      OpenedSane(o, ticks[0]);
    } else {
      WalkSane(o, ticks, n - 1);
      StepSane(o, ticks[0].s, After(o, ticks, n - 1), ticks[n - 1], ticks[n]);
    }
  }

  // ---- leverage ----

  lemma HealthyDebt(g: Rules, st: State, t: Tick)
    requires st.debt > 0.0 && !Liquidates(g, st, t)
    ensures Collateral(g, st, t) > 0.0 && st.debt < LLTV * Collateral(g, st, t)
  {
    DivBelow(st.debt, Collateral(g, st, t), LLTV);
  }

  /** Constant-2x: debt under the liquidation threshold, and under 25/32 right after a rebalance. */
  lemma HedgedTwoX(o: Options, st: State, entry: real, t: Tick)
    requires o.policy.ConstantTwoX? && t.p != 0.0 && st.debt > 0.0 && !Liquidates(o.rules, st, t)
    ensures var r := Hedged(o, st, entry, t);
      && 0.0 < r.debt < LLTV * Collateral(o.rules, r, t)
      && (Rebalances(o, Reseated(o.rules, st, t), entry, t) ==> r.debt < 0.78125 * Collateral(o.rules, r, t))
  {
    HealthyDebt(o.rules, st, t);
    var st1 := Reseated(o.rules, st, t);
    assert Collateral(o.rules, st1, t) == Collateral(o.rules, st, t);
    var st2 := Rebalanced(o, st1, entry, t);
    SquaredLedger(o, st2, t);
    if Rebalances(o, st1, entry, t) { MovedCollateral(o, st1, Collateral(o.rules, st1, t) / 2.0, t); }
  }

  /** On every path, a constant-2x walk that has not been liquidated holds debt below 0.86 of its collateral. */
  lemma {:induction false} TwoXStaysHealthy(o: Options, ticks: seq<Tick>, n: nat)
    requires ValidOptions(o) && o.policy.ConstantTwoX? && o.equity > 0.0
    requires ValidPath(ticks) && n < |ticks| && After(o, ticks, n).liq == 0
    ensures After(o, ticks, n).debt > 0.0
    ensures n > 0 ==> After(o, ticks, n).debt < LLTV * Collateral(o.rules, After(o, ticks, n), ticks[n])
  {
    if n == 0 {
      DivMul(o.equity, ticks[0].p);
    } else {
      AliveStep(o, ticks, n);
      TwoXStaysHealthy(o, ticks, n - 1);
      var st := After(o, ticks, n - 1);
      AccruedKeepsDebt(o, st, ticks[n - 1], ticks[n]);
      HedgedTwoX(o, Resized(o, Accrued(o, st, ticks[n - 1], ticks[n]), ticks[n]), ticks[0].s, ticks[n]);
    }
  }

  lemma AccruedKeepsDebt(o: Options, st: State, m: Tick, t: Tick)
    requires o.dt > 0.0 && o.borrow >= 0.0 && t.p != 0.0 && st.debt > 0.0
    ensures Resized(o, Accrued(o, st, m, t), t).debt > 0.0
  {
    MulNonNeg(o.borrow, st.debt);
    MulNonNeg(o.borrow * st.debt, o.dt);
  }

  lemma LtvAlgebra(coll: real, debt: real, e0: real, p: real, tau: real, target: real)
    requires e0 * p == coll - debt && target == tau * e0 * p
    ensures target * (1.0 + tau) == tau * (coll + (target - debt))
  {
    assert target == tau * (e0 * p);
    assert coll + (target - debt) == (e0 * p) * (1.0 + tau);
  }

  lemma LtvCap(target: real, tau: real, coll: real)
    requires 0.0 <= tau <= 0.75 && 0.0 <= coll && target * (1.0 + tau) == tau * coll
    ensures 7.0 * target <= 3.0 * coll
  {
    var over, x := 7.0 * target - 3.0 * coll, tau * coll;
    MulMono(coll, tau, 0.75);
    assert over * (1.0 + tau) == 7.0 * (target * (1.0 + tau)) - 3.0 * coll - 3.0 * x;
    assert over * (1.0 + tau) <= 0.0;
    if over > 0.0 { MulPos(over, 1.0 + tau); }
  }

  lemma NetEquity(held: real, q: real, p: real, debt: real)
    requires 0.0 < p && q * p == debt && debt < 0.86 * (held * p) && 0.0 < held * p
    ensures 0.0 < held - q && (held - q) * p == held * p - debt
  {
    assert (held - q) * p == held * p - debt;
    if held - q <= 0.0 { MulMono(p, held - q, 0.0); }
  }

  /** After a reseat of a healthy position, the entry equity is its net equity. */
  lemma ReseatedEquity(g: Rules, st: State, t: Tick)
    requires ValidTick(t) && t.reseat && 0.0 <= st.debt && !Liquidates(g, st, t) && Collateral(g, st, t) > 0.0
    ensures 0.0 < Reseated(g, st, t).e0 && Reseated(g, st, t).e0 * t.p == Collateral(g, st, t) - st.debt
  {
    DivBelow(st.debt, Collateral(g, st, t), LLTV);
    DivMul(st.debt, t.p);
    NetEquity(Held(g, st, t), st.debt / t.p, t.p, st.debt);
  }

  /** Debt over collateral is exactly tau / (1 + tau), and at most 3/7. */
  predicate LtvExactly(g: Rules, st: State, t: Tick, tau: real) {
    st.debt * (1.0 + tau) == tau * Collateral(g, st, t) && 7.0 * st.debt <= 3.0 * Collateral(g, st, t)
  }

  lemma MovedLtv(o: Options, st: State, tau: real, target: real, t: Tick)
    requires t.p != 0.0 && 0.0 <= tau <= 0.75 && 0.0 <= st.e0 * t.p == Collateral(o.rules, st, t) - st.debt
    requires target == tau * st.e0 * t.p
    ensures LtvExactly(o.rules, MovedTo(o, st, target, t), t, tau)
  {
    var coll := Collateral(o.rules, st, t);
    MovedCollateral(o, st, target, t);
    LtvAlgebra(coll, st.debt, st.e0, t.p, tau, target);
    LtvNonNeg(st.e0 * t.p, tau, target, st.e0, t.p);
    LtvCap(target, tau, coll + (target - st.debt));
  }

  lemma LtvNonNeg(net: real, tau: real, target: real, e0: real, p: real)
    requires 0.0 <= net == e0 * p && 0.0 <= tau && target == tau * e0 * p
    ensures 0.0 <= target
  {
    assert target == tau * net;
    MulNonNeg(tau, net);
  }

  lemma ReseatedLtv(o: Options, st: State, tau: real, target: real, t: Tick)
    requires ValidTick(t) && t.reseat && 0.0 <= st.debt
    requires !Liquidates(o.rules, st, t) && Collateral(o.rules, st, t) > 0.0
    requires 0.0 <= tau <= 0.75 && target == tau * Reseated(o.rules, st, t).e0 * t.p
    ensures LtvExactly(o.rules, Squared(MovedTo(o, Reseated(o.rules, st, t), target, t)), t, tau)
  {
    var st1 := Reseated(o.rules, st, t);
    ReseatedEquity(o.rules, st, t);
    MulPos(st1.e0, t.p);
    MovedLtv(o, st1, tau, target, t);
    SquaredLedger(o, MovedTo(o, st1, target, t), t);
  }

  /** The overlay, on a step that re-bases its entry equity and rebalances: debt over collateral is
      exactly t / (1 + t) for the target fraction t, so never above 3/7. */
  lemma HedgedOverlay(o: Options, st: State, entry: real, t: Tick)
    requires ValidRules(o.rules) && 0.0 < entry && o.policy.HedgedLp? && ValidTick(t) && t.reseat
    requires 0.0 <= st.debt && !Liquidates(o.rules, st, t)
    requires Rebalances(o, Reseated(o.rules, st, t), entry, t)
    ensures LtvExactly(o.rules, Hedged(o, st, entry, t), t, o.rules.target(entry, t.s))
  {
    var target := TargetDebt(o, Reseated(o.rules, st, t), entry, t);
    ReseatedLtv(o, st, o.rules.target(entry, t.s), target, t);
  }
}
