/** The self-financing ledger: what each stage of a step does to wealth, and what a whole walk adds up to. */
module OverlayLedger {
  import opened Reals
  import opened Overlay

  /** Everything booked so far: income less cost. */
  function Books(st: State): real {
    st.fees + st.stake - st.carry - st.gas - st.slippage
  }

  /** Wealth less everything booked. */
  function NetOf(o: Options, st: State, t: Tick): real {
    Wealth(o.rules, st, t) - Books(st)
  }

  /** The ETH held times the price move. */
  function Gain(o: Options, st: State, m: Tick, t: Tick): real {
    Held(o.rules, st, m) * (t.p - m.p)
  }

  // ---- stages 1 to 4 ----

  lemma RepriceAlgebra(e0: real, e1: real, rest: real, p0: real, p1: real, cash: real, debt: real)
    ensures ((e1 + rest) * p1 + (cash + (e0 - e1) * p1)) - debt
      == ((e0 + rest) * p0 + cash - debt) + (e0 + rest) * (p1 - p0)
  {
  }

  /** Re-pricing sells at the new price: wealth moves by the ETH held times the price move. */
  lemma RepricedLedger(g: Rules, st: State, m: Tick, t: Tick)
    ensures Wealth(g, Repriced(g, st, m, t), t) == Wealth(g, st, m) + Held(g, st, m) * (t.p - m.p)
    ensures Books(Repriced(g, st, m, t)) == Books(st)
  {
    RepriceAlgebra(EthNow(g, st, m), EthNow(g, st, t), st.idle + st.buffer, m.p, t.p, st.cash, st.debt);
  }

  lemma EarnedLedger(o: Options, st: State, m: Tick, t: Tick)
    requires o.dt != 0.0
    ensures Wealth(o.rules, Earned(o, st, m, t), t) - Wealth(o.rules, st, t) == Books(Earned(o, st, m, t)) - Books(st)
  {
  }

  lemma StakeAlgebra(held: real, y: real, p: real)
    ensures (held + y) * p == held * p + y * p
  {
  }

  lemma StakedLedger(o: Options, st: State, t: Tick)
    ensures Wealth(o.rules, Staked(o, st, t), t) - Wealth(o.rules, st, t) == Books(Staked(o, st, t)) - Books(st)
  {
    StakeAlgebra(Held(o.rules, st, t), o.stakeRate * Held(o.rules, st, t) * o.dt, t.p);
  }

  lemma CarriedLedger(o: Options, st: State, t: Tick)
    ensures Wealth(o.rules, Carried(o, st), t) - Wealth(o.rules, st, t) == Books(Carried(o, st)) - Books(st)
  {
  }

  lemma AccruedLedger(o: Options, st: State, m: Tick, t: Tick)
    requires o.dt != 0.0
    ensures NetOf(o, Accrued(o, st, m, t), t) == NetOf(o, st, m) + Gain(o, st, m, t)
  {
    var st1 := Repriced(o.rules, st, m, t);
    var st2 := Earned(o, st1, m, t);
    var st3 := Staked(o, st2, t);
    RepricedLedger(o.rules, st, m, t);
    EarnedLedger(o, st1, m, t);
    StakedLedger(o, st2, t);
    CarriedLedger(o, st3, t);
  }

  // ---- stage 5 ----

  /** What distributing `raw` ETH creates (wealth is floored at zero) or destroys (no depth fits
      at or above the upper bound), in dollars. */
  function LeakOf(theta: real, raw: real, p: real, fits: bool): real {
    if raw < 0.0 then -raw * p else if fits then 0.0 else -(theta * raw) * p
  }

  function Leak(o: Options, st: State, t: Tick): real
    requires t.p != 0.0
  {
    if !Resizes(o, st, t) then 0.0
    else LeakOf(NewTheta(o.rules, st, t), RawWealth(o.rules, st, t), t.p, t.s < Recentred(o, st, t).sb)
  }

  lemma ProductIsZero(x: real, y: real)
    ensures x * y == 0.0 <==> x == 0.0 || y == 0.0
  {
    if x != 0.0 && y != 0.0 && x * y == 0.0 {
      DivMul(1.0, x);
      assert (1.0 / x) * (x * y) == ((1.0 / x) * x) * y;
    }
  }

  lemma LeakIsZero(theta: real, raw: real, p: real, fits: bool)
    requires 0.0 < p
    ensures LeakOf(theta, raw, p, fits) == 0.0 <==> raw >= 0.0 && (fits || theta * raw == 0.0)
  {
    ProductIsZero(-raw, p);
    ProductIsZero(-(theta * raw), p);
  }

  /** What a resize distributes is not negative, and the price is below the upper bound of the range or
      nothing is to go in range. */
  predicate Neutral(o: Options, st: State, t: Tick)
    requires t.p != 0.0
  {
    && RawWealth(o.rules, st, t) >= 0.0
    && (t.s < Recentred(o, st, t).sb || NewTheta(o.rules, st, t) * RawWealth(o.rules, st, t) == 0.0)
  }

  /** Exactly when a repack or a throttle is value-neutral; a repack is always below its new bound. */
  lemma NeutralResize(o: Options, st: State, t: Tick)
    requires ValidTick(t)
    ensures Leak(o, st, t) == 0.0 <==> (Resizes(o, st, t) ==> Neutral(o, st, t))
    ensures OutOfBand(o, st, t) ==> t.s < Recentred(o, st, t).sb
  {
    LeakIsZero(NewTheta(o.rules, st, t), RawWealth(o.rules, st, t), t.p, t.s < Recentred(o, st, t).sb);
  }

  lemma DepthHolds(g: Rules, eth: real, s: real, sa: real, sb: real)
    requires ValidRules(g) && 0.0 < sa < sb
    ensures DepthFor(g, eth, s, sa, sb) * g.unit(s, sa, sb) == if s < sb then eth else 0.0
  {
    if s < sb { DivMul(eth, g.unit(s, sa, sb)); }
  }

  /** The three ways a resize can go, on numbers. */
  lemma ResizeCases(theta: real, raw: real, p: real, fits: bool, eth: real, idle: real, buffer: real)
    requires eth == if fits then theta * Max(0.0, raw) else 0.0
    requires idle == (1.0 - theta) * Max(0.0, raw)
    ensures (eth + idle + buffer) * p == (raw + buffer) * p + LeakOf(theta, raw, p, fits)
  {
    if raw < 0.0 {
      ZeroTimes(theta);
      ZeroTimes(1.0 - theta);
      assert eth + idle == 0.0;
      assert (0.0 + buffer) * p == (raw + buffer) * p + (-raw) * p;
    } else if fits {
      assert eth + idle == raw by { assert theta * raw + (1.0 - theta) * raw == raw; }
    } else {
      assert eth + idle == raw - theta * raw by { assert (1.0 - theta) * raw == raw - theta * raw; }
      assert (raw - theta * raw + buffer) * p == (raw + buffer) * p + (-(theta * raw)) * p;
    }
  }

  lemma ZeroTimes(x: real)
    ensures x * 0.0 == 0.0
  {
  }

  lemma RawAlgebra(e: real, idle: real, buffer: real, cash: real, p: real, q: real)
    requires q * p == cash
    ensures (e + idle + buffer) * p + cash == ((e + idle + q) + buffer) * p
  {
  }

  lemma PlacedLedger(g: Rules, st: State, t: Tick, theta: real, raw: real)
    requires ValidRules(g) && Shaped(st)
    ensures var r := Placed(g, st, t, theta, Max(0.0, raw));
      Position(g, r, t) == (raw + st.buffer) * t.p + LeakOf(theta, raw, t.p, t.s < st.sb)
  {
    var r := Placed(g, st, t, theta, Max(0.0, raw));
    DepthHolds(g, theta * Max(0.0, raw), t.s, st.sa, st.sb);
    ResizeCases(theta, raw, t.p, t.s < st.sb, EthNow(g, r, t), r.idle, st.buffer);
  }

  lemma RawIsPosition(g: Rules, st: State, t: Tick)
    requires t.p != 0.0
    ensures Position(g, st, t) == (RawWealth(g, st, t) + st.buffer) * t.p
  {
    DivMul(st.cash, t.p);
    RawAlgebra(EthNow(g, st, t), st.idle, st.buffer, st.cash, t.p, st.cash / t.p);
  }

  /** Repack and throttle are value-neutral apart from the leak. */
  lemma ResizedLedger(o: Options, st: State, t: Tick)
    requires ValidRules(o.rules) && Shaped(st) && ValidTick(t)
    ensures NetOf(o, Resized(o, st, t), t) == NetOf(o, st, t) + Leak(o, st, t)
    ensures Books(Resized(o, st, t)) == Books(st)
  {
    if Resizes(o, st, t) {
      RawIsPosition(o.rules, st, t);
      PlacedLedger(o.rules, Recentred(o, st, t), t, NewTheta(o.rules, st, t), RawWealth(o.rules, st, t));
    }
  }

  // ---- stage 7 ----

  lemma MoveAlgebra(held: real, delta: real, q: real, p: real)
    requires q * p == delta
    ensures (held + q) * p == held * p + delta
  {
  }

  /** A rebalance moves collateral by exactly what it borrows or repays. */
  lemma MovedCollateral(o: Options, st: State, target: real, t: Tick)
    requires t.p != 0.0
    ensures Collateral(o.rules, MovedTo(o, st, target, t), t) == Collateral(o.rules, st, t) + (target - st.debt)
  {
    var delta := target - st.debt;
    DivMul(delta, t.p);
    MoveAlgebra(Held(o.rules, st, t), delta, delta / t.p, t.p);
  }

  lemma MovedLedger(o: Options, st: State, target: real, t: Tick)
    requires t.p != 0.0
    ensures var r := MovedTo(o, st, target, t);
      Wealth(o.rules, r, t) - Books(r) == Wealth(o.rules, st, t) - Books(st)
  {
    MovedCollateral(o, st, target, t);
  }

  lemma SquaredLedger(o: Options, st: State, t: Tick)
    ensures Held(o.rules, Squared(st), t) == Held(o.rules, st, t)
    ensures Wealth(o.rules, Squared(st), t) == Wealth(o.rules, st, t) && Books(Squared(st)) == Books(st)
  {
  }

  /** A rebalance costs what it books as gas and slippage, and nothing else. */
  lemma HedgedLedger(o: Options, st: State, entry: real, t: Tick)
    requires t.p != 0.0
    ensures NetOf(o, Hedged(o, st, entry, t), t) == NetOf(o, st, t)
  {
    var st1 := Reseated(o.rules, st, t);
    var st2 := Rebalanced(o, st1, entry, t);
    SquaredLedger(o, st2, t);
    if Rebalances(o, st1, entry, t) {
      MovedLedger(o, st1, TargetDebt(o, st1, entry, t), t);
    }
  }

  // ---- a step and a walk ----

  ghost predicate Liquidating(o: Options, st: State, m: Tick, t: Tick)
    requires o.dt != 0.0 && t.p != 0.0
  {
    Liquidates(o.rules, Resized(o, Accrued(o, st, m, t), t), t)
  }

  lemma StepLedger(o: Options, entry: real, st: State, m: Tick, t: Tick)
    requires ValidOptions(o) && Shaped(st) && ValidTick(t) && st.dead == 0.0 && !Liquidating(o, st, m, t)
    ensures NetOf(o, Step(o, entry, st, m, t), t)
      == NetOf(o, st, m) + Gain(o, st, m, t) + Leak(o, Accrued(o, st, m, t), t)
  {
    var accrued := Accrued(o, st, m, t);
    var sized := Resized(o, accrued, t);
    AccruedLedger(o, st, m, t);
    ResizedLedger(o, accrued, t);
    HedgedLedger(o, sized, entry, t);
  }

  lemma OpenedLedger(o: Options, t: Tick)
    requires ValidOptions(o) && ValidTick(t)
    ensures Wealth(o.rules, Opened(o, t), t) == o.equity && Books(Opened(o, t)) == 0.0
  {
    var q := o.equity / t.p;
    DivMul(o.equity, t.p);
    var st := State(o.theta, 0.0, t.lo, t.hi, 0.0, 0.0, 0.0, 0.0, q, 0.0, 0.0, 0, 0.0, 0.0, 0.0, 0.0, 0.0);
    DivNonNeg(o.equity, t.p);
    PlacedLedger(o.rules, st, t, o.theta, q);
    MoveAlgebra(Held(o.rules, Placed(o.rules, st, t, o.theta, q), t), q * t.p, q, t.p);
  }

  /** The ETH held before each move times the move, summed. */
  function Exposure(o: Options, ticks: seq<Tick>, n: nat): real
    requires o.dt != 0.0 && ValidPath(ticks) && n < |ticks|
  {
    if n == 0 then 0.0
    else
      Exposure(o, ticks, n - 1) + GainAt(o, ticks, n)
  }

  function GainAt(o: Options, ticks: seq<Tick>, n: nat): real
    requires o.dt != 0.0 && ValidPath(ticks) && 0 < n < |ticks|
  {
    Gain(o, After(o, ticks, n - 1), ticks[n - 1], ticks[n])
  }

  function LeakAt(o: Options, ticks: seq<Tick>, n: nat): real
    requires o.dt != 0.0 && ValidPath(ticks) && 0 < n < |ticks|
  {
    Leak(o, Accrued(o, After(o, ticks, n - 1), ticks[n - 1], ticks[n]), ticks[n])
  }

  function Leaks(o: Options, ticks: seq<Tick>, n: nat): real
    requires o.dt != 0.0 && ValidPath(ticks) && n < |ticks|
  {
    if n == 0 then 0.0 else Leaks(o, ticks, n - 1) + LeakAt(o, ticks, n)
  }

  lemma {:induction false} AfterShaped(o: Options, ticks: seq<Tick>, n: nat)
    requires o.dt != 0.0 && ValidPath(ticks) && n < |ticks|
    ensures Shaped(After(o, ticks, n))
  {
    if n > 0 { AfterShaped(o, ticks, n - 1); }
  }

  /** A walk that has not been liquidated has been alive all along. */
  lemma {:induction false} AliveBefore(o: Options, ticks: seq<Tick>, n: nat)
    requires o.dt != 0.0 && ValidPath(ticks) && n < |ticks| && After(o, ticks, n).liq == 0
    ensures After(o, ticks, n).dead == 0.0
    ensures n > 0 ==> After(o, ticks, n - 1).liq == 0 && !Liquidating(o, After(o, ticks, n - 1), ticks[n - 1], ticks[n])
  {
    if n > 0 {
      LiqGrows(o, ticks[0].s, After(o, ticks, n - 1), ticks[n - 1], ticks[n]);
      AliveBefore(o, ticks, n - 1);
    }
  }

  lemma LiqGrows(o: Options, entry: real, st: State, m: Tick, t: Tick)
    requires o.dt != 0.0 && t.p != 0.0
    ensures var r := Step(o, entry, st, m, t);
      && st.liq <= r.liq
      && (st.dead == 0.0 && r.liq == 0 ==> r.dead == 0.0 && !Liquidating(o, st, m, t))
  {
  }

  lemma AliveStep(o: Options, ticks: seq<Tick>, n: nat)
    requires ValidOptions(o) && ValidPath(ticks) && 0 < n < |ticks| && After(o, ticks, n).liq == 0
    ensures var st := After(o, ticks, n - 1);
      st.liq == 0 && st.dead == 0.0 && Shaped(st) && !Liquidating(o, st, ticks[n - 1], ticks[n])
  {
    AliveBefore(o, ticks, n);
    AliveBefore(o, ticks, n - 1);
    AfterShaped(o, ticks, n - 1);
  }

  function Net(o: Options, ticks: seq<Tick>, n: nat): real
    requires o.dt != 0.0 && ValidPath(ticks) && n < |ticks|
  {
    NetOf(o, After(o, ticks, n), ticks[n])
  }

  /** One move of a walk, in the terms of the sums. */
  lemma MoveLedger(o: Options, ticks: seq<Tick>, n: nat)
    requires ValidOptions(o) && ValidPath(ticks) && 0 < n < |ticks| && After(o, ticks, n).liq == 0
    ensures Net(o, ticks, n) == Net(o, ticks, n - 1) + GainAt(o, ticks, n) + LeakAt(o, ticks, n)
  {
    AliveStep(o, ticks, n);
    StepLedger(o, ticks[0].s, After(o, ticks, n - 1), ticks[n - 1], ticks[n]);
  }

  lemma {:induction false} NetAddsUp(o: Options, ticks: seq<Tick>, n: nat)
    requires ValidOptions(o) && ValidPath(ticks) && n < |ticks| && After(o, ticks, n).liq == 0
    ensures Net(o, ticks, n) == o.equity + Exposure(o, ticks, n) + Leaks(o, ticks, n)
  {
    if n == 0 {
      OpenedLedger(o, ticks[0]);
    } else {
      AliveBefore(o, ticks, n);
      NetAddsUp(o, ticks, n - 1);
      MoveLedger(o, ticks, n);
    }
  }

  /** The ledger of a whole walk, on every path without a liquidation: final wealth is the deposit,
      plus the ETH held times the price moves, plus everything booked, plus what resizes leaked. */
  lemma WalkLedger(o: Options, ticks: seq<Tick>, n: nat)
    requires ValidOptions(o) && ValidPath(ticks) && n < |ticks| && After(o, ticks, n).liq == 0
    ensures Wealth(o.rules, After(o, ticks, n), ticks[n])
      == o.equity + Exposure(o, ticks, n) + Books(After(o, ticks, n)) + Leaks(o, ticks, n)
  {
    NetAddsUp(o, ticks, n);
  }

  /** The resize of move `n`, if there is one, is neutral. */
  predicate NeutralAt(o: Options, ticks: seq<Tick>, n: nat)
    requires o.dt != 0.0 && ValidPath(ticks) && 0 < n < |ticks|
  {
    var st := Accrued(o, After(o, ticks, n - 1), ticks[n - 1], ticks[n]);
    Resizes(o, st, ticks[n]) ==> Neutral(o, st, ticks[n])
  }

  lemma NeutralLeak(o: Options, ticks: seq<Tick>, n: nat, st: State)
    requires o.dt != 0.0 && ValidPath(ticks) && 0 < n < |ticks|
    requires st == Accrued(o, After(o, ticks, n - 1), ticks[n - 1], ticks[n])
    ensures LeakAt(o, ticks, n) == 0.0 <==> NeutralAt(o, ticks, n)
  {
    NeutralResize(o, st, ticks[n]);
  }

  /** Wealth at move `n` is the deposit, plus the ETH held times the price moves, plus everything booked. */
  ghost predicate Conserves(o: Options, ticks: seq<Tick>, n: nat)
    requires o.dt != 0.0 && ValidPath(ticks) && n < |ticks|
  {
    Wealth(o.rules, After(o, ticks, n), ticks[n]) == o.equity + Exposure(o, ticks, n) + Books(After(o, ticks, n))
  }

  lemma ConservesIsNoLeak(o: Options, ticks: seq<Tick>, n: nat)
    requires ValidOptions(o) && ValidPath(ticks) && n < |ticks| && After(o, ticks, n).liq == 0
    ensures Conserves(o, ticks, n) <==> Leaks(o, ticks, n) == 0.0
  {
    WalkLedger(o, ticks, n);
  }

  /** While nothing has leaked, a move conserves if and only if its resize is neutral. */
  lemma ConservesStep(o: Options, ticks: seq<Tick>, n: nat)
    requires ValidOptions(o) && ValidPath(ticks) && 0 < n < |ticks| && After(o, ticks, n).liq == 0
    requires Conserves(o, ticks, n - 1)
    ensures Conserves(o, ticks, n) <==> NeutralAt(o, ticks, n)
  {
    AliveBefore(o, ticks, n);
    ConservesIsNoLeak(o, ticks, n - 1);
    ConservesIsNoLeak(o, ticks, n);
    NeutralLeak(o, ticks, n, Accrued(o, After(o, ticks, n - 1), ticks[n - 1], ticks[n]));
    Chain(Conserves(o, ticks, n - 1), Conserves(o, ticks, n), NeutralAt(o, ticks, n), Leaks(o, ticks, n - 1),
          Leaks(o, ticks, n), LeakAt(o, ticks, n));
  }

  lemma Chain(c0: bool, c1: bool, neutral: bool, l0: real, l1: real, x: real)
    requires c0 && (c0 <==> l0 == 0.0) && (c1 <==> l1 == 0.0) && (x == 0.0 <==> neutral) && l1 == l0 + x
    ensures c1 <==> neutral
  {
  }

  ghost predicate ConservesThroughout(o: Options, ticks: seq<Tick>, n: nat)
    requires o.dt != 0.0 && ValidPath(ticks) && n < |ticks|
  {
    Conserves(o, ticks, n) && (n > 0 ==> ConservesThroughout(o, ticks, n - 1))
  }

  ghost predicate NeutralThroughout(o: Options, ticks: seq<Tick>, n: nat)
    requires o.dt != 0.0 && ValidPath(ticks) && n < |ticks|
  {
    n > 0 ==> NeutralAt(o, ticks, n) && NeutralThroughout(o, ticks, n - 1)
  }

  /** Self-financing, exactly: along an unliquidated walk wealth is at every move the deposit, plus the
      ETH held times the price moves, plus everything booked, if and only if every resize is neutral. */
  lemma {:induction false} ConservesExactly(o: Options, ticks: seq<Tick>, n: nat)
    requires ValidOptions(o) && ValidPath(ticks) && n < |ticks| && After(o, ticks, n).liq == 0
    ensures ConservesThroughout(o, ticks, n) <==> NeutralThroughout(o, ticks, n)
  {
    if n == 0 {
      ConservesIsNoLeak(o, ticks, 0);
    } else {
      AliveBefore(o, ticks, n);
      ConservesExactly(o, ticks, n - 1);
      if ConservesThroughout(o, ticks, n - 1) { ConservesStep(o, ticks, n); }
    }
  }
}
