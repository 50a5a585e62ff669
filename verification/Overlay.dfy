/** One walk of the range position along a price path. A tick carries the price with its square
    root and the roots of the bounds a range centred there would get; the no-trade band, the
    realised variance and the reseat trigger, which need cube roots and logarithms, are part of
    the tick too. The formulas of the range, the fee, the throttle and the hedge target are
    rules the walk is given, so what is proved of the walk holds for every such set of rules. */
module Overlay {
  import opened Reals

  datatype Policy = HedgedLp | ConstantTwoX | PlainLp

  /** The price `p`, its root `s`, and the roots `lo`, `hi` of the recentred bounds. */
  datatype Tick = Tick(p: real, s: real, lo: real, hi: real, band: real, variance: real, reseat: bool)

  /** What a step's fee is computed from. */
  datatype FeeInput = FeeInput(
    ethPrev: real, ethNow: real, buffer: real, position: real, sa: real, sb: real, p: real, s: real)

  datatype Rules = Rules(
    unit: (real, real, real) -> real,      // ETH of one unit of depth at root s over [sa, sb]
    fee: FeeInput -> real,
    theta: (real, real, real) -> real,     // from theta, fee yield and variance
    target: (real, real) -> real)          // from the entry root and the root

  datatype Options = Options(
    policy: Policy, rules: Rules, borrow: real, stakeRate: real, gasPerPrice: real, slip: real,
    theta: real, repack: bool, equity: real, dt: real)

  datatype State = State(
    theta: real, idle: real, sa: real, sb: real, depth: real, cash: real, buffer: real, debt: real,
    e0: real, ewma: real, dead: real, liq: nat,
    fees: real, stake: real, carry: real, gas: real, slippage: real)

  const LLTV: real := 0.86
  const LIF: real := 1.043

  /** What the walk relies on: depth fits exactly below the upper bound, the throttle is a
      fraction, the target is one and capped, and fees on a sound position are not negative. */
  ghost predicate ValidRules(g: Rules) {
    && (forall s, sa, sb :: 0.0 < sa < sb ==> g.unit(s, sa, sb) >= 0.0 && (g.unit(s, sa, sb) > 0.0 <==> s < sb))
    && (forall th, y, v :: 0.0 <= th <= 1.0 && 0.0 <= y && 0.0 <= v ==> 0.0 <= g.theta(th, y, v) <= 1.0)
    && (forall e, s :: 0.0 < e && 0.0 < s ==> 0.0 <= g.target(e, s) <= 0.75)
    && (forall x :: SoundInput(x) ==> g.fee(x) >= 0.0)
  }

  predicate SoundInput(x: FeeInput) {
    0.0 < x.p && 0.0 <= x.ethNow && 0.0 <= x.buffer && 0.0 <= x.position && 0.0 < x.sa < x.sb
  }

  ghost predicate ValidOptions(o: Options) {
    && ValidRules(o.rules) && 0.0 < o.dt && 0.0 <= o.equity && 0.0 <= o.theta <= 1.0
    && 0.0 <= o.borrow && 0.0 <= o.stakeRate && 0.0 <= o.gasPerPrice && 0.0 <= o.slip
  }

  predicate ValidTick(t: Tick) {
    0.0 < t.p && 0.0 < t.lo <= t.s < t.hi && 0.0 <= t.band && 0.0 <= t.variance
  }

  predicate Shaped(st: State) {
    0.0 < st.sa < st.sb
  }

  // ---- what the position is worth ----

  /** The ETH leg of the range at a tick. */
  function EthNow(g: Rules, st: State, t: Tick): real {
    st.depth * g.unit(t.s, st.sa, st.sb)
  }

  /** Every ETH the position holds at a tick. */
  function Held(g: Rules, st: State, t: Tick): real {
    EthNow(g, st, t) + st.idle + st.buffer
  }

  function Collateral(g: Rules, st: State, t: Tick): real {
    Held(g, st, t) * t.p
  }

  function Position(g: Rules, st: State, t: Tick): real {
    Collateral(g, st, t) + st.cash
  }

  /** Collateral and cash less debt, in dollars. */
  function Wealth(g: Rules, st: State, t: Tick): real {
    Position(g, st, t) - st.debt
  }

  // ---- one step, stage by stage; `m` is the tick before `t` ----

  /** 1. The range re-prices: what it sold became cash. */
  function Repriced(g: Rules, st: State, m: Tick, t: Tick): State {
    st.(cash := st.cash + (EthNow(g, st, m) - EthNow(g, st, t)) * t.p)
  }

  function FeeOf(g: Rules, st: State, m: Tick, t: Tick): real {
    g.fee(FeeInput(EthNow(g, st, m), EthNow(g, st, t), st.buffer, Position(g, st, t), st.sa, st.sb, t.p, t.s))
  }

  /** 2. Fees, and the moving average of the fee yield. */
  function Earned(o: Options, st: State, m: Tick, t: Tick): State
    requires o.dt != 0.0
  {
    var f, position := FeeOf(o.rules, st, m, t), Position(o.rules, st, t);
    st.(fees := st.fees + f, cash := st.cash + f,
        ewma := st.ewma * 0.98 + 0.02 * (if position > 0.0 then f / o.dt / position else 0.0))
  }

  /** 3. Staking on every ETH held. */
  function Staked(o: Options, st: State, t: Tick): State {
    var y := o.stakeRate * Held(o.rules, st, t) * o.dt;
    st.(stake := st.stake + y * t.p, idle := st.idle + y)
  }

  /** 4. Interest accrues on the debt. */
  function Carried(o: Options, st: State): State {
    if st.debt > 0.0 then
      var c := o.borrow * st.debt * o.dt;
      st.(carry := st.carry + c, debt := st.debt + c)
    else st
  }

  function NewTheta(g: Rules, st: State, t: Tick): real {
    g.theta(st.theta, st.ewma, t.variance)
  }

  predicate OutOfBand(o: Options, st: State, t: Tick) {
    o.repack && (t.s < st.sa || t.s > st.sb)
  }

  predicate Resizes(o: Options, st: State, t: Tick) {
    || OutOfBand(o, st, t)
    || Abs(NewTheta(o.rules, st, t) - st.theta) > 0.1 * Max(st.theta, 0.000_001)
  }

  /** What a resize distributes: the range, the idle stack and the cash, in ETH. */
  function RawWealth(g: Rules, st: State, t: Tick): real
    requires t.p != 0.0
  {
    EthNow(g, st, t) + st.idle + st.cash / t.p
  }

  /** A repack recentres the range on the tick; a throttle leaves it where it is. */
  function Recentred(o: Options, st: State, t: Tick): State {
    if OutOfBand(o, st, t) then st.(sa := t.lo, sb := t.hi) else st
  }

  /** `LforEth`: the liquidity whose ETH leg is `eth`; none where a unit holds no ETH. */
  function DepthFor(g: Rules, eth: real, s: real, sa: real, sb: real): real {
    if g.unit(s, sa, sb) > 0.0 then eth / g.unit(s, sa, sb) else 0.0
  }

  /** Put `theta` of `wealth` in range and leave the rest idle. */
  function Placed(g: Rules, st: State, t: Tick, theta: real, wealth: real): State {
    st.(theta := theta, depth := DepthFor(g, theta * wealth, t.s, st.sa, st.sb),
        idle := (1.0 - theta) * wealth, cash := 0.0)
  }

  /** 5. Repack or throttle. */
  function Resized(o: Options, st: State, t: Tick): State
    requires t.p != 0.0
  {
    if !Resizes(o, st, t) then st
    else Placed(o.rules, Recentred(o, st, t), t, NewTheta(o.rules, st, t), Max(0.0, RawWealth(o.rules, st, t)))
  }

  /** 6. The venue liquidates at the liquidation threshold. */
  predicate Liquidates(g: Rules, st: State, t: Tick) {
    var coll := Collateral(g, st, t);
    if coll > 0.0 then st.debt / coll >= LLTV else st.debt > 0.0
  }

  function Liquidated(g: Rules, st: State, t: Tick): State
    requires t.p != 0.0
  {
    st.(liq := st.liq + 1, dead := Max(Position(g, st, t) - st.debt * LIF, 0.0) / t.p,
        idle := 0.0, buffer := 0.0, debt := 0.0, cash := 0.0, depth := 0.0)
  }

  /** 7a. A reseat re-bases the entry equity to net equity. */
  function Reseated(g: Rules, st: State, t: Tick): State
    requires t.p != 0.0
  {
    if t.reseat then st.(e0 := Max(0.0, Held(g, st, t) - st.debt / t.p)) else st
  }

  /** The debt the policy aims at; a plain position has no target and is never rebalanced. */
  function TargetDebt(o: Options, st: State, entry: real, t: Tick): real {
    match o.policy
    case HedgedLp => o.rules.target(entry, t.s) * st.e0 * t.p
    case ConstantTwoX => Collateral(o.rules, st, t) / 2.0
    case PlainLp => 0.0
  }

  predicate Rebalances(o: Options, st: State, entry: real, t: Tick) {
    var coll := Collateral(o.rules, st, t);
    !o.policy.PlainLp? && coll > 0.0 && Abs(st.debt - TargetDebt(o, st, entry, t)) / coll > t.band
  }

  /** Borrow (or repay) up to `target` and buy (or sell) that much ETH, at a recorded cost. */
  function MovedTo(o: Options, st: State, target: real, t: Tick): State
    requires t.p != 0.0
  {
    var delta := target - st.debt;
    var gas, slip := o.gasPerPrice * t.p, o.slip * Abs(delta);
    st.(buffer := st.buffer + delta / t.p, debt := target,
        gas := st.gas + gas, slippage := st.slippage + slip, cash := st.cash - (gas + slip))
  }

  /** 7b. The rebalance. */
  function Rebalanced(o: Options, st: State, entry: real, t: Tick): State
    requires t.p != 0.0
  {
    if Rebalances(o, st, entry, t) then MovedTo(o, st, TargetDebt(o, st, entry, t), t) else st
  }

  /** 7c. A buffer sold short is taken from the idle stack. */
  function Squared(st: State): State {
    if st.buffer < 0.0 then st.(idle := st.idle + st.buffer, buffer := 0.0) else st
  }

  /** Stages 1 to 4. */
  function Accrued(o: Options, st: State, m: Tick, t: Tick): State
    requires o.dt != 0.0
  {
    Carried(o, Staked(o, Earned(o, Repriced(o.rules, st, m, t), m, t), t))
  }

  /** Stages 7a to 7c. */
  function Hedged(o: Options, st: State, entry: real, t: Tick): State
    requires t.p != 0.0
  {
    Squared(Rebalanced(o, Reseated(o.rules, st, t), entry, t))
  }

  function Step(o: Options, entry: real, st: State, m: Tick, t: Tick): State
    requires o.dt != 0.0 && t.p != 0.0
  {
    if st.dead != 0.0 then st.(dead := st.dead * (1.0 + o.stakeRate * o.dt))
    else
      var sized := Resized(o, Accrued(o, st, m, t), t);
      if Liquidates(o.rules, sized, t) then Liquidated(o.rules, sized, t) else Hedged(o, sized, entry, t)
  }

  // ---- the walk ----

  function Opened(o: Options, t: Tick): State
    requires t.p != 0.0
  {
    var q := o.equity / t.p;
    var st := State(o.theta, 0.0, t.lo, t.hi, 0.0, 0.0, 0.0, 0.0, q, 0.0, 0.0, 0, 0.0, 0.0, 0.0, 0.0, 0.0);
    var placed := Placed(o.rules, st, t, o.theta, q);
    if o.policy.ConstantTwoX? then placed.(buffer := q, debt := q * t.p) else placed
  }

  ghost predicate ValidPath(ticks: seq<Tick>) {
    ticks != [] && forall i :: 0 <= i < |ticks| ==> ValidTick(ticks[i])
  }

  /** The state after the first `n` moves of the path. */
  function After(o: Options, ticks: seq<Tick>, n: nat): State
    requires o.dt != 0.0 && ValidPath(ticks) && n < |ticks|
  {
    if n == 0 then Opened(o, ticks[0])
    else Step(o, ticks[0].s, After(o, ticks, n - 1), ticks[n - 1], ticks[n])
  }
}
