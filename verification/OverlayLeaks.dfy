/** Two price paths on which a resize of the simulation is not value-neutral. */
module OverlayLeaks {
  import opened Overlay
  import opened OverlayRules
  import opened OverlayLedger
  import opened OverlayShipped
  import opened Wrappers

  /** The ticks of a price path: roots are roots, and every range has the bounds `ra` and `rb` times the
      root of its price. */
  ghost predicate FromPrices(ticks: seq<Tick>, ra: real, rb: real) {
    forall i :: 0 <= i < |ticks| ==> FromPrice(ticks[i], ra, rb)
  }

  predicate FromPrice(t: Tick, ra: real, rb: real) {
    t.p == t.s * t.s && t.lo == ra * t.s && t.hi == rb * t.s
  }

  /** A tick is reseated when its price has moved. */
  ghost predicate ReseatsOnMoves(ticks: seq<Tick>) {
    forall i :: 0 < i < |ticks| ==> (ticks[i].reseat <==> ticks[i].p != ticks[i - 1].p)
  }

  function PlainOptions(g: Rules, equity: real): Options {
    Options(PlainLp, g, 0.0, 0.0, 0.0, 0.0, 1.0, true, equity, 1.0)
  }

  /** A plain position with nothing but depth, idle ETH and cash. */
  function PlainState(depth: real, sa: real, sb: real, cash: real, e0: real): State {
    State(1.0, 0.0, sa, sb, depth, cash, 0.0, 0.0, e0, 0.0, 0.0, 0, 0.0, 0.0, 0.0, 0.0, 0.0)
  }

  /** A move of a plain position that is not resized accrues and may be reseated, no more. */
  lemma QuietStep(o: Options, entry: real, st: State, m: Tick, t: Tick, acc: State)
    requires o.dt != 0.0 && t.p != 0.0 && o.policy.PlainLp? && st.dead == 0.0
    requires acc == Accrued(o, st, m, t) && !Resizes(o, acc, t)
    requires acc.debt == 0.0 && acc.buffer == 0.0 && Collateral(o.rules, acc, t) > 0.0
    ensures Step(o, entry, st, m, t) == Reseated(o.rules, acc, t)
  {
    assert Resized(o, acc, t) == acc;
    assert !Liquidates(o.rules, acc, t);
    assert Hedged(o, acc, entry, t) == Reseated(o.rules, acc, t);
  }

  /** A walk of two moves, the first without a resize: its ticks, its states, and the position at the end. */
  datatype TwoMoves = TwoMoves(t0: Tick, t1: Tick, t2: Tick, st0: State, acc1: State, st1: State, acc2: State) {
    function Path(): seq<Tick> {
      [t0, t1, t2]
    }
  }

  ghost predicate Describes(w: TwoMoves, o: Options) {
    && o.dt != 0.0 && o.policy.PlainLp? && ValidTick(w.t0) && ValidTick(w.t1) && ValidTick(w.t2)
    && Opened(o, w.t0) == w.st0 && w.st0.dead == 0.0
    && Accrued(o, w.st0, w.t0, w.t1) == w.acc1 && !Resizes(o, w.acc1, w.t1)
    && w.acc1.debt == 0.0 && w.acc1.buffer == 0.0 && Collateral(o.rules, w.acc1, w.t1) > 0.0
    && Reseated(o.rules, w.acc1, w.t1) == w.st1
    && Accrued(o, w.st1, w.t1, w.t2) == w.acc2
  }

  lemma LeakOfSecondMove(w: TwoMoves, o: Options)
    requires Describes(w, o)
    ensures ValidPath(w.Path()) && LeakAt(o, w.Path(), 2) == Leak(o, w.acc2, w.t2)
  {
    var ticks := w.Path();
    QuietStep(o, w.t0.s, w.st0, w.t0, w.t1, w.acc1);
    assert After(o, ticks, 0) == w.st0;
    assert After(o, ticks, 1) == w.st1;
  }

  /** Nothing is earned on turnover when there is none, nor on a price that does not move. */
  lemma NoFee(prm: Params, x: FeeInput)
    requires prm.turnover == 0.0 && x.p != 0.0 && (prm.fee == 0.0 || x.ethNow == x.ethPrev)
    ensures Fee(prm, x) == 0.0
  {
    var c := Concentration(x);
    assert prm.fee * prm.turnover * x.position * prm.dt * c == 0.0 by {
      assert prm.fee * prm.turnover == 0.0;
    }
  }

  // ---- a throttle at the upper bound loses wealth ----

  function FlatTick(): Tick {
    Tick(1.0, 1.0, 1.0, 2.0, 0.0, 0.0, false)
  }

  /** The price reaches the upper bound; `v` is the realised variance there. */
  function BoundTick(v: real): Tick {
    Tick(4.0, 2.0, 2.0, 4.0, 0.0, v, true)
  }

  function FlatState(): State {
    PlainState(2.0, 1.0, 2.0, 0.0, 1.0)
  }

  /** At the bound the range has sold out and earned a fee. */
  function BoundState(): State {
    PlainState(2.0, 1.0, 2.0, 5.0, 1.0).(fees := 1.0, ewma := 0.005)
  }

  /** What the rules say at the points this path visits. */
  ghost predicate LossRules(g: Rules, v: real, theta: real) {
    && g.unit(1.0, 1.0, 2.0) == 0.5 && g.unit(2.0, 1.0, 2.0) == 0.0
    && g.fee(FeeInput(1.0, 1.0, 0.0, 1.0, 1.0, 2.0, 1.0, 1.0)) == 0.0
    && g.fee(FeeInput(1.0, 0.0, 0.0, 4.0, 1.0, 2.0, 4.0, 2.0)) == 1.0
    && g.theta(1.0, 0.0, 0.0) == 1.0 && g.theta(1.0, 0.005, v) == theta
    && 0.0 < theta <= 0.005
  }

  lemma LossWalk(g: Rules, v: real, theta: real) returns (o: Options, w: TwoMoves)
    requires LossRules(g, v, theta) && 0.0 < v
    ensures o == PlainOptions(g, 1.0) && Describes(w, o) && w.Path() == [FlatTick(), FlatTick(), BoundTick(v)]
    ensures w.acc2 == BoundState() && w.t2 == BoundTick(v)
  {
    o := PlainOptions(g, 1.0);
    w := TwoMoves(FlatTick(), FlatTick(), BoundTick(v), FlatState(), FlatState(), FlatState(), BoundState());
    assert EthNow(g, FlatState(), FlatTick()) == 1.0 && EthNow(g, FlatState(), BoundTick(v)) == 0.0;
  }

  lemma BoundLeak(g: Rules, v: real, theta: real)
    requires LossRules(g, v, theta)
    ensures Leak(PlainOptions(g, 1.0), BoundState(), BoundTick(v)) == -(5.0 * theta)
  {
    assert RawWealth(g, BoundState(), BoundTick(v)) == 1.25;
  }

  function LossParams(k: real): Params {
    Params(k, 0.5, 0.0, 1.0, None, false)
  }

  lemma ShippedLossRules(k: real, v: real)
    requires 0.0 < k && 0.0 < v && 1.0 <= k * v
    ensures LossRules(Shipped(LossParams(k)), v, 0.005 / (k * v))
  {
    NoFee(LossParams(k), FeeInput(1.0, 1.0, 0.0, 1.0, 1.0, 2.0, 1.0, 1.0));
    BoundFee(k);
    SmallTheta(k * v);
  }

  lemma BoundFee(k: real)
    ensures Fee(LossParams(k), FeeInput(1.0, 0.0, 0.0, 4.0, 1.0, 2.0, 4.0, 2.0)) == 1.0
  {
    var x := FeeInput(1.0, 0.0, 0.0, 4.0, 1.0, 2.0, 4.0, 2.0);
    assert GrossMultiple(LossParams(k), x) == 1.0;
    assert Concentration(x) == 4.0 / 3.0;
  }

  lemma SmallTheta(w: real)
    requires 1.0 <= w
    ensures 0.0 < 0.005 / w <= 0.005
  {
  }

  /** A flat move and then a rise to the upper bound: the throttle there loses part of the position. The
      path is an input of the simulation for every `k` and every variance `v` with k v >= 1. */
  lemma ThrottleAtTheBoundLoses(k: real, v: real) returns (prm: Params, o: Options, ticks: seq<Tick>)
    requires 0.0 < k && 0.0 < v && 1.0 <= k * v
    ensures ShippedOptions(prm, o) && prm.k == k && prm.theta == None && o.theta == 1.0 && o.dt == prm.dt && o.repack
    ensures ValidPath(ticks) && |ticks| == 3 && FromPrices(ticks, 1.0, 2.0)
    ensures ReseatsOnMoves(ticks) && ticks[1].variance == 0.0 && ticks[2].variance == v
    ensures LeakAt(o, ticks, 2) < 0.0
  {
    prm := LossParams(k);
    ShippedLossRules(k, v);
    o, ticks := LossPath(Shipped(prm), v, 0.005 / (k * v));
  }

  lemma LossPath(g: Rules, v: real, theta: real) returns (o: Options, ticks: seq<Tick>)
    requires LossRules(g, v, theta) && 0.0 < v
    ensures o == PlainOptions(g, 1.0) && ValidPath(ticks) && |ticks| == 3 && FromPrices(ticks, 1.0, 2.0)
    ensures ReseatsOnMoves(ticks) && ticks[1].variance == 0.0 && ticks[2].variance == v
    ensures LeakAt(o, ticks, 2) < 0.0
  {
    var w;
    o, w := LossWalk(g, v, theta);
    ticks := w.Path();
    LeakOfSecondMove(w, o);
    BoundLeak(g, v, theta);
  }

  // ---- a repack far below the range creates wealth ----

  function HighTick(): Tick {
    Tick(4.0, 2.0, 1.0, 4.0, 0.0, 0.0, false)
  }

  /** The price falls to the lower bound of the first range. */
  function LowTick(): Tick {
    Tick(1.0, 1.0, 0.5, 2.0, 0.0, 0.0, true)
  }

  function CrashTick(v: real): Tick {
    Tick(0.25, 0.5, 0.25, 1.0, 0.0, v, true)
  }

  function HighState(): State {
    PlainState(4.0, 1.0, 4.0, 0.0, 1.0)
  }

  /** The range has bought two ETH on the way down, with cash it does not have. */
  function LowState(e0: real): State {
    PlainState(4.0, 1.0, 4.0, -2.0, e0)
  }

  ghost predicate GainRules(g: Rules) {
    && g.unit(2.0, 1.0, 4.0) == 0.25 && g.unit(1.0, 1.0, 4.0) == 0.75 && g.unit(0.5, 1.0, 4.0) == 0.75
    && g.fee(FeeInput(1.0, 3.0, 0.0, 1.0, 1.0, 4.0, 1.0, 1.0)) == 0.0
    && g.fee(FeeInput(3.0, 3.0, 0.0, -1.25, 1.0, 4.0, 0.25, 0.5)) == 0.0
    && g.theta(1.0, 0.0, 0.0) == 1.0
  }

  lemma GainWalk(g: Rules, v: real) returns (o: Options, w: TwoMoves)
    requires GainRules(g) && 0.0 <= v
    ensures o == PlainOptions(g, 4.0) && Describes(w, o) && w.Path() == [HighTick(), LowTick(), CrashTick(v)]
    ensures w.acc2 == LowState(3.0) && w.t2 == CrashTick(v)
  {
    o := PlainOptions(g, 4.0);
    w := TwoMoves(HighTick(), LowTick(), CrashTick(v), HighState(), LowState(1.0), LowState(3.0), LowState(3.0));
    assert EthNow(g, HighState(), HighTick()) == 1.0 && EthNow(g, HighState(), LowTick()) == 3.0;
    assert EthNow(g, LowState(3.0), LowTick()) == 3.0 && EthNow(g, LowState(3.0), CrashTick(v)) == 3.0;
  }

  lemma CrashLeak(g: Rules, v: real)
    requires GainRules(g)
    ensures Leak(PlainOptions(g, 4.0), LowState(3.0), CrashTick(v)) == 1.25
  {
    assert RawWealth(g, LowState(3.0), CrashTick(v)) == -5.0;
  }

  lemma GainPath(g: Rules, v: real) returns (o: Options, ticks: seq<Tick>)
    requires GainRules(g) && 0.0 <= v
    ensures o == PlainOptions(g, 4.0) && ValidPath(ticks) && |ticks| == 3 && FromPrices(ticks, 0.5, 2.0)
    ensures ReseatsOnMoves(ticks) && ticks[1].variance == 0.0 && ticks[2].variance == v
    ensures LeakAt(o, ticks, 2) == 1.25
  {
    var w;
    o, w := GainWalk(g, v);
    ticks := w.Path();
    LeakOfSecondMove(w, o);
    CrashLeak(g, v);
  }

  function GainParams(k: real): Params {
    Params(k, 0.0, 0.0, 1.0, None, false)
  }

  lemma ShippedGainRules(k: real)
    ensures GainRules(Shipped(GainParams(k)))
  {
    NoFee(GainParams(k), FeeInput(1.0, 3.0, 0.0, 1.0, 1.0, 4.0, 1.0, 1.0));
    NoFee(GainParams(k), FeeInput(3.0, 3.0, 0.0, -1.25, 1.0, 4.0, 0.25, 0.5));
  }

  /** A fall to the lower bound and then far below it: what the repack distributes is negative, the floor
      at zero wipes it out, and wealth appears. */
  lemma RepackBelowCreates(k: real, v: real) returns (prm: Params, o: Options, ticks: seq<Tick>)
    requires 0.0 < k && 0.0 <= v
    ensures ShippedOptions(prm, o) && prm.k == k && prm.theta == None && o.theta == 1.0 && o.dt == prm.dt && o.repack
    ensures ValidPath(ticks) && |ticks| == 3 && FromPrices(ticks, 0.5, 2.0)
    ensures ReseatsOnMoves(ticks) && ticks[1].variance == 0.0 && ticks[2].variance == v
    ensures LeakAt(o, ticks, 2) == 1.25
  {
    prm := GainParams(k);
    ShippedGainRules(k);
    o, ticks := GainPath(Shipped(prm), v);
  }
}
