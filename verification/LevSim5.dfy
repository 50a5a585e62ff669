/** The corrected squeeze: the pool that funds delevering is drained from outside on stress days, and
    the reserve to hold apart from it is the worst day's shortfall. */
module LevSim5 {
  import opened Leverage
  import opened Reals

  // ---- when the programme is alive ----

  /** The highest price up to day `i`. */
  function Peak(px: seq<real>, i: nat): (m: real)
    requires i < |px|
    ensures forall j | 0 <= j <= i :: px[j] <= m
  {
    if i == 0 then px[0] else Max(px[i], Peak(px, i - 1))
  }

  /** Day `i` is at or below the liquidation level of the peak so far. */
  ghost predicate Breach(px: seq<real>, liq: real, i: nat)
    requires i < |px|
  {
    px[i] <= Peak(px, i) * (1.0 - liq)
  }

  /** Day `i` is at or above everything before it. */
  ghost predicate NewHigh(px: seq<real>, i: nat)
    requires 0 < i < |px|
  {
    px[i] >= Peak(px, i - 1)
  }

  /** Every breach up to day `i` has been followed by a new high. */
  ghost predicate Recovered(px: seq<real>, liq: real, i: nat)
    requires i < |px|
  {
    forall j | 0 < j <= i && Breach(px, liq, j) :: exists k :: j < k <= i && NewHigh(px, k)
  }

  lemma RecoveredStep(px: seq<real>, liq: real, i: nat)
    requires 0 < i < |px| && 0.0 < liq && forall p | p in px :: 0.0 < p
    ensures Recovered(px, liq, i) <==> if Recovered(px, liq, i - 1) then !Breach(px, liq, i) else NewHigh(px, i)
    ensures NewHigh(px, i) ==> !Breach(px, liq, i)
  {
    assert px[i] in px;
    if NewHigh(px, i) {
      MulPos(px[i], liq);
      assert px[i] * (1.0 - liq) == px[i] - px[i] * liq;
    }
    if Recovered(px, liq, i - 1) && !Breach(px, liq, i) {
      forall j | 0 < j <= i && Breach(px, liq, j)
        ensures exists k :: j < k <= i && NewHigh(px, k)
      {
        var k :| j < k <= i - 1 && NewHigh(px, k);
      }
    }
  }

  /** The drawdown that liquidates. */
  function Level(leverage: real): real
    requires 0.0 < leverage
  {
    (1.0 / leverage) / MCR
  }

  datatype Watch = Watch(live: bool, pk: real)

  /** One price: a breach ends a life, and reaching the old peak starts one. */
  function Watched(w: Watch, p: real, liq: real): Watch {
    if w.live then
      var pk := Max(p, w.pk);
      Watch(!(p <= pk * (1.0 - liq)), pk)
    else if p >= w.pk then Watch(true, p)
    else w
  }

  ghost predicate Tracks(px: seq<real>, liq: real, i: nat, w: Watch)
    requires i < |px|
  {
    w.pk == Peak(px, i) && (w.live <==> Recovered(px, liq, i))
  }

  lemma WatchedTracks(px: seq<real>, liq: real, i: nat, w: Watch)
    requires 0 < i < |px| && 0.0 < liq && forall p | p in px :: 0.0 < p
    requires Tracks(px, liq, i - 1, w)
    ensures Tracks(px, liq, i, Watched(w, px[i], liq))
  {
    RecoveredStep(px, liq, i);
  }

  ghost predicate AliveOn(px: seq<real>, liq: real, out: seq<bool>, i: nat)
    requires 0 < i < |px| && i <= |out|
  {
    out[i - 1] <==> Recovered(px, liq, i)
  }

  /** The loop over prices: alive on day `i` exactly when every breach has been recovered from. */
  method Alive(px: seq<real>, leverage: real) returns (out: seq<bool>)
    requires 0 < |px| && 0.0 < leverage && forall p | p in px :: 0.0 < p
    ensures |out| == |px| - 1
    ensures forall i | 0 < i < |px| :: AliveOn(px, Level(leverage), out, i)
  {
    var liq := Level(leverage);
    LevelIsPositive(leverage);
    out := [];
    var live, pk := true, px[0];
    for i := 1 to |px|
      invariant |out| == i - 1 && Tracks(px, liq, i - 1, Watch(live, pk))
      invariant forall j | 0 < j < i :: AliveOn(px, liq, out, j)
    {
      var p := px[i];
      WatchedTracks(px, liq, i, Watch(live, pk));
      ghost var next := Watched(Watch(live, pk), p, liq);
      if live {
        if p > pk {
          pk := p;
        }
        if p <= pk * (1.0 - liq) {
          live := false;
        }
      } else {
        if p >= pk {
          live, pk := true, p;
        }
      }
      assert Watch(live, pk) == next;
      ghost var was := out;
      out := out + [live];
      assert forall j | 0 < j < i :: AliveOn(px, liq, was, j) ==> AliveOn(px, liq, out, j);
      assert AliveOn(px, liq, out, i);
    }
  }

  lemma LevelIsPositive(leverage: real)
    requires 0.0 < leverage
    ensures 0.0 < Level(leverage)
  {
    RecipMono(leverage, leverage);
  }

  // ---- the trace ----

  /** The target notional, the borrowed part of a notional, and what a stress day leaves in the pool. */
  datatype Params = Params(target: real, debt: real -> real, drain: real -> real)

  /** A day's absolute return, and whether the programme is alive on it and was the day before. */
  datatype Day = Day(move: real, alive: bool, wasAlive: bool)

  datatype State = State(notional: real, sp: real, peakDebt: real, reqRes: real)

  datatype Trade = Trade(op: real, dv: real)

  function TradeOn(target: real, notional: real, d: Day): Trade {
    if d.alive && d.wasAlive && notional < target && d.move < 0.03 then Trade(OpenSize(target, notional), 0.0)
    else if notional > 0.0 && d.move > 0.05 then Trade(0.0, DeleverSize(notional, d.move))
    else Trade(0.0, 0.0)
  }

  /** The pool once the day's opens are in and the outside has drained it. */
  function PoolOn(c: Params, s: State, d: Day, t: Trade): real {
    var sp := s.sp + c.debt(t.op);
    if d.move > 0.03 then Max(0.0, c.drain(sp)) else sp
  }

  function Apply(c: Params, s: State, d: Day, t: Trade): State {
    var notional := s.notional + t.op - t.dv;
    var (sp, need) := (PoolOn(c, s, d, t), c.debt(t.dv));
    State(notional, if need > 0.0 then Max(0.0, sp - need) else sp, Max(s.peakDebt, c.debt(notional)),
          if need > 0.0 then Max(s.reqRes, need - sp) else s.reqRes)
  }

  function Step(c: Params, s: State, d: Day): State {
    Apply(c, s, d, TradeOn(c.target, s.notional, d))
  }

  function After(c: Params, days: seq<Day>, n: nat): State
    requires n <= |days|
  {
    if n == 0 then State(0.0, 0.0, 0.0, 0.0) else Step(c, After(c, days, n - 1), days[n - 1])
  }

  // ---- what the terms must satisfy ----

  /** A drain takes some part of the pool, and leaves more of a larger pool. */
  ghost predicate Drains(drain: real -> real, a: real, b: real) {
    0.0 <= drain(a) <= a && drain(a) <= drain(b)
  }

  ghost predicate Valid(c: Params) {
    && 0.0 <= c.target
    && (forall a, b :: Adds(c.debt, a, b))
    && (forall a | 0.0 <= a :: Pays(c.debt, a))
    && (forall a, b | 0.0 <= a <= b :: Drains(c.drain, a, b))
  }

  ghost predicate Moves(days: seq<Day>) {
    forall d | d in days :: 0.0 <= d.move
  }

  ghost predicate Trades(target: real, notional: real, t: Trade) {
    0.0 <= t.op <= target - notional && 0.0 <= t.dv <= notional && (t.op == 0.0 || t.dv == 0.0)
  }

  lemma TradeBounds(target: real, notional: real, d: Day)
    requires 0.0 <= notional <= target && 0.0 <= d.move
    ensures Trades(target, notional, TradeOn(target, notional, d))
  {
    DeleverBounds(notional, d.move);
    if notional < target { OpenBounds(target, notional); }
  }

  lemma DebtMono(c: Params, a: real, b: real)
    requires Valid(c) && 0.0 <= a <= b
    ensures 0.0 <= c.debt(a) <= c.debt(b) && c.debt(b - a) == c.debt(b) - c.debt(a) && c.debt(0.0) == 0.0
  {
    assert Adds(c.debt, a, b - a) && Adds(c.debt, 0.0, 0.0) && Pays(c.debt, b - a) && Pays(c.debt, a);
  }

  lemma DebtOfNothing(c: Params, z: real)
    requires Valid(c) && z == 0.0
    ensures c.debt(z) == 0.0
  {
    assert Adds(c.debt, z, z) && z + z == z;
  }

  // ---- bounds ----

  ghost predicate Bounded(c: Params, s: State) {
    && 0.0 <= s.notional <= c.target && 0.0 <= s.sp
    && c.debt(s.notional) <= s.peakDebt <= c.debt(c.target)
    && 0.0 <= s.reqRes <= s.peakDebt
  }

  lemma ApplyBounded(c: Params, s: State, d: Day, t: Trade)
    requires Valid(c) && Bounded(c, s) && Trades(c.target, s.notional, t)
    ensures Bounded(c, Apply(c, s, d, t)) && 0.0 <= PoolOn(c, s, d, t)
  {
    var n := s.notional + t.op - t.dv;
    DebtMono(c, n, c.target);
    DebtMono(c, 0.0, t.op);
    DebtMono(c, t.dv, s.notional);
    assert Drains(c.drain, s.sp + c.debt(t.op), s.sp + c.debt(t.op));
  }

  /** On every path, alive sequence and drain: the reserve is between nothing and the peak debt, and
      the peak debt is at most the debt of the whole target. */
  lemma {:induction false} ReserveBounds(c: Params, days: seq<Day>, n: nat)
    requires Valid(c) && Moves(days) && n <= |days|
    ensures Bounded(c, After(c, days, n))
  {
    if n == 0 {
      DebtMono(c, 0.0, c.target);
    } else {
      var s := After(c, days, n - 1);
      ReserveBounds(c, days, n - 1);
      TradeBounds(c.target, s.notional, days[n - 1]);
      ApplyBounded(c, s, days[n - 1], TradeOn(c.target, s.notional, days[n - 1]));
    }
  }

  // ---- what the reserve means ----

  ghost function TradeAt(c: Params, days: seq<Day>, i: nat): Trade
    requires i < |days|
  {
    TradeOn(c.target, After(c, days, i).notional, days[i])
  }

  /** What day `i` has to deliver. */
  ghost function NeedAt(c: Params, days: seq<Day>, i: nat): real
    requires i < |days|
  {
    c.debt(TradeAt(c, days, i).dv)
  }

  /** What the drained pool holds towards it. */
  ghost function PoolAt(c: Params, days: seq<Day>, i: nat): real
    requires i < |days|
  {
    PoolOn(c, After(c, days, i), days[i], TradeAt(c, days, i))
  }

  ghost predicate CoversDay(c: Params, days: seq<Day>, reserve: real, i: nat)
    requires i < |days|
  {
    NeedAt(c, days, i) <= PoolAt(c, days, i) + reserve
  }

  /** A reserve with which every day's delevering is met. */
  ghost predicate Suffices(c: Params, days: seq<Day>, n: nat, reserve: real)
    requires n <= |days|
  {
    0.0 <= reserve && forall i | 0 <= i < n :: CoversDay(c, days, reserve, i)
  }

  /** The reported reserve is the least that covers every stress day. */
  lemma {:induction false} LeastReserve(c: Params, days: seq<Day>, n: nat, reserve: real)
    requires Valid(c) && Moves(days) && n <= |days|
    ensures Suffices(c, days, n, reserve) <==> After(c, days, n).reqRes <= reserve
  {
    if n > 0 {
      LeastReserve(c, days, n - 1, reserve);
      ReserveBounds(c, days, n - 1);
      OneMoreDay(c, days, n, reserve, After(c, days, n - 1));
    }
  }

  lemma OneMoreDay(c: Params, days: seq<Day>, n: nat, reserve: real, s: State)
    requires Valid(c) && Moves(days) && 0 < n <= |days| && s == After(c, days, n - 1) && Bounded(c, s)
    requires Suffices(c, days, n - 1, reserve) <==> s.reqRes <= reserve
    ensures Suffices(c, days, n, reserve) <==> Step(c, s, days[n - 1]).reqRes <= reserve
  {
    ReserveStep(c, s, days[n - 1], TradeAt(c, days, n - 1), reserve);
    assert CoversDay(c, days, reserve, n - 1) <==>
      c.debt(TradeAt(c, days, n - 1).dv) <= PoolAt(c, days, n - 1) + reserve;
  }

  lemma ReserveStep(c: Params, s: State, d: Day, t: Trade, reserve: real)
    requires Valid(c) && Bounded(c, s) && 0.0 <= d.move && t == TradeOn(c.target, s.notional, d)
    ensures Apply(c, s, d, t).reqRes <= reserve <==> s.reqRes <= reserve && c.debt(t.dv) <= PoolOn(c, s, d, t) + reserve
  {
    TradeBounds(c.target, s.notional, d);
    ApplyBounded(c, s, d, t);
  }

  // ---- the two extremes, and everything between ----

  ghost predicate Undrained(c: Params) {
    forall x :: c.drain(x) == x
  }

  ghost predicate Emptied(c: Params) {
    forall x :: c.drain(x) == 0.0
  }

  /** With nothing drained the pool is always the debt of what is open, and no reserve is needed. */
  lemma {:induction false} NoDrainNoReserve(c: Params, days: seq<Day>, n: nat)
    requires Valid(c) && Moves(days) && n <= |days| && Undrained(c)
    ensures var s := After(c, days, n); s.reqRes == 0.0 && s.sp == c.debt(s.notional)
  {
    if n == 0 {
      DebtOfNothing(c, After(c, days, 0).notional);
    } else {
      NoDrainNoReserve(c, days, n - 1);
      ReserveBounds(c, days, n - 1);
      UndrainedStep(c, After(c, days, n - 1), days[n - 1], TradeAt(c, days, n - 1));
    }
  }

  lemma UndrainedStep(c: Params, s: State, d: Day, t: Trade)
    requires Valid(c) && Bounded(c, s) && 0.0 <= d.move && Undrained(c)
    requires t == TradeOn(c.target, s.notional, d) && s.reqRes == 0.0 && s.sp == c.debt(s.notional)
    ensures var r := Apply(c, s, d, t); r.reqRes == 0.0 && r.sp == c.debt(r.notional)
  {
    TradeBounds(c.target, s.notional, d);
    DebtMono(c, s.notional, s.notional + t.op);
    DebtMono(c, t.dv, s.notional);
  }

  /** When the outside empties the pool, the reserve is the worst single day's need. */
  lemma {:induction false} FullDrain(c: Params, days: seq<Day>, n: nat)
    requires Valid(c) && Moves(days) && n <= |days| && Emptied(c)
    ensures After(c, days, n).reqRes == WorstNeed(c, days, n)
  {
    if n > 0 {
      FullDrain(c, days, n - 1);
      ReserveBounds(c, days, n - 1);
      DrainedStep(c, After(c, days, n - 1), days[n - 1], TradeAt(c, days, n - 1));
    }
  }

  ghost function WorstNeed(c: Params, days: seq<Day>, n: nat): real
    requires n <= |days|
  {
    if n == 0 then 0.0 else Max(WorstNeed(c, days, n - 1), NeedAt(c, days, n - 1))
  }

  lemma DrainedStep(c: Params, s: State, d: Day, t: Trade)
    requires Valid(c) && Bounded(c, s) && 0.0 <= d.move && Emptied(c)
    requires t == TradeOn(c.target, s.notional, d)
    ensures Apply(c, s, d, t).reqRes == Max(s.reqRes, c.debt(t.dv))
  {
    TradeBounds(c.target, s.notional, d);
    DebtMono(c, 0.0, t.dv);
  }

  /** `hard` leaves no more than `soft` does. */
  ghost predicate DrainsMore(hard: Params, soft: Params) {
    hard.target == soft.target && (forall x :: SameDebt(hard, soft, x)) && forall x | 0.0 <= x :: Leaves(hard, soft, x)
  }

  ghost predicate Leaves(hard: Params, soft: Params, x: real) {
    hard.drain(x) <= soft.drain(x)
  }

  ghost predicate SameDebt(hard: Params, soft: Params, x: real) {
    hard.debt(x) == soft.debt(x)
  }

  ghost predicate Worse(hard: State, soft: State) {
    hard.notional == soft.notional && hard.peakDebt == soft.peakDebt && hard.sp <= soft.sp && soft.reqRes <= hard.reqRes
  }

  /** A harder drain never needs a smaller reserve; the notional and the peak debt do not feel it. */
  lemma {:induction false} ReserveMonotone(hard: Params, soft: Params, days: seq<Day>, n: nat)
    requires Valid(hard) && Valid(soft) && Moves(days) && n <= |days| && DrainsMore(hard, soft)
    ensures Worse(After(hard, days, n), After(soft, days, n))
  {
    if n > 0 {
      ReserveMonotone(hard, soft, days, n - 1);
      ReserveBounds(hard, days, n - 1);
      ReserveBounds(soft, days, n - 1);
      WorseAfter(hard, soft, days, n, After(hard, days, n - 1), After(soft, days, n - 1));
    }
  }

  lemma WorseAfter(hard: Params, soft: Params, days: seq<Day>, n: nat, h: State, s: State)
    requires Valid(hard) && Valid(soft) && DrainsMore(hard, soft) && Bounded(hard, h) && Bounded(soft, s) && Worse(h, s)
    requires Moves(days) && 0 < n <= |days| && h == After(hard, days, n - 1) && s == After(soft, days, n - 1)
    ensures Worse(After(hard, days, n), After(soft, days, n))
  {
    WorseFrom(hard, soft, h, s, days[n - 1]);
  }

  lemma WorseFrom(hard: Params, soft: Params, h: State, s: State, d: Day)
    requires Valid(hard) && Valid(soft) && DrainsMore(hard, soft) && Bounded(hard, h) && Bounded(soft, s) && Worse(h, s)
    requires 0.0 <= d.move
    ensures Worse(Step(hard, h, d), Step(soft, s, d))
  {
    TradeBounds(hard.target, h.notional, d);
    WorseStep(hard, soft, h, s, d, TradeOn(hard.target, h.notional, d));
  }

  lemma WorseStep(hard: Params, soft: Params, h: State, s: State, d: Day, t: Trade)
    requires Valid(hard) && Valid(soft) && DrainsMore(hard, soft) && Bounded(hard, h) && Bounded(soft, s) && Worse(h, s)
    requires Trades(hard.target, h.notional, t)
    ensures Worse(Apply(hard, h, d, t), Apply(soft, s, d, t))
  {
    PoolWorse(hard, soft, h, s, d, t);
    assert SameDebt(hard, soft, t.dv) && SameDebt(hard, soft, h.notional + t.op - t.dv);
  }

  lemma PoolWorse(hard: Params, soft: Params, h: State, s: State, d: Day, t: Trade)
    requires Valid(hard) && Valid(soft) && DrainsMore(hard, soft) && 0.0 <= t.op && 0.0 <= h.sp <= s.sp
    ensures PoolOn(hard, h, d, t) <= PoolOn(soft, s, d, t)
  {
    var (x, y) := (h.sp + hard.debt(t.op), s.sp + soft.debt(t.op));
    assert Pays(hard.debt, t.op) && SameDebt(hard, soft, t.op);
    assert Drains(hard.drain, x, y) && Leaves(hard, soft, y);
  }

  // ---- the shipped trace ----

  function Shipped(equity: real, leverage: real, ext: real): Params
    requires 1.0 <= leverage
  {
    var dpf := DebtFraction(leverage);
    Params(leverage * equity, x => x * dpf, x => x * (1.0 - ext))
  }

  /** The shipped terms are valid, the debt of the target is E (L - 1), and a larger `ext` drains more. */
  lemma ShippedIsValid(equity: real, leverage: real, ext: real)
    requires 1.0 <= leverage && 0.0 <= equity && 0.0 <= ext <= 1.0
    ensures var c := Shipped(equity, leverage, ext); Valid(c) && c.debt(c.target) == equity * (leverage - 1.0)
  {
    var c, dpf := Shipped(equity, leverage, ext), DebtFraction(leverage);
    DebtFractionBounds(leverage);
    MulNonNeg(leverage, equity);
    assert (leverage * equity) * dpf == equity * (dpf * leverage);
    forall a, b
      ensures Adds(c.debt, a, b)
    {
      assert (a + b) * dpf == a * dpf + b * dpf;
    }
    forall a | 0.0 <= a
      ensures Pays(c.debt, a)
    {
      MulNonNeg(a, dpf);
    }
    forall a, b | 0.0 <= a <= b
      ensures Drains(c.drain, a, b)
    {
      MulMono(1.0 - ext, a, b);
      MulNonNeg(a, 1.0 - ext);
      MulNonNeg(a, ext);
      assert a * (1.0 - ext) == a - a * ext;
    }
  }

  lemma ShippedDrainsMore(equity: real, leverage: real, ext: real, ext': real)
    requires 1.0 <= leverage && ext <= ext'
    ensures DrainsMore(Shipped(equity, leverage, ext'), Shipped(equity, leverage, ext))
  {
    var hard, soft := Shipped(equity, leverage, ext'), Shipped(equity, leverage, ext);
    forall x | 0.0 <= x
      ensures Leaves(hard, soft, x)
    {
      MulMono(x, 1.0 - ext', 1.0 - ext);
    }
  }

  lemma ShippedExtremes(equity: real, leverage: real)
    requires 1.0 <= leverage
    ensures Undrained(Shipped(equity, leverage, 0.0)) && Emptied(Shipped(equity, leverage, 1.0))
  {
  }

  /** The reserve of the simulation as it is called: within the peak debt, that within E (L - 1), growing
      with the drain, and nothing without one. */
  lemma ShippedReserve(equity: real, leverage: real, ext: real, ext': real, days: seq<Day>, n: nat)
    requires 1.0 <= leverage && 0.0 <= equity && 0.0 <= ext <= ext' <= 1.0 && Moves(days) && n <= |days|
    ensures
      var soft := After(Shipped(equity, leverage, ext), days, n);
      var hard := After(Shipped(equity, leverage, ext'), days, n);
      && 0.0 <= soft.reqRes <= hard.reqRes <= hard.peakDebt == soft.peakDebt
      && hard.peakDebt <= equity * (leverage - 1.0)
      && (ext == 0.0 ==> soft.reqRes == 0.0)
      && (ext' == 1.0 ==> hard.reqRes == WorstNeed(Shipped(equity, leverage, ext'), days, n))
  {
    var (s, h) := (Shipped(equity, leverage, ext), Shipped(equity, leverage, ext'));
    ShippedIsValid(equity, leverage, ext);
    ShippedIsValid(equity, leverage, ext');
    ShippedDrainsMore(equity, leverage, ext, ext');
    ReserveBounds(s, days, n);
    ReserveBounds(h, days, n);
    ReserveMonotone(h, s, days, n);
    ShippedExtremes(equity, leverage);
    if ext == 0.0 { NoDrainNoReserve(s, days, n); }
    if ext' == 1.0 { FullDrain(h, days, n); }
  }

  /** The days of a trace: the programme counts as alive before the first. */
  function Days(moves: seq<real>, al: seq<bool>): (days: seq<Day>)
    requires |moves| == |al|
    ensures |days| == |moves|
  {
    seq(|moves|, i requires 0 <= i < |moves| => Day(moves[i], al[i], i == 0 || al[i - 1]))
  }

  /** The body of the trace loop; the reserve stays within the peak debt and that within the target's. */
  method Advance(c: Params, s: State, d: Day) returns (r: State)
    ensures r == Step(c, s, d)
    ensures Valid(c) && Bounded(c, s) && 0.0 <= d.move ==> Bounded(c, r)
  {
    var t := TradeOn(c.target, s.notional, d);
    var notional, sp, reqRes := s.notional + t.op - t.dv, s.sp + c.debt(t.op), s.reqRes;
    if d.move > 0.03 {
      sp := Max(0.0, c.drain(sp));
    }
    var peakDebt := Max(s.peakDebt, c.debt(notional));
    var need := c.debt(t.dv);
    if need > 0.0 {
      reqRes := Max(reqRes, need - sp);
      sp := Max(0.0, sp - need);
    }
    r := State(notional, sp, peakDebt, reqRes);
    if Valid(c) && Bounded(c, s) && 0.0 <= d.move {
      TradeBounds(c.target, s.notional, d);
      ApplyBounded(c, s, d, t);
    }
  }

  /** The trace loop: the reserve it reports is bounded by the debt, and is the least that suffices. */
  method Trace(c: Params, moves: seq<real>, al: seq<bool>) returns (peakDebt: real, reqRes: real)
    requires Valid(c) && |moves| == |al| && forall i | 0 <= i < |moves| :: 0.0 <= moves[i]
    ensures var s := After(c, Days(moves, al), |moves|); peakDebt == s.peakDebt && reqRes == s.reqRes
    ensures 0.0 <= reqRes <= peakDebt <= c.debt(c.target)
    ensures forall reserve :: Suffices(c, Days(moves, al), |moves|, reserve) <==> reqRes <= reserve
  {
    ghost var days := Days(moves, al);
    var s, prev := State(0.0, 0.0, 0.0, 0.0), true;
    for i := 0 to |moves|
      invariant prev == (i == 0 || al[i - 1])
      invariant s == After(c, days, i)
    {
      s := Advance(c, s, Day(moves[i], al[i], prev));
      prev := al[i];
    }
    assert Moves(days);
    ReserveBounds(c, days, |days|);
    LeastReserves(c, days);
    peakDebt, reqRes := s.peakDebt, s.reqRes;
  }

  lemma LeastReserves(c: Params, days: seq<Day>)
    requires Valid(c) && Moves(days)
    ensures forall reserve :: Suffices(c, days, |days|, reserve) <==> After(c, days, |days|).reqRes <= reserve
  {
    forall reserve
      ensures Suffices(c, days, |days|, reserve) <==> After(c, days, |days|).reqRes <= reserve
    {
      LeastReserve(c, days, |days|, reserve);
    }
  }
}
