/** The simulation's loop over a price path. */
module OverlayWalk {
  import opened Overlay
  import opened OverlayLedger
  import opened OverlayBounds
  import opened OverlayLvr

  /** The body of the loop, one stage after another on the running position. An unliquidated move keeps
      the ledger: net of the books, wealth moves by the held ETH times the price move and the leak. */
  method Advance(o: Options, entry: real, st0: State, m: Tick, t: Tick) returns (st: State)
    requires o.dt != 0.0 && t.p != 0.0
    ensures st == Step(o, entry, st0, m, t)
    ensures ValidOptions(o) && Shaped(st0) && ValidTick(t) && st0.dead == 0.0 && !Liquidating(o, st0, m, t) ==>
      NetOf(o, st, t) == NetOf(o, st0, m) + Gain(o, st0, m, t) + Leak(o, Accrued(o, st0, m, t), t)
  {
    st := st0;
    if st.dead != 0.0 {
      st := st.(dead := st.dead * (1.0 + o.stakeRate * o.dt));
      return;
    }
    st := Repriced(o.rules, st, m, t);
    st := Earned(o, st, m, t);
    st := Staked(o, st, t);
    st := Carried(o, st);
    st := Resized(o, st, t);
    if Liquidates(o.rules, st, t) {
      st := Liquidated(o.rules, st, t);
      return;
    }
    st := Reseated(o.rules, st, t);
    st := Rebalanced(o, st, entry, t);
    st := Squared(st);
    if ValidOptions(o) && Shaped(st0) && ValidTick(t) { StepLedger(o, entry, st0, m, t); }
  }

  /** What a finished walk satisfies. */
  ghost predicate Sound(o: Options, ticks: seq<Tick>, st: State, lvr: real)
    requires o.dt != 0.0 && ValidPath(ticks)
  {
    var n := |ticks| - 1;
    && Sane(st)
    && (st.liq == 0 ==>
      Wealth(o.rules, st, ticks[n]) == o.equity + Exposure(o, ticks, n) + Books(st) + Leaks(o, ticks, n))
    && (AllRoots(ticks) ==> 0.0 <= lvr)
  }

  ghost predicate AllRoots(ticks: seq<Tick>) {
    forall k :: 0 <= k < |ticks| ==> IsRoot(ticks[k])
  }

  lemma AfterIsSound(o: Options, ticks: seq<Tick>)
    requires ValidOptions(o) && ValidPath(ticks)
    ensures var n := |ticks| - 1; Sound(o, ticks, After(o, ticks, n), LvrTotal(o, ticks, n))
  {
    var n := |ticks| - 1;
    WalkSane(o, ticks, n);
    if After(o, ticks, n).liq == 0 { WalkLedger(o, ticks, n); }
    if AllRoots(ticks) { LvrGrows(o, ticks, 0, n); }
  }

  /** The walk with its running loss: each move's loss is read off before the position changes. It ends in
      a sound state whose wealth is accounted for, and a loss that is not negative. */
  method Walk(o: Options, ticks: seq<Tick>) returns (st: State, lvr: real)
    requires o.dt != 0.0 && ValidPath(ticks)
    ensures st == After(o, ticks, |ticks| - 1) && lvr == LvrTotal(o, ticks, |ticks| - 1)
    ensures ValidOptions(o) ==> Sound(o, ticks, st, lvr)
  {
    st, lvr := Opened(o, ticks[0]), 0.0;
    for i := 1 to |ticks|
      invariant st == After(o, ticks, i - 1) && lvr == LvrTotal(o, ticks, i - 1)
    {
      if st.dead == 0.0 { lvr := lvr + Lvr(st.depth, st.sa, st.sb, ticks[i - 1], ticks[i]); }
      st := Advance(o, ticks[0].s, st, ticks[i - 1], ticks[i]);
    }
    if ValidOptions(o) { AfterIsSound(o, ticks); }
  }
}
