/** The walk's theorems for the simulation's own formulas. */
module OverlayShipped {
  import opened Overlay
  import opened OverlayRules
  import opened OverlayLedger
  import opened OverlayBounds

  /** A walk with the simulation's formulas and rates that are not negative. */
  ghost predicate ShippedOptions(prm: Params, o: Options) {
    && ValidParams(prm) && o.rules == Shipped(prm)
    && 0.0 < o.dt && 0.0 <= o.equity && 0.0 <= o.theta <= 1.0
    && 0.0 <= o.borrow && 0.0 <= o.stakeRate && 0.0 <= o.gasPerPrice && 0.0 <= o.slip
  }

  /** On every path: the state is sound, and as long as nothing was liquidated wealth is the deposit,
      plus held ETH times price moves, plus what was booked, plus what resizes leaked. */
  lemma ShippedWalk(prm: Params, o: Options, ticks: seq<Tick>, n: nat)
    requires ShippedOptions(prm, o) && ValidPath(ticks) && n < |ticks|
    ensures Sane(After(o, ticks, n))
    ensures After(o, ticks, n).liq == 0 ==>
      Wealth(o.rules, After(o, ticks, n), ticks[n])
      == o.equity + Exposure(o, ticks, n) + Books(After(o, ticks, n)) + Leaks(o, ticks, n)
  {
    ShippedIsValid(prm);
    assert ValidOptions(o);
    WalkSane(o, ticks, n);
    if After(o, ticks, n).liq == 0 { WalkLedger(o, ticks, n); }
  }
}
