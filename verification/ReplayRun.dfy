/** One window of the replay: fees credited while the price is inside the range in force, and the
    range re-placed on a cadence. */
module ReplayRun {
  import opened Replay
  import Division

  /** One daily sample: the pool root, the price, the range around its tick, and its fee credit. */
  datatype Day = Day(sq: nat, rate: nat, range: Range, fee: nat)

  /** The loop's variables. */
  datatype Position = Position(liq: nat, range: Range, fees: nat, last: nat, inRange: nat)

  predicate ValidWindow(win: seq<Day>) {
    0 < |win| && forall d | d in win :: ValidRange(d.range)
  }

  predicate Inside(range: Range, sq: nat) {
    range.lo < sq < range.hi
  }

  const START: nat := 4000 * E18

  function ValueOn(md: MulDiv, p: Position, d: Day): nat
    requires ValidRange(p.range)
  {
    PositionValue(md, p.liq, d.sq, p.range, d.rate)
  }

  function Placed(md: MulDiv, value: nat, d: Day): nat
    requires ValidRange(d.range)
  {
    LiquidityFor(md, value, d.sq, d.range, d.rate)
  }

  function Credited(p: Position, d: Day): Position {
    if Inside(p.range, d.sq) then p.(fees := p.fees + d.fee, inRange := p.inRange + 1) else p
  }

  predicate Due(p: Position, i: nat, cadence: nat) {
    cadence > 0 && i - p.last >= cadence
  }

  /** The liquidity a position has once it is re-placed: from its liquidity and range, and the day. */
  type Recentre = (nat, Range, Day) -> nat

  /** The replay's own: value the position, then buy liquidity in the day's range. */
  function Recentring(md: MulDiv): Recentre {
    (liq: nat, range: Range, d: Day) =>
      if ValidRange(range) && ValidRange(d.range) then Placed(md, PositionValue(md, liq, d.sq, range, d.rate), d) else 0
  }

  function DayStep(re: Recentre, p: Position, i: nat, d: Day, cadence: nat): Position {
    var q := Credited(p, d);
    if Due(q, i, cadence) then q.(liq := re(q.liq, q.range, d), range := d.range, last := i) else q
  }

  /** The position after day `i`, opened with `liq0`. */
  function After(re: Recentre, liq0: nat, win: seq<Day>, cadence: nat, i: nat): Position
    requires i < |win|
  {
    if i == 0 then Position(liq0, win[0].range, 0, 0, 0)
    else DayStep(re, After(re, liq0, win, cadence, i - 1), i, win[i], cadence)
  }

  // ---- what the cadence fixes ----

  /** The last day up to `i` on which the range was placed: the largest multiple of the cadence. */
  function PlacedOn(cadence: nat, i: nat): (k: nat)
    ensures k <= i
  {
    if cadence == 0 then 0 else i - i % cadence
  }

  lemma NextPlacedOn(cadence: nat, i: nat)
    requires 0 < cadence && 0 < i
    ensures PlacedOn(cadence, i) == if i - PlacedOn(cadence, i - 1) >= cadence then i else PlacedOn(cadence, i - 1)
  {
    var q, r := (i - 1) / cadence, (i - 1) % cadence;
    assert i - 1 == q * cadence + r;
    if r + 1 == cadence {
      assert i == (q + 1) * cadence + 0;
      Division.ModUnique(i, q + 1, 0, cadence);
    } else {
      Division.ModUnique(i, q, r + 1, cadence);
    }
  }

  /** Whatever the prices, the range in force after day `i` is the one of the last multiple of the
      cadence, and of the first day when the cadence is zero. */
  lemma {:induction false} RangeInForce(re: Recentre, liq0: nat, win: seq<Day>, cadence: nat, i: nat)
    requires i < |win|
    ensures var p := After(re, liq0, win, cadence, i);
      p.last == PlacedOn(cadence, i) && p.range == win[p.last].range
  {
    if i > 0 {
      RangeInForce(re, liq0, win, cadence, i - 1);
      if cadence > 0 { NextPlacedOn(cadence, i); }
    }
  }

  /** The range that day `i`'s price is tested against. */
  function RangeAt(win: seq<Day>, cadence: nat, i: nat): Range
    requires 0 < i < |win|
  {
    win[PlacedOn(cadence, i - 1)].range
  }

  /** The days up to `n`, the first excluded, whose price is inside the range in force. */
  function DaysInside(win: seq<Day>, cadence: nat, n: nat): set<nat>
    requires n < |win|
  {
    set i: nat | 0 < i <= n && Inside(RangeAt(win, cadence, i), win[i].sq)
  }

  ghost function FeesOn(win: seq<Day>, days: set<nat>): nat
    requires forall i | i in days :: i < |win|
  {
    if days == {} then 0 else var i :| i in days; win[i].fee + FeesOn(win, days - {i})
  }

  lemma {:induction false} FeesWithout(win: seq<Day>, days: set<nat>, i: nat)
    requires i in days && forall j | j in days :: j < |win|
    ensures FeesOn(win, days) == win[i].fee + FeesOn(win, days - {i})
    decreases |days|
  {
    var k :| k in days && FeesOn(win, days) == win[k].fee + FeesOn(win, days - {k});
    if k != i {
      FeesWithout(win, days - {k}, i);
      FeesWithout(win, days - {i}, k);
      assert days - {k} - {i} == days - {i} - {k};
    }
  }

  /** Fees are credited for exactly the days inside the range in force, once each. */
  lemma {:induction false} FeesAreInRangeDays(re: Recentre, liq0: nat, win: seq<Day>, cadence: nat, i: nat)
    requires i < |win|
    ensures Tallies(After(re, liq0, win, cadence, i), win, DaysInside(win, cadence, i))
  {
    if i > 0 {
      FeesAreInRangeDays(re, liq0, win, cadence, i - 1);
      RangeInForce(re, liq0, win, cadence, i - 1);
      TallyStep(re, After(re, liq0, win, cadence, i - 1), win, i, cadence);
    } else {
      NoDays(win, cadence);
    }
  }

  lemma NoDays(win: seq<Day>, cadence: nat)
    requires 0 < |win|
    ensures DaysInside(win, cadence, 0) == {}
  {
  }

  ghost predicate Tallies(p: Position, win: seq<Day>, days: set<nat>)
    requires forall i | i in days :: i < |win|
  {
    p.fees == FeesOn(win, days) && p.inRange == |days|
  }

  lemma TallyStep(re: Recentre, p: Position, win: seq<Day>, i: nat, cadence: nat)
    requires 0 < i < |win|
    requires p.range == RangeAt(win, cadence, i) && Tallies(p, win, DaysInside(win, cadence, i - 1))
    ensures Tallies(DayStep(re, p, i, win[i], cadence), win, DaysInside(win, cadence, i))
  {
    OneMoreDay(win, cadence, i);
  }

  lemma OneMoreDay(win: seq<Day>, cadence: nat, i: nat)
    requires 0 < i < |win|
    ensures var was, days := DaysInside(win, cadence, i - 1), DaysInside(win, cadence, i);
      if Inside(RangeAt(win, cadence, i), win[i].sq)
      then |days| == |was| + 1 && FeesOn(win, days) == FeesOn(win, was) + win[i].fee
      else days == was
  {
    var was, days := DaysInside(win, cadence, i - 1), DaysInside(win, cadence, i);
    if Inside(RangeAt(win, cadence, i), win[i].sq) {
      assert days == was + {i};
      FeesWithout(win, days, i);
      assert days - {i} == was;
    } else {
      assert days == was;
    }
  }

  /** The position of the replay after day `i`. */
  function Held(md: MulDiv, win: seq<Day>, cadence: nat, i: nat): Position
    requires ValidWindow(win) && i < |win|
  {
    After(Recentring(md), Placed(md, START, win[0]), win, cadence, i)
  }

  lemma HeldRange(md: MulDiv, win: seq<Day>, cadence: nat, i: nat)
    requires ValidWindow(win) && i < |win|
    ensures ValidRange(Held(md, win, cadence, i).range)
  {
    RangeInForce(Recentring(md), Placed(md, START, win[0]), win, cadence, i);
  }

  /** Every re-centring of a run preserves the position's value up to its floors, and days without
      one leave the position alone. */
  lemma EveryRecentreBounded(md: MulDiv, win: seq<Day>, cadence: nat, i: nat)
    requires Floors(md) && ValidWindow(win) && 0 < i < |win|
    ensures var (p, q, d) := (Held(md, win, cadence, i - 1), Held(md, win, cadence, i), win[i]);
      && ValidRange(p.range) && ValidRange(q.range)
      && if cadence == 0 || i % cadence != 0 then q.liq == p.liq && q.range == p.range
         else PreservesValue(md, p, q, d)
  {
    var (re, liq0) := (Recentring(md), Placed(md, START, win[0]));
    HeldRange(md, win, cadence, i - 1);
    HeldRange(md, win, cadence, i);
    RangeInForce(re, liq0, win, cadence, i - 1);
    RangeInForce(re, liq0, win, cadence, i);
    if cadence > 0 && i % cadence == 0 {
      RecentredDay(md, Held(md, win, cadence, i - 1), i, win[i], cadence);
    }
  }

  /** The value of `q` on day `d` against that of `p`. */
  ghost predicate PreservesValue(md: MulDiv, p: Position, q: Position, d: Day)
    requires ValidRange(p.range) && ValidRange(q.range) && ValidRange(d.range)
  {
    var per := PositionValue(md, E18, d.sq, d.range, d.rate);
    if per == 0 then ValueOn(md, q, d) == 0
    else RoundTrip(ValueOn(md, p, d), ValueOn(md, q, d), per, Worth(UnitOf(d.sq, d.range), d.rate), Slack(d.rate))
  }

  lemma RecentredDay(md: MulDiv, p: Position, i: nat, d: Day, cadence: nat)
    requires Floors(md) && ValidRange(p.range) && ValidRange(d.range) && Due(p, i, cadence)
    ensures PreservesValue(md, p, DayStep(Recentring(md), p, i, d, cadence), d)
  {
    RecentreBound(md, ValueOn(md, p, d), d.sq, d.range, d.rate);
  }

  /** The loop's body: credit the day, then re-centre if it is due, which it is on the multiples of the
      cadence. */
  method Advance(re: Recentre, p: Position, i: nat, d: Day, cadence: nat) returns (q: Position)
    ensures q == DayStep(re, p, i, d, cadence)
    ensures 0 < i && p.last == PlacedOn(cadence, i - 1) ==> q.last == PlacedOn(cadence, i)
  {
    if cadence > 0 && 0 < i { NextPlacedOn(cadence, i); }
    q := p;
    if p.range.lo < d.sq < p.range.hi {
      q := q.(fees := q.fees + d.fee, inRange := q.inRange + 1);
    }
    if cadence > 0 && i - q.last >= cadence {
      q := q.(liq := re(q.liq, q.range, d), range := d.range, last := i);
    }
  }

  /** The loop over the window. */
  method Loop(re: Recentre, liq0: nat, win: seq<Day>, cadence: nat) returns (p: Position)
    requires 0 < |win|
    ensures p == After(re, liq0, win, cadence, |win| - 1)
    ensures p.fees == FeesOn(win, DaysInside(win, cadence, |win| - 1))
    ensures p.inRange == |DaysInside(win, cadence, |win| - 1)|
  {
    p := Position(liq0, win[0].range, 0, 0, 0);
    for i := 1 to |win|
      invariant p == After(re, liq0, win, cadence, i - 1)
    {
      p := Advance(re, p, i, win[i], cadence);
    }
    FeesAreInRangeDays(re, liq0, win, cadence, |win| - 1);
  }

  /** What a window reports: with fees, without, the mix it opened with, and the days in range. */
  method Run(md: MulDiv, win: seq<Day>, cadence: nat) returns (pos: nat, posNoFee: nat, mix: nat, inRange: nat)
    requires ValidWindow(win)
    ensures var p := Held(md, win, cadence, |win| - 1);
      ValidRange(p.range) && posNoFee == ValueOn(md, p, win[|win| - 1])
    ensures pos == posNoFee + FeesOn(win, DaysInside(win, cadence, |win| - 1))
    ensures inRange == |DaysInside(win, cadence, |win| - 1)|
    ensures mix == ValueOf(md, Opening(md, win[0]), win[|win| - 1].rate)
  {
    var t0, e := win[0], win[|win| - 1];
    var p := Loop(Recentring(md), Placed(md, START, t0), win, cadence);
    HeldRange(md, win, cadence, |win| - 1);
    posNoFee := ValueOn(md, p, e);
    pos, inRange := posNoFee + p.fees, p.inRange;
    mix := ValueOf(md, Opening(md, t0), e.rate);
  }

  /** What the first day's deposit holds. */
  function Opening(md: MulDiv, t0: Day): Amounts
    requires ValidRange(t0.range)
  {
    AmountsOf(md, Placed(md, START, t0), t0.sq, t0.range)
  }
}
