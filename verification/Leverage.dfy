/** The sizes both leverage simulations trade in: opening in calm, delevering in stress. */
module Leverage {
  import opened Reals

  /** The minimum collateral ratio. */
  const MCR := 1.1

  /** How much is opened towards the target on a calm day. */
  function OpenSize(target: real, notional: real): real {
    Min((target - notional) * 0.05, target - notional)
  }

  /** How much is closed on a day whose price moves by `move`. */
  function DeleverSize(notional: real, move: real): real {
    Min(notional, notional * move * 2.0)
  }

  lemma OpenBounds(target: real, notional: real)
    requires notional < target
    ensures 0.0 < OpenSize(target, notional) <= target - notional
  {
  }

  lemma DeleverBounds(notional: real, move: real)
    requires 0.0 <= notional && 0.0 <= move
    ensures 0.0 <= DeleverSize(notional, move) <= notional
  {
    MulNonNeg(notional, move);
  }

  /** The part of the notional that is borrowed. */
  function DebtFraction(leverage: real): real
    requires 1.0 <= leverage
  {
    (leverage - 1.0) / leverage
  }

  lemma DebtFractionBounds(leverage: real)
    requires 1.0 <= leverage
    ensures 0.0 <= DebtFraction(leverage) < 1.0
    ensures DebtFraction(leverage) * leverage == leverage - 1.0
  {
    DivNonNeg(leverage - 1.0, leverage);
    DivBelow(leverage - 1.0, leverage, 1.0);
    DivMul(leverage - 1.0, leverage);
  }

  /** What the theorems use of the borrowed part of a notional: it is additive and not negative. */
  ghost predicate Adds(debt: real -> real, a: real, b: real) {
    debt(a + b) == debt(a) + debt(b)
  }

  ghost predicate Pays(debt: real -> real, a: real) {
    0.0 <= debt(a)
  }
}
