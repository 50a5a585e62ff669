/** The JSON-RPC node. What it will answer is an input: an endless tape of attempts, each with the
    canonical chain at that moment and whether the attempt gets through. */
module Rpc {
  import opened Chain

  datatype Attempt = Attempt(chain: seq<Block>, ok: bool)

  const TRIES: nat := 5

  type Tape = nat -> Attempt

  ghost predicate MovesAt(cfg: Config, tape: Tape, i: nat) {
    0 < |tape(i).chain| && Evolves(cfg, tape(i).chain, tape(i + 1).chain)
  }

  /** From chain `c` on, the tape only ever moves the chain the way the environment may move it. */
  ghost predicate TapeOk(cfg: Config, c: seq<Block>, tape: Tape, pos: nat)
    requires 0 < |c|
  {
    Evolves(cfg, c, tape(pos).chain) && forall i: nat | pos <= i :: MovesAt(cfg, tape, i)
  }

  lemma EvolvesTransitively(cfg: Config, a: seq<Block>, b: seq<Block>, c: seq<Block>)
    requires 0 < |a| && Evolves(cfg, a, b) && Evolves(cfg, b, c)
    ensures Evolves(cfg, a, c)
  {
    var f := Final(cfg, a);
    FinalIsStable(cfg, a, b, f);
    FinalIsStable(cfg, b, c, f);
  }

  class Node {
    const tape: Tape
    var chain: seq<Block>
    var pos: nat

    ghost predicate EnvOk(cfg: Config)
      reads this
    {
      Wf(chain) && TapeOk(cfg, chain, tape, pos)
    }

    constructor (chain: seq<Block>, tape: Tape)
      ensures this.chain == chain && this.tape == tape && pos == 0
    {
      this.chain, this.tape, pos := chain, tape, 0;
    }

    /** `withRetry`: up to five attempts, stopping at the first that gets through; it fails exactly
        when none of the five does. The answer is read off the chain as it stands then. */
    method CallWithRetry(ghost cfg: Config) returns (ok: bool)
      requires EnvOk(cfg)
      modifies this
      ensures EnvOk(cfg) && Evolves(cfg, old(chain), chain)
      ensures old(pos) < pos <= old(pos) + TRIES && chain == tape(pos - 1).chain
      ensures forall i | old(pos) <= i < pos - 1 :: !tape(i).ok
      ensures ok == tape(pos - 1).ok
      ensures ok <==> exists i: nat | old(pos) <= i < old(pos) + TRIES :: tape(i).ok
    {
      ok := false;
      var n := 0;
      while n < TRIES && !ok
        invariant n <= TRIES && pos == old(pos) + n
        invariant EnvOk(cfg) && Evolves(cfg, old(chain), chain)
        invariant forall i | old(pos) <= i < pos - 1 :: !tape(i).ok
        invariant if n == 0 then !ok && chain == old(chain) else ok == tape(pos - 1).ok && chain == tape(pos - 1).chain
        decreases TRIES - n
      {
        EvolvesTransitively(cfg, old(chain), chain, tape(pos).chain);
        assert MovesAt(cfg, tape, pos);
        chain, ok, pos := tape(pos).chain, tape(pos).ok, pos + 1;
        n := n + 1;
      }
      assert !ok ==> pos == old(pos) + TRIES && !tape(pos - 1).ok;
    }
  }
}
