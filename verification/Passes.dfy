/** The `eth_getLogs` passes of one range scan: two per watched token, one per channel event. */
module Passes {
  import opened Chain
  import opened Scan

  datatype Pass = Inbound(token: Address) | Outbound(token: Address) | Opened | Closed

  function TokenPasses(tokens: seq<Address>): seq<Pass> {
    if tokens == [] then [] else [Inbound(tokens[0]), Outbound(tokens[0])] + TokenPasses(tokens[1..])
  }

  function PassList(cfg: Config): seq<Pass> {
    (if Protocol(cfg) != {} then TokenPasses(WatchedTokens(cfg)) else [])
    + (if IsSet(cfg.channels) then [Opened, Closed] else [])
  }

  predicate Matches(cfg: Config, p: Pass, l: Log) {
    match p
    case Inbound(t) => l.kind.Transfer? && l.emitter == t && l.to in Protocol(cfg)
    case Outbound(t) => l.kind.Transfer? && l.emitter == t && l.from in Protocol(cfg)
    case Opened => l.kind.ChannelOpen? && l.emitter == cfg.channels
    case Closed => l.kind.ChannelClose? && l.emitter == cfg.channels
  }

  function FoundInBlock(cfg: Config, p: Pass, b: nat, blk: Block, n: nat): seq<Found>
    requires n <= |blk.logs|
  {
    if n == 0 then []
    else
      FoundInBlock(cfg, p, b, blk, n - 1)
      + (if Matches(cfg, p, blk.logs[n - 1]) then [Found(b, blk.hash, blk.logs[n - 1])] else [])
  }

  /** What one call returns: the matching logs of [lo, hi], in chain order. */
  function LogsIn(cfg: Config, c: seq<Block>, p: Pass, lo: int, hi: int): seq<Found>
    decreases hi - lo
  {
    if hi < lo then []
    else
      LogsIn(cfg, c, p, lo, hi - 1)
      + (if 0 <= hi < |c| then FoundInBlock(cfg, p, hi, c[hi], |c[hi].logs|) else [])
  }

  /** `f` is log number `i` of the block it names. */
  ghost predicate IsFoundAt(c: seq<Block>, f: Found, i: int) {
    HasLog(c, f.block, i) && f == Found(f.block, c[f.block].hash, c[f.block].logs[i])
  }

  ghost predicate OnChain(c: seq<Block>, f: Found) {
    exists i :: IsFoundAt(c, f, i)
  }

  lemma {:induction false} FoundInBlockExact(cfg: Config, c: seq<Block>, p: Pass, b: nat, n: nat)
    requires b < |c| && n <= |c[b].logs|
    ensures var q := FoundInBlock(cfg, p, b, c[b], n);
      && (forall f :: f in q ==> f.block == b && Matches(cfg, p, f.log) && OnChain(c, f))
      && (forall i :: 0 <= i < n && Matches(cfg, p, c[b].logs[i]) ==> Found(b, c[b].hash, c[b].logs[i]) in q)
  {
    if n > 0 {
      FoundInBlockExact(cfg, c, p, b, n - 1);
      assert IsFoundAt(c, Found(b, c[b].hash, c[b].logs[n - 1]), n - 1);
    }
  }

  /** A call returns exactly the matching logs of its range. */
  lemma {:induction false} LogsInExact(cfg: Config, c: seq<Block>, p: Pass, lo: int, hi: int)
    ensures forall f | f in LogsIn(cfg, c, p, lo, hi) ::
              lo <= f.block <= hi && Matches(cfg, p, f.log) && OnChain(c, f)
    ensures forall b, i | HasLog(c, b, i) && lo <= b <= hi && Matches(cfg, p, c[b].logs[i]) ::
              Found(b, c[b].hash, c[b].logs[i]) in LogsIn(cfg, c, p, lo, hi)
    decreases hi - lo
  {
    if lo <= hi {
      LogsInExact(cfg, c, p, lo, hi - 1);
      if 0 <= hi < |c| { FoundInBlockExact(cfg, c, p, hi, |c[hi].logs|); }
    }
  }

  lemma {:induction false} SetAddressesExact(s: seq<Address>, a: Address)
    ensures a in SetAddresses(s) <==> a in s && IsSet(a)
  {
    if s != [] { SetAddressesExact(s[1..], a); }
  }

  lemma {:induction false} TokenPassesExact(tokens: seq<Address>, p: Pass)
    ensures p in TokenPasses(tokens) <==> (p.Inbound? || p.Outbound?) && p.token in tokens
  {
    if tokens != [] { TokenPassesExact(tokens[1..], p); }
  }

  /** Which passes are made: two per set token when there is a protocol address, two for the channels. */
  lemma PassListExact(cfg: Config, p: Pass)
    ensures p in PassList(cfg) <==>
      match p
      case Opened => IsSet(cfg.channels)
      case Closed => IsSet(cfg.channels)
      case _ => Protocol(cfg) != {} && IsSet(p.token) && (p.token in cfg.stables || p.token == cfg.weth)
  {
    TokenPassesExact(WatchedTokens(cfg), p);
    if p.Inbound? || p.Outbound? {
      SetAddressesExact(cfg.stables, p.token);
      SetAddressesExact([cfg.weth], p.token);
    }
  }

  /** The passes together return a log exactly when it is one the product promises to index. */
  lemma PassesCoverWatched(cfg: Config, l: Log)
    ensures Watched(cfg, l) <==> exists p :: p in PassList(cfg) && Matches(cfg, p, l)
  {
    if Watched(cfg, l) {
      var p := match l.kind
        case Transfer => if l.to in Protocol(cfg) then Inbound(l.emitter) else Outbound(l.emitter)
        case ChannelOpen => Opened
        case _ => Closed;
      PassListExact(cfg, p);
    }
    forall p | p in PassList(cfg) && Matches(cfg, p, l) ensures Watched(cfg, l) {
      PassListExact(cfg, p);
    }
  }
}
