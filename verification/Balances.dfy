/** Net flow is a balance change: replaying a token's transfers with the semantics of EIP-20,
    in minus out is what the protocol's addresses together gained. */
module Balances {
  import opened Wrappers
  import opened Chain
  import opened Scan
  import opened Passes
  import opened NetFlow
  import opened IndexerProtocol
  import opened Store
  import opened Api

  type Ledger = map<Address, int>

  function Balance(g: Ledger, a: Address): int {
    if a in g then g[a] else 0
  }

  /** Debit the sender, then credit the receiver. */
  function Move(g: Ledger, from: Address, to: Address, amount: nat): Ledger {
    var debited := g[from := Balance(g, from) - amount];
    debited[to := Balance(debited, to) + amount]
  }

  function Replay(token: Address, g: Ledger, logs: seq<Log>): Ledger {
    if logs == [] then g
    else
      var l, g' := logs[|logs| - 1], Replay(token, g, logs[..|logs| - 1]);
      if l.kind.Transfer? && l.emitter == token then Move(g', l.from, l.to, l.amount) else g'
  }

  /** The ledger of `token` after blocks [lo, hi], starting from `g`. */
  function ReplayBlocks(token: Address, g: Ledger, c: seq<Block>, lo: int, hi: int): Ledger
    decreases hi - lo
  {
    if hi < lo then g
    else
      var g' := ReplayBlocks(token, g, c, lo, hi - 1);
      if 0 <= hi < |c| then Replay(token, g', c[hi].logs) else g'
  }

  ghost function Total(g: Ledger, s: set<Address>): int {
    if s == {} then 0 else var a :| a in s; Balance(g, a) + Total(g, s - {a})
  }

  lemma {:induction false} TotalRemove(g: Ledger, s: set<Address>, a: Address)
    requires a in s
    ensures Total(g, s) == Balance(g, a) + Total(g, s - {a})
  {
    var b :| b in s && Total(g, s) == Balance(g, b) + Total(g, s - {b});
    if a != b {
      TotalRemove(g, s - {b}, a);
      TotalRemove(g, s - {a}, b);
      assert s - {b} - {a} == s - {a} - {b};
    }
  }

  lemma {:induction false} TotalAgrees(g: Ledger, g': Ledger, s: set<Address>)
    requires forall a :: a in s ==> Balance(g, a) == Balance(g', a)
    ensures Total(g, s) == Total(g', s)
  {
    if s != {} {
      var a :| a in s;
      TotalRemove(g, s, a);
      TotalRemove(g', s, a);
      TotalAgrees(g, g', s - {a});
    }
  }

  lemma TotalUpdate(g: Ledger, s: set<Address>, a: Address, v: int)
    ensures Total(g[a := v], s) == Total(g, s) + (if a in s then v - Balance(g, a) else 0)
  {
    if a in s {
      TotalRemove(g, s, a);
      TotalRemove(g[a := v], s, a);
      TotalAgrees(g, g[a := v], s - {a});
    } else {
      TotalAgrees(g, g[a := v], s);
    }
  }

  predicate IsWatchedToken(cfg: Config, t: Address) {
    IsSet(t) && (t in cfg.stables || t == cfg.weth)
  }

  /** One transfer changes the protocol's total by its in weight minus its out weight. */
  lemma MoveIsFlow(cfg: Config, g: Ledger, l: Log)
    requires l.kind.Transfer? && IsWatchedToken(cfg, l.emitter)
    ensures Total(Move(g, l.from, l.to, l.amount), Protocol(cfg))
      == Total(g, Protocol(cfg)) + LogWeight(cfg, In(l.emitter), l) - LogWeight(cfg, Out(l.emitter), l)
  {
    var debited := g[l.from := Balance(g, l.from) - l.amount];
    TotalUpdate(g, Protocol(cfg), l.from, Balance(g, l.from) - l.amount);
    TotalUpdate(debited, Protocol(cfg), l.to, Balance(debited, l.to) + l.amount);
  }

  lemma {:induction false} ReplayIsFlow(cfg: Config, t: Address, g: Ledger, logs: seq<Log>)
    requires IsWatchedToken(cfg, t)
    ensures Total(Replay(t, g, logs), Protocol(cfg))
      == Total(g, Protocol(cfg)) + LogsFlow(cfg, In(t), logs) - LogsFlow(cfg, Out(t), logs)
  {
    if logs != [] {
      var front, l := logs[..|logs| - 1], logs[|logs| - 1];
      ReplayIsFlow(cfg, t, g, front);
      if l.kind.Transfer? && l.emitter == t { MoveIsFlow(cfg, Replay(t, g, front), l); }
    }
  }

  /** Over any span of blocks, from any starting balances, in minus out is the balance change. */
  lemma {:induction false} NetFlowIsBalanceChange(cfg: Config, t: Address, g: Ledger, c: seq<Block>, lo: int, hi: int)
    requires IsWatchedToken(cfg, t)
    ensures Total(ReplayBlocks(t, g, c, lo, hi), Protocol(cfg)) - Total(g, Protocol(cfg))
      == ChainFlow(cfg, c, In(t), lo, hi) - ChainFlow(cfg, c, Out(t), lo, hi)
    decreases hi - lo
  {
    if lo <= hi {
      NetFlowIsBalanceChange(cfg, t, g, c, lo, hi - 1);
      if 0 <= hi < |c| { ReplayIsFlow(cfg, t, ReplayBlocks(t, g, c, lo, hi - 1), c[hi].logs); }
    }
  }

  /** Both passes of a token return a transfer between two protocol addresses, the table keeps
      it once, and it contributes as much to the inflow as to the outflow. */
  lemma InternalTransfersCancel(cfg: Config, c: seq<Block>, b: int, i: int)
    requires UniqueKeys(c) && HasLog(c, b, i)
    requires var l := c[b].logs[i];
      l.kind.Transfer? && IsWatchedToken(cfg, l.emitter) && l.from in Protocol(cfg) && l.to in Protocol(cfg)
    ensures var l := c[b].logs[i];
      && Inbound(l.emitter) in PassList(cfg) && Matches(cfg, Inbound(l.emitter), l)
      && Outbound(l.emitter) in PassList(cfg) && Matches(cfg, Outbound(l.emitter), l)
      && RowOf(b, c[b], l) in WindowRows(Scanned(cfg, c, b, b), b - 1, b)
      && (forall r :: r in WindowRows(Scanned(cfg, c, b, b), b - 1, b) && r.key == l.key ==> r == RowOf(b, c[b], l))
      && Weight(cfg, In(l.emitter), RowOf(b, c[b], l)) == Weight(cfg, Out(l.emitter), RowOf(b, c[b], l)) == l.amount
  {
    var l := c[b].logs[i];
    PassListExact(cfg, Inbound(l.emitter));
    PassListExact(cfg, Outbound(l.emitter));
    ScannedExact(cfg, c, b, b);
    assert HoldsLog(cfg, c, Scanned(cfg, c, b, b), b, i);
    forall r | r in WindowRows(Scanned(cfg, c, b, b), b - 1, b) && r.key == l.key
      ensures r == RowOf(b, c[b], l)
    {
      CanonicalUnique(cfg, c, r, b, i);
    }
  }

  /** What a reader of an unflagged answer learns: the reported in minus out of a watched token is
      the change of the protocol's total balance over the reported block window. */
  lemma ReportedNetIsBalanceChange(
    cfg: Config, s: State, cutoff: real, first: Option<nat>, earliest: Option<nat>, t: Address, g: Ledger)
    requires Inv(cfg, s) && IsWatchedToken(cfg, t)
    requires IsLowest(s.rows, Some(cutoff), first) && IsLowest(s.rows, None, earliest)
    requires !WindowOf(cfg, s.cursor, first, earliest).partial
    ensures NetIsBalanceChange(cfg, s.chain, s.rows, WindowOf(cfg, s.cursor, first, earliest), t, g)
  {
    InvIsServable(cfg, s);
    var w := WindowOf(cfg, s.cursor, first, earliest);
    ServedNet(cfg, s.chain, s.rows, s.base, s.high, w, cutoff, first, earliest, t, g);
  }

  /** In minus out of the window's rows is what replaying its blocks does to the protocol's balance. */
  ghost predicate NetIsBalanceChange(cfg: Config, c: seq<Block>, rows: Table, w: Window, t: Address, g: Ledger) {
    var some := WindowRows(rows, w.fromExclusive, w.toInclusive);
    SumSet(cfg, In(t), some) - SumSet(cfg, Out(t), some)
    == Total(ReplayBlocks(t, g, c, w.fromExclusive + 1, w.toInclusive), Protocol(cfg)) - Total(g, Protocol(cfg))
  }

  lemma ServedNet(
    cfg: Config, c: seq<Block>, rows: Table, base: int, high: int, w: Window, cutoff: real, first: Option<nat>,
    earliest: Option<nat>, t: Address, g: Ledger)
    requires Servable(cfg, c, rows, base, high, w.toInclusive) && IsWatchedToken(cfg, t)
    requires IsLowest(rows, Some(cutoff), first) && IsLowest(rows, None, earliest)
    requires earliest.Some? && first != earliest
    requires w.fromExclusive == if first.Some? then first.value - 1 else w.toInclusive
    ensures NetIsBalanceChange(cfg, c, rows, w, t, g)
  {
    var early := EarlyRow(rows, cutoff, first, earliest);
    WindowIsExact(cfg, c, rows, base, high, w.fromExclusive, w.toInclusive, cutoff, first, early, In(t));
    WindowNet(cfg, c, rows, base, high, w.fromExclusive, w.toInclusive, t, g);
  }

  /** The rows of any window inside the covered range, on their own. */
  lemma WindowNet(
    cfg: Config, c: seq<Block>, rows: Table, base: int, high: int, from: int, to: int, t: Address, g: Ledger)
    requires Servable(cfg, c, rows, base, high, to) && base <= from && IsWatchedToken(cfg, t)
    ensures SumSet(cfg, In(t), WindowRows(rows, from, to)) - SumSet(cfg, Out(t), WindowRows(rows, from, to))
      == Total(ReplayBlocks(t, g, c, from + 1, to), Protocol(cfg)) - Total(g, Protocol(cfg))
  {
    WindowSum(cfg, c, rows, In(t), base + 1, high, from, to);
    WindowSum(cfg, c, rows, Out(t), base + 1, high, from, to);
    NetFlowIsBalanceChange(cfg, t, g, c, from + 1, to);
  }
}
