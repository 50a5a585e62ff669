/** Signed flow: what a set of stored rows adds up to, and what the chain says it should be. */
module NetFlow {
  import opened Chain
  import opened Scan

  /** The sums the aggregator keeps: per token in and out, and the sats opened and closed. */
  datatype Measure = In(token: Address) | Out(token: Address) | OpenSats | CloseSats

  function Weight(cfg: Config, m: Measure, r: Row): nat {
    match m
    case In(t) => if r.kind.Transfer? && r.token == t && r.to in Protocol(cfg) then r.amount else 0
    case Out(t) => if r.kind.Transfer? && r.token == t && r.from in Protocol(cfg) then r.amount else 0
    case OpenSats => if r.kind.ChannelOpen? then r.amount else 0
    case CloseSats => if r.kind.ChannelClose? then r.amount else 0
  }

  function SumSeq(cfg: Config, m: Measure, rows: seq<Row>): nat {
    if rows == [] then 0
    else SumSeq(cfg, m, rows[..|rows| - 1]) + Weight(cfg, m, rows[|rows| - 1])
  }

  ghost function SumSet(cfg: Config, m: Measure, s: set<Row>): nat {
    if s == {} then 0 else var r :| r in s; Weight(cfg, m, r) + SumSet(cfg, m, s - {r})
  }

  lemma {:induction false} SumSetRemove(cfg: Config, m: Measure, s: set<Row>, r: Row)
    requires r in s
    ensures SumSet(cfg, m, s) == Weight(cfg, m, r) + SumSet(cfg, m, s - {r})
  {
    var q :| q in s && SumSet(cfg, m, s) == Weight(cfg, m, q) + SumSet(cfg, m, s - {q});
    if q != r {
      SumSetRemove(cfg, m, s - {q}, r);
      SumSetRemove(cfg, m, s - {r}, q);
      assert s - {q} - {r} == s - {r} - {q};
    }
  }

  lemma {:induction false} SumSetUnion(cfg: Config, m: Measure, s: set<Row>, t: set<Row>)
    requires s !! t
    ensures SumSet(cfg, m, s + t) == SumSet(cfg, m, s) + SumSet(cfg, m, t)
  {
    if s == {} {
      assert s + t == t;
    } else {
      var r :| r in s;
      SumSetUnion(cfg, m, s - {r}, t);
      SumSetRemove(cfg, m, s, r);
      SumSetRemove(cfg, m, s + t, r);
      assert s + t - {r} == (s - {r}) + t;
    }
  }

  lemma {:induction false} SumSetZero(cfg: Config, m: Measure, s: set<Row>)
    requires forall r :: r in s ==> Weight(cfg, m, r) == 0
    ensures SumSet(cfg, m, s) == 0
  {
    if s != {} {
      var r :| r in s;
      SumSetRemove(cfg, m, s, r);
      SumSetZero(cfg, m, s - {r});
    }
  }

  ghost predicate Distinct(rows: seq<Row>) {
    forall i, j :: 0 <= i < j < |rows| ==> rows[i] != rows[j]
  }

  /** `rows` lists the members of `s`, each once, in some order. */
  ghost predicate Lists(rows: seq<Row>, s: set<Row>) {
    Distinct(rows) && (forall r :: r in rows <==> r in s)
  }

  /** The order in which a query returns its rows does not matter to a sum. */
  lemma {:induction false} SumSeqIsSumSet(cfg: Config, m: Measure, rows: seq<Row>, s: set<Row>)
    requires Lists(rows, s)
    ensures SumSeq(cfg, m, rows) == SumSet(cfg, m, s)
  {
    if rows == [] {
      assert s == {};
    } else {
      var front, last := rows[..|rows| - 1], rows[|rows| - 1];
      assert rows == front + [last];
      SumSeqIsSumSet(cfg, m, front, s - {last});
      SumSetRemove(cfg, m, s, last);
    }
  }

  /** The rows of `t` in the block window (from, to]. */
  ghost function WindowRows(t: Table, from: int, to: int): set<Row> {
    set k | k in t && from < t[k].block <= to :: t[k]
  }

  // ---- the chain's own account ----

  function LogWeight(cfg: Config, m: Measure, l: Log): nat {
    if !Watched(cfg, l) then 0
    else
      match m
      case In(t) => if l.kind.Transfer? && l.emitter == t && l.to in Protocol(cfg) then l.amount else 0
      case Out(t) => if l.kind.Transfer? && l.emitter == t && l.from in Protocol(cfg) then l.amount else 0
      case OpenSats => if l.kind.ChannelOpen? then l.amount else 0
      case CloseSats => if l.kind.ChannelClose? then l.amount else 0
  }

  function LogsFlow(cfg: Config, m: Measure, logs: seq<Log>): nat {
    if logs == [] then 0
    else LogsFlow(cfg, m, logs[..|logs| - 1]) + LogWeight(cfg, m, logs[|logs| - 1])
  }

  function FlowAt(cfg: Config, c: seq<Block>, m: Measure, b: int): nat {
    if 0 <= b < |c| then LogsFlow(cfg, m, c[b].logs) else 0
  }

  /** The flow of blocks [lo, hi]. */
  function ChainFlow(cfg: Config, c: seq<Block>, m: Measure, lo: int, hi: int): nat
    decreases hi - lo
  {
    if hi < lo then 0 else ChainFlow(cfg, c, m, lo, hi - 1) + FlowAt(cfg, c, m, hi)
  }

  /** The flow of the blocks up to `hi` whose timestamp is at or after `cutoff`: what a query asks for. */
  function FlowSince(cfg: Config, c: seq<Block>, m: Measure, cutoff: real, hi: int): nat
    requires hi < |c|
    decreases hi + 1
  {
    if hi < 0 then 0
    else FlowSince(cfg, c, m, cutoff, hi - 1) + (if c[hi].ts as real >= cutoff then FlowAt(cfg, c, m, hi) else 0)
  }

  /** Flows over adjacent windows add up. */
  lemma {:induction false} FlowsAddUp(cfg: Config, c: seq<Block>, m: Measure, lo: int, mid: int, hi: int)
    requires lo <= mid + 1 && mid <= hi
    ensures ChainFlow(cfg, c, m, lo, hi) == ChainFlow(cfg, c, m, lo, mid) + ChainFlow(cfg, c, m, mid + 1, hi)
    decreases hi - mid
  {
    if mid < hi { FlowsAddUp(cfg, c, m, lo, mid, hi - 1); }
  }

  // ---- the stored rows account for the chain ----

  /** The rows of the first `n` logs of block `b`. */
  ghost function FirstRows(cfg: Config, c: seq<Block>, b: int, n: nat): set<Row>
    requires 0 <= b < |c| && n <= |c[b].logs|
  {
    set i | 0 <= i < n && Watched(cfg, c[b].logs[i]) :: RowOf(b, c[b], c[b].logs[i])
  }

  lemma OneMoreRow(cfg: Config, c: seq<Block>, b: int, n: nat)
    requires UniqueKeys(c) && 0 <= b < |c| && 0 < n <= |c[b].logs|
    ensures var r, s0, s := RowOf(b, c[b], c[b].logs[n - 1]), FirstRows(cfg, c, b, n - 1), FirstRows(cfg, c, b, n);
      if Watched(cfg, c[b].logs[n - 1]) then r in s && s - {r} == s0 else s == s0
  {
    var r, s0, s := RowOf(b, c[b], c[b].logs[n - 1]), FirstRows(cfg, c, b, n - 1), FirstRows(cfg, c, b, n);
    if Watched(cfg, c[b].logs[n - 1]) {
      forall i | 0 <= i < n - 1
        ensures c[b].logs[i].key != r.key
      {
        assert KeysApart(c, b, i, b, n - 1);
      }
      assert r !in s0;
      assert s == s0 + {r};
    } else {
      assert s == s0;
    }
  }

  lemma RowWeighsAsLog(cfg: Config, m: Measure, b: nat, blk: Block, l: Log)
    requires Watched(cfg, l)
    ensures Weight(cfg, m, RowOf(b, blk, l)) == LogWeight(cfg, m, l)
  {
  }

  lemma {:induction false} BlockSum(cfg: Config, c: seq<Block>, m: Measure, b: int, n: nat)
    requires UniqueKeys(c) && 0 <= b < |c| && n <= |c[b].logs|
    ensures SumSet(cfg, m, FirstRows(cfg, c, b, n)) == LogsFlow(cfg, m, c[b].logs[..n])
  {
    if n > 0 {
      var l := c[b].logs[n - 1];
      BlockSum(cfg, c, m, b, n - 1);
      OneMoreRow(cfg, c, b, n);
      assert c[b].logs[..n][..n - 1] == c[b].logs[..n - 1];
      if Watched(cfg, l) {
        RowWeighsAsLog(cfg, m, b, c[b], l);
        SumSetRemove(cfg, m, FirstRows(cfg, c, b, n), RowOf(b, c[b], l));
      }
    } else {
      assert FirstRows(cfg, c, b, 0) == {};
    }
  }

  lemma OneBlockSum(cfg: Config, c: seq<Block>, t: Table, m: Measure, lo: int, hi: int, b: int)
    requires UniqueKeys(c) && OnlyCanonical(cfg, c, t, lo, hi) && HoldsAll(cfg, c, t, lo, hi)
    requires lo <= b <= hi
    ensures SumSet(cfg, m, WindowRows(t, b - 1, b)) == FlowAt(cfg, c, m, b)
  {
    var w := WindowRows(t, b - 1, b);
    if 0 <= b < |c| {
      var n := |c[b].logs|;
      var s := FirstRows(cfg, c, b, n);
      forall r | r in w ensures r in s {
        var i :| IsRowAt(cfg, c, r, i);
      }
      forall r | r in s ensures r in w {
        var i :| 0 <= i < n && Watched(cfg, c[b].logs[i]) && RowOf(b, c[b], c[b].logs[i]) == r;
        assert HoldsLog(cfg, c, t, b, i);
        assert r.key in t && t[r.key] == r;
      }
      assert w == s;
      BlockSum(cfg, c, m, b, n);
      assert c[b].logs[..n] == c[b].logs;
    } else {
      assert w == {};
    }
  }

  /** Inside the covered range, the rows of a block window sum to the chain's flow over it. */
  lemma {:induction false} WindowSum(
    cfg: Config, c: seq<Block>, t: Table, m: Measure, lo: int, hi: int, from: int, to: int)
    requires UniqueKeys(c) && OnlyCanonical(cfg, c, t, lo, hi) && HoldsAll(cfg, c, t, lo, hi)
    requires lo <= from + 1 && to <= hi
    ensures SumSet(cfg, m, WindowRows(t, from, to)) == ChainFlow(cfg, c, m, from + 1, to)
    decreases 1 + to - from
  {
    if from < to {
      WindowSum(cfg, c, t, m, lo, hi, from, to - 1);
      OneBlockSum(cfg, c, t, m, lo, hi, to);
      var w, w1 := WindowRows(t, from, to - 1), WindowRows(t, to - 1, to);
      assert w + w1 == WindowRows(t, from, to);
      SumSetUnion(cfg, m, w, w1);
    } else {
      assert WindowRows(t, from, to) == {};
    }
  }

  lemma {:induction false} UnwatchedFlow(cfg: Config, m: Measure, logs: seq<Log>)
    requires forall i :: 0 <= i < |logs| ==> !Watched(cfg, logs[i])
    ensures LogsFlow(cfg, m, logs) == 0
  {
    if logs != [] { UnwatchedFlow(cfg, m, logs[..|logs| - 1]); }
  }

  /** When `first` separates the blocks by the cutoff as far as watched logs can tell, the
      window that starts there carries all the flow since the cutoff and nothing else. */
  lemma {:induction false} FlowSinceIsWindow(
    cfg: Config, c: seq<Block>, m: Measure, cutoff: real, first: int, hi: int)
    requires hi < |c|
    requires forall b :: 0 <= b <= hi && first <= b ==> c[b].ts as real >= cutoff
    requires forall b, i :: HasLog(c, b, i) && b <= hi && b < first && c[b].ts as real >= cutoff ==>
      !Watched(cfg, c[b].logs[i])
    ensures FlowSince(cfg, c, m, cutoff, hi) == ChainFlow(cfg, c, m, first, hi)
    decreases hi + 1
  {
    if 0 <= hi {
      FlowSinceIsWindow(cfg, c, m, cutoff, first, hi - 1);
      if hi < first && c[hi].ts as real >= cutoff {
        assert forall i :: 0 <= i < |c[hi].logs| ==> HasLog(c, hi, i);
        UnwatchedFlow(cfg, m, c[hi].logs);
      }
    } else {
      NoFlowBelowGenesis(cfg, c, m, first, hi);
    }
  }

  lemma {:induction false} NoFlowBelowGenesis(cfg: Config, c: seq<Block>, m: Measure, lo: int, hi: int)
    requires hi < 0
    ensures ChainFlow(cfg, c, m, lo, hi) == 0
    decreases hi - lo
  {
    if lo <= hi { NoFlowBelowGenesis(cfg, c, m, lo, hi - 1); }
  }
}
