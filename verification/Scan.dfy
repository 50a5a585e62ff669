/** The rows a scan of a block range stores, as one table keyed on (tx hash, log index). */
module Scan {
  import opened Chain

  datatype Row = Row(
    block: nat, hash: string, key: Key, kind: Kind, token: Address,
    from: Address, to: Address, amount: nat, ts: nat)

  type Table = map<Key, Row>

  /** A log as `eth_getLogs` returns it: with its block's number and hash. */
  datatype Found = Found(block: nat, hash: string, log: Log)

  /** Channel events store no sender and no receiver. */
  function RowFrom(f: Found, ts: nat): Row {
    Row(f.block, f.hash, f.log.key, f.log.kind, f.log.emitter,
        if f.log.kind.Transfer? then f.log.from else "",
        if f.log.kind.Transfer? then f.log.to else "",
        f.log.amount, ts)
  }

  function RowOf(b: nat, blk: Block, l: Log): Row {
    RowFrom(Found(b, blk.hash, l), blk.ts)
  }

  function BlockRows(cfg: Config, b: nat, blk: Block, n: nat): Table
    requires n <= |blk.logs|
  {
    if n == 0 then map[]
    else
      var l := blk.logs[n - 1];
      var t := BlockRows(cfg, b, blk, n - 1);
      if Watched(cfg, l) then t[l.key := RowOf(b, blk, l)] else t
  }

  function RowsAt(cfg: Config, c: seq<Block>, b: int): Table {
    if 0 <= b < |c| then BlockRows(cfg, b, c[b], |c[b].logs|) else map[]
  }

  /** The reference scan of [lo, hi]: one pass, no chunks, no tape of RPC calls. */
  function Scanned(cfg: Config, c: seq<Block>, lo: int, hi: int): Table
    decreases hi - lo
  {
    if hi < lo then map[] else Scanned(cfg, c, lo, hi - 1) + RowsAt(cfg, c, hi)
  }

  /** `row` is what log number `i` of block `row.block` stores, and that log is watched. */
  ghost predicate IsRowAt(cfg: Config, c: seq<Block>, row: Row, i: int) {
    && row.block < |c| && 0 <= i < |c[row.block].logs|
    && Watched(cfg, c[row.block].logs[i])
    && row == RowOf(row.block, c[row.block], c[row.block].logs[i])
  }

  ghost predicate Canonical(cfg: Config, c: seq<Block>, row: Row) {
    exists i :: IsRowAt(cfg, c, row, i)
  }

  /** Every stored row is a watched log of `c` in [lo, hi], under its own key. */
  ghost predicate OnlyCanonical(cfg: Config, c: seq<Block>, t: Table, lo: int, hi: int) {
    forall k :: k in t ==> t[k].key == k && lo <= t[k].block <= hi && Canonical(cfg, c, t[k])
  }

  /** Every watched log of `c` in [lo, hi] is stored. */
  ghost predicate HoldsAll(cfg: Config, c: seq<Block>, t: Table, lo: int, hi: int) {
    forall b, i | lo <= b <= hi :: HoldsLog(cfg, c, t, b, i)
  }

  /** Log number `i` of block `b`, if there is one and it is watched, is stored. */
  ghost predicate HoldsLog(cfg: Config, c: seq<Block>, t: Table, b: int, i: int) {
    HasLog(c, b, i) && Watched(cfg, c[b].logs[i]) ==>
      c[b].logs[i].key in t && t[c[b].logs[i].key] == RowOf(b, c[b], c[b].logs[i])
  }

  lemma {:induction false} BlockRowsCanonical(cfg: Config, c: seq<Block>, b: nat, n: nat)
    requires b < |c| && n <= |c[b].logs|
    ensures OnlyCanonical(cfg, c, BlockRows(cfg, b, c[b], n), b, b)
  {
    if n > 0 {
      BlockRowsCanonical(cfg, c, b, n - 1);
      var l := c[b].logs[n - 1];
      if Watched(cfg, l) {
        assert IsRowAt(cfg, c, RowOf(b, c[b], l), n - 1);
      }
    }
  }

  /** Keys are unique on a chain, so a canonical row is the row of the log its key names. */
  lemma CanonicalUnique(cfg: Config, c: seq<Block>, row: Row, b: int, i: int)
    requires UniqueKeys(c) && Canonical(cfg, c, row) && HasLog(c, b, i) && row.key == c[b].logs[i].key
    ensures row == RowOf(b, c[b], c[b].logs[i])
  {
    var i' :| IsRowAt(cfg, c, row, i');
    assert KeysApart(c, row.block, i', b, i);
  }

  lemma {:induction false} BlockRowsComplete(cfg: Config, c: seq<Block>, b: nat, n: nat, i: nat)
    requires b < |c| && i < n <= |c[b].logs| && Watched(cfg, c[b].logs[i])
    ensures c[b].logs[i].key in BlockRows(cfg, b, c[b], n)
  {
    if i < n - 1 {
      BlockRowsComplete(cfg, c, b, n - 1, i);
    }
  }

  lemma RowsAtExact(cfg: Config, c: seq<Block>, b: int)
    requires UniqueKeys(c)
    ensures OnlyCanonical(cfg, c, RowsAt(cfg, c, b), b, b) && HoldsAll(cfg, c, RowsAt(cfg, c, b), b, b)
  {
    if 0 <= b < |c| {
      BlockRowsCanonical(cfg, c, b, |c[b].logs|);
      forall i
        ensures HoldsLog(cfg, c, RowsAt(cfg, c, b), b, i)
      {
        if HasLog(c, b, i) && Watched(cfg, c[b].logs[i]) {
          BlockRowsComplete(cfg, c, b, |c[b].logs|, i);
          CanonicalUnique(cfg, c, RowsAt(cfg, c, b)[c[b].logs[i].key], b, i);
        }
      }
    }
  }

  function Max(a: int, b: int): int {
    if a < b then b else a
  }

  /** Exact tables of touching or overlapping ranges join into an exact table. */
  lemma ExactJoin(cfg: Config, c: seq<Block>, t: Table, u: Table, lo: int, mid: int, from: int, hi: int)
    requires UniqueKeys(c) && lo <= from <= mid + 1
    requires OnlyCanonical(cfg, c, t, lo, mid) && HoldsAll(cfg, c, t, lo, mid)
    requires OnlyCanonical(cfg, c, u, from, hi) && HoldsAll(cfg, c, u, from, hi)
    ensures OnlyCanonical(cfg, c, t + u, lo, Max(mid, hi)) && HoldsAll(cfg, c, t + u, lo, Max(mid, hi))
  {
    forall b, i | lo <= b <= Max(mid, hi)
      ensures HoldsLog(cfg, c, t + u, b, i)
    {
      if HasLog(c, b, i) && Watched(cfg, c[b].logs[i]) {
        assert HoldsLog(cfg, c, if b <= mid then t else u, b, i);
        CanonicalUnique(cfg, c, (t + u)[c[b].logs[i].key], b, i);
      }
    }
  }

  /** The reference scan stores exactly the watched logs of its range. */
  lemma {:induction false} ScannedExact(cfg: Config, c: seq<Block>, lo: int, hi: int)
    requires UniqueKeys(c)
    ensures OnlyCanonical(cfg, c, Scanned(cfg, c, lo, hi), lo, hi)
    ensures HoldsAll(cfg, c, Scanned(cfg, c, lo, hi), lo, hi)
    decreases hi - lo
  {
    if lo <= hi {
      ScannedExact(cfg, c, lo, hi - 1);
      RowsAtExact(cfg, c, hi);
      ExactJoin(cfg, c, Scanned(cfg, c, lo, hi - 1), RowsAt(cfg, c, hi), lo, hi - 1, hi, hi);
    }
  }

  /** Being canonical and complete pins a table down: it is the reference scan. */
  lemma ExactIsScanned(cfg: Config, c: seq<Block>, t: Table, lo: int, hi: int)
    requires UniqueKeys(c)
    ensures t == Scanned(cfg, c, lo, hi)
      <==> OnlyCanonical(cfg, c, t, lo, hi) && HoldsAll(cfg, c, t, lo, hi)
  {
    var s := Scanned(cfg, c, lo, hi);
    ScannedExact(cfg, c, lo, hi);
    if OnlyCanonical(cfg, c, t, lo, hi) && HoldsAll(cfg, c, t, lo, hi) {
      forall k | k in s ensures k in t && t[k] == s[k] {
        var i :| IsRowAt(cfg, c, s[k], i);
        assert HoldsLog(cfg, c, t, s[k].block, i);
      }
      forall k | k in t ensures k in s {
        var i :| IsRowAt(cfg, c, t[k], i);
        assert HoldsLog(cfg, c, s, t[k].block, i);
      }
    }
  }

  /** A scan depends only on the blocks it covers. */
  lemma {:induction false} ScannedStable(cfg: Config, c: seq<Block>, c': seq<Block>, lo: int, hi: int)
    requires hi < |c| && hi < |c'| && (0 <= hi ==> c[..hi + 1] == c'[..hi + 1])
    ensures Scanned(cfg, c, lo, hi) == Scanned(cfg, c', lo, hi)
    decreases hi - lo
  {
    if lo <= hi {
      if 0 <= hi {
        assert c[hi] == c[..hi + 1][hi] == c'[..hi + 1][hi] == c'[hi];
        assert c[..hi] == c[..hi + 1][..hi] == c'[..hi + 1][..hi] == c'[..hi];
      }
      ScannedStable(cfg, c, c', lo, hi - 1);
    }
  }

  /** Two adjacent scans are one scan. */
  lemma {:induction false} ScannedSplits(cfg: Config, c: seq<Block>, lo: int, mid: int, hi: int)
    requires lo <= mid + 1 && mid <= hi
    ensures Scanned(cfg, c, lo, hi) == Scanned(cfg, c, lo, mid) + Scanned(cfg, c, mid + 1, hi)
    decreases hi - mid
  {
    if mid < hi {
      ScannedSplits(cfg, c, lo, mid, hi - 1);
      TablesRegroup(Scanned(cfg, c, lo, mid), Scanned(cfg, c, mid + 1, hi - 1), RowsAt(cfg, c, hi));
    } else {
      assert Scanned(cfg, c, mid + 1, hi) == map[];
    }
  }

  lemma TablesRegroup(s: Table, t: Table, u: Table)
    ensures (s + t) + u == s + (t + u)
  {
  }

  /** Scanning a range a second time changes nothing, however far the first scan reached. */
  lemma RescanIsIdempotent(cfg: Config, c: seq<Block>, lo: int, from: int, to: int, hi: int)
    requires UniqueKeys(c) && lo <= from <= hi + 1
    ensures Scanned(cfg, c, lo, hi) + Scanned(cfg, c, from, to) == Scanned(cfg, c, lo, Max(hi, to))
  {
    var s, r := Scanned(cfg, c, lo, hi), Scanned(cfg, c, from, to);
    ScannedExact(cfg, c, lo, hi);
    ScannedExact(cfg, c, from, to);
    ExactJoin(cfg, c, s, r, lo, hi, from, to);
    ExactIsScanned(cfg, c, s + r, lo, Max(hi, to));
  }
}
