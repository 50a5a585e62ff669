/** The indexer object: backfill, poll and the range scan they share, each execution of
    which is recorded as a run of the step system. */
module Indexer {
  import opened Wrappers
  import opened Chain
  import opened Scan
  import opened Passes
  import opened IndexerProtocol
  import opened Store
  import opened Rpc

  const CACHE_LIMIT: nat := 50_000

  // ---- chunking ----

  /** The chunk ranges the loops walk through. */
  function Chunks(cfg: Config, from: int, finalHead: int): seq<(int, int)>
    requires cfg.chunkSize >= 1
    decreases finalHead - from
  {
    if finalHead < from then []
    else
      var to := ChunkEnd(cfg, from, finalHead);
      [(from, to)] + Chunks(cfg, to + 1, finalHead)
  }

  /** Consecutive, non-empty ranges of at most `size` blocks that run from `from` to `finalHead`. */
  ghost predicate Partitions(cs: seq<(int, int)>, size: int, from: int, finalHead: int)
    decreases |cs|
  {
    if cs == [] then from == finalHead + 1
    else
      && cs[0].0 == from <= cs[0].1 <= finalHead && cs[0].1 < from + size
      && Partitions(cs[1..], size, cs[0].1 + 1, finalHead)
  }

  /** The chunks partition the span. */
  lemma {:induction false} ChunksPartition(cfg: Config, from: int, finalHead: int)
    requires cfg.chunkSize >= 1 && from <= finalHead + 1
    ensures Partitions(Chunks(cfg, from, finalHead), cfg.chunkSize, from, finalHead)
    decreases finalHead - from
  {
    if from <= finalHead {
      var to := ChunkEnd(cfg, from, finalHead);
      ChunksPartition(cfg, to + 1, finalHead);
      assert Chunks(cfg, from, finalHead)[1..] == Chunks(cfg, to + 1, finalHead);
    }
  }

  /** Scanning and storing the ranges one after another. */
  function ScanChunks(cfg: Config, c: seq<Block>, t: Table, cs: seq<(int, int)>): Table
    decreases |cs|
  {
    if cs == [] then t
    else ScanChunks(cfg, c, t + Scanned(cfg, c, cs[0].0, cs[0].1), cs[1..])
  }

  /** Storing a range and then the next one is storing them together. */
  lemma ScanOn(cfg: Config, c: seq<Block>, t: Table, from: int, mid: int, to: int)
    requires from <= mid + 1 && mid <= to
    ensures (t + Scanned(cfg, c, from, mid)) + Scanned(cfg, c, mid + 1, to) == t + Scanned(cfg, c, from, to)
  {
    ScannedSplits(cfg, c, from, mid, to);
    TablesRegroup(t, Scanned(cfg, c, from, mid), Scanned(cfg, c, mid + 1, to));
  }

  /** However the span is cut, the table ends up as after one scan of the whole span. */
  lemma {:induction false} ChunkingIsInvisible(
    cfg: Config, c: seq<Block>, t: Table, cs: seq<(int, int)>, size: int, from: int, finalHead: int)
    requires Partitions(cs, size, from, finalHead)
    ensures ScanChunks(cfg, c, t, cs) == t + Scanned(cfg, c, from, finalHead)
    decreases |cs|
  {
    if cs == [] {
      assert t + map[] == t;
    } else {
      var to := cs[0].1;
      ChunkingIsInvisible(cfg, c, t + Scanned(cfg, c, from, to), cs[1..], size, to + 1, finalHead);
      ScanOn(cfg, c, t, from, to, finalHead);
    }
  }

  function FinalHead(cfg: Config, head: nat): nat {
    if head > cfg.confirmations then head - cfg.confirmations else 0
  }

  lemma StableScan(cfg: Config, c: seq<Block>, c': seq<Block>, lo: int, hi: int)
    requires 0 < |c| && Evolves(cfg, c, c') && hi <= Final(cfg, c)
    ensures Scanned(cfg, c, lo, hi) == Scanned(cfg, c', lo, hi)
  {
    FinalIsStable(cfg, c, c', if 0 <= hi then hi else 0);
    ScannedStable(cfg, c, c', lo, hi);
  }

  /** A chunk scanned on a chain that has moved meanwhile still continues the span before it. */
  lemma ChunkStored(cfg: Config, c: seq<Block>, c': seq<Block>, t: Table, start: int, from: int, to: int)
    requires 0 < |c| && Evolves(cfg, c, c') && start <= from <= to <= Final(cfg, c)
    ensures var s := t + Scanned(cfg, c, start, from - 1);
      && s == t + Scanned(cfg, c', start, from - 1)
      && s + Scanned(cfg, c', from, to) == t + Scanned(cfg, c', start, to)
  {
    StableScan(cfg, c, c', start, from - 1);
    ScanOn(cfg, c', t, start, from - 1, to);
  }

  lemma NothingScanned(cfg: Config, c: seq<Block>, t: Table, lo: int, hi: int)
    requires hi < lo
    ensures t == t + Scanned(cfg, c, lo, hi)
  {
  }

  // ---- the object ----

  class Indexer {
    const cfg: Config
    const db: Db
    const node: Node
    var headBlock: nat
    var tsCache: map<nat, nat>
    ghost var mem: Mem
    ghost var base: int
    ghost var high: int
    ghost var hist: seq<State>

    ghost function Abs(): State
      reads this, db, node
    {
      State(node.chain, db.rows, db.cursor, headBlock, tsCache, mem, base, high)
    }

    /** The history so far is a run of the step system that ends in the present state. */
    ghost predicate Valid()
      reads this, db, node
    {
      && ValidConfig(cfg) && node.EnvOk(cfg)
      && IsRun(cfg, hist) && hist[|hist| - 1] == Abs()
    }

    lemma PresentInv()
      requires Valid()
      ensures Inv(cfg, Abs())
    {
      RunInv(cfg, hist, |hist| - 1);
    }

    /** A process starts over whatever database an earlier run left behind. */
    constructor (cfg: Config, db: Db, node: Node, ghost past: seq<State>)
      requires ValidConfig(cfg) && node.EnvOk(cfg) && IsRun(cfg, past)
      requires var s := past[|past| - 1];
        s.chain == node.chain && s.rows == db.rows && s.cursor == db.cursor
      ensures Valid() && mem == Idle && hist == past + [Abs()]
      ensures this.cfg == cfg && this.db == db && this.node == node
    {
      this.cfg, this.db, this.node := cfg, db, node;
      headBlock, tsCache, mem := 0, map[], Idle;
      ghost var s := past[|past| - 1];
      base, high := s.base, s.high;
      hist := past + [State(node.chain, db.rows, db.cursor, 0, map[], Idle, s.base, s.high)];
      assert Crashes(s, State(node.chain, db.rows, db.cursor, 0, map[], Idle, s.base, s.high));
      RunExtends(cfg, past, State(node.chain, db.rows, db.cursor, 0, map[], Idle, s.base, s.high));
    }

    ghost method Record()
      requires IsRun(cfg, hist) && Next(cfg, hist[|hist| - 1], Abs())
      modifies this`hist
      ensures IsRun(cfg, hist) && hist == old(hist) + [old(Abs())] && Abs() == old(Abs())
    {
      RunExtends(cfg, hist, Abs());
      hist := hist + [Abs()];
    }

    /** Any RPC call: the chain may have moved by the time it answers. */
    method Call() returns (ok: bool)
      requires Valid()
      modifies this`hist, node
      ensures Valid() && old(hist) <= hist && Evolves(cfg, old(node.chain), node.chain)
    {
      ok := node.CallWithRetry(cfg);
      assert ChainMoves(cfg, hist[|hist| - 1], Abs());
      Record();
    }

    ghost method Abandon()
      requires Valid()
      modifies this`hist, this`mem
      ensures Valid() && old(hist) <= hist && mem == Idle
    {
      mem := Idle;
      assert Fails(hist[|hist| - 1], Abs());
      Record();
    }

    /** `blockTimestamp` and the `rows.push` that waits for it. */
    method PushLog(f: Found, rows: seq<Row>) returns (r: Option<seq<Row>>)
      requires Valid() && mem.Scanning? && mem.rows == rows && mem.queue != [] && mem.queue[0] == f
      modifies this`hist, this`mem, this`tsCache, node
      ensures Valid() && old(hist) <= hist && Evolves(cfg, old(node.chain), node.chain)
      ensures match r
        case Some(rows') => mem == old(mem).(queue := old(mem).queue[1..], rows := rows')
        case None => mem == old(mem)
    {
      assert Evolves(cfg, node.chain, node.chain);
      var ts := 0;
      if f.block in tsCache {
        ts := tsCache[f.block];
      } else {
        var ok := Call();
        if !ok { return None; }
        ts := if f.block < |node.chain| then node.chain[f.block].ts else 0;
      }
      tsCache := tsCache[f.block := ts];
      mem := mem.(queue := mem.queue[1..], rows := rows + [RowFrom(f, ts)]);
      assert PushesRow(hist[|hist| - 1], Abs());
      Record();
      r := Some(rows + [RowFrom(f, ts)]);
    }

    /** One `getLogs` pass, drained into the buffer. */
    method RunPass(k: nat, from: int, to: int, rows: seq<Row>) returns (r: Option<seq<Row>>)
      requires Valid() && mem.Scanning? && mem.queue == [] && mem.rows == rows && mem.done == k < |PassList(cfg)|
      requires mem.from == from && mem.to == to
      modifies this`hist, this`mem, this`tsCache, node
      ensures Valid() && old(hist) <= hist && Evolves(cfg, old(node.chain), node.chain)
      ensures mem.Scanning? && mem.finalHead == old(mem).finalHead && mem.from == old(mem).from && mem.to == old(mem).to
      ensures r.Some? ==> mem.queue == [] && mem.done == k + 1 && mem.rows == r.value
    {
      var ok := Call();
      if !ok { return None; }
      var logs := LogsIn(cfg, node.chain, PassList(cfg)[k], from, to);
      mem := mem.(done := k + 1, queue := logs);
      assert FetchesPass(cfg, hist[|hist| - 1], Abs());
      Record();
      var buffer := rows;
      assert logs[0..] == logs;
      for j := 0 to |logs|
        invariant Valid() && old(hist) <= hist && Evolves(cfg, old(node.chain), node.chain)
        invariant mem.Scanning? && mem.finalHead == old(mem).finalHead
        invariant mem.from == old(mem).from && mem.to == old(mem).to
        invariant mem.queue == logs[j..] && mem.done == k + 1 && mem.rows == buffer
      {
        ghost var before := node.chain;
        var pushed := PushLog(logs[j], buffer);
        EvolvesTransitively(cfg, old(node.chain), before, node.chain);
        if pushed.None? { return None; }
        buffer := pushed.value;
      }
      r := Some(buffer);
    }

    /** Index one chunk: every pass, then one upsert. */
    method IndexRange(from: int, to: int, ghost fh: int) returns (n: Option<nat>)
      requires Valid() && mem == BeginChunk(cfg, from, fh) && to == mem.to
      modifies this`hist, this`mem, this`high, this`tsCache, node, db`rows
      ensures Valid() && old(hist) <= hist && Evolves(cfg, old(node.chain), node.chain)
      ensures match n
        case Some(_) => mem == Committed(fh, to) && db.rows == old(db.rows) + Scanned(cfg, node.chain, from, to)
        case None => mem == Idle && db.rows == old(db.rows)
    {
      assert Evolves(cfg, node.chain, node.chain);
      var rows := [];
      for k := 0 to |PassList(cfg)|
        invariant Valid() && old(hist) <= hist && Evolves(cfg, old(node.chain), node.chain)
        invariant mem == Scanning(fh, from, to, k, [], rows) && db.rows == old(db.rows)
      {
        ghost var before := node.chain;
        var pass := RunPass(k, from, to, rows);
        EvolvesTransitively(cfg, old(node.chain), before, node.chain);
        if pass.None? { Abandon(); return None; }
        rows := pass.value;
      }
      Commit(rows);
      n := Some(|rows|);
    }

    method Commit(rows: seq<Row>)
      requires Valid() && mem.Scanning? && mem.queue == [] && mem.rows == rows && mem.done == |PassList(cfg)|
      modifies this`hist, this`mem, this`high, db`rows
      ensures Valid() && old(hist) <= hist && mem == Committed(old(mem).finalHead, old(mem).to)
      ensures db.rows == old(db.rows) + Scanned(cfg, node.chain, old(mem).from, old(mem).to)
    {
      ghost var s := Abs();
      PresentInv();
      db.UpsertEvents(rows);
      high := Max(high, mem.to);
      mem := Committed(mem.finalHead, mem.to);
      assert CommitsRows(cfg, s, Abs());
      Record();
      CommitKeepsInv(cfg, s, Abs());
    }

    method Advance(to: int, ghost fh: int)
      requires Valid() && mem == Committed(fh, to)
      modifies this`hist, this`mem, db`cursor
      ensures Valid() && old(hist) <= hist && db.cursor == Some(to)
      ensures mem == if to + 1 <= fh then BeginChunk(cfg, to + 1, fh) else Idle
    {
      db.SetCursor(to);
      mem := if to + 1 <= fh then BeginChunk(cfg, to + 1, fh) else Idle;
      assert WritesCursor(cfg, hist[|hist| - 1], Abs());
      Record();
    }

    /** One turn of the loop: index the chunk, then move the cursor over it. */
    method ScanChunk(start: int, from: int, to: int, ghost fh: int, ghost t: Table) returns (ok: bool)
      requires Valid() && mem == BeginChunk(cfg, from, fh) && to == mem.to && start <= from <= to <= fh
      requires db.rows == t + Scanned(cfg, node.chain, start, from - 1)
      modifies this`hist, this`mem, this`high, this`tsCache, node, db
      ensures Valid() && old(hist) <= hist
      ensures db.cursor == if ok then Some(to) else old(db.cursor)
      ensures db.rows == t + Scanned(cfg, node.chain, start, if ok then to else from - 1)
      ensures mem == if ok && to + 1 <= fh then BeginChunk(cfg, to + 1, fh) else Idle
    {
      ghost var c := node.chain;
      ScanIsFinal();
      var n := IndexRange(from, to, fh);
      ChunkStored(cfg, c, node.chain, t, start, from, to);
      ok := n.Some?;
      if ok { Advance(to, fh); }
    }

    method Evict()
      requires Valid() && mem == Idle
      modifies this`hist, this`tsCache
      ensures Valid() && old(hist) <= hist && |tsCache| <= CACHE_LIMIT
    {
      if |tsCache| > CACHE_LIMIT {
        tsCache := map[];
        assert EvictsCache(hist[|hist| - 1], Abs());
        Record();
      }
    }

    lemma ScanIsFinal()
      requires Valid() && mem.Scanning?
      ensures mem.finalHead <= Final(cfg, node.chain)
    {
      PresentInv();
    }

    /** The loop `backfill` and `poll` share: chunk after chunk, the cursor after each. */
    method ScanSpan(start: int, fh: int) returns (ok: bool)
      requires Valid() && mem == BeginChunk(cfg, start, fh) && start == StartOf(cfg, db.cursor) <= fh
      modifies this`hist, this`mem, this`high, this`tsCache, node, db
      ensures Valid() && old(hist) <= hist && mem == Idle
      ensures db.rows == old(db.rows) + Scanned(cfg, node.chain, start, StartOf(cfg, db.cursor) - 1)
      ensures ok ==> db.cursor == Some(fh)
    {
      var from := start;
      assert db.rows + map[] == db.rows;
      while from <= fh
        invariant start <= from <= fh + 1 && from == StartOf(cfg, db.cursor)
        invariant Valid() && old(hist) <= hist
        invariant mem == if from <= fh then BeginChunk(cfg, from, fh) else Idle
        invariant db.rows == old(db.rows) + Scanned(cfg, node.chain, start, from - 1)
        invariant from > fh ==> db.cursor == Some(fh)
        decreases fh - from
      {
        var to := ChunkEnd(cfg, from, fh);
        ok := ScanChunk(start, from, to, fh, old(db.rows));
        if !ok { return; }
        from := to + 1;
      }
      ok := true;
    }

    /** The head is known: scan a span, or note how far a chain short of START_BLOCK has got. */
    method BeginBackfill() returns (start: int, fh: int)
      requires Valid() && mem == Idle
      modifies this`hist, this`mem, this`headBlock, this`base, this`high, db
      ensures Valid() && old(hist) <= hist && db.rows == old(db.rows)
      ensures start == StartOf(cfg, old(db.cursor)) && fh == FinalHead(cfg, headBlock)
      ensures mem == if start <= fh then BeginChunk(cfg, start, fh) else Idle
      ensures db.cursor == if fh < start && old(db.cursor).None? then Some(fh) else old(db.cursor)
    {
      headBlock := |node.chain| - 1;
      fh := FinalHead(cfg, headBlock);
      var stored := db.GetCursor();
      start := StartOf(cfg, stored);
      if start <= fh {
        mem := BeginChunk(cfg, start, fh);
      } else if stored.None? {
        db.SetCursor(fh);
        base, high := fh, fh;
      }
      assert BackfillStarts(cfg, hist[|hist| - 1], Abs());
      Record();
    }

    /** Resume after the stored cursor, or at START_BLOCK, and finalize up to the head's depth. */
    method Backfill() returns (r: Option<int>)
      requires Valid() && mem == Idle
      modifies this, node, db
      ensures Valid() && old(hist) <= hist && mem == Idle
      ensures db.rows ==
        old(db.rows) + Scanned(cfg, node.chain, StartOf(cfg, old(db.cursor)), StartOf(cfg, db.cursor) - 1)
      ensures r.Some? ==>
                var fh := FinalHead(cfg, headBlock);
                db.cursor == r && r.value == if old(db.cursor).None? then fh else Max(old(db.cursor).value, fh)
    {
      var ok := Call();
      NothingScanned(cfg, node.chain, db.rows, StartOf(cfg, db.cursor), StartOf(cfg, db.cursor) - 1);
      if !ok { return None; }
      var start, fh := BeginBackfill();
      if fh < start {
        NothingScanned(cfg, node.chain, db.rows, start, StartOf(cfg, db.cursor) - 1);
        r := db.GetCursor();
        return;
      }
      ok := ScanSpan(start, fh);
      r := if ok then Some(fh) else None;
    }

    /** The head is known: decide whether there is a span to scan. */
    method BeginPoll() returns (start: int, fh: int)
      requires Valid() && mem == Idle
      modifies this`hist, this`mem, this`headBlock
      ensures Valid() && old(hist) <= hist && start == StartOf(cfg, db.cursor) && fh == FinalHead(cfg, headBlock)
      ensures mem == if start <= fh then BeginChunk(cfg, start, fh) else Idle
    {
      headBlock := |node.chain| - 1;
      fh := FinalHead(cfg, headBlock);
      var stored := db.GetCursor();
      var cursor := match stored case Some(c) => c case None => Max(cfg.startBlock - 1, -1);
      start := cursor + 1;
      if start <= fh { mem := BeginChunk(cfg, start, fh); }
      assert PollStarts(cfg, hist[|hist| - 1], Abs());
      Record();
    }

    /** One tick of the live loop. */
    method Poll() returns (ok: bool)
      requires Valid() && mem == Idle
      modifies this, node, db
      ensures Valid() && old(hist) <= hist && mem == Idle
      ensures db.rows ==
        old(db.rows) + Scanned(cfg, node.chain, StartOf(cfg, old(db.cursor)), StartOf(cfg, db.cursor) - 1)
      ensures ok ==>
                var fh := FinalHead(cfg, headBlock);
                db.cursor == if StartOf(cfg, old(db.cursor)) <= fh then Some(fh) else old(db.cursor)
      ensures ok && old(db.cursor) != db.cursor ==> |tsCache| <= CACHE_LIMIT
    {
      ok := Call();
      NothingScanned(cfg, node.chain, db.rows, StartOf(cfg, db.cursor), StartOf(cfg, db.cursor) - 1);
      if !ok { return; }
      var start, fh := BeginPoll();
      if fh < start { return; }
      ok := ScanSpan(start, fh);
      if ok { Evict(); }
    }
  }
}
