/** The indexer and its environment as one step system. Every RPC answer, every row
    pushed, every database write is its own step; the chain may move, and the process
    may fail or crash, between any two of them. */
module IndexerProtocol {
  import opened Wrappers
  import opened Chain
  import opened Scan
  import opened Passes

  /** Where the indexer is inside `backfill` or `poll`. */
  datatype Mem =
    | Idle
    | Scanning(finalHead: int, from: int, to: int, done: nat, queue: seq<Found>, rows: seq<Row>)
    | Committed(finalHead: int, to: int)

  /** `base` and `high` are auxiliary: the scans so far covered (base, high] without a gap. */
  datatype State = State(
    chain: seq<Block>, rows: Table, cursor: Option<int>,
    head: nat, cache: map<nat, nat>, mem: Mem, base: int, high: int)

  ghost predicate ValidConfig(cfg: Config) {
    cfg.chunkSize >= 1
  }

  function Upserted(t: Table, rows: seq<Row>): Table {
    if rows == [] then t
    else
      var r := rows[|rows| - 1];
      Upserted(t, rows[..|rows| - 1])[r.key := r]
  }

  function ChunkEnd(cfg: Config, from: int, finalHead: int): int {
    if from + cfg.chunkSize - 1 < finalHead then from + cfg.chunkSize - 1 else finalHead
  }

  function StartOf(cfg: Config, cursor: Option<int>): int {
    match cursor case Some(c) => c + 1 case None => cfg.startBlock
  }

  function BeginChunk(cfg: Config, from: int, finalHead: int): Mem {
    Scanning(finalHead, from, ChunkEnd(cfg, from, finalHead), 0, [], [])
  }

  ghost predicate Init(cfg: Config, s: State) {
    && Wf(s.chain)
    && s == State(s.chain, map[], None, 0, map[], Idle, cfg.startBlock - 1, cfg.startBlock - 1)
  }

  // ---- the environment ----

  ghost predicate ChainMoves(cfg: Config, s: State, s': State) {
    0 < |s.chain| && Evolves(cfg, s.chain, s'.chain) && s' == s.(chain := s'.chain)
  }

  /** A call failed for good: the scan is abandoned, the caches survive. */
  predicate Fails(s: State, s': State) {
    s' == s.(mem := Idle)
  }

  /** The process dies and is started again: only the database survives. */
  predicate Crashes(s: State, s': State) {
    s' == s.(mem := Idle, cache := map[], head := 0)
  }

  // ---- the indexer ----

  /** `backfill` learns the head. With no cursor and nothing final at START_BLOCK yet it
      writes the lower final head as the cursor, and coverage starts there. */
  predicate BackfillStarts(cfg: Config, s: State, s': State) {
    && 0 < |s.chain| && s.mem.Idle?
    && var fh := Final(cfg, s.chain);
       var start := StartOf(cfg, s.cursor);
       var t := s.(head := |s.chain| - 1);
       s' == if start <= fh then t.(mem := BeginChunk(cfg, start, fh))
             else if s.cursor.None? then t.(cursor := Some(fh), base := fh, high := fh)
             else t
  }

  /** `poll` learns the head; it leaves an unset cursor unset. */
  predicate PollStarts(cfg: Config, s: State, s': State) {
    && 0 < |s.chain| && s.mem.Idle?
    && var fh := Final(cfg, s.chain);
       var cursor := match s.cursor case Some(c) => c case None => Max(cfg.startBlock - 1, -1);
       var t := s.(head := |s.chain| - 1);
       s' == if fh <= cursor then t else t.(mem := BeginChunk(cfg, cursor + 1, fh))
  }

  predicate FetchesPass(cfg: Config, s: State, s': State) {
    && s.mem.Scanning? && s.mem.queue == [] && s.mem.done < |PassList(cfg)|
    && s' == s.(mem := s.mem.(
         done := s.mem.done + 1,
         queue := LogsIn(cfg, s.chain, PassList(cfg)[s.mem.done], s.mem.from, s.mem.to)))
  }

  /** `blockTimestamp`: the cache, else the header; a missing header reads as 0. */
  function TimestampOf(cache: map<nat, nat>, c: seq<Block>, b: nat): nat {
    if b in cache then cache[b] else if b < |c| then c[b].ts else 0
  }

  predicate PushesRow(s: State, s': State) {
    && s.mem.Scanning? && s.mem.queue != []
    && var f := s.mem.queue[0];
       var ts := TimestampOf(s.cache, s.chain, f.block);
       s' == s.(cache := s.cache[f.block := ts],
                mem := s.mem.(queue := s.mem.queue[1..], rows := s.mem.rows + [RowFrom(f, ts)]))
  }

  predicate CommitsRows(cfg: Config, s: State, s': State) {
    && s.mem.Scanning? && s.mem.queue == [] && s.mem.done == |PassList(cfg)|
    && s' == s.(rows := Upserted(s.rows, s.mem.rows), high := Max(s.high, s.mem.to),
                mem := Committed(s.mem.finalHead, s.mem.to))
  }

  predicate WritesCursor(cfg: Config, s: State, s': State) {
    && s.mem.Committed?
    && s' == s.(cursor := Some(s.mem.to),
                mem := if s.mem.to + 1 <= s.mem.finalHead
                       then BeginChunk(cfg, s.mem.to + 1, s.mem.finalHead) else Idle)
  }

  predicate EvictsCache(s: State, s': State) {
    s.mem.Idle? && s' == s.(cache := map[])
  }

  /** `/health` refreshes the head it reports. */
  predicate ChecksHealth(s: State, s': State) {
    0 < |s.chain| && s' == s.(head := |s.chain| - 1)
  }

  ghost predicate Next(cfg: Config, s: State, s': State) {
    || ChainMoves(cfg, s, s') || Fails(s, s') || Crashes(s, s')
    || BackfillStarts(cfg, s, s') || PollStarts(cfg, s, s')
    || FetchesPass(cfg, s, s') || PushesRow(s, s') || CommitsRows(cfg, s, s')
    || WritesCursor(cfg, s, s') || EvictsCache(s, s') || ChecksHealth(s, s')
  }

  ghost predicate StepAt(cfg: Config, run: seq<State>, i: int)
    requires 0 <= i < |run| - 1
  {
    Next(cfg, run[i], run[i + 1])
  }

  /** A finite run: any interleaving of the steps above, from an empty database. */
  ghost predicate IsRun(cfg: Config, run: seq<State>) {
    && 0 < |run| && Init(cfg, run[0])
    && forall i :: 0 <= i < |run| - 1 ==> StepAt(cfg, run, i)
  }

  lemma RunExtends(cfg: Config, run: seq<State>, s: State)
    requires IsRun(cfg, run) && Next(cfg, run[|run| - 1], s)
    ensures IsRun(cfg, run + [s])
  {
    var longer := run + [s];
    forall i | 0 <= i < |longer| - 1 ensures StepAt(cfg, longer, i) {
      if i < |run| - 1 { assert StepAt(cfg, run, i); }
    }
  }

  // ---- what every reachable state satisfies ----

  ghost predicate CacheOk(cfg: Config, c: seq<Block>, cache: map<nat, nat>)
    requires 0 < |c|
  {
    forall b :: b in cache ==> b <= Final(cfg, c) && cache[b] == c[b].ts
  }

  /** The log is on its way: fetched and queued, or already a buffered row. */
  ghost predicate Seen(c: seq<Block>, m: Mem, b: int, i: int)
    requires m.Scanning? && HasLog(c, b, i)
  {
    || Found(b, c[b].hash, c[b].logs[i]) in m.queue
    || RowOf(b, c[b], c[b].logs[i]) in m.rows
  }

  ghost predicate QueueOk(cfg: Config, c: seq<Block>, m: Mem)
    requires m.Scanning?
  {
    forall f :: f in m.queue ==> m.from <= f.block <= m.to && Watched(cfg, f.log) && OnChain(c, f)
  }

  ghost predicate BufferOk(cfg: Config, c: seq<Block>, m: Mem)
    requires m.Scanning?
  {
    forall r :: r in m.rows ==> m.from <= r.block <= m.to && Canonical(cfg, c, r)
  }

  ghost predicate PassesOk(cfg: Config, c: seq<Block>, m: Mem)
    requires m.Scanning?
  {
    m.done <= |PassList(cfg)| && forall b, i, p :: PassSaw(cfg, c, m, b, i, p)
  }

  /** Pass number `p`, if it is done, has seen log number `i` of block `b`, if it asks for it. */
  ghost predicate PassSaw(cfg: Config, c: seq<Block>, m: Mem, b: int, i: int, p: int)
    requires m.Scanning? && m.done <= |PassList(cfg)|
  {
    HasLog(c, b, i) && m.from <= b <= m.to && 0 <= p < m.done && Matches(cfg, PassList(cfg)[p], c[b].logs[i]) ==>
      Seen(c, m, b, i)
  }

  ghost predicate ScanOk(cfg: Config, c: seq<Block>, m: Mem)
    requires m.Scanning?
  {
    QueueOk(cfg, c, m) && BufferOk(cfg, c, m) && PassesOk(cfg, c, m)
  }

  ghost predicate MemOk(cfg: Config, s: State)
    requires 0 < |s.chain|
  {
    match s.mem
    case Idle => true
    case Scanning(fh, from, to, _, _, _) =>
      && from == StartOf(cfg, s.cursor) && from <= to <= fh <= Final(cfg, s.chain)
      && ScanOk(cfg, s.chain, s.mem)
    case Committed(fh, to) =>
      StartOf(cfg, s.cursor) <= to <= fh <= Final(cfg, s.chain) && to <= s.high
  }

  ghost predicate Inv(cfg: Config, s: State) {
    && Wf(s.chain)
    && -1 <= s.base < cfg.startBlock && s.base <= s.high && (s.high == s.base || s.high <= Final(cfg, s.chain))
    && s.rows == Scanned(cfg, s.chain, s.base + 1, s.high)
    && (match s.cursor
        case None => s.base == cfg.startBlock - 1
        case Some(c) => s.base <= c <= s.high && 0 <= c <= Final(cfg, s.chain))
    && CacheOk(cfg, s.chain, s.cache)
    && MemOk(cfg, s)
  }

  // ---- the invariant is inductive ----

  lemma InitInv(cfg: Config, s: State)
    requires Init(cfg, s)
    ensures Inv(cfg, s)
  {
  }

  /** Blocks in the final prefix look the same before and after a chain move. */
  lemma MoveKeepsFound(cfg: Config, c: seq<Block>, c': seq<Block>, f: Found)
    requires 0 < |c| && Evolves(cfg, c, c') && f.block <= Final(cfg, c) && OnChain(c, f)
    ensures OnChain(c', f)
  {
    FinalIsStable(cfg, c, c', f.block);
    var i :| IsFoundAt(c, f, i);
    assert IsFoundAt(c', f, i);
  }

  lemma MoveKeepsCanonical(cfg: Config, c: seq<Block>, c': seq<Block>, r: Row)
    requires 0 < |c| && Evolves(cfg, c, c') && r.block <= Final(cfg, c) && Canonical(cfg, c, r)
    ensures Canonical(cfg, c', r)
  {
    FinalIsStable(cfg, c, c', r.block);
    var i :| IsRowAt(cfg, c, r, i);
    assert IsRowAt(cfg, c', r, i);
  }

  lemma MoveKeepsPasses(cfg: Config, c: seq<Block>, c': seq<Block>, m: Mem)
    requires 0 < |c| && Evolves(cfg, c, c') && m.Scanning? && m.to <= Final(cfg, c)
    requires PassesOk(cfg, c, m)
    ensures PassesOk(cfg, c', m)
  {
    forall b, i, p
      ensures PassSaw(cfg, c', m, b, i, p)
    {
      if HasLog(c', b, i) && m.from <= b <= m.to {
        FinalIsStable(cfg, c, c', b);
        assert PassSaw(cfg, c, m, b, i, p);
      }
    }
  }

  lemma MoveKeepsMem(cfg: Config, s: State, s': State)
    requires Inv(cfg, s) && ChainMoves(cfg, s, s') && s.mem.Scanning?
    ensures MemOk(cfg, s')
  {
    FinalIsStable(cfg, s.chain, s'.chain, 0);
    forall f | f in s.mem.queue ensures OnChain(s'.chain, f) {
      MoveKeepsFound(cfg, s.chain, s'.chain, f);
    }
    forall r | r in s.mem.rows ensures Canonical(cfg, s'.chain, r) {
      MoveKeepsCanonical(cfg, s.chain, s'.chain, r);
    }
    MoveKeepsPasses(cfg, s.chain, s'.chain, s.mem);
  }

  lemma MoveKeepsRows(cfg: Config, c: seq<Block>, c': seq<Block>, base: int, high: int)
    requires 0 < |c| && Evolves(cfg, c, c') && -1 <= base <= high
    requires high == base || high <= Final(cfg, c)
    ensures Scanned(cfg, c, base + 1, high) == Scanned(cfg, c', base + 1, high)
    ensures high == base || high <= Final(cfg, c')
  {
    if base < high {
      FinalIsStable(cfg, c, c', high);
      ScannedStable(cfg, c, c', base + 1, high);
    }
  }

  lemma MoveKeepsInv(cfg: Config, s: State, s': State)
    requires Inv(cfg, s) && ChainMoves(cfg, s, s')
    ensures Inv(cfg, s')
  {
    FinalIsStable(cfg, s.chain, s'.chain, 0);
    MoveKeepsRows(cfg, s.chain, s'.chain, s.base, s.high);
    assert CacheOk(cfg, s'.chain, s'.cache) by {
      forall b | b in s.cache ensures b <= Final(cfg, s'.chain) && s'.cache[b] == s'.chain[b].ts {
        FinalIsStable(cfg, s.chain, s'.chain, b);
      }
    }
    assert MemOk(cfg, s') by {
      if s.mem.Scanning? { MoveKeepsMem(cfg, s, s'); }
    }
  }

  lemma BeginOk(cfg: Config, c: seq<Block>, from: int, fh: int)
    requires ValidConfig(cfg) && from <= fh
    ensures var m := BeginChunk(cfg, from, fh); m.from <= m.to <= fh && ScanOk(cfg, c, m)
  {
  }

  lemma BackfillKeepsInv(cfg: Config, s: State, s': State)
    requires ValidConfig(cfg) && Inv(cfg, s) && BackfillStarts(cfg, s, s')
    ensures Inv(cfg, s')
  {
    var fh, start := Final(cfg, s.chain), StartOf(cfg, s.cursor);
    if start <= fh { BeginOk(cfg, s.chain, start, fh); }
  }

  lemma PollKeepsInv(cfg: Config, s: State, s': State)
    requires ValidConfig(cfg) && Inv(cfg, s) && PollStarts(cfg, s, s')
    ensures Inv(cfg, s')
  {
    var fh := Final(cfg, s.chain);
    if StartOf(cfg, s.cursor) <= fh { BeginOk(cfg, s.chain, StartOf(cfg, s.cursor), fh); }
  }

  lemma FetchKeepsScan(cfg: Config, c: seq<Block>, m: Mem, m': Mem)
    requires m.Scanning? && m.queue == [] && m.done < |PassList(cfg)| && ScanOk(cfg, c, m)
    requires m' == m.(done := m.done + 1, queue := LogsIn(cfg, c, PassList(cfg)[m.done], m.from, m.to))
    ensures ScanOk(cfg, c, m')
  {
    var p := PassList(cfg)[m.done];
    LogsInExact(cfg, c, p, m.from, m.to);
    forall f | f in m'.queue
      ensures Watched(cfg, f.log)
    {
      PassesCoverWatched(cfg, f.log);
    }
    forall b, i, q
      ensures PassSaw(cfg, c, m', b, i, q)
    {
      assert PassSaw(cfg, c, m, b, i, q);
    }
  }

  lemma FetchKeepsInv(cfg: Config, s: State, s': State)
    requires Inv(cfg, s) && FetchesPass(cfg, s, s')
    ensures Inv(cfg, s')
  {
    FetchKeepsScan(cfg, s.chain, s.mem, s'.mem);
  }

  /** Turning the first queued log into a buffered row. */
  lemma PushKeepsScan(cfg: Config, c: seq<Block>, m: Mem, m': Mem, r: Row)
    requires m.Scanning? && m.queue != [] && ScanOk(cfg, c, m)
    requires m.queue[0].block < |c| && r == RowFrom(m.queue[0], c[m.queue[0].block].ts)
    requires m' == m.(queue := m.queue[1..], rows := m.rows + [r])
    ensures ScanOk(cfg, c, m')
  {
    var f := m.queue[0];
    assert f in m.queue;
    var i :| IsFoundAt(c, f, i);
    assert IsRowAt(cfg, c, r, i);
    forall b, j, q
      ensures PassSaw(cfg, c, m', b, j, q)
    {
      assert PassSaw(cfg, c, m, b, j, q);
      if HasLog(c, b, j) {
        var g := Found(b, c[b].hash, c[b].logs[j]);
        if g in m.queue && g != f { assert g in m.queue[1..]; }
      }
    }
  }

  lemma PushKeepsInv(cfg: Config, s: State, s': State)
    requires Inv(cfg, s) && PushesRow(s, s')
    ensures Inv(cfg, s')
  {
    var f, c := s.mem.queue[0], s.chain;
    assert f in s.mem.queue;
    PushKeepsScan(cfg, c, s.mem, s'.mem, RowFrom(f, TimestampOf(s.cache, c, f.block)));
  }

  lemma {:induction false} UpsertedExact(t: Table, rows: seq<Row>)
    ensures var u := Upserted(map[], rows);
      && (forall k :: k in u ==> u[k] in rows && u[k].key == k)
      && (forall r :: r in rows ==> r.key in u)
      && Upserted(t, rows) == t + u
  {
    if rows != [] {
      var front, last := rows[..|rows| - 1], rows[|rows| - 1];
      UpsertedExact(t, front);
      assert rows == front + [last];
      var u := Upserted(map[], front);
      assert (t + u)[last.key := last] == t + u[last.key := last];
    }
  }

  /** Once every pass is drained, the buffered rows are the reference scan of the chunk. */
  lemma BufferIsScanned(cfg: Config, c: seq<Block>, m: Mem)
    requires UniqueKeys(c) && m.Scanning? && m.queue == [] && m.done == |PassList(cfg)|
    requires BufferOk(cfg, c, m) && PassesOk(cfg, c, m)
    ensures Upserted(map[], m.rows) == Scanned(cfg, c, m.from, m.to)
  {
    var u := Upserted(map[], m.rows);
    UpsertedExact(map[], m.rows);
    forall b, i | m.from <= b <= m.to
      ensures HoldsLog(cfg, c, u, b, i)
    {
      if HasLog(c, b, i) && Watched(cfg, c[b].logs[i]) {
        var l := c[b].logs[i];
        PassesCoverWatched(cfg, l);
        var p :| p in PassList(cfg) && Matches(cfg, p, l);
        var q :| 0 <= q < |PassList(cfg)| && PassList(cfg)[q] == p;
        assert PassSaw(cfg, c, m, b, i, q);
        CanonicalUnique(cfg, c, u[l.key], b, i);
      }
    }
    ExactIsScanned(cfg, c, u, m.from, m.to);
  }

  lemma CommitKeepsInv(cfg: Config, s: State, s': State)
    requires Inv(cfg, s) && CommitsRows(cfg, s, s')
    ensures Inv(cfg, s')
    ensures s'.rows == s.rows + Scanned(cfg, s.chain, s.mem.from, s.mem.to)
  {
    BufferIsScanned(cfg, s.chain, s.mem);
    UpsertedExact(s.rows, s.mem.rows);
    RescanIsIdempotent(cfg, s.chain, s.base + 1, s.mem.from, s.mem.to, s.high);
  }

  lemma CursorKeepsInv(cfg: Config, s: State, s': State)
    requires ValidConfig(cfg) && Inv(cfg, s) && WritesCursor(cfg, s, s')
    ensures Inv(cfg, s')
  {
  }

  lemma StepKeepsInv(cfg: Config, s: State, s': State)
    requires ValidConfig(cfg) && Inv(cfg, s) && Next(cfg, s, s')
    ensures Inv(cfg, s')
  {
    if ChainMoves(cfg, s, s') { MoveKeepsInv(cfg, s, s'); }
    else if BackfillStarts(cfg, s, s') { BackfillKeepsInv(cfg, s, s'); }
    else if PollStarts(cfg, s, s') { PollKeepsInv(cfg, s, s'); }
    else if FetchesPass(cfg, s, s') { FetchKeepsInv(cfg, s, s'); }
    else if PushesRow(s, s') { PushKeepsInv(cfg, s, s'); }
    else if CommitsRows(cfg, s, s') { CommitKeepsInv(cfg, s, s'); }
    else if WritesCursor(cfg, s, s') { CursorKeepsInv(cfg, s, s'); }
  }

  /** Every state of every run satisfies the invariant. */
  lemma {:induction false} RunInv(cfg: Config, run: seq<State>, n: nat)
    requires ValidConfig(cfg) && IsRun(cfg, run) && n < |run|
    ensures Inv(cfg, run[n])
  {
    if n == 0 { InitInv(cfg, run[0]); }
    else {
      RunInv(cfg, run, n - 1);
      assert StepAt(cfg, run, n - 1);
      StepKeepsInv(cfg, run[n - 1], run[n]);
    }
  }

  // ---- what the invariant buys ----

  /** The stored table: every row is a watched log of the current canonical chain in a final block,
      every watched log from START_BLOCK up to the cursor is stored, and the cache is right. */
  lemma ReachableStore(cfg: Config, run: seq<State>, n: nat)
    requires ValidConfig(cfg) && IsRun(cfg, run) && n < |run|
    ensures var s := run[n];
      && Wf(s.chain)
      && OnlyCanonical(cfg, s.chain, s.rows, s.base + 1, Final(cfg, s.chain))
      && s.base < cfg.startBlock
      && (s.cursor.Some? ==> HoldsAll(cfg, s.chain, s.rows, s.base + 1, s.cursor.value))
      && (s.cursor.Some? ==> HoldsAll(cfg, s.chain, s.rows, cfg.startBlock, s.cursor.value))
      && CacheOk(cfg, s.chain, s.cache)
  {
    RunInv(cfg, run, n);
    ScannedExact(cfg, run[n].chain, run[n].base + 1, run[n].high);
  }

  ghost predicate NothingLost(s: State, s': State) {
    && (s.cursor.Some? ==> s'.cursor.Some? && s.cursor.value <= s'.cursor.value)
    && RowsKept(s.rows, s'.rows)
  }

  ghost predicate RowsKept(t: Table, t': Table) {
    forall k :: k in t ==> k in t' && t'[k] == t[k]
  }

  /** A rescan writes what is there already. */
  lemma RescanChangesNothing(cfg: Config, c: seq<Block>, lo: int, hi: int, from: int, to: int)
    requires UniqueKeys(c)
    ensures RowsKept(Scanned(cfg, c, lo, hi), Scanned(cfg, c, lo, hi) + Scanned(cfg, c, from, to))
  {
    var t, r := Scanned(cfg, c, lo, hi), Scanned(cfg, c, from, to);
    ScannedExact(cfg, c, lo, hi);
    ScannedExact(cfg, c, from, to);
    forall k | k in t
      ensures (t + r)[k] == t[k]
    {
      var i :| IsRowAt(cfg, c, t[k], i);
      if k in r { CanonicalUnique(cfg, c, r[k], t[k].block, i); }
    }
  }

  lemma CommitLosesNothing(cfg: Config, s: State, s': State)
    requires Inv(cfg, s) && CommitsRows(cfg, s, s')
    ensures NothingLost(s, s')
  {
    CommitKeepsInv(cfg, s, s');
    RescanChangesNothing(cfg, s.chain, s.base + 1, s.high, s.mem.from, s.mem.to);
  }

  lemma StepLosesNothing(cfg: Config, s: State, s': State)
    requires ValidConfig(cfg) && Inv(cfg, s) && Next(cfg, s, s')
    ensures NothingLost(s, s')
  {
    if CommitsRows(cfg, s, s') { CommitLosesNothing(cfg, s, s'); }
  }

  /** Over a whole run the cursor never decreases and no stored row is ever changed or
      dropped: the overwrite branch of the upsert only ever rewrites a row with itself. */
  lemma {:induction false} RunLosesNothing(cfg: Config, run: seq<State>, i: nat, j: nat)
    requires ValidConfig(cfg) && IsRun(cfg, run) && i <= j < |run|
    ensures NothingLost(run[i], run[j])
    decreases j
  {
    if i < j {
      RunLosesNothing(cfg, run, i, j - 1);
      RunInv(cfg, run, j - 1);
      assert StepAt(cfg, run, j - 1);
      StepLosesNothing(cfg, run[j - 1], run[j]);
    }
  }

  // ---- an undisturbed indexer finishes ----

  function Last(run: seq<State>): State
    requires run != []
  {
    run[|run| - 1]
  }

  /** What the indexer itself does next in the middle of a span. */
  function OwnStep(cfg: Config, s: State): State
    requires !s.mem.Idle? && (s.mem.Scanning? ==> s.mem.done <= |PassList(cfg)|)
  {
    match s.mem
    case Scanning(fh, from, to, done, queue, rows) =>
      if queue != [] then
        var ts := TimestampOf(s.cache, s.chain, queue[0].block);
        s.(cache := s.cache[queue[0].block := ts],
           mem := s.mem.(queue := queue[1..], rows := rows + [RowFrom(queue[0], ts)]))
      else if done < |PassList(cfg)| then
        s.(mem := s.mem.(done := done + 1, queue := LogsIn(cfg, s.chain, PassList(cfg)[done], from, to)))
      else
        s.(rows := Upserted(s.rows, rows), high := Max(s.high, to), mem := Committed(fh, to))
    case Committed(fh, to) =>
      s.(cursor := Some(to), mem := if to + 1 <= fh then BeginChunk(cfg, to + 1, fh) else Idle)
  }

  lemma OwnStepIsAStep(cfg: Config, s: State)
    requires Inv(cfg, s) && !s.mem.Idle?
    ensures Next(cfg, s, OwnStep(cfg, s))
  {
  }

  /** The blocks, passes and queued logs still ahead. */
  function BlocksLeft(m: Mem): int {
    match m
    case Idle => 0
    case Scanning(fh, from, _, _, _, _) => fh - from + 1
    case Committed(fh, to) => fh - to
  }

  function PassesLeft(cfg: Config, m: Mem): int {
    match m
    case Idle => 0
    case Scanning(_, _, _, done, _, _) => |PassList(cfg)| - done + 1
    case Committed(_, _) => |PassList(cfg)| + 2
  }

  function QueueLeft(m: Mem): nat {
    if m.Scanning? then |m.queue| else 0
  }

  function Goal(m: Mem): int {
    match m
    case Idle => -1
    case Scanning(fh, _, _, _, _, _) => fh
    case Committed(fh, _) => fh
  }

  lemma OwnStepAdvances(cfg: Config, s: State)
    requires ValidConfig(cfg) && Inv(cfg, s) && !s.mem.Idle?
    ensures var m, m' := s.mem, OwnStep(cfg, s).mem;
      && 0 <= BlocksLeft(m') <= BlocksLeft(m) && 0 <= PassesLeft(cfg, m) && 0 <= PassesLeft(cfg, m')
      && (BlocksLeft(m') == BlocksLeft(m) ==> PassesLeft(cfg, m') <= PassesLeft(cfg, m))
      && (BlocksLeft(m') == BlocksLeft(m) && PassesLeft(cfg, m') == PassesLeft(cfg, m) ==> QueueLeft(m') < QueueLeft(m))
      && (if m'.Idle? then OwnStep(cfg, s).cursor == Some(Goal(m)) else Goal(m') == Goal(m))
  {
    OwnStepIsAStep(cfg, s);
    StepKeepsInv(cfg, s, OwnStep(cfg, s));
  }

  /** From any state of any run in which a span is being scanned, the indexer's own steps reach a state
      with the cursor at the end of the span, on the same chain and over the same base. */
  lemma {:induction false} Finishes(cfg: Config, run: seq<State>) returns (longer: seq<State>)
    requires ValidConfig(cfg) && IsRun(cfg, run) && !Last(run).mem.Idle?
    ensures IsRun(cfg, longer) && run <= longer
    ensures var s, s' := Last(run), Last(longer);
      s'.mem.Idle? && s'.chain == s.chain && s'.base == s.base && s'.cursor == Some(Goal(s.mem))
    decreases BlocksLeft(Last(run).mem), PassesLeft(cfg, Last(run).mem), QueueLeft(Last(run).mem)
  {
    var s := Last(run);
    RunInv(cfg, run, |run| - 1);
    OwnStepIsAStep(cfg, s);
    OwnStepAdvances(cfg, s);
    RunExtends(cfg, run, OwnStep(cfg, s));
    longer := run + [OwnStep(cfg, s)];
    if !Last(longer).mem.Idle? { longer := Finishes(cfg, longer); }
  }

  /** An undisturbed backfill from an empty database, on any chain whose final block is at or above
      START_BLOCK, stores the scan from START_BLOCK to the final block and leaves the cursor there. */
  lemma BackfillCompletes(cfg: Config, c: seq<Block>) returns (run: seq<State>)
    requires ValidConfig(cfg) && Wf(c) && cfg.startBlock <= Final(cfg, c)
    ensures IsRun(cfg, run)
    ensures var s := Last(run);
      && s.mem.Idle? && s.chain == c && s.base == cfg.startBlock - 1 && s.cursor == Some(Final(cfg, c))
      && s.rows == Scanned(cfg, c, cfg.startBlock, Final(cfg, c))
  {
    var init := State(c, map[], None, 0, map[], Idle, cfg.startBlock - 1, cfg.startBlock - 1);
    var begun := init.(head := |c| - 1, mem := BeginChunk(cfg, cfg.startBlock, Final(cfg, c)));
    assert BackfillStarts(cfg, init, begun);
    assert IsRun(cfg, [init]);
    RunExtends(cfg, [init], begun);
    run := Finishes(cfg, [init] + [begun]);
    RunInv(cfg, run, |run| - 1);
  }
}
