/** The `/flow` endpoint: a time window resolved to a block window, and the signed sums over it. */
module Api {
  import opened Wrappers
  import opened Chain
  import opened Scan
  import opened NetFlow
  import opened Store
  import opened IndexerProtocol

  datatype Window = Window(fromExclusive: int, toInclusive: int, partial: bool)

  /** `windowToBlocks`, given the answers of its three queries. */
  function WindowOf(cfg: Config, cursor: Option<int>, first: Option<nat>, earliest: Option<nat>): Window {
    var to := UpperBound(cfg, cursor);
    Window(if first.Some? then first.value - 1 else to, to,
           to < 0 || earliest.None? || first == earliest)
  }

  lemma CanonicalTime(cfg: Config, c: seq<Block>, r: Row)
    requires Canonical(cfg, c, r)
    ensures r.block < |c| && r.ts == c[r.block].ts
  {
    var i :| IsRowAt(cfg, c, r, i);
  }

  /** What the endpoint relies on: the table holds exactly the watched logs of (base, high],
      and the upper bound of a window lies in that range. */
  ghost predicate Servable(cfg: Config, c: seq<Block>, t: Table, base: int, high: int, to: int) {
    && Wf(c)
    && OnlyCanonical(cfg, c, t, base + 1, high) && HoldsAll(cfg, c, t, base + 1, high)
    && base <= to <= high && (t != map[] ==> to < |c|)
  }

  function UpperBound(cfg: Config, cursor: Option<int>): int {
    match cursor case Some(c) => c case None => Max(cfg.startBlock - 1, -1)
  }

  lemma InvIsServable(cfg: Config, s: State)
    requires Inv(cfg, s)
    ensures Servable(cfg, s.chain, s.rows, s.base, s.high, UpperBound(cfg, s.cursor))
  {
    ScannedExact(cfg, s.chain, s.base + 1, s.high);
    assert s.base == s.high ==> s.rows == map[];
  }

  lemma TimesAscend(c: seq<Block>, i: nat, j: nat)
    requires Wf(c) && i <= j < |c|
    ensures c[i].ts <= c[j].ts
  {
    assert Later(c, i, j);
  }

  /** A row at or above the block of one inside the requested time is inside it too. */
  lemma RowAfter(cfg: Config, c: seq<Block>, t: Table, f: Key, k: Key)
    requires Wf(c) && f in t && k in t && Canonical(cfg, c, t[f]) && Canonical(cfg, c, t[k]) && t[f].block <= t[k].block
    ensures t[f].ts <= t[k].ts
  {
    CanonicalTime(cfg, c, t[f]);
    CanonicalTime(cfg, c, t[k]);
    TimesAscend(c, t[f].block, t[k].block);
  }

  /** When the lowest in-window row is not the lowest row, the lowest row is from before the cutoff. */
  lemma EarlyRow(t: Table, cutoff: real, first: Option<nat>, earliest: Option<nat>) returns (early: Key)
    requires IsLowest(t, Some(cutoff), first) && IsLowest(t, None, earliest)
    requires earliest.Some? && first != earliest
    ensures early in t && (t[early].ts as real) < cutoff
  {
    early :| early in t && AtOrAfter(t[early], None) && t[early].block == earliest.value;
    if first.Some? {
      var f :| f in t && AtOrAfter(t[f], Some(cutoff)) && t[f].block == first.value;
      assert AtOrAfter(t[f], None);
    }
  }

  lemma FlagExactly(cfg: Config, c: seq<Block>, t: Table, lo: int, hi: int, cutoff: real,
    first: Option<nat>, earliest: Option<nat>)
    requires Wf(c) && OnlyCanonical(cfg, c, t, lo, hi)
    requires IsLowest(t, Some(cutoff), first) && IsLowest(t, None, earliest)
    ensures earliest.None? || first == earliest <==> forall k :: k in t ==> t[k].ts as real >= cutoff
  {
    if earliest.None? {
      NoRows(t);
    } else if first == earliest {
      var f :| f in t && AtOrAfter(t[f], Some(cutoff)) && t[f].block == first.value;
      forall k | k in t
        ensures t[k].ts as real >= cutoff
      {
        assert AtOrAfter(t[k], None);
        RowAfter(cfg, c, t, f, k);
      }
    } else {
      var early := EarlyRow(t, cutoff, first, earliest);
    }
  }

  lemma NoRows(t: Table)
    requires IsLowest(t, None, None)
    ensures t == map[]
  {
    if k :| k in t { assert false; }
  }

  /** Exactly when the flag is raised: nothing final yet, or no stored row predates the cutoff. */
  lemma PartialExactly(cfg: Config, s: State, cutoff: real, first: Option<nat>, earliest: Option<nat>)
    requires Inv(cfg, s)
    requires IsLowest(s.rows, Some(cutoff), first) && IsLowest(s.rows, None, earliest)
    ensures var w := WindowOf(cfg, s.cursor, first, earliest);
      w.partial <==> w.toInclusive < 0 || forall k :: k in s.rows ==> s.rows[k].ts as real >= cutoff
  {
    InvIsServable(cfg, s);
    FlagExactly(cfg, s.chain, s.rows, s.base + 1, s.high, cutoff, first, earliest);
  }

  /** The window is covered: no block at or after the cutoff lies below the scanned range. */
  ghost predicate Covered(s: State, cutoff: real) {
    s.base < 0 || (s.base < |s.chain| && (s.chain[s.base].ts as real) < cutoff)
  }

  ghost predicate HasEarlyRow(s: State, cutoff: real) {
    exists k :: k in s.rows && (s.rows[k].ts as real) < cutoff
  }

  /** A window that is not covered has no stored row from before it. */
  lemma UncoveredHasNoEarlyRow(cfg: Config, s: State, cutoff: real)
    requires Inv(cfg, s) && !Covered(s, cutoff)
    ensures !HasEarlyRow(s, cutoff)
  {
    InvIsServable(cfg, s);
    forall k | k in s.rows
      ensures s.rows[k].ts as real >= cutoff
    {
      CanonicalTime(cfg, s.chain, s.rows[k]);
      TimesAscend(s.chain, s.base, s.rows[k].block);
    }
  }

  /** The flag against coverage: it is never missing on a window that is not covered, and on one that is
      covered it is right exactly when something is final and a stored row predates the cutoff. */
  lemma PartialAgainstCoverage(cfg: Config, s: State, cutoff: real, first: Option<nat>, earliest: Option<nat>)
    requires Inv(cfg, s)
    requires IsLowest(s.rows, Some(cutoff), first) && IsLowest(s.rows, None, earliest)
    ensures var w := WindowOf(cfg, s.cursor, first, earliest);
      && (!Covered(s, cutoff) ==> w.partial)
      && ((w.partial <==> !Covered(s, cutoff))
          <==> !Covered(s, cutoff) || (w.toInclusive >= 0 && HasEarlyRow(s, cutoff)))
  {
    PartialExactly(cfg, s, cutoff, first, earliest);
    if !Covered(s, cutoff) { UncoveredHasNoEarlyRow(cfg, s, cutoff); }
  }

  /** No watched log that the window leaves out is inside the requested time. */
  lemma NothingBeforeTheWindow(cfg: Config, c: seq<Block>, t: Table, lo: int, hi: int, cutoff: real,
    first: Option<nat>, early: Key, b: int, i: int)
    requires Wf(c) && OnlyCanonical(cfg, c, t, lo, hi) && HoldsAll(cfg, c, t, lo, hi)
    requires IsLowest(t, Some(cutoff), first)
    requires early in t && (t[early].ts as real) < cutoff
    requires HasLog(c, b, i) && b <= hi && c[b].ts as real >= cutoff && (first.Some? ==> b < first.value)
    ensures !Watched(cfg, c[b].logs[i])
  {
    CanonicalTime(cfg, c, t[early]);
    if b <= t[early].block { TimesAscend(c, b, t[early].block); }
    assert HoldsLog(cfg, c, t, b, i);
  }

  /** The blocks from the first in-window row on are inside the requested time. */
  lemma AllInsideTheWindow(cfg: Config, c: seq<Block>, t: Table, lo: int, hi: int, cutoff: real, first: nat)
    requires Wf(c) && OnlyCanonical(cfg, c, t, lo, hi) && IsLowest(t, Some(cutoff), Some(first))
    ensures lo <= first < |c| && forall b :: first <= b < |c| ==> c[b].ts as real >= cutoff
  {
    var f :| f in t && AtOrAfter(t[f], Some(cutoff)) && t[f].block == first;
    CanonicalTime(cfg, c, t[f]);
    forall b | first <= b < |c|
      ensures c[b].ts as real >= cutoff
    {
      TimesAscend(c, first, b);
    }
  }

  lemma ExactWindow(
    cfg: Config, c: seq<Block>, t: Table, base: int, high: int, from: int, to: int, cutoff: real, first: Option<nat>,
    early: Key, m: Measure)
    requires Servable(cfg, c, t, base, high, to) && IsLowest(t, Some(cutoff), first)
    requires early in t && (t[early].ts as real) < cutoff && from == if first.Some? then first.value - 1 else to
    ensures to < |c| && base <= from
    ensures FlowSince(cfg, c, m, cutoff, to) == ChainFlow(cfg, c, m, from + 1, to)
  {
    if first.Some? { AllInsideTheWindow(cfg, c, t, base + 1, high, cutoff, first.value); }
    forall b, i | HasLog(c, b, i) && b <= to && b < from + 1 && c[b].ts as real >= cutoff
      ensures !Watched(cfg, c[b].logs[i])
    {
      NothingBeforeTheWindow(cfg, c, t, base + 1, high, cutoff, first, early, b, i);
    }
    FlowSinceIsWindow(cfg, c, m, cutoff, from + 1, to);
  }

  lemma ServableIsExact(
    cfg: Config, c: seq<Block>, t: Table, base: int, high: int, w: Window, cutoff: real,
    first: Option<nat>, earliest: Option<nat>, m: Measure)
    requires Servable(cfg, c, t, base, high, w.toInclusive)
    requires IsLowest(t, Some(cutoff), first) && IsLowest(t, None, earliest)
    requires earliest.Some? && first != earliest
    requires w.fromExclusive == if first.Some? then first.value - 1 else w.toInclusive
    ensures w.toInclusive < |c|
    ensures SumSet(cfg, m, WindowRows(t, w.fromExclusive, w.toInclusive)) == FlowSince(cfg, c, m, cutoff, w.toInclusive)
  {
    var early := EarlyRow(t, cutoff, first, earliest);
    WindowIsExact(cfg, c, t, base, high, w.fromExclusive, w.toInclusive, cutoff, first, early, m);
  }

  lemma CoveredSum(cfg: Config, c: seq<Block>, t: Table, base: int, high: int, from: int, to: int, m: Measure)
    requires Servable(cfg, c, t, base, high, to) && base <= from
    ensures SumSet(cfg, m, WindowRows(t, from, to)) == ChainFlow(cfg, c, m, from + 1, to)
  {
    WindowSum(cfg, c, t, m, base + 1, high, from, to);
  }

  lemma WindowIsExact(
    cfg: Config, c: seq<Block>, t: Table, base: int, high: int, from: int, to: int, cutoff: real, first: Option<nat>,
    early: Key, m: Measure)
    requires Servable(cfg, c, t, base, high, to) && IsLowest(t, Some(cutoff), first)
    requires early in t && (t[early].ts as real) < cutoff && from == if first.Some? then first.value - 1 else to
    ensures to < |c| && base <= from
    ensures SumSet(cfg, m, WindowRows(t, from, to)) == FlowSince(cfg, c, m, cutoff, to)
  {
    ExactWindow(cfg, c, t, base, high, from, to, cutoff, first, early, m);
    CoveredSum(cfg, c, t, base, high, from, to, m);
  }

  /** End to end: when the answer is not flagged partial, the sums over the stored rows of the
      resolved window are the flow of exactly the watched logs of the current canonical chain at
      or below the upper bound with a timestamp at or after the cutoff. The state may be any
      reachable one, also one between a row commit and the cursor write that follows it. */
  lemma CompleteWindowIsExact(
    cfg: Config, s: State, cutoff: real, first: Option<nat>, earliest: Option<nat>, m: Measure)
    requires Inv(cfg, s)
    requires IsLowest(s.rows, Some(cutoff), first) && IsLowest(s.rows, None, earliest)
    requires !WindowOf(cfg, s.cursor, first, earliest).partial
    ensures var w := WindowOf(cfg, s.cursor, first, earliest);
      && w.toInclusive < |s.chain|
      && SumSet(cfg, m, WindowRows(s.rows, w.fromExclusive, w.toInclusive))
         == FlowSince(cfg, s.chain, m, cutoff, w.toInclusive)
  {
    InvIsServable(cfg, s);
    ServableIsExact(cfg, s.chain, s.rows, s.base, s.high,
                    WindowOf(cfg, s.cursor, first, earliest), cutoff, first, earliest, m);
  }

  /** The same for every state of every run of the indexer. */
  lemma EveryRunAnswersExactly(
    cfg: Config, run: seq<State>, n: nat, cutoff: real, first: Option<nat>, earliest: Option<nat>, m: Measure)
    requires ValidConfig(cfg) && IsRun(cfg, run) && n < |run|
    requires IsLowest(run[n].rows, Some(cutoff), first) && IsLowest(run[n].rows, None, earliest)
    requires !WindowOf(cfg, run[n].cursor, first, earliest).partial
    ensures var (s, w) := (run[n], WindowOf(cfg, run[n].cursor, first, earliest));
      && w.toInclusive < |s.chain|
      && SumSet(cfg, m, WindowRows(s.rows, w.fromExclusive, w.toInclusive))
         == FlowSince(cfg, s.chain, m, cutoff, w.toInclusive)
  {
    RunInv(cfg, run, n);
    CompleteWindowIsExact(cfg, run[n], cutoff, first, earliest, m);
  }

  /** One block with one watched transfer. */
  lemma OneTransferScanned(cfg: Config, c: seq<Block>)
    requires cfg == Config("0xa", "", "", "", "0xe", [], 0, 0, 1)
    requires c == [Block("h0", 100, []), Block("h1", 200, [Log(Key("t", 0), "0xe", Transfer, "0xb", "0xa", 5)])]
    ensures Wf(c) && Final(cfg, c) == 1
    ensures var l := c[1].logs[0]; Scanned(cfg, c, 0, 1) == map[l.key := RowOf(1, c[1], l)]
  {
    var l := c[1].logs[0];
    assert cfg.basket in Protocol(cfg);
    assert Watched(cfg, l);
    assert BlockRows(cfg, 1, c[1], 1) == map[l.key := RowOf(1, c[1], l)];
    assert Scanned(cfg, c, 0, 0) == map[] by { assert Scanned(cfg, c, 0, -1) == map[]; }
  }

  /** The flag is conservative: a run of the indexer ends in a state in which the window is covered,
      something is final, and the flag is raised all the same. */
  lemma PartialCanBeRaisedOnACoveredWindow() returns (cfg: Config, run: seq<State>, cutoff: real, first: Option<nat>)
    ensures ValidConfig(cfg) && IsRun(cfg, run)
    ensures var s := Last(run);
      && Covered(s, cutoff) && 0 < |s.chain| && s.cursor == Some(Final(cfg, s.chain))
      && IsLowest(s.rows, Some(cutoff), first) && IsLowest(s.rows, None, first)
      && WindowOf(cfg, s.cursor, first, first).partial
  {
    cfg := Config("0xa", "", "", "", "0xe", [], 0, 0, 1);
    var c := [Block("h0", 100, []), Block("h1", 200, [Log(Key("t", 0), "0xe", Transfer, "0xb", "0xa", 5)])];
    cutoff, first := 150.0, Some(1);
    OneTransferScanned(cfg, c);
    run := BackfillCompletes(cfg, c);
    var l := c[1].logs[0];
    assert l.key in Last(run).rows && Last(run).rows[l.key].block == 1;
  }

  // ---- the aggregation ----

  datatype StableFlow = StableFlow(address: Address, inRaw: nat, outRaw: nat)

  /** The response before its sums are scaled to token units. */
  datatype Flow = Flow(
    stables: seq<StableFlow>, ethIn: nat, ethOut: nat, openSats: nat, closeSats: nat,
    fromBlock: int, toBlock: int, partial: bool)

  function Lookup(m: map<Address, nat>, a: Address): nat {
    if a in m then m[a] else 0
  }

  /** Rows a query does not select carry no weight for the sums that query feeds. */
  lemma SelectedSum(cfg: Config, t: Table, m: Measure, from: int, to: int)
    ensures SumSet(cfg, m, Selected(t, m.In? || m.Out?, from, to)) == SumSet(cfg, m, WindowRows(t, from, to))
  {
    var all, some := WindowRows(t, from, to), Selected(t, m.In? || m.Out?, from, to);
    forall r | r in all - some ensures Weight(cfg, m, r) == 0 {
      var k :| k in t && from < t[k].block <= to && t[k] == r;
      assert !Selects(m.In? || m.Out?, r);
    }
    SumSetZero(cfg, m, all - some);
    SumSetUnion(cfg, m, some, all - some);
    assert some + (all - some) == all;
  }

  /** What the sums of a finished aggregation must be. */
  ghost predicate Sums(cfg: Config, t: Table, from: int, to: int, f: Flow) {
    && |f.stables| == |SetAddresses(cfg.stables)|
    && (forall i :: 0 <= i < |f.stables| ==>
          var a := SetAddresses(cfg.stables)[i];
          f.stables[i] == StableFlow(a,
            SumSet(cfg, In(a), WindowRows(t, from, to)), SumSet(cfg, Out(a), WindowRows(t, from, to))))
    && f.ethIn == (if IsSet(cfg.weth) then SumSet(cfg, In(cfg.weth), WindowRows(t, from, to)) else 0)
    && f.ethOut == (if IsSet(cfg.weth) then SumSet(cfg, Out(cfg.weth), WindowRows(t, from, to)) else 0)
    && f.openSats == SumSet(cfg, OpenSats, WindowRows(t, from, to))
    && f.closeSats == SumSet(cfg, CloseSats, WindowRows(t, from, to))
  }

  method FoldTransfers(cfg: Config, rs: seq<Row>) returns (inBy: map<Address, nat>, outBy: map<Address, nat>)
    requires forall r :: r in rs ==> r.kind.Transfer?
    ensures forall a :: Lookup(inBy, a) == SumSeq(cfg, In(a), rs) && Lookup(outBy, a) == SumSeq(cfg, Out(a), rs)
  {
    inBy, outBy := map[], map[];
    for n := 0 to |rs|
      invariant forall a :: Lookup(inBy, a) == SumSeq(cfg, In(a), rs[..n])
      invariant forall a :: Lookup(outBy, a) == SumSeq(cfg, Out(a), rs[..n])
    {
      var r := rs[n];
      if r.to in Protocol(cfg) { inBy := inBy[r.token := Lookup(inBy, r.token) + r.amount]; }
      if r.from in Protocol(cfg) { outBy := outBy[r.token := Lookup(outBy, r.token) + r.amount]; }
      assert rs[..n + 1][..n] == rs[..n] && rs[..n + 1][n] == r;
    }
    assert rs[..|rs|] == rs;
  }

  method FoldChannels(cfg: Config, rs: seq<Row>) returns (inSats: nat, outSats: nat)
    ensures inSats == SumSeq(cfg, OpenSats, rs) && outSats == SumSeq(cfg, CloseSats, rs)
  {
    inSats, outSats := 0, 0;
    for n := 0 to |rs|
      invariant inSats == SumSeq(cfg, OpenSats, rs[..n]) && outSats == SumSeq(cfg, CloseSats, rs[..n])
    {
      if rs[n].kind.ChannelOpen? { inSats := inSats + rs[n].amount; }
      else if rs[n].kind.ChannelClose? { outSats := outSats + rs[n].amount; }
      assert rs[..n + 1][..n] == rs[..n];
    }
    assert rs[..|rs|] == rs;
  }

  lemma QuerySum(cfg: Config, t: Table, m: Measure, rs: seq<Row>, from: int, to: int)
    requires Lists(rs, Selected(t, m.In? || m.Out?, from, to))
    ensures SumSeq(cfg, m, rs) == SumSet(cfg, m, WindowRows(t, from, to))
  {
    SumSeqIsSumSet(cfg, m, rs, Selected(t, m.In? || m.Out?, from, to));
    SelectedSum(cfg, t, m, from, to);
  }

  method ComputeNetFlow(cfg: Config, db: Db, w: Window) returns (f: Flow)
    requires forall k :: k in db.rows ==> db.rows[k].key == k
    ensures Sums(cfg, db.rows, w.fromExclusive, w.toInclusive, f)
    ensures f.fromBlock == w.fromExclusive + 1 && f.toBlock == w.toInclusive && f.partial == w.partial
  {
    var from, to := w.fromExclusive, w.toInclusive;
    var ts := db.Window(true, from, to);
    var inBy, outBy := FoldTransfers(cfg, ts);
    forall a ensures Lookup(inBy, a) == SumSet(cfg, In(a), WindowRows(db.rows, from, to))
             ensures Lookup(outBy, a) == SumSet(cfg, Out(a), WindowRows(db.rows, from, to)) {
      QuerySum(cfg, db.rows, In(a), ts, from, to);
      QuerySum(cfg, db.rows, Out(a), ts, from, to);
    }
    var stables := [];
    var listed := SetAddresses(cfg.stables);
    for i := 0 to |listed|
      invariant |stables| == i
      invariant forall j :: 0 <= j < i ==>
        stables[j] == StableFlow(listed[j], Lookup(inBy, listed[j]), Lookup(outBy, listed[j]))
    {
      stables := stables + [StableFlow(listed[i], Lookup(inBy, listed[i]), Lookup(outBy, listed[i]))];
    }
    var ethIn, ethOut := 0, 0;
    if IsSet(cfg.weth) { ethIn, ethOut := Lookup(inBy, cfg.weth), Lookup(outBy, cfg.weth); }
    var cs := db.Window(false, from, to);
    var inSats, outSats := FoldChannels(cfg, cs);
    QuerySum(cfg, db.rows, OpenSats, cs, from, to);
    QuerySum(cfg, db.rows, CloseSats, cs, from, to);
    f := Flow(stables, ethIn, ethOut, inSats, outSats, from + 1, to, w.partial);
  }

  /** The flow a complete answer must report. */
  ghost predicate ReportsChain(cfg: Config, c: seq<Block>, cutoff: real, f: Flow) {
    && f.toBlock < |c|
    && |f.stables| == |SetAddresses(cfg.stables)|
    && (forall i :: 0 <= i < |f.stables| ==>
          var a := SetAddresses(cfg.stables)[i];
          f.stables[i] == StableFlow(a,
            FlowSince(cfg, c, In(a), cutoff, f.toBlock), FlowSince(cfg, c, Out(a), cutoff, f.toBlock)))
    && f.ethIn == (if IsSet(cfg.weth) then FlowSince(cfg, c, In(cfg.weth), cutoff, f.toBlock) else 0)
    && f.ethOut == (if IsSet(cfg.weth) then FlowSince(cfg, c, Out(cfg.weth), cutoff, f.toBlock) else 0)
    && f.openSats == FlowSince(cfg, c, OpenSats, cutoff, f.toBlock)
    && f.closeSats == FlowSince(cfg, c, CloseSats, cutoff, f.toBlock)
  }

  lemma SumsReportChain(cfg: Config, s: State, cutoff: real, first: Option<nat>, earliest: Option<nat>, f: Flow)
    requires Inv(cfg, s)
    requires IsLowest(s.rows, Some(cutoff), first) && IsLowest(s.rows, None, earliest)
    requires var w := WindowOf(cfg, s.cursor, first, earliest);
      && !w.partial && f.toBlock == w.toInclusive
      && Sums(cfg, s.rows, w.fromExclusive, w.toInclusive, f)
    ensures ReportsChain(cfg, s.chain, cutoff, f)
  {
    var w := WindowOf(cfg, s.cursor, first, earliest);
    forall m ensures w.toInclusive < |s.chain|
             ensures SumSet(cfg, m, WindowRows(s.rows, w.fromExclusive, w.toInclusive))
                     == FlowSince(cfg, s.chain, m, cutoff, w.toInclusive)
    {
      CompleteWindowIsExact(cfg, s, cutoff, first, earliest, m);
    }
  }

  function Cutoff(nowTs: int, windowHours: real): real {
    nowTs as real - (if windowHours > 0.0 then windowHours else 0.0) * 3600.0
  }

  /** The request handler, on the database of any reachable state. */
  method HandleFlow(cfg: Config, db: Db, nowTs: int, windowHours: real, ghost s: State) returns (f: Flow)
    requires Inv(cfg, s) && db.rows == s.rows && db.cursor == s.cursor
    ensures !f.partial ==> ReportsChain(cfg, s.chain, Cutoff(nowTs, windowHours), f)
    ensures f.partial <==>
      f.toBlock < 0 || forall k :: k in s.rows ==> s.rows[k].ts as real >= Cutoff(nowTs, windowHours)
    ensures f.toBlock == UpperBound(cfg, s.cursor)
  {
    InvIsServable(cfg, s);
    var cutoff := Cutoff(nowTs, windowHours);
    var first := db.LowestBlock(Some(cutoff));
    var earliest := db.LowestBlock(None);
    var cursor := db.GetCursor();
    var w := WindowOf(cfg, cursor, first, earliest);
    f := ComputeNetFlow(cfg, db, w);
    PartialExactly(cfg, s, cutoff, first, earliest);
    if !w.partial { SumsReportChain(cfg, s, cutoff, first, earliest, f); }
  }
}
