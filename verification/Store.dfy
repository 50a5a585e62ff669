/** The SQLite file as the two things it holds: the events table and the cursor row. */
module Store {
  import opened Wrappers
  import opened Chain
  import opened Scan
  import opened NetFlow
  import opened IndexerProtocol

  predicate InWindow(r: Row, from: int, to: int) {
    from < r.block <= to
  }

  /** The rows a window query selects: transfers, or channel events. */
  ghost function Selected(t: Table, transfers: bool, from: int, to: int): set<Row> {
    set k | k in t && InWindow(t[k], from, to) && Selects(transfers, t[k]) :: t[k]
  }

  predicate Selects(transfers: bool, r: Row) {
    if transfers then r.kind.Transfer? else r.kind.ChannelOpen? || r.kind.ChannelClose?
  }

  predicate AtOrAfter(r: Row, cutoff: Option<real>) {
    cutoff.Some? ==> r.ts as real >= cutoff.value
  }

  /** `b` is the lowest block of a row at or after the cutoff, None if there is no such row. */
  ghost predicate IsLowest(t: Table, cutoff: Option<real>, b: Option<nat>) {
    match b
    case None => forall k :: k in t ==> !AtOrAfter(t[k], cutoff)
    case Some(v) =>
      && (exists k :: k in t && AtOrAfter(t[k], cutoff) && t[k].block == v)
      && (forall k :: k in t && AtOrAfter(t[k], cutoff) ==> v <= t[k].block)
  }

  class Db {
    var rows: Table
    var cursor: Option<int>

    constructor ()
      ensures rows == map[] && cursor == None
    {
      rows, cursor := map[], None;
    }

    /** One transaction: later rows of the batch win over earlier ones with the same key. */
    method UpsertEvents(batch: seq<Row>)
      modifies this`rows
      ensures rows == Upserted(old(rows), batch)
    {
      for n := 0 to |batch|
        invariant rows == Upserted(old(rows), batch[..n])
      {
        rows := rows[batch[n].key := batch[n]];
        assert batch[..n + 1][..n] == batch[..n];
      }
      assert batch[..|batch|] == batch;
    }

    method GetCursor() returns (c: Option<int>)
      ensures c == cursor
    {
      c := cursor;
    }

    method SetCursor(block: int)
      modifies this`cursor
      ensures cursor == Some(block)
    {
      cursor := Some(block);
    }

    /** SQL promises no order, so the rows come out in an arbitrary one. */
    method Window(transfers: bool, from: int, to: int) returns (rs: seq<Row>)
      requires forall k :: k in rows ==> rows[k].key == k
      ensures Lists(rs, Selected(rows, transfers, from, to))
    {
      rs := [];
      var keys := rows.Keys;
      while keys != {}
        invariant keys <= rows.Keys && Distinct(rs)
        invariant forall r :: r in rs <==>
          r.key in rows && rows[r.key] == r && r.key !in keys && InWindow(r, from, to) && Selects(transfers, r)
        decreases keys
      {
        var k :| k in keys;
        if InWindow(rows[k], from, to) && Selects(transfers, rows[k]) {
          assert rows[k] !in rs;
          rs := rs + [rows[k]];
        }
        keys := keys - {k};
      }
    }

    method LowestBlock(cutoff: Option<real>) returns (b: Option<nat>)
      ensures IsLowest(rows, cutoff, b)
    {
      b := None;
      var keys, seen := rows.Keys, map[];
      while keys != {}
        invariant keys <= rows.Keys && seen == map k | k in rows && k !in keys :: rows[k]
        invariant IsLowest(seen, cutoff, b)
        decreases keys
      {
        var k :| k in keys;
        if AtOrAfter(rows[k], cutoff) && (b.None? || rows[k].block < b.value) {
          b := Some(rows[k].block);
        }
        ghost var was := seen;
        keys, seen := keys - {k}, seen[k := rows[k]];
        assert k in seen && forall j :: j in was ==> j in seen && seen[j] == was[j];
      }
      assert seen == rows;
    }
  }
}
