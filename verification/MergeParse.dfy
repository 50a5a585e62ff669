/** Reading a merge file as plain lines and conflict hunks, and writing it back. */
module MergeParse {
  /** Which lines open, split and close a hunk. */
  datatype Marks = Marks(opens: string -> bool, splits: string -> bool, closes: string -> bool)

  /** The markers git writes, told by how a line starts. */
  function GitMarks(): Marks {
    Marks(l => "<<<<<<<" <= l, l => "=======" <= l, l => ">>>>>>>" <= l)
  }

  datatype Item = Text(line: string) | Conflict(ours: seq<string>, theirs: seq<string>)

  // ---- reading ----

  /** The first line from `i` on that starts with `stop`; past the end, `i` itself. */
  function Until(lines: seq<string>, i: nat, stop: string -> bool): (j: nat)
    ensures i <= j && (i <= |lines| ==> j <= |lines|) && (i > |lines| ==> j == i)
    decreases |lines| - i
  {
    if i >= |lines| || stop(lines[i]) then i else Until(lines, i + 1, stop)
  }

  function Slice(lines: seq<string>, a: nat, b: nat): seq<string> {
    if a <= b <= |lines| then lines[a..b] else []
  }

  /** The hunk the parser reads at line `i`, and where it goes on. */
  function HunkRead(m: Marks, lines: seq<string>, i: nat): (r: (Item, nat))
    ensures i + 3 <= r.1
  {
    var j := Until(lines, i + 1, m.splits);
    var k := Until(lines, j + 1, m.closes);
    (Conflict(Slice(lines, i + 1, j), Slice(lines, j + 1, k)), k + 1)
  }

  /** `split_hunks` from line `i` on; a hunk that is never closed runs to the end. */
  function ParseFrom(m: Marks, lines: seq<string>, i: nat): seq<Item>
    decreases |lines| - i
  {
    if i >= |lines| then []
    else if !m.opens(lines[i]) then [Text(lines[i])] + ParseFrom(m, lines, i + 1)
    else
      var (read, next) := HunkRead(m, lines, i);
      [read] + ParseFrom(m, lines, next)
  }

  function Parse(m: Marks, lines: seq<string>): seq<Item> {
    ParseFrom(m, lines, 0)
  }

  /** A stretch from `a` free of stops, ended at `b` by a stop or by the end of the file. */
  ghost predicate Stretch(lines: seq<string>, a: nat, b: nat, stop: string -> bool) {
    if a > |lines| then b == a
    else a <= b <= |lines| && (forall n | a <= n < b :: !stop(lines[n])) && (b < |lines| ==> stop(lines[b]))
  }

  lemma {:induction false} UntilExactly(lines: seq<string>, a: nat, b: nat, stop: string -> bool)
    ensures Stretch(lines, a, b, stop) <==> b == Until(lines, a, stop)
    decreases |lines| - a
  {
    if a < |lines| && !stop(lines[a]) {
      UntilExactly(lines, a + 1, b, stop);
    }
  }

  /** A hunk from line `i`: our side up to the separator at `j`, theirs up to the end marker at `k`; the
      file may break off in either. */
  ghost predicate HunkAt(m: Marks, lines: seq<string>, i: nat, j: nat, k: nat)
    requires i < |lines|
  {
    m.opens(lines[i]) && Stretch(lines, i + 1, j, m.splits) && Stretch(lines, j + 1, k, m.closes)
  }

  ghost predicate IsHunk(m: Marks, lines: seq<string>, i: nat, o: seq<string>, t: seq<string>)
    requires i < |lines|
  {
    var (j, k) := (i + 1 + |o|, i + 2 + |o| + |t|);
    HunkAt(m, lines, i, j, k) && o == Slice(lines, i + 1, j) && t == Slice(lines, j + 1, k)
  }

  /** Lines `i` on are these items, written out. */
  ghost predicate Spells(m: Marks, lines: seq<string>, i: nat, items: seq<Item>)
    decreases |items|
  {
    if items == [] then i >= |lines|
    else
      && i < |lines|
      && match items[0]
         case Text(l) => lines[i] == l && !m.opens(l) && Spells(m, lines, i + 1, items[1..])
         case Conflict(o, t) =>
           IsHunk(m, lines, i, o, t) && Spells(m, lines, i + 3 + |o| + |t|, items[1..])
  }

  lemma ConsEqual(x: Item, xs: seq<Item>, y: Item, ys: seq<Item>)
    ensures [x] + xs == [y] + ys <==> x == y && xs == ys
  {
    if [x] + xs == [y] + ys {
      assert ([x] + xs)[0] == x && ([y] + ys)[0] == y;
      assert ([x] + xs)[1..] == xs && ([y] + ys)[1..] == ys;
    }
  }

  lemma TextExactly(m: Marks, lines: seq<string>, i: nat, l: string, rest: seq<Item>)
    requires i < |lines| && (Spells(m, lines, i + 1, rest) <==> ParseFrom(m, lines, i + 1) == rest)
    ensures Spells(m, lines, i, [Text(l)] + rest) <==> ParseFrom(m, lines, i) == [Text(l)] + rest
  {
    var items := [Text(l)] + rest;
    assert items[1..] == rest;
    if m.opens(lines[i]) {
      assert ParseFrom(m, lines, i)[0].Conflict?;
    } else {
      ConsEqual(Text(lines[i]), ParseFrom(m, lines, i + 1), Text(l), rest);
    }
  }

  lemma SliceLength(lines: seq<string>, a: nat, b: nat)
    requires a <= b && (a <= |lines| ==> b <= |lines|) && (a > |lines| ==> b == a)
    ensures |Slice(lines, a, b)| == b - a
  {
  }

  /** A hunk ends its sides where the parser stops. */
  lemma HunkStops(m: Marks, lines: seq<string>, i: nat, j: nat, k: nat)
    requires i < |lines| && m.opens(lines[i])
    ensures HunkAt(m, lines, i, j, k) <==> j == Until(lines, i + 1, m.splits) && k == Until(lines, j + 1, m.closes)
  {
    UntilExactly(lines, i + 1, j, m.splits);
    UntilExactly(lines, j + 1, k, m.closes);
  }

  /** Which two sides the parser gives a hunk. */
  lemma SidesExactly(m: Marks, lines: seq<string>, i: nat, o: seq<string>, t: seq<string>, j: nat, k: nat)
    requires i < |lines| && m.opens(lines[i])
    requires j == Until(lines, i + 1, m.splits) && k == Until(lines, j + 1, m.closes)
    ensures IsHunk(m, lines, i, o, t) <==> o == Slice(lines, i + 1, j) && t == Slice(lines, j + 1, k)
    ensures o == Slice(lines, i + 1, j) && t == Slice(lines, j + 1, k) ==> i + 2 + |o| + |t| == k
  {
    if IsHunk(m, lines, i, o, t) {
      HunkStops(m, lines, i, i + 1 + |o|, i + 2 + |o| + |t|);
    } else if o == Slice(lines, i + 1, j) && t == Slice(lines, j + 1, k) {
      SliceLength(lines, i + 1, j);
      SliceLength(lines, j + 1, k);
      HunkStops(m, lines, i, j, k);
    }
  }

  lemma SpellsConflict(m: Marks, lines: seq<string>, i: nat, o: seq<string>, t: seq<string>, rest: seq<Item>)
    requires i < |lines|
    ensures Spells(m, lines, i, [Conflict(o, t)] + rest)
      <==> IsHunk(m, lines, i, o, t) && Spells(m, lines, i + 3 + |o| + |t|, rest)
  {
    var items := [Conflict(o, t)] + rest;
    assert items[0] == Conflict(o, t) && items[1..] == rest;
  }

  lemma HunkExactly(m: Marks, lines: seq<string>, i: nat, o: seq<string>, t: seq<string>)
    requires i < |lines| && m.opens(lines[i])
    ensures IsHunk(m, lines, i, o, t) <==> Conflict(o, t) == HunkRead(m, lines, i).0
    ensures Conflict(o, t) == HunkRead(m, lines, i).0 ==> i + 3 + |o| + |t| == HunkRead(m, lines, i).1
  {
    var j := Until(lines, i + 1, m.splits);
    SidesExactly(m, lines, i, o, t, j, Until(lines, j + 1, m.closes));
  }

  lemma ConflictExactly(m: Marks, lines: seq<string>, i: nat, x: Item, rest: seq<Item>, read: Item, next: nat)
    requires i < |lines| && m.opens(lines[i]) && (read, next) == HunkRead(m, lines, i)
    requires Spells(m, lines, next, rest) <==> ParseFrom(m, lines, next) == rest
    ensures x == read && Spells(m, lines, next, rest) <==> ParseFrom(m, lines, i) == [x] + rest
  {
    assert ParseFrom(m, lines, i) == [read] + ParseFrom(m, lines, next);
    ConsEqual(read, ParseFrom(m, lines, next), x, rest);
  }

  /** The parser reads exactly what is written: it returns these items if and only if the lines spell
      them. */
  lemma {:induction false} ParseExactly(m: Marks, lines: seq<string>, i: nat, items: seq<Item>)
    ensures Spells(m, lines, i, items) <==> ParseFrom(m, lines, i) == items
    decreases |items|
  {
    if items != [] && i < |lines| {
      var rest := items[1..];
      assert items == [items[0]] + rest;
      match items[0]
      case Text(l) =>
        ParseExactly(m, lines, i + 1, rest);
        TextExactly(m, lines, i, l, rest);
      case Conflict(o, t) =>
        SpellsConflict(m, lines, i, o, t, rest);
        if m.opens(lines[i]) {
          var (read, next) := HunkRead(m, lines, i);
          ParseExactly(m, lines, next, rest);
          HunkExactly(m, lines, i, o, t);
          ConflictExactly(m, lines, i, items[0], rest, read, next);
        } else {
          assert ParseFrom(m, lines, i)[0].Text?;
        }
    }
  }

  // ---- writing ----

  /** The marker lines a conflict is written with. */
  datatype Pens = Pens(head: string, sep: string, end: string)

  function GitPens(lbl: string): Pens {
    Pens("<<<<<<< HEAD", "=======", ">>>>>>> " + lbl)
  }

  ghost predicate Legible(m: Marks, pens: Pens) {
    m.opens(pens.head) && m.splits(pens.sep) && m.closes(pens.end)
  }

  lemma GitPensLegible(lbl: string)
    ensures Legible(GitMarks(), GitPens(lbl))
  {
  }

  function WriteHunk(pens: Pens, o: seq<string>, t: seq<string>): seq<string> {
    [pens.head] + o + [pens.sep] + t + [pens.end]
  }

  function Write(pens: Pens, item: Item): seq<string> {
    match item
    case Text(l) => [l]
    case Conflict(o, t) => WriteHunk(pens, o, t)
  }

  function WriteAll(pens: Pens, items: seq<Item>): seq<string> {
    if items == [] then [] else Write(pens, items[0]) + WriteAll(pens, items[1..])
  }

  ghost predicate Clean(lines: seq<string>, stop: string -> bool) {
    forall n | 0 <= n < |lines| :: !stop(lines[n])
  }

  /** An item that can be told apart when written out. */
  ghost predicate Readable(m: Marks, item: Item) {
    match item
    case Text(l) => !m.opens(l)
    case Conflict(o, t) => Clean(o, m.splits) && Clean(t, m.closes)
  }

  ghost predicate AllReadable(m: Marks, items: seq<Item>) {
    forall n | 0 <= n < |items| :: Readable(m, items[n])
  }

  /** A clean side between what comes before and its stop. */
  lemma SideWritten(pre: seq<string>, side: seq<string>, mark: string, post: seq<string>, stop: string -> bool)
    requires Clean(side, stop) && stop(mark)
    ensures var (lines, a, b) := (pre + side + ([mark] + post), |pre|, |pre| + |side|);
      Stretch(lines, a, b, stop) && Slice(lines, a, b) == side
  {
    var (lines, a, b) := (pre + side + ([mark] + post), |pre|, |pre| + |side|);
    assert lines[b] == mark && lines[a..b] == side;
    assert forall n | a <= n < b :: lines[n] == side[n - a];
  }

  lemma HunkWritten(m: Marks, pens: Pens, pre: seq<string>, o: seq<string>, t: seq<string>, post: seq<string>)
    requires Legible(m, pens) && Clean(o, m.splits) && Clean(t, m.closes)
    ensures IsHunk(m, pre + WriteHunk(pens, o, t) + post, |pre|, o, t)
  {
    var lines := pre + WriteHunk(pens, o, t) + post;
    assert lines == (pre + [pens.head]) + o + ([pens.sep] + (t + [pens.end] + post));
    assert lines == (pre + [pens.head] + o + [pens.sep]) + t + ([pens.end] + post);
    SideWritten(pre + [pens.head], o, pens.sep, t + [pens.end] + post, m.splits);
    SideWritten(pre + [pens.head] + o + [pens.sep], t, pens.end, post, m.closes);
    assert lines[|pre|] == pens.head;
  }

  lemma TextSpelled(m: Marks, lines: seq<string>, i: nat, l: string, rest: seq<Item>)
    requires i < |lines| && lines[i] == l && !m.opens(l) && Spells(m, lines, i + 1, rest)
    ensures Spells(m, lines, i, [Text(l)] + rest)
  {
    var items := [Text(l)] + rest;
    assert items[0] == Text(l) && items[1..] == rest;
  }

  lemma WrittenLength(pens: Pens, o: seq<string>, t: seq<string>)
    ensures |WriteHunk(pens, o, t)| == 3 + |o| + |t|
  {
  }

  lemma ItemSpelled(m: Marks, pens: Pens, pre: seq<string>, item: Item, post: seq<string>,
    rest: seq<Item>, lines: seq<string>)
    requires Legible(m, pens) && Readable(m, item) && lines == pre + Write(pens, item) + post
    requires Spells(m, lines, |pre| + |Write(pens, item)|, rest)
    ensures Spells(m, lines, |pre|, [item] + rest)
  {
    match item
    case Text(l) =>
      assert |pre| < |lines| && lines[|pre|] == l;
      TextSpelled(m, lines, |pre|, l, rest);
    case Conflict(o, t) =>
      WrittenLength(pens, o, t);
      HunkWritten(m, pens, pre, o, t, post);
      SpellsConflict(m, lines, |pre|, o, t, rest);
  }

  lemma {:induction false} WriteSpells(m: Marks, pens: Pens, pre: seq<string>, items: seq<Item>)
    requires Legible(m, pens) && AllReadable(m, items)
    ensures Spells(m, pre + WriteAll(pens, items), |pre|, items)
    decreases |items|
  {
    if items != [] {
      var (w, rest) := (Write(pens, items[0]), items[1..]);
      var post := WriteAll(pens, rest);
      assert pre + (w + post) == (pre + w) + post;
      assert Readable(m, items[0]) && items == [items[0]] + rest;
      assert forall n | 0 <= n < |rest| :: rest[n] == items[n + 1];
      WriteSpells(m, pens, pre + w, rest);
      ItemSpelled(m, pens, pre, items[0], post, rest, (pre + w) + post);
    }
  }

  lemma {:induction false} SpelledReadable(m: Marks, lines: seq<string>, i: nat, items: seq<Item>)
    requires Spells(m, lines, i, items)
    ensures AllReadable(m, items)
    decreases |items|
  {
    if items != [] {
      var rest := items[1..];
      match items[0]
      case Text(l) =>
        SpelledReadable(m, lines, i + 1, rest);
      case Conflict(o, t) =>
        SpelledReadable(m, lines, i + 3 + |o| + |t|, rest);
        HunkReadable(m, lines, i, o, t);
      assert forall n | 0 < n < |items| :: items[n] == rest[n - 1];
    }
  }

  lemma HunkReadable(m: Marks, lines: seq<string>, i: nat, o: seq<string>, t: seq<string>)
    requires i < |lines| && IsHunk(m, lines, i, o, t)
    ensures Readable(m, Conflict(o, t))
  {
    assert forall n | 0 <= n < |o| :: o[n] == lines[i + 1 + n];
    assert forall n | 0 <= n < |t| :: t[n] == lines[i + 2 + |o| + n];
  }

  /** Reading back what was written gives the items back, exactly when they can be told apart. */
  lemma ReadWritten(m: Marks, pens: Pens, items: seq<Item>)
    requires Legible(m, pens)
    ensures Parse(m, WriteAll(pens, items)) == items <==> AllReadable(m, items)
  {
    var lines := WriteAll(pens, items);
    ParseExactly(m, lines, 0, items);
    if AllReadable(m, items) {
      WriteSpells(m, pens, [], items);
      assert [] + lines == lines;
    } else if Parse(m, lines) == items {
      SpelledReadable(m, lines, 0, items);
    }
  }

  lemma ParsedReadable(m: Marks, lines: seq<string>)
    ensures AllReadable(m, Parse(m, lines))
  {
    ParseExactly(m, lines, 0, Parse(m, lines));
    SpelledReadable(m, lines, 0, Parse(m, lines));
  }

  // ---- the loop ----

  /** `split_hunks` as it runs: one index for the hunk, one for each side. */
  method SplitHunks(m: Marks, lines: seq<string>) returns (items: seq<Item>)
    ensures items == Parse(m, lines)
    ensures Spells(m, lines, 0, items)
  {
    items := [];
    var i := 0;
    while i < |lines|
      invariant items + ParseFrom(m, lines, i) == Parse(m, lines)
    {
      if !m.opens(lines[i]) {
        OneMoreLine(m, lines, i, items);
        items := items + [Text(lines[i])];
        i := i + 1;
      } else {
        OneMoreHunk(m, lines, i, items);
        var hunk, next := ReadHunk(m, lines, i);
        items := items + [hunk];
        i := next;
      }
    }
    assert items == Parse(m, lines);
    ParseExactly(m, lines, 0, items);
  }

  method ReadHunk(m: Marks, lines: seq<string>, i: nat) returns (hunk: Item, next: nat)
    requires i < |lines|
    ensures (hunk, next) == HunkRead(m, lines, i)
  {
    var ours, j := Side(lines, i + 1, m.splits);
    var theirs, k := Side(lines, j + 1, m.closes);
    hunk, next := Conflict(ours, theirs), k + 1;
  }

  lemma OneMoreLine(m: Marks, lines: seq<string>, i: nat, done: seq<Item>)
    requires i < |lines| && !m.opens(lines[i])
    ensures done + ParseFrom(m, lines, i) == (done + [Text(lines[i])]) + ParseFrom(m, lines, i + 1)
  {
    var rest := ParseFrom(m, lines, i + 1);
    assert done + ([Text(lines[i])] + rest) == (done + [Text(lines[i])]) + rest;
  }

  lemma OneMoreHunk(m: Marks, lines: seq<string>, i: nat, done: seq<Item>)
    requires i < |lines| && m.opens(lines[i])
    ensures var (read, next) := HunkRead(m, lines, i);
      done + ParseFrom(m, lines, i) == (done + [read]) + ParseFrom(m, lines, next)
  {
    var (read, next) := HunkRead(m, lines, i);
    var rest := ParseFrom(m, lines, next);
    assert done + ([read] + rest) == (done + [read]) + rest;
  }

  /** One side's loop: lines up to the stop or the end. */
  method Side(lines: seq<string>, a: nat, stop: string -> bool) returns (side: seq<string>, j: nat)
    ensures j == Until(lines, a, stop) && side == Slice(lines, a, j)
  {
    j := a;
    side := [];
    while j < |lines| && !stop(lines[j])
      invariant a <= j && (a <= |lines| ==> j <= |lines|) && (a > |lines| ==> j == a)
      invariant Until(lines, j, stop) == Until(lines, a, stop)
      invariant side == Slice(lines, a, j)
    {
      side := side + [lines[j]];
      j := j + 1;
    }
  }
}
