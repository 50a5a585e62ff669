/** The conflict resolver: each hunk of a merge file is decided by asking the merge base which side is
    old, and what cannot be decided is left as a conflict. */
module MergeResolve {
  import opened Chars
  import opened MergeParse
  import opened MergeText
  import opened Wrappers

  datatype Side = Ours | Theirs

  /** The side a hunk is resolved to, or none. */
  type Judge = (seq<string>, seq<string>) -> Option<Side>

  // ---- deciding one hunk ----

  /** A side of a hunk as it is compared with the base. */
  function SideEssence(lines: seq<string>): string {
    Essence(JoinLines(lines))
  }

  function Decide(ours: seq<string>, theirs: seq<string>, base: string): Option<Side> {
    var (o, t) := (SideEssence(ours), SideEssence(theirs));
    if o != "" && Occurs(o, base) then Some(Theirs)
    else if t != "" && Occurs(t, base) then Some(Ours)
    else if o == "" then if Occurs(t, base) then Some(Ours) else Some(Theirs)
    else None
  }

  /** A side is discarded only if the base has it, an addition against an empty side survives, and a
      hunk is left exactly when ours is new and theirs is empty or new. */
  lemma DecideExactly(ours: seq<string>, theirs: seq<string>, base: string)
    ensures var (o, t, d) := (SideEssence(ours), SideEssence(theirs), Decide(ours, theirs, base));
      && (d == Some(Ours) ==> Occurs(t, base))
      && (d == Some(Theirs) ==> Occurs(o, base))
      && (o == "" ==> d == if Occurs(t, base) then Some(Ours) else Some(Theirs))
      && (d == None <==> !Occurs(o, base) && (t == "" || !Occurs(t, base)))
  {
    NothingOccurs(base);
  }

  function BaseJudge(base: string): Judge {
    (o, t) => Decide(o, t, base)
  }

  // ---- resolving a file's items ----

  function Texts(lines: seq<string>): (items: seq<Item>)
    ensures |items| == |lines| && forall n | 0 <= n < |lines| :: items[n] == Text(lines[n])
  {
    seq(|lines|, n requires 0 <= n < |lines| => Text(lines[n]))
  }

  /** What an item leaves behind. */
  function Kept(judge: Judge, item: Item): seq<Item> {
    match item
    case Text(_) => [item]
    case Conflict(o, t) =>
      match judge(o, t)
      case Some(Ours) => Texts(o)
      case Some(Theirs) => Texts(t)
      case None => [item]
  }

  function KeptAll(judge: Judge, items: seq<Item>): seq<Item> {
    if items == [] then [] else Kept(judge, items[0]) + KeptAll(judge, items[1..])
  }

  /** The lines an item adds to the output. */
  function Out(judge: Judge, pens: Pens, item: Item): seq<string> {
    match item
    case Text(l) => [l]
    case Conflict(o, t) =>
      match judge(o, t)
      case Some(Ours) => o
      case Some(Theirs) => t
      case None => WriteHunk(pens, o, t)
  }

  function OutAll(judge: Judge, pens: Pens, items: seq<Item>): seq<string> {
    if items == [] then [] else Out(judge, pens, items[0]) + OutAll(judge, pens, items[1..])
  }

  datatype Tally = Tally(ours: nat, theirs: nat, unresolved: nat)

  function Counted(judge: Judge, tally: Tally, item: Item): Tally {
    match item
    case Text(_) => tally
    case Conflict(o, t) =>
      match judge(o, t)
      case Some(Ours) => tally.(ours := tally.ours + 1)
      case Some(Theirs) => tally.(theirs := tally.theirs + 1)
      case None => tally.(unresolved := tally.unresolved + 1)
  }

  function TallyOf(judge: Judge, items: seq<Item>): Tally {
    if items == [] then Tally(0, 0, 0)
    else Counted(judge, TallyOf(judge, items[..|items| - 1]), items[|items| - 1])
  }

  function Hunks(items: seq<Item>): nat {
    if items == [] then 0 else (if items[0].Conflict? then 1 else 0) + Hunks(items[1..])
  }

  // ---- what the output is ----

  lemma {:induction false} WriteAppend(pens: Pens, a: seq<Item>, b: seq<Item>)
    ensures WriteAll(pens, a + b) == WriteAll(pens, a) + WriteAll(pens, b)
  {
    if a == [] {
      assert a + b == b;
    } else {
      assert (a + b)[1..] == a[1..] + b;
      WriteAppend(pens, a[1..], b);
    }
  }

  lemma {:induction false} WriteTexts(pens: Pens, lines: seq<string>)
    ensures WriteAll(pens, Texts(lines)) == lines
  {
    if lines != [] {
      assert Texts(lines)[1..] == Texts(lines[1..]);
      WriteTexts(pens, lines[1..]);
    }
  }

  lemma OutIsKept(judge: Judge, pens: Pens, item: Item)
    ensures Out(judge, pens, item) == WriteAll(pens, Kept(judge, item))
  {
    match item
    case Text(l) =>
    case Conflict(o, t) =>
      WriteTexts(pens, o);
      WriteTexts(pens, t);
      assert WriteAll(pens, [item]) == WriteHunk(pens, o, t) + [];
  }

  /** The output is the kept items, written out. */
  lemma {:induction false} OutputIsWritten(judge: Judge, pens: Pens, items: seq<Item>)
    ensures OutAll(judge, pens, items) == WriteAll(pens, KeptAll(judge, items))
  {
    if items != [] {
      OutputIsWritten(judge, pens, items[1..]);
      OutIsKept(judge, pens, items[0]);
      WriteAppend(pens, Kept(judge, items[0]), KeptAll(judge, items[1..]));
    }
  }

  // ---- what a second pass does ----

  lemma {:induction false} KeptAppend(judge: Judge, a: seq<Item>, b: seq<Item>)
    ensures KeptAll(judge, a + b) == KeptAll(judge, a) + KeptAll(judge, b)
  {
    if a == [] {
      assert a + b == b;
    } else {
      assert (a + b)[1..] == a[1..] + b;
      KeptAppend(judge, a[1..], b);
    }
  }

  lemma {:induction false} KeptTexts(judge: Judge, lines: seq<string>)
    ensures KeptAll(judge, Texts(lines)) == Texts(lines)
  {
    if lines != [] {
      assert Texts(lines) == [Text(lines[0])] + Texts(lines[1..]);
      assert Texts(lines)[1..] == Texts(lines[1..]);
      KeptTexts(judge, lines[1..]);
    }
  }

  lemma KeptOnce(judge: Judge, item: Item)
    ensures KeptAll(judge, Kept(judge, item)) == Kept(judge, item)
  {
    match item
    case Text(l) =>
    case Conflict(o, t) =>
      KeptTexts(judge, o);
      KeptTexts(judge, t);
      if judge(o, t) == None { assert KeptAll(judge, [item]) == [item] + []; }
  }

  /** Kept items are kept again. */
  lemma {:induction false} KeptTwice(judge: Judge, items: seq<Item>)
    ensures KeptAll(judge, KeptAll(judge, items)) == KeptAll(judge, items)
  {
    if items != [] {
      KeptTwice(judge, items[1..]);
      KeptOnce(judge, items[0]);
      KeptAppend(judge, Kept(judge, items[0]), KeptAll(judge, items[1..]));
    }
  }

  /** The sides that are kept open no hunk of their own. */
  ghost predicate KeepsPlain(m: Marks, judge: Judge, item: Item) {
    match item
    case Text(_) => true
    case Conflict(o, t) =>
      && (judge(o, t) == Some(Ours) ==> Clean(o, m.opens))
      && (judge(o, t) == Some(Theirs) ==> Clean(t, m.opens))
  }

  ghost predicate AllKeepPlain(m: Marks, judge: Judge, items: seq<Item>) {
    forall n | 0 <= n < |items| :: KeepsPlain(m, judge, items[n])
  }

  lemma KeptReadable(m: Marks, judge: Judge, item: Item)
    requires Readable(m, item)
    ensures AllReadable(m, Kept(judge, item)) <==> KeepsPlain(m, judge, item)
  {
    match item
    case Text(l) =>
    case Conflict(o, t) =>
      TextsReadable(m, o);
      TextsReadable(m, t);
  }

  lemma TextsReadable(m: Marks, lines: seq<string>)
    ensures AllReadable(m, Texts(lines)) <==> Clean(lines, m.opens)
  {
    assert forall n | 0 <= n < |lines| :: Readable(m, Texts(lines)[n]) <==> !m.opens(lines[n]);
  }

  lemma ReadableAppend(m: Marks, a: seq<Item>, b: seq<Item>)
    ensures AllReadable(m, a + b) <==> AllReadable(m, a) && AllReadable(m, b)
  {
    assert forall n | 0 <= n < |a| :: (a + b)[n] == a[n];
    assert forall n | 0 <= n < |b| :: (a + b)[|a| + n] == b[n];
    if AllReadable(m, a) && AllReadable(m, b) {
      assert forall n | |a| <= n < |a + b| :: (a + b)[n] == b[n - |a|];
    }
  }

  lemma {:induction false} KeptAllReadable(m: Marks, judge: Judge, items: seq<Item>)
    requires AllReadable(m, items)
    ensures AllReadable(m, KeptAll(judge, items)) <==> AllKeepPlain(m, judge, items)
  {
    if items != [] {
      var rest := items[1..];
      assert forall n | 0 <= n < |rest| :: rest[n] == items[n + 1];
      assert forall n | 0 < n < |items| :: items[n] == rest[n - 1];
      assert Readable(m, items[0]);
      KeptAllReadable(m, judge, rest);
      KeptReadable(m, judge, items[0]);
      ReadableAppend(m, Kept(judge, items[0]), KeptAll(judge, rest));
    }
  }

  /** The output is read back as what was kept exactly when no kept side has a line that opens a hunk. */
  lemma ReparseExactly(m: Marks, judge: Judge, pens: Pens, lines: seq<string>)
    requires Legible(m, pens)
    ensures var items := Parse(m, lines);
      Parse(m, OutAll(judge, pens, items)) == KeptAll(judge, items) <==> AllKeepPlain(m, judge, items)
  {
    var items := Parse(m, lines);
    ParsedReadable(m, lines);
    KeptAllReadable(m, judge, items);
    OutputIsWritten(judge, pens, items);
    ReadWritten(m, pens, KeptAll(judge, items));
  }

  // ---- counting ----

  lemma {:induction false} HunksAppend(a: seq<Item>, b: seq<Item>)
    ensures Hunks(a + b) == Hunks(a) + Hunks(b)
  {
    if a == [] {
      assert a + b == b;
    } else {
      assert (a + b)[1..] == a[1..] + b;
      HunksAppend(a[1..], b);
    }
  }

  lemma {:induction false} HunksOfTexts(lines: seq<string>)
    ensures Hunks(Texts(lines)) == 0
  {
    if lines != [] {
      assert Texts(lines)[1..] == Texts(lines[1..]);
      HunksOfTexts(lines[1..]);
    }
  }

  ghost predicate Balanced(c: Tally, items: seq<Item>, kept: seq<Item>) {
    c.ours + c.theirs + c.unresolved == Hunks(items) && c.unresolved == Hunks(kept)
  }

  /** Every hunk is counted once, and the unresolved ones are the hunks left in the output. */
  lemma {:induction false} TallyBalances(judge: Judge, items: seq<Item>)
    ensures Balanced(TallyOf(judge, items), items, KeptAll(judge, items))
  {
    if items != [] {
      var front, last := items[..|items| - 1], items[|items| - 1];
      TallyBalances(judge, front);
      assert items == front + [last];
      OneMoreItem(judge, front, last, TallyOf(judge, front), KeptAll(judge, front));
      KeptSnoc(judge, front, last);
    }
  }

  lemma KeptSnoc(judge: Judge, front: seq<Item>, last: Item)
    ensures KeptAll(judge, front + [last]) == KeptAll(judge, front) + Kept(judge, last)
  {
    KeptAppend(judge, front, [last]);
    assert KeptAll(judge, [last]) == Kept(judge, last) + [];
  }

  lemma OneMoreItem(judge: Judge, front: seq<Item>, last: Item, c: Tally, kept: seq<Item>)
    requires Balanced(c, front, kept)
    ensures Balanced(Counted(judge, c, last), front + [last], kept + Kept(judge, last))
  {
    HunksAppend(front, [last]);
    HunksAppend(kept, Kept(judge, last));
    match last
    case Text(l) =>
    case Conflict(o, t) =>
      HunksOfTexts(o);
      HunksOfTexts(t);
  }

  ghost predicate Settled(judge: Judge, item: Item) {
    item.Conflict? ==> judge(item.ours, item.theirs) == None
  }

  ghost predicate AllSettled(judge: Judge, items: seq<Item>) {
    forall n | 0 <= n < |items| :: Settled(judge, items[n])
  }

  lemma {:induction false} SettledTakesNothing(judge: Judge, items: seq<Item>)
    requires AllSettled(judge, items)
    ensures TallyOf(judge, items).ours == 0 && TallyOf(judge, items).theirs == 0
  {
    if items != [] {
      assert Settled(judge, items[|items| - 1]);
      SettledTakesNothing(judge, items[..|items| - 1]);
    }
  }

  lemma {:induction false} KeptIsSettled(judge: Judge, items: seq<Item>)
    ensures AllSettled(judge, KeptAll(judge, items))
  {
    if items != [] { KeptIsSettled(judge, items[1..]); }
  }

  // ---- plain lines ----

  /** `a` can be had from `b` by leaving lines out. */
  ghost predicate Sub(a: seq<string>, b: seq<string>) {
    a == [] || (b != [] && ((a[0] == b[0] && Sub(a[1..], b[1..])) || Sub(a, b[1..])))
  }

  function TextLines(items: seq<Item>): seq<string> {
    if items == [] then [] else (if items[0].Text? then [items[0].line] else []) + TextLines(items[1..])
  }

  lemma {:induction false} SubAfter(pre: seq<string>, a: seq<string>, b: seq<string>)
    requires Sub(a, b)
    ensures Sub(a, pre + b)
  {
    if pre == [] {
      assert pre + b == b;
    } else {
      assert (pre + b)[1..] == pre[1..] + b;
      SubAfter(pre[1..], a, b);
    }
  }

  /** Every line outside a hunk is in the output, in order. */
  lemma {:induction false} PlainLinesSurvive(judge: Judge, pens: Pens, items: seq<Item>)
    ensures Sub(TextLines(items), OutAll(judge, pens, items))
  {
    if items != [] {
      var rest := OutAll(judge, pens, items[1..]);
      PlainLinesSurvive(judge, pens, items[1..]);
      match items[0]
      case Text(l) =>
        assert ([l] + TextLines(items[1..]))[1..] == TextLines(items[1..]) && ([l] + rest)[1..] == rest;
      case Conflict(o, t) =>
        assert [] + TextLines(items[1..]) == TextLines(items[1..]);
        SubAfter(Out(judge, pens, items[0]), TextLines(items[1..]), rest);
    }
  }

  // ---- new work ----

  ghost predicate Holds(out: seq<string>, pre: seq<string>, block: seq<string>, post: seq<string>) {
    out == pre + block + post
  }

  /** The lines of `block` stand together, in order, in `out`. */
  ghost predicate Contains(out: seq<string>, block: seq<string>) {
    exists pre, post :: Holds(out, pre, block, post)
  }

  lemma ContainsWithin(pre: seq<string>, out: seq<string>, post: seq<string>, block: seq<string>)
    requires Contains(out, block)
    ensures Contains(pre + out + post, block)
  {
    var a, b :| Holds(out, a, block, b);
    assert pre + (a + block + b) + post == (pre + a) + block + (b + post);
    assert Holds(pre + out + post, pre + a, block, b + post);
  }

  lemma {:induction false} OutContains(judge: Judge, pens: Pens, items: seq<Item>, n: nat)
    requires n < |items|
    ensures Contains(OutAll(judge, pens, items), Out(judge, pens, items[n]))
  {
    var first, rest := Out(judge, pens, items[0]), OutAll(judge, pens, items[1..]);
    if n == 0 {
      assert first + rest == [] + first + rest;
      assert Holds(first + rest, [], first, rest);
    } else {
      OutContains(judge, pens, items[1..], n - 1);
      ContainsWithin(first, rest, [], Out(judge, pens, items[n]));
      assert first + rest + [] == first + rest;
    }
  }

  lemma HunkContains(pens: Pens, o: seq<string>, t: seq<string>)
    ensures Contains(WriteHunk(pens, o, t), o) && Contains(WriteHunk(pens, o, t), t)
  {
    assert Holds(WriteHunk(pens, o, t), [pens.head], o, [pens.sep] + t + [pens.end]);
    assert Holds(WriteHunk(pens, o, t), [pens.head] + o + [pens.sep], t, [pens.end]);
  }

  lemma WholeContains(block: seq<string>)
    ensures Contains(block, block)
  {
    assert block == [] + block + [];
    assert Holds(block, [], block, []);
  }

  /** Resolving loses no new work: a side the base does not have, comments and layout aside, stands
      whole in the output. */
  lemma NewWorkSurvives(base: string, pens: Pens, items: seq<Item>, n: nat, side: seq<string>)
    requires n < |items| && items[n].Conflict? && (side == items[n].ours || side == items[n].theirs)
    requires !Occurs(SideEssence(side), base)
    ensures Contains(OutAll(BaseJudge(base), pens, items), side)
  {
    var (o, t, out) := (items[n].ours, items[n].theirs, Out(BaseJudge(base), pens, items[n]));
    DecideExactly(o, t, base);
    HunkContains(pens, o, t);
    WholeContains(side);
    OutContains(BaseJudge(base), pens, items, n);
    var pre, post :| Holds(OutAll(BaseJudge(base), pens, items), pre, out, post);
    ContainsWithin(pre, out, post, side);
  }

  // ---- whole files ----

  /** A second pass over the output finds only the hunks that were left, and changes nothing, when no
      kept side opens a hunk of its own. */
  lemma SecondPass(m: Marks, judge: Judge, pens: Pens, lines: seq<string>)
    requires Legible(m, pens) && AllKeepPlain(m, judge, Parse(m, lines))
    ensures var items := Parse(m, lines);
      var again := Parse(m, OutAll(judge, pens, items));
      && OutAll(judge, pens, again) == OutAll(judge, pens, items)
      && TallyOf(judge, again) == Tally(0, 0, TallyOf(judge, items).unresolved)
  {
    var items := Parse(m, lines);
    var kept := KeptAll(judge, items);
    ReparseExactly(m, judge, pens, lines);
    OutputIsWritten(judge, pens, items);
    OutputIsWritten(judge, pens, kept);
    KeptTwice(judge, items);
    TallyBalances(judge, items);
    TallyBalances(judge, kept);
    KeptIsSettled(judge, items);
    SettledTakesNothing(judge, kept);
  }

  // ---- exactly when a file is left as it is ----

  lemma {:induction false} SettledIsWritten(judge: Judge, pens: Pens, items: seq<Item>)
    requires AllSettled(judge, items)
    ensures OutAll(judge, pens, items) == WriteAll(pens, items)
  {
    if items != [] {
      var rest := items[1..];
      assert Settled(judge, items[0]) && forall n | 0 <= n < |rest| :: rest[n] == items[n + 1];
      SettledIsWritten(judge, pens, rest);
    }
  }

  lemma OutLength(judge: Judge, pens: Pens, item: Item)
    ensures var n := |Out(judge, pens, item)|;
      match item
      case Text(_) => n == 1
      case Conflict(o, t) => if Settled(judge, item) then n == 3 + |o| + |t| else n == |o| || n == |t|
  {
  }

  /** Where the parser goes on after an item that is not the last. */
  lemma NotTheLast(m: Marks, lines: seq<string>, i: nat, items: seq<Item>)
    requires |items| > 1 && Spells(m, lines, i, items)
    ensures var next := if items[0].Text? then i + 1 else i + 3 + |items[0].ours| + |items[0].theirs|;
      i < next < |lines| && Spells(m, lines, next, items[1..])
  {
  }

  lemma LastLength(m: Marks, lines: seq<string>, i: nat, item: Item)
    requires Spells(m, lines, i, [item])
    ensures i < |lines|
    ensures match item
      case Text(_) => |lines| == i + 1
      case Conflict(o, t) =>
        |lines| <= i + 3 + |o| + |t| <= |lines| + 2 && |o| < |lines| - i && |t| < |lines| - i
  {
    assert [item][1..] == [];
  }

  /** The output is at most two lines longer than the input: a last hunk that breaks off is closed. */
  lemma {:induction false} GrowsByTwo(m: Marks, judge: Judge, pens: Pens, lines: seq<string>, i: nat, items: seq<Item>)
    requires i <= |lines| && Spells(m, lines, i, items)
    ensures |OutAll(judge, pens, items)| <= |lines| - i + 2
    decreases |items|
  {
    if items != [] {
      OutLength(judge, pens, items[0]);
      if |items| == 1 {
        assert items == [items[0]];
        LastLength(m, lines, i, items[0]);
      } else {
        NotTheLast(m, lines, i, items);
        var next := if items[0].Text? then i + 1 else i + 3 + |items[0].ours| + |items[0].theirs|;
        GrowsByTwo(m, judge, pens, lines, next, items[1..]);
      }
    }
  }

  /** A file in which some hunk is decided gets shorter. */
  lemma {:induction false} DecidingShortens(
    m: Marks, judge: Judge, pens: Pens, lines: seq<string>, i: nat, items: seq<Item>)
    requires i <= |lines| && Spells(m, lines, i, items) && !AllSettled(judge, items)
    ensures |OutAll(judge, pens, items)| < |lines| - i
    decreases |items|
  {
    OutLength(judge, pens, items[0]);
    if |items| == 1 {
      assert items == [items[0]];
      LastLength(m, lines, i, items[0]);
    } else {
      NotTheLast(m, lines, i, items);
      var next := if items[0].Text? then i + 1 else i + 3 + |items[0].ours| + |items[0].theirs|;
      if Settled(judge, items[0]) {
        RestUnsettled(judge, items);
        DecidingShortens(m, judge, pens, lines, next, items[1..]);
      } else {
        GrowsByTwo(m, judge, pens, lines, next, items[1..]);
      }
    }
  }

  lemma RestUnsettled(judge: Judge, items: seq<Item>)
    requires items != [] && !AllSettled(judge, items) && Settled(judge, items[0])
    ensures !AllSettled(judge, items[1..])
  {
    var n :| 0 <= n < |items| && !Settled(judge, items[n]);
    assert items[n] == items[1..][n - 1];
  }

  /** A file is left as it is if and only if every hunk is undecided and written with the output's own
      markers. Taking the output of a pass for the file, this is exactly when a second pass changes
      nothing. */
  lemma UnchangedExactly(m: Marks, judge: Judge, pens: Pens, lines: seq<string>)
    ensures var items := Parse(m, lines);
      OutAll(judge, pens, items) == lines <==> AllSettled(judge, items) && WriteAll(pens, items) == lines
  {
    var items := Parse(m, lines);
    ParseExactly(m, lines, 0, items);
    if AllSettled(judge, items) {
      SettledIsWritten(judge, pens, items);
    } else {
      DecidingShortens(m, judge, pens, lines, 0, items);
    }
  }

  datatype Resolved = Resolved(text: string, tally: Tally)

  /** A file against its base version; without one it is skipped. */
  function ResolveText(text: string, base: Option<string>, lbl: string): Result<Resolved, string> {
    match base
    case None => Err("no base version of this path")
    case Some(b) =>
      var judge := BaseJudge(Essence(b));
      var items := Parse(GitMarks(), SplitLines(text));
      Ok(Resolved(JoinLines(OutAll(judge, GitPens(lbl), items)), TallyOf(judge, items)))
  }

  ghost predicate UnbrokenItem(item: Item) {
    match item
    case Text(l) => '\n' !in l
    case Conflict(o, t) => Unbroken(o) && Unbroken(t)
  }

  lemma {:induction false} ParsedUnbroken(m: Marks, lines: seq<string>, i: nat)
    requires Unbroken(lines)
    ensures forall item | item in ParseFrom(m, lines, i) :: UnbrokenItem(item)
    decreases |lines| - i
  {
    if i < |lines| {
      if m.opens(lines[i]) {
        ParsedUnbroken(m, lines, HunkRead(m, lines, i).1);
        assert UnbrokenItem(HunkRead(m, lines, i).0);
      } else {
        ParsedUnbroken(m, lines, i + 1);
      }
    }
  }

  lemma UnbrokenAppend(a: seq<string>, b: seq<string>)
    requires Unbroken(a) && Unbroken(b)
    ensures Unbroken(a + b)
  {
  }

  lemma {:induction false} OutputUnbroken(judge: Judge, pens: Pens, items: seq<Item>)
    requires Unbroken([pens.head, pens.sep, pens.end]) && forall item | item in items :: UnbrokenItem(item)
    ensures Unbroken(OutAll(judge, pens, items))
  {
    if items != [] {
      assert items[0] in items && forall item | item in items[1..] :: item in items;
      OutputUnbroken(judge, pens, items[1..]);
      ItemUnbroken(judge, pens, items[0]);
      UnbrokenAppend(Out(judge, pens, items[0]), OutAll(judge, pens, items[1..]));
    }
  }

  lemma ItemUnbroken(judge: Judge, pens: Pens, item: Item)
    requires Unbroken([pens.head, pens.sep, pens.end]) && UnbrokenItem(item)
    ensures Unbroken(Out(judge, pens, item))
  {
    assert '\n' !in [pens.head, pens.sep, pens.end][0] && '\n' !in [pens.head, pens.sep, pens.end][1];
    assert '\n' !in [pens.head, pens.sep, pens.end][2];
    match item
    case Text(l) =>
    case Conflict(o, t) =>
      UnbrokenAppend([pens.head], o);
      UnbrokenAppend([pens.head] + o, [pens.sep]);
      UnbrokenAppend([pens.head] + o + [pens.sep], t);
      UnbrokenAppend([pens.head] + o + [pens.sep] + t, [pens.end]);
  }

  lemma PensUnbroken(lbl: string)
    requires '\n' !in lbl
    ensures var pens := GitPens(lbl); Unbroken([pens.head, pens.sep, pens.end])
  {
  }

  lemma EmptyOutput(m: Marks, judge: Judge, pens: Pens, items: seq<Item>)
    requires !m.opens("") && OutAll(judge, pens, items) == []
    ensures OutAll(judge, pens, Parse(m, [""])) == [""] && Hunks(KeptAll(judge, items)) == 0
    ensures TallyOf(judge, Parse(m, [""])) == Tally(0, 0, 0)
  {
    assert Parse(m, [""]) == [Text("")];
    OutputIsWritten(judge, pens, items);
    WrittenAtLeast(pens, KeptAll(judge, items));
  }

  lemma {:induction false} WrittenAtLeast(pens: Pens, items: seq<Item>)
    ensures |items| <= |WriteAll(pens, items)|
  {
    if items != [] { WrittenAtLeast(pens, items[1..]); }
  }

  /** Resolving is idempotent on whole files: the output resolves to itself and only the unresolved
      hunks are counted again, when no kept side has a line that opens a hunk. */
  lemma ResolveTwice(text: string, base: string, lbl: string)
    requires '\n' !in lbl
    requires AllKeepPlain(GitMarks(), BaseJudge(Essence(base)), Parse(GitMarks(), SplitLines(text)))
    ensures var once := ResolveText(text, Some(base), lbl).value;
      ResolveText(once.text, Some(base), lbl) == Ok(Resolved(once.text, Tally(0, 0, once.tally.unresolved)))
  {
    var (m, judge, pens) := (GitMarks(), BaseJudge(Essence(base)), GitPens(lbl));
    var items := Parse(m, SplitLines(text));
    var out := OutAll(judge, pens, items);
    GitPensLegible(lbl);
    if out == [] {
      EmptyOutput(m, judge, pens, items);
      TallyBalances(judge, items);
    } else {
      JoinSplit(text);
      ParsedUnbroken(m, SplitLines(text), 0);
      PensUnbroken(lbl);
      OutputUnbroken(judge, pens, items);
      SplitJoin(out);
      SecondPass(m, judge, pens, SplitLines(text));
    }
  }

  /** Without that condition a second pass can lose a line: a kept line that opens a hunk is read as an
      empty hunk the next time. `read` are the markers of the input, `pens` those of the output. */
  lemma KeptMarkerIsLost(m: Marks, judge: Judge, read: Pens, pens: Pens, l: string)
    requires Legible(m, read) && m.opens(l) && !m.closes(l)
    requires judge([], [l]) == Some(Theirs) && judge([], []) == Some(Ours)
    ensures var items := Parse(m, [read.head, read.sep, l, read.end]);
      OutAll(judge, pens, items) == [l] && TallyOf(judge, items) == Tally(0, 1, 0)
    ensures var items := Parse(m, [l]);
      OutAll(judge, pens, items) == [] && TallyOf(judge, items) == Tally(1, 0, 0)
  {
    var lines, hunk, bare := [read.head, read.sep, l, read.end], Conflict([], [l]), Conflict([], []);
    assert [] + WriteHunk(read, [], [l]) + [] == lines;
    HunkWritten(m, read, [], [], [l], []);
    SpellsConflict(m, lines, 0, [], [l], []);
    ParseExactly(m, lines, 0, [hunk] + []);
    assert Parse(m, lines) == [hunk];
    OpenAlone(m, l);
    OneItem(judge, pens, hunk);
    OneItem(judge, pens, bare);
  }

  lemma OneItem(judge: Judge, pens: Pens, item: Item)
    ensures OutAll(judge, pens, [item]) == Out(judge, pens, item)
    ensures TallyOf(judge, [item]) == Counted(judge, Tally(0, 0, 0), item)
  {
    assert [item][..0] == [] && [item][1..] == [];
    assert OutAll(judge, pens, [item]) == Out(judge, pens, item) + [];
  }

  lemma OpenAlone(m: Marks, l: string)
    requires m.opens(l)
    ensures Parse(m, [l]) == [Conflict([], [])]
  {
    assert Until([l], 1, m.splits) == 1 && Until([l], 2, m.closes) == 2;
    assert Slice([l], 1, 1) == [] && Slice([l], 2, 2) == [];
    assert HunkRead(m, [l], 0) == (Conflict([], []), 3);
    assert ParseFrom(m, [l], 3) == [];
  }

  /** The same on texts and the real judge: any line that opens a hunk and is new to the base, alone on
      their side of a hunk, is kept by the first pass and dropped by the second. */
  lemma SecondPassLosesALine(read: Pens, l: string, base: string, lbl: string)
    requires Legible(GitMarks(), read) && Unbroken([read.head, read.sep, l, read.end])
    requires "<<<<<<<" <= l && !Occurs(SideEssence([l]), Essence(base))
    ensures ResolveText(JoinLines([read.head, read.sep, l, read.end]), Some(base), lbl)
      == Ok(Resolved(l, Tally(0, 1, 0)))
    ensures ResolveText(l, Some(base), lbl) == Ok(Resolved("", Tally(1, 0, 0)))
  {
    var (m, judge, lines) := (GitMarks(), BaseJudge(Essence(base)), [read.head, read.sep, l, read.end]);
    EmptyEssence();
    DecideExactly([], [l], Essence(base));
    DecideExactly([], [], Essence(base));
    NothingOccurs(Essence(base));
    assert !m.closes(l) by { assert l[0] == '<'; }
    KeptMarkerIsLost(m, judge, read, GitPens(lbl), l);
    SplitJoin(lines);
    assert lines[2] == l;
    SplitJoin([l]);
  }

  lemma EmptyEssence()
    ensures SideEssence([]) == ""
  {
    NormIsWords("");
  }

  lemma NewToNothing(l: string)
    requires '/' !in l && l != "" && !IsSpace(l[0])
    ensures !Occurs(SideEssence([l]), Essence(""))
  {
    NormIsWords("");
    EssenceOfLine(l);
  }

  /** A file of four lines and an empty base for which it happens. */
  lemma ASecondPassCanLoseALine(lbl: string) returns (text: string, base: string, once: string)
    ensures ResolveText(text, Some(base), lbl) == Ok(Resolved(once, Tally(0, 1, 0)))
    ensures ResolveText(once, Some(base), lbl) == Ok(Resolved("", Tally(1, 0, 0))) && once != ""
  {
    var read: Pens;
    read, once := TheFourLines();
    base, text := "", JoinLines([read.head, read.sep, once, read.end]);
    NewToNothing(once);
    SecondPassLosesALine(read, once, base, lbl);
  }

  lemma TheFourLines() returns (read: Pens, l: string)
    ensures Legible(GitMarks(), read) && Unbroken([read.head, read.sep, l, read.end])
    ensures "<<<<<<<" <= l && '/' !in l && !IsSpace(l[0])
  {
    read, l := Pens("<<<<<<< a", "=======", ">>>>>>> c"), "<<<<<<< b";
  }

  method ResolveItem(judge: Judge, pens: Pens, item: Item, out0: seq<string>, tally0: Tally)
    returns (out: seq<string>, tally: Tally)
    ensures out == out0 + Out(judge, pens, item) && tally == Counted(judge, tally0, item)
    ensures tally.ours + tally.theirs + tally.unresolved
      == tally0.ours + tally0.theirs + tally0.unresolved + Hunks([item])
  {
    out, tally := out0, tally0;
    match item {
      case Text(l) =>
        out := out + [l];
      case Conflict(ours, theirs) =>
        match judge(ours, theirs) {
          case Some(Ours) =>
            out, tally := out + ours, tally.(ours := tally.ours + 1);
          case Some(Theirs) =>
            out, tally := out + theirs, tally.(theirs := tally.theirs + 1);
          case None =>
            out := out + ([pens.head] + ours + [pens.sep] + theirs + [pens.end]);
            tally := tally.(unresolved := tally.unresolved + 1);
        }
    }
  }

  /** The loop over a file's items. */
  method ResolveItems(judge: Judge, pens: Pens, items: seq<Item>) returns (out: seq<string>, tally: Tally)
    ensures out == OutAll(judge, pens, items) && tally == TallyOf(judge, items)
    ensures tally.ours + tally.theirs + tally.unresolved == Hunks(items)
    ensures Sub(TextLines(items), out)
  {
    out, tally := [], Tally(0, 0, 0);
    for n := 0 to |items|
      invariant out == OutAll(judge, pens, items[..n])
      invariant tally == TallyOf(judge, items[..n])
    {
      assert items[..n + 1] == items[..n] + [items[n]] && items[..n + 1][..n] == items[..n];
      OutSnoc(judge, pens, items[..n], items[n]);
      out, tally := ResolveItem(judge, pens, items[n], out, tally);
    }
    assert items[..|items|] == items;
    TallyBalances(judge, items);
    PlainLinesSurvive(judge, pens, items);
  }

  lemma {:induction false} OutSnoc(judge: Judge, pens: Pens, front: seq<Item>, last: Item)
    ensures OutAll(judge, pens, front + [last]) == OutAll(judge, pens, front) + Out(judge, pens, last)
  {
    if front == [] {
      assert front + [last] == [last] && [last][1..] == [];
    } else {
      assert (front + [last])[1..] == front[1..] + [last];
      OutSnoc(judge, pens, front[1..], last);
    }
  }

  /** The resolver on a file's text. */
  method Resolve(text: string, base: Option<string>, lbl: string) returns (r: Result<Resolved, string>)
    ensures r == ResolveText(text, base, lbl)
    ensures r.Err? <==> base == None
  {
    match base {
      case None =>
        r := Err("no base version of this path");
      case Some(b) =>
        var judge := BaseJudge(Essence(b));
        var items := SplitHunks(GitMarks(), SplitLines(text));
        var out, tally := ResolveItems(judge, GitPens(lbl), items);
        r := Ok(Resolved(JoinLines(out), tally));
    }
  }
}
