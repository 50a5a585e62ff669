/** The texts the conflict resolver compares and writes: lines, white space, comments, occurrence. */
module MergeText {
  import opened Chars

  // ---- lines ----

  function FirstBreak(s: string): (n: nat)
    ensures n <= |s| && (n < |s| ==> s[n] == '\n') && '\n' !in s[..n]
  {
    if s == [] || s[0] == '\n' then 0 else 1 + FirstBreak(s[1..])
  }

  /** `s.split('\n')`: always at least one line. */
  function SplitLines(s: string): (ls: seq<string>)
    ensures |ls| >= 1
    decreases |s|
  {
    var n := FirstBreak(s);
    if n == |s| then [s] else [s[..n]] + SplitLines(s[n + 1..])
  }

  /** `'\n'.join(ls)`. */
  function JoinLines(ls: seq<string>): string {
    if ls == [] then "" else if |ls| == 1 then ls[0] else ls[0] + "\n" + JoinLines(ls[1..])
  }

  ghost predicate Unbroken(ls: seq<string>) {
    forall n | 0 <= n < |ls| :: '\n' !in ls[n]
  }

  lemma {:induction false} BreakAfter(line: string, rest: string)
    requires '\n' !in line
    ensures FirstBreak(line + "\n" + rest) == |line| && FirstBreak(line) == |line|
  {
    if line != [] {
      BreakAfter(line[1..], rest);
      assert (line + "\n" + rest)[1..] == line[1..] + "\n" + rest;
    }
  }

  /** Splitting gives unbroken lines back, and joining them gives the text. */
  lemma {:induction false} JoinSplit(s: string)
    ensures JoinLines(SplitLines(s)) == s && Unbroken(SplitLines(s))
    decreases |s|
  {
    var n := FirstBreak(s);
    if n < |s| {
      var rest := SplitLines(s[n + 1..]);
      JoinSplit(s[n + 1..]);
      assert SplitLines(s) == [s[..n]] + rest && ([s[..n]] + rest)[1..] == rest;
      assert s == s[..n] + "\n" + s[n + 1..];
    } else {
      assert s[..n] == s;
    }
  }

  lemma {:induction false} SplitJoin(ls: seq<string>)
    requires ls != [] && Unbroken(ls)
    ensures SplitLines(JoinLines(ls)) == ls
  {
    assert '\n' !in ls[0];
    if |ls| == 1 {
      BreakAfter(ls[0], "");
    } else {
      var rest := JoinLines(ls[1..]);
      BreakAfter(ls[0], rest);
      var s := ls[0] + "\n" + rest;
      assert s[..|ls[0]|] == ls[0] && s[|ls[0]| + 1..] == rest;
      SplitJoin(ls[1..]);
    }
  }

  // ---- white space ----

  /** Every run of white space becomes one space. */
  function Collapse(s: string): string {
    if s == [] then []
    else if !IsSpace(s[0]) then [s[0]] + Collapse(s[1..])
    else if |s| > 1 && IsSpace(s[1]) then Collapse(s[1..])
    else " " + Collapse(s[1..])
  }

  function StripLeft(s: string): string {
    if s != [] && IsSpace(s[0]) then StripLeft(s[1..]) else s
  }

  function StripRight(s: string): string {
    if s != [] && IsSpace(s[|s| - 1]) then StripRight(s[..|s| - 1]) else s
  }

  /** `norm`. */
  function Norm(s: string): string {
    StripRight(StripLeft(Collapse(s)))
  }

  /** The words of a text. */
  ghost function Words(s: string): (ws: seq<string>)
    ensures s != [] && !IsSpace(s[0]) ==> ws != [] && ws[0] != [] && ws[0][0] == s[0]
    ensures forall w | w in ws :: IsWord(w)
  {
    if s == [] then []
    else if IsSpace(s[0]) then Words(s[1..])
    else if |s| > 1 && !IsSpace(s[1]) then
      var ws := Words(s[1..]);
      assert ws[0] in ws;
      [[s[0]] + ws[0]] + ws[1..]
    else [[s[0]]] + Words(s[1..])
  }

  ghost predicate IsWord(w: string) {
    w != [] && forall c | c in w :: !IsSpace(c)
  }

  ghost function Spaced(ws: seq<string>): string {
    if ws == [] then "" else if |ws| == 1 then ws[0] else ws[0] + " " + Spaced(ws[1..])
  }

  ghost function Pad(b: bool): string {
    if b then " " else ""
  }

  ghost predicate Trails(s: string) {
    s != [] && IsSpace(s[|s| - 1])
  }

  ghost predicate Leads(s: string) {
    s != [] && IsSpace(s[0])
  }

  /** Words with at most a space on either side. */
  ghost function Shape(lead: bool, ws: seq<string>, trail: bool): string {
    if ws == [] then Pad(lead) else Pad(lead) + Spaced(ws) + Pad(trail)
  }

  lemma SpacedCons(w: string, ws: seq<string>)
    ensures Spaced([w] + ws) == if ws == [] then w else w + (" " + Spaced(ws))
  {
    assert ([w] + ws)[1..] == ws;
    Regroup(w, " ", Spaced(ws));
  }

  lemma SpacedGrows(c: char, w: string, ws: seq<string>)
    ensures Spaced([[c] + w] + ws) == [c] + Spaced([w] + ws)
  {
    SpacedCons(w, ws);
    SpacedCons([c] + w, ws);
    Regroup([c], w, " " + Spaced(ws));
  }

  lemma ShapeGrowsWord(c: char, w: string, ws: seq<string>, trail: bool)
    ensures [c] + Shape(false, [w] + ws, trail) == Shape(false, [[c] + w] + ws, trail)
  {
    var x := Spaced([w] + ws);
    SpacedGrows(c, w, ws);
    Regroup(x, "", "");
    Regroup([c] + x, "", "");
    Regroup([c], x, Pad(trail));
  }

  lemma ShapeAddsWord(c: char, ws: seq<string>, trail: bool)
    requires ws != []
    ensures [c] + Shape(true, ws, trail) == Shape(false, [[c]] + ws, trail)
  {
    var x := " " + Spaced(ws);
    SpacedCons([c], ws);
    Regroup([c] + x, "", "");
    Regroup([c], x, Pad(trail));
  }

  lemma ShapeOneWord(c: char, trail: bool)
    ensures [c] + Shape(trail, [], trail) == Shape(false, [[c]], trail)
  {
  }

  lemma ShapeIndents(ws: seq<string>, trail: bool)
    requires ws != []
    ensures " " + Shape(false, ws, trail) == Shape(true, ws, trail)
  {
  }

  lemma {:induction false} NoWords(s: string)
    requires Words(s) == []
    ensures Leads(s) == Trails(s) == (s != [])
  {
    if |s| > 1 { NoWords(s[1..]); }
  }

  lemma TrailsOfTail(s: string)
    requires |s| > 1
    ensures Trails(s) == Trails(s[1..])
  {
  }

  lemma {:induction false} CollapseIsWords(s: string)
    ensures Collapse(s) == Shape(Leads(s), Words(s), Trails(s))
  {
    if s != [] {
      var rest := Words(s[1..]);
      CollapseIsWords(s[1..]);
      if |s| > 1 { TrailsOfTail(s); }
      if rest == [] { NoWords(s[1..]); }
      if IsSpace(s[0]) {
        if |s| > 1 && !IsSpace(s[1]) { ShapeIndents(rest, Trails(s)); }
      } else if |s| > 1 && !IsSpace(s[1]) {
        assert rest == [rest[0]] + rest[1..];
        ShapeGrowsWord(s[0], rest[0], rest[1..], Trails(s));
      } else if rest == [] {
        ShapeOneWord(s[0], Trails(s));
      } else {
        ShapeAddsWord(s[0], rest, Trails(s));
      }
    }
  }

  lemma {:induction false} SpacedEnds(ws: seq<string>)
    requires ws != [] && forall w | w in ws :: IsWord(w)
    ensures var t := Spaced(ws); t != [] && !IsSpace(t[0]) && !IsSpace(t[|t| - 1])
  {
    var w := ws[0];
    assert w in ws && w[0] in w && w[|w| - 1] in w;
    if |ws| > 1 { SpacedEnds(ws[1..]); }
  }

  /** Normalising is reading off the words: neither layout nor line ends matter. */
  lemma NormIsWords(s: string)
    ensures Norm(s) == Spaced(Words(s))
  {
    CollapseIsWords(s);
    if Words(s) != [] {
      SpacedEnds(Words(s));
      StripPadded(Spaced(Words(s)), Leads(s), Trails(s));
    } else {
      StripNothing(Leads(s));
    }
  }

  lemma StripPadded(t: string, left: bool, right: bool)
    requires t != [] && !IsSpace(t[0]) && !IsSpace(t[|t| - 1])
    ensures StripRight(StripLeft(Pad(left) + t + Pad(right))) == t
  {
    var u := t + Pad(right);
    assert StripLeft(u) == u;
    assert StripLeft(Pad(left) + t + Pad(right)) == u by {
      assert Pad(left) + t + Pad(right) == Pad(left) + u;
      if left { assert (Pad(left) + u)[1..] == u; } else { assert Pad(left) + u == u; }
    }
    assert StripRight(t) == t;
    if right { assert u[..|u| - 1] == t; } else { assert u == t; }
  }

  lemma StripNothing(blank: bool)
    ensures StripRight(StripLeft(Pad(blank))) == ""
  {
    if blank { assert Pad(blank)[1..] == ""; }
  }

  // ---- comments ----

  /** The length of `s` up to and including the first block-comment end, or none. */
  function BlockEnd(s: string): (n: nat)
    ensures n <= |s|
  {
    if |s| < 2 then 0
    else if s[0] == '*' && s[1] == '/' then 2
    else
      var n := BlockEnd(s[1..]);
      if n == 0 then 0 else n + 1
  }

  /** `decomment`: line comments up to the line end, block comments that are closed. */
  function Decomment(s: string): string
    decreases |s|
  {
    if |s| < 2 then s
    else if s[0] == '/' && s[1] == '/' then Decomment(s[FirstBreak(s)..])
    else if s[0] == '/' && s[1] == '*' && BlockEnd(s[2..]) > 0 then Decomment(s[2 + BlockEnd(s[2..])..])
    else [s[0]] + Decomment(s[1..])
  }

  /** Text before a comment stays, the comment goes, and what follows is treated the same way. */
  lemma {:induction false} CommentGoes(before: string, comment: string, rest: string)
    requires '/' !in before && (IsLineComment(comment, rest) || IsBlockComment(comment))
    ensures Decomment(before + comment + rest) == before + Decomment(rest)
  {
    if before == [] {
      assert before + comment + rest == comment + rest;
      if IsLineComment(comment, rest) { LineCommentGoes(comment, rest); } else { BlockCommentGoes(comment, rest); }
    } else {
      CommentGoes(before[1..], comment, rest);
      PlainStays(before[0], before[1..] + comment + rest);
      assert before + comment + rest == [before[0]] + (before[1..] + comment + rest);
    }
  }

  lemma PlainStays(c: char, s: string)
    requires c != '/'
    ensures Decomment([c] + s) == [c] + Decomment(s)
  {
    assert ([c] + s)[1..] == s;
  }

  lemma BlockCommentGoes(c: string, rest: string)
    requires IsBlockComment(c)
    ensures Decomment(c + rest) == Decomment(rest)
  {
    var s := c + rest;
    assert c[2..][|c| - 4..] == c[|c| - 2..];
    BlockEndAt(c[2..], rest);
    assert s[2..] == c[2..] + rest;
    assert s[|c|..] == rest;
  }

  ghost predicate IsLineComment(c: string, rest: string) {
    "//" <= c && '\n' !in c && (rest == [] || rest[0] == '\n')
  }

  /** Opened, closed, and closed nowhere earlier. */
  ghost predicate IsBlockComment(c: string) {
    4 <= |c| && "/*" <= c && c[|c| - 2..] == "*/" && forall n | 2 <= n < |c| - 2 :: !(c[n] == '*' && c[n + 1] == '/')
  }

  lemma LineCommentGoes(c: string, rest: string)
    requires IsLineComment(c, rest)
    ensures Decomment(c + rest) == Decomment(rest)
  {
    if rest == [] {
      BreakAfter(c, "");
      assert c + rest == c && c[|c|..] == "";
    } else {
      BreakAfter(c, rest[1..]);
      assert c + rest == c + "\n" + rest[1..] && (c + rest)[|c|..] == rest;
    }
  }

  lemma {:induction false} BlockEndAt(body: string, rest: string)
    requires 2 <= |body| && body[|body| - 2..] == "*/"
    requires forall n | 0 <= n < |body| - 2 :: !(body[n] == '*' && body[n + 1] == '/')
    ensures BlockEnd(body + rest) == |body|
  {
    assert body[|body| - 2] == body[|body| - 2..][0] == '*' && body[|body| - 1] == body[|body| - 2..][1] == '/';
    if |body| > 2 {
      assert (body + rest)[1..] == body[1..] + rest;
      assert body[1..][|body| - 3..] == body[|body| - 2..];
      BlockEndAt(body[1..], rest);
    }
  }

  /** A text as it is compared. */
  function Essence(s: string): string {
    Norm(Decomment(s))
  }

  lemma {:induction false} NoComments(s: string)
    requires '/' !in s
    ensures Decomment(s) == s
  {
    if s != [] {
      assert s == [s[0]] + s[1..] && s[0] in s;
      NoComments(s[1..]);
      PlainStays(s[0], s[1..]);
    }
  }

  /** A line without comments that starts with a word is compared by more than nothing. */
  lemma EssenceOfLine(l: string)
    requires '/' !in l && l != "" && !IsSpace(l[0])
    ensures Essence(l) != ""
  {
    NoComments(l);
    NormIsWords(l);
    SpacedEnds(Words(l));
  }

  /** `part in whole`. */
  predicate Occurs(part: string, whole: string) {
    exists n | 0 <= n <= |whole| :: OccursAt(part, whole, n)
  }

  predicate OccursAt(part: string, whole: string, n: nat)
    requires n <= |whole|
  {
    part <= whole[n..]
  }

  lemma NothingOccurs(whole: string)
    ensures Occurs("", whole)
  {
    assert OccursAt("", whole, 0);
  }
}
