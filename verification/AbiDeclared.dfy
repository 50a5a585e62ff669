/** Reading a declaration back: splitting and `type_of` recover the type from its spelling. */
module AbiDeclared {
  import opened Chars
  import opened Wrappers
  import opened AbiText
  import opened AbiTypes

  predicate NoParens(s: string) {
    forall i :: 0 <= i < |s| ==> s[i] != '(' && s[i] != ')'
  }

  predicate Plain(s: string) {
    NoParens(s) && forall i :: 0 <= i < |s| ==> s[i] != ','
  }

  function Shift(n: nat, r: Option<nat>): Option<nat> {
    match r case Some(i) => Some(n + i) case None => None
  }

  // ---- balanced text ----

  ghost predicate PassesOver(s: string, d: int, t: string, cur: string) {
    SplitFrom(s + t, d, cur) == SplitFrom(t, d, cur + s)
  }

  /** Started at depth `d`, the splitter passes over `s` without a cut and ends at depth `d`. */
  ghost predicate Uncut(s: string, d: int) {
    forall t, cur :: PassesOver(s, d, t, cur)
  }

  ghost predicate SearchesOn(s: string, d: int, t: string) {
    CloseFrom(s + t, d) == Shift(|s|, CloseFrom(t, d))
  }

  /** Started at depth `d`, the parenthesis search passes over `s` and ends at depth `d`. */
  ghost predicate Unclosed(s: string, d: int) {
    forall t :: SearchesOn(s, d, t)
  }

  /** Both scanners pass over `s`; the search only ever does so inside a parenthesis. */
  ghost predicate Neutral(s: string, d: int) {
    Uncut(s, d) && (d >= 1 ==> Unclosed(s, d))
  }

  lemma {:induction false} CloseSkip(s: string, t: string, d: int)
    requires NoParens(s)
    ensures CloseFrom(s + t, d) == Shift(|s|, CloseFrom(t, d))
    decreases |s|
  {
    if s == "" {
      assert s + t == t;
    } else {
      assert (s + t)[1..] == s[1..] + t;
      CloseSkip(s[1..], t, d);
    }
  }

  lemma {:induction false} SplitSkip(s: string, t: string, d: int, cur: string)
    requires NoParens(s) && (d == 0 ==> Plain(s))
    ensures SplitFrom(s + t, d, cur) == SplitFrom(t, d, cur + s)
    decreases |s|
  {
    if s == "" {
      assert s + t == t && cur + s == cur;
    } else {
      assert (s + t)[1..] == s[1..] + t;
      SplitSkip(s[1..], t, d, cur + [s[0]]);
      assert cur + [s[0]] + s[1..] == cur + s;
    }
  }

  lemma NeutralPlain(s: string, d: int)
    requires NoParens(s) && (d == 0 ==> Plain(s))
    ensures Neutral(s, d)
  {
    forall t, cur ensures PassesOver(s, d, t, cur) { SplitSkip(s, t, d, cur); }
    forall t ensures SearchesOn(s, d, t) { CloseSkip(s, t, d); }
  }

  lemma NeutralConcat(a: string, b: string, d: int)
    requires Neutral(a, d) && Neutral(b, d)
    ensures Neutral(a + b, d)
  {
    forall t, cur ensures PassesOver(a + b, d, t, cur) {
      assert PassesOver(a, d, b + t, cur) && PassesOver(b, d, t, cur + a);
      assert (a + b) + t == a + (b + t) && (cur + a) + b == cur + (a + b);
    }
    if d >= 1 {
      forall t ensures SearchesOn(a + b, d, t) {
        assert SearchesOn(a, d, b + t) && SearchesOn(b, d, t);
        assert (a + b) + t == a + (b + t);
      }
    }
  }

  lemma UncutParens(s: string, d: int, t: string, cur: string)
    requires d >= 0 && Uncut(s, d + 1)
    ensures PassesOver("(" + s + ")", d, t, cur)
  {
    var tail := ")" + t;
    var whole := ("(" + s + ")") + t;
    assert whole[1..] == s + tail && whole[0] == '(';
    assert PassesOver(s, d + 1, tail, cur + ['(']);
    assert tail[1..] == t && tail[0] == ')';
    assert cur + ['('] + s + [')'] == cur + ("(" + s + ")");
  }

  lemma UnclosedParens(s: string, d: int, t: string)
    requires d >= 1 && Unclosed(s, d + 1)
    ensures SearchesOn("(" + s + ")", d, t)
  {
    var tail := ")" + t;
    var whole := ("(" + s + ")") + t;
    assert whole[1..] == s + tail && whole[0] == '(';
    assert SearchesOn(s, d + 1, tail);
    assert tail[1..] == t && tail[0] == ')';
  }

  lemma NeutralParens(s: string, d: int)
    requires d >= 0 && Neutral(s, d + 1)
    ensures Neutral("(" + s + ")", d)
  {
    var p := "(" + s + ")";
    forall t, cur ensures PassesOver(p, d, t, cur) { UncutParens(s, d, t, cur); }
    if d >= 1 {
      forall t ensures SearchesOn(p, d, t) { UnclosedParens(s, d, t); }
    }
  }

  lemma {:induction false} NeutralType(t: AbiType, d: int)
    requires Wf(t) && d >= 0
    ensures Neutral(Spell(t), d)
    decreases t, 1
  {
    match t
    case Elem(name, suffix) => NeutralPlain(name + suffix, d);
    case Tuple(cs, suffix) =>
      var group := "(" + SpellList(cs) + ")";
      NeutralList(cs, d + 1);
      NeutralParens(SpellList(cs), d);
      NeutralPlain("tuple", d);
      NeutralPlain(suffix, d);
      NeutralConcat("tuple", group, d);
      NeutralConcat("tuple" + group, suffix, d);
      assert "tuple" + group + suffix == Spell(t);
  }

  lemma {:induction false} NeutralParam(p: Param, d: int)
    requires Wf(p.ty) && Blank(p.lead) && IsTail(p.tail) && d >= 0
    ensures Neutral(SpellParam(p), d)
    decreases p, 2
  {
    NeutralPlain(p.lead, d);
    NeutralPlain(p.tail, d);
    NeutralType(p.ty, d);
    NeutralConcat(Spell(p.ty), p.tail, d);
    NeutralConcat(p.lead, Spell(p.ty) + p.tail, d);
  }

  lemma {:induction false} NeutralList(ps: seq<Param>, d: int)
    requires WfParams(ps) && d >= 1
    ensures Neutral(SpellList(ps), d)
    decreases ps, 0
  {
    if ps == [] {
      NeutralPlain("", d);
    } else {
      NeutralParam(ps[0], d);
      if |ps| > 1 {
        NeutralList(ps[1..], d);
        NeutralPlain(",", d);
        NeutralConcat(",", SpellList(ps[1..]), d);
        NeutralConcat(SpellParam(ps[0]), "," + SpellList(ps[1..]), d);
      }
    }
  }

  function Spelled(ps: seq<Param>): seq<string> {
    if ps == [] then [] else [SpellParam(ps[0])] + Spelled(ps[1..])
  }

  lemma NameStarts(t: AbiType)
    requires Wf(t)
    ensures var s := Spell(t); s != "" && !IsSpace(s[0]) && !IsSpace(s[|s| - 1])
  {
  }

  lemma NotBlank(p: Param)
    requires Wf(p.ty)
    ensures !Blank(SpellParam(p))
  {
    NameStarts(p.ty);
    assert SpellParam(p)[|p.lead|] == Spell(p.ty)[0];
  }

  /** Splitting inverts joining: a declared list comes apart into its parameters. */
  lemma {:induction false} SplitJoins(ps: seq<Param>)
    requires WfParams(ps)
    ensures SplitFrom(SpellList(ps), 0, "") == Spelled(ps)
    decreases |ps|
  {
    if ps != [] {
      NeutralParam(ps[0], 0);
      NotBlank(ps[0]);
      if |ps| == 1 {
        CutLast(SpellParam(ps[0]));
      } else {
        CutFirst(SpellParam(ps[0]), SpellList(ps[1..]));
        SplitJoins(ps[1..]);
      }
    }
  }

  lemma CutLast(s: string)
    requires Uncut(s, 0) && !Blank(s)
    ensures SplitFrom(s, 0, "") == [s]
  {
    assert s + "" == s && "" + s == s;
    assert PassesOver(s, 0, "", "");
  }

  lemma CutFirst(s: string, rest: string)
    requires Uncut(s, 0)
    ensures SplitFrom(s + ("," + rest), 0, "") == [s] + SplitFrom(rest, 0, "")
  {
    assert "" + s == s && ("," + rest)[1..] == rest;
    assert PassesOver(s, 0, "," + rest, "");
  }

  // ---- white space ----

  lemma {:induction false} LStripBlank(b: string, s: string)
    requires Blank(b) && (s == "" || !IsSpace(s[0]))
    ensures LStrip(b + s) == s
    decreases |b|
  {
    if b == "" {
      assert b + s == s;
    } else {
      assert (b + s)[1..] == b[1..] + s;
      LStripBlank(b[1..], s);
    }
  }

  lemma {:induction false} RStripEnd(u: string, v: string)
    requires u != "" && !IsSpace(u[|u| - 1])
    ensures RStrip(u + v) == u + RStrip(v)
    decreases |v|
  {
    if v == "" {
      assert u + v == u;
    } else {
      assert (u + v)[|u + v| - 1] == v[|v| - 1];
      if IsSpace(v[|v| - 1]) {
        assert (u + v)[..|u + v| - 1] == u + v[..|v| - 1];
        RStripEnd(u, v[..|v| - 1]);
      }
    }
  }

  lemma {:induction false} RStripTail(v: string)
    requires IsTail(v)
    ensures IsTail(RStrip(v))
    decreases |v|
  {
    if v != "" && IsSpace(v[|v| - 1]) { RStripTail(v[..|v| - 1]); }
  }

  lemma {:induction false} FirstWordOf(u: string, v: string)
    requires (forall i :: 0 <= i < |u| ==> !IsSpace(u[i])) && (v == "" || IsSpace(v[0]))
    ensures UpToSpace(u + v) == u
    decreases |u|
  {
    if u == "" {
      assert u + v == v;
    } else {
      assert (u + v)[1..] == u[1..] + v;
      FirstWordOf(u[1..], v);
    }
  }

  /** What is left of a tail after stripping never looks like an array suffix. */
  lemma {:induction false} TailIsNoSuffix(v: string)
    requires forall i :: 0 <= i < |v| ==> IsWordChar(v[i]) || IsSpace(v[i])
    ensures !("[" <= Strip(v))
    decreases |v|
  {
    if v != "" && IsSpace(v[0]) {
      TailIsNoSuffix(v[1..]);
    } else {
      PrefixOfRStrip(v);
    }
  }

  lemma {:induction false} PrefixOfRStrip(v: string)
    ensures RStrip(v) <= v
    decreases |v|
  {
    if v != "" && IsSpace(v[|v| - 1]) { PrefixOfRStrip(v[..|v| - 1]); }
  }

  lemma StripParam(p: Param)
    requires Wf(p.ty) && Blank(p.lead) && IsTail(p.tail)
    ensures Strip(SpellParam(p)) == Spell(p.ty) + RStrip(p.tail) && IsTail(RStrip(p.tail))
  {
    NameStarts(p.ty);
    LStripBlank(p.lead, Spell(p.ty) + p.tail);
    RStripEnd(Spell(p.ty), p.tail);
    RStripTail(p.tail);
  }

  lemma SuffixOf(suffix: string, tail: string)
    requires IsSuffix(suffix) && IsTail(tail)
    ensures var rest := Strip(suffix + tail);
      (if StartsWith(rest, "[") then FirstWord(rest) else "") == suffix
  {
    if suffix == "" {
      assert suffix + tail == tail;
      TailIsNoSuffix(tail);
    } else {
      LStripBlank("", suffix + tail);
      assert "" + (suffix + tail) == suffix + tail;
      RStripEnd(suffix, tail);
      RStripTail(tail);
      FirstWordOf(suffix, RStrip(tail));
    }
  }

  // ---- type_of ----

  lemma TypeOfElem(p: Param)
    requires Wf(p.ty) && Blank(p.lead) && IsTail(p.tail) && p.ty.Elem?
    ensures TypeOf(SpellParam(p)) == Text(p.ty)
  {
    StripParam(p);
    var a := Spell(p.ty) + RStrip(p.tail);
    assert forall i :: 0 <= i < |a| ==> a[i] != '(';
    assert "tuple("[5] == '(';
    assert !StartsWith(a, "tuple(");
    FirstWordOf(Spell(p.ty), RStrip(p.tail));
  }

  lemma CloseOpening(inside: string)
    ensures CloseFrom("(" + inside, 0) == Shift(1, CloseFrom(inside, 1))
  {
    assert ("(" + inside)[1..] == inside;
  }

  lemma CloseTuple(inside: string)
    ensures CloseFrom("tuple(" + inside, 0) == Shift(6, CloseFrom(inside, 1))
  {
    CloseSkip("tuple", "(" + inside, 0);
    CloseOpening(inside);
    assert "tuple(" + inside == "tuple" + ("(" + inside);
  }

  lemma CloseNow(after: string)
    ensures CloseFrom(")" + after, 1) == Some(0)
  {
  }

  lemma FindsClose(list: string, after: string)
    requires SearchesOn(list, 1, ")" + after)
    ensures CloseFrom("tuple(" + (list + (")" + after)), 0) == Some(6 + |list|)
  {
    CloseTuple(list + (")" + after));
    CloseNow(after);
  }

  lemma TypeOfTuple(text: string, list: string, suffix: string, tail: string)
    requires Strip(text) == "tuple(" + (list + (")" + (suffix + tail)))
    requires Unclosed(list, 1) && IsSuffix(suffix) && IsTail(tail)
    ensures (forall p :: p in SplitFrom(list, 0, "") ==> |p| < |text|)
    ensures TypeOf(text) == "(" + Join(TypesOf(SplitFrom(list, 0, ""), |text|)) + ")" + suffix
  {
    var a := "tuple(" + (list + (")" + (suffix + tail)));
    assert SearchesOn(list, 1, ")" + (suffix + tail));
    FindsClose(list, suffix + tail);
    assert a[..6] == "tuple(" && a[6..6 + |list|] == list && a[6 + |list| + 1..] == suffix + tail;
    SuffixOf(suffix, tail);
  }

  /** `type_of` of a spelled parameter is the text of its type: no name, no white space, structs expanded. */
  lemma {:induction false} TypeOfSpelled(p: Param)
    requires Wf(p.ty) && Blank(p.lead) && IsTail(p.tail)
    ensures TypeOf(SpellParam(p)) == Text(p.ty)
    decreases p, 2
  {
    match p.ty
    case Elem(_, _) => TypeOfElem(p);
    case Tuple(cs, suffix) =>
      var list, tail := SpellList(cs), RStrip(p.tail);
      StripParam(p);
      assert Spell(p.ty) + tail == "tuple(" + (list + (")" + (suffix + tail)));
      NeutralList(cs, 1);
      SplitJoins(cs);
      TypeOfTuple(SpellParam(p), list, suffix, tail);
      TypesOfSpelled(cs, |SpellParam(p)|);
      JoinTexts(cs);
  }

  lemma {:induction false} TypesOfSpelled(ps: seq<Param>, bound: nat)
    requires WfParams(ps) && forall s :: s in Spelled(ps) ==> |s| < bound
    ensures TypesOf(Spelled(ps), bound) == Texts(ps)
    decreases ps, 0
  {
    if ps != [] {
      TypeOfSpelled(ps[0]);
      NotBlank(ps[0]);
      assert Spelled(ps)[1..] == Spelled(ps[1..]);
      TypesOfSpelled(ps[1..], bound);
    }
  }
}
