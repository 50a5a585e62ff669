/** The two routes meet, and they meet only for the same types: a declared signature equals a
    compiled one exactly when the name and the canonical argument types are the same. */
module AbiAgreement {
  import opened AbiText
  import opened AbiTypes
  import opened AbiNorm
  import opened AbiDeclared

  function NormedTypes(pieces: seq<string>): seq<string> {
    if pieces == [] then []
    else
      (if Blank(pieces[0]) then [] else [Norm(TypeOf(pieces[0]))]) + NormedTypes(pieces[1..])
  }

  /** The key of a declared function: `name(args)` as it stands in the client. */
  function DeclaredKey(name: string, args: string): string {
    name + ("(" + (Join(NormedTypes(SplitFrom(args, 0, ""))) + ")"))
  }

  function NormedTexts(inputs: seq<Artifact>): seq<string> {
    if inputs == [] then [] else [Norm(TypeText(inputs[0]))] + NormedTexts(inputs[1..])
  }

  /** `sig_from_artifact`. */
  function ArtifactKey(name: string, inputs: seq<Artifact>): string {
    name + ("(" + (Join(NormedTexts(inputs)) + ")"))
  }

  /** One argument: both routes give the canonical text of its type. */
  lemma RoutesAgree(p: Param)
    requires Wf(p.ty) && Blank(p.lead) && IsTail(p.tail)
    ensures Norm(TypeOf(SpellParam(p))) == Norm(TypeText(Compile(p.ty))) == Text(Canonical(p.ty))
  {
    TypeOfSpelled(p);
    NormIsCanonical(p.ty);
    ArtifactRoute(p.ty);
  }

  lemma {:induction false} ListsAgree(ps: seq<Param>)
    requires WfParams(ps)
    ensures NormedTypes(Spelled(ps)) == NormedTexts(CompileList(ps)) == Texts(CanonicalList(ps))
    decreases |ps|
  {
    if ps != [] {
      RoutesAgree(ps[0]);
      NotBlank(ps[0]);
      ListsAgree(ps[1..]);
      CanonicalListStep(ps);
    }
  }

  /** For every argument list (nested tuples, arrays, any names and white space, aliases), the
      declared signature and the signature of its compiled form are one string. */
  lemma SignaturesAgree(name: string, ps: seq<Param>)
    requires WfParams(ps)
    ensures DeclaredKey(name, SpellList(ps)) == ArtifactKey(name, CompileList(ps))
    ensures DeclaredKey(name, SpellList(ps)) == name + ("(" + (TextList(CanonicalList(ps)) + ")"))
  {
    SplitJoins(ps);
    ListsAgree(ps);
    JoinTexts(CanonicalList(ps));
  }

  // ---- unique readability ----

  /** No parameter names anywhere. */
  predicate Bare(t: AbiType) {
    t.Tuple? ==> BareList(t.components)
  }

  predicate BareList(ps: seq<Param>) {
    forall i :: 0 <= i < |ps| ==> ps[i].lead == "" && ps[i].tail == "" && Bare(ps[i].ty)
  }

  predicate IsDelimiter(c: char) {
    c == ',' || c == '(' || c == ')'
  }

  predicate Atom(s: string) {
    forall i :: 0 <= i < |s| ==> !IsDelimiter(s[i])
  }

  /** What may follow a type. */
  predicate Follows(r: string) {
    r == "" || r[0] == ',' || r[0] == ')'
  }

  lemma {:induction false} AtomsSplit(a: string, b: string, r: string, r': string)
    requires Atom(a) && Atom(b) && Follows(r) && Follows(r') && a + r == b + r'
    ensures a == b && r == r'
    decreases |a|
  {
    if a == "" || b == "" {
      assert a + r == r || b + r' == r';
    } else {
      assert (a + r)[0] == a[0] && (b + r')[0] == b[0];
      assert (a + r)[1..] == a[1..] + r && (b + r')[1..] == b[1..] + r';
      AtomsSplit(a[1..], b[1..], r, r');
      assert a == [a[0]] + a[1..] && b == [b[0]] + b[1..];
    }
  }

  lemma NameIsLonger(n: string, s: string, n': string, s': string)
    requires IsName(n') && IsSuffix(s) && n + s == n' + s'
    ensures |n'| <= |n|
  {
    var w := n + s;
    assert forall i :: 0 <= i < |n'| ==> IsWordChar(w[i]);
    assert |n| < |w| ==> w[|n|] == '[';
  }

  lemma NamesSplit(n: string, s: string, n': string, s': string)
    requires IsName(n) && IsName(n') && IsSuffix(s) && IsSuffix(s') && n + s == n' + s'
    ensures n == n' && s == s'
  {
    var w := n + s;
    NameIsLonger(n, s, n', s');
    NameIsLonger(n', s', n, s);
    assert w[..|n|] == n && w[..|n|] == n' && w[|n|..] == s && w[|n|..] == s';
  }

  lemma TextStarts(t: AbiType)
    requires Wf(t)
    ensures Text(t) != "" && (Text(t)[0] == '(' <==> t.Tuple?) && (t.Elem? ==> Atom(Text(t)))
    ensures !Follows(Text(t))
  {
  }

  lemma TupleUnfolds(cs: seq<Param>, suffix: string, r: string)
    ensures var s := Text(Tuple(cs, suffix)) + r;
      s != "" && s[1..] == TextList(cs) + (")" + (suffix + r))
  {
  }

  lemma {:induction false} TextsSplit(t: AbiType, u: AbiType, r: string, r': string)
    requires Wf(t) && Wf(u) && Bare(t) && Bare(u) && Follows(r) && Follows(r') && Text(t) + r == Text(u) + r'
    ensures t == u && r == r'
    decreases t, 1
  {
    TextStarts(t);
    TextStarts(u);
    assert Text(t)[0] == (Text(t) + r)[0] && Text(u)[0] == (Text(u) + r')[0];
    if t.Elem? {
      AtomsSplit(Text(t), Text(u), r, r');
      NamesSplit(t.name, t.suffix, u.name, u.suffix);
    } else {
      TupleUnfolds(t.components, t.suffix, r);
      TupleUnfolds(u.components, u.suffix, r');
      var x, y := t.suffix + r, u.suffix + r';
      ListsSplit(t.components, u.components, ")" + x, ")" + y);
      assert (")" + x)[1..] == x && (")" + y)[1..] == y;
      AtomsSplit(t.suffix, u.suffix, r, r');
    }
  }

  /** The rest after the first element of a list. */
  function AfterFirst(ps: seq<Param>, x: string): string
    requires ps != []
  {
    if |ps| == 1 then x else "," + (TextList(ps[1..]) + x)
  }

  lemma ListUnfolds(ps: seq<Param>, x: string)
    requires ps != []
    ensures TextList(ps) + x == Text(ps[0].ty) + AfterFirst(ps, x)
  {
    if |ps| > 1 {
      assert Text(ps[0].ty) + ("," + TextList(ps[1..])) + x == Text(ps[0].ty) + ("," + (TextList(ps[1..]) + x));
    }
  }

  lemma {:induction false} ListsSplit(ps: seq<Param>, qs: seq<Param>, x: string, y: string)
    requires WfParams(ps) && WfParams(qs) && BareList(ps) && BareList(qs)
    requires x != "" && y != "" && x[0] == y[0] == ')' && TextList(ps) + x == TextList(qs) + y
    ensures ps == qs && x == y
    decreases ps, 0
  {
    if ps == [] || qs == [] {
      EmptyList(ps, qs, x, y);
    } else {
      ListUnfolds(ps, x);
      ListUnfolds(qs, y);
      FirstFollows(ps, x);
      FirstFollows(qs, y);
      TextsSplit(ps[0].ty, qs[0].ty, AfterFirst(ps, x), AfterFirst(qs, y));
      SameRest(ps, qs, x, y);
      if |ps| > 1 {
        ListsSplit(ps[1..], qs[1..], x, y);
        assert ps == [ps[0]] + ps[1..] && qs == [qs[0]] + qs[1..];
      }
    }
  }

  lemma FirstFollows(ps: seq<Param>, x: string)
    requires ps != [] && x != "" && x[0] == ')'
    ensures Follows(AfterFirst(ps, x))
  {
  }

  /** What follows the first elements agrees, so both lists go on or neither does. */
  lemma SameRest(ps: seq<Param>, qs: seq<Param>, x: string, y: string)
    requires ps != [] && qs != [] && x != "" && y != "" && x[0] == y[0] == ')' && AfterFirst(ps, x) == AfterFirst(qs, y)
    ensures |ps| == 1 <==> |qs| == 1
    ensures |ps| == 1 ==> x == y
    ensures |ps| > 1 ==> TextList(ps[1..]) + x == TextList(qs[1..]) + y
  {
    var a, b := AfterFirst(ps, x), AfterFirst(qs, y);
    assert a[0] == b[0];
    if |ps| > 1 && |qs| > 1 {
      assert a[1..] == TextList(ps[1..]) + x && b[1..] == TextList(qs[1..]) + y;
    }
  }

  lemma EmptyList(ps: seq<Param>, qs: seq<Param>, x: string, y: string)
    requires WfParams(ps) && WfParams(qs) && (ps == [] || qs == [])
    requires x != "" && y != "" && x[0] == y[0] == ')' && TextList(ps) + x == TextList(qs) + y
    ensures ps == qs && x == y
  {
    assert "" + x == x && "" + y == y;
    if ps != [] {
      ListUnfolds(ps, x);
      TextStarts(ps[0].ty);
    }
    if qs != [] {
      ListUnfolds(qs, y);
      TextStarts(qs[0].ty);
    }
  }

  lemma {:induction false} RenamedBare(t: AbiType, w: string, r: string)
    ensures Bare(Renamed(t, w, r))
    decreases t, 1
  {
    if t.Tuple? { RenamedListBare(t.components, w, r); }
  }

  lemma {:induction false} RenamedListBare(ps: seq<Param>, w: string, r: string)
    ensures BareList(RenamedList(ps, w, r))
    decreases ps, 0
  {
    if ps != [] {
      RenamedBare(ps[0].ty, w, r);
      RenamedListBare(ps[1..], w, r);
    }
  }

  lemma CanonicalListWf(ps: seq<Param>)
    requires WfParams(ps)
    ensures WfParams(CanonicalList(ps)) && BareList(CanonicalList(ps))
  {
    var qs := RenamedList(ps, "uint", "uint256");
    TheWords();
    RenamedListWf(ps, "uint", "uint256");
    RenamedListWf(qs, "int", "int256");
    RenamedListBare(qs, "int", "int256");
  }

  lemma {:induction false} NamePart(n: string, n': string, x: string, y: string)
    requires AllWordChars(n) && AllWordChars(n') && n + ("(" + x) == n' + ("(" + y)
    ensures n == n' && x == y
  {
    var w := n + ("(" + x);
    assert w[|n|] == '(' && w[|n'|] == '(';
    assert w[..|n|] == n && w[..|n|] == n' && w[|n| + 1..] == x && w[|n| + 1..] == y;
  }

  /** The gate has no blind spot on arguments: a declared signature matches a compiled one if and
      only if the name is the same and so are the canonical argument types, in order. */
  lemma MatchMeansSameTypes(name: string, ps: seq<Param>, name': string, qs: seq<Param>)
    requires WfParams(ps) && WfParams(qs) && AllWordChars(name) && AllWordChars(name')
    ensures DeclaredKey(name, SpellList(ps)) == ArtifactKey(name', CompileList(qs))
      <==> name == name' && CanonicalList(ps) == CanonicalList(qs)
  {
    SignaturesAgree(name, ps);
    SignaturesAgree(name', qs);
    if DeclaredKey(name, SpellList(ps)) == ArtifactKey(name', CompileList(qs)) {
      CanonicalListWf(ps);
      CanonicalListWf(qs);
      NamePart(name, name', TextList(CanonicalList(ps)) + ")", TextList(CanonicalList(qs)) + ")");
      ListsSplit(CanonicalList(ps), CanonicalList(qs), ")", ")");
    }
  }
}
