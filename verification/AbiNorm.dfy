/** Normalising the text of a type is renaming its element names. */
module AbiNorm {
  import opened Chars
  import opened AbiText
  import opened AbiTypes

  predicate AllWordChars(s: string) {
    forall i :: 0 <= i < |s| ==> IsWordChar(s[i])
  }

  /** A word to replace: letters first, so it cannot start inside an array suffix. */
  predicate IsReplaceable(w: string) {
    w != "" && AllWordChars(w) && !IsDigit(w[0])
  }

  /** The word stands at the front, on its own. */
  predicate Hits(s: string, before: bool, w: string) {
    !before && w != "" && w <= s && (|s| == |w| || !IsWordChar(s[|w|]))
  }

  lemma SubStep(s: string, before: bool, w: string, r: string)
    requires s != ""
    ensures SubWord(s, before, w, r)
      == if Hits(s, before, w) then r + SubWord(s[|w|..], true, w, r)
         else [s[0]] + SubWord(s[1..], IsWordChar(s[0]), w, r)
  {
  }

  /** What comes after a non-word character does not matter to a word before it. */
  lemma HitsBefore(a: string, c: char, b: string, before: bool, w: string)
    requires a != "" && IsReplaceable(w) && !IsWordChar(c)
    ensures Hits(a + ([c] + b), before, w) <==> Hits(a, before, w)
    ensures (a + ([c] + b))[1..] == a[1..] + ([c] + b)
    ensures Hits(a, before, w) ==> (a + ([c] + b))[|w|..] == a[|w|..] + ([c] + b)
  {
    var s := a + ([c] + b);
    assert s[|a|] == c;
    assert |a| < |w| ==> IsWordChar(w[|a|]);
    assert w <= s <==> w <= a;
  }

  /** A non-word character separates the two sides of a substitution. */
  lemma {:induction false} SubSplit(a: string, c: char, b: string, before: bool, w: string, r: string)
    requires IsReplaceable(w) && !IsWordChar(c)
    ensures SubWord(a + ([c] + b), before, w, r) == SubWord(a, before, w, r) + ([c] + SubWord(b, false, w, r))
    decreases |a|
  {
    var s, tail := a + ([c] + b), [c] + SubWord(b, false, w, r);
    SubStep(s, before, w, r);
    if a == "" {
      assert s == [c] + b && s[1..] == b && "" + tail == tail;
    } else {
      HitsBefore(a, c, b, before, w);
      SubStep(a, before, w, r);
      if Hits(a, before, w) {
        SubSplit(a[|w|..], c, b, true, w, r);
        Regroup(r, SubWord(a[|w|..], true, w, r), tail);
      } else {
        SubSplit(a[1..], c, b, IsWordChar(a[0]), w, r);
        Regroup([a[0]], SubWord(a[1..], IsWordChar(a[0]), w, r), tail);
      }
    }
  }

  lemma {:induction false} SubInside(s: string, w: string, r: string)
    requires AllWordChars(s)
    ensures SubWord(s, true, w, r) == s
  {
    if s != "" { SubInside(s[1..], w, r); }
  }

  lemma SubWhole(s: string, w: string, r: string)
    requires AllWordChars(s) && IsReplaceable(w)
    ensures SubWord(s, false, w, r) == Rename(s, w, r)
  {
    if s == w {
      assert s[|w|..] == "";
    } else if s != "" {
      SubInside(s[1..], w, r);
    }
  }

  lemma {:induction false} SubAbsent(s: string, before: bool, w: string, r: string)
    requires w != "" && forall i :: 0 <= i < |s| ==> s[i] != w[0]
    ensures SubWord(s, before, w, r) == s
  {
    if s != "" { SubAbsent(s[1..], IsWordChar(s[0]), w, r); }
  }

  lemma SubElem(name: string, suffix: string, w: string, r: string)
    requires Wf(Elem(name, suffix)) && IsReplaceable(w)
    ensures SubWord(name + suffix, false, w, r) == Rename(name, w, r) + suffix
  {
    SubWhole(name, w, r);
    if suffix == "" {
      assert name + suffix == name && Rename(name, w, r) + suffix == Rename(name, w, r);
    } else {
      assert suffix == [suffix[0]] + suffix[1..];
      SubSplit(name, suffix[0], suffix[1..], false, w, r);
      SubAbsent(suffix[1..], false, w, r);
    }
  }

  lemma SubParens(list: string, suffix: string, w: string, r: string)
    requires IsReplaceable(w) && forall i :: 0 <= i < |suffix| ==> suffix[i] != w[0]
    ensures SubWord("(" + list + ")" + suffix, false, w, r) == "(" + SubWord(list, false, w, r) + ")" + suffix
  {
    var rest, sub := list + ([')'] + suffix), SubWord(list, false, w, r);
    assert "(" + list + ")" + suffix == "" + (['('] + rest);
    SubSplit("", '(', rest, false, w, r);
    SubSplit(list, ')', suffix, false, w, r);
    SubAbsent(suffix, false, w, r);
    assert "" + (['('] + (sub + ([')'] + suffix))) == "(" + sub + ")" + suffix;
  }

  lemma {:induction false} SubText(t: AbiType, w: string, r: string)
    requires Wf(t) && IsReplaceable(w)
    ensures SubWord(Text(t), false, w, r) == Text(Renamed(t, w, r))
    decreases t, 1
  {
    match t
    case Elem(name, suffix) =>
      SubElem(name, suffix, w, r);
    case Tuple(cs, suffix) =>
      SubTextList(cs, w, r);
      SubParens(TextList(cs), suffix, w, r);
  }

  lemma {:induction false} SubTextList(ps: seq<Param>, w: string, r: string)
    requires WfParams(ps) && IsReplaceable(w)
    ensures SubWord(TextList(ps), false, w, r) == TextList(RenamedList(ps, w, r))
    ensures |RenamedList(ps, w, r)| == |ps|
    decreases ps, 0
  {
    if ps != [] {
      SubText(ps[0].ty, w, r);
      SubTextList(ps[1..], w, r);
      if |ps| > 1 {
        SubSplit(Text(ps[0].ty), ',', TextList(ps[1..]), false, w, r);
        assert RenamedList(ps, w, r)[1..] == RenamedList(ps[1..], w, r);
      }
    }
  }

  lemma {:induction false} RenamedWf(t: AbiType, w: string, r: string)
    requires Wf(t) && IsName(r)
    ensures Wf(Renamed(t, w, r))
    decreases t, 1
  {
    if t.Tuple? { RenamedListWf(t.components, w, r); }
  }

  lemma {:induction false} RenamedListWf(ps: seq<Param>, w: string, r: string)
    requires WfParams(ps) && IsName(r)
    ensures WfParams(RenamedList(ps, w, r))
    decreases ps, 0
  {
    if ps != [] {
      RenamedWf(ps[0].ty, w, r);
      RenamedListWf(ps[1..], w, r);
    }
  }

  predicate NoSpaces(s: string) {
    forall i :: 0 <= i < |s| ==> !IsSpace(s[i])
  }

  lemma {:induction false} TextHasNoSpaces(t: AbiType)
    requires Wf(t)
    ensures NoSpaces(Text(t))
    decreases t, 1
  {
    if t.Tuple? { TextListHasNoSpaces(t.components); }
  }

  lemma {:induction false} TextListHasNoSpaces(ps: seq<Param>)
    requires WfParams(ps)
    ensures NoSpaces(TextList(ps))
    decreases ps, 0
  {
    if ps != [] {
      TextHasNoSpaces(ps[0].ty);
      TextListHasNoSpaces(ps[1..]);
    }
  }

  lemma {:induction false} DropNothing(s: string)
    requires NoSpaces(s)
    ensures DropSpaces(s) == s && Strip(s) == s
  {
    if s != "" { DropNothing(s[1..]); }
  }

  lemma TheWords()
    ensures IsReplaceable("uint") && IsReplaceable("int") && IsName("uint256") && IsName("int256")
  {
    assert "uint256"[0] == 'u' && "int256"[0] == 'i';
  }

  /** Normalising the text of any type gives the text of its canonical form. */
  lemma NormIsCanonical(t: AbiType)
    requires Wf(t)
    ensures Norm(Text(t)) == Text(Canonical(t))
  {
    var u := Renamed(t, "uint", "uint256");
    TheWords();
    TextHasNoSpaces(t);
    DropNothing(Text(t));
    SubText(t, "uint", "uint256");
    RenamedWf(t, "uint", "uint256");
    SubText(u, "int", "int256");
    RenamedWf(u, "int", "int256");
    TextHasNoSpaces(Canonical(t));
    DropNothing(Text(Canonical(t)));
  }

  lemma {:induction false} CanonicalTwice(t: AbiType)
    ensures Canonical(Canonical(t)) == Canonical(t)
    decreases t, 1
  {
    if t.Tuple? { CanonicalListTwice(t.components); }
  }

  function CanonicalList(ps: seq<Param>): seq<Param> {
    RenamedList(RenamedList(ps, "uint", "uint256"), "int", "int256")
  }

  lemma CanonicalListStep(ps: seq<Param>)
    requires ps != []
    ensures CanonicalList(ps) == [Param(Canonical(ps[0].ty), "", "")] + CanonicalList(ps[1..])
  {
  }

  lemma {:induction false} CanonicalListTwice(ps: seq<Param>)
    ensures CanonicalList(CanonicalList(ps)) == CanonicalList(ps)
    decreases ps, 0
  {
    if ps != [] {
      CanonicalTwice(ps[0].ty);
      CanonicalListTwice(ps[1..]);
      CanonicalListStep(ps);
      CanonicalListStep(CanonicalList(ps));
    }
  }

  lemma NotATuple(name: string, suffix: string)
    requires IsName(name) && IsSuffix(suffix)
    ensures !("tuple" <= FullName(name) + suffix)
  {
    var f := FullName(name);
    var s := f + suffix;
    if |f| < 5 {
      assert |s| >= 5 ==> s[|f|] == '[';
      assert forall i :: 0 <= i < 5 ==> "tuple"[i] != '[';
    } else {
      assert s[..5] == f[..5];
      assert "uint256"[0] == 'u' && "int256"[0] == 'i';
    }
  }

  /** The artifact route reaches the canonical text directly. */
  lemma {:induction false} ArtifactIsCanonical(t: AbiType)
    requires Wf(t)
    ensures TypeText(Compile(t)) == Text(Canonical(t))
    decreases t, 1
  {
    match t
    case Elem(name, suffix) => NotATuple(name, suffix);
    case Tuple(cs, suffix) =>
      ArtifactListIsCanonical(cs);
      JoinTexts(CanonicalList(cs));
      assert ("tuple" + suffix)[5..] == suffix;
  }

  lemma {:induction false} ArtifactListIsCanonical(ps: seq<Param>)
    requires WfParams(ps)
    ensures TypeTexts(CompileList(ps)) == Texts(CanonicalList(ps))
    decreases ps, 0
  {
    if ps != [] {
      ArtifactIsCanonical(ps[0].ty);
      ArtifactListIsCanonical(ps[1..]);
      CanonicalListStep(ps);
    }
  }

  lemma {:induction false} CanonicalWf(t: AbiType)
    requires Wf(t)
    ensures Wf(Canonical(t))
  {
    TheWords();
    RenamedWf(t, "uint", "uint256");
    RenamedWf(Renamed(t, "uint", "uint256"), "int", "int256");
  }

  /** `norm(ty(...))` of the compiled type is the canonical text. */
  lemma ArtifactRoute(t: AbiType)
    requires Wf(t)
    ensures Norm(TypeText(Compile(t))) == Text(Canonical(t))
  {
    ArtifactIsCanonical(t);
    CanonicalWf(t);
    NormIsCanonical(Canonical(t));
    CanonicalTwice(t);
  }
}
