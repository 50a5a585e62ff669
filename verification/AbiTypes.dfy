/** ABI types, how a declaration spells them, how a compiled artifact carries them, and the one
    canonical text both routes must reach. */
module AbiTypes {
  import opened Chars
  import opened AbiText

  /** `suffix` is the array part, such as `[]` or `[2][]`. */
  datatype AbiType =
    | Elem(name: string, suffix: string)
    | Tuple(components: seq<Param>, suffix: string)

  /** A declared parameter: white space before it, and after the type a name or modifiers. */
  datatype Param = Param(ty: AbiType, lead: string, tail: string)

  predicate IsSuffix(s: string) {
    && (s == "" || s[0] == '[')
    && forall i :: 0 <= i < |s| ==> s[i] == '[' || s[i] == ']' || IsDigit(s[i])
  }

  predicate IsName(s: string) {
    s != "" && (forall i :: 0 <= i < |s| ==> IsWordChar(s[i])) && !("tuple" <= s)
  }

  predicate IsTail(s: string) {
    && (s == "" || IsSpace(s[0]))
    && forall i :: 0 <= i < |s| ==> IsWordChar(s[i]) || IsSpace(s[i])
  }

  predicate Wf(t: AbiType) {
    match t
    case Elem(name, suffix) => IsName(name) && IsSuffix(suffix)
    case Tuple(cs, suffix) => IsSuffix(suffix) && WfParams(cs)
  }

  predicate WfParams(ps: seq<Param>) {
    forall i :: 0 <= i < |ps| ==> Wf(ps[i].ty) && Blank(ps[i].lead) && IsTail(ps[i].tail)
  }

  // ---- the declaration ----

  function Spell(t: AbiType): string {
    match t
    case Elem(name, suffix) => name + suffix
    case Tuple(cs, suffix) => "tuple(" + SpellList(cs) + ")" + suffix
  }

  function SpellParam(p: Param): string {
    p.lead + (Spell(p.ty) + p.tail)
  }

  function SpellList(ps: seq<Param>): string {
    if ps == [] then ""
    else if |ps| == 1 then SpellParam(ps[0])
    else SpellParam(ps[0]) + ("," + SpellList(ps[1..]))
  }

  // ---- the artifact ----

  /** A compiled ABI entry: the type string, and the components of a struct. */
  datatype Artifact = Artifact(ty: string, components: seq<Artifact>)

  /** `ty`: structs expanded, the suffix kept. */
  function TypeText(a: Artifact): string {
    if "tuple" <= a.ty then "(" + Join(TypeTexts(a.components)) + ")" + a.ty[5..] else a.ty
  }

  function TypeTexts(cs: seq<Artifact>): seq<string> {
    if cs == [] then [] else [TypeText(cs[0])] + TypeTexts(cs[1..])
  }

  /** The compiler writes the full names of `uint` and `int`. */
  function FullName(name: string): string {
    if name == "uint" then "uint256" else if name == "int" then "int256" else name
  }

  function Compile(t: AbiType): Artifact {
    match t
    case Elem(name, suffix) => Artifact(FullName(name) + suffix, [])
    case Tuple(cs, suffix) => Artifact("tuple" + suffix, CompileList(cs))
  }

  function CompileList(ps: seq<Param>): seq<Artifact> {
    if ps == [] then [] else [Compile(ps[0].ty)] + CompileList(ps[1..])
  }

  // ---- the canonical text ----

  function Rename(name: string, w: string, r: string): string {
    if name == w then r else name
  }

  /** The type with every element name `w` replaced by `r`, and with no parameter names. */
  function Renamed(t: AbiType, w: string, r: string): AbiType {
    match t
    case Elem(name, suffix) => Elem(Rename(name, w, r), suffix)
    case Tuple(cs, suffix) => Tuple(RenamedList(cs, w, r), suffix)
  }

  function RenamedList(ps: seq<Param>, w: string, r: string): seq<Param> {
    if ps == [] then [] else [Param(Renamed(ps[0].ty, w, r), "", "")] + RenamedList(ps[1..], w, r)
  }

  function Canonical(t: AbiType): AbiType {
    Renamed(Renamed(t, "uint", "uint256"), "int", "int256")
  }

  /** The selector text of a type, with the names it has. */
  function Text(t: AbiType): string {
    match t
    case Elem(name, suffix) => name + suffix
    case Tuple(cs, suffix) => "(" + TextList(cs) + ")" + suffix
  }

  function TextList(ps: seq<Param>): string {
    if ps == [] then ""
    else if |ps| == 1 then Text(ps[0].ty)
    else Text(ps[0].ty) + ("," + TextList(ps[1..]))
  }

  function Texts(ps: seq<Param>): seq<string> {
    if ps == [] then [] else [Text(ps[0].ty)] + Texts(ps[1..])
  }

  lemma {:induction false} JoinTexts(ps: seq<Param>)
    ensures Join(Texts(ps)) == TextList(ps) && |Texts(ps)| == |ps|
  {
    if ps != [] {
      JoinTexts(ps[1..]);
      if |ps| > 1 { assert Texts(ps)[1..] == Texts(ps[1..]); }
    }
  }
}
