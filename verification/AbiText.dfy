/** The text side of the signature check: splitting an argument list, reading one declared
    argument's type, and normalising a type. */
module AbiText {
  import opened Chars
  import opened Wrappers

  predicate IsDigit(c: char) {
    '0' <= c <= '9'
  }

  predicate IsWordChar(c: char) {
    'a' <= c <= 'z' || 'A' <= c <= 'Z' || IsDigit(c) || c == '_'
  }

  predicate Blank(s: string) {
    forall i :: 0 <= i < |s| ==> IsSpace(s[i])
  }

  function LStrip(s: string): (r: string)
    ensures |r| <= |s|
  {
    if s != "" && IsSpace(s[0]) then LStrip(s[1..]) else s
  }

  function RStrip(s: string): (r: string)
    ensures |r| <= |s|
  {
    if s != "" && IsSpace(s[|s| - 1]) then RStrip(s[..|s| - 1]) else s
  }

  function Strip(s: string): (r: string)
    ensures |r| <= |s|
  {
    RStrip(LStrip(s))
  }

  function UpToSpace(s: string): string {
    if s == "" || IsSpace(s[0]) then "" else [s[0]] + UpToSpace(s[1..])
  }

  /** `s.split()[0]`. */
  function FirstWord(s: string): string {
    UpToSpace(LStrip(s))
  }

  function Join(parts: seq<string>): string {
    if parts == [] then "" else if |parts| == 1 then parts[0] else parts[0] + "," + Join(parts[1..])
  }

  function Delta(c: char): int {
    if c == '(' then 1 else if c == ')' then -1 else 0
  }

  // ---- split_args ----

  /** Cut at the commas outside every parenthesis; a blank last piece is dropped. */
  function SplitFrom(s: string, depth: int, cur: string): (r: seq<string>)
    ensures forall p :: p in r ==> |p| <= |cur| + |s|
    decreases |s|
  {
    if s == "" then (if Blank(cur) then [] else [cur])
    else
      var d := depth + Delta(s[0]);
      if s[0] == ',' && d == 0 then [cur] + SplitFrom(s[1..], d, "")
      else SplitFrom(s[1..], d, cur + [s[0]])
  }

  /** What one character does: a top-level comma ends the current piece, any other joins it. */
  lemma SplitStep(s: string, i: nat, depth: int, out: seq<string>, cur: string)
    requires i < |s|
    ensures
      var d := depth + Delta(s[i]);
      var rest := s[i + 1..];
      out + SplitFrom(s[i..], depth, cur)
      == if s[i] == ',' && d == 0 then (out + [cur]) + SplitFrom(rest, d, "")
         else out + SplitFrom(rest, d, cur + [s[i]])
  {
    var d := depth + Delta(s[i]);
    assert s[i..][1..] == s[i + 1..];
    var tail := SplitFrom(s[i + 1..], d, "");
    assert out + ([cur] + tail) == (out + [cur]) + tail;
  }

  method SplitArgs(s: string) returns (out: seq<string>)
    ensures out == SplitFrom(s, 0, "")
  {
    out := [];
    var depth, cur := 0, "";
    assert s[0..] == s;
    for i := 0 to |s|
      invariant out + SplitFrom(s[i..], depth, cur) == SplitFrom(s, 0, "")
    {
      var ch := s[i];
      SplitStep(s, i, depth, out, cur);
      if ch == '(' { depth := depth + 1; } else if ch == ')' { depth := depth - 1; }
      if ch == ',' && depth == 0 {
        out, cur := out + [cur], "";
      } else {
        cur := cur + [ch];
      }
    }
    if !Blank(cur) { out := out + [cur]; }
  }

  // ---- type_of ----

  /** Where the depth first returns to zero, counting from `depth`. */
  function CloseFrom(s: string, depth: int): (r: Option<nat>)
    ensures r.Some? ==> r.value < |s|
    decreases |s|
  {
    if s == "" then None
    else if s[0] == ')' && depth == 1 then Some(0)
    else
      match CloseFrom(s[1..], depth + Delta(s[0]))
      case Some(i) => Some(i + 1)
      case None => None
  }

  method ClosingParen(a: string) returns (r: Option<nat>)
    ensures r == CloseFrom(a, 0)
  {
    var depth := 0;
    assert a[0..] == a;
    for i := 0 to |a|
      invariant CloseFrom(a, 0) == match CloseFrom(a[i..], depth) case Some(j) => Some(i + j) case None => None
    {
      assert a[i..][1..] == a[i + 1..];
      if a[i] == '(' {
        depth := depth + 1;
      } else if a[i] == ')' {
        depth := depth - 1;
        if depth == 0 { return Some(i); }
      }
    }
    r := None;
  }

  predicate StartsWith(s: string, p: string) {
    p <= s
  }

  /** The type of one declared argument: names dropped, structs expanded, array suffix kept. */
  function TypeOf(text: string): string
    decreases |text|, 1, 0
  {
    var a := Strip(text);
    if StartsWith(a, "tuple(") && CloseFrom(a, 0).Some? && CloseFrom(a, 0).value >= 6 then
      var i := CloseFrom(a, 0).value;
      var rest := Strip(a[i + 1..]);
      "(" + Join(TypesOf(SplitFrom(a[6..i], 0, ""), |text|)) + ")"
      + (if StartsWith(rest, "[") then FirstWord(rest) else "")
    else FirstWord(a)
  }

  function TypesOf(pieces: seq<string>, bound: nat): seq<string>
    requires forall p :: p in pieces ==> |p| < bound
    decreases bound, 0, |pieces|
  {
    if pieces == [] then []
    else
      (if Blank(pieces[0]) then [] else [TypeOf(pieces[0])]) + TypesOf(pieces[1..], bound)
  }

  // ---- norm ----

  /** One `re.sub` of a whole word: `before` says whether a word character stands just before. */
  function SubWord(s: string, before: bool, w: string, r: string): string
    decreases |s|
  {
    if s == "" then ""
    else if !before && w != "" && w <= s && (|s| == |w| || !IsWordChar(s[|w|])) then
      r + SubWord(s[|w|..], true, w, r)
    else [s[0]] + SubWord(s[1..], IsWordChar(s[0]), w, r)
  }

  function DropSpaces(s: string): string {
    if s == "" then "" else (if IsSpace(s[0]) then "" else [s[0]]) + DropSpaces(s[1..])
  }

  function Norm(t: string): string {
    DropSpaces(SubWord(SubWord(Strip(t), false, "uint", "uint256"), false, "int", "int256"))
  }
}
