/** Characters and strings, as both text tools see them. */
module Chars {

  /** The ASCII white space of `str.strip` and of `\s`. */
  predicate IsSpace(c: char) {
    c == ' ' || '\t' <= c <= '\r'
  }

  lemma Regroup(a: string, b: string, c: string)
    ensures a + (b + c) == (a + b) + c && "" + a == a && a + "" == a
  {
  }
}
