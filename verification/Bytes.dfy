/** Bytes, 32-byte big-endian words, and numbers modulo the field. */
module Bytes {
  import opened Division

  type Byte = n: int | 0 <= n < 256

  const FIELD_MODULUS: nat := 21888242871839275222246405745257275088548364400416034343698204186575808495617

  const WORD: nat := 32

  function Pow256(n: nat): (p: nat)
    ensures 0 < p
  {
    if n == 0 then 1 else 256 * Pow256(n - 1)
  }

  /** `v.to_bytes(n, "big")`, for `v` that fits. */
  function BigEndian(v: nat, n: nat): (s: seq<Byte>)
    ensures |s| == n
  {
    if n == 0 then [] else BigEndian(v / 256, n - 1) + [v % 256]
  }

  /** `int.from_bytes(s, "big")`. */
  function FromBigEndian(s: seq<Byte>): nat {
    if s == [] then 0 else FromBigEndian(s[..|s| - 1]) * 256 + s[|s| - 1]
  }

  lemma {:induction false} DecodeEncode(v: nat, n: nat)
    requires v < Pow256(n)
    ensures FromBigEndian(BigEndian(v, n)) == v
  {
    if n > 0 {
      DecodeEncode(v / 256, n - 1);
      assert BigEndian(v, n)[..n - 1] == BigEndian(v / 256, n - 1);
    }
  }

  lemma {:induction false} EncodeDecode(s: seq<Byte>)
    ensures BigEndian(FromBigEndian(s), |s|) == s && FromBigEndian(s) < Pow256(|s|)
  {
    if s != [] {
      var front := s[..|s| - 1];
      EncodeDecode(front);
      assert s == front + [s[|s| - 1]];
    }
  }

  predicate IsWord(v: nat) {
    v < Pow256(WORD)
  }

  ghost predicate AllWords(vs: seq<nat>) {
    forall i :: 0 <= i < |vs| ==> IsWord(vs[i])
  }

  /** The concatenation of the 32-byte encodings. */
  function Encode(vs: seq<nat>): (s: seq<Byte>)
    ensures |s| == WORD * |vs|
  {
    if vs == [] then [] else BigEndian(vs[0], WORD) + Encode(vs[1..])
  }

  /** `fields_of`: 32 bytes at a time; a last short chunk is read as it stands. */
  function FieldsOf(raw: seq<Byte>): seq<nat>
    decreases |raw|
  {
    if raw == [] then []
    else if |raw| <= WORD then [FromBigEndian(raw)]
    else [FromBigEndian(raw[..WORD])] + FieldsOf(raw[WORD..])
  }

  lemma {:induction false} FieldsOfEncode(vs: seq<nat>)
    requires AllWords(vs)
    ensures FieldsOf(Encode(vs)) == vs
    decreases |vs|
  {
    if vs != [] {
      var w, rest := BigEndian(vs[0], WORD), Encode(vs[1..]);
      DecodeEncode(vs[0], WORD);
      FieldsOfEncode(vs[1..]);
      assert (w + rest)[..WORD] == w && (w + rest)[WORD..] == rest;
      if |vs| == 1 { assert w + rest == w; }
    }
  }

  /** A last chunk: only a whole word is written back as it was read. */
  lemma LastChunk(raw: seq<Byte>)
    requires 0 < |raw| <= WORD
    ensures FieldsOf(raw) == [FromBigEndian(raw)] && IsWord(FromBigEndian(raw))
    ensures Encode(FieldsOf(raw)) == raw <==> |raw| == WORD
  {
    var v := FromBigEndian(raw);
    EncodeDecode(raw);
    Pow256Grows(|raw|, WORD);
    assert Encode([v]) == BigEndian(v, WORD) + Encode([]);
  }

  lemma FirstChunk(raw: seq<Byte>)
    requires WORD < |raw|
    ensures IsWord(FromBigEndian(raw[..WORD]))
    ensures Encode(FieldsOf(raw)) == raw[..WORD] + Encode(FieldsOf(raw[WORD..]))
  {
    EncodeDecode(raw[..WORD]);
    assert FieldsOf(raw)[1..] == FieldsOf(raw[WORD..]);
  }

  /** Re-encoding what was read gives the file back exactly when it is a whole number of words. */
  lemma {:induction false} EncodeFieldsOf(raw: seq<Byte>)
    ensures Encode(FieldsOf(raw)) == raw <==> |raw| % WORD == 0
    ensures AllWords(FieldsOf(raw))
    decreases |raw|
  {
    if 0 < |raw| <= WORD {
      LastChunk(raw);
    } else if raw != [] {
      var w, rest := raw[..WORD], raw[WORD..];
      EncodeFieldsOf(rest);
      FirstChunk(raw);
      assert raw == w + rest;
      assert (w + Encode(FieldsOf(rest)))[WORD..] == Encode(FieldsOf(rest));
    }
  }

  lemma {:induction false} Pow256Grows(m: nat, n: nat)
    requires m <= n
    ensures Pow256(m) <= Pow256(n)
    decreases n
  {
    if m < n { Pow256Grows(m, n - 1); }
  }

  /** Encoding is injective on words. */
  lemma EncodeInjective(xs: seq<nat>, ys: seq<nat>)
    requires AllWords(xs) && AllWords(ys) && Encode(xs) == Encode(ys)
    ensures xs == ys
  {
    FieldsOfEncode(xs);
    FieldsOfEncode(ys);
  }

  lemma {:induction false} EncodeAppend(xs: seq<nat>, ys: seq<nat>)
    ensures Encode(xs + ys) == Encode(xs) + Encode(ys)
    decreases |xs|
  {
    if xs == [] {
      assert xs + ys == ys;
    } else {
      assert (xs + ys)[1..] == xs[1..] + ys;
      EncodeAppend(xs[1..], ys);
    }
  }

  /** Reducing before a Horner step does not change its residue. */
  lemma ModStep(a: nat, d: nat, p: nat)
    requires 0 < p
    ensures ((a % p) * 256 + d) % p == (a * 256 + d) % p
  {
    var q, x := a / p, (a % p) * 256 + d;
    assert a == q * p + a % p;
    assert x == (x / p) * p + x % p;
    assert a * 256 + d == (q * 256) * p + x by { assert (q * p) * 256 == (q * 256) * p; }
    assert a * 256 + d == (q * 256 + x / p) * p + x % p;
    ModUnique(a * 256 + d, q * 256 + x / p, x % p, p);
  }
}
