/** One commitment, computed twice: by the host over a concatenation of words, and by the
    circuits over a byte array they fill themselves. The hash is a parameter. */
module Commitment {
  import opened Bytes

  const PUB_LEN: nat := 8

  /** Any function from payloads to 32-byte digests. */
  type Hash = seq<Byte> -> seq<Byte>

  /** `keccak_fold`: the digest as a number, modulo the field. */
  function Fold(h: Hash, payload: seq<Byte>): (v: nat)
    ensures v < FIELD_MODULUS
  {
    FromBigEndian(h(payload)) % FIELD_MODULUS
  }

  /** The host's leaf commitment over two members' signals. */
  function LeafCommitment(h: Hash, left: seq<nat>, right: seq<nat>): nat {
    Fold(h, Encode(left + right))
  }

  /** The host's node commitment over two child commitments. */
  function NodeCommitment(h: Hash, left: nat, right: nat): nat {
    Fold(h, Encode([left]) + Encode([right]))
  }

  /** The inner loop of the leaf circuit: one word of each side, byte by byte. */
  method WriteWords(bytes: array<Byte>, i: nat, j: nat, l: seq<Byte>, r: seq<Byte>)
    requires |l| == |r| == WORD && i + WORD <= j && j + WORD <= bytes.Length
    modifies bytes
    ensures bytes[..i] == old(bytes[..i]) && bytes[i..i + WORD] == l
    ensures bytes[i + WORD..j] == old(bytes[i + WORD..j]) && bytes[j..j + WORD] == r
  {
    for k := 0 to WORD
      invariant bytes[..i] == old(bytes[..i]) && bytes[i..i + k] == l[..k]
      invariant bytes[i + WORD..j] == old(bytes[i + WORD..j]) && bytes[j..j + k] == r[..k]
    {
      bytes[i + k] := l[k];
      bytes[j + k] := r[k];
    }
  }

  lemma WordsAppended(was: seq<Byte>, now: seq<Byte>, l: seq<Byte>, r: seq<Byte>, a: nat, half: nat)
    requires |was| == |now| == 2 * half && |l| == |r| == WORD && a + WORD <= half
    requires now[..a] == was[..a] && now[a..a + WORD] == l
    requires now[a + WORD..half + a] == was[a + WORD..half + a] && now[half + a..half + a + WORD] == r
    ensures now[..a + WORD] == was[..a] + l
    ensures now[half..half + a + WORD] == was[half..half + a] + r
  {
    var skip := half - (a + WORD);
    assert now[..a + WORD] == now[..a] + now[a..a + WORD];
    assert now[half..half + a] == now[a + WORD..half + a][skip..];
    assert was[half..half + a] == was[a + WORD..half + a][skip..];
    assert now[half..half + a + WORD] == now[half..half + a] + now[half + a..half + a + WORD];
  }

  /** The byte array of the leaf circuit. */
  method LeafBytes(left: seq<nat>, right: seq<nat>) returns (bytes: array<Byte>)
    requires |left| == |right| == PUB_LEN
    ensures fresh(bytes) && bytes[..] == Encode(left + right)
  {
    var half := PUB_LEN * WORD;
    bytes := new Byte[2 * half](_ => 0);
    for j := 0 to PUB_LEN
      invariant bytes.Length == 2 * half && fresh(bytes)
      invariant bytes[..j * WORD] == Encode(left[..j])
      invariant bytes[half..half + j * WORD] == Encode(right[..j])
    {
      ghost var was := bytes[..];
      var l, r := BigEndian(left[j], WORD), BigEndian(right[j], WORD);
      WriteWords(bytes, j * WORD, half + j * WORD, l, r);
      WordsAppended(was, bytes[..], l, r, j * WORD, half);
      EncodeSnoc(left, j);
      EncodeSnoc(right, j);
    }
    assert left[..PUB_LEN] == left && right[..PUB_LEN] == right;
    EncodeAppend(left, right);
    assert bytes[..] == bytes[..half] + bytes[half..2 * half];
  }

  lemma EncodeSnoc(vs: seq<nat>, j: nat)
    requires j < |vs|
    ensures Encode(vs[..j + 1]) == Encode(vs[..j]) + BigEndian(vs[j], WORD)
  {
    assert vs[..j + 1] == vs[..j] + [vs[j]];
    EncodeAppend(vs[..j], [vs[j]]);
    assert Encode([vs[j]]) == BigEndian(vs[j], WORD) + Encode([]);
  }

  /** The loop of the internal circuit. */
  method NodeBytes(left: nat, right: nat) returns (bytes: array<Byte>)
    ensures fresh(bytes) && bytes[..] == Encode([left]) + Encode([right])
  {
    bytes := new Byte[2 * WORD](_ => 0);
    var l, r := BigEndian(left, WORD), BigEndian(right, WORD);
    for k := 0 to WORD
      invariant bytes.Length == 2 * WORD
      invariant bytes[..k] == l[..k] && bytes[WORD..WORD + k] == r[..k]
    {
      bytes[k] := l[k];
      bytes[WORD + k] := r[k];
    }
    assert Encode([left]) == l + Encode([]) && Encode([right]) == r + Encode([]);
    assert bytes[..] == bytes[..WORD] + bytes[WORD..];
  }

  /** The circuits accumulate the digest in the field: every step is reduced. */
  method Horner(digest: seq<Byte>) returns (acc: nat)
    ensures acc == FromBigEndian(digest) % FIELD_MODULUS
  {
    acc := 0;
    for k := 0 to |digest|
      invariant acc == FromBigEndian(digest[..k]) % FIELD_MODULUS
    {
      assert digest[..k + 1][..k] == digest[..k];
      ModStep(FromBigEndian(digest[..k]), digest[k], FIELD_MODULUS);
      acc := (acc * 256 + digest[k]) % FIELD_MODULUS;
    }
    assert digest[..|digest|] == digest;
  }

  /** The leaf circuit's commitment check passes exactly on the host's value. */
  method LeafCheck(h: Hash, left: seq<nat>, right: seq<nat>, commitment: nat) returns (ok: bool)
    requires |left| == |right| == PUB_LEN
    ensures ok <==> commitment == LeafCommitment(h, left, right)
  {
    var bytes := LeafBytes(left, right);
    var acc := Horner(h(bytes[..]));
    ok := acc == commitment;
  }

  method NodeCheck(h: Hash, left: nat, right: nat, commitment: nat) returns (ok: bool)
    ensures ok <==> commitment == NodeCommitment(h, left, right)
  {
    var bytes := NodeBytes(left, right);
    var acc := Horner(h(bytes[..]));
    ok := acc == commitment;
  }
}
