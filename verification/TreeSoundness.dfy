/** What an accepted root proof is worth. The proof system and the hash are parameters: of the
    first only that an accepted proof has a satisfying witness (and, for the converse, that a
    satisfying witness has a proof) is used; of the second nothing at all. */
module TreeSoundness {
  import opened Bytes
  import opened Commitment
  import opened RecursionTree

  type Proof = seq<nat>

  datatype System = System(
    keyOf: KeyGen, withdrawKey: VerificationKey, accepts: (VerificationKey, Proof, seq<nat>) -> bool)

  datatype Witness = Witness(leftProof: Proof, rightProof: Proof, left: seq<nat>, right: seq<nat>)

  ghost predicate AllFields(vs: seq<nat>) {
    forall i :: 0 <= i < |vs| ==> vs[i] < FIELD_MODULUS
  }

  /** The constraints of the two circuit templates: both children verify under the PINNED key and
      the single public input is the commitment over what they expose. */
  ghost predicate Satisfies(sys: System, k: Committer, c: Circuit, pubs: seq<nat>, w: Witness) {
    && AllFields(w.left) && AllFields(w.right)
    && sys.accepts(c.child, w.leftProof, w.left) && sys.accepts(c.child, w.rightProof, w.right)
    && match c
       case LeafCircuit(_) => |w.left| == |w.right| == PUB_LEN && pubs == [k.leaf(w.left, w.right)]
       case NodeCircuit(_, _) => |w.left| == |w.right| == 1 && pubs == [k.node(w.left[0], w.right[0])]
  }

  ghost predicate Sound(sys: System, k: Committer) {
    forall c, onChain, proof, pubs | sys.accepts(sys.keyOf(c, onChain), proof, pubs)
      :: exists w :: Satisfies(sys, k, c, pubs, w)
  }

  ghost predicate Complete(sys: System, k: Committer) {
    forall c, onChain, pubs, w | Satisfies(sys, k, c, pubs, w)
      :: exists proof :: sys.accepts(sys.keyOf(c, onChain), proof, pubs)
  }

  /** The key a level-`d` proof is checked with, for the chain or inside the level above. */
  function LevelKey(sys: System, d: nat, onChain: bool): VerificationKey
    requires d >= 1
  {
    sys.keyOf(LevelCircuit(InnerKey(sys.keyOf, sys.withdrawKey, d - 1), d), onChain)
  }

  /** `proofs` shows that every member of `leaves` is a withdrawal accepted under the pinned key. */
  ghost predicate AllAccepted(sys: System, leaves: seq<seq<nat>>, proofs: seq<Proof>) {
    && |leaves| == |proofs|
    && forall i :: 0 <= i < |leaves| ==>
         |leaves[i]| == PUB_LEN && AllFields(leaves[i]) && sys.accepts(sys.withdrawKey, proofs[i], leaves[i])
  }

  lemma OpenRoot(sys: System, k: Committer, d: nat, onChain: bool, proof: Proof, root: nat) returns (w: Witness)
    requires Sound(sys, k) && d >= 1 && sys.accepts(LevelKey(sys, d, onChain), proof, [root])
    ensures Satisfies(sys, k, LevelCircuit(InnerKey(sys.keyOf, sys.withdrawKey, d - 1), d), [root], w)
  {
    var c := LevelCircuit(InnerKey(sys.keyOf, sys.withdrawKey, d - 1), d);
    assert sys.accepts(sys.keyOf(c, onChain), proof, [root]);
    w :| Satisfies(sys, k, c, [root], w);
  }

  /** An inner level's witness: two accepted proofs of the level below. */
  lemma OpenNode(sys: System, k: Committer, d: nat, onChain: bool, proof: Proof, root: nat)
    returns (left: Proof, right: Proof, a: nat, b: nat)
    requires Sound(sys, k) && d >= 2 && sys.accepts(LevelKey(sys, d, onChain), proof, [root])
    ensures sys.accepts(LevelKey(sys, d - 1, false), left, [a]) && sys.accepts(LevelKey(sys, d - 1, false), right, [b])
    ensures root == k.node(a, b)
  {
    var w := OpenRoot(sys, k, d, onChain, proof, root);
    left, right, a, b := w.leftProof, w.rightProof, w.left[0], w.right[0];
    assert w.left == [a] && w.right == [b];
    assert [root][0] == [k.node(a, b)][0];
  }

  lemma JoinBatches(sys: System, k: Committer, d: nat,
    xs: seq<seq<nat>>, ps: seq<Proof>, ys: seq<seq<nat>>, qs: seq<Proof>)
    requires d >= 2 && |xs| == |ys| == Pow2(d - 1) && AllAccepted(sys, xs, ps) && AllAccepted(sys, ys, qs)
    ensures |xs + ys| == Pow2(d) && AllAccepted(sys, xs + ys, ps + qs)
    ensures Root(k, xs + ys, d) == k.node(Root(k, xs, d - 1), Root(k, ys, d - 1))
  {
    assert (xs + ys)[..Pow2(d - 1)] == xs && (xs + ys)[Pow2(d - 1)..] == ys;
  }

  /** Soundness at every depth: an accepted root proof comes with 2^d accepted withdrawals whose
      signals, in order, hash to its public input. */
  lemma {:induction false} AcceptedRootIsABatch(
    sys: System, k: Committer, d: nat, onChain: bool, proof: Proof, root: nat)
    returns (leaves: seq<seq<nat>>, proofs: seq<Proof>)
    requires Sound(sys, k) && d >= 1 && sys.accepts(LevelKey(sys, d, onChain), proof, [root])
    ensures |leaves| == Pow2(d) && AllAccepted(sys, leaves, proofs) && root == Root(k, leaves, d)
    decreases d
  {
    if d == 1 {
      var w := OpenRoot(sys, k, d, onChain, proof, root);
      leaves, proofs := [w.left, w.right], [w.leftProof, w.rightProof];
      assert Pow2(1) == 2;
      assert [root][0] == [k.leaf(w.left, w.right)][0];
    } else {
      var left, right, a, b := OpenNode(sys, k, d, onChain, proof, root);
      var xs, ps := AcceptedRootIsABatch(sys, k, d - 1, false, left, a);
      var ys, qs := AcceptedRootIsABatch(sys, k, d - 1, false, right, b);
      leaves, proofs := xs + ys, ps + qs;
      JoinBatches(sys, k, d, xs, ps, ys, qs);
    }
  }

  /** A committer whose values are field elements. */
  ghost predicate InField(k: Committer) {
    && (forall l, r :: k.leaf(l, r) < FIELD_MODULUS)
    && (forall l, r :: k.node(l, r) < FIELD_MODULUS)
  }

  /** The converse: any 2^d accepted withdrawals have an accepted proof of their root. */
  lemma {:induction false} BatchHasARootProof(
    sys: System, k: Committer, d: nat, onChain: bool, leaves: seq<seq<nat>>, proofs: seq<Proof>)
    returns (proof: Proof)
    requires Complete(sys, k) && InField(k) && d >= 1 && |leaves| == Pow2(d) && AllAccepted(sys, leaves, proofs)
    ensures sys.accepts(LevelKey(sys, d, onChain), proof, [Root(k, leaves, d)])
    decreases d
  {
    var c := LevelCircuit(InnerKey(sys.keyOf, sys.withdrawKey, d - 1), d);
    var w;
    if d == 1 {
      assert Pow2(1) == 2;
      w := Witness(proofs[0], proofs[1], leaves[0], leaves[1]);
    } else {
      var m := Pow2(d - 1);
      var p := BatchHasARootProof(sys, k, d - 1, false, leaves[..m], proofs[..m]);
      var q := BatchHasARootProof(sys, k, d - 1, false, leaves[m..], proofs[m..]);
      w := Witness(p, q, [Root(k, leaves[..m], d - 1)], [Root(k, leaves[m..], d - 1)]);
    }
    assert Satisfies(sys, k, c, [Root(k, leaves, d)], w);
    proof :| sys.accepts(sys.keyOf(c, onChain), proof, [Root(k, leaves, d)]);
  }

  // ---- binding ----

  ghost predicate Members(xs: seq<seq<nat>>) {
    forall i :: 0 <= i < |xs| ==> |xs[i]| == PUB_LEN && AllWords(xs[i])
  }

  /** What a node of a tree commits to: two members' signals, or two child commitments. */
  datatype Pair = LeafPair(a: seq<nat>, b: seq<nat>) | NodePair(c: nat, d: nat)

  function CommitmentOf(k: Committer, z: Pair): nat {
    match z
    case LeafPair(a, b) => k.leaf(a, b)
    case NodePair(c, d) => k.node(c, d)
  }

  /** The pairs a tree commits to, one per node: the root, then the left tree's, then the right's. */
  function Pairs(k: Committer, leaves: seq<seq<nat>>, d: nat): (zs: seq<Pair>)
    requires d >= 1 && |leaves| == Pow2(d)
    ensures |zs| == Pow2(d) - 1 && CommitmentOf(k, zs[0]) == Root(k, leaves, d)
    decreases d
  {
    if d == 1 then [LeafPair(leaves[0], leaves[1])]
    else
      var (l, r) := (leaves[..Pow2(d - 1)], leaves[Pow2(d - 1)..]);
      [NodePair(Root(k, l, d - 1), Root(k, r, d - 1))] + Pairs(k, l, d - 1) + Pairs(k, r, d - 1)
  }

  /** Two pairs of one kind, within range, that differ and have one commitment. */
  ghost predicate Clash(k: Committer, y: Pair, z: Pair) {
    && y != z && CommitmentOf(k, y) == CommitmentOf(k, z)
    && match y
       case LeafPair(a, b) => z.LeafPair? && Members([a, b, z.a, z.b])
       case NodePair(c, d) =>
         z.NodePair? && c < FIELD_MODULUS && d < FIELD_MODULUS && z.c < FIELD_MODULUS && z.d < FIELD_MODULUS
  }

  /** Two trees clash at node `i`. */
  ghost predicate ClashAt(k: Committer, xs: seq<seq<nat>>, ys: seq<seq<nat>>, d: nat, i: nat)
    requires d >= 1 && |xs| == |ys| == Pow2(d)
  {
    i < Pow2(d) - 1 && Clash(k, Pairs(k, xs, d)[i], Pairs(k, ys, d)[i])
  }

  lemma RootInField(k: Committer, xs: seq<seq<nat>>, d: nat)
    requires InField(k) && d >= 1 && |xs| == Pow2(d)
    ensures Root(k, xs, d) < FIELD_MODULUS
  {
  }

  lemma LeftPairs(k: Committer, xs: seq<seq<nat>>, d: nat, i: nat)
    requires d >= 2 && |xs| == Pow2(d) && i < Pow2(d - 1) - 1
    ensures 1 + i < Pow2(d) - 1 && Pairs(k, xs, d)[1 + i] == Pairs(k, xs[..Pow2(d - 1)], d - 1)[i]
  {
  }

  lemma RightPairs(k: Committer, xs: seq<seq<nat>>, d: nat, i: nat)
    requires d >= 2 && |xs| == Pow2(d) && i < Pow2(d - 1) - 1
    ensures Pow2(d - 1) + i < Pow2(d) - 1
    ensures Pairs(k, xs, d)[Pow2(d - 1) + i] == Pairs(k, xs[Pow2(d - 1)..], d - 1)[i]
  {
  }

  lemma LeftClash(k: Committer, xs: seq<seq<nat>>, ys: seq<seq<nat>>, d: nat, i: nat)
    requires d >= 2 && |xs| == |ys| == Pow2(d) && ClashAt(k, xs[..Pow2(d - 1)], ys[..Pow2(d - 1)], d - 1, i)
    ensures ClashAt(k, xs, ys, d, 1 + i)
  {
    LeftPairs(k, xs, d, i);
    LeftPairs(k, ys, d, i);
  }

  lemma RightClash(k: Committer, xs: seq<seq<nat>>, ys: seq<seq<nat>>, d: nat, i: nat)
    requires d >= 2 && |xs| == |ys| == Pow2(d) && ClashAt(k, xs[Pow2(d - 1)..], ys[Pow2(d - 1)..], d - 1, i)
    ensures ClashAt(k, xs, ys, d, Pow2(d - 1) + i)
  {
    RightPairs(k, xs, d, i);
    RightPairs(k, ys, d, i);
  }

  /** Two trees are the same batch or clash at node `i`. */
  ghost predicate SameOrClash(k: Committer, xs: seq<seq<nat>>, ys: seq<seq<nat>>, d: nat, i: nat)
    requires d >= 1 && |xs| == |ys| == Pow2(d)
  {
    xs == ys || ClashAt(k, xs, ys, d, i)
  }

  lemma JoinHalves(k: Committer, xs: seq<seq<nat>>, ys: seq<seq<nat>>, d: nat, m: nat, i: nat, j: nat) returns (n: nat)
    requires d >= 2 && m == Pow2(d - 1) && |xs| == |ys| == Pow2(d)
    requires SameOrClash(k, xs[..m], ys[..m], d - 1, i) && SameOrClash(k, xs[m..], ys[m..], d - 1, j)
    ensures SameOrClash(k, xs, ys, d, n)
  {
    n := 0;
    if xs[..m] != ys[..m] {
      LeftClash(k, xs, ys, d, i);
      n := 1 + i;
    } else if xs[m..] != ys[m..] {
      RightClash(k, xs, ys, d, j);
      n := m + j;
    } else {
      assert xs == xs[..m] + xs[m..] && ys == ys[..m] + ys[m..];
    }
  }

  lemma MembersSplit(xs: seq<seq<nat>>, m: nat)
    requires Members(xs) && m <= |xs|
    ensures Members(xs[..m]) && Members(xs[m..])
  {
  }

  /** Two batches of one size with the same root are the same batch, or their trees clash at a node. */
  lemma {:induction false} EqualRootsClash(k: Committer, xs: seq<seq<nat>>, ys: seq<seq<nat>>, d: nat) returns (i: nat)
    requires InField(k) && d >= 1 && |xs| == |ys| == Pow2(d) && Members(xs) && Members(ys)
    requires Root(k, xs, d) == Root(k, ys, d)
    ensures SameOrClash(k, xs, ys, d, i)
    decreases d
  {
    i := 0;
    if d == 1 {
      TwoLeaves(k, xs, ys);
    } else if !ClashAt(k, xs, ys, d, 0) {
      var m := Pow2(d - 1);
      TopAgrees(k, xs, ys, d);
      MembersSplit(xs, m);
      MembersSplit(ys, m);
      var l := EqualRootsClash(k, xs[..m], ys[..m], d - 1);
      var r := EqualRootsClash(k, xs[m..], ys[m..], d - 1);
      i := JoinHalves(k, xs, ys, d, m, l, r);
    }
  }

  lemma TwoLeaves(k: Committer, xs: seq<seq<nat>>, ys: seq<seq<nat>>)
    requires |xs| == |ys| == Pow2(1) && Members(xs) && Members(ys) && Root(k, xs, 1) == Root(k, ys, 1)
    ensures SameOrClash(k, xs, ys, 1, 0)
  {
    assert Pow2(1) == 2;
    assert Pairs(k, xs, 1)[0] == LeafPair(xs[0], xs[1]) && Pairs(k, ys, 1)[0] == LeafPair(ys[0], ys[1]);
  }

  /** Equal roots that do not clash at the top have equal halves' roots. */
  lemma TopAgrees(k: Committer, xs: seq<seq<nat>>, ys: seq<seq<nat>>, d: nat)
    requires InField(k) && d >= 2 && |xs| == |ys| == Pow2(d)
    requires Root(k, xs, d) == Root(k, ys, d) && !ClashAt(k, xs, ys, d, 0)
    ensures var m := Pow2(d - 1);
      Root(k, xs[..m], d - 1) == Root(k, ys[..m], d - 1) && Root(k, xs[m..], d - 1) == Root(k, ys[m..], d - 1)
  {
    var m := Pow2(d - 1);
    RootInField(k, xs[..m], d - 1);
    RootInField(k, xs[m..], d - 1);
    RootInField(k, ys[..m], d - 1);
    RootInField(k, ys[m..], d - 1);
    assert Pairs(k, xs, d)[0] == NodePair(Root(k, xs[..m], d - 1), Root(k, xs[m..], d - 1));
    assert Pairs(k, ys, d)[0] == NodePair(Root(k, ys[..m], d - 1), Root(k, ys[m..], d - 1));
  }

  /** The bytes the host hashes for a pair. */
  function PayloadOf(z: Pair): seq<Byte> {
    match z
    case LeafPair(a, b) => Encode(a + b)
    case NodePair(c, d) => Encode([c]) + Encode([d])
  }

  /** The payloads of a tree's nodes, in the order of `Pairs`. */
  function Payloads(h: Hash, leaves: seq<seq<nat>>, d: nat): (ps: seq<seq<Byte>>)
    requires d >= 1 && |leaves| == Pow2(d)
    ensures |ps| == Pow2(d) - 1
  {
    var zs := Pairs(HostCommitter(h), leaves, d);
    seq(|zs|, i requires 0 <= i < |zs| => PayloadOf(zs[i]))
  }

  /** Two payloads of one length that the folded hash confuses. */
  ghost predicate Collision(h: Hash, p: seq<Byte>, q: seq<Byte>) {
    p != q && |p| == |q| && Fold(h, p) == Fold(h, q)
  }

  /** The builds of two batches hash different payloads to one commitment at node `i`. */
  ghost predicate CollidesAt(h: Hash, xs: seq<seq<nat>>, ys: seq<seq<nat>>, d: nat, i: nat)
    requires d >= 1 && |xs| == |ys| == Pow2(d)
  {
    i < Pow2(d) - 1 && Collision(h, Payloads(h, xs, d)[i], Payloads(h, ys, d)[i])
  }

  lemma LeafClashCollides(h: Hash, a: seq<nat>, b: seq<nat>, x: seq<nat>, y: seq<nat>)
    requires |a| == |b| == |x| == |y| && AllWords(a + b) && AllWords(x + y)
    requires (a, b) != (x, y) && LeafCommitment(h, a, b) == LeafCommitment(h, x, y)
    ensures Collision(h, Encode(a + b), Encode(x + y))
  {
    assert (a + b)[..|a|] == a && (x + y)[..|a|] == x && (a + b)[|a|..] == b && (x + y)[|a|..] == y;
    if Encode(a + b) == Encode(x + y) {
      EncodeInjective(a + b, x + y);
    }
  }

  lemma NodeClashCollides(h: Hash, c: nat, d: nat, u: nat, v: nat)
    requires AllWords([c, d]) && AllWords([u, v]) && (c, d) != (u, v)
    requires NodeCommitment(h, c, d) == NodeCommitment(h, u, v)
    ensures Collision(h, Encode([c]) + Encode([d]), Encode([u]) + Encode([v]))
  {
    if Encode([c]) + Encode([d]) == Encode([u]) + Encode([v]) {
      EncodeAppend([c], [d]);
      EncodeAppend([u], [v]);
      assert [c] + [d] == [c, d] && [u] + [v] == [u, v];
      EncodeInjective([c, d], [u, v]);
    }
  }

  lemma {:induction false} Pow256Adds(m: nat, n: nat)
    ensures Pow256(m + n) == Pow256(m) * Pow256(n)
  {
    if m > 0 {
      Pow256Adds(m - 1, n);
      assert Pow256(m + n) == 256 * Pow256(m - 1 + n);
    }
  }

  lemma FieldIsWord()
    ensures FIELD_MODULUS <= Pow256(WORD)
  {
    assert Pow256(8) == 0x1_0000_0000_0000_0000;
    assert Pow256(16) == 0x1_0000_0000_0000_0000 * 0x1_0000_0000_0000_0000 by { Pow256Adds(8, 8); }
    Pow256Adds(16, 16);
  }

  lemma PairOfMembers(a: seq<nat>, b: seq<nat>, x: seq<nat>, y: seq<nat>)
    requires Members([a, b, x, y])
    ensures |a| == |b| == |x| == |y| && AllWords(a + b) && AllWords(x + y)
  {
    var four := [a, b, x, y];
    assert four[0] == a && four[1] == b && four[2] == x && four[3] == y;
  }

  lemma ClashCollides(h: Hash, y: Pair, z: Pair)
    requires Clash(HostCommitter(h), y, z)
    ensures Collision(h, PayloadOf(y), PayloadOf(z))
  {
    match y
    case LeafPair(a, b) =>
      PairOfMembers(a, b, z.a, z.b);
      LeafClashCollides(h, a, b, z.a, z.b);
    case NodePair(c, d) =>
      FieldIsWord();
      NodeClashCollides(h, c, d, z.c, z.d);
  }

  /** The root binds the signals: two batches of one size with the same root are the same batch, or
      the two builds hash different payloads to one commitment at the same node. */
  lemma RootBinds(h: Hash, xs: seq<seq<nat>>, ys: seq<seq<nat>>, d: nat) returns (i: nat)
    requires d >= 1 && |xs| == |ys| == Pow2(d) && Members(xs) && Members(ys)
    requires Root(HostCommitter(h), xs, d) == Root(HostCommitter(h), ys, d)
    ensures xs == ys || CollidesAt(h, xs, ys, d, i)
  {
    i := EqualRootsClash(HostCommitter(h), xs, ys, d);
    if xs != ys {
      ClashCollides(h, Pairs(HostCommitter(h), xs, d)[i], Pairs(HostCommitter(h), ys, d)[i]);
    }
  }

  /** Two accepted root proofs of one depth and one root each open to a batch with that root, and the
      two batches are the same or their builds collide at a node. */
  lemma SettlementIsUnique(sys: System, h: Hash, d: nat, p1: Proof, p2: Proof, root: nat)
    returns (xs: seq<seq<nat>>, proofs1: seq<Proof>, ys: seq<seq<nat>>, proofs2: seq<Proof>, i: nat)
    requires Sound(sys, HostCommitter(h)) && d >= 1
    requires sys.accepts(RootKey(sys.keyOf, sys.withdrawKey, d), p1, [root])
    requires sys.accepts(RootKey(sys.keyOf, sys.withdrawKey, d), p2, [root])
    ensures |xs| == |ys| == Pow2(d) && AllAccepted(sys, xs, proofs1) && AllAccepted(sys, ys, proofs2)
    ensures root == Root(HostCommitter(h), xs, d) == Root(HostCommitter(h), ys, d)
    ensures xs == ys || CollidesAt(h, xs, ys, d, i)
  {
    xs, proofs1 := AcceptedRootIsABatch(sys, HostCommitter(h), d, true, p1, root);
    ys, proofs2 := AcceptedRootIsABatch(sys, HostCommitter(h), d, true, p2, root);
    FieldIsWord();
    i := RootBinds(h, xs, ys, d);
  }
}
