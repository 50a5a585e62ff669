/** The builder: pad to a power of two, then fold pairs level by level until one node is left. */
module RecursionTree {
  import opened Wrappers
  import opened Commitment

  // ---- padding ----

  function Pow2(k: nat): (p: nat)
    ensures 0 < p
  {
    if k == 0 then 1 else 2 * Pow2(k - 1)
  }

  function BitLength(x: nat): nat {
    if x == 0 then 0 else 1 + BitLength(x / 2)
  }

  /** `1 << (requested - 1).bit_length()`. */
  function Padded(requested: nat): nat
    requires requested >= 1
  {
    Pow2(BitLength(requested - 1))
  }

  lemma {:induction false} BitLengthBounds(x: nat)
    ensures x < Pow2(BitLength(x))
    ensures x > 0 ==> BitLength(x) > 0 && Pow2(BitLength(x) - 1) <= x
  {
    if x > 0 { BitLengthBounds(x / 2); }
  }

  lemma {:induction false} Pow2Grows(j: nat, k: nat)
    requires j <= k
    ensures Pow2(j) <= Pow2(k)
    decreases k
  {
    if j < k { Pow2Grows(j, k - 1); }
  }

  /** The padded size is the least power of two at or above the request. */
  lemma PaddedIsLeast(requested: nat, k: nat)
    requires requested >= 1
    ensures requested <= Padded(requested)
    ensures requested <= Pow2(k) ==> Padded(requested) <= Pow2(k)
  {
    BitLengthBounds(requested - 1);
    if requested <= Pow2(k) && k < BitLength(requested - 1) {
      Pow2Grows(k, BitLength(requested - 1) - 1);
      assert false;
    } else if requested <= Pow2(k) {
      Pow2Grows(BitLength(requested - 1), k);
    }
  }

  /** `n.bit_length() - 1` recovers the depth of a power of two. */
  lemma {:induction false} DepthOfPow2(k: nat)
    ensures BitLength(Pow2(k)) == k + 1
  {
    if k > 0 { DepthOfPow2(k - 1); }
  }

  // ---- the tree, defined from the top ----

  /** The two commitments a tree is built with, whatever hash is behind them. */
  datatype Committer = Committer(leaf: (seq<nat>, seq<nat>) -> nat, node: (nat, nat) -> nat)

  /** The host's committer. */
  function HostCommitter(h: Hash): Committer {
    Committer((l, r) => LeafCommitment(h, l, r), (l, r) => NodeCommitment(h, l, r))
  }

  function Root(k: Committer, leaves: seq<seq<nat>>, d: nat): nat
    requires d >= 1 && |leaves| == Pow2(d)
    decreases d
  {
    if d == 1 then k.leaf(leaves[0], leaves[1])
    else
      var m := Pow2(d - 1);
      k.node(Root(k, leaves[..m], d - 1), Root(k, leaves[m..], d - 1))
  }

  /** The same over commitments. */
  function NodeRoot(k: Committer, xs: seq<nat>, d: nat): nat
    requires |xs| == Pow2(d)
    decreases d
  {
    if d == 0 then xs[0]
    else
      var m := Pow2(d - 1);
      k.node(NodeRoot(k, xs[..m], d - 1), NodeRoot(k, xs[m..], d - 1))
  }

  // ---- the tree, folded from the bottom ----

  function PairLeaves(k: Committer, xs: seq<seq<nat>>): (ys: seq<nat>)
    ensures |ys| == |xs| / 2
    decreases |xs|
  {
    if |xs| < 2 then [] else [k.leaf(xs[0], xs[1])] + PairLeaves(k, xs[2..])
  }

  function PairNodes(k: Committer, xs: seq<nat>): (ys: seq<nat>)
    ensures |ys| == |xs| / 2
    decreases |xs|
  {
    if |xs| < 2 then [] else [k.node(xs[0], xs[1])] + PairNodes(k, xs[2..])
  }

  lemma {:induction false} PairLeavesAt(k: Committer, xs: seq<seq<nat>>, i: nat)
    requires 2 * i + 1 < |xs|
    ensures PairLeaves(k, xs)[i] == k.leaf(xs[2 * i], xs[2 * i + 1])
    decreases i
  {
    if i > 0 { PairLeavesAt(k, xs[2..], i - 1); }
  }

  lemma {:induction false} PairNodesAt(k: Committer, xs: seq<nat>, i: nat)
    requires 2 * i + 1 < |xs|
    ensures PairNodes(k, xs)[i] == k.node(xs[2 * i], xs[2 * i + 1])
    decreases i
  {
    if i > 0 { PairNodesAt(k, xs[2..], i - 1); }
  }

  lemma {:induction false} PairLeavesSplit(k: Committer, xs: seq<seq<nat>>, m: nat)
    requires 2 * m <= |xs|
    ensures PairLeaves(k, xs) == PairLeaves(k, xs[..2 * m]) + PairLeaves(k, xs[2 * m..])
    decreases m
  {
    if m == 0 {
      assert xs[0..] == xs;
    } else {
      PairLeavesSplit(k, xs[2..], m - 1);
      assert xs[2..][..2 * (m - 1)] == xs[..2 * m][2..] && xs[2..][2 * (m - 1)..] == xs[2 * m..];
    }
  }

  lemma {:induction false} PairNodesSplit(k: Committer, xs: seq<nat>, m: nat)
    requires 2 * m <= |xs|
    ensures PairNodes(k, xs) == PairNodes(k, xs[..2 * m]) + PairNodes(k, xs[2 * m..])
    decreases m
  {
    if m == 0 {
      assert xs[0..] == xs;
    } else {
      PairNodesSplit(k, xs[2..], m - 1);
      assert xs[2..][..2 * (m - 1)] == xs[..2 * m][2..] && xs[2..][2 * (m - 1)..] == xs[2 * m..];
    }
  }

  lemma PairLeavesHalves(k: Committer, xs: seq<seq<nat>>, h: nat)
    requires |xs| == 4 * h
    ensures var ys := PairLeaves(k, xs);
      |ys| == 2 * h && ys[..h] == PairLeaves(k, xs[..2 * h]) && ys[h..] == PairLeaves(k, xs[2 * h..])
  {
    PairLeavesSplit(k, xs, h);
  }

  /** Two roots over halves that agree are one root. */
  lemma RootOfHalves(k: Committer, ys: seq<nat>, d: nat, left: nat, right: nat)
    requires |ys| == Pow2(d + 1)
    requires left == NodeRoot(k, ys[..Pow2(d)], d) && right == NodeRoot(k, ys[Pow2(d)..], d)
    ensures NodeRoot(k, ys, d + 1) == k.node(left, right)
  {
  }

  lemma PairOfTwo(k: Committer, xs: seq<nat>)
    requires |xs| == 2
    ensures PairNodes(k, xs) == [k.node(xs[0], xs[1])]
  {
    assert PairNodes(k, xs[2..]) == [];
  }

  ghost predicate SameRoot(k: Committer, xs: seq<nat>, d: nat, ys: seq<nat>, e: nat) {
    |xs| == Pow2(d) && |ys| == Pow2(e) && NodeRoot(k, xs, d) == NodeRoot(k, ys, e)
  }

  lemma RootOfJoin(k: Committer, l: seq<nat>, r: seq<nat>, d: nat)
    requires |l| == Pow2(d) && |r| == Pow2(d)
    ensures |l + r| == Pow2(d + 1) && NodeRoot(k, l + r, d + 1) == k.node(NodeRoot(k, l, d), NodeRoot(k, r, d))
  {
    assert (l + r)[..Pow2(d)] == l && (l + r)[Pow2(d)..] == r;
  }

  lemma JoinedRoots(k: Committer, l: seq<nat>, r: seq<nat>, yl: seq<nat>, yr: seq<nat>, d: nat)
    requires SameRoot(k, l, d + 1, yl, d) && SameRoot(k, r, d + 1, yr, d)
    ensures SameRoot(k, l + r, d + 2, yl + yr, d + 1)
  {
    RootOfJoin(k, l, r, d + 1);
    RootOfJoin(k, yl, yr, d);
  }

  lemma FoldTwo(k: Committer, xs: seq<nat>)
    requires |xs| == 2
    ensures SameRoot(k, xs, 1, PairNodes(k, xs), 0)
  {
    PairOfTwo(k, xs);
    RootOfHalves(k, xs, 0, xs[0], xs[1]);
  }

  /** Folding one level of pairs does not change the root. */
  lemma {:induction false} FoldOnce(k: Committer, xs: seq<nat>, d: nat)
    requires d >= 1 && |xs| == Pow2(d)
    ensures SameRoot(k, xs, d, PairNodes(k, xs), d - 1)
    decreases d
  {
    if d == 1 {
      FoldTwo(k, xs);
    } else {
      var h := Pow2(d - 2);
      var l, r := xs[..2 * h], xs[2 * h..];
      assert xs == l + r;
      FoldOnce(k, l, d - 1);
      FoldOnce(k, r, d - 1);
      PairNodesSplit(k, xs, h);
      JoinedRoots(k, l, r, PairNodes(k, l), PairNodes(k, r), d - 2);
    }
  }

  lemma {:induction false} FoldLeaves(k: Committer, xs: seq<seq<nat>>, d: nat)
    requires d >= 1 && |xs| == Pow2(d)
    ensures Root(k, xs, d) == NodeRoot(k, PairLeaves(k, xs), d - 1)
    decreases d
  {
    if d > 1 {
      var h := Pow2(d - 2);
      var l, r := xs[..2 * h], xs[2 * h..];
      FoldLeaves(k, l, d - 1);
      FoldLeaves(k, r, d - 1);
      PairLeavesHalves(k, xs, h);
      RootOfHalves(k, PairLeaves(k, xs), d - 2, Root(k, l, d - 1), Root(k, r, d - 1));
    }
  }

  // ---- the build ----

  type VerificationKey = seq<nat>

  /** Each level's circuit is generated with the key of the level below written into it. */
  datatype Circuit = LeafCircuit(child: VerificationKey) | NodeCircuit(level: nat, child: VerificationKey)

  /** `compile_and_key`: the key of a circuit, for the chain or for recursion. */
  type KeyGen = (Circuit, bool) -> VerificationKey

  function LevelCircuit(child: VerificationKey, level: nat): Circuit {
    if level == 1 then LeafCircuit(child) else NodeCircuit(level, child)
  }

  /** The key of level `d` built as an inner level; level 0 is the withdrawal circuit. */
  function InnerKey(keyOf: KeyGen, withdrawKey: VerificationKey, d: nat): VerificationKey {
    if d == 0 then withdrawKey else keyOf(LevelCircuit(InnerKey(keyOf, withdrawKey, d - 1), d), false)
  }

  /** The key of a root at depth `d`: only the root faces the chain. */
  function RootKey(keyOf: KeyGen, withdrawKey: VerificationKey, d: nat): VerificationKey
    requires d >= 1
  {
    keyOf(LevelCircuit(InnerKey(keyOf, withdrawKey, d - 1), d), true)
  }

  datatype Member = Withdrawal(signals: seq<nat>) | Inner(commitment: nat)

  datatype BuildError = TooFew | Missing(indices: seq<nat>) | WrongShape(index: nat) | NotDistinct

  datatype Tree = Tree(root: nat, size: nat, depth: nat, nodes: nat, key: VerificationKey)

  ghost predicate AllDistinct(xs: seq<seq<nat>>) {
    forall i, j :: 0 <= i < j < |xs| ==> xs[i] != xs[j]
  }

  lemma {:induction false} DistinctBySize(xs: seq<seq<nat>>)
    ensures |set x | x in xs| <= |xs|
    ensures |set x | x in xs| == |xs| <==> AllDistinct(xs)
  {
    if xs != [] {
      var front, last := xs[..|xs| - 1], xs[|xs| - 1];
      DistinctBySize(front);
      var s, t := set x | x in xs, set x | x in front;
      assert xs == front + [last];
      assert s == t + {last};
      if last in t {
        var i :| 0 <= i < |front| && front[i] == last;
        assert xs[i] == xs[|xs| - 1];
        assert s == t;
      } else if AllDistinct(front) {
        assert AllDistinct(xs);
      } else {
        var i, j :| 0 <= i < j < |front| && front[i] == front[j];
        assert xs[i] == xs[j];
      }
    }
  }

  ghost predicate LevelOf(level: seq<Member>, cs: seq<nat>) {
    |level| == |cs| && forall i :: 0 <= i < |level| ==> level[i] == Inner(cs[i])
  }

  /** The members of level `lvl`: withdrawals at the first, commitments above it. */
  ghost predicate LevelIs(level: seq<Member>, lvl: nat, leaves: seq<seq<nat>>, cs: seq<nat>) {
    if lvl == 1 then |level| == |leaves| && forall i :: 0 <= i < |level| ==> level[i] == Withdrawal(leaves[i])
    else LevelOf(level, cs)
  }

  /** The commitments of the level above. */
  ghost function Above(k: Committer, lvl: nat, leaves: seq<seq<nat>>, cs: seq<nat>): seq<nat> {
    if lvl == 1 then PairLeaves(k, leaves) else PairNodes(k, cs)
  }

  /** Proving one pair. */
  method ProvePair(k: Committer, level: seq<Member>, lvl: nat, pair: nat,
    ghost leaves: seq<seq<nat>>, ghost cs: seq<nat>)
    returns (commitment: nat)
    requires 2 * pair + 1 < |level| && LevelIs(level, lvl, leaves, cs)
    ensures pair < |Above(k, lvl, leaves, cs)| && commitment == Above(k, lvl, leaves, cs)[pair]
  {
    var a, b := level[2 * pair], level[2 * pair + 1];
    if lvl == 1 {
      PairLeavesAt(k, leaves, pair);
      commitment := k.leaf(a.signals, b.signals);
    } else {
      PairNodesAt(k, cs, pair);
      commitment := k.node(a.commitment, b.commitment);
    }
  }

  /** The inner loop: prove the pairs of one level, left to right. */
  method FoldLevel(k: Committer, level: seq<Member>, lvl: nat, ghost leaves: seq<seq<nat>>, ghost cs: seq<nat>)
    returns (nxt: seq<Member>, proven: nat)
    requires |level| % 2 == 0 && LevelIs(level, lvl, leaves, cs)
    ensures LevelOf(nxt, Above(k, lvl, leaves, cs))
    ensures proven == |level| / 2
  {
    nxt, proven := [], 0;
    ghost var want := Above(k, lvl, leaves, cs);
    for pair := 0 to |level| / 2
      invariant |nxt| == proven == pair && pair <= |want|
      invariant LevelOf(nxt, want[..pair])
    {
      var commitment := ProvePair(k, level, lvl, pair, leaves, cs);
      nxt, proven := nxt + [Inner(commitment)], proven + 1;
    }
    assert want[..|want|] == want;
  }

  /** `cs`, `e` levels below the top, fold to the root of `leaves`. */
  ghost predicate FoldsTo(k: Committer, cs: seq<nat>, e: nat, leaves: seq<seq<nat>>, depth: nat) {
    && depth >= 1 && |leaves| == Pow2(depth) && |cs| == Pow2(e)
    && NodeRoot(k, cs, e) == Root(k, leaves, depth)
  }

  /** One level up, the commitments still have the tree's root. */
  lemma AboveKeepsRoot(k: Committer, leaves: seq<seq<nat>>, cs: seq<nat>, lvl: nat, depth: nat)
    requires 1 <= lvl <= depth && |leaves| == Pow2(depth)
    requires lvl > 1 ==> FoldsTo(k, cs, depth + 1 - lvl, leaves, depth)
    ensures FoldsTo(k, Above(k, lvl, leaves, cs), depth - lvl, leaves, depth)
  {
    if lvl == 1 { FoldLeaves(k, leaves, depth); } else { FoldOnce(k, cs, depth + 1 - lvl); }
  }

  /** The recursively defined root of `leaves`, with one proof per inner node, under the root's key. */
  function TreeOf(k: Committer, keyOf: KeyGen, withdrawKey: VerificationKey, leaves: seq<seq<nat>>, d: nat): Tree
    requires d >= 1 && |leaves| == Pow2(d)
  {
    Tree(Root(k, leaves, d), Pow2(d), d, Pow2(d) - 1, RootKey(keyOf, withdrawKey, d))
  }

  /** The level loop: `depth` levels, one node left, the recursively defined root, n - 1 nodes. */
  method FoldTree(k: Committer, keyOf: KeyGen, withdrawKey: VerificationKey, leaves: seq<seq<nat>>, depth: nat)
    returns (t: Tree)
    requires depth >= 1 && |leaves| == Pow2(depth)
    ensures t == TreeOf(k, keyOf, withdrawKey, leaves, depth)
  {
    var level := seq(|leaves|, i requires 0 <= i < |leaves| => Withdrawal(leaves[i]));
    var childKey, nodes := withdrawKey, 0;
    ghost var cs: seq<nat> := [];
    for lvl := 1 to depth + 1
      invariant |level| == Pow2(depth + 1 - lvl) && nodes == Pow2(depth) - |level|
      invariant LevelIs(level, lvl, leaves, cs)
      invariant lvl > 1 ==> FoldsTo(k, cs, depth + 1 - lvl, leaves, depth)
      invariant childKey ==
        if lvl == depth + 1 then RootKey(keyOf, withdrawKey, depth) else InnerKey(keyOf, withdrawKey, lvl - 1)
    {
      AboveKeepsRoot(k, leaves, cs, lvl, depth);
      var nxt, proven := FoldLevel(k, level, lvl, leaves, cs);
      cs := Above(k, lvl, leaves, cs);
      level, nodes := nxt, nodes + proven;
      childKey := keyOf(LevelCircuit(childKey, lvl), lvl == depth);
    }
    t := Tree(level[0].commitment, |leaves|, depth, nodes, childKey);
  }

  /** The prepared withdrawals by number, each with the signals its proof exposes. */
  type Witnesses = map<nat, seq<nat>>

  /** The numbers below `n` with no witness, in order. */
  function MissingBelow(w: Witnesses, n: nat): (ms: seq<nat>)
    ensures forall i: nat :: i in ms <==> i < n && i !in w
    ensures forall a, b | 0 <= a < b < |ms| :: ms[a] < ms[b]
  {
    if n == 0 then []
    else
      var below := MissingBelow(w, n - 1);
      assert forall a | 0 <= a < |below| :: below[a] in below;
      below + (if n - 1 in w then [] else [n - 1])
  }

  function Batch(w: Witnesses, n: nat): (xs: seq<seq<nat>>)
    requires MissingBelow(w, n) == []
    ensures |xs| == n && forall i | 0 <= i < n :: i in w && xs[i] == w[i]
  {
    assert forall i: nat | i < n :: i !in MissingBelow(w, n);
    seq(n, i requires 0 <= i < n => w[i])
  }

  /** What the members of a batch must look like, and which exit is taken when they do not. */
  ghost predicate MembersVerdict(xs: seq<seq<nat>>, e: Option<BuildError>) {
    if exists i :: 0 <= i < |xs| && |xs[i]| != PUB_LEN then
      && e.Some? && e.value.WrongShape? && e.value.index < |xs| && |xs[e.value.index]| != PUB_LEN
      && forall i :: 0 <= i < e.value.index ==> |xs[i]| == PUB_LEN
    else if !AllDistinct(xs) then e == Some(NotDistinct)
    else e == None
  }

  /** The same for a batch of `n`, whose witnesses must all be there. */
  ghost predicate BatchVerdict(w: Witnesses, n: nat, e: Option<BuildError>) {
    if MissingBelow(w, n) != [] then e == Some(Missing(MissingBelow(w, n))) else MembersVerdict(Batch(w, n), e)
  }

  method CheckMembers(xs: seq<seq<nat>>) returns (e: Option<BuildError>)
    ensures MembersVerdict(xs, e)
  {
    for i := 0 to |xs|
      invariant forall j :: 0 <= j < i ==> |xs[j]| == PUB_LEN
    {
      if |xs[i]| != PUB_LEN { return Some(WrongShape(i)); }
    }
    DistinctBySize(xs);
    var seen := set x | x in xs;
    e := if |seen| == |xs| then None else Some(NotDistinct);
  }

  method CheckBatch(w: Witnesses, n: nat) returns (e: Option<BuildError>)
    ensures BatchVerdict(w, n, e)
  {
    var missing := MissingBelow(w, n);
    if missing != [] { return Some(Missing(missing)); }
    e := CheckMembers(Batch(w, n));
  }

  /** The outcome for a batch of `n` = 2^d: an exit that it deserves, or its tree. */
  ghost predicate Outcome(k: Committer, keyOf: KeyGen, withdrawKey: VerificationKey, w: Witnesses,
    n: nat, d: nat, r: Result<Tree, BuildError>)
    requires d >= 1 && n == Pow2(d)
  {
    match r
    case Err(e) => BatchVerdict(w, n, Some(e))
    case Ok(t) =>
      BatchVerdict(w, n, None) && MissingBelow(w, n) == [] && t == TreeOf(k, keyOf, withdrawKey, Batch(w, n), d)
  }

  method BuildPadded(k: Committer, keyOf: KeyGen, withdrawKey: VerificationKey, w: Witnesses, n: nat, d: nat)
    returns (r: Result<Tree, BuildError>)
    requires d >= 1 && n == Pow2(d)
    ensures Outcome(k, keyOf, withdrawKey, w, n, d, r)
  {
    var e := CheckBatch(w, n);
    if e.Some? { return Err(e.value); }
    var t := FoldTree(k, keyOf, withdrawKey, Batch(w, n), d);
    r := Ok(t);
  }

  lemma DepthOfPadded(requested: nat)
    requires requested >= 2
    ensures var n := Padded(requested);
      BitLength(n) >= 2 && n == Pow2(BitLength(n) - 1) && BitLength(n) - 1 == BitLength(requested - 1)
  {
    DepthOfPow2(BitLength(requested - 1));
  }

  /** The whole run, with the exits it takes on bad input: the request is padded, the depth read off the
      padded size, and the tree is the one that `TreeOf` defines. */
  method Build(k: Committer, keyOf: KeyGen, withdrawKey: VerificationKey, w: Witnesses, requested: int)
    returns (r: Result<Tree, BuildError>)
    ensures requested < 2 ==> r == Err(TooFew)
    ensures requested >= 2 ==>
              var (n, d) := (Padded(requested), BitLength(requested - 1));
              d >= 1 && n == Pow2(d) && Outcome(k, keyOf, withdrawKey, w, n, d, r)
  {
    if requested < 2 { return Err(TooFew); }
    var n := Padded(requested);
    DepthOfPadded(requested);
    r := BuildPadded(k, keyOf, withdrawKey, w, n, BitLength(n) - 1);
  }
}
