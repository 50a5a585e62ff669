/** The batch planner: within a gate, items that need a build are merged into runs by containment of
    the test suites they touch. */
module BatchPlan {

  datatype Item = Item(gate: string, tag: string, files: set<string>, rust: set<string>, suites: set<string>)

  datatype Run = Run(leader: Item, absorbed: seq<Item>)

  /** The runs so far and the tags they account for. */
  datatype Plan = Plan(runs: seq<Run>, taken: set<string>)

  // ---- filtering and sorting ----

  function Filter(s: seq<Item>, keep: Item -> bool): seq<Item> {
    if s == [] then []
    else if keep(s[0]) then [s[0]] + Filter(s[1..], keep)
    else Filter(s[1..], keep)
  }

  lemma {:induction false} FilterMembers(s: seq<Item>, keep: Item -> bool)
    ensures forall x :: x in Filter(s, keep) <==> x in s && keep(x)
  {
    if s != [] { FilterMembers(s[1..], keep); }
  }

  function WithTag(t: string): Item -> bool {
    (j: Item) => j.tag == t
  }

  function TagIn(ts: set<string>): Item -> bool {
    (j: Item) => j.tag in ts
  }

  function Never(): Item -> bool {
    (j: Item) => false
  }

  /** Before the first item with no more suites than `x`. */
  function Insert(x: Item, s: seq<Item>): seq<Item> {
    if s == [] || |s[0].suites| <= |x.suites| then [x] + s else [s[0]] + Insert(x, s[1..])
  }

  /** The most suites first; items with equally many keep their order. */
  function BySuites(s: seq<Item>): seq<Item> {
    if s == [] then [] else Insert(s[0], BySuites(s[1..]))
  }

  ghost predicate Descending(s: seq<Item>) {
    forall p, q | 0 <= p < q < |s| :: |s[p].suites| >= |s[q].suites|
  }

  lemma {:induction false} InsertPermutes(x: Item, s: seq<Item>)
    ensures multiset(Insert(x, s)) == multiset(s) + multiset{x}
  {
    if s != [] {
      assert s == [s[0]] + s[1..];
      InsertPermutes(x, s[1..]);
    }
  }

  lemma ConsDescending(x: Item, s: seq<Item>)
    requires Descending(s) && forall q | 0 <= q < |s| :: |x.suites| >= |s[q].suites|
    ensures Descending([x] + s)
  {
  }

  lemma {:induction false} InsertDescending(x: Item, s: seq<Item>)
    requires Descending(s)
    ensures Descending(Insert(x, s))
  {
    if s == [] || |s[0].suites| <= |x.suites| {
      ConsDescending(x, s);
    } else {
      var t := Insert(x, s[1..]);
      InsertDescending(x, s[1..]);
      InsertPermutes(x, s[1..]);
      forall q | 0 <= q < |t|
        ensures |s[0].suites| >= |t[q].suites|
      {
        assert t[q] in multiset(t);
      }
      ConsDescending(s[0], t);
    }
  }

  /** Sorting is a descending permutation. */
  lemma {:induction false} BySuitesSorts(s: seq<Item>)
    ensures Descending(BySuites(s)) && multiset(BySuites(s)) == multiset(s)
  {
    if s != [] {
      BySuitesSorts(s[1..]);
      InsertDescending(s[0], BySuites(s[1..]));
      InsertPermutes(s[0], BySuites(s[1..]));
      assert s == [s[0]] + s[1..];
    }
  }

  ghost predicate DistinctTags(s: seq<Item>) {
    forall p, q | 0 <= p < q < |s| :: s[p].tag != s[q].tag
  }

  function Tags(s: seq<Item>): set<string> {
    set x | x in s :: x.tag
  }

  // ---- the greedy cover ----

  function AbsorbedBy(i: Item, taken: set<string>): Item -> bool {
    (j: Item) => j.tag !in taken && j.tag != i.tag && j.suites <= i.suites
  }

  function Absorbed(sol: seq<Item>, i: Item, taken: set<string>): seq<Item> {
    Filter(sol, AbsorbedBy(i, taken))
  }

  function Led(sol: seq<Item>, p: Plan, i: Item): Plan {
    if i.tag in p.taken then p
    else
      var absorbed := Absorbed(sol, i, p.taken);
      Plan(p.runs + [Run(i, absorbed)], p.taken + {i.tag} + Tags(absorbed))
  }

  /** The plan once the first `k` items have been looked at. */
  function Greedy(sol: seq<Item>, k: nat): Plan
    requires k <= |sol|
  {
    if k == 0 then Plan([], {}) else Led(sol, Greedy(sol, k - 1), sol[k - 1])
  }

  // ---- what holds for every list of items ----

  ghost predicate Contained(r: Run) {
    forall j | j in r.absorbed :: j.suites <= r.leader.suites
  }

  ghost predicate Uncovered(p: Plan, j: Item) {
    forall r | r in p.runs :: !(j.suites <= r.leader.suites)
  }

  ghost predicate Sound(sol: seq<Item>, k: nat, p: Plan)
    requires k <= |sol|
  {
    && (forall r | r in p.runs :: Contained(r) && r.leader in sol[..k])
    && (forall j | j in sol[..k] :: j.tag in p.taken)
    && (forall j | j in sol && j.tag !in p.taken :: Uncovered(p, j))
    && (forall a, b | 0 <= a < b < |p.runs| :: !(p.runs[b].leader.suites <= p.runs[a].leader.suites))
  }

  lemma LedSound(sol: seq<Item>, k: nat, p: Plan)
    requires 0 < k <= |sol| && Sound(sol, k - 1, p)
    ensures Sound(sol, k, Led(sol, p, sol[k - 1]))
  {
    var i, q := sol[k - 1], Led(sol, p, sol[k - 1]);
    assert sol[..k] == sol[..k - 1] + [i];
    if i.tag !in p.taken {
      var absorbed := Absorbed(sol, i, p.taken);
      FilterMembers(sol, AbsorbedBy(i, p.taken));
      assert q.runs == p.runs + [Run(i, absorbed)];
      forall j | j in sol && j.tag !in q.taken
        ensures Uncovered(q, j)
      {
        assert j !in absorbed && Uncovered(p, j);
      }
      assert Uncovered(p, i);
      assert forall a | 0 <= a < |p.runs| :: p.runs[a] in p.runs;
    }
  }

  lemma {:induction false} GreedySound(sol: seq<Item>, k: nat)
    requires k <= |sol|
    ensures Sound(sol, k, Greedy(sol, k))
  {
    var p := Greedy(sol, k);
    if k == 0 {
      assert p.runs == [] && sol[..0] == [];
    } else {
      GreedySound(sol, k - 1);
      LedSound(sol, k, Greedy(sol, k - 1));
    }
  }

  /** No leader's suites are contained in another's, so no two runs of a plan could be merged. */
  lemma LeadersIncomparable(sol: seq<Item>, a: nat, b: nat)
    requires Descending(sol) && a < |Greedy(sol, |sol|).runs| && b < |Greedy(sol, |sol|).runs| && a != b
    ensures !(Greedy(sol, |sol|).runs[a].leader.suites <= Greedy(sol, |sol|).runs[b].leader.suites)
  {
    GreedySound(sol, |sol|);
    if a < b {
      LeadersDescend(sol, |sol|, a, b);
      var runs := Greedy(sol, |sol|).runs;
      if runs[a].leader.suites <= runs[b].leader.suites {
        SubsetOfNoMore(runs[a].leader.suites, runs[b].leader.suites);
      }
    }
  }

  lemma SubsetOfNoMore(a: set<string>, b: set<string>)
    requires a <= b && |b| <= |a|
    ensures a == b
  {
    assert b == a + (b - a);
  }

  lemma {:induction false} LeadersDescend(sol: seq<Item>, k: nat, a: nat, b: nat)
    requires Descending(sol) && k <= |sol| && a < b < |Greedy(sol, k).runs|
    ensures var runs := Greedy(sol, k).runs; |runs[a].leader.suites| >= |runs[b].leader.suites|
  {
    if k > 0 {
      var p := Greedy(sol, k - 1);
      if b < |p.runs| {
        LeadersDescend(sol, k - 1, a, b);
      } else {
        GreedySound(sol, k - 1);
        assert p.runs[a] in p.runs;
      }
    }
  }

  // ---- what holds when tags are distinct ----

  function Members(runs: seq<Run>): seq<Item> {
    if runs == [] then [] else Members(runs[..|runs| - 1]) + [runs[|runs| - 1].leader] + runs[|runs| - 1].absorbed
  }

  ghost predicate OneOf(x: Item, all: Item -> bool, a: Item -> bool, b: Item -> bool, c: Item -> bool) {
    (all(x) <==> a(x) || b(x) || c(x)) && !(a(x) && b(x)) && !(a(x) && c(x)) && !(b(x) && c(x))
  }

  lemma {:induction false} FilterSplits(s: seq<Item>, all: Item -> bool,
    a: Item -> bool, b: Item -> bool, c: Item -> bool)
    requires forall x | x in s :: OneOf(x, all, a, b, c)
    ensures multiset(Filter(s, all)) == multiset(Filter(s, a)) + multiset(Filter(s, b)) + multiset(Filter(s, c))
  {
    if s != [] {
      FilterSplits(s[1..], all, a, b, c);
      assert s[0] in s && OneOf(s[0], all, a, b, c);
    }
  }

  lemma {:induction false} FilterSame(s: seq<Item>, a: Item -> bool, b: Item -> bool)
    requires forall x | x in s :: a(x) <==> b(x)
    ensures Filter(s, a) == Filter(s, b)
  {
    if s != [] {
      FilterSame(s[1..], a, b);
      assert s[0] in s && forall x | x in s[1..] :: x in s;
    }
  }

  lemma {:induction false} FilterOneTag(s: seq<Item>, k: nat)
    requires DistinctTags(s) && k < |s|
    ensures Filter(s, WithTag(s[k].tag)) == [s[k]]
  {
    if k == 0 {
      FilterSame(s[1..], WithTag(s[k].tag), Never());
      FilterNone(s[1..]);
    } else {
      FilterOneTag(s[1..], k - 1);
    }
  }

  lemma {:induction false} FilterNone(s: seq<Item>)
    ensures Filter(s, Never()) == []
  {
    if s != [] { FilterNone(s[1..]); }
  }

  lemma SameTagSameItem(s: seq<Item>, x: Item, y: Item)
    requires DistinctTags(s) && x in s && y in s && x.tag == y.tag
    ensures x == y
  {
    var p :| 0 <= p < |s| && s[p] == x;
    var q :| 0 <= q < |s| && s[q] == y;
    assert p == q;
  }

  ghost predicate Accounts(sol: seq<Item>, p: Plan) {
    multiset(Members(p.runs)) == multiset(Filter(sol, TagIn(p.taken)))
  }

  /** With distinct tags, being absorbed is having an absorbed tag. */
  lemma AbsorbedTags(sol: seq<Item>, i: Item, taken: set<string>, j: Item)
    requires DistinctTags(sol) && j in sol
    ensures j.tag in Tags(Absorbed(sol, i, taken)) <==> AbsorbedBy(i, taken)(j)
  {
    var absorbed := Absorbed(sol, i, taken);
    FilterMembers(sol, AbsorbedBy(i, taken));
    if j.tag in Tags(absorbed) {
      var x :| x in absorbed && x.tag == j.tag;
      SameTagSameItem(sol, x, j);
    }
  }

  /** The items a new run accounts for: its leader, what it absorbs, and what was there before. */
  lemma TakenSplits(sol: seq<Item>, k: nat, taken: set<string>)
    requires 0 < k <= |sol| && DistinctTags(sol) && sol[k - 1].tag !in taken
    ensures var i := sol[k - 1];
      var absorbed := Absorbed(sol, i, taken);
      multiset(Filter(sol, TagIn(taken + {i.tag} + Tags(absorbed))))
      == multiset(Filter(sol, TagIn(taken))) + multiset{i} + multiset(absorbed)
  {
    var i := sol[k - 1];
    var lead, rest := WithTag(i.tag), AbsorbedBy(i, taken);
    var all := TagIn(taken + {i.tag} + Tags(Absorbed(sol, i, taken)));
    forall j | j in sol
      ensures OneOf(j, all, TagIn(taken), lead, rest)
    {
      AbsorbedTags(sol, i, taken, j);
    }
    FilterSplits(sol, all, TagIn(taken), lead, rest);
    FilterOneTag(sol, k - 1);
  }

  lemma MembersOfOneMore(runs: seq<Run>, r: Run)
    ensures multiset(Members(runs + [r])) == multiset(Members(runs)) + multiset{r.leader} + multiset(r.absorbed)
  {
    assert (runs + [r])[..|runs|] == runs;
  }

  lemma LedAccounts(sol: seq<Item>, k: nat, p: Plan)
    requires 0 < k <= |sol| && DistinctTags(sol) && Accounts(sol, p)
    ensures Accounts(sol, Led(sol, p, sol[k - 1]))
  {
    var i := sol[k - 1];
    if i.tag !in p.taken {
      TakenSplits(sol, k, p.taken);
      MembersOfOneMore(p.runs, Run(i, Absorbed(sol, i, p.taken)));
    }
  }

  lemma {:induction false} GreedyAccounts(sol: seq<Item>, k: nat)
    requires k <= |sol| && DistinctTags(sol)
    ensures Accounts(sol, Greedy(sol, k))
  {
    if k == 0 {
      NothingAccounts(sol);
    } else {
      GreedyAccounts(sol, k - 1);
      LedAccounts(sol, k, Greedy(sol, k - 1));
    }
  }

  lemma NothingAccounts(sol: seq<Item>)
    ensures Accounts(sol, Plan([], {}))
  {
    FilterSame(sol, TagIn({}), Never());
    FilterNone(sol);
  }

  lemma {:induction false} FilterAll(s: seq<Item>, keep: Item -> bool)
    requires forall x | x in s :: keep(x)
    ensures Filter(s, keep) == s
  {
    if s != [] {
      assert s[0] in s && forall x | x in s[1..] :: x in s;
      FilterAll(s[1..], keep);
    }
  }

  /** With distinct tags every item is in exactly one run. */
  lemma EveryItemRunsOnce(sol: seq<Item>)
    requires DistinctTags(sol)
    ensures multiset(Members(Greedy(sol, |sol|).runs)) == multiset(sol)
  {
    GreedySound(sol, |sol|);
    GreedyAccounts(sol, |sol|);
    assert sol[..|sol|] == sol;
    FilterAll(sol, TagIn(Greedy(sol, |sol|).taken));
  }

  // ---- no plan of this kind has fewer runs ----

  ghost predicate CoveredBy(j: Item, leaders: seq<Item>) {
    exists q :: 0 <= q < |leaders| && j.suites <= leaders[q].suites
  }

  /** Runs led by items of the gate that between them contain every item's suites. */
  ghost predicate Covers(leaders: seq<Item>, sol: seq<Item>) {
    (forall l | l in leaders :: l in sol) && forall j | j in sol :: CoveredBy(j, leaders)
  }

  function Leaders(runs: seq<Run>): (ls: seq<Item>)
    ensures |ls| == |runs| && forall a | 0 <= a < |runs| :: ls[a] == runs[a].leader
  {
    seq(|runs|, a requires 0 <= a < |runs| => runs[a].leader)
  }

  lemma {:induction false} MemberIsLed(runs: seq<Run>, j: Item)
    requires j in Members(runs) && forall r | r in runs :: Contained(r)
    ensures CoveredBy(j, Leaders(runs))
  {
    var n := |runs| - 1;
    var r := runs[n];
    assert r in runs && forall x | x in runs[..n] :: x in runs;
    if j in Members(runs[..n]) {
      MemberIsLed(runs[..n], j);
      var q :| 0 <= q < n && j.suites <= Leaders(runs[..n])[q].suites;
      assert j.suites <= Leaders(runs)[q].suites;
    } else {
      assert j.suites <= Leaders(runs)[n].suites;
    }
  }

  lemma GreedyCovers(sol: seq<Item>)
    requires DistinctTags(sol)
    ensures Covers(Leaders(Greedy(sol, |sol|).runs), sol)
  {
    var runs := Greedy(sol, |sol|).runs;
    GreedySound(sol, |sol|);
    EveryItemRunsOnce(sol);
    forall l | l in Leaders(runs)
      ensures l in sol
    {
      var a :| 0 <= a < |runs| && l == Leaders(runs)[a];
      assert runs[a] in runs;
    }
    forall j | j in sol
      ensures CoveredBy(j, Leaders(runs))
    {
      assert j in multiset(sol);
      MemberIsLed(runs, j);
    }
  }

  ghost predicate Distinct(w: seq<nat>) {
    forall a, b | 0 <= a < b < |w| :: w[a] != w[b]
  }

  /** As many distinct numbers below `m` as there are, at most `m`. */
  lemma {:induction false} DistinctBelow(w: seq<nat>, m: nat)
    requires Distinct(w) && forall a | 0 <= a < |w| :: w[a] < m
    ensures |w| <= m
  {
    if w != [] {
      assert w[0] < m;
      if a :| 0 <= a < |w| && w[a] == m - 1 {
        DistinctBelow(w[..a] + w[a + 1..], m - 1);
      } else {
        DistinctBelow(w, m - 1);
      }
    }
  }

  /** Where another plan puts each greedy leader. */
  ghost function Hosts(ls: seq<Item>, others: seq<Item>): (w: seq<nat>)
    requires forall l | l in ls :: CoveredBy(l, others)
    ensures |w| == |ls| && forall a | 0 <= a < |ls| :: w[a] < |others| && ls[a].suites <= others[w[a]].suites
  {
    if ls == [] then []
    else
      var last := ls[|ls| - 1];
      assert last in ls && forall l | l in ls[..|ls| - 1] :: l in ls;
      assert CoveredBy(last, others);
      var q: nat :| q < |others| && last.suites <= others[q].suites;
      Hosts(ls[..|ls| - 1], others) + [q]
  }

  /** The greedy plan is optimal: any choice of leaders that covers the gate has at least as many runs. */
  lemma GreedyIsOptimal(sol: seq<Item>, others: seq<Item>)
    requires DistinctTags(sol) && Descending(sol) && Covers(others, sol)
    ensures |Greedy(sol, |sol|).runs| <= |others|
  {
    var ls := Leaders(Greedy(sol, |sol|).runs);
    GreedyCovers(sol);
    var w := Hosts(ls, others);
    forall a, b | 0 <= a < b < |w|
      ensures w[a] != w[b]
    {
      if w[a] == w[b] {
        var host := others[w[a]];
        assert CoveredBy(host, ls);
        var c :| 0 <= c < |ls| && host.suites <= ls[c].suites;
        if c != a { LeadersIncomparable(sol, a, c); }
        if c != b { LeadersIncomparable(sol, b, c); }
      }
    }
    DistinctBelow(w, |others|);
  }

  // ---- distinct tags are exactly what it takes ----

  function TagList(sol: seq<Item>): (ts: seq<string>)
    ensures |ts| == |sol| && forall n | 0 <= n < |sol| :: ts[n] == sol[n].tag
  {
    seq(|sol|, n requires 0 <= n < |sol| => sol[n].tag)
  }

  /** A list of tags under which every item is covered, whatever suites the items touch. */
  ghost predicate Safe(ts: seq<string>) {
    forall sol: seq<Item> | TagList(sol) == ts && Descending(sol) :: Covers(Leaders(Greedy(sol, |sol|).runs), sol)
  }

  /** Everyone touches one suite, and item `q` another. */
  function OddOneOut(ts: seq<string>, q: nat): (sol: seq<Item>)
    ensures |sol| == |ts|
    ensures forall n | 0 <= n < |ts| :: sol[n] == Item("0", ts[n], {"f"}, {}, if n == q then {"b"} else {"a"})
  {
    seq(|ts|, n requires 0 <= n < |ts| => Item("0", ts[n], {"f"}, {}, if n == q then {"b"} else {"a"}))
  }

  lemma {:induction false} AllTaken(sol: seq<Item>, k: nat)
    requires 1 <= k <= |sol| && forall j | j in sol :: j.tag in Greedy(sol, 1).taken
    ensures Greedy(sol, k) == Greedy(sol, 1)
  {
    if k > 1 { AllTaken(sol, k - 1); }
  }

  /** Two items under one tag: the first run takes the tag of both, and no run has the odd one's suite. */
  lemma SharedTagIsLost(ts: seq<string>, p: nat, q: nat)
    requires p < q < |ts| && ts[p] == ts[q]
    ensures var sol := OddOneOut(ts, q); Descending(sol) && !CoveredBy(sol[q], Leaders(Greedy(sol, |sol|).runs))
  {
    var sol := OddOneOut(ts, q);
    FirstTakesAll(ts, p, q);
    AllTaken(sol, |sol|);
    assert !(sol[q].suites <= sol[0].suites) by {
      assert "b" in sol[q].suites && "b"[0] != "a"[0];
    }
  }

  lemma FirstTakesAll(ts: seq<string>, p: nat, q: nat)
    requires p < q < |ts| && ts[p] == ts[q]
    ensures var (sol, one) := (OddOneOut(ts, q), Greedy(OddOneOut(ts, q), 1));
      (forall j | j in sol :: j.tag in one.taken) && |one.runs| == 1 && one.runs[0].leader == sol[0]
  {
    var sol := OddOneOut(ts, q);
    var absorbed := Absorbed(sol, sol[0], {});
    FilterMembers(sol, AbsorbedBy(sol[0], {}));
    assert Greedy(sol, 1) == Led(sol, Plan([], {}), sol[0]) by { assert Greedy(sol, 0) == Plan([], {}); }
    forall n | 0 <= n < |ts|
      ensures ts[n] in {sol[0].tag} + Tags(absorbed)
    {
      var m := if n == q then p else n;
      assert sol[m] in sol && ts[m] == ts[n];
      if ts[m] != ts[0] { assert sol[m] in absorbed; }
    }
  }

  /** Every item of a gate is sure to be covered exactly when the gate's tags are distinct. */
  lemma SafeExactly(ts: seq<string>)
    ensures Safe(ts) <==> forall p, q | 0 <= p < q < |ts| :: ts[p] != ts[q]
  {
    if forall p, q | 0 <= p < q < |ts| :: ts[p] != ts[q] {
      forall sol: seq<Item> | TagList(sol) == ts && Descending(sol)
        ensures Covers(Leaders(Greedy(sol, |sol|).runs), sol)
      {
        assert forall n | 0 <= n < |sol| :: TagList(sol)[n] == sol[n].tag;
        GreedyCovers(sol);
      }
    } else {
      var p, q :| 0 <= p < q < |ts| && ts[p] == ts[q];
      var sol := OddOneOut(ts, q);
      SharedTagIsLost(ts, p, q);
      assert TagList(sol) == ts && sol[q] in sol;
    }
  }

  // ---- a gate ----

  /** Items with source files to build. */
  function Buildable(docOnly: set<string>): Item -> bool {
    (j: Item) => j.tag !in docOnly && j.files != {}
  }

  /** Items that only touch crates. */
  function CargoOnly(docOnly: set<string>): Item -> bool {
    (j: Item) => j.tag !in docOnly && j.files == {} && j.rust != {}
  }

  function Sol(its: seq<Item>, docOnly: set<string>): seq<Item> {
    BySuites(Filter(its, Buildable(docOnly)))
  }

  function GateRuns(its: seq<Item>, docOnly: set<string>): nat {
    var sol := Sol(its, docOnly);
    |Greedy(sol, |sol|).runs| + if Filter(its, CargoOnly(docOnly)) == [] then 0 else 1
  }

  /** One gate: the loop over its sorted items. */
  method PlanGate(its: seq<Item>, docOnly: set<string>) returns (plan: seq<Run>, runs: nat)
    ensures plan == Greedy(Sol(its, docOnly), |Sol(its, docOnly)|).runs
    ensures runs == GateRuns(its, docOnly)
    ensures forall r | r in plan :: Contained(r)
    ensures DistinctTags(its) ==> multiset(Members(plan)) == multiset(Filter(its, Buildable(docOnly)))
  {
    var sol := Sol(its, docOnly);
    runs := if Filter(its, CargoOnly(docOnly)) == [] then 0 else 1;
    plan := [];
    var taken: set<string> := {};
    ghost var before := runs;
    for k := 0 to |sol|
      invariant Plan(plan, taken) == Greedy(sol, k)
      invariant runs == before + |plan|
    {
      var i := sol[k];
      if i.tag !in taken {
        var absorbed := Absorbed(sol, i, taken);
        taken := taken + {i.tag} + Tags(absorbed);
        plan := plan + [Run(i, absorbed)];
        runs := runs + 1;
      }
    }
    GreedySound(sol, |sol|);
    BySuitesSorts(Filter(its, Buildable(docOnly)));
    if DistinctTags(its) {
      SolDistinct(its, docOnly);
      EveryItemRunsOnce(sol);
    }
  }

  lemma {:induction false} FilterDistinct(s: seq<Item>, keep: Item -> bool)
    requires DistinctTags(s)
    ensures DistinctTags(Filter(s, keep))
  {
    if s != [] {
      FilterDistinct(s[1..], keep);
      var t := Filter(s[1..], keep);
      FilterMembers(s[1..], keep);
      assert forall x | x in s[1..] :: x.tag != s[0].tag;
      assert forall n | 0 <= n < |t| :: t[n] in t;
    }
  }

  lemma {:induction false} InsertDistinct(x: Item, s: seq<Item>)
    requires DistinctTags(s) && forall y | y in s :: y.tag != x.tag
    ensures DistinctTags(Insert(x, s))
  {
    if s != [] && |s[0].suites| > |x.suites| {
      var t := Insert(x, s[1..]);
      InsertDistinct(x, s[1..]);
      InsertPermutes(x, s[1..]);
      assert s[0] in s;
      forall n | 0 <= n < |t|
        ensures t[n].tag != s[0].tag
      {
        assert t[n] in multiset(t);
      }
    }
  }

  lemma {:induction false} SortDistinct(s: seq<Item>)
    requires DistinctTags(s)
    ensures DistinctTags(BySuites(s))
  {
    if s != [] {
      SortDistinct(s[1..]);
      BySuitesSorts(s[1..]);
      forall y | y in BySuites(s[1..])
        ensures y.tag != s[0].tag
      {
        assert y in multiset(s[1..]);
      }
      InsertDistinct(s[0], BySuites(s[1..]));
    }
  }

  lemma SolDistinct(its: seq<Item>, docOnly: set<string>)
    requires DistinctTags(its)
    ensures DistinctTags(Sol(its, docOnly))
  {
    FilterDistinct(its, Buildable(docOnly));
    SortDistinct(Filter(its, Buildable(docOnly)));
  }
}
