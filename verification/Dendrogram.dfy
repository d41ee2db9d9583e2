/** Single-linkage clustering as a state machine over stages, and what every run of it keeps. */
module Dendrogram {
  import opened Types

  // Entries that are not finite are `None`.
  type Matrix = seq<seq<Option<real>>>

  datatype Merge = Merge(left: nat, right: nat, distance: real, size: nat)
  datatype Cluster = Cluster(id: nat, members: seq<nat>)
  datatype Stage = Stage(clusters: seq<Cluster>, merges: seq<Merge>)

  ghost predicate Square(m: Matrix) {
    forall i | 0 <= i < |m| :: |m[i]| == |m|
  }

  ghost predicate Symmetric(m: Matrix) {
    Square(m) && forall i, j | 0 <= i < |m| && 0 <= j < |m| :: m[i][j] == m[j][i]
  }

  function Entry(m: Matrix, i: nat, j: nat): Option<real> {
    if i < |m| && j < |m[i]| then m[i][j] else None
  }

  // ---- the transition ------------------------------------------------------------

  // No finite distance from `left` to `right` is below `d`.
  ghost predicate Apart(m: Matrix, left: seq<nat>, right: seq<nat>, d: real) {
    forall x, y | x in left && y in right && Entry(m, x, y).Some? :: d <= Entry(m, x, y).value
  }

  ghost predicate StrictlyApart(m: Matrix, left: seq<nat>, right: seq<nat>, d: real) {
    forall x, y | x in left && y in right && Entry(m, x, y).Some? :: d < Entry(m, x, y).value
  }

  ghost predicate Touch(m: Matrix, left: seq<nat>, right: seq<nat>, d: real) {
    exists x, y | x in left && y in right :: Entry(m, x, y) == Some(d)
  }

  ghost predicate Unlinked(m: Matrix, left: seq<nat>, right: seq<nat>) {
    forall x, y | x in left && y in right :: Entry(m, x, y).None?
  }

  // The order in which pairs are compared.
  predicate Before(a: nat, b: nat, i: nat, j: nat) {
    a < i || (a == i && b < j)
  }

  // `(i, j)` is the first pair at the smallest distance `d`.
  ghost predicate FirstNearest(m: Matrix, cs: seq<Cluster>, i: nat, j: nat, d: real) {
    && i < j < |cs|
    && Touch(m, cs[i].members, cs[j].members, d)
    && (forall a, b | 0 <= a < b < |cs| :: Apart(m, cs[a].members, cs[b].members, d))
    && (forall a, b | 0 <= a < b < |cs| && Before(a, b, i, j) :: StrictlyApart(m, cs[a].members, cs[b].members, d))
  }

  ghost predicate Stuck(m: Matrix, cs: seq<Cluster>) {
    |cs| > 1 && forall a, b | 0 <= a < b < |cs| :: Unlinked(m, cs[a].members, cs[b].members)
  }

  function Without(cs: seq<Cluster>, k: nat): seq<Cluster>
    requires k < |cs|
  {
    cs[..k] + cs[k + 1..]
  }

  // Right is removed first, then left; the union goes to the end under a fresh id.
  function Joined(s: Stage, i: nat, j: nat, d: real, id: nat): Stage
    requires i < j < |s.clusters|
  {
    var left, right := s.clusters[i], s.clusters[j];
    var members := left.members + right.members;
    Stage(Without(Without(s.clusters, j), i) + [Cluster(id, members)],
          s.merges + [Merge(left.id, right.id, d, |members|)])
  }

  ghost predicate Step(m: Matrix, s: Stage, s': Stage) {
    exists i: nat, j: nat, d: real :: FirstNearest(m, s.clusters, i, j, d)
                                     && s' == Joined(s, i, j, d, |m| + |s.merges|)
  }

  function Singletons(n: nat): seq<Cluster> {
    seq(n, (i: nat) => Cluster(i, [i]))
  }

  // A run from one cluster per asset.
  ghost predicate IsRun(m: Matrix, run: seq<Stage>) {
    && |run| > 0
    && run[0] == Stage(Singletons(|m|), [])
    && forall k | 0 <= k < |run| - 1 :: Step(m, run[k], run[k + 1])
  }

  // ---- the tree a list of merges describes ---------------------------------------

  ghost predicate ChildrenBelow(merges: seq<Merge>, n: nat) {
    forall k | 0 <= k < |merges| :: merges[k].left < n + k && merges[k].right < n + k
  }

  // Leaves left to right; an id no merge created has none.
  function Leaves(merges: seq<Merge>, n: nat, id: nat): seq<nat>
    requires ChildrenBelow(merges, n)
    decreases id
  {
    if id < n then [id]
    else if id - n < |merges| then
      Leaves(merges, n, merges[id - n].left) + Leaves(merges, n, merges[id - n].right)
    else []
  }

  lemma {:induction false} LeavesExtend(merges: seq<Merge>, x: Merge, n: nat, id: nat)
    requires ChildrenBelow(merges + [x], n) && id < n + |merges|
    ensures ChildrenBelow(merges, n)
    ensures Leaves(merges + [x], n, id) == Leaves(merges, n, id)
    decreases id
  {
    assert forall k | 0 <= k < |merges| :: (merges + [x])[k] == merges[k];
    if id >= n {
      LeavesExtend(merges, x, n, merges[id - n].left);
      LeavesExtend(merges, x, n, merges[id - n].right);
    }
  }

  // How often `x` occurs as a member, as a cluster id, as a child.
  function MemberCount(cs: seq<Cluster>, x: nat): nat {
    if cs == [] then 0 else multiset(cs[0].members)[x] + MemberCount(cs[1..], x)
  }

  function IdCount(cs: seq<Cluster>, x: nat): nat {
    if cs == [] then 0 else (if cs[0].id == x then 1 else 0) + IdCount(cs[1..], x)
  }

  function ChildCount(merges: seq<Merge>, x: nat): nat {
    if merges == [] then 0
    else
      var last := merges[|merges| - 1];
      ChildCount(merges[..|merges| - 1], x) + (if last.left == x then 1 else 0) + (if last.right == x then 1 else 0)
  }

  lemma {:induction false} CountsDrop(cs: seq<Cluster>, k: nat, x: nat)
    requires k < |cs|
    ensures IdCount(cs, x) == (if cs[k].id == x then 1 else 0) + IdCount(Without(cs, k), x)
    ensures MemberCount(cs, x) == multiset(cs[k].members)[x] + MemberCount(Without(cs, k), x)
  {
    if k == 0 {
      assert Without(cs, 0) == cs[1..];
    } else {
      CountsDrop(cs[1..], k - 1, x);
      assert Without(cs, k)[1..] == Without(cs[1..], k - 1);
    }
  }

  lemma {:induction false} CountsPush(cs: seq<Cluster>, c: Cluster, x: nat)
    ensures IdCount(cs + [c], x) == IdCount(cs, x) + (if c.id == x then 1 else 0)
    ensures MemberCount(cs + [c], x) == MemberCount(cs, x) + multiset(c.members)[x]
  {
    if cs == [] {
      assert cs + [c] == [c];
    } else {
      CountsPush(cs[1..], c, x);
      assert (cs + [c])[1..] == cs[1..] + [c];
    }
  }

  // ---- the invariant ----------------------------------------------------------------

  ghost predicate ClustersAreTrees(n: nat, s: Stage)
    requires ChildrenBelow(s.merges, n)
  {
    forall k | 0 <= k < |s.clusters| ::
      var c := s.clusters[k];
      c.id < n + |s.merges| && c.members == Leaves(s.merges, n, c.id) && c.members != []
  }

  ghost predicate SizesCount(n: nat, merges: seq<Merge>)
    requires ChildrenBelow(merges, n)
  {
    forall k | 0 <= k < |merges| :: merges[k].size == |Leaves(merges, n, n + k)|
  }

  ghost predicate LastIsNewest(n: nat, s: Stage) {
    s.merges != [] ==> s.clusters != [] && s.clusters[|s.clusters| - 1].id == n + |s.merges| - 1
  }

  // The clusters partition the assets.
  ghost predicate Partition(n: nat, cs: seq<Cluster>) {
    forall x: nat :: MemberCount(cs, x) == if x < n then 1 else 0
  }

  // Every id handed out is a child of one merge or a current cluster, never both.
  ghost predicate OneParent(n: nat, s: Stage) {
    forall x: nat :: ChildCount(s.merges, x) + IdCount(s.clusters, x) == if x < n + |s.merges| then 1 else 0
  }

  ghost predicate GoodStage(n: nat, s: Stage) {
    && ChildrenBelow(s.merges, n)
    && |s.clusters| + |s.merges| == n
    && ClustersAreTrees(n, s)
    && SizesCount(n, s.merges)
    && Partition(n, s.clusters)
    && OneParent(n, s)
    && LastIsNewest(n, s)
  }

  lemma {:induction false} SingletonCounts(n: nat, x: nat)
    ensures MemberCount(Singletons(n), x) == IdCount(Singletons(n), x) == if x < n then 1 else 0
  {
    if n > 0 {
      SingletonCounts(n - 1, x);
      CountsPush(Singletons(n - 1), Cluster(n - 1, [n - 1]), x);
      assert Singletons(n) == Singletons(n - 1) + [Cluster(n - 1, [n - 1])];
    }
  }

  lemma StartIsGood(n: nat)
    ensures GoodStage(n, Stage(Singletons(n), []))
  {
    forall x: nat ensures MemberCount(Singletons(n), x) == IdCount(Singletons(n), x) == if x < n then 1 else 0 {
      SingletonCounts(n, x);
    }
  }

  lemma JoinedCounts(s: Stage, i: nat, j: nat, d: real, id: nat, x: nat)
    requires i < j < |s.clusters|
    ensures var s' := Joined(s, i, j, d, id);
            && MemberCount(s'.clusters, x) == MemberCount(s.clusters, x)
            && ChildCount(s'.merges, x) + IdCount(s'.clusters, x)
               == ChildCount(s.merges, x) + IdCount(s.clusters, x) + (if x == id then 1 else 0)
  {
    var cs := s.clusters;
    var fewer := Without(cs, j);
    assert fewer[i] == cs[i];
    CountsDrop(cs, j, x);
    CountsDrop(fewer, i, x);
    CountsPush(Without(fewer, i), Cluster(id, cs[i].members + cs[j].members), x);
    var s' := Joined(s, i, j, d, id);
    assert s'.merges[..|s'.merges| - 1] == s.merges;
  }

  lemma JoinedTrees(n: nat, s: Stage, i: nat, j: nat, d: real)
    requires GoodStage(n, s) && i < j < |s.clusters|
    ensures var s' := Joined(s, i, j, d, n + |s.merges|);
            ChildrenBelow(s'.merges, n) && ClustersAreTrees(n, s') && SizesCount(n, s'.merges)
  {
    var left, right := s.clusters[i], s.clusters[j];
    var s' := Joined(s, i, j, d, n + |s.merges|);
    var x := s'.merges[|s.merges|];
    forall id | 0 <= id < n + |s.merges| ensures Leaves(s'.merges, n, id) == Leaves(s.merges, n, id) {
      LeavesExtend(s.merges, x, n, id);
    }
    assert Leaves(s'.merges, n, n + |s.merges|) == left.members + right.members;
    forall k | 0 <= k < |s'.clusters| - 1 ensures s'.clusters[k] in s.clusters {
      assert s'.clusters[k] in Without(Without(s.clusters, j), i);
    }
  }

  lemma JoinedPartitions(n: nat, s: Stage, i: nat, j: nat, d: real, id: nat)
    requires Partition(n, s.clusters) && i < j < |s.clusters|
    ensures Partition(n, Joined(s, i, j, d, id).clusters)
  {
    forall x: nat ensures MemberCount(Joined(s, i, j, d, id).clusters, x) == if x < n then 1 else 0 {
      JoinedCounts(s, i, j, d, id, x);
    }
  }

  lemma JoinedParents(n: nat, s: Stage, i: nat, j: nat, d: real, id: nat)
    requires OneParent(n, s) && i < j < |s.clusters| && id == n + |s.merges|
    ensures OneParent(n, Joined(s, i, j, d, id))
  {
    var s' := Joined(s, i, j, d, id);
    assert n + |s'.merges| == id + 1;
    forall x: nat
      ensures ChildCount(s'.merges, x) + IdCount(s'.clusters, x) == if x < n + |s'.merges| then 1 else 0
    {
      JoinedCounts(s, i, j, d, id, x);
    }
  }

  lemma JoinedIsGood(n: nat, s: Stage, i: nat, j: nat, d: real, s': Stage)
    requires GoodStage(n, s) && i < j < |s.clusters| && s' == Joined(s, i, j, d, n + |s.merges|)
    ensures GoodStage(n, s')
  {
    JoinedTrees(n, s, i, j, d);
    JoinedPartitions(n, s, i, j, d, n + |s.merges|);
    JoinedParents(n, s, i, j, d, n + |s.merges|);
  }

  lemma StepPair(m: Matrix, s: Stage, s': Stage) returns (i: nat, j: nat, d: real)
    requires Step(m, s, s')
    ensures i < j < |s.clusters| && s' == Joined(s, i, j, d, |m| + |s.merges|)
    ensures FirstNearest(m, s.clusters, i, j, d)
  {
    i, j, d :| FirstNearest(m, s.clusters, i, j, d) && s' == Joined(s, i, j, d, |m| + |s.merges|);
  }

  lemma StepIsGood(m: Matrix, s: Stage, s': Stage)
    requires GoodStage(|m|, s) && Step(m, s, s')
    ensures GoodStage(|m|, s') && |s'.merges| == |s.merges| + 1
  {
    var i, j, d := StepPair(m, s, s');
    JoinedIsGood(|m|, s, i, j, d, s');
  }

  /** Every stage of every run keeps the invariant. */
  lemma {:induction false} RunIsGood(m: Matrix, run: seq<Stage>, k: nat)
    requires IsRun(m, run) && k < |run|
    ensures GoodStage(|m|, run[k]) && |run[k].merges| == k
  {
    if k == 0 {
      StartIsGood(|m|);
    } else {
      RunIsGood(m, run, k - 1);
      StepIsGood(m, run[k - 1], run[k]);
    }
  }

  // ---- the finished tree -----------------------------------------------------------------

  // One cluster is left.
  ghost predicate Complete(run: seq<Stage>) {
    run != [] && |run[|run| - 1].clusters| == 1
  }

  /** A complete run has n - 1 merges; every id but the root is a child exactly once; the root's
      leaves are the assets in some order, and they are the last cluster. */
  lemma DendrogramIsTree(m: Matrix, run: seq<Stage>)
    requires IsRun(m, run) && Complete(run)
    ensures var merges, n := run[|run| - 1].merges, |m|;
            && n >= 1 && |merges| == n - 1 == |run| - 1
            && ChildrenBelow(merges, n) && SizesCount(n, merges)
            && (forall x: nat :: ChildCount(merges, x) == if x < 2 * n - 2 then 1 else 0)
            && IsOrdering(Leaves(merges, n, 2 * n - 2), n)
            && run[|run| - 1].clusters[0].members == Leaves(merges, n, 2 * n - 2)
  {
    var s, n := run[|run| - 1], |m|;
    RunIsGood(m, run, |run| - 1);
    var root := s.clusters[0];
    assert s.clusters == [root];
    forall x: nat
      ensures IdCount(s.clusters, x) == (if root.id == x then 1 else 0)
      ensures MemberCount(s.clusters, x) == multiset(root.members)[x]
    {
      assert s.clusters[1..] == [];
    }
    RootIsNewest(n, s);
    forall x: nat ensures ChildCount(s.merges, x) == if x < 2 * n - 2 then 1 else 0 {
      assert ChildCount(s.merges, x) + IdCount(s.clusters, x) == if x < 2 * n - 1 then 1 else 0;
    }
    forall x: nat ensures multiset(root.members)[x] == if x < n then 1 else 0 {
      assert MemberCount(s.clusters, x) == if x < n then 1 else 0;
    }
  }

  lemma RootIsNewest(n: nat, s: Stage)
    requires GoodStage(n, s) && |s.clusters| == 1
    ensures s.clusters[0].id == 2 * n - 2
  {
  }

  // Each of `0..n` once, and nothing else.
  ghost predicate IsOrdering(order: seq<nat>, n: nat) {
    forall x: nat :: multiset(order)[x] == if x < n then 1 else 0
  }
}
