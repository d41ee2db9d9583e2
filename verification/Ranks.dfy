/** Average ranks: what the tie-group scan computes, and what ranks add up to. */
module Ranks {
  import opened Types
  import opened Dendrogram
  import opened Linkage

  // ---- counting ----------------------------------------------------------------------

  // Entries below `x`.
  function Below(v: seq<real>, x: real): nat {
    if v == [] then 0 else (if v[0] < x then 1 else 0) + Below(v[1..], x)
  }

  // Entries equal to `x`.
  function Equal(v: seq<real>, x: real): nat {
    if v == [] then 0 else (if v[0] == x then 1 else 0) + Equal(v[1..], x)
  }

  // Twice the average of the places the entries equal to `x` take: Below + 1 up to Below + Equal.
  function TwiceRank(v: seq<real>, x: real): nat {
    2 * Below(v, x) + Equal(v, x) + 1
  }

  function RankOf(v: seq<real>, i: nat): real
    requires i < |v|
  {
    TwiceRank(v, v[i]) as real / 2.0
  }

  lemma {:induction false} CountsSplit(v: seq<real>, k: nat, x: real)
    requires k < |v|
    ensures var rest := v[..k] + v[k + 1..];
            && Below(v, x) == Below(rest, x) + (if v[k] < x then 1 else 0)
            && Equal(v, x) == Equal(rest, x) + (if v[k] == x then 1 else 0)
  {
    if k == 0 {
      assert v[..0] + v[1..] == v[1..];
    } else {
      CountsSplit(v[1..], k - 1, x);
      assert (v[..k] + v[k + 1..])[1..] == v[1..][..k - 1] + v[1..][k..];
    }
  }

  lemma CountsLast(v: seq<real>, x: real)
    requires v != []
    ensures var init, last := v[..|v| - 1], v[|v| - 1];
            && Below(v, x) == Below(init, x) + (if last < x then 1 else 0)
            && Equal(v, x) == Equal(init, x) + (if last == x then 1 else 0)
  {
    CountsSplit(v, |v| - 1, x);
    assert v[..|v| - 1] + v[|v| - 1 + 1..] == v[..|v| - 1];
  }

  // ---- reading the values in sorted order ------------------------------------------------

  function Mapped(v: seq<real>, order: seq<nat>): (r: seq<real>)
    requires InRange(order, |v|)
    ensures |r| == |order|
  {
    seq(|order|, k requires 0 <= k < |order| => assert order[k] in order; v[order[k]])
  }

  ghost predicate SortedBy(v: seq<real>, order: seq<nat>)
    requires InRange(order, |v|)
  {
    forall a, b | 0 <= a <= b < |order| :: Mapped(v, order)[a] <= Mapped(v, order)[b]
  }

  lemma OrderingDrop(order: seq<nat>, n: nat, k: nat)
    requires IsOrdering(order, n) && k < |order| && order[k] == n - 1
    ensures IsOrdering(order[..k] + order[k + 1..], n - 1)
  {
    var rest: seq<nat> := order[..k] + order[k + 1..];
    forall x: nat ensures multiset(rest)[x] == if x < n - 1 then 1 else 0 {
      assert order == order[..k] + [order[k]] + order[k + 1..];
      assert multiset(order)[x] == if x < n then 1 else 0;
    }
  }

  lemma OrderingPosition(order: seq<nat>, n: nat) returns (k: nat)
    requires IsOrdering(order, n) && n > 0
    ensures k < |order| && order[k] == n - 1
  {
    assert multiset(order)[n - 1] == 1;
    assert n - 1 in multiset(order);
    k :| 0 <= k < |order| && order[k] == n - 1;
  }

  lemma OrderingInRange(order: seq<nat>, n: nat)
    requires IsOrdering(order, n)
    ensures InRange(order, n) && |order| == n && Distinct(order)
  {
    OrderingIffUnique(order, n);
  }

  lemma MappedDrop(v: seq<real>, order: seq<nat>, k: nat, rest: seq<nat>)
    requires v != [] && InRange(order, |v|) && k < |order| && rest == order[..k] + order[k + 1..]
    requires InRange(rest, |v| - 1)
    ensures Mapped(v, order)[..k] + Mapped(v, order)[k + 1..] == Mapped(v[..|v| - 1], rest)
  {
    var s := Mapped(v, order);
    var left, right := s[..k] + s[k + 1..], Mapped(v[..|v| - 1], rest);
    forall e | 0 <= e < |rest| ensures left[e] == right[e] {
      assert rest[e] in rest;
    }
  }

  /** Counting along a permutation counts the same entries. */
  lemma {:induction false} MappedCounts(v: seq<real>, order: seq<nat>, x: real)
    requires IsOrdering(order, |v|) && InRange(order, |v|)
    ensures Below(Mapped(v, order), x) == Below(v, x) && Equal(Mapped(v, order), x) == Equal(v, x)
  {
    var n := |v|;
    OrderingInRange(order, n);
    if n > 0 {
      var k := OrderingPosition(order, n);
      var rest := order[..k] + order[k + 1..];
      OrderingDrop(order, n, k);
      OrderingInRange(rest, n - 1);
      MappedCounts(v[..n - 1], rest, x);
      CountsSplit(Mapped(v, order), k, x);
      CountsLast(v, x);
      MappedDrop(v, order, k, rest);
    }
  }

  // ---- a tie group in sorted values ------------------------------------------------------

  ghost predicate Ascends(s: seq<real>) {
    forall a, b | 0 <= a <= b < |s| :: s[a] <= s[b]
  }

  // `s[i..j]` is a whole run of equal values.
  ghost predicate IsGroup(s: seq<real>, i: nat, j: nat) {
    && i < j <= |s|
    && (forall k | i <= k < j :: s[k] == s[i])
    && (i > 0 ==> s[i - 1] < s[i])
    && (j < |s| ==> s[i] < s[j])
  }

  lemma {:induction false} CountsOfParts(s: seq<real>, x: real, i: nat, j: nat)
    requires i <= j <= |s|
    requires forall k | 0 <= k < i :: s[k] < x
    requires forall k | i <= k < j :: s[k] == x
    requires forall k | j <= k < |s| :: x < s[k]
    ensures Below(s, x) == i && Equal(s, x) == j - i
  {
    if s != [] {
      CountsOfParts(s[1..], x, if i > 0 then i - 1 else 0, if j > 0 then j - 1 else 0);
    }
  }

  lemma GroupCounts(s: seq<real>, i: nat, j: nat)
    requires Ascends(s) && IsGroup(s, i, j)
    ensures TwiceRank(s, s[i]) == i + 1 + j
  {
    forall k | 0 <= k < i ensures s[k] < s[i] {
      assert s[k] <= s[i - 1];
    }
    forall k | j <= k < |s| ensures s[i] < s[k] {
      assert s[j] <= s[k];
    }
    CountsOfParts(s, s[i], i, j);
  }

  // ---- the scan ----------------------------------------------------------------------------

  lemma GroupRank(v: seq<real>, order: seq<nat>, i: nat, j: nat, k: nat)
    requires IsOrdering(order, |v|) && InRange(order, |v|) && SortedBy(v, order)
    requires IsGroup(Mapped(v, order), i, j) && i <= k < j
    ensures order[k] < |v| && RankOf(v, order[k]) == (i + 1 + j) as real / 2.0
  {
    var s := Mapped(v, order);
    assert order[k] in order;
    GroupCounts(s, i, j);
    MappedCounts(v, order, s[i]);
    assert s[k] == v[order[k]];
  }

  /** Ranks from any sorted order of the indices: the scan over tie groups gives every entry its
      average rank, whichever sort produced the order. */
  method RankBy(v: seq<real>, order: seq<nat>) returns (ranks: array<real>)
    requires IsOrdering(order, |v|) && InRange(order, |v|) && |order| == |v| && SortedBy(v, order)
    ensures fresh(ranks) && ranks.Length == |v|
    ensures forall i | 0 <= i < |v| :: ranks[i] == RankOf(v, i)
  {
    var n := |v|;
    ghost var s := Mapped(v, order);
    ranks := new real[n](_ => 0.0);
    var i := 0;
    while i < n
      invariant i <= n && (0 < i < n ==> s[i - 1] < s[i])
      invariant forall k | 0 <= k < i :: order[k] < n && ranks[order[k]] == RankOf(v, order[k])
    {
      assert order[i] in order;
      var j := i + 1;
      while j < n && (assert order[j] in order; v[order[j]]) == v[order[i]]
        invariant i < j <= n && forall k | i <= k < j :: s[k] == s[i]
      {
        assert s[j] == v[order[j]] && s[i] == v[order[i]];
        j := j + 1;
      }
      assert j < n ==> s[i] < s[j] by {
        if j < n {
          assert order[j] in order;
          assert s[i] <= s[j];
        }
      }
      var average := (i + 1 + j) as real / 2.0;
      for e := i to j
        invariant forall k | 0 <= k < e :: order[k] < n && ranks[order[k]] == RankOf(v, order[k])
      {
        GroupRank(v, order, i, j, e);
        ranks[order[e]] := average;
      }
      i := j;
    }
    forall p | 0 <= p < n ensures ranks[p] == RankOf(v, p) {
      InOrder(order, n, p);
    }
  }

  lemma InOrder(order: seq<nat>, n: nat, p: nat)
    requires IsOrdering(order, n) && p < n
    ensures exists k :: 0 <= k < |order| && order[k] == p
  {
    assert multiset(order)[p] == 1;
    assert p in multiset(order);
  }

  // ---- sorting the indices -----------------------------------------------------------------

  lemma InsertOrdering(order: seq<nat>, x: nat, p: nat)
    requires IsOrdering(order, x) && p <= |order|
    ensures IsOrdering(order[..p] + [x] + order[p..], x + 1)
  {
    var next: seq<nat> := order[..p] + [x] + order[p..];
    forall y: nat ensures multiset(next)[y] == if y < x + 1 then 1 else 0 {
      assert order == order[..p] + order[p..];
      assert multiset(order)[y] == if y < x then 1 else 0;
    }
  }

  lemma InsertSorts(v: seq<real>, order: seq<nat>, x: nat, p: nat)
    requires InRange(order, |v|) && x < |v| && p <= |order| && SortedBy(v, order)
    requires forall k | 0 <= k < p :: Mapped(v, order)[k] <= v[x]
    requires p < |order| ==> v[x] < Mapped(v, order)[p]
    ensures InRange(order[..p] + [x] + order[p..], |v|)
    ensures SortedBy(v, order[..p] + [x] + order[p..])
  {
    var next := order[..p] + [x] + order[p..];
    forall y | y in next ensures y < |v| {
      assert y in order || y == x;
    }
    var s, s' := Mapped(v, order), Mapped(v, next);
    assert s' == s[..p] + [v[x]] + s[p..];
    forall k | p <= k < |s| ensures v[x] < s[k] {
      assert s[p] <= s[k];
    }
  }

  method SortIndices(v: seq<real>) returns (order: seq<nat>)
    ensures IsOrdering(order, |v|) && InRange(order, |v|) && SortedBy(v, order)
  {
    order := [];
    for x := 0 to |v|
      invariant IsOrdering(order, x) && InRange(order, |v|) && SortedBy(v, order)
    {
      var p := 0;
      while p < |order| && Mapped(v, order)[p] <= v[x]
        invariant p <= |order| && forall k | 0 <= k < p :: Mapped(v, order)[k] <= v[x]
      {
        p := p + 1;
      }
      InsertOrdering(order, x, p);
      InsertSorts(v, order, x, p);
      order := order[..p] + [x] + order[p..];
    }
  }

  // ---- the function, with missing values -------------------------------------------------

  function Values(data: seq<Option<real>>): (v: seq<real>)
    requires forall i | 0 <= i < |data| :: data[i].Some?
    ensures |v| == |data| && forall i | 0 <= i < |data| :: data[i] == Some(v[i])
  {
    seq(|data|, i requires 0 <= i < |data| => data[i].value)
  }

  /** One missing value makes every rank missing; otherwise every entry gets its average rank. */
  method RankData(data: seq<Option<real>>) returns (ranks: seq<Option<real>>)
    ensures |ranks| == |data|
    ensures (exists i | 0 <= i < |data| :: data[i].None?) ==> forall i | 0 <= i < |data| :: ranks[i].None?
    ensures (forall i | 0 <= i < |data| :: data[i].Some?) ==>
              forall i | 0 <= i < |data| :: ranks[i] == Some(RankOf(Values(data), i))
  {
    var n := |data|;
    if exists i | 0 <= i < n :: data[i].None? {
      return seq(n, _ => None);
    }
    var v := Values(data);
    var order := SortIndices(v);
    OrderingInRange(order, n);
    var found := RankBy(v, order);
    var r := found[..];
    ranks := seq(n, i requires 0 <= i < n => Some(r[i]));
  }

  // ---- what ranks mean together ---------------------------------------------------------

  lemma {:induction false} BelowGrows(v: seq<real>, x: real, y: real)
    requires x < y
    ensures Below(v, x) + Equal(v, x) <= Below(v, y)
  {
    if v != [] {
      BelowGrows(v[1..], x, y);
    }
  }

  lemma {:induction false} EqualPositive(v: seq<real>, i: nat)
    requires i < |v|
    ensures Equal(v, v[i]) >= 1
  {
    if i > 0 {
      EqualPositive(v[1..], i - 1);
    }
  }

  /** Ranks order the entries as their values do, ties included. */
  lemma RanksFollowValues(v: seq<real>, i: nat, j: nat)
    requires i < |v| && j < |v|
    ensures RankOf(v, i) < RankOf(v, j) <==> v[i] < v[j]
    ensures RankOf(v, i) == RankOf(v, j) <==> v[i] == v[j]
  {
    EqualPositive(v, i);
    EqualPositive(v, j);
    if v[i] < v[j] {
      BelowGrows(v, v[i], v[j]);
    } else if v[j] < v[i] {
      BelowGrows(v, v[j], v[i]);
    }
  }

  // Twice the ranks, against `v`, of the entries of `w`.
  function TwiceTotal(v: seq<real>, w: seq<real>): nat {
    if w == [] then 0 else TwiceTotal(v, w[..|w| - 1]) + TwiceRank(v, w[|w| - 1])
  }

  // Every entry of `w` is pushed up by 2 if `x` is below it and by 1 if it is equal.
  lemma {:induction false} TotalPush(v: seq<real>, w: seq<real>, x: real)
    ensures TwiceTotal(v + [x], w) + 2 * Below(w, x) + Equal(w, x) == TwiceTotal(v, w) + 2 * |w|
  {
    if w != [] {
      var y := w[|w| - 1];
      TotalPush(v, w[..|w| - 1], x);
      CountsLast(w, x);
      CountsLast(v + [x], y);
      assert (v + [x])[..|v|] == v;
    }
  }

  /** The ranks of `n` entries add up to n(n + 1)/2, whatever the ties. */
  lemma {:induction false} RanksSum(v: seq<real>)
    ensures TwiceTotal(v, v) == |v| * (|v| + 1)
  {
    if v != [] {
      var init, x := v[..|v| - 1], v[|v| - 1];
      assert v == init + [x];
      RanksSum(init);
      TotalPush(init, init, x);
      CountsLast(v, x);
      SquareStep(|init|);
    }
  }

  lemma SquareStep(n: nat)
    ensures n * (n + 1) + 2 * (n + 1) == (n + 1) * (n + 2)
  {
  }
}
