/**
 Summaries that may have counted some of their samples more than once: the bounds
 are right, the count is too high or right, and with the right count so is the sum.
 */
module Overcounts {
  import opened Calendar
  import opened Summaries

  ghost predicate AtLeast(a: Summary, e: Summary) {
    && (a.Nothing? <==> e.Nothing?)
    && (a.Stats? ==> a.min == e.min && a.max == e.max && e.count <= a.count && (a.count == e.count ==> a.sum == e.sum))
  }

  /** What is counted twice on one side of a merge shows in the result, so the result is right only if both sides are. */
  lemma MergeAtLeast(a: Summary, e: Summary, b: Summary, f: Summary)
    requires AtLeast(a, e) && AtLeast(b, f)
    ensures AtLeast(Merge(a, b), Merge(e, f))
    ensures Merge(a, b) == Merge(e, f) <==> a == e && b == f
  {}

  /** Merging a part once more keeps the bounds and raises the count. */
  lemma RepeatedPart(a: Summary, n: Summary)
    requires n.Nothing? || n.Sound()
    ensures AtLeast(Merge(Merge(a, n), n), Merge(a, n))
    ensures Merge(Merge(a, n), n) == Merge(a, n) <==> n.Nothing?
  {}

  ghost predicate AllAtLeast(m: Table, n: Table) {
    m.Keys == n.Keys && forall k :: k in m ==> AtLeast(m[k], n[k])
  }

  lemma SplitAtLeast(m: Table, n: Table, k: Key)
    requires AllAtLeast(m, n) && k in m
    ensures k in n && AllAtLeast(m - {k}, n - {k}) && |m - {k}| < |m|
    ensures m == n <==> m[k] == n[k] && m - {k} == n - {k}
  {
    hide AtLeast;
    var m', n' := m - {k}, n - {k};
    assert m'.Keys == m.Keys - {k} == n'.Keys;
    SmallerMap(m', m);
    assert m == m'[k := m[k]] && n == n'[k := n[k]];
  }

  /** A total is right only if every summary that went into it is. */
  lemma {:induction false} TotalAtLeast(m: Table, n: Table)
    requires AllAtLeast(m, n)
    ensures AtLeast(Total(m), Total(n))
    ensures Total(m) == Total(n) <==> m == n
    decreases |m|
  {
    if m.Keys == {} {
      assert m == n;
    } else {
      var k :| k in m.Keys;
      SplitAtLeast(m, n, k);
      TotalRemove(m, k);
      TotalRemove(n, k);
      assert AtLeast(m[k], n[k]);
      hide *;
      TotalAtLeast(m - {k}, n - {k});
      MergeAtLeast(m[k], n[k], Total(m - {k}), Total(n - {k}));
    }
  }

  lemma GroupAtLeast(t: Table, u: Table, f: Instant -> Instant, k: Key)
    requires AllAtLeast(t, u)
    ensures AllAtLeast(Group(t, f, k), Group(u, f, k))
  {
    assert Group(t, f, k).Keys == Group(u, f, k).Keys;
  }

  /** A rollup of summaries is right exactly if every one of them is. */
  lemma RollUpAtLeast(t: Table, u: Table, f: Instant -> Instant)
    requires AllAtLeast(t, u)
    ensures AllAtLeast(RollUp(t, f), RollUp(u, f))
    ensures RollUp(t, f) == RollUp(u, f) <==> t == u
  {
    hide AtLeast;
    var left, right := RollUp(t, f), RollUp(u, f);
    assert Buckets(t, f) == Buckets(u, f);
    forall k | k in left ensures AtLeast(left[k], right[k]) && (left[k] == right[k] <==> Group(t, f, k) == Group(u, f, k)) {
      GroupAtLeast(t, u, f, k);
      TotalAtLeast(Group(t, f, k), Group(u, f, k));
    }
    if left == right {
      forall q | q in t ensures t[q] == u[q] {
        var k := BucketOf(q, f);
        assert k in left;
        assert Group(t, f, k)[q] == t[q] && Group(u, f, k)[q] == u[q];
      }
    }
  }

  lemma UnionAtLeast(a: Table, t: Table, u: Table)
    requires AllAtLeast(t, u) && a.Keys !! t.Keys && forall k :: k in a ==> a[k].Stats?
    ensures AllAtLeast(a + t, a + u)
    ensures a + t == a + u <==> t == u
  {
    var left, right := a + t, a + u;
    assert left.Keys == right.Keys;
    forall k | k in left ensures AtLeast(left[k], right[k]) {}
    if left == right {
      forall k | k in t ensures t[k] == u[k] {
        assert left[k] == t[k] && right[k] == u[k];
      }
    }
  }
}
