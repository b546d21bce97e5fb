/**
 The (count, sum, min, max) summary kept for a set of samples, the tables that
 hold one summary per (series, instant), and the algebra of grouping a table by
 a truncation of its instants.  A raw sample is a table entry that summarises
 itself, so raw points, hourly rollups and daily rollups are all tables.
 */
module Summaries {

  import opened Calendar

  /** A series uuid, as the number its bytes spell, so that uuids are ordered. */
  type Series = int

  datatype Summary = Nothing | Stats(count: int, sum: real, min: real, max: real) {

    /** Holds of every summary of at least one sample. */
    ghost predicate Sound() {
      Stats? && count >= 1 && min <= max
      && count as real * min <= sum <= count as real * max
    }
  }

  function Single(v: real): Summary {
    Stats(1, v, v, v)
  }

  function Merge(a: Summary, b: Summary): Summary {
    if a.Nothing? then b
    else if b.Nothing? then a
    else Stats(a.count + b.count, a.sum + b.sum,
               if b.min < a.min then b.min else a.min,
               if b.max > a.max then b.max else a.max)
  }

  lemma MergeAssoc(a: Summary, b: Summary, c: Summary)
    ensures Merge(a, Merge(b, c)) == Merge(Merge(a, b), c)
  {}

  lemma Scaled(c: real, x: real, y: real)
    requires c >= 0.0 && x <= y
    ensures c * x <= c * y
  {}

  lemma Distribute(c: real, d: real, x: real)
    ensures (c + d) * x == c * x + d * x
  {}

  /** Sums that are bounded from below by their counts times a number are bounded together. */
  lemma BelowBoth(c: real, d: real, x: real, y: real, least: real, sum: real, other: real)
    requires c >= 0.0 && d >= 0.0 && least <= x && least <= y && c * x <= sum && d * y <= other
    ensures (c + d) * least <= sum + other
  {
    Scaled(c, least, x);
    Scaled(d, least, y);
    Distribute(c, d, least);
  }

  lemma AboveBoth(c: real, d: real, x: real, y: real, most: real, sum: real, other: real)
    requires c >= 0.0 && d >= 0.0 && x <= most && y <= most && sum <= c * x && other <= d * y
    ensures sum + other <= (c + d) * most
  {
    Scaled(c, x, most);
    Scaled(d, y, most);
    Distribute(c, d, most);
  }

  lemma MergeSound(a: Summary, b: Summary)
    requires a.Sound() && b.Sound()
    ensures Merge(a, b).Sound()
  {
    var m := Merge(a, b);
    assert m.count as real == a.count as real + b.count as real;
    BelowBoth(a.count as real, b.count as real, a.min, b.min, m.min, a.sum, b.sum);
    AboveBoth(a.count as real, b.count as real, a.max, b.max, m.max, a.sum, b.sum);
  }

  /** The merge of all summaries of a finite map; the order does not matter, as TotalRemove shows. */
  ghost function Total<K>(m: map<K, Summary>): Summary {
    if m.Keys == {} then Nothing
    else
      var k :| k in m.Keys;
      Merge(m[k], Total(m - {k}))
  }

  lemma MergeSwap(a: Summary, b: Summary, c: Summary)
    ensures Merge(a, Merge(b, c)) == Merge(b, Merge(a, c))
  {}

  lemma RemoveTwo<K, V>(m: map<K, V>, c: K, k: K)
    requires c in m && k in m && c != k
    ensures k in m - {c} && c in m - {k} && m - {c} - {k} == m - {k} - {c}
    ensures |m - {c}| < |m| && |m - {k}| < |m|
  {
    assert (m - {c}).Keys == m.Keys - {c} && (m - {k}).Keys == m.Keys - {k};
    SmallerMap(m - {c}, m);
    SmallerMap(m - {k}, m);
  }

  lemma {:induction false} TotalRemove<K>(m: map<K, Summary>, k: K)
    requires k in m
    ensures Total(m) == Merge(m[k], Total(m - {k}))
    decreases |m|
  {
    hide Merge;
    var c :| c in m.Keys && Total(m) == Merge(m[c], Total(m - {c}));
    if c != k {
      hide Total;
      RemoveTwo(m, c, k);
      TotalRemove(m - {c}, k);
      TotalRemove(m - {k}, c);
      MergeSwap(m[c], m[k], Total(m - {c} - {k}));
    }
  }

  lemma UnionWithout<K>(a: map<K, Summary>, b: map<K, Summary>, k: K)
    requires k in a && k !in b
    ensures (a + b) - {k} == (a - {k}) + b
  {
    var left, right := (a + b) - {k}, (a - {k}) + b;
    assert left.Keys == right.Keys;
    assert forall j :: j in left ==> left[j] == right[j];
  }

  lemma {:induction false} TotalUnion<K>(a: map<K, Summary>, b: map<K, Summary>)
    requires a.Keys !! b.Keys
    ensures Total(a + b) == Merge(Total(a), Total(b))
    decreases a.Keys
  {
    if a.Keys == {} {
      assert a + b == b;
    } else {
      var k :| k in a.Keys;
      var rest := a - {k};
      assert rest.Keys == a.Keys - {k};
      assert Total(a) == Merge(a[k], Total(rest)) by {
        TotalRemove(a, k);
      }
      assert Total(a + b) == Merge(a[k], Total(rest + b)) by {
        TotalRemove(a + b, k);
        UnionWithout(a, b, k);
      }
      TotalUnion(rest, b);
      MergeAssoc(a[k], Total(rest), Total(b));
    }
  }

  datatype Key = Key(series: Series, ts: Instant)

  type Table = map<Key, Summary>

  ghost predicate AllSound(t: Table) {
    forall k :: k in t ==> t[k].Sound()
  }

  /** Every entry is one sample: the shape of the raw data table. */
  ghost predicate AllSingle(t: Table) {
    forall k :: k in t ==> t[k].Stats? && t[k] == Single(t[k].sum)
  }

  lemma {:induction false} TotalSound<K>(m: map<K, Summary>)
    requires m.Keys != {}
    requires forall k :: k in m ==> m[k].Sound()
    ensures Total(m).Sound()
    decreases |m|
  {
    var k :| k in m.Keys;
    TotalRemove(m, k);
    if m.Keys != {k} {
      assert (m - {k}).Keys == m.Keys - {k};
      TotalSound(m - {k});
      MergeSound(m[k], Total(m - {k}));
    } else {
      assert m - {k} == map[];
    }
  }

  lemma {:induction false} TotalCountsSamples<K>(m: map<K, Summary>)
    requires m.Keys != {}
    requires forall k :: k in m ==> m[k].Stats? && m[k].count == 1
    ensures Total(m).Stats? && Total(m).count == |m|
    decreases |m|
  {
    var k :| k in m.Keys;
    TotalRemove(m, k);
    assert (m - {k}).Keys == m.Keys - {k};
    assert |m| == |m - {k}| + 1 by { assert |m.Keys| == |m|; assert |(m - {k}).Keys| == |m - {k}|; }
    if m.Keys != {k} {
      TotalCountsSamples(m - {k});
    } else {
      assert m - {k} == map[];
    }
  }

  function Lookup(t: Table, k: Key): Summary {
    if k in t then t[k] else Nothing
  }

  /** The union of two tables in which entries under a common key are merged (an upsert). */
  function MergeTables(a: Table, b: Table): (r: Table)
    ensures r.Keys == a.Keys + b.Keys
  {
    map k | k in a.Keys + b.Keys :: Merge(Lookup(a, k), Lookup(b, k))
  }

  /** Where the entry under key q goes when instants are truncated by f. */
  function BucketOf(q: Key, f: Instant -> Instant): Key {
    Key(q.series, f(q.ts))
  }

  function Buckets(t: Table, f: Instant -> Instant): set<Key> {
    set q | q in t :: BucketOf(q, f)
  }

  function Group(t: Table, f: Instant -> Instant, k: Key): Table {
    map q | q in t && BucketOf(q, f) == k :: t[q]
  }

  /** SELECT series, f(ts), merged summary FROM t GROUP BY series, f(ts). */
  ghost function RollUp(t: Table, f: Instant -> Instant): (r: Table)
    ensures r.Keys == Buckets(t, f)
  {
    map k | k in Buckets(t, f) :: Total(Group(t, f, k))
  }

  lemma RollUpAt(t: Table, f: Instant -> Instant, k: Key)
    ensures Lookup(RollUp(t, f), k) == Total(Group(t, f, k))
  {
    if k !in Buckets(t, f) {
      assert Group(t, f, k) == map[];
    }
  }

  lemma BucketsNonEmpty(t: Table, f: Instant -> Instant, k: Key)
    ensures k in Buckets(t, f) <==> Group(t, f, k).Keys != {}
  {
    if k in Buckets(t, f) {
      var q :| q in t && BucketOf(q, f) == k;
      assert q in Group(t, f, k);
    }
  }

  /** Grouping keeps soundness: every bucket has min <= sum / count <= max. */
  lemma RollUpSound(t: Table, f: Instant -> Instant)
    requires AllSound(t)
    ensures AllSound(RollUp(t, f))
  {
    forall k | k in RollUp(t, f) ensures RollUp(t, f)[k].Sound() {
      BucketsNonEmpty(t, f, k);
      TotalSound(Group(t, f, k));
    }
  }

  lemma BucketsUnion(a: Table, b: Table, f: Instant -> Instant)
    ensures Buckets(a + b, f) == Buckets(a, f) + Buckets(b, f)
  {
    forall q | q in a ensures BucketOf(q, f) in Buckets(a + b, f) {
      assert q in a + b;
    }
    forall q | q in b ensures BucketOf(q, f) in Buckets(a + b, f) {
      assert q in a + b;
    }
  }

  lemma GroupUnion(a: Table, b: Table, f: Instant -> Instant, k: Key)
    requires a.Keys !! b.Keys
    ensures Group(a + b, f, k) == Group(a, f, k) + Group(b, f, k)
  {}

  lemma RollUpUnionAt(a: Table, b: Table, f: Instant -> Instant, k: Key)
    requires a.Keys !! b.Keys
    ensures Lookup(RollUp(a + b, f), k) == Merge(Lookup(RollUp(a, f), k), Lookup(RollUp(b, f), k))
  {
    assert Lookup(RollUp(a + b, f), k) == Total(Group(a, f, k) + Group(b, f, k)) by {
      RollUpAt(a + b, f, k);
      GroupUnion(a, b, f, k);
    }
    RollUpAt(a, f, k);
    RollUpAt(b, f, k);
    assert Group(a, f, k).Keys <= a.Keys && Group(b, f, k).Keys <= b.Keys;
    TotalUnion(Group(a, f, k), Group(b, f, k));
  }

  /** Grouping a disjoint union is merging the two groupings. */
  lemma RollUpUnion(a: Table, b: Table, f: Instant -> Instant)
    requires a.Keys !! b.Keys
    ensures RollUp(a + b, f) == MergeTables(RollUp(a, f), RollUp(b, f))
  {
    var whole, merged := RollUp(a + b, f), MergeTables(RollUp(a, f), RollUp(b, f));
    BucketsUnion(a, b, f);
    forall k | k in whole ensures whole[k] == merged[k] {
      RollUpUnionAt(a, b, f, k);
    }
  }

  lemma MergeFour(a: Summary, b: Summary, c: Summary, d: Summary)
    ensures Merge(Merge(a, b), Merge(c, d)) == Merge(Merge(a, c), Merge(b, d))
  {}

  lemma TotalWithout(t: Table, k: Key)
    ensures Total(t) == Merge(Lookup(t, k), Total(t - {k}))
  {
    if k in t {
      TotalRemove(t, k);
    } else {
      assert t - {k} == t;
    }
  }

  lemma MergeTablesWithout(a: Table, b: Table, k: Key)
    ensures MergeTables(a, b) - {k} == MergeTables(a - {k}, b - {k})
  {
    hide Merge;
    var left, right := MergeTables(a, b) - {k}, MergeTables(a - {k}, b - {k});
    assert left.Keys == right.Keys;
    forall j | j in left ensures left[j] == right[j] {}
  }

  /** What two tables summarise together, their common keys included. */
  lemma {:induction false} TotalOfMerged(a: Table, b: Table)
    ensures Total(MergeTables(a, b)) == Merge(Total(a), Total(b))
    decreases |MergeTables(a, b)|
  {
    var m := MergeTables(a, b);
    if m.Keys == {} {
      assert a.Keys == {} && b.Keys == {};
    } else {
      var k :| k in m.Keys;
      SmallerMap(m - {k}, m);
      MergeTablesWithout(a, b, k);
      MergeTablesAt(a, b, k);
      hide *;
      TotalWithout(m, k);
      TotalWithout(a, k);
      TotalWithout(b, k);
      TotalOfMerged(a - {k}, b - {k});
      MergeFour(Lookup(a, k), Lookup(b, k), Total(a - {k}), Total(b - {k}));
    }
  }

  lemma GroupOfMerged(a: Table, b: Table, f: Instant -> Instant, k: Key)
    ensures Group(MergeTables(a, b), f, k) == MergeTables(Group(a, f, k), Group(b, f, k))
  {
    hide Merge;
    var left, right := Group(MergeTables(a, b), f, k), MergeTables(Group(a, f, k), Group(b, f, k));
    assert left.Keys == right.Keys;
    forall q | q in left ensures left[q] == right[q] {}
  }

  lemma BucketsOfMerged(a: Table, b: Table, f: Instant -> Instant)
    ensures Buckets(MergeTables(a, b), f) == Buckets(a, f) + Buckets(b, f)
  {
    forall q | q in a ensures BucketOf(q, f) in Buckets(MergeTables(a, b), f) { assert q in MergeTables(a, b); }
    forall q | q in b ensures BucketOf(q, f) in Buckets(MergeTables(a, b), f) { assert q in MergeTables(a, b); }
  }

  /** Grouping what two tables hold together is merging the two groupings, whether or not they have keys in common. */
  lemma RollUpOfMerged(a: Table, b: Table, f: Instant -> Instant)
    ensures RollUp(MergeTables(a, b), f) == MergeTables(RollUp(a, f), RollUp(b, f))
  {
    BucketsOfMerged(a, b, f);
    hide RollUp, Merge, Lookup, Total, Group, Buckets;
    var left, right := RollUp(MergeTables(a, b), f), MergeTables(RollUp(a, f), RollUp(b, f));
    assert left.Keys == right.Keys;
    forall k | k in left ensures left[k] == right[k] {
      RollUpAt(MergeTables(a, b), f, k);
      RollUpAt(a, f, k);
      RollUpAt(b, f, k);
      GroupOfMerged(a, b, f, k);
      TotalOfMerged(Group(a, f, k), Group(b, f, k));
      LookupOf(left, k);
      MergeTablesAt(RollUp(a, f), RollUp(b, f), k);
      LookupOf(right, k);
    }
  }

  lemma LookupOf(t: Table, k: Key)
    requires k in t
    ensures Lookup(t, k) == t[k]
  {}

  lemma MergeTablesAssoc(a: Table, b: Table, c: Table)
    ensures MergeTables(a, MergeTables(b, c)) == MergeTables(MergeTables(a, b), c)
  {
    hide Merge, Lookup;
    var left, right := MergeTables(a, MergeTables(b, c)), MergeTables(MergeTables(a, b), c);
    assert left.Keys == right.Keys;
    forall k | k in left ensures left[k] == right[k] {
      MergeTablesAt(b, c, k);
      MergeTablesAt(a, b, k);
      MergeAssoc(Lookup(a, k), Lookup(b, k), Lookup(c, k));
    }
  }

  /** Conservation: the buckets together summarise exactly the entries that were grouped. */
  lemma {:induction false} RollUpConserves(t: Table, f: Instant -> Instant)
    ensures Total(RollUp(t, f)) == Total(t)
    decreases |t|
  {
    if t.Keys == {} {
      assert RollUp(t, f).Keys == {};
    } else {
      var q :| q in t.Keys;
      var k := BucketOf(q, f);
      var g := Group(t, f, k);
      var rest := t - g.Keys;
      assert t == g + rest;
      assert q in g && rest.Keys == t.Keys - g.Keys;
      assert rest.Keys < t.Keys;
      SmallerMap(rest, t);
      RollUpConserves(rest, f);
      TotalUnion(g, rest);
      RemoveBucket(t, f, k);
      TotalRemove(RollUp(t, f), k);
    }
  }

  lemma SmallerMap<K, V>(a: map<K, V>, b: map<K, V>)
    requires a.Keys < b.Keys
    ensures |a| < |b|
  {
    SmallerSet(a.Keys, b.Keys);
    assert |a| == |a.Keys| && |b| == |b.Keys|;
  }

  lemma SmallerSet<K>(a: set<K>, b: set<K>)
    requires a < b
    ensures |a| < |b|
  {
    assert b == a + (b - a);
    assert b - a != {};
  }

  lemma RemoveBucket(t: Table, f: Instant -> Instant, k: Key)
    requires k in Buckets(t, f)
    ensures RollUp(t, f) - {k} == RollUp(t - Group(t, f, k).Keys, f)
  {
    var rest := t - Group(t, f, k).Keys;
    assert Buckets(rest, f) == Buckets(t, f) - {k} by {
      forall j | j in Buckets(t, f) && j != k ensures j in Buckets(rest, f) {
        var q :| q in t && BucketOf(q, f) == j;
        assert q in rest;
      }
    }
    forall j | j in Buckets(rest, f) ensures RollUp(t, f)[j] == RollUp(rest, f)[j] {
      assert Group(t, f, j) == Group(rest, f, j);
    }
  }

  /** Grouping by a fine truncation and then by a coarser one is grouping by the coarser one. */
  lemma RollUpCompose(t: Table, f: Instant -> Instant, g: Instant -> Instant)
    requires forall q :: q in t ==> g(f(q.ts)) == g(q.ts)
    ensures RollUp(RollUp(t, f), g) == RollUp(t, g)
  {
    var fine := RollUp(t, f);
    assert Buckets(fine, g) == Buckets(t, g) by {
      forall q | q in t ensures BucketOf(BucketOf(q, f), g) == BucketOf(q, g) && BucketOf(q, f) in fine {}
    }
    forall k | k in Buckets(t, g) ensures RollUp(fine, g)[k] == RollUp(t, g)[k] {
      GroupThenRollUp(t, f, g, k);
      RollUpConserves(Group(t, g, k), f);
    }
  }

  lemma BucketsOfGroup(t: Table, f: Instant -> Instant, g: Instant -> Instant, k: Key)
    requires forall q :: q in t ==> g(f(q.ts)) == g(q.ts)
    ensures Group(RollUp(t, f), g, k).Keys == Buckets(Group(t, g, k), f)
  {
    hide RollUp;
    var left, part := Group(RollUp(t, f), g, k), Group(t, g, k);
    forall j | j in left ensures j in Buckets(part, f) {
      var q :| q in t && BucketOf(q, f) == j;
      assert q in part;
    }
    forall j | j in Buckets(part, f) ensures j in left {
      var q :| q in part && BucketOf(q, f) == j;
      assert q in t;
    }
  }

  lemma GroupThenRollUp(t: Table, f: Instant -> Instant, g: Instant -> Instant, k: Key)
    requires forall q :: q in t ==> g(f(q.ts)) == g(q.ts)
    ensures Group(RollUp(t, f), g, k) == RollUp(Group(t, g, k), f)
  {
    hide Total;
    var left, part := Group(RollUp(t, f), g, k), Group(t, g, k);
    BucketsOfGroup(t, f, g, k);
    forall j | j in left ensures left[j] == RollUp(part, f)[j] {
      assert Group(t, f, j) == Group(part, f, j);
    }
  }

  /** The entries that f sends into the given buckets. */
  function Restrict(t: Table, f: Instant -> Instant, ks: set<Key>): Table {
    map q | q in t && BucketOf(q, f) in ks :: t[q]
  }

  lemma GroupOfRestrict(t: Table, f: Instant -> Instant, ks: set<Key>, k: Key)
    ensures Group(Restrict(t, f, ks), f, k) == if k in ks then Group(t, f, k) else map[]
  {}

  lemma RollUpOfRestrict(t: Table, f: Instant -> Instant, ks: set<Key>, k: Key)
    ensures Lookup(RollUp(Restrict(t, f, ks), f), k) == if k in ks then Lookup(RollUp(t, f), k) else Nothing
  {
    GroupOfRestrict(t, f, ks, k);
    RollUpAt(t, f, k);
    RollUpAt(Restrict(t, f, ks), f, k);
  }

  lemma BucketsOfRestrict(t: Table, f: Instant -> Instant, ks: set<Key>)
    requires ks <= Buckets(t, f)
    ensures Buckets(Restrict(t, f, ks), f) == ks
  {
    forall k | k in ks ensures k in Buckets(Restrict(t, f, ks), f) {
      var q :| q in t && BucketOf(q, f) == k;
      assert q in Restrict(t, f, ks);
    }
  }

  /** The entries an upsert of a grouping adds are the grouping of what falls into the new buckets. */
  lemma NewBuckets(base: Table, t: Table, f: Instant -> Instant)
    ensures MergeTables(base, RollUp(t, f)) - base.Keys == RollUp(Restrict(t, f, Buckets(t, f) - base.Keys), f)
  {
    hide RollUp, Restrict, Buckets;
    var ks := Buckets(t, f) - base.Keys;
    var left, right := MergeTables(base, RollUp(t, f)) - base.Keys, RollUp(Restrict(t, f, ks), f);
    BucketsOfRestrict(t, f, ks);
    assert left.Keys == ks == right.Keys;
    forall k | k in ks ensures left[k] == right[k] {
      RollUpOfRestrict(t, f, ks, k);
    }
  }

  // ----- tables compared entry by entry

  /** Sound tables are equal when every key has the same entry, or none, in both. */
  lemma SameLookups(a: Table, b: Table)
    requires AllSound(a) && AllSound(b)
    requires forall k :: Lookup(a, k) == Lookup(b, k)
    ensures a == b
  {
    forall k ensures k in a <==> k in b {
      assert Lookup(a, k) == Lookup(b, k);
    }
    forall k | k in a ensures a[k] == b[k] {
      assert Lookup(a, k) == Lookup(b, k);
    }
  }

  lemma MergeTablesAt(a: Table, b: Table, k: Key)
    ensures Lookup(MergeTables(a, b), k) == Merge(Lookup(a, k), Lookup(b, k))
  {}

  lemma MergeNothing(a: Summary)
    ensures Merge(a, Nothing) == a == Merge(Nothing, a)
  {}

  lemma MergeTablesSound(a: Table, b: Table)
    requires AllSound(a) && AllSound(b)
    ensures AllSound(MergeTables(a, b))
  {
    forall k | k in MergeTables(a, b) ensures MergeTables(a, b)[k].Sound() {
      if k in a && k in b {
        MergeSound(a[k], b[k]);
      }
    }
  }

  lemma SameGroup(a: Table, b: Table, f: Instant -> Instant, k: Key)
    requires Group(a, f, k) == Group(b, f, k)
    ensures Lookup(RollUp(a, f), k) == Lookup(RollUp(b, f), k)
  {
    RollUpAt(a, f, k);
    RollUpAt(b, f, k);
  }

  lemma RollUpEmptyIff(t: Table, f: Instant -> Instant)
    ensures RollUp(t, f).Keys == {} <==> t.Keys == {}
  {
    if t.Keys != {} {
      var q :| q in t;
      assert BucketOf(q, f) in RollUp(t, f);
    }
  }

  /** Merging a sound table into another changes it unless there is nothing to merge. */
  lemma MergeTablesSameIff(a: Table, b: Table)
    requires AllSound(a) && AllSound(b)
    ensures MergeTables(a, b) == a <==> b.Keys == {}
  {
    if b.Keys == {} {
      assert MergeTables(a, b).Keys == a.Keys;
    } else {
      var k :| k in b.Keys;
      assert MergeTables(a, b)[k] != Lookup(a, k);
    }
  }
}
