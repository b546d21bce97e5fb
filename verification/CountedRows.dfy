/**
 What a count that is too high does to the rows built from a table of buckets: it
 never shows in minima and maxima, and always in unfiltered counts.
 */
module CountedRows {
  import opened Wrappers
  import opened Calendar
  import opened Summaries
  import opened Overcounts
  import opened Aggregation
  import opened Order
  import opened BucketTables

  lemma {:induction false} TotalStats(t: Table)
    requires AllStats(t) && t.Keys != {}
    ensures Total(t).Stats?
    decreases |t|
  {
    var k :| k in t.Keys;
    TotalRemove(t, k);
    if t.Keys != {k} {
      assert (t - {k}).Keys == t.Keys - {k};
      SmallerMap(t - {k}, t);
      TotalStats(t - {k});
    }
  }

  lemma StatsOfRollUp(t: Table, f: Instant -> Instant)
    requires AllStats(t)
    ensures AllStats(RollUp(t, f))
  {
    forall k | k in RollUp(t, f) ensures RollUp(t, f)[k].Stats? {
      BucketsNonEmpty(t, f, k);
      TotalStats(Group(t, f, k));
    }
  }

  /** Aggregates that depend on nothing but the bounds of a bucket. */
  predicate BoundsOnly(a: Aggregate) {
    a.Min? || a.Max? || a.OtherAggregate?
  }

  /** Every bucket has a row, in which its value can be told. */
  ghost predicate ValuesShow(spec: RowSpec) {
    && !spec.aggregate.OtherAggregate? && spec.le.None? && spec.ge.None?
    && (forall v :: spec.convert(v).Some?)
    && (forall v, w :: spec.convert(v) == spec.convert(w) ==> v == w)
  }

  ghost predicate CountsShow(spec: RowSpec) { ValuesShow(spec) && spec.aggregate.Count? }

  function ValueAt(t: Table, k: Key, aggregate: Aggregate): real
    requires k in t && t[k].Stats? && !aggregate.OtherAggregate?
  {
    AggregateBucketValue(BucketAt(t, k), aggregate).value
  }

  lemma SameInstants(t: Table, u: Table, s: Series)
    requires t.Keys == u.Keys
    ensures InstantsOf(t, s) == InstantsOf(u, s)
  {
    assert forall k :: k in t <==> k in u;
  }

  lemma {:induction false} SameRowsAt(t: Table, u: Table, s: Series, ks: seq<Instant>, spec: RowSpec)
    requires AllStats(t) && AllStats(u) && forall i :: 0 <= i < |ks| ==> Key(s, ks[i]) in t && Key(s, ks[i]) in u
    requires forall i :: 0 <= i < |ks| ==> BucketRow(BucketAt(t, Key(s, ks[i])), spec) == BucketRow(BucketAt(u, Key(s, ks[i])), spec)
    ensures RowsAt(t, s, ks, spec) == RowsAt(u, s, ks, spec)
    decreases |ks|
  {
    if ks != [] {
      hide BucketRow;
      SameRowsAt(t, u, s, ks[..|ks| - 1], spec);
    }
  }

  lemma BoundsRow(a: Bucket, b: Bucket, spec: RowSpec)
    requires BoundsOnly(spec.aggregate) && a.ts == b.ts && a.min == b.min && a.max == b.max
    ensures BucketRow(a, spec) == BucketRow(b, spec)
  {}

  /** Minima and maxima are right whatever was counted twice. */
  lemma SameBounds(t: Table, u: Table, s: Series, spec: RowSpec)
    requires AllStats(t) && AllStats(u) && AllAtLeast(t, u) && BoundsOnly(spec.aggregate)
    ensures SeriesRows(t, s, spec) == SeriesRows(u, s, spec)
  {
    hide BucketRow, RowsAt, InstantsOf, BoundsOnly;
    SameInstants(t, u, s);
    var ks := Ascending(InstantsOf(t, s));
    InstantsListed(t, s, ks);
    forall i | 0 <= i < |ks|
      ensures BucketRow(BucketAt(t, Key(s, ks[i])), spec) == BucketRow(BucketAt(u, Key(s, ks[i])), spec)
    {
      assert AtLeast(t[Key(s, ks[i])], u[Key(s, ks[i])]);
      BoundsRow(BucketAt(t, Key(s, ks[i])), BucketAt(u, Key(s, ks[i])), spec);
    }
    SameRowsAt(t, u, s, ks, spec);
  }

  lemma InstantsListed(t: Table, s: Series, ks: seq<Instant>)
    requires ks == Ascending(InstantsOf(t, s))
    ensures forall i :: 0 <= i < |ks| ==> Key(s, ks[i]) in t
    ensures forall k: Key :: k in t && k.series == s ==> k.ts in ks
  {
    assert forall i :: 0 <= i < |ks| ==> ks[i] in ks;
  }

  /** Row by row the values. */
  lemma {:induction false} ValueRowsAt(t: Table, s: Series, ks: seq<Instant>, spec: RowSpec)
    requires AllStats(t) && (forall i :: 0 <= i < |ks| ==> Key(s, ks[i]) in t) && ValuesShow(spec)
    ensures RowsAt(t, s, ks, spec).Ok? && |RowsAt(t, s, ks, spec).value| == |ks|
    ensures forall i :: 0 <= i < |ks| ==>
              spec.convert(ValueAt(t, Key(s, ks[i]), spec.aggregate)) == Some(RowsAt(t, s, ks, spec).value[i].v)
    decreases |ks|
  {
    if ks != [] {
      var n := |ks| - 1;
      ValueRowsAt(t, s, ks[..n], spec);
      ValueRow(t, Key(s, ks[n]), spec);
      hide BucketRow, ValueAt;
      assert RowsAt(t, s, ks, spec).value == RowsAt(t, s, ks[..n], spec).value + BucketRow(BucketAt(t, Key(s, ks[n])), spec).value;
    }
  }

  lemma ValueRow(t: Table, k: Key, spec: RowSpec)
    requires k in t && t[k].Stats? && ValuesShow(spec)
    ensures spec.convert(ValueAt(t, k, spec.aggregate)).Some?
    ensures BucketRow(BucketAt(t, k), spec) == Ok([TsRow(spec.convert(ValueAt(t, k, spec.aggregate)).value, k.ts)])
  {}

  lemma SameValueRow(t: Table, u: Table, k: Key, spec: RowSpec)
    requires k in t && t[k].Stats? && k in u && u[k].Stats? && ValuesShow(spec)
    ensures BucketRow(BucketAt(t, k), spec) == BucketRow(BucketAt(u, k), spec)
       <==> ValueAt(t, k, spec.aggregate) == ValueAt(u, k, spec.aggregate)
    ensures spec.convert(ValueAt(t, k, spec.aggregate)) == spec.convert(ValueAt(u, k, spec.aggregate))
       ==> ValueAt(t, k, spec.aggregate) == ValueAt(u, k, spec.aggregate)
  {
    ValueRow(t, k, spec);
    ValueRow(u, k, spec);
    hide BucketRow, ValueAt;
  }

  /** Unfiltered rows are equal if and only if the values of all buckets of the series are. */
  lemma SameValuesIff(t: Table, u: Table, s: Series, spec: RowSpec)
    requires AllStats(t) && AllStats(u) && t.Keys == u.Keys && ValuesShow(spec)
    ensures SeriesRows(t, s, spec).Ok? && SeriesRows(u, s, spec).Ok?
    ensures |SeriesRows(t, s, spec).value| == |SeriesRows(u, s, spec).value|
    ensures (exists k :: k in t && k.series == s) <==> SeriesRows(t, s, spec).value != []
    ensures SeriesRows(t, s, spec) == SeriesRows(u, s, spec)
       <==> forall k :: k in t && k.series == s ==> ValueAt(t, k, spec.aggregate) == ValueAt(u, k, spec.aggregate)
  {
    assert !spec.aggregate.OtherAggregate?;
    hide BucketRow, RowsAt, InstantsOf, ValuesShow, ValueAt;
    SameInstants(t, u, s);
    var ks := Ascending(InstantsOf(t, s));
    InstantsListed(t, s, ks);
    InstantsListed(u, s, ks);
    ValueRowsAt(t, s, ks, spec);
    ValueRowsAt(u, s, ks, spec);
    if SeriesRows(t, s, spec) == SeriesRows(u, s, spec) {
      forall k | k in t && k.series == s ensures ValueAt(t, k, spec.aggregate) == ValueAt(u, k, spec.aggregate) {
        var i :| 0 <= i < |ks| && ks[i] == k.ts;
        assert k == Key(s, ks[i]);
        SameValueRow(t, u, k, spec);
      }
    }
    if forall k :: k in t && k.series == s ==> ValueAt(t, k, spec.aggregate) == ValueAt(u, k, spec.aggregate) {
      forall i | 0 <= i < |ks|
        ensures BucketRow(BucketAt(t, Key(s, ks[i])), spec) == BucketRow(BucketAt(u, Key(s, ks[i])), spec)
      {
        SameValueRow(t, u, Key(s, ks[i]), spec);
      }
      SameRowsAt(t, u, s, ks, spec);
    }
    if ks != [] { assert Key(s, ks[0]) in t; }
  }

  /** Unfiltered counts are right if and only if nothing of the series was counted twice. */
  lemma SameCountsIff(t: Table, u: Table, s: Series, spec: RowSpec)
    requires AllStats(t) && AllStats(u) && AllAtLeast(t, u) && CountsShow(spec)
    ensures SeriesRows(t, s, spec).Ok? && SeriesRows(u, s, spec).Ok?
    ensures |SeriesRows(t, s, spec).value| == |SeriesRows(u, s, spec).value|
    ensures (exists k :: k in t && k.series == s) <==> SeriesRows(t, s, spec).value != []
    ensures SeriesRows(t, s, spec) == SeriesRows(u, s, spec) <==> forall k :: k in t && k.series == s ==> t[k] == u[k]
  {
    assert spec.aggregate == Count;
    SameValuesIff(t, u, s, spec);
    hide *;
    AllCountsTold(t, u);
  }

  /** A count that is not too low tells whether the summary is right. */
  lemma AllCountsTold(t: Table, u: Table)
    requires AllStats(t) && AllStats(u) && AllAtLeast(t, u)
    ensures forall k :: k in t ==> (ValueAt(t, k, Count) == ValueAt(u, k, Count) <==> t[k] == u[k])
    ensures t == u <==> forall k :: k in t ==> t[k] == u[k]
  {
    forall k | k in t ensures ValueAt(t, k, Count) == ValueAt(u, k, Count) <==> t[k] == u[k] {
      assert AtLeast(t[k], u[k]);
    }
  }
}
