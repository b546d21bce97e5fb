/**
 What the rows of an aggregate query say about the samples, without the summaries
 by which they were computed: counts, sums, averages, minima and maxima of the
 samples that fall into each bucket, converted and filtered.
 */
module BucketValues {
  import opened Wrappers
  import opened Calendar
  import opened Summaries
  import opened RollupTables
  import opened Aggregation
  import opened Order
  import opened BucketTables
  import opened CountedRows
  import opened SeriesQueries
  import opened MultiQueries
  import opened Conservation

  /** The samples of a series whose instants are truncated to b. */
  function SamplesAt(t: Table, s: Series, p: Precision, b: Instant): Table {
    map q | q in t && q.series == s && Truncate(p, q.ts) == b :: t[q]
  }

  /** The sum of the values of some samples. */
  ghost function ValueSum(t: Table): real
    requires AllSingle(t)
  {
    if t.Keys == {} then 0.0
    else
      var q :| q in t.Keys;
      t[q].sum + ValueSum(t - {q})
  }

  /** v is what an aggregate of some samples is to be. */
  ghost predicate IsAggregate(v: real, aggregate: Aggregate, samples: Table)
    requires AllSingle(samples)
  {
    match aggregate
    case Min => (exists q :: q in samples && samples[q].sum == v) && forall q :: q in samples ==> v <= samples[q].sum
    case Max => (exists q :: q in samples && samples[q].sum == v) && forall q :: q in samples ==> v >= samples[q].sum
    case Count => v == |samples| as real
    case Sum => v == ValueSum(samples)
    case Avg => v * |samples| as real == ValueSum(samples)
    case OtherAggregate(_) => false
  }

  /** Between the bounds, or, when they cross, beyond either of them. */
  predicate Passes(v: real, le: Option<real>, ge: Option<real>) {
    var notAbove, notBelow := le.None? || v <= le.value, ge.None? || v >= ge.value;
    if le.Some? && ge.Some? && le.value < ge.value then notAbove || notBelow else notAbove && notBelow
  }

  // ----- a summary tells about its samples

  lemma OneFewer(t: Table, k: Key)
    requires k in t
    ensures |t - {k}| == |t| - 1 && (t - {k}).Keys == t.Keys - {k}
  {
    assert (t - {k}).Keys == t.Keys - {k};
    assert |t.Keys| == |t| && |(t - {k}).Keys| == |t - {k}|;
  }

  /** How the summary of samples is made: one of them and the summary of the others. */
  ghost predicate Tells(a: Summary, samples: Table)
    requires AllSingle(samples)
  {
    && a.Stats? && a.count == |samples| && a.sum == ValueSum(samples)
    && IsAggregate(a.min, Min, samples) && IsAggregate(a.max, Max, samples)
  }

  lemma {:induction false} TotalTells(t: Table)
    requires AllSingle(t) && t.Keys != {}
    ensures Tells(Total(t), t)
    decreases |t|
  {
    var k :| k in t.Keys && ValueSum(t) == t[k].sum + ValueSum(t - {k});
    var rest := t - {k};
    OneFewer(t, k);
    TotalRemove(t, k);
    if rest.Keys == {} {
      assert Total(rest) == Nothing;
      assert forall q :: q in t <==> q == k;
    } else {
      TotalTells(rest);
      hide Total, ValueSum;
      TellsMore(Total(rest), rest, k, t);
    }
  }

  lemma TellsMore(a: Summary, rest: Table, k: Key, t: Table)
    requires AllSingle(t) && k in t && rest == t - {k} && Tells(a, rest)
    requires |t| == |rest| + 1 && ValueSum(t) == t[k].sum + ValueSum(rest)
    ensures Tells(Merge(t[k], a), t)
  {
    hide ValueSum;
    var m := Merge(t[k], a);
    var lo :| lo in rest && rest[lo].sum == a.min;
    var hi :| hi in rest && rest[hi].sum == a.max;
    assert lo in t && hi in t && t[lo] == rest[lo] && t[hi] == rest[hi];
    assert forall q :: q in t ==> q == k || q in rest;
  }

  // ----- the values of buckets

  lemma Average(sum: real, n: real, v: real)
    requires n > 0.0
    ensures v == sum / n <==> v * n == sum
  {
    assert sum / n * n == sum;
    if v * n == sum { SameFactor(v, sum / n, n); }
  }

  lemma SameFactor(a: real, b: real, n: real)
    requires n > 0.0 && a * n == b * n
    ensures a == b
  {}

  /** A summary that tells about its samples has their aggregates and no others. */
  lemma ValueTells(a: Summary, samples: Table, b: Instant, aggregate: Aggregate)
    requires AllSingle(samples) && samples.Keys != {} && Tells(a, samples)
    ensures var r := AggregateBucketValue(Bucket(b, a.count, a.sum, a.min, a.max), aggregate);
            if aggregate.OtherAggregate? then r == Err(UnsupportedAggregate)
            else r.Ok? && forall v :: IsAggregate(v, aggregate, samples) <==> v == r.value
  {
    assert |samples.Keys| > 0;
    assert |samples| == |samples.Keys|;
    if aggregate.Avg? {
      forall v ensures IsAggregate(v, Avg, samples) <==> v == a.sum / a.count as real {
        Average(a.sum, a.count as real, v);
      }
    }
    hide ValueSum;
  }

  lemma PassesInRange(v: real, le: Option<real>, ge: Option<real>)
    ensures InValidRange(v, le, ge) <==> Passes(v, le, ge)
  {}

  /** The row that samples have: their aggregate, if it is one, converted, if it passes. */
  ghost predicate IsRow(row: TsRow, samples: Table, spec: RowSpec)
    requires AllSingle(samples)
  {
    samples.Keys != {}
    && exists v :: IsAggregate(v, spec.aggregate, samples) && spec.convert(v) == Some(row.v) && Passes(row.v, spec.le, spec.ge)
  }

  /** The samples have no row for want of an aggregate or a conversion. */
  ghost predicate HasNoValue(samples: Table, spec: RowSpec)
    requires AllSingle(samples)
  {
    samples.Keys != {}
    && (spec.aggregate.OtherAggregate? || exists v :: IsAggregate(v, spec.aggregate, samples) && spec.convert(v).None?)
  }

  lemma RowTells(a: Summary, samples: Table, b: Instant, spec: RowSpec)
    requires AllSingle(samples) && samples.Keys != {} && Tells(a, samples)
    ensures var r := BucketRow(Bucket(b, a.count, a.sum, a.min, a.max), spec);
            && (r.Err? <==> HasNoValue(samples, spec))
            && (r.Err? ==> r.error == if spec.aggregate.OtherAggregate? then UnsupportedAggregate else InvalidUnitConversion)
            && forall row: TsRow :: r == Ok([row]) <==> row.ts == b && IsRow(row, samples, spec)
  {
    ValueTells(a, samples, b, spec.aggregate);
    var bucket := Bucket(b, a.count, a.sum, a.min, a.max);
    hide AggregateBucketValue, IsAggregate, Tells, InValidRange, Passes, AllSingle;
    var r := BucketRow(bucket, spec);
    var value := AggregateBucketValue(bucket, spec.aggregate);
    if value.Ok? {
      assert IsAggregate(value.value, spec.aggregate, samples);
      if spec.convert(value.value).Some? {
        PassesInRange(spec.convert(value.value).value, spec.le, spec.ge);
      }
    }
    forall row: TsRow ensures r == Ok([row]) <==> row.ts == b && IsRow(row, samples, spec) {
      if r == Ok([row]) { assert [row][0] == row; }
    }
  }

  lemma BucketTells(t: Table, s: Series, p: Precision, b: Instant)
    requires AllSingle(t)
    ensures AllSingle(SamplesAt(t, s, p, b))
    ensures Key(s, b) in RollUp(t, Truncation(p)) <==> SamplesAt(t, s, p, b).Keys != {}
    ensures SamplesAt(t, s, p, b).Keys != {} ==> Tells(RollUp(t, Truncation(p))[Key(s, b)], SamplesAt(t, s, p, b))
  {
    hide Truncate, Tells;
    var f, k := Truncation(p), Key(s, b);
    var samples := SamplesAt(t, s, p, b);
    assert samples == Group(t, f, k);
    BucketsNonEmpty(t, f, k);
    RollUpAt(t, f, k);
    if samples.Keys != {} {
      TotalTells(samples);
    }
  }

  // ----- the rows of an answer

  lemma TableOfBuckets(t: Table, s: Series, p: Precision)
    requires AllSingle(t)
    ensures AllStats(t) && AllStats(RollUp(t, Truncation(p)))
    ensures forall b: Instant :: b in InstantsOf(RollUp(t, Truncation(p)), s) <==> SamplesAt(t, s, p, b).Keys != {}
    ensures forall b: Instant :: AllSingle(SamplesAt(t, s, p, b))
  {
    hide Truncate, RollUp, SamplesAt;
    var buckets := RollUp(t, Truncation(p));
    StatsOfRollUp(t, Truncation(p));
    forall b: Instant ensures b in InstantsOf(buckets, s) <==> SamplesAt(t, s, p, b).Keys != {} {
      BucketTells(t, s, p, b);
      if Key(s, b) in buckets { assert b in InstantsOf(buckets, s); }
    }
    forall b: Instant ensures AllSingle(SamplesAt(t, s, p, b)) {
      BucketTells(t, s, p, b);
    }
  }

  lemma RowAtTells(t: Table, s: Series, p: Precision, b: Instant, spec: RowSpec)
    requires AllSingle(t) && AllStats(RollUp(t, Truncation(p))) && Key(s, b) in RollUp(t, Truncation(p))
    ensures AllSingle(SamplesAt(t, s, p, b))
    ensures var r, samples := BucketRow(BucketAt(RollUp(t, Truncation(p)), Key(s, b)), spec), SamplesAt(t, s, p, b);
            && (r.Err? <==> HasNoValue(samples, spec))
            && (r.Err? ==> r.error == if spec.aggregate.OtherAggregate? then UnsupportedAggregate else InvalidUnitConversion)
            && forall row: TsRow :: r == Ok([row]) <==> row.ts == b && IsRow(row, samples, spec)
  {
    hide Truncate, RollUp, SamplesAt, BucketRow, IsRow, HasNoValue, Tells, AllSingle;
    BucketTells(t, s, p, b);
    RowTells(RollUp(t, Truncation(p))[Key(s, b)], SamplesAt(t, s, p, b), b, spec);
  }

  lemma {:induction false} RowsAtFail(t: Table, s: Series, ks: seq<Instant>, spec: RowSpec)
    requires AllStats(t) && forall i :: 0 <= i < |ks| ==> Key(s, ks[i]) in t
    ensures RowsAt(t, s, ks, spec).Err? <==> exists i :: 0 <= i < |ks| && BucketRow(BucketAt(t, Key(s, ks[i])), spec).Err?
    ensures RowsAt(t, s, ks, spec).Err? ==>
              exists i :: 0 <= i < |ks| && BucketRow(BucketAt(t, Key(s, ks[i])), spec) == Err(RowsAt(t, s, ks, spec).error)
    decreases |ks|
  {
    if ks != [] {
      hide BucketRow;
      var n := |ks| - 1;
      var init := ks[..n];
      RowsAtFail(t, s, init, spec);
      if i :| 0 <= i < |init| && BucketRow(BucketAt(t, Key(s, init[i])), spec).Err? {
        assert ks[i] == init[i];
      }
      if RowsAt(t, s, init, spec).Err? {
        var i :| 0 <= i < |init| && BucketRow(BucketAt(t, Key(s, init[i])), spec) == Err(RowsAt(t, s, init, spec).error);
        assert ks[i] == init[i];
      }
    }
  }

  /**
   When an answer is an error, and which: a precision nobody knows, unless there is nothing to
   truncate, then an aggregate nobody knows, then a value that does not convert.
   */
  lemma AnswerFailsIff(t: Table, s: Series, p: Precision, spec: RowSpec)
    requires AllSingle(t)
    ensures AllStats(t) && forall b: Instant :: AllSingle(SamplesAt(t, s, p, b))
    ensures Aggregated(t, s, p, spec).Err?
       <==> (p.Unsupported? && t.Keys != {}) || exists b: Instant :: HasNoValue(SamplesAt(t, s, p, b), spec)
    ensures Aggregated(t, s, p, spec).Err? ==>
              Aggregated(t, s, p, spec).error
              == if p.Unsupported? then UnsupportedPrecision
                 else if spec.aggregate.OtherAggregate? then UnsupportedAggregate else InvalidUnitConversion
  {
    TableOfBuckets(t, s, p);
    if !(p.Unsupported? && t.Keys != {}) {
      hide Truncate, RollUp, SamplesAt, BucketRow, HasNoValue, IsRow, RowsAt, InstantsOf, AllSingle;
      var buckets := RollUp(t, Truncation(p));
      var ks := Ascending(InstantsOf(buckets, s));
      InstantsListed(buckets, s, ks);
      RowsAtFail(buckets, s, ks, spec);
      forall b: Instant | b in ks
        ensures BucketRow(BucketAt(buckets, Key(s, b)), spec).Err? <==> HasNoValue(SamplesAt(t, s, p, b), spec)
        ensures BucketRow(BucketAt(buckets, Key(s, b)), spec).Err? ==>
                  BucketRow(BucketAt(buckets, Key(s, b)), spec).error
                  == if spec.aggregate.OtherAggregate? then UnsupportedAggregate else InvalidUnitConversion
      {
        RowAtTells(t, s, p, b, spec);
      }
      if b :| HasNoValue(SamplesAt(t, s, p, b), spec) {
        NoValueHasSamples(SamplesAt(t, s, p, b), spec);
        var i :| 0 <= i < |ks| && ks[i] == b;
      }
      if p.Unsupported? { NothingUnsupported(t, s, p, spec); }
    }
  }

  lemma NoValueHasSamples(samples: Table, spec: RowSpec)
    requires AllSingle(samples) && HasNoValue(samples, spec)
    ensures samples.Keys != {}
  {}

  lemma NothingUnsupported(t: Table, s: Series, p: Precision, spec: RowSpec)
    requires AllSingle(t) && AllStats(t) && p.Unsupported? && t.Keys == {}
    ensures AllStats(RollUp(t, Truncation(p)))
    ensures Aggregated(t, s, p, spec) == Ok([])
  {
    RollUpEmptyIff(t, Truncation(p));
    StatsOfRollUp(t, Truncation(p));
    assert InstantsOf(RollUp(t, Truncation(p)), s) == {};
  }

  /**
   The answer to an aggregate query, by the samples alone: its rows are in time order, and a row is
   there if and only if samples of the series fall into the bucket that begins at its time, its value
   is the conversion of their aggregate, and that passes the filter.
   */
  lemma RowsAreAggregates(t: Table, s: Series, p: Precision, spec: RowSpec)
    requires AllSingle(t)
    ensures AllStats(t) && forall b: Instant :: AllSingle(SamplesAt(t, s, p, b))
    ensures Aggregated(t, s, p, spec).Ok? ==>
              && InTimeOrder(Aggregated(t, s, p, spec).value)
              && forall row :: row in Aggregated(t, s, p, spec).value <==> IsRow(row, SamplesAt(t, s, p, row.ts), spec)
  {
    TableOfBuckets(t, s, p);
    if Aggregated(t, s, p, spec).Ok? {
      AggregatedRows(t, s, p, spec);
    }
  }

  lemma AggregatedRows(t: Table, s: Series, p: Precision, spec: RowSpec)
    requires AllSingle(t) && AllStats(t) && AllStats(RollUp(t, Truncation(p))) && Aggregated(t, s, p, spec).Ok?
    requires forall b: Instant :: b in InstantsOf(RollUp(t, Truncation(p)), s) <==> SamplesAt(t, s, p, b).Keys != {}
    requires forall b: Instant :: AllSingle(SamplesAt(t, s, p, b))
    ensures InTimeOrder(Aggregated(t, s, p, spec).value)
    ensures forall row :: row in Aggregated(t, s, p, spec).value <==> IsRow(row, SamplesAt(t, s, p, row.ts), spec)
  {
    hide Truncate, RollUp, SamplesAt, BucketRow, IsRow, HasNoValue, RowsAt, InstantsOf, AllSingle;
    var buckets := RollUp(t, Truncation(p));
    var ks := Ascending(InstantsOf(buckets, s));
    InstantsListed(buckets, s, ks);
    RowsAtMeaning(buckets, s, ks, spec);
    forall row ensures row in Aggregated(t, s, p, spec).value <==> IsRow(row, SamplesAt(t, s, p, row.ts), spec) {
      if row in Aggregated(t, s, p, spec).value {
        var i :| 0 <= i < |ks| && BucketRow(BucketAt(buckets, Key(s, ks[i])), spec) == Ok([row]);
        RowAtTells(t, s, p, ks[i], spec);
      }
      if IsRow(row, SamplesAt(t, s, p, row.ts), spec) {
        RowHasSamples(row, SamplesAt(t, s, p, row.ts), spec);
        assert row.ts in ks;
        var i :| 0 <= i < |ks| && ks[i] == row.ts;
        RowAtTells(t, s, p, ks[i], spec);
      }
    }
  }

  lemma RowHasSamples(row: TsRow, samples: Table, spec: RowSpec)
    requires AllSingle(samples) && IsRow(row, samples, spec)
    ensures samples.Keys != {}
  {}

  /** Without filter and conversion: one row for each bucket that samples fall into, with their aggregate. */
  lemma PlainRows(t: Table, s: Series, p: Precision, aggregate: Aggregate)
    requires AllSingle(t) && !p.Unsupported? && !aggregate.OtherAggregate?
    ensures AllStats(t) && forall b: Instant :: AllSingle(SamplesAt(t, s, p, b))
    ensures var r := Aggregated(t, s, p, PlainSpec(aggregate));
            && r.Ok? && InTimeOrder(r.value)
            && (forall row :: row in r.value ==> IsAggregate(row.v, aggregate, SamplesAt(t, s, p, row.ts)))
            && forall b: Instant :: SamplesAt(t, s, p, b).Keys != {} <==> exists row :: row in r.value && row.ts == b
  {
    hide *;
    AnswerFailsIff(t, s, p, PlainSpec(aggregate));
    RowsAreAggregates(t, s, p, PlainSpec(aggregate));
    forall b: Instant
      ensures !HasNoValue(SamplesAt(t, s, p, b), PlainSpec(aggregate))
      ensures SamplesAt(t, s, p, b).Keys != {} <==> exists row :: IsRow(row, SamplesAt(t, s, p, b), PlainSpec(aggregate)) && row.ts == b
    {
      PlainRowThere(SamplesAt(t, s, p, b), aggregate, b);
    }
    var r := Aggregated(t, s, p, PlainSpec(aggregate));
    forall row | row in r.value ensures IsAggregate(row.v, aggregate, SamplesAt(t, s, p, row.ts)) {
      PlainRowIs(row, SamplesAt(t, s, p, row.ts), aggregate);
    }
  }

  lemma PlainRowIs(row: TsRow, samples: Table, aggregate: Aggregate)
    requires AllSingle(samples)
    ensures IsRow(row, samples, PlainSpec(aggregate)) <==> samples.Keys != {} && IsAggregate(row.v, aggregate, samples)
  {
    hide IsAggregate;
    assert Passes(row.v, None, None) && PlainSpec(aggregate).convert(row.v) == Some(row.v);
  }

  lemma PlainRowThere(samples: Table, aggregate: Aggregate, b: Instant)
    requires AllSingle(samples) && !aggregate.OtherAggregate?
    ensures !HasNoValue(samples, PlainSpec(aggregate))
    ensures samples.Keys != {} <==> exists row :: IsRow(row, samples, PlainSpec(aggregate)) && row.ts == b
  {
    hide IsAggregate, AllSingle;
    if samples.Keys != {} {
      var v := HasAggregate(samples, aggregate);
      PlainRowIs(TsRow(v, b), samples, aggregate);
      assert IsRow(TsRow(v, b), samples, PlainSpec(aggregate));
    }
  }

  lemma HasAggregate(samples: Table, aggregate: Aggregate) returns (v: real)
    requires AllSingle(samples) && samples.Keys != {} && !aggregate.OtherAggregate?
    ensures IsAggregate(v, aggregate, samples)
  {
    TotalTells(samples);
    var a := Total(samples);
    ValueTells(a, samples, 0, aggregate);
    v := AggregateBucketValue(Bucket(0, a.count, a.sum, a.min, a.max), aggregate).value;
  }

  /** For many series: the mapping has the series with rows and no others, each with exactly the rows of its samples. */
  lemma MultiRowsAreAggregates(t: Table, p: MultiParams, s: Series)
    requires AllSingle(t)
    ensures AllStats(t) && forall b: Instant :: AllSingle(SamplesAt(t, s, p.precision, b))
    ensures MultiAggregated(t, p).Ok? ==>
              var m := MultiAggregated(t, p).value;
              && (s in m <==> exists row: TsRow :: IsRow(row, SamplesAt(t, s, p.precision, row.ts), p.Spec()))
              && (s in m ==> InTimeOrder(m[s])
                             && forall row :: row in m[s] <==> IsRow(row, SamplesAt(t, s, p.precision, row.ts), p.Spec()))
  {
    RowsAreAggregates(t, s, p.precision, p.Spec());
    TableOfBuckets(t, s, p.precision);
    if MultiAggregated(t, p).Ok? {
      MultiRowsOf(t, p, s);
      hide Aggregated, MultiAggregated, IsRow, SamplesAt, AllSingle;
      var rows := Aggregated(t, s, p.precision, p.Spec()).value;
      if rows != [] { assert rows[0] in rows; }
    }
  }

  lemma MultiRowsOf(t: Table, p: MultiParams, s: Series)
    requires AllSingle(t) && AllStats(t) && AllStats(RollUp(t, Truncation(p.precision))) && MultiAggregated(t, p).Ok?
    ensures Aggregated(t, s, p.precision, p.Spec()).Ok?
    ensures var m, rows := MultiAggregated(t, p).value, Aggregated(t, s, p.precision, p.Spec()).value;
            (s in m <==> rows != []) && (s in m ==> m[s] == rows)
  {
    hide RollUp, RowsAt, IsAggregate, Truncate;
    var buckets := RollUp(t, Truncation(p.precision));
    if buckets.Keys == {} {
      assert InstantsOf(buckets, s) == {};
      RollUpEmptyIff(t, Truncation(p.precision));
      NoRows(buckets, s, p.Spec());
    } else {
      RollUpEmptyIff(t, Truncation(p.precision));
      if s in SeriesIn(buckets) {
        SucceedsIff(buckets, s, p);
      } else {
        assert InstantsOf(buckets, s) == {};
        NoRows(buckets, s, p.Spec());
      }
    }
  }

  lemma NoRows(t: Table, s: Series, spec: RowSpec)
    requires AllStats(t) && InstantsOf(t, s) == {}
    ensures SeriesRows(t, s, spec) == Ok([])
  {}
}
