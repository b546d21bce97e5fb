/**
 What the buckets and the result rows of an aggregate query have to do with the
 samples they were computed from: nothing is lost, nothing is counted twice, and
 the rows come in time order.
 */
module Conservation {
  import opened Wrappers
  import opened Calendar
  import opened Summaries
  import opened RollupTables
  import opened Aggregation
  import opened Order
  import opened BucketTables
  import opened AggregateQueries
  import opened CountedRows
  import opened SeriesQueries

  /**
   The buckets of any set of samples together have the samples' count, sum, minimum and
   maximum, and every bucket has min <= sum / count <= max.
   */
  lemma BucketsConserve(t: Table, f: Instant -> Instant)
    requires AllSingle(t) && t.Keys != {}
    ensures Total(RollUp(t, f)) == Total(t)
    ensures Total(t).Stats? && Total(t).count == |t|
    ensures AllSound(RollUp(t, f))
  {
    RollUpConserves(t, f);
    TotalCountsSamples(t);
    SingleIsSound(t);
    RollUpSound(t, f);
  }

  lemma Cancel(n: real, a: real, b: real)
    requires n > 0.0 && n * a <= n * b
    ensures a <= b
  {}

  lemma DividedBounds(n: real, sum: real, lo: real, hi: real)
    requires n > 0.0 && n * lo <= sum <= n * hi
    ensures lo <= sum / n <= hi
  {
    var q := sum / n;
    assert n * q == sum;
    Cancel(n, lo, q);
    Cancel(n, q, hi);
  }

  /** The average of a bucket lies between its minimum and its maximum. */
  lemma AverageIsBetween(t: Table, f: Instant -> Instant, k: Key)
    requires AllSingle(t) && k in RollUp(t, f)
    ensures RollUp(t, f)[k].Stats?
    ensures var b := BucketAt(RollUp(t, f), k);
            AggregateBucketValue(b, Avg).Ok? && b.min <= AggregateBucketValue(b, Avg).value <= b.max
  {
    hide RollUp;
    SingleIsSound(t);
    RollUpSound(t, f);
    var s := RollUp(t, f)[k];
    DividedBounds(s.count as real, s.sum, s.min, s.max);
  }

  lemma BucketRowCases(b: Bucket, spec: RowSpec)
    requires BucketRow(b, spec).Ok?
    ensures var row := BucketRow(b, spec).value;
            row == [] || (row == [row[0]] && row[0].ts == b.ts && InValidRange(row[0].v, spec.le, spec.ge))
  {}

  /** A result row exists for a bucket exactly when the bucket passes the filter, and rows are in time order. */
  lemma {:induction false} RowsAtMeaning(t: Table, s: Series, ks: seq<Instant>, spec: RowSpec)
    requires AllStats(t) && Increasing(ks) && forall i :: 0 <= i < |ks| ==> Key(s, ks[i]) in t
    requires RowsAt(t, s, ks, spec).Ok?
    ensures var rows := RowsAt(t, s, ks, spec).value;
            && InTimeOrder(rows)
            && (forall row :: row in rows <==>
                  exists i :: 0 <= i < |ks| && BucketRow(BucketAt(t, Key(s, ks[i])), spec) == Ok([row]))
            && (forall row :: row in rows ==> row.ts in ks)
    decreases |ks|
  {
    hide BucketRow;
    if ks != [] {
      var n := |ks| - 1;
      var init := ks[..n];
      RowsAtMeaning(t, s, init, spec);
      var before := RowsAt(t, s, init, spec).value;
      var last := BucketRow(BucketAt(t, Key(s, ks[n])), spec);
      BucketRowCases(BucketAt(t, Key(s, ks[n])), spec);
      var rows := before + last.value;
      assert RowsAt(t, s, ks, spec).value == rows;
      LastRowIsLatest(ks, before, last.value);
      forall row
        ensures row in rows <==> exists i :: 0 <= i < |ks| && BucketRow(BucketAt(t, Key(s, ks[i])), spec) == Ok([row])
      {
        if i :| 0 <= i < |ks| && BucketRow(BucketAt(t, Key(s, ks[i])), spec) == Ok([row]) {
          if i < n { assert init[i] == ks[i]; assert row in before; } else { assert last.value == [row]; }
        }
        if row in before {
          var i :| 0 <= i < n && BucketRow(BucketAt(t, Key(s, init[i])), spec) == Ok([row]);
          assert init[i] == ks[i];
        } else if row in last.value {
          assert last.value == [row];
          assert BucketRow(BucketAt(t, Key(s, ks[n])), spec) == Ok([row]);
        }
      }
    }
  }

  lemma LastRowIsLatest(ks: seq<Instant>, before: seq<TsRow>, row: seq<TsRow>)
    requires ks != [] && Increasing(ks) && InTimeOrder(before) && forall r :: r in before ==> r.ts in ks[..|ks| - 1]
    requires row == [] || (row == [row[0]] && row[0].ts == ks[|ks| - 1])
    ensures InTimeOrder(before + row) && forall r :: r in before + row ==> r.ts in ks
  {
    var n := |ks| - 1;
    forall r | r in before ensures r.ts in ks && r.ts < ks[n] {
      assert r.ts in ks[..n];
    }
    forall i | 0 <= i < |before| ensures before[i].ts < ks[n] {
      assert before[i] in before;
    }
  }

  // ----- counting queries add up

  function SumOfRows(rows: seq<TsRow>): real {
    if rows == [] then 0.0 else SumOfRows(rows[..|rows| - 1]) + rows[|rows| - 1].v
  }

  /** The part of a table under one series. */
  function SeriesPart(t: Table, s: Series): Table {
    map k | k in t && k.series == s :: t[k]
  }

  function CountOf(s: Summary): int { if s.Stats? then s.count else 0 }

  function SumOf(s: Summary): real { if s.Stats? then s.sum else 0.0 }

  /** part is the table restricted to the series at the given instants. */
  ghost predicate Covers(t: Table, s: Series, ks: seq<Instant>, part: Table) {
    && (forall k :: k in part ==> k in t && part[k] == t[k] && exists i :: 0 <= i < |ks| && k == Key(s, ks[i]))
    && (forall i :: 0 <= i < |ks| ==> Key(s, ks[i]) in part)
  }

  lemma CoversOneLess(t: Table, s: Series, ks: seq<Instant>, part: Table)
    requires Covers(t, s, ks, part) && Increasing(ks) && ks != []
    ensures Covers(t, s, ks[..|ks| - 1], part - {Key(s, ks[|ks| - 1])})
  {
    var n := |ks| - 1;
    var rest := part - {Key(s, ks[n])};
    forall k | k in rest ensures exists i :: 0 <= i < n && k == Key(s, ks[..n][i]) {
      var i :| 0 <= i < |ks| && k == Key(s, ks[i]);
      assert ks[..n][i] == ks[i];
    }
  }

  lemma IncreasingInit(ks: seq<Instant>)
    requires Increasing(ks) && ks != []
    ensures Increasing(ks[..|ks| - 1])
  {}

  lemma {:induction false} RowsAddUp(t: Table, s: Series, ks: seq<Instant>, part: Table)
    requires AllStats(t) && Increasing(ks) && Covers(t, s, ks, part)
    ensures forall i :: 0 <= i < |ks| ==> Key(s, ks[i]) in t
    ensures RowsAt(t, s, ks, PlainSpec(Count)).Ok? && RowsAt(t, s, ks, PlainSpec(Sum)).Ok?
    ensures SumOfRows(RowsAt(t, s, ks, PlainSpec(Count)).value) == CountOf(Total(part)) as real
    ensures SumOfRows(RowsAt(t, s, ks, PlainSpec(Sum)).value) == SumOf(Total(part))
    decreases |ks|
  {
    hide RowsAt, BucketRow, SumOfRows, Merge, Total, Increasing, CountOf, SumOf;
    assert forall i :: 0 <= i < |ks| ==> Key(s, ks[i]) in part;
    if ks == [] {
      assert part.Keys == {};
      NoRowsToAdd(t, s, part);
    } else {
      var n := |ks| - 1;
      var last := Key(s, ks[n]);
      CoversOneLess(t, s, ks, part);
      IncreasingInit(ks);
      RowsAddUp(t, s, ks[..n], part - {last});
      TotalRemove(part, last);
      MergeAdds(t[last], Total(part - {last}));
      PlainRowNext(t, s, ks, Count, t[last].count as real);
      PlainRowNext(t, s, ks, Sum, t[last].sum);
    }
  }

  lemma NoRowsToAdd(t: Table, s: Series, part: Table)
    requires AllStats(t) && part.Keys == {}
    ensures RowsAt(t, s, [], PlainSpec(Count)) == Ok([]) == RowsAt(t, s, [], PlainSpec(Sum))
    ensures SumOfRows([]) == 0.0
    ensures CountOf(Total(part)) == 0 && SumOf(Total(part)) == 0.0
  {}

  lemma MergeAdds(a: Summary, b: Summary)
    requires a.Stats?
    ensures CountOf(Merge(a, b)) == a.count + CountOf(b)
    ensures SumOf(Merge(a, b)) == a.sum + SumOf(b)
  {}

  lemma PlainRowNext(t: Table, s: Series, ks: seq<Instant>, aggregate: Aggregate, v: real)
    requires AllStats(t) && ks != [] && forall i :: 0 <= i < |ks| ==> Key(s, ks[i]) in t
    requires RowsAt(t, s, ks[..|ks| - 1], PlainSpec(aggregate)).Ok?
    requires AggregateBucketValue(BucketAt(t, Key(s, ks[|ks| - 1])), aggregate) == Ok(v)
    ensures RowsAt(t, s, ks, PlainSpec(aggregate)).Ok?
    ensures SumOfRows(RowsAt(t, s, ks, PlainSpec(aggregate)).value)
         == SumOfRows(RowsAt(t, s, ks[..|ks| - 1], PlainSpec(aggregate)).value) + v
  {
    var n := |ks| - 1;
    RowsAtNext(t, s, ks, n, PlainSpec(aggregate));
    assert ks[..n + 1] == ks;
    SumOfOneMore(RowsAt(t, s, ks[..n], PlainSpec(aggregate)).value, TsRow(v, ks[n]));
  }

  lemma SumOfOneMore(rows: seq<TsRow>, row: TsRow)
    ensures SumOfRows(rows + [row]) == SumOfRows(rows) + row.v
  {
    assert (rows + [row])[..|rows|] == rows;
  }

  /** Without value filters the counts over all rows add up to the number of samples, and the sums to their sum. */
  lemma CountsAndSumsAddUp(t: Table, s: Series, p: Precision)
    requires AllSingle(t) && !p.Unsupported?
    ensures var counts, sums := Aggregated(t, s, p, PlainSpec(Count)), Aggregated(t, s, p, PlainSpec(Sum));
            && counts.Ok? && SumOfRows(counts.value) == |SeriesPart(t, s)| as real
            && sums.Ok? && SumOfRows(sums.value) == SumOf(Total(SeriesPart(t, s)))
  {
    hide RowsAt, Truncation;
    var f := Truncation(p);
    var buckets, mine := RollUp(t, f), SeriesPart(t, s);
    StatsOfRollUp(t, f);
    var ks := Ascending(InstantsOf(buckets, s));
    var part := SeriesPart(buckets, s);
    SeriesBuckets(t, s, f);
    SeriesKeys(buckets, s, ks);
    RowsAddUp(buckets, s, ks, part);
    RollUpConserves(mine, f);
    if mine.Keys == {} {
      assert |mine| == 0;
      assert mine == map[];
    } else {
      TotalCountsSamples(mine);
    }
  }

  lemma SeriesKeys(t: Table, s: Series, ks: seq<Instant>)
    requires ks == Ascending(InstantsOf(t, s))
    ensures Covers(t, s, ks, SeriesPart(t, s))
  {
    forall k | k in SeriesPart(t, s) ensures exists i :: 0 <= i < |ks| && k == Key(s, ks[i]) {
      assert k.ts in InstantsOf(t, s) && k.ts in ks;
      var i :| 0 <= i < |ks| && ks[i] == k.ts;
    }
    forall i | 0 <= i < |ks| ensures Key(s, ks[i]) in SeriesPart(t, s) {
      assert ks[i] in ks && ks[i] in InstantsOf(t, s);
    }
  }

  lemma SeriesBuckets(t: Table, s: Series, f: Instant -> Instant)
    ensures SeriesPart(RollUp(t, f), s) == RollUp(SeriesPart(t, s), f)
  {
    var left, mine := SeriesPart(RollUp(t, f), s), SeriesPart(t, s);
    forall k | k in left ensures k in Buckets(mine, f) {
      var q :| q in t && BucketOf(q, f) == k;
      assert q in mine;
    }
    assert left.Keys == Buckets(mine, f);
    forall k | k in left ensures left[k] == RollUp(mine, f)[k] {
      assert Group(t, f, k) == Group(mine, f, k);
    }
  }
}
