/**
 The aggregate query over many series: per-series results, the per-series and total
 row limits, and their independence of the order in which the series are visited.
 */
module MultiQueries {
  import opened Wrappers
  import opened Calendar
  import opened Summaries
  import opened RollupTables
  import opened Aggregation
  import opened Order
  import opened BucketTables
  import opened AggregateQueries
  import opened Overcounts
  import opened CountedRows
  import opened SeriesQueries

  type SeriesMap = map<Series, seq<TsRow>>

  datatype MultiParams = MultiParams(uuids: set<Series>, start: Instant, end: Instant, precision: Precision, aggregate: Aggregate,
                                     le: Option<real>, ge: Option<real>, utc: bool, useRollups: bool,
                                     maxPointsPerSeries: int, maxTotalPoints: int)
  {
    function Spec(): RowSpec {
      RowSpec(aggregate, le, ge, v => Some(v))
    }
  }

  // ----- row totals

  ghost function TotalRows(m: SeriesMap): nat {
    if m.Keys == {} then 0
    else
      var s := Element(m.Keys);
      |m[s]| + TotalRows(m - {s})
  }

  lemma {:induction false} TotalRowsRemove(m: SeriesMap, s: Series)
    requires s in m
    ensures TotalRows(m) == |m[s]| + TotalRows(m - {s})
    decreases |m|
  {
    var c := Element(m.Keys);
    if c != s {
      RemoveTwo(m, c, s);
      TotalRowsRemove(m - {c}, s);
      TotalRowsRemove(m - {s}, c);
    }
  }

  lemma TotalRowsAdd(m: SeriesMap, s: Series, rows: seq<TsRow>)
    requires s !in m
    ensures TotalRows(m[s := rows]) == TotalRows(m) + |rows|
  {
    TotalRowsRemove(m[s := rows], s);
    assert m[s := rows] - {s} == m;
  }

  lemma {:induction false} TotalRowsSubmap(a: SeriesMap, b: SeriesMap)
    requires forall s :: s in a ==> s in b && a[s] == b[s]
    ensures TotalRows(a) <= TotalRows(b)
    decreases |a|
  {
    if a.Keys != {} {
      var s := Element(a.Keys);
      TotalRowsRemove(a, s);
      TotalRowsRemove(b, s);
      TotalRowsSubmap(a - {s}, b - {s});
    }
  }

  /** Every enabled limit is respected; a limit that is not positive is disabled. */
  ghost predicate WithinLimits(m: SeriesMap, maxPerSeries: int, maxTotal: int) {
    (maxPerSeries > 0 ==> forall s :: s in m ==> |m[s]| <= maxPerSeries)
    && (maxTotal > 0 ==> TotalRows(m) <= maxTotal)
  }

  function ValidateMultiSeriesLimits(seriesPoints: int, totalPoints: int, p: MultiParams): bool {
    !(p.maxPointsPerSeries > 0 && seriesPoints > p.maxPointsPerSeries)
    && !(p.maxTotalPoints > 0 && totalPoints > p.maxTotalPoints)
  }

  // ----- the result of every series

  function SeriesIn(t: Table): set<Series> {
    set k | k in t :: k.series
  }

  /** The non-empty results of the given series. */
  ghost function Results(t: Table, spec: RowSpec, among: set<Series>): SeriesMap
    requires AllStats(t)
  {
    map s | s in among && SeriesRows(t, s, spec).Ok? && SeriesRows(t, s, spec).value != [] :: SeriesRows(t, s, spec).value
  }

  /**
   The verdict and the mapping, as a function of the grouped samples and the limits: no
   order of rows or of series occurs in it.
   */
  ghost function MultiResult(t: Table, p: MultiParams): QueryResult<SeriesMap>
    requires AllStats(t)
  {
    if t.Keys == {} then Ok(map[])
    else if p.aggregate.OtherAggregate? then Err(UnsupportedAggregate)
    else if WithinLimits(Results(t, p.Spec(), SeriesIn(t)), p.maxPointsPerSeries, p.maxTotalPoints)
    then Ok(Results(t, p.Spec(), SeriesIn(t)))
    else Err(TooManyPoints)
  }

  lemma {:induction false} SupportedNeverFails(t: Table, s: Series, ks: seq<Instant>, p: MultiParams)
    requires AllStats(t) && (forall i :: 0 <= i < |ks| ==> Key(s, ks[i]) in t) && !p.aggregate.OtherAggregate?
    ensures RowsAt(t, s, ks, p.Spec()).Ok?
    decreases |ks|
  {
    if ks != [] {
      SupportedNeverFails(t, s, ks[..|ks| - 1], p);
    }
  }

  lemma UnsupportedAlwaysFails(t: Table, s: Series, p: MultiParams)
    requires AllStats(t) && s in SeriesIn(t) && p.aggregate.OtherAggregate?
    ensures SeriesRows(t, s, p.Spec()) == Err(UnsupportedAggregate)
  {
    var instants := InstantsOf(t, s);
    var ks := Ascending(instants);
    var k :| k in t && k.series == s;
    assert k.ts in instants && k.ts in ks;
    assert forall i :: 0 <= i < |ks| ==> ks[i] in ks;
    FirstFails(t, s, ks, p);
  }

  lemma FirstFails(t: Table, s: Series, ks: seq<Instant>, p: MultiParams)
    requires AllStats(t) && (forall i :: 0 <= i < |ks| ==> Key(s, ks[i]) in t) && ks != []
    requires p.aggregate.OtherAggregate?
    ensures RowsAt(t, s, ks, p.Spec()) == Err(UnsupportedAggregate)
  {
    assert ks[..1][..0] == [];
    assert RowsAt(t, s, ks[..0], p.Spec()) == Ok([]);
    RowsAtNext(t, s, ks, 0, p.Spec());
    RowsAtFails(t, s, ks, 1, p.Spec());
  }

  lemma SeriesSucceeds(t: Table, s: Series, p: MultiParams)
    requires AllStats(t) && !p.aggregate.OtherAggregate?
    ensures SeriesRows(t, s, p.Spec()).Ok?
  {
    var ks := Ascending(InstantsOf(t, s));
    assert forall i :: 0 <= i < |ks| ==> ks[i] in ks;
    SupportedNeverFails(t, s, ks, p);
  }

  lemma ResultsGrow(t: Table, spec: RowSpec, among: set<Series>, s: Series)
    requires AllStats(t) && s !in among && SeriesRows(t, s, spec).Ok?
    ensures var rows := SeriesRows(t, s, spec).value;
            Results(t, spec, among + {s})
            == if rows == [] then Results(t, spec, among) else Results(t, spec, among)[s := rows]
    ensures s !in Results(t, spec, among)
  {
    hide SeriesRows;
  }

  /** Where the loop over the series stands once it has visited those in done. */
  ghost predicate Visited(t: Table, p: MultiParams, done: set<Series>, mapping: SeriesMap, totalPoints: int)
    requires AllStats(t)
  {
    && done <= SeriesIn(t)
    && mapping == Results(t, p.Spec(), done) && totalPoints == TotalRows(mapping)
    && WithinLimits(mapping, p.maxPointsPerSeries, p.maxTotalPoints)
    && (p.aggregate.OtherAggregate? ==> done == {})
  }

  method VisitSeries(table: BucketTable, p: MultiParams, series: Series, mapping: SeriesMap, totalPoints: int, ghost done: set<Series>)
    returns (r: QueryResult<SeriesMap>, total: int)
    requires table.Valid() && series in SeriesIn(table.View()) - done
    requires Visited(table.View(), p, done, mapping, totalPoints)
    ensures r.Ok? ==> Visited(table.View(), p, done + {series}, r.value, total)
    ensures r.Err? ==> MultiResult(table.View(), p) == r
  {
    hide BucketTable.View, BucketTable.Valid, SeriesRows, TotalRows, Results, WithinLimits, MultiResult, SeriesIn;
    ghost var t := table.View();
    total := totalPoints;
    var rows := table.BuildRows(series, p.Spec());
    if rows.Err? {
      VerdictOnError(t, series, p);
      return Err(rows.error), total;
    }
    SucceedsIff(t, series, p);
    ResultsGrow(t, p.Spec(), done, series);
    if |rows.value| == 0 {
      return Ok(mapping), total;
    }
    total := total + |rows.value|;
    TotalRowsAdd(mapping, series, rows.value);
    LimitsStep(mapping, series, rows.value, p);
    if !ValidateMultiSeriesLimits(|rows.value|, total, p) {
      VerdictOnLimit(t, done + {series}, p);
      return Err(TooManyPoints), total;
    }
    r := Ok(mapping[series := rows.value]);
  }

  /** Visits the series in an arbitrary order, stopping at the first limit exceeded. */
  method BuildMultiSourceResult(table: BucketTable, p: MultiParams) returns (r: QueryResult<SeriesMap>)
    requires table.Valid()
    ensures r == MultiResult(table.View(), p)
  {
    ghost var t := table.View();
    var mapping: SeriesMap := map[];
    var totalPoints := 0;
    var todo := table.keys.Keys;
    TableSeries(table);
    ghost var done: set<Series> := {};
    NoResults(t, p);
    hide BucketTable.View, BucketTable.Valid, MultiResult, SeriesIn, TotalRows, Results, WithinLimits;
    while todo != {}
      invariant done !! todo && done + todo == SeriesIn(t)
      invariant Visited(t, p, done, mapping, totalPoints)
      decreases todo
    {
      var series := Pick(todo);
      var visit, total := VisitSeries(table, p, series, mapping, totalPoints, done);
      if visit.Err? {
        return visit;
      }
      mapping, totalPoints := visit.value, total;
      done, todo := done + {series}, todo - {series};
    }
    assert done == SeriesIn(t);
    FinalVerdict(t, p);
    r := Ok(mapping);
  }

  lemma NoResults(t: Table, p: MultiParams)
    requires AllStats(t)
    ensures Results(t, p.Spec(), {}) == map[] && TotalRows(map[]) == 0
    ensures WithinLimits(map[], p.maxPointsPerSeries, p.maxTotalPoints)
  {}

  lemma SucceedsIff(t: Table, s: Series, p: MultiParams)
    requires AllStats(t) && s in SeriesIn(t)
    ensures SeriesRows(t, s, p.Spec()).Ok? <==> !p.aggregate.OtherAggregate?
    ensures SeriesRows(t, s, p.Spec()).Err? ==> SeriesRows(t, s, p.Spec()) == Err(UnsupportedAggregate)
  {
    if p.aggregate.OtherAggregate? {
      UnsupportedAlwaysFails(t, s, p);
    } else {
      SeriesSucceeds(t, s, p);
    }
  }

  lemma VerdictOnError(t: Table, s: Series, p: MultiParams)
    requires AllStats(t) && s in SeriesIn(t) && SeriesRows(t, s, p.Spec()).Err?
    ensures SeriesRows(t, s, p.Spec()) == Err(UnsupportedAggregate)
    ensures MultiResult(t, p) == Err(UnsupportedAggregate)
  {
    hide SeriesRows;
    SucceedsIff(t, s, p);
  }

  lemma VerdictOnLimit(t: Table, done: set<Series>, p: MultiParams)
    requires AllStats(t) && done <= SeriesIn(t) && done != {} && !p.aggregate.OtherAggregate?
    requires !WithinLimits(Results(t, p.Spec(), done), p.maxPointsPerSeries, p.maxTotalPoints)
    ensures MultiResult(t, p) == Err(TooManyPoints)
  {
    hide SeriesRows, WithinLimits;
    LimitExceeded(Results(t, p.Spec(), done), Results(t, p.Spec(), SeriesIn(t)), p);
    var s := Element(done);
  }

  lemma FinalVerdict(t: Table, p: MultiParams)
    requires AllStats(t)
    requires p.aggregate.OtherAggregate? ==> SeriesIn(t) == {}
    requires WithinLimits(Results(t, p.Spec(), SeriesIn(t)), p.maxPointsPerSeries, p.maxTotalPoints)
    ensures MultiResult(t, p) == Ok(Results(t, p.Spec(), SeriesIn(t)))
  {
    hide SeriesRows, WithinLimits;
    if t.Keys != {} {
      var k :| k in t;
      assert k.series in SeriesIn(t);
    }
  }

  lemma LimitsStep(m: SeriesMap, s: Series, rows: seq<TsRow>, p: MultiParams)
    requires WithinLimits(m, p.maxPointsPerSeries, p.maxTotalPoints) && s !in m
    requires TotalRows(m[s := rows]) == TotalRows(m) + |rows|
    ensures WithinLimits(m[s := rows], p.maxPointsPerSeries, p.maxTotalPoints)
       <==> ValidateMultiSeriesLimits(|rows|, TotalRows(m) + |rows|, p)
  {
    var next := m[s := rows];
    assert next[s] == rows;
    assert forall x :: x in m ==> next[x] == m[x];
  }

  lemma TableSeries(table: BucketTable)
    requires table.Valid()
    ensures table.keys.Keys == SeriesIn(table.View())
  {
    forall s | s in table.keys ensures s in SeriesIn(table.View()) {
      assert table.keys[s][0] in table.keys[s];
      assert Key(s, table.keys[s][0]) in table.View();
    }
  }

  lemma LimitExceeded(part: SeriesMap, all: SeriesMap, p: MultiParams)
    requires forall s :: s in part ==> s in all && part[s] == all[s]
    requires !WithinLimits(part, p.maxPointsPerSeries, p.maxTotalPoints)
    ensures !WithinLimits(all, p.maxPointsPerSeries, p.maxTotalPoints)
  {
    TotalRowsSubmap(part, all);
  }

  ghost function MultiAggregated(t: Table, p: MultiParams): QueryResult<SeriesMap>
    requires AllStats(t)
  {
    if p.precision.Unsupported? && t.Keys != {} then Err(UnsupportedPrecision)
    else
      StatsOfRollUp(t, Truncation(p.precision));
      MultiResult(RollUp(t, Truncation(p.precision)), p)
  }

  lemma MultiCases(t: Table, p: MultiParams)
    requires AllStats(t)
    ensures AllStats(RollUp(t, Truncation(p.precision)))
    ensures Folded([], Truncation(p.precision)) == map[]
    ensures MultiAggregated(t, p) == if p.precision.Unsupported? && t.Keys != {} then Err(UnsupportedPrecision)
                                     else MultiResult(RollUp(t, Truncation(p.precision)), p)
    ensures t.Keys == {} ==> MultiAggregated(t, p) == Ok(map[])
  {
    hide RollUp, Truncation;
    StatsOfRollUp(t, Truncation(p.precision));
    RollUpEmptyIff(t, Truncation(p.precision));
  }

  lemma RowsOfTable(rows: seq<DataRow>, t: Table)
    requires AllSingle(t) && Enumerates(DataEntries(rows), t)
    ensures AllStats(t) && (rows == [] <==> t.Keys == {})
  {
    EmptyEnumeration(DataEntries(rows), t);
  }

  /** The raw path over every row of the range. */
  method AggregateMultiSourceRows(rows: seq<DataRow>, ghost t: Table, p: MultiParams) returns (r: QueryResult<SeriesMap>)
    requires AllSingle(t) && Enumerates(DataEntries(rows), t)
    ensures AllStats(t) && r == MultiAggregated(t, p)
  {
    RowsOfTable(rows, t);
    hide *;
    MultiCases(t, p);
    if |rows| == 0 {
      return Ok(map[]);
    }
    var table := new BucketTable();
    var ok := AccumulateData(table, rows, p.precision, []);
    if !ok {
      return Err(UnsupportedPrecision);
    }
    assert [] + DataEntries(rows) == DataEntries(rows);
    FoldedIsRollUp(DataEntries(rows), t, Truncation(p.precision));
    r := BuildMultiSourceResult(table, p);
  }

  method AggregateMultiSourceFromSources(rawRows: seq<DataRow>, rollupRows: seq<RollupRow>, ghost t: Table, p: MultiParams)
    returns (r: QueryResult<SeriesMap>)
    requires AllStats(t) && !p.precision.Unsupported?
    requires forall i :: 0 <= i < |rollupRows| ==> rollupRows[i].summary.Stats?
    requires Folded(DataEntries(rawRows) + RollupEntries(rollupRows), Truncation(p.precision)) == RollUp(t, Truncation(p.precision))
    ensures r == MultiAggregated(t, p)
  {
    hide *;
    MultiCases(t, p);
    var table := new BucketTable();
    var ok := AccumulateData(table, rawRows, p.precision, []);
    assert [] + DataEntries(rawRows) == DataEntries(rawRows);
    ok := AccumulateRollups(table, rollupRows, p.precision, DataEntries(rawRows));
    r := BuildMultiSourceResult(table, p);
  }

  // ----- the fast path against the raw path

  lemma {:induction false} TotalRowsSame(m: SeriesMap, n: SeriesMap)
    requires m.Keys == n.Keys && forall s :: s in m ==> |m[s]| == |n[s]|
    ensures TotalRows(m) == TotalRows(n)
    decreases |m|
  {
    if m.Keys != {} {
      var s := Element(m.Keys);
      TotalRowsRemove(m, s);
      TotalRowsRemove(n, s);
      assert (m - {s}).Keys == (n - {s}).Keys;
      TotalRowsSame(m - {s}, n - {s});
    }
  }

  lemma SameLimits(m: SeriesMap, n: SeriesMap, maxPerSeries: int, maxTotal: int)
    requires m.Keys == n.Keys && forall s :: s in m ==> |m[s]| == |n[s]|
    ensures WithinLimits(m, maxPerSeries, maxTotal) <==> WithinLimits(n, maxPerSeries, maxTotal)
  {
    TotalRowsSame(m, n);
    assert forall s :: s in n ==> s in m;
  }

  lemma SameSeries(t: Table, u: Table)
    requires AllAtLeast(t, u)
    ensures SeriesIn(t) == SeriesIn(u)
  {}

  lemma SameMultiBounds(t: Table, u: Table, p: MultiParams)
    requires AllStats(t) && AllStats(u) && AllAtLeast(t, u) && BoundsOnly(p.aggregate)
    ensures MultiResult(t, p) == MultiResult(u, p)
  {
    hide SeriesRows, WithinLimits, AtLeast;
    SameSeries(t, u);
    forall s | s in SeriesIn(t) ensures SeriesRows(t, s, p.Spec()) == SeriesRows(u, s, p.Spec()) {
      SameBounds(t, u, s, p.Spec());
    }
    assert Results(t, p.Spec(), SeriesIn(t)) == Results(u, p.Spec(), SeriesIn(u));
  }

  /** Unfiltered results have the same series and lengths, and are equal exactly if all values are. */
  lemma ValueResults(t: Table, u: Table, p: MultiParams)
    requires AllStats(t) && AllStats(u) && t.Keys == u.Keys && ValuesShow(p.Spec())
    ensures var a, b := Results(t, p.Spec(), SeriesIn(t)), Results(u, p.Spec(), SeriesIn(u));
            && a.Keys == b.Keys && (forall s :: s in a ==> |a[s]| == |b[s]|)
            && (a == b <==> forall k :: k in t ==> ValueAt(t, k, p.aggregate) == ValueAt(u, k, p.aggregate))
  {
    assert !p.aggregate.OtherAggregate?;
    hide SeriesRows, ValuesShow, ValueAt;
    assert SeriesIn(t) == SeriesIn(u) by { assert forall k :: k in t <==> k in u; }
    var a, b := Results(t, p.Spec(), SeriesIn(t)), Results(u, p.Spec(), SeriesIn(u));
    forall s | s in SeriesIn(t)
      ensures s in a && s in b && |a[s]| == |b[s]|
      ensures a[s] == b[s] <==> forall k :: k in t && k.series == s ==> ValueAt(t, k, p.aggregate) == ValueAt(u, k, p.aggregate)
    {
      SameValuesIff(t, u, s, p.Spec());
    }
    assert a.Keys == b.Keys;
    if a == b {
      forall k | k in t ensures ValueAt(t, k, p.aggregate) == ValueAt(u, k, p.aggregate) {
        assert k.series in SeriesIn(t);
        assert a[k.series] == b[k.series];
      }
    }
    if forall k :: k in t ==> ValueAt(t, k, p.aggregate) == ValueAt(u, k, p.aggregate) {
      forall s | s in a ensures s in b && a[s] == b[s] {}
      assert a == b;
    }
  }

  lemma SameMultiValuesIff(t: Table, u: Table, p: MultiParams)
    requires AllStats(t) && AllStats(u) && t.Keys == u.Keys && ValuesShow(p.Spec())
    ensures MultiResult(t, p) == MultiResult(u, p)
       <==> (forall k :: k in t ==> ValueAt(t, k, p.aggregate) == ValueAt(u, k, p.aggregate)) || MultiResult(u, p).Err?
  {
    hide SeriesRows, WithinLimits, Results, ValueAt;
    var a, b := Results(t, p.Spec(), SeriesIn(t)), Results(u, p.Spec(), SeriesIn(u));
    ValueResults(t, u, p);
    SameLimits(a, b, p.maxPointsPerSeries, p.maxTotalPoints);
    assert t.Keys == {} <==> u.Keys == {};
  }

  lemma SameMultiCountsIff(t: Table, u: Table, p: MultiParams)
    requires AllStats(t) && AllStats(u) && AllAtLeast(t, u) && CountsShow(p.Spec())
    ensures MultiResult(t, p) == MultiResult(u, p) <==> t == u || MultiResult(u, p).Err?
  {
    assert p.aggregate == Count;
    SameMultiValuesIff(t, u, p);
    hide *;
    AllCountsTold(t, u);
  }

  lemma CompareMulti(read: Table, slice: Table, p: MultiParams)
    requires AllStats(read) && AllStats(slice) && !p.precision.Unsupported?
    requires AllAtLeast(RollUp(read, Truncation(p.precision)), RollUp(slice, Truncation(p.precision)))
    ensures var same := RollUp(read, Truncation(p.precision)) == RollUp(slice, Truncation(p.precision));
            && (same || BoundsOnly(p.aggregate) ==> MultiAggregated(read, p) == MultiAggregated(slice, p))
            && (CountsShow(p.Spec()) ==>
                  (MultiAggregated(read, p) == MultiAggregated(slice, p) <==> same || MultiAggregated(slice, p).Err?))
  {
    hide *;
    MultiCases(read, p);
    MultiCases(slice, p);
    var t, u := RollUp(read, Truncation(p.precision)), RollUp(slice, Truncation(p.precision));
    if BoundsOnly(p.aggregate) { SameMultiBounds(t, u, p); }
    if CountsShow(p.Spec()) { SameMultiCountsIff(t, u, p); }
  }

  /** The answer of the raw path. */
  ghost function RawMultiAnswer(db: Database, p: MultiParams): QueryResult<SeriesMap>
    requires AllStats(Slice(db.points, p.uuids, p.start, p.end))
  {
    MultiAggregated(Slice(db.points, p.uuids, p.start, p.end), p)
  }

  ghost function MultiAnswer(db: Database, p: MultiParams): QueryResult<SeriesMap>
    requires AllStats(Read(db, p.uuids, p.start, p.end, SourceOf(p.utc, p.useRollups, p.precision)))
  {
    MultiAggregated(Read(db, p.uuids, p.start, p.end, SourceOf(p.utc, p.useRollups, p.precision)), p)
  }

  /** As for one series: right on the days read, always right on minima and maxima, and on unfiltered counts not otherwise. */
  lemma MultiAnswerIsRightIff(db: Database, p: MultiParams)
    requires Ready(db)
    ensures AllStats(Read(db, p.uuids, p.start, p.end, SourceOf(p.utc, p.useRollups, p.precision)))
    ensures AllStats(Slice(db.points, p.uuids, p.start, p.end))
    ensures var right := SourceOf(p.utc, p.useRollups, p.precision).Daily? ==> DaysRight(db, p.uuids, p.start, p.end);
            var r := MultiAnswer(db, p);
            && (right || BoundsOnly(p.aggregate) ==> r == RawMultiAnswer(db, p))
            && (CountsShow(p.Spec()) ==> (r == RawMultiAnswer(db, p) <==> right || RawMultiAnswer(db, p).Err?))
  {
    hide Ready, MultiAggregated, AllStats, AllAtLeast, BoundsOnly, CountsShow, DaysRight, Slice, RollUp, Truncation;
    var source := SourceOf(p.utc, p.useRollups, p.precision);
    ReadIsStats(db, p.uuids, p.start, p.end, source);
    if !source.NoSource? {
      ReadIsRightIff(db, p.uuids, p.start, p.end, p.precision, source);
      CompareMulti(Read(db, p.uuids, p.start, p.end, source), Slice(db.points, p.uuids, p.start, p.end), p);
    }
  }

  /**
   The aggregate query of many series.  As for one series it returns what the raw path
   would, unless the daily table is read where a day in it is wrong.
   */
  method QueryMultiSourceAggregatedData(db: Database, p: MultiParams) returns (r: QueryResult<SeriesMap>)
    requires Ready(db)
    ensures AllStats(Read(db, p.uuids, p.start, p.end, SourceOf(p.utc, p.useRollups, p.precision)))
    ensures AllStats(Slice(db.points, p.uuids, p.start, p.end))
    ensures r == MultiAnswer(db, p)
    ensures var right := SourceOf(p.utc, p.useRollups, p.precision).Daily? ==> DaysRight(db, p.uuids, p.start, p.end);
            && (right || BoundsOnly(p.aggregate) ==> r == RawMultiAnswer(db, p))
            && (CountsShow(p.Spec()) ==> (r == RawMultiAnswer(db, p) <==> right || RawMultiAnswer(db, p).Err?))
  {
    MultiAnswerIsRightIff(db, p);
    PointsAreSingle(db);
    SliceIsSingle(db.points, p.uuids, p.start, p.end);
    ghost var source := SourceOf(p.utc, p.useRollups, p.precision);
    hide RollUp, Truncate, Slice, Folded, Enumerates, MultiAggregated, ReadTable, Ready, AllStats, AllSingle, DaysRight, BoundsOnly, CountsShow;
    if RollupSourceForPrecision(p.useRollups, p.utc, p.precision) != NoSource {
      var rawRows, rollupRows := LoadAggregateSources(db, p.uuids, p.start, p.end, p.precision);
      r := AggregateMultiSourceFromSources(rawRows, rollupRows, Read(db, p.uuids, p.start, p.end, source), p);
    } else {
      var rows := GetTsDataRange(db.points, p.uuids, p.start, p.end);
      r := AggregateMultiSourceRows(rows, Slice(db.points, p.uuids, p.start, p.end), p);
    }
  }
}
