/**
 What the aggregate queries return, and why the choice between the raw path and
 the fast path, the order of the rows and the order of the series cannot be seen
 in it.
 */
module SeriesQueries {
  import opened Wrappers
  import opened Calendar
  import opened Summaries
  import opened RollupTables
  import opened Aggregation
  import opened Order
  import opened BucketTables
  import opened AggregateQueries
  import opened Overcounts
  import opened DayRollups
  import opened CountedRows

  /** The result of aggregating a table of samples, or of summaries: its buckets by increasing time, filtered. */
  ghost function Aggregated(t: Table, s: Series, p: Precision, spec: RowSpec): QueryResult<seq<TsRow>>
    requires AllStats(t)
  {
    if p.Unsupported? && t.Keys != {} then Err(UnsupportedPrecision)
    else
      StatsOfRollUp(t, Truncation(p));
      SeriesRows(RollUp(t, Truncation(p)), s, spec)
  }

  // ----- one series

  /** aggregated: both a precision and an aggregate are asked for. */
  datatype SingleParams = SingleParams(uuid: Series, start: Instant, end: Instant, aggregated: bool, precision: Precision, spec: RowSpec,
                                       utc: bool, useRollups: bool, maxPoints: int)

  /** The raw path: every row of the range. */
  method AggregateSingleSourceRows(rows: seq<DataRow>, ghost t: Table, p: SingleParams) returns (r: QueryResult<seq<TsRow>>)
    requires AllSingle(t) && Enumerates(DataEntries(rows), t)
    ensures r == Aggregated(t, p.uuid, p.precision, p.spec)
  {
    hide *;
    ghost var f := Truncation(p.precision);
    RawCases(rows, t, p.uuid, p.precision, p.spec);
    var table := new BucketTable();
    var ok := AccumulateData(table, rows, p.precision, []);
    if !ok {
      return Err(UnsupportedPrecision);
    }
    assert [] + DataEntries(rows) == DataEntries(rows);
    FoldedIsRollUp(DataEntries(rows), t, f);
    r := table.BuildRows(p.uuid, p.spec);
  }

  lemma RawCases(rows: seq<DataRow>, t: Table, s: Series, p: Precision, spec: RowSpec)
    requires AllSingle(t) && Enumerates(DataEntries(rows), t)
    ensures AllStats(t) && AllStats(RollUp(t, Truncation(p)))
    ensures Folded([], Truncation(p)) == map[]
    ensures Aggregated(t, s, p, spec)
         == if p.Unsupported? && rows != [] then Err(UnsupportedPrecision) else SeriesRows(RollUp(t, Truncation(p)), s, spec)
  {
    EmptyEnumeration(DataEntries(rows), t);
    hide Enumerates, SeriesRows, RollUp;
    StatsOfRollUp(t, Truncation(p));
  }

  /** The fast path: raw fringes first, then rollup rows. */
  method AggregateSingleSourceFromSources(rawRows: seq<DataRow>, rollupRows: seq<RollupRow>, ghost t: Table, p: SingleParams)
    returns (r: QueryResult<seq<TsRow>>)
    requires AllStats(t) && !p.precision.Unsupported?
    requires forall i :: 0 <= i < |rollupRows| ==> rollupRows[i].summary.Stats?
    requires Folded(DataEntries(rawRows) + RollupEntries(rollupRows), Truncation(p.precision)) == RollUp(t, Truncation(p.precision))
    ensures r == Aggregated(t, p.uuid, p.precision, p.spec)
  {
    assert Folded([], Truncation(p.precision)) == map[];
    hide RollUp, Truncate, SeriesRows, Folded, BucketTable.View, BucketTable.Valid;
    var table := new BucketTable();
    var ok := AccumulateData(table, rawRows, p.precision, []);
    assert [] + DataEntries(rawRows) == DataEntries(rawRows);
    ok := AccumulateRollups(table, rollupRows, p.precision, DataEntries(rawRows));
    StatsOfRollUp(t, Truncation(p.precision));
    r := table.BuildRows(p.uuid, p.spec);
  }

  lemma EmptyEnumeration(es: seq<Entry>, t: Table)
    requires Enumerates(es, t)
    ensures es == [] <==> t.Keys == {}
  {
    if es != [] {
      assert es[0].key in t;
    }
  }

  lemma SliceIsSingle(t: Table, uuids: set<Series>, start: Instant, end: Instant)
    requires AllSingle(t)
    ensures AllSingle(Slice(t, uuids, start, end))
  {}

  // ----- what a query reads, and whether that is right

  function SourceOf(utc: bool, useRollups: bool, p: Precision): RollupSource {
    RollupSourceForPrecision(useRollups, utc, p)
  }

  /** The samples of the range, or the samples of its fringe and the rollup rows of its whole days or hours. */
  function Read(db: Database, uuids: set<Series>, start: Instant, end: Instant, source: RollupSource): Table {
    match source
    case NoSource => Slice(db.points, uuids, start, end)
    case Daily => ReadTable(db.points, db.daily, uuids, start, end, Day)
    case Hourly => ReadTable(db.points, db.hourly, uuids, start, end, Hour)
  }

  /** The daily row is right for every whole day of the range. */
  ghost predicate DaysRight(db: Database, uuids: set<Series>, start: Instant, end: Instant) {
    forall d :: d in db.daily && d.series in uuids && start <= d.ts && d.ts + DAY - 1 <= end ==> DayExact(db, d)
  }

  lemma ReadIsStats(db: Database, uuids: set<Series>, start: Instant, end: Instant, source: RollupSource)
    requires Ready(db)
    ensures AllStats(Read(db, uuids, start, end, source)) && AllStats(Slice(db.points, uuids, start, end))
    ensures AllSingle(Slice(db.points, uuids, start, end))
  {
    hide RollUp, Fringe, WholeRows;
    SingleIsSound(db.points);
    RollUpSound(db.points, Truncation(Day));
    RollUpSound(db.points, Truncation(Hour));
    StatsAtLeast(db.daily, RollUp(db.points, Truncation(Day)));
    if source.Daily? { ReadStats(db.points, db.daily, uuids, start, end, Day); }
    if source.Hourly? { ReadStats(db.points, db.hourly, uuids, start, end, Hour); }
  }

  lemma ReadStats(points: Table, table: Table, uuids: set<Series>, start: Instant, end: Instant, grain: Precision)
    requires (grain.Day? || grain.Hour?) && AllSingle(points) && AllStats(table)
    ensures AllStats(ReadTable(points, table, uuids, start, end, grain))
  {}

  /** Buckets of what is read against buckets of the samples: never less, and the same exactly if the days read are right. */
  lemma ReadIsRightIff(db: Database, uuids: set<Series>, start: Instant, end: Instant, p: Precision, source: RollupSource)
    requires Ready(db) && (source.NoSource? || source == RollupSourceForPrecision(true, true, p))
    ensures var read, right := RollUp(Read(db, uuids, start, end, source), Truncation(p)),
                               RollUp(Slice(db.points, uuids, start, end), Truncation(p));
            && AllAtLeast(read, right)
            && (read == right <==> (source.Daily? ==> DaysRight(db, uuids, start, end)))
  {
    match source
    case NoSource =>
      TableAtLeastItself(RollUp(Slice(db.points, uuids, start, end), Truncation(p)));
    case Daily =>
      ReadyTable(db, Day);
      DaysAreRows(db, uuids, start, end);
      hide *;
      assert FinerThan(Day, p) by { DailyServes(p); }
      FastPathIsRightIff(db.points, db.daily, uuids, start, end, Day, p);
    case Hourly =>
      ReadyTable(db, Hour);
      assert FinerThan(Hour, p);
      assert RowsRight(db.points, db.hourly, uuids, start, end, Hour);
      hide RollUp, Truncation, ReadTable, Slice, AllAtLeast, RowsRight;
      FastPathIsRightIff(db.points, db.hourly, uuids, start, end, Hour, p);
  }

  lemma DailyServes(p: Precision)
    requires RollupSourceForPrecision(true, true, p) == Daily
    ensures FinerThan(Day, p)
  {}

  lemma TableAtLeastItself(t: Table)
    ensures AllAtLeast(t, t)
  {}

  lemma DaysAreRows(db: Database, uuids: set<Series>, start: Instant, end: Instant)
    ensures DaysRight(db, uuids, start, end) <==> RowsRight(db.points, db.daily, uuids, start, end, Day)
  {
    hide RollUp, Truncation;
    if DaysRight(db, uuids, start, end) {
      forall k | k in db.daily && k.series in uuids && Whole(start, end, Grain(Day), k.ts)
        ensures db.daily[k] == Lookup(RollUp(db.points, Truncation(Day)), k)
      {
        assert DayExact(db, k);
      }
    }
    if RowsRight(db.points, db.daily, uuids, start, end, Day) {
      forall d | d in db.daily && d.series in uuids && start <= d.ts && d.ts + DAY - 1 <= end ensures DayExact(db, d) {
        assert Whole(start, end, Grain(Day), d.ts);
      }
    }
  }

  /** The answer of the raw path. */
  ghost function RawAnswer(db: Database, p: SingleParams): QueryResult<seq<TsRow>>
    requires AllStats(Slice(db.points, {p.uuid}, p.start, p.end))
  {
    Aggregated(Slice(db.points, {p.uuid}, p.start, p.end), p.uuid, p.precision, p.spec)
  }

  ghost function Answer(db: Database, p: SingleParams): QueryResult<seq<TsRow>>
    requires AllStats(Read(db, {p.uuid}, p.start, p.end, SourceOf(p.utc, p.useRollups, p.precision)))
  {
    Aggregated(Read(db, {p.uuid}, p.start, p.end, SourceOf(p.utc, p.useRollups, p.precision)), p.uuid, p.precision, p.spec)
  }

  /** Every bucket read belongs to the series asked for. */
  lemma OneSeries(t: Table, s: Series, f: Instant -> Instant)
    requires forall k :: k in t ==> k.series == s
    ensures forall k :: k in RollUp(t, f) ==> k.series == s
  {}

  lemma ReadsOneSeries(db: Database, s: Series, start: Instant, end: Instant, source: RollupSource)
    ensures forall k :: k in Read(db, {s}, start, end, source) ==> k.series == s
  {}

  /**
   In every reachable state: the fast path agrees with the raw path if the days it reads are
   right, always on minima and maxima, and on unfiltered counts only if the days it reads are right.
   */
  lemma AnswerIsRightIff(db: Database, p: SingleParams)
    requires Ready(db)
    ensures AllStats(Read(db, {p.uuid}, p.start, p.end, SourceOf(p.utc, p.useRollups, p.precision)))
    ensures AllStats(Slice(db.points, {p.uuid}, p.start, p.end))
    ensures var right := SourceOf(p.utc, p.useRollups, p.precision).Daily? ==> DaysRight(db, {p.uuid}, p.start, p.end);
            && (right || BoundsOnly(p.spec.aggregate) ==> Answer(db, p) == RawAnswer(db, p))
            && (CountsShow(p.spec) ==> (Answer(db, p) == RawAnswer(db, p) <==> right))
  {
    var source := SourceOf(p.utc, p.useRollups, p.precision);
    var f, read, slice := Truncation(p.precision), Read(db, {p.uuid}, p.start, p.end, source), Slice(db.points, {p.uuid}, p.start, p.end);
    ReadIsStats(db, {p.uuid}, p.start, p.end, source);
    if source.NoSource? {
      assert read == slice;
    } else {
      assert source == RollupSourceForPrecision(true, true, p.precision) && !p.precision.Unsupported?;
      ReadIsRightIff(db, {p.uuid}, p.start, p.end, p.precision, source);
      ReadsOneSeries(db, p.uuid, p.start, p.end, source);
      OneSeries(read, p.uuid, f);
      CompareRows(read, slice, p);
    }
  }

  lemma CompareRows(read: Table, slice: Table, p: SingleParams)
    requires AllStats(read) && AllStats(slice) && !p.precision.Unsupported?
    requires AllAtLeast(RollUp(read, Truncation(p.precision)), RollUp(slice, Truncation(p.precision)))
    requires forall k :: k in RollUp(read, Truncation(p.precision)) ==> k.series == p.uuid
    ensures var same := RollUp(read, Truncation(p.precision)) == RollUp(slice, Truncation(p.precision));
            var a, b := Aggregated(read, p.uuid, p.precision, p.spec), Aggregated(slice, p.uuid, p.precision, p.spec);
            (same || BoundsOnly(p.spec.aggregate) ==> a == b) && (CountsShow(p.spec) ==> (a == b <==> same))
  {
    hide RollUp, Truncation, SeriesRows, AtLeast, CountsShow, BoundsOnly;
    var t, u := RollUp(read, Truncation(p.precision)), RollUp(slice, Truncation(p.precision));
    StatsOfRollUp(read, Truncation(p.precision));
    StatsOfRollUp(slice, Truncation(p.precision));
    if BoundsOnly(p.spec.aggregate) { SameBounds(t, u, p.uuid, p.spec); }
    if CountsShow(p.spec) { SameCountsIff(t, u, p.uuid, p.spec); }
  }

  /**
   The aggregate query of one series.  It returns what the raw path would, whether rollups
   are used or not, unless the daily table is read where a day in it is wrong.
   */
  method QuerySingleSourceAggregatedData(db: Database, p: SingleParams) returns (r: QueryResult<seq<TsRow>>)
    requires Ready(db)
    ensures AllStats(Read(db, {p.uuid}, p.start, p.end, SourceOf(p.utc, p.useRollups, p.precision)))
    ensures AllStats(Slice(db.points, {p.uuid}, p.start, p.end))
    ensures r == Answer(db, p)
    ensures var right := SourceOf(p.utc, p.useRollups, p.precision).Daily? ==> DaysRight(db, {p.uuid}, p.start, p.end);
            && (right || BoundsOnly(p.spec.aggregate) ==> r == RawAnswer(db, p))
            && (CountsShow(p.spec) ==> (r == RawAnswer(db, p) <==> right))
  {
    AnswerIsRightIff(db, p);
    ghost var source := SourceOf(p.utc, p.useRollups, p.precision);
    ReadIsStats(db, {p.uuid}, p.start, p.end, source);
    hide RollUp, Truncate, Slice, Folded, Enumerates, Aggregated, ReadTable, Ready, AllStats, DaysRight, BoundsOnly, CountsShow;
    if RollupSourceForPrecision(p.useRollups, p.utc, p.precision) != NoSource {
      var rawRows, rollupRows := LoadAggregateSources(db, {p.uuid}, p.start, p.end, p.precision);
      r := AggregateSingleSourceFromSources(rawRows, rollupRows, Read(db, {p.uuid}, p.start, p.end, source), p);
    } else {
      PointsAreSingle(db);
      var rows := GetTsDataRange(db.points, {p.uuid}, p.start, p.end);
      r := AggregateSingleSourceRows(rows, Slice(db.points, {p.uuid}, p.start, p.end), p);
    }
  }

  lemma PointsAreSingle(db: Database)
    requires Ready(db)
    ensures AllSingle(db.points)
  {}

  // ----- a wrong answer

  /** The number of samples on the first day. */
  const COUNT_OF_DAY: SingleParams := SingleParams(1, 0, DAY - 1, true, Day, PlainSpec(Count), true, true, 0)

  lemma OneInstant(t: Table, k: Key)
    requires t.Keys == {k}
    ensures Ascending(InstantsOf(t, k.series)) == [k.ts]
  {
    var instants := InstantsOf(t, k.series);
    assert instants == {k.ts} by { assert k in t; }
    assert k.ts in Ascending(instants);
    IncreasingUnique(Ascending(instants), [k.ts]);
  }

  lemma OneBucket(k: Key, a: Summary)
    requires a.Stats?
    ensures SeriesRows(map[k := a], k.series, PlainSpec(Count)) == Ok([TsRow(a.count as real, k.ts)])
  {
    var t, ks := map[k := a], [k.ts];
    OneInstant(t, k);
    hide Ascending, InstantsOf;
    assert ks[..|ks| - 1] == [];
    assert RowsAt(t, k.series, [], PlainSpec(Count)) == Ok([]);
    assert BucketRow(BucketAt(t, k), PlainSpec(Count)) == Ok([TsRow(a.count as real, k.ts)]);
    assert [] + [TsRow(a.count as real, k.ts)] == [TsRow(a.count as real, k.ts)];
  }

  lemma AnswerOfOneDay(t: Table, a: Summary)
    requires AllStats(t) && a.Stats? && RollUp(t, Truncation(Day)) == map[DAY_ONE := a]
    ensures Aggregated(t, 1, Day, PlainSpec(Count)) == Ok([TsRow(a.count as real, 0)])
  {
    hide RollUp, SeriesRows;
    StatsOfRollUp(t, Truncation(Day));
    OneBucket(DAY_ONE, a);
  }

  lemma SamplesOfOneDay(daily: Table)
    requires AllAtLeast(daily, RollUp(SAMPLES, Truncation(Day))) && Lookup(daily, DAY_ONE) == Stats(4, 4.0, 1.0, 1.0)
    ensures daily == map[DAY_ONE := Stats(4, 4.0, 1.0, 1.0)]
    ensures RollUp(SAMPLES, Truncation(Day)) == map[DAY_ONE := Stats(3, 3.0, 1.0, 1.0)]
  {
    SummaryOfSamples();
    hide Truncation, AtLeast, Total, Group;
    assert Buckets(SAMPLES, Truncation(Day)) == {DAY_ONE} by {
      hide RollUp;
      FirstHours(0);
      FirstHours(1);
      FirstHours(HOUR);
      assert Key(1, 0) in SAMPLES;
    }
    assert daily.Keys == {DAY_ONE};
  }

  lemma AnswersOfOneDay(db: Database)
    requires Ready(db) && db.points == SAMPLES && Lookup(db.daily, DAY_ONE) == Stats(4, 4.0, 1.0, 1.0)
    ensures AllStats(Read(db, {1}, 0, DAY - 1, Daily)) && Answer(db, COUNT_OF_DAY) == Ok([TsRow(4.0, 0)])
    ensures AllStats(Slice(db.points, {1}, 0, DAY - 1)) && RawAnswer(db, COUNT_OF_DAY) == Ok([TsRow(3.0, 0)])
  {
    hide Truncation, RollUp, Aggregated, Ready, AllStats, Slice, ReadTable, Lookup, AllAtLeast;
    ReadyDays(db);
    SamplesOfOneDay(db.daily);
    DayRead(db);
    FirstHours(0);
    ReadIsStats(db, {1}, 0, DAY - 1, Daily);
    RollUpOne(DAY_ONE, Stats(4, 4.0, 1.0, 1.0), Truncation(Day));
    AnswerOfOneDay(Read(db, {1}, 0, DAY - 1, Daily), Stats(4, 4.0, 1.0, 1.0));
    AnswerOfOneDay(Slice(db.points, {1}, 0, DAY - 1), Stats(3, 3.0, 1.0, 1.0));
  }

  /** After the two statements of BatchCountedTwice a count of the day is four, although there are three samples. */
  lemma WrongCount()
    ensures var db := Run(EMPTY, [FIRST, BATCH]);
            && Ready(db)
            && AllStats(Read(db, {1}, 0, DAY - 1, Daily)) && Answer(db, COUNT_OF_DAY) == Ok([TsRow(4.0, 0)])
            && AllStats(Slice(db.points, {1}, 0, DAY - 1)) && RawAnswer(db, COUNT_OF_DAY) == Ok([TsRow(3.0, 0)])
  {
    assert SingleRows([FIRST, BATCH]);
    hide *;
    ReachableIsReady([FIRST, BATCH]);
    BatchCountedTwice();
    AnswersOfOneDay(Run(EMPTY, [FIRST, BATCH]));
  }

  lemma ReadyDays(db: Database)
    requires Ready(db)
    ensures AllAtLeast(db.daily, RollUp(db.points, Truncation(Day)))
  {}

  lemma DayRead(db: Database)
    requires db.points == SAMPLES && db.daily == map[DAY_ONE := Stats(4, 4.0, 1.0, 1.0)]
    ensures Read(db, {1}, 0, DAY - 1, Daily) == db.daily && Slice(db.points, {1}, 0, DAY - 1) == SAMPLES
  {
    var fringe := Fringe(SAMPLES, {1}, 0, DAY - 1, Day);
    assert fringe == map[] by {
      forall q | q in SAMPLES ensures q !in fringe {
        assert Floor(q.ts, DAY) == 0;
      }
    }
    assert WholeRows(db.daily, {1}, 0, DAY - 1, Day) == db.daily;
  }

  // ----- the unaggregated query

  /** A sample is kept if its converted value passes the filter. */
  predicate Kept(t: Table, k: Key, spec: RowSpec)
    requires k in t && t[k].Stats?
  {
    spec.convert(t[k].sum).Some? && InValidRange(spec.convert(t[k].sum).value, spec.le, spec.ge)
  }

  function KeptKeys(t: Table, spec: RowSpec): set<Key>
    requires AllStats(t)
  {
    set k | k in t && Kept(t, k, spec)
  }

  /** The rows are the kept samples of the series, each once, in some order. */
  ghost predicate ListsSamples(rows: seq<TsRow>, t: Table, s: Series, spec: RowSpec)
    requires AllStats(t)
  {
    && (forall i, j :: 0 <= i < j < |rows| ==> rows[i].ts != rows[j].ts)
    && (forall row :: row in rows <==>
          Key(s, row.ts) in t && Kept(t, Key(s, row.ts), spec) && spec.convert(t[Key(s, row.ts)].sum) == Some(row.v))
  }

  /** The row of one sample, or none when its value is filtered out. */
  function SampleRow(d: DataRow, spec: RowSpec): QueryResult<seq<TsRow>> {
    match spec.convert(d.value)
    case None => Err(InvalidUnitConversion)
    case Some(f) => if InValidRange(f, spec.le, spec.ge) then Ok([TsRow(f, d.ts)]) else Ok([])
  }

  /** In the order of the rows read, which no ORDER BY fixes. */
  method RawSingleSourceRows(rows: seq<DataRow>, spec: RowSpec) returns (r: QueryResult<seq<TsRow>>)
    requires forall i, j :: 0 <= i < j < |rows| ==> rows[i].ts != rows[j].ts
    ensures r.Err? <==> exists i :: 0 <= i < |rows| && spec.convert(rows[i].value).None?
    ensures r.Err? ==> r == Err(InvalidUnitConversion)
    ensures r.Ok? ==> Found(rows, |rows|, r.value, spec)
  {
    NothingFound(rows, spec);
    hide InValidRange, Found;
    var found: seq<TsRow> := [];
    for i := 0 to |rows|
      invariant forall j :: 0 <= j < i ==> spec.convert(rows[j].value).Some?
      invariant Found(rows, i, found, spec)
    {
      ghost var before := found;
      match spec.convert(rows[i].value)
      case None =>
        return Err(InvalidUnitConversion);
      case Some(f) =>
        if InValidRange(f, spec.le, spec.ge) {
          found := found + [TsRow(f, rows[i].ts)];
        }
        OneSampleMore(rows, i, before, found, spec);
    }
    r := Ok(found);
  }

  lemma RowsAreSamples(rows: seq<DataRow>, t: Table, s: Series)
    requires Enumerates(DataEntries(rows), t) && forall k :: k in t ==> k.series == s && t[k] == Single(t[k].sum)
    ensures forall i, j :: 0 <= i < j < |rows| ==> rows[i].ts != rows[j].ts
    ensures forall i :: 0 <= i < |rows| ==> Key(s, rows[i].ts) in t && t[Key(s, rows[i].ts)] == Single(rows[i].value)
    ensures forall k :: k in t ==> exists i :: 0 <= i < |rows| && rows[i].ts == k.ts
  {
    var es := DataEntries(rows);
    assert forall i :: 0 <= i < |rows| ==> es[i] == DataEntry(rows[i]) && es[i].key.series == s;
    forall i, j | 0 <= i < j < |rows| ensures rows[i].ts != rows[j].ts {
      assert es[i].key != es[j].key;
    }
  }

  /** What the loop has found in the first rows. */
  ghost predicate Found(rows: seq<DataRow>, n: nat, found: seq<TsRow>, spec: RowSpec)
    requires n <= |rows|
  {
    && (forall row :: row in found <==> exists j :: 0 <= j < n && SampleRow(rows[j], spec) == Ok([row]))
    && (forall a :: 0 <= a < |found| ==> exists j :: 0 <= j < n && rows[j].ts == found[a].ts)
    && (forall a, b :: 0 <= a < b < |found| ==> found[a].ts != found[b].ts)
  }

  lemma NothingFound(rows: seq<DataRow>, spec: RowSpec)
    ensures Found(rows, 0, [], spec)
  {}

  lemma OneSampleMore(rows: seq<DataRow>, i: nat, before: seq<TsRow>, found: seq<TsRow>, spec: RowSpec)
    requires forall i, j :: 0 <= i < j < |rows| ==> rows[i].ts != rows[j].ts
    requires i < |rows| && spec.convert(rows[i].value).Some? && found == before + SampleRow(rows[i], spec).value
    requires Found(rows, i, before, spec)
    ensures Found(rows, i + 1, found, spec)
  {
    hide InValidRange;
    forall row ensures row in found <==> exists j :: 0 <= j < i + 1 && SampleRow(rows[j], spec) == Ok([row]) {
      if row in SampleRow(rows[i], spec).value {
        assert SampleRow(rows[i], spec) == Ok([row]);
      }
    }
  }

  lemma SamplesListed(rows: seq<DataRow>, t: Table, s: Series, found: seq<TsRow>, spec: RowSpec)
    requires AllStats(t)
    requires forall i :: 0 <= i < |rows| ==> Key(s, rows[i].ts) in t && t[Key(s, rows[i].ts)] == Single(rows[i].value)
    requires forall k :: k in t ==> k.series == s && exists i :: 0 <= i < |rows| && rows[i].ts == k.ts
    requires Found(rows, |rows|, found, spec)
    ensures ListsSamples(found, t, s, spec)
  {
    hide InValidRange;
    forall row
      ensures row in found <==>
        Key(s, row.ts) in t && Kept(t, Key(s, row.ts), spec) && spec.convert(t[Key(s, row.ts)].sum) == Some(row.v)
    {
      if Key(s, row.ts) in t && Kept(t, Key(s, row.ts), spec) && spec.convert(t[Key(s, row.ts)].sum) == Some(row.v) {
        var j :| 0 <= j < |rows| && rows[j].ts == row.ts;
        assert SampleRow(rows[j], spec) == Ok([row]);
      }
    }
  }

  lemma {:induction false} ListedCount(rows: seq<TsRow>, s: Series, ks: set<Key>)
    requires forall i, j :: 0 <= i < j < |rows| ==> rows[i].ts != rows[j].ts
    requires forall k :: k in ks <==> k.series == s && exists i :: 0 <= i < |rows| && rows[i].ts == k.ts
    ensures |ks| == |rows|
    decreases |rows|
  {
    if rows == [] {
      assert ks == {};
    } else {
      var n := |rows| - 1;
      var last := Key(s, rows[n].ts);
      assert last in ks;
      forall k ensures k in ks - {last} <==> k.series == s && exists i :: 0 <= i < n && rows[..n][i].ts == k.ts {
        if k in ks - {last} {
          var i :| 0 <= i < |rows| && rows[i].ts == k.ts;
          assert rows[..n][i].ts == k.ts;
        }
      }
      ListedCount(rows[..n], s, ks - {last});
    }
  }

  lemma SamplesCounted(rows: seq<TsRow>, t: Table, s: Series, spec: RowSpec)
    requires AllStats(t) && (forall k :: k in t ==> k.series == s) && ListsSamples(rows, t, s, spec)
    ensures |rows| == |KeptKeys(t, spec)|
  {
    hide InValidRange;
    forall k ensures k in KeptKeys(t, spec) <==> k.series == s && exists i :: 0 <= i < |rows| && rows[i].ts == k.ts {
      if k in KeptKeys(t, spec) {
        var row := TsRow(spec.convert(t[k].sum).value, k.ts);
        assert k == Key(s, row.ts) && row in rows;
      }
      if k.series == s && exists i :: 0 <= i < |rows| && rows[i].ts == k.ts {
        var i :| 0 <= i < |rows| && rows[i].ts == k.ts;
        assert rows[i] in rows && k == Key(s, rows[i].ts);
      }
    }
    ListedCount(rows, s, KeptKeys(t, spec));
  }

  // ----- the query

  /** An empty result of a series that does not exist, or one beyond the limit, is an error. */
  function Checked(rows: seq<TsRow>, known: set<Series>, p: SingleParams): QueryResult<seq<TsRow>> {
    if rows == [] && p.uuid !in known then Err(TimeseriesNotFound)
    else if p.maxPoints > 0 && |rows| > p.maxPoints then Err(TooManyPoints)
    else Ok(rows)
  }

  /** known are the series there are. */
  method QuerySingleSourceData(db: Database, known: set<Series>, p: SingleParams) returns (r: QueryResult<seq<TsRow>>)
    requires Ready(db)
    ensures AllStats(Read(db, {p.uuid}, p.start, p.end, SourceOf(p.utc, p.useRollups, p.precision)))
    ensures AllStats(Slice(db.points, {p.uuid}, p.start, p.end))
    ensures p.aggregated ==> r == if Answer(db, p).Ok? then Checked(Answer(db, p).value, known, p) else Answer(db, p)
    ensures !p.aggregated ==>
              var t := Slice(db.points, {p.uuid}, p.start, p.end);
              if exists k :: k in t && p.spec.convert(t[k].sum).None? then r == Err(InvalidUnitConversion)
              else if KeptKeys(t, p.spec) == {} && p.uuid !in known then r == Err(TimeseriesNotFound)
              else if p.maxPoints > 0 && |KeptKeys(t, p.spec)| > p.maxPoints then r == Err(TooManyPoints)
              else r.Ok? && ListsSamples(r.value, t, p.uuid, p.spec)
  {
    AnswerIsRightIff(db, p);
    if p.aggregated {
      hide *;
      r := QuerySingleSourceAggregatedData(db, p);
      if r.Ok? {
        r := CheckRows(r.value, known, p);
      }
      return;
    }
    PointsAreSingle(db);
    ghost var t := Slice(db.points, {p.uuid}, p.start, p.end);
    SliceOfOne(db.points, p.uuid, p.start, p.end);
    hide Slice, Answer, Read, ListsSamples, Found, Enumerates, Ready, DaysRight, RawAnswer, BoundsOnly, CountsShow;
    var rows := GetTsDataRange(db.points, {p.uuid}, p.start, p.end);
    RowsAreSamples(rows, t, p.uuid);
    r := RawSingleSourceRows(rows, p.spec);
    if r.Ok? {
      SamplesListed(rows, t, p.uuid, r.value, p.spec);
      SamplesCounted(r.value, t, p.uuid, p.spec);
      assert r.value == [] <==> KeptKeys(t, p.spec) == {};
      r := CheckRows(r.value, known, p);
    }
  }

  method CheckRows(rows: seq<TsRow>, known: set<Series>, p: SingleParams) returns (r: QueryResult<seq<TsRow>>)
    ensures r == Checked(rows, known, p)
  {
    if |rows| == 0 {
      if p.uuid !in known {
        return Err(TimeseriesNotFound);
      }
    }
    if p.maxPoints > 0 && |rows| > p.maxPoints {
      return Err(TooManyPoints);
    }
    r := Ok(rows);
  }

  lemma SliceOfOne(points: Table, s: Series, start: Instant, end: Instant)
    requires AllSingle(points)
    ensures var t := Slice(points, {s}, start, end); forall k :: k in t ==> k.series == s && t[k] == Single(t[k].sum)
  {}
}
