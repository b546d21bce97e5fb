/**
 The single- and multi-source aggregate queries over the sample and rollup tables.
 */
module AggregateQueries {
  import opened Wrappers
  import opened Calendar
  import opened RangeSplit
  import opened Summaries
  import opened RollupTables
  import opened Aggregation
  import opened BucketTables
  import opened Overcounts
  import opened DayRollups

  function TruncateTime(ts: Instant, p: Precision): QueryResult<Instant> {
    if p.Unsupported? then Err(UnsupportedPrecision) else Ok(Truncate(p, ts))
  }

  datatype RollupSource = NoSource | Daily | Hourly

  function RollupSourceForPrecision(enabled: bool, utc: bool, p: Precision): (source: RollupSource)
    ensures source == Hourly <==> enabled && utc && p == Hour
    ensures source == Daily <==> enabled && utc && p in {Day, Week, Month, Year, Decade, Century, Millennia}
  {
    if !enabled || !utc then NoSource
    else if DayOrCoarser(p) then Daily
    else if p.Hour? then Hourly
    else NoSource
  }

  /**
   What holds of the tables after any inserts and deletes: the hourly one is exact, and the
   daily one has a row for each day with samples, with the right bounds and no too low count.
   */
  ghost predicate Ready(db: Database) {
    AllSingle(db.points) && db.HourlyExact() && AllAtLeast(db.daily, RollUp(db.points, Truncation(Day)))
  }

  lemma SingleIsSound(t: Table)
    requires AllSingle(t)
    ensures AllSound(t)
  {}

  /** Inserted rows are samples. */
  ghost predicate SingleRows(sts: seq<Statement>) {
    forall i :: 0 <= i < |sts| && sts[i].Insert? ==> AllSingle(sts[i].rows)
  }

  lemma ExecuteKeepsSingle(db: Database, st: Statement)
    requires AllSingle(db.points) && (st.Insert? ==> AllSingle(st.rows))
    ensures AllSingle(Execute(db, st).points)
  {
    hide RollUp, RefreshDays, AddHours, SummarisedAgain, AffectedHours, MergeTables;
  }

  lemma {:induction false} RunKeepsSingle(db: Database, sts: seq<Statement>)
    requires AllSingle(db.points) && SingleRows(sts)
    ensures AllSingle(Run(db, sts).points)
    decreases |sts|
  {
    if sts != [] {
      hide Execute, AllSingle;
      ExecuteKeepsSingle(db, sts[0]);
      assert SingleRows(sts[1..]);
      RunKeepsSingle(Execute(db, sts[0]), sts[1..]);
    }
  }

  /**
   The database after any run of inserts and deletes is ready, and a day is right in it
   exactly if the last statement that updated an hour of it or deleted from it opened no other hour.
   */
  lemma ReachableIsReady(sts: seq<Statement>)
    requires SingleRows(sts)
    ensures Ready(Run(EMPTY, sts))
    ensures forall d :: DayExact(Run(EMPTY, sts), d) <==> EndsRight(EMPTY, sts, d, true)
  {
    forall i | 0 <= i < |sts| && sts[i].Insert? ensures AllSound(sts[i].rows) {
      SingleIsSound(sts[i].rows);
    }
    EmptyIsExact();
    RunKeepsSingle(EMPTY, sts);
    RunKeepsHourly(EMPTY, sts);
    RunDaily(sts);
    hide Run, EndsRight, RollUp;
    forall d ensures DayExact(Run(EMPTY, sts), d) <==> EndsRight(EMPTY, sts, d, true) {
      EmptyDay(d);
      RunDayIff(EMPTY, sts, d);
    }
  }

  lemma EmptyDay(d: Key)
    ensures DayExact(EMPTY, d) && DayAtLeast(EMPTY, d)
  {
    EmptyIsExact();
  }

  method AccumulateData(table: BucketTable, rows: seq<DataRow>, p: Precision, ghost before: seq<Entry>)
    returns (ok: bool)
    requires table.Valid() && table.View() == Folded(before, Truncation(p))
    modifies table
    ensures ok <==> p.Unsupported? ==> rows == []
    ensures ok ==> table.Valid() && table.View() == Folded(before + DataEntries(rows), Truncation(p))
  {
    hide *;
    ghost var f := Truncation(p);
    NoData(before, rows);
    for i := 0 to |rows|
      invariant table.Valid() && table.View() == Folded(before + DataEntries(rows[..i]), f)
      invariant i > 0 ==> !p.Unsupported?
    {
      var row := rows[i];
      DataOneMore(before, rows, i, p);
      match TruncateTime(row.ts, p)
      case Err(_) =>
        return false;
      case Ok(bucketTs) =>
        table.Accumulate(row.series, bucketTs, 1, row.value, row.value, row.value);
    }
    ok := true;
  }

  lemma NoData(before: seq<Entry>, rows: seq<DataRow>)
    ensures before + DataEntries(rows[..0]) == before && rows[..|rows|] == rows
  {}

  lemma DataOneMore(before: seq<Entry>, rows: seq<DataRow>, i: nat, p: Precision)
    requires i < |rows|
    ensures TruncateTime(rows[i].ts, p).Err? <==> p.Unsupported?
    ensures TruncateTime(rows[i].ts, p).Ok? ==>
              Folded(before + DataEntries(rows[..i + 1]), Truncation(p))
                == MergeTables(Folded(before + DataEntries(rows[..i]), Truncation(p)),
                               map[Key(rows[i].series, TruncateTime(rows[i].ts, p).value) := Stats(1, rows[i].value, rows[i].value, rows[i].value)])
  {
    hide Truncate, MergeTables, Folded;
    FoldedOneMore(before + DataEntries(rows[..i]), DataEntry(rows[i]), Truncation(p));
    assert before + DataEntries(rows[..i + 1]) == before + DataEntries(rows[..i]) + [DataEntry(rows[i])];
  }

  method AccumulateRollups(table: BucketTable, rows: seq<RollupRow>, p: Precision, ghost before: seq<Entry>)
    returns (ok: bool)
    requires forall i :: 0 <= i < |rows| ==> rows[i].summary.Stats?
    requires table.Valid() && table.View() == Folded(before, Truncation(p))
    modifies table
    ensures ok <==> p.Unsupported? ==> rows == []
    ensures ok ==> table.Valid() && table.View() == Folded(before + RollupEntries(rows), Truncation(p))
  {
    hide *;
    ghost var f := Truncation(p);
    NoRollups(before, rows);
    for i := 0 to |rows|
      invariant table.Valid() && table.View() == Folded(before + RollupEntries(rows[..i]), f)
      invariant i > 0 ==> !p.Unsupported?
    {
      var row := rows[i];
      RollupOneMore(before, rows, i, p);
      match TruncateTime(row.bucketTs, p)
      case Err(_) =>
        return false;
      case Ok(bucketTs) =>
        var s := row.summary;
        table.Accumulate(row.series, bucketTs, s.count, s.sum, s.min, s.max);
    }
    ok := true;
  }

  lemma NoRollups(before: seq<Entry>, rows: seq<RollupRow>)
    ensures before + RollupEntries(rows[..0]) == before && rows[..|rows|] == rows
  {}

  lemma RollupOneMore(before: seq<Entry>, rows: seq<RollupRow>, i: nat, p: Precision)
    requires i < |rows| && rows[i].summary.Stats?
    ensures TruncateTime(rows[i].bucketTs, p).Err? <==> p.Unsupported?
    ensures TruncateTime(rows[i].bucketTs, p).Ok? ==>
              var s := rows[i].summary;
              Folded(before + RollupEntries(rows[..i + 1]), Truncation(p))
                == MergeTables(Folded(before + RollupEntries(rows[..i]), Truncation(p)),
                               map[Key(rows[i].series, TruncateTime(rows[i].bucketTs, p).value) := Stats(s.count, s.sum, s.min, s.max)])
  {
    hide Truncate, MergeTables, Folded;
    FoldedOneMore(before + RollupEntries(rows[..i]), RollupEntry(rows[i]), Truncation(p));
    assert before + RollupEntries(rows[..i + 1]) == before + RollupEntries(rows[..i]) + [RollupEntry(rows[i])];
  }

  lemma FoldedOneMore(es: seq<Entry>, e: Entry, f: Instant -> Instant)
    ensures Folded(es + [e], f) == MergeTables(Folded(es, f), map[BucketOf(e.key, f) := e.summary])
  {
    assert (es + [e])[..|es|] == es;
  }

  /** All samples of the raw ranges, range by range. */
  method GetRawRanges(points: Table, uuids: set<Series>, ranges: seq<TimeRange>) returns (rows: seq<DataRow>)
    requires AllSingle(points)
    requires forall t :: RawCount(ranges, t) <= 1
    ensures Enumerates(DataEntries(rows), InRanges(points, uuids, ranges))
  {
    assert InRanges(points, uuids, []) == map[] && Enumerates([], map[]);
    hide RawCount, InRanges, Slice, Enumerates;
    rows := [];
    assert ranges[..0] == [] && DataEntries(rows) == [];
    for i := 0 to |ranges|
      invariant Enumerates(DataEntries(rows), InRanges(points, uuids, ranges[..i]))
    {
      var more := GetTsDataRange(points, uuids, ranges[i].start, ranges[i].stop);
      RangeRead(points, uuids, ranges, i, rows, more);
      rows := rows + more;
    }
    assert ranges[..|ranges|] == ranges;
  }

  lemma {:induction false} RawCountSplits(ranges: seq<TimeRange>, i: nat, t: Instant)
    requires i < |ranges|
    ensures RawCount(ranges[..i + 1], t)
         == RawCount(ranges[..i], t) + (if ranges[i].start <= t <= ranges[i].stop then 1 else 0)
    ensures RawCount(ranges[..i + 1], t) <= RawCount(ranges, t)
  {
    if i == 0 {
      assert ranges[..1] == [ranges[0]] && ranges[..0] == [];
      OneRange(ranges[0], t);
    } else {
      RawCountSplits(ranges[1..], i - 1, t);
      assert ranges[..i + 1][1..] == ranges[1..][..i];
      assert ranges[..i][1..] == ranges[1..][..i - 1];
    }
  }

  lemma OneRangeMore(points: Table, uuids: set<Series>, ranges: seq<TimeRange>, i: nat)
    requires i < |ranges| && forall t :: RawCount(ranges, t) <= 1
    ensures var before, more := InRanges(points, uuids, ranges[..i]), Slice(points, uuids, ranges[i].start, ranges[i].stop);
            before.Keys !! more.Keys && InRanges(points, uuids, ranges[..i + 1]) == before + more
  {
    forall q | q in points {
      RawCountSplits(ranges, i, q.ts);
    }
  }

  lemma RangeRead(points: Table, uuids: set<Series>, ranges: seq<TimeRange>, i: nat, rows: seq<DataRow>, more: seq<DataRow>)
    requires i < |ranges| && forall t :: RawCount(ranges, t) <= 1
    requires Enumerates(DataEntries(rows), InRanges(points, uuids, ranges[..i]))
    requires Enumerates(DataEntries(more), Slice(points, uuids, ranges[i].start, ranges[i].stop))
    ensures Enumerates(DataEntries(rows + more), InRanges(points, uuids, ranges[..i + 1]))
  {
    hide RawCount, InRanges, Slice, Enumerates;
    OneRangeMore(points, uuids, ranges, i);
    EnumerateBoth(DataEntries(rows), InRanges(points, uuids, ranges[..i]),
                  DataEntries(more), Slice(points, uuids, ranges[i].start, ranges[i].stop));
    assert DataEntries(rows + more) == DataEntries(rows) + DataEntries(more);
  }

  function RollupTable(db: Database, grain: Precision): Table {
    if grain.Day? then db.daily else db.hourly
  }

  /** The precision of the rollup table that serves a query. */
  function GrainOf(p: Precision): Precision {
    if RollupSourceForPrecision(true, true, p).Daily? then Day else Hour
  }

  lemma ReadyTable(db: Database, grain: Precision)
    requires Ready(db) && (grain.Day? || grain.Hour?)
    ensures AllAtLeast(RollupTable(db, grain), RollUp(db.points, Truncation(grain))) && OnBucketStarts(RollupTable(db, grain), Grain(grain))
    ensures grain.Hour? ==> RollupTable(db, grain) == RollUp(db.points, Truncation(grain))
  {
    hide RollUp;
    RollUpIsAligned(db.points, grain);
  }

  /** Raw fringes and rollup rows which together accumulate to the buckets of what the query reads. */
  method LoadAggregateSources(db: Database, uuids: set<Series>, start: Instant, end: Instant, p: Precision)
    returns (rawRows: seq<DataRow>, rollupRows: seq<RollupRow>)
    requires Ready(db) && RollupSourceForPrecision(true, true, p) != NoSource
    ensures forall i :: 0 <= i < |rollupRows| ==> rollupRows[i].summary.Stats?
    ensures Folded(DataEntries(rawRows) + RollupEntries(rollupRows), Truncation(p))
         == RollUp(ReadTable(db.points, RollupTable(db, GrainOf(p)), uuids, start, end, GrainOf(p)), Truncation(p))
  {
    ReadyTable(db, GrainOf(p));
    hide RollUp, Truncate, RawCount, RollupCount, Folded, InRanges, Slice, Enumerates, Partitions, UsesEveryBucket;
    hide Fringe, WholeRows, OnBucketStarts, AllAtLeast, RollupSlice;
    var rollup, raw;
    ghost var grain := GrainOf(p);
    var table;
    match RollupSourceForPrecision(true, true, p) {
      case Daily =>
        rollup, raw := SplitDailyRollupRanges(start, end);
        table := db.daily;
      case Hourly =>
        rollup, raw := SplitHourlyRollupRanges(start, end);
        table := db.hourly;
    }
    assert Partitions(start, end, Grain(grain), rollup, raw) && table == RollupTable(db, grain);
    RawAtMostOnce(start, end, Grain(grain), rollup, raw);
    rawRows := GetRawRanges(db.points, uuids, raw);
    rollupRows := ReadRollups(table, uuids, rollup);
    RangesAndBuckets(db.points, table, uuids, start, end, grain, rollup, raw);
    RollupRowsAreStats(db.points, table, uuids, grain, rollup, rollupRows);
    FastPathReads(db.points, table, uuids, start, end, grain, p, DataEntries(rawRows), RollupEntries(rollupRows));
  }

  method ReadRollups(table: Table, uuids: set<Series>, rollup: RollupRange) returns (rows: seq<RollupRow>)
    ensures Enumerates(RollupEntries(rows), RollupSlice(table, uuids, rollup))
  {
    rows := [];
    NothingRead();
    hide Enumerates, Slice;
    if rollup.Rollup? {
      rows := GetRollupRange(table, uuids, rollup.range.start, rollup.range.stop);
    }
  }

  lemma NothingRead()
    ensures Enumerates(RollupEntries([]), map[])
  {}

  lemma RollupRowsAreStats(points: Table, table: Table, uuids: set<Series>, grain: Precision, rollup: RollupRange, rows: seq<RollupRow>)
    requires AllSingle(points) && AllAtLeast(table, RollUp(points, Truncation(grain)))
    requires Enumerates(RollupEntries(rows), RollupSlice(table, uuids, rollup))
    ensures forall i :: 0 <= i < |rows| ==> rows[i].summary.Stats?
  {
    hide RollUp, Truncation;
    SingleIsSound(points);
    RollUpSound(points, Truncation(grain));
    var es := RollupEntries(rows);
    StatsAtLeast(table, RollUp(points, Truncation(grain)));
    EnumeratedStats(es, RollupSlice(table, uuids, rollup));
    assert forall i :: 0 <= i < |rows| ==> rows[i].summary == es[i].summary;
  }

  lemma StatsAtLeast(t: Table, u: Table)
    requires AllAtLeast(t, u) && AllSound(u)
    ensures AllStats(t)
  {
    forall k | k in t ensures t[k].Stats? {
      assert AtLeast(t[k], u[k]) && u[k].Sound();
    }
  }

  lemma RawAtMostOnce(start: Instant, end: Instant, grain: int, rollup: RollupRange, raw: seq<TimeRange>)
    requires grain > 0 && Partitions(start, end, grain, rollup, raw)
    ensures forall t :: RawCount(raw, t) <= 1
  {
    hide RawCount;
    forall t ensures RawCount(raw, t) <= 1 {
      assert RawCount(raw, t) + RollupCount(rollup, grain, t) <= 1;
    }
  }

  lemma EnumeratedStats(es: seq<Entry>, t: Table)
    requires Enumerates(es, t) && AllStats(t)
    ensures forall i :: 0 <= i < |es| ==> es[i].summary.Stats?
  {}
}
