/**
 Bucketed queries over one or many series: the raw path, which reads every sample
 of the range, and the fast path, which reads rollup rows for the whole days or
 hours of the range and samples only for its fringes.
 */
module Aggregation {
  import opened Wrappers
  import opened Calendar
  import opened RangeSplit
  import opened Summaries
  import opened RollupTables
  import opened Overcounts

  type QueryResult<+T> = Result<T, QueryError>

  datatype QueryError = UnsupportedPrecision | UnsupportedAggregate | InvalidUnitConversion | TooManyPoints | TimeseriesNotFound

  datatype Aggregate = Avg | Min | Max | Count | Sum | OtherAggregate(name: string)

  datatype DataRow = DataRow(series: Series, value: real, ts: Instant)

  datatype RollupRow = RollupRow(series: Series, bucketTs: Instant, summary: Summary)

  datatype TsRow = TsRow(v: real, ts: Instant)

  ghost predicate InTimeOrder(rows: seq<TsRow>) {
    forall i, j :: 0 <= i < j < |rows| ==> rows[i].ts < rows[j].ts
  }

  // ----- tables read in an arbitrary order

  datatype Entry = Entry(key: Key, summary: Summary)

  function DataEntry(r: DataRow): Entry { Entry(Key(r.series, r.ts), Single(r.value)) }

  function RollupEntry(r: RollupRow): Entry { Entry(Key(r.series, r.bucketTs), r.summary) }

  function DataEntries(rows: seq<DataRow>): seq<Entry> {
    seq(|rows|, i requires 0 <= i < |rows| => DataEntry(rows[i]))
  }

  function RollupEntries(rows: seq<RollupRow>): seq<Entry> {
    seq(|rows|, i requires 0 <= i < |rows| => RollupEntry(rows[i]))
  }

  /** es lists every entry of t once. */
  ghost predicate Enumerates(es: seq<Entry>, t: Table) {
    && (forall i, j :: 0 <= i < j < |es| ==> es[i].key != es[j].key)
    && (forall i :: 0 <= i < |es| ==> es[i].key in t && t[es[i].key] == es[i].summary)
    && (forall k :: k in t ==> exists i :: 0 <= i < |es| && es[i].key == k)
  }

  function Slice(t: Table, uuids: set<Series>, start: Instant, stop: Instant): Table {
    map q | q in t && q.series in uuids && start <= q.ts <= stop :: t[q]
  }

  method GetTsDataRange(points: Table, uuids: set<Series>, start: Instant, stop: Instant) returns (rows: seq<DataRow>)
    requires AllSingle(points)
    ensures Enumerates(DataEntries(rows), Slice(points, uuids, start, stop))
  {
    var found := Slice(points, uuids, start, stop);
    var todo := found.Keys;
    rows := [];
    while todo != {}
      invariant todo <= found.Keys
      invariant Enumerates(DataEntries(rows), found - todo)
    {
      var k :| k in todo;
      ghost var before := DataEntries(rows);
      EnumerateOneMore(before, found - todo, Entry(k, found[k]));
      rows := rows + [DataRow(k.series, found[k].sum, k.ts)];
      assert DataEntries(rows) == before + [Entry(k, found[k])];
      assert found - (todo - {k}) == (found - todo)[k := found[k]];
      todo := todo - {k};
    }
    assert found - {} == found;
  }

  method GetRollupRange(table: Table, uuids: set<Series>, start: Instant, stop: Instant) returns (rows: seq<RollupRow>)
    ensures Enumerates(RollupEntries(rows), Slice(table, uuids, start, stop))
  {
    var found := Slice(table, uuids, start, stop);
    var todo := found.Keys;
    rows := [];
    while todo != {}
      invariant todo <= found.Keys
      invariant Enumerates(RollupEntries(rows), found - todo)
    {
      var k :| k in todo;
      ghost var before := RollupEntries(rows);
      EnumerateOneMore(before, found - todo, Entry(k, found[k]));
      rows := rows + [RollupRow(k.series, k.ts, found[k])];
      assert RollupEntries(rows) == before + [Entry(k, found[k])];
      assert found - (todo - {k}) == (found - todo)[k := found[k]];
      todo := todo - {k};
    }
    assert found - {} == found;
  }

  lemma EnumerateOneMore(es: seq<Entry>, t: Table, e: Entry)
    requires Enumerates(es, t) && e.key !in t
    ensures Enumerates(es + [e], t[e.key := e.summary])
  {
    var all, bigger := es + [e], t[e.key := e.summary];
    forall k | k in bigger ensures exists i :: 0 <= i < |all| && all[i].key == k {
      if k == e.key {
        assert all[|es|].key == k;
      } else {
        var i :| 0 <= i < |es| && es[i].key == k;
        assert all[i].key == k;
      }
    }
  }

  lemma EnumerateBoth(a: seq<Entry>, s: Table, b: seq<Entry>, t: Table)
    requires Enumerates(a, s) && Enumerates(b, t) && s.Keys !! t.Keys
    ensures Enumerates(a + b, s + t)
  {
    var all := a + b;
    forall i, j | 0 <= i < j < |all| ensures all[i].key != all[j].key {
      if i < |a| <= j {
        assert all[i].key in s && b[j - |a|].key in t;
      }
    }
    forall k | k in s + t ensures exists i :: 0 <= i < |all| && all[i].key == k {
      if k in t {
        var i :| 0 <= i < |b| && b[i].key == k;
        assert all[|a| + i].key == k;
      } else {
        var i :| 0 <= i < |a| && a[i].key == k;
        assert all[i].key == k;
      }
    }
  }

  // ----- accumulating entries into buckets

  ghost function Folded(es: seq<Entry>, f: Instant -> Instant): Table
    decreases |es|
  {
    if es == [] then map[]
    else
      var last := es[|es| - 1];
      MergeTables(Folded(es[..|es| - 1], f), map[BucketOf(last.key, f) := last.summary])
  }

  lemma RollUpOne(k: Key, s: Summary, f: Instant -> Instant)
    ensures RollUp(map[k := s], f) == map[BucketOf(k, f) := s]
  {
    var one := map[k := s];
    var b := BucketOf(k, f);
    assert Group(one, f, b) == one;
    TotalRemove(one, k);
    assert one - {k} == map[];
    assert Buckets(one, f) == {b};
  }

  /** Accumulating the rows of a table one by one, in whatever order they are read, groups the table. */
  lemma {:induction false} FoldedIsRollUp(es: seq<Entry>, t: Table, f: Instant -> Instant)
    requires Enumerates(es, t)
    ensures Folded(es, f) == RollUp(t, f)
    decreases |es|
  {
    hide RollUp, MergeTables;
    if es == [] {
      assert t.Keys == {};
      RollUpEmptyIff(t, f);
    } else {
      var last, init := es[|es| - 1], es[..|es| - 1];
      var rest, one := t - {last.key}, map[last.key := last.summary];
      EnumerateOneLess(es, t);
      FoldedIsRollUp(init, rest, f);
      RollUpOne(last.key, last.summary, f);
      RollUpUnion(rest, one, f);
      SplitOff(t, last.key);
    }
  }

  lemma SplitOff(t: Table, k: Key)
    requires k in t
    ensures t == (t - {k}) + map[k := t[k]]
  {}

  lemma EnumerateOneLess(es: seq<Entry>, t: Table)
    requires Enumerates(es, t) && es != []
    ensures Enumerates(es[..|es| - 1], t - {es[|es| - 1].key})
  {
    var last, init := es[|es| - 1], es[..|es| - 1];
    forall k | k in t - {last.key} ensures exists i :: 0 <= i < |init| && init[i].key == k {
      var i :| 0 <= i < |es| && es[i].key == k;
      assert init[i].key == k;
    }
  }

  // ----- the fast path

  /** The samples of the chosen series that lie in one of the raw ranges. */
  function InRanges(t: Table, uuids: set<Series>, ranges: seq<TimeRange>): Table {
    map q | q in t && q.series in uuids && RawCount(ranges, q.ts) > 0 :: t[q]
  }

  function RollupSlice(table: Table, uuids: set<Series>, rollup: RollupRange): Table {
    if rollup.Rollup? then Slice(table, uuids, rollup.range.start, rollup.range.stop) else map[]
  }

  function Grain(p: Precision): (grain: int)
    requires p.Day? || p.Hour?
    ensures grain > 0
  {
    if p.Day? then DAY else HOUR
  }

  lemma GrainTruncates(p: Precision, t: Instant)
    requires p.Day? || p.Hour?
    ensures Truncate(p, t) == t - t % Grain(p)
  {
    hide DateOf;
    if p.Day? { ThroughDay(Day, t); }
  }

  /** The start of the bucket of t. */
  function Floor(t: Instant, grain: int): Instant
    requires grain > 0
  {
    t - t % grain
  }

  /** The bucket that starts at b lies in the range as a whole. */
  predicate Whole(start: Instant, end: Instant, grain: int, b: Instant) {
    start <= b && b + grain - 1 <= end
  }

  /** The samples of the range that lie in no whole bucket, those that do, and the rollup rows of whole buckets. */
  function Fringe(points: Table, uuids: set<Series>, start: Instant, end: Instant, p: Precision): Table
    requires p.Day? || p.Hour?
  {
    map q | q in points && q.series in uuids && start <= q.ts <= end && !Whole(start, end, Grain(p), Floor(q.ts, Grain(p))) :: points[q]
  }

  function WholeSamples(points: Table, uuids: set<Series>, start: Instant, end: Instant, p: Precision): Table
    requires p.Day? || p.Hour?
  {
    map q | q in points && q.series in uuids && Whole(start, end, Grain(p), Floor(q.ts, Grain(p))) :: points[q]
  }

  function WholeRows(table: Table, uuids: set<Series>, start: Instant, end: Instant, p: Precision): Table
    requires p.Day? || p.Hour?
  {
    map k | k in table && k.series in uuids && Whole(start, end, Grain(p), k.ts) :: table[k]
  }

  /** What a fast query reads. */
  function ReadTable(points: Table, table: Table, uuids: set<Series>, start: Instant, end: Instant, p: Precision): Table
    requires p.Day? || p.Hour?
  {
    Fringe(points, uuids, start, end, p) + WholeRows(table, uuids, start, end, p)
  }

  ghost predicate OnBucketStarts(table: Table, grain: int)
    requires grain > 0
  {
    forall k :: k in table ==> k.ts % grain == 0
  }

  lemma RollUpIsAligned(points: Table, p: Precision)
    requires p.Day? || p.Hour?
    ensures OnBucketStarts(RollUp(points, Truncation(p)), Grain(p))
  {
    hide Truncate;
    forall k | k in RollUp(points, Truncation(p)) ensures k.ts % Grain(p) == 0 {
      var q :| q in points && BucketOf(q, Truncation(p)) == k;
      GrainTruncates(p, q.ts);
      StepIsFloor(q.ts, Grain(p));
    }
  }

  lemma WholeIsRead(start: Instant, end: Instant, grain: int, rollup: RollupRange, raw: seq<TimeRange>, t: Instant)
    requires grain > 0 && Partitions(start, end, grain, rollup, raw) && UsesEveryBucket(start, end, grain, rollup)
    ensures RawCount(raw, t) > 0 <==> start <= t <= end && !Whole(start, end, grain, Floor(t, grain))
    ensures t % grain == 0 ==> (RollupCount(rollup, grain, t) == 1 <==> Whole(start, end, grain, t))
  {
    hide RawCount;
    var b := t - t % grain;
    StepIsFloor(t, grain);
    assert b - b % grain == b;
    assert RawCount(raw, t) + RollupCount(rollup, grain, t) == if start <= t <= end then 1 else 0;
    assert RollupCount(rollup, grain, b) == 1 <==> Whole(start, end, grain, b);
  }

  lemma CountOfStart(rollup: RollupRange, grain: int, t: Instant)
    requires grain > 0 && t % grain == 0
    ensures RollupCount(rollup, grain, t) == 1 <==> rollup.Rollup? && rollup.range.start <= t <= rollup.range.stop
  {}

  /** The raw ranges read the fringe, and the rollup range the rows of the whole buckets. */
  lemma RangesAndBuckets(points: Table, table: Table, uuids: set<Series>, start: Instant, end: Instant, p: Precision,
                         rollup: RollupRange, raw: seq<TimeRange>)
    requires (p.Day? || p.Hour?) && OnBucketStarts(table, Grain(p))
    requires Partitions(start, end, Grain(p), rollup, raw) && UsesEveryBucket(start, end, Grain(p), rollup)
    ensures InRanges(points, uuids, raw) == Fringe(points, uuids, start, end, p)
    ensures RollupSlice(table, uuids, rollup) == WholeRows(table, uuids, start, end, p)
  {
    hide RawCount, RollupCount, Partitions, UsesEveryBucket, Whole, Floor, Grain;
    forall q | q in points {
      WholeIsRead(start, end, Grain(p), rollup, raw, q.ts);
    }
    forall k | k in table ensures k in RollupSlice(table, uuids, rollup) <==> k in WholeRows(table, uuids, start, end, p) {
      WholeIsRead(start, end, Grain(p), rollup, raw, k.ts);
      CountOfStart(rollup, Grain(p), k.ts);
    }
  }

  lemma WholeBucketsOf(points: Table, uuids: set<Series>, start: Instant, end: Instant, p: Precision, q: Key)
    requires (p.Day? || p.Hour?) && q in points
    ensures q in WholeSamples(points, uuids, start, end, p)
       <==> BucketOf(q, Truncation(p)) in WholeRows(RollUp(points, Truncation(p)), uuids, start, end, p)
  {
    hide Truncate, RollUp, Whole, Grain;
    GrainTruncates(p, q.ts);
    assert BucketOf(q, Truncation(p)) == Key(q.series, Floor(q.ts, Grain(p)));
    assert BucketOf(q, Truncation(p)) in RollUp(points, Truncation(p));
  }

  /** The rows of whole buckets in an exact rollup table summarise exactly the samples of those buckets. */
  lemma SliceOfRollUp(points: Table, uuids: set<Series>, start: Instant, end: Instant, p: Precision)
    requires p.Day? || p.Hour?
    ensures WholeRows(RollUp(points, Truncation(p)), uuids, start, end, p)
         == RollUp(WholeSamples(points, uuids, start, end, p), Truncation(p))
  {
    hide Truncation, Total, Whole;
    var f, whole := Truncation(p), WholeSamples(points, uuids, start, end, p);
    var left := WholeRows(RollUp(points, f), uuids, start, end, p);
    forall q | q in points ensures q in whole <==> BucketOf(q, f) in left {
      WholeBucketsOf(points, uuids, start, end, p, q);
    }
    assert left.Keys == Buckets(whole, f);
    forall k | k in left ensures left[k] == RollUp(whole, f)[k] {
      assert Group(points, f, k) == Group(whole, f, k);
    }
  }

  lemma FringeAndWhole(points: Table, uuids: set<Series>, start: Instant, end: Instant, p: Precision)
    requires p.Day? || p.Hour?
    ensures var fringe, whole := Fringe(points, uuids, start, end, p), WholeSamples(points, uuids, start, end, p);
            fringe.Keys !! whole.Keys && fringe + whole == Slice(points, uuids, start, end)
  {
    hide Whole, Floor, Grain;
    forall q | q in points ensures Whole(start, end, Grain(p), Floor(q.ts, Grain(p))) ==> start <= q.ts <= end {
      WholeHolds(start, end, Grain(p), q.ts);
    }
  }

  lemma WholeHolds(start: Instant, end: Instant, grain: int, t: Instant)
    requires grain > 0
    ensures Whole(start, end, grain, Floor(t, grain)) ==> start <= t <= end
  {
    StepIsFloor(t, grain);
  }

  lemma FringeMeetsNoBucket(points: Table, table: Table, uuids: set<Series>, start: Instant, end: Instant, p: Precision)
    requires (p.Day? || p.Hour?) && OnBucketStarts(table, Grain(p))
    ensures Fringe(points, uuids, start, end, p).Keys !! WholeRows(table, uuids, start, end, p).Keys
  {
    hide Whole, Grain;
    forall k | k in WholeRows(table, uuids, start, end, p) ensures k !in Fringe(points, uuids, start, end, p) {
      assert Floor(k.ts, Grain(p)) == k.ts;
    }
  }

  predicate FinerThan(grain: Precision, p: Precision) {
    (grain.Day? && DayOrCoarser(p)) || (grain.Hour? && (p.Hour? || DayOrCoarser(p)))
  }

  lemma ThroughGrain(grain: Precision, p: Precision, t: Instant)
    requires FinerThan(grain, p)
    ensures Truncate(p, Truncate(grain, t)) == Truncate(p, t)
  {
    if grain.Day? { ThroughDay(p, t); } else { ThroughHour(p, t); }
  }

  /** Whatever the rollup table holds, accumulating the raw fringes and then its rows groups what was read. */
  lemma FastPathReads(points: Table, table: Table, uuids: set<Series>, start: Instant, end: Instant, grain: Precision, p: Precision,
                      rawRows: seq<Entry>, rollupRows: seq<Entry>)
    requires FinerThan(grain, p) && OnBucketStarts(table, Grain(grain))
    requires Enumerates(rawRows, Fringe(points, uuids, start, end, grain))
    requires Enumerates(rollupRows, WholeRows(table, uuids, start, end, grain))
    ensures Folded(rawRows + rollupRows, Truncation(p)) == RollUp(ReadTable(points, table, uuids, start, end, grain), Truncation(p))
  {
    hide RollUp, Truncate, Fringe, WholeRows, Enumerates;
    var fringe, rows := Fringe(points, uuids, start, end, grain), WholeRows(table, uuids, start, end, grain);
    FringeMeetsNoBucket(points, table, uuids, start, end, grain);
    EnumerateBoth(rawRows, fringe, rollupRows, rows);
    FoldedIsRollUp(rawRows + rollupRows, fringe + rows, Truncation(p));
  }

  /** Read from an exact rollup table, the buckets are those of all samples in the range. */
  lemma FastPathIsExact(points: Table, uuids: set<Series>, start: Instant, end: Instant, grain: Precision, p: Precision)
    requires FinerThan(grain, p)
    ensures RollUp(ReadTable(points, RollUp(points, Truncation(grain)), uuids, start, end, grain), Truncation(p))
         == RollUp(Slice(points, uuids, start, end), Truncation(p))
  {
    hide RollUp, Truncate, Fringe, WholeSamples, WholeRows, Slice;
    var f, table := Truncation(p), RollUp(points, Truncation(grain));
    var fringe, whole := Fringe(points, uuids, start, end, grain), WholeSamples(points, uuids, start, end, grain);
    var read := WholeRows(table, uuids, start, end, grain);
    SliceOfRollUp(points, uuids, start, end, grain);
    RollUpIsAligned(points, grain);
    FringeMeetsNoBucket(points, table, uuids, start, end, grain);
    RollUpUnion(fringe, read, f);
    forall q | q in whole ensures f(Truncation(grain)(q.ts)) == f(q.ts) {
      ThroughGrain(grain, p, q.ts);
    }
    RollUpCompose(whole, Truncation(grain), f);
    FringeAndWhole(points, uuids, start, end, grain);
    RollUpUnion(fringe, whole, f);
  }

  /** The rollup rows that are read are right. */
  ghost predicate RowsRight(points: Table, table: Table, uuids: set<Series>, start: Instant, end: Instant, grain: Precision)
    requires grain.Day? || grain.Hour?
  {
    forall k :: k in table && k.series in uuids && Whole(start, end, Grain(grain), k.ts)
                ==> table[k] == Lookup(RollUp(points, Truncation(grain)), k)
  }

  /**
   Read from a rollup table that may count samples more than once, the buckets have the
   right bounds and counts that are not too low, and they are right if and only if every row read is.
   */
  lemma FastPathIsRightIff(points: Table, table: Table, uuids: set<Series>, start: Instant, end: Instant, grain: Precision, p: Precision)
    requires FinerThan(grain, p) && AllSingle(points) && AllAtLeast(table, RollUp(points, Truncation(grain)))
    ensures var read, whole := RollUp(ReadTable(points, table, uuids, start, end, grain), Truncation(p)),
                               RollUp(Slice(points, uuids, start, end), Truncation(p));
            AllAtLeast(read, whole) && (read == whole <==> RowsRight(points, table, uuids, start, end, grain))
  {
    FastPathIsExact(points, uuids, start, end, grain, p);
    var exact := RollUp(points, Truncation(grain));
    var fringe := Fringe(points, uuids, start, end, grain);
    var rows, right := WholeRows(table, uuids, start, end, grain), WholeRows(exact, uuids, start, end, grain);
    RollUpIsAligned(points, grain);
    FringeMeetsNoBucket(points, exact, uuids, start, end, grain);
    FringeIsSingle(points, uuids, start, end, grain);
    RowsAtLeast(points, table, uuids, start, end, grain);
    hide *;
    UnionAtLeast(fringe, rows, right);
    RollUpAtLeast(fringe + rows, fringe + right, Truncation(p));
  }

  lemma FringeIsSingle(points: Table, uuids: set<Series>, start: Instant, end: Instant, grain: Precision)
    requires (grain.Day? || grain.Hour?) && AllSingle(points)
    ensures AllSingle(Fringe(points, uuids, start, end, grain))
    ensures forall k :: k in Fringe(points, uuids, start, end, grain) ==> Fringe(points, uuids, start, end, grain)[k].Stats?
  {}

  lemma RowsAtLeast(points: Table, table: Table, uuids: set<Series>, start: Instant, end: Instant, grain: Precision)
    requires (grain.Day? || grain.Hour?) && AllAtLeast(table, RollUp(points, Truncation(grain)))
    ensures var rows, right := WholeRows(table, uuids, start, end, grain),
                               WholeRows(RollUp(points, Truncation(grain)), uuids, start, end, grain);
            && AllAtLeast(rows, right) && rows.Keys == right.Keys
            && (rows == right <==> RowsRight(points, table, uuids, start, end, grain))
  {
    hide RollUp, Truncation, AtLeast, Whole;
    var rows, right := WholeRows(table, uuids, start, end, grain), WholeRows(RollUp(points, Truncation(grain)), uuids, start, end, grain);
    assert rows.Keys == right.Keys;
    if rows == right {
      forall k | k in table && k.series in uuids && Whole(start, end, Grain(grain), k.ts)
        ensures table[k] == RollUp(points, Truncation(grain))[k]
      {
        assert rows[k] == table[k] && right[k] == RollUp(points, Truncation(grain))[k];
      }
    }
  }
}
