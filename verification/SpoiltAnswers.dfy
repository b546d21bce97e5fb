/**
 What queries by days or coarser buckets return where the daily table counts
 samples twice, and for which aggregates that happens to be right.
 */
module SpoiltAnswers {
  import opened Calendar
  import opened Summaries
  import opened Overcounts
  import opened RollupTables
  import opened RepeatedSamples
  import opened Aggregation
  import opened BucketTables
  import opened AggregateQueries
  import opened CountedRows
  import opened SeriesQueries
  import opened MultiQueries

  // ----- the buckets read

  lemma WholeRowsOfMerged(a: Table, b: Table, uuids: set<Series>, start: Instant, end: Instant, p: Precision)
    requires p.Day? || p.Hour?
    ensures WholeRows(MergeTables(a, b), uuids, start, end, p)
         == MergeTables(WholeRows(a, uuids, start, end, p), WholeRows(b, uuids, start, end, p))
  {
    hide Merge, Whole, Grain;
    var left := WholeRows(MergeTables(a, b), uuids, start, end, p);
    var right := MergeTables(WholeRows(a, uuids, start, end, p), WholeRows(b, uuids, start, end, p));
    assert left.Keys == right.Keys;
    forall k | k in left ensures left[k] == right[k] {}
  }

  lemma UnionIsMerge(a: Table, b: Table)
    requires a.Keys !! b.Keys
    ensures a + b == MergeTables(a, b)
  {
    var left, right := a + b, MergeTables(a, b);
    assert left.Keys == right.Keys;
    forall k | k in left ensures left[k] == right[k] {}
  }

  /** The repeated samples in the whole days of the range, by buckets. */
  ghost function Extra(again: Table, uuids: set<Series>, start: Instant, end: Instant, p: Precision): Table {
    RollUp(WholeSamples(again, uuids, start, end, Day), Truncation(p))
  }

  /** Every bucket read holds the samples of the range, and once more the repeated ones in its whole days. */
  lemma BucketsRead(db: Database, again: Table, uuids: set<Series>, start: Instant, end: Instant, p: Precision)
    requires CountedAgain(db, again) && DayOrCoarser(p)
    ensures RollUp(ReadTable(db.points, db.daily, uuids, start, end, Day), Truncation(p))
         == MergeTables(RollUp(Slice(db.points, uuids, start, end), Truncation(p)), Extra(again, uuids, start, end, p))
  {
    var f, right, twice := Truncation(p), RollUp(db.points, Truncation(Day)), RollUp(again, Truncation(Day));
    ReadInTwo(db, again, uuids, start, end);
    hide *;
    var fringe := Fringe(db.points, uuids, start, end, Day);
    var rows, more := WholeRows(right, uuids, start, end, Day), WholeRows(twice, uuids, start, end, Day);
    MergeTablesAssoc(fringe, rows, more);
    RollUpOfMerged(MergeTables(fringe, rows), more, f);
    FastPathIsExact(db.points, uuids, start, end, Day, p);
    RollUpOfRows(again, uuids, start, end, p);
  }

  /** The tables read are fringe and rows merged. */
  lemma ReadInTwo(db: Database, again: Table, uuids: set<Series>, start: Instant, end: Instant)
    requires CountedAgain(db, again)
    ensures var right, twice := RollUp(db.points, Truncation(Day)), RollUp(again, Truncation(Day));
            var fringe := Fringe(db.points, uuids, start, end, Day);
            var rows, more := WholeRows(right, uuids, start, end, Day), WholeRows(twice, uuids, start, end, Day);
            && ReadTable(db.points, right, uuids, start, end, Day) == MergeTables(fringe, rows)
            && ReadTable(db.points, db.daily, uuids, start, end, Day) == MergeTables(fringe, MergeTables(rows, more))
  {
    hide RollUp, MergeTables, Truncation, Fringe, WholeRows;
    var right, twice := RollUp(db.points, Truncation(Day)), RollUp(again, Truncation(Day));
    var fringe := Fringe(db.points, uuids, start, end, Day);
    var rows, more := WholeRows(right, uuids, start, end, Day), WholeRows(twice, uuids, start, end, Day);
    WholeRowsOfMerged(right, twice, uuids, start, end, Day);
    DisjointReads(db.points, again, uuids, start, end);
    UnionIsMerge(fringe, rows);
    UnionIsMerge(fringe, MergeTables(rows, more));
  }

  lemma DisjointReads(points: Table, again: Table, uuids: set<Series>, start: Instant, end: Instant)
    ensures var fringe := Fringe(points, uuids, start, end, Day);
            var rows := WholeRows(RollUp(points, Truncation(Day)), uuids, start, end, Day);
            var more := WholeRows(RollUp(again, Truncation(Day)), uuids, start, end, Day);
            fringe.Keys !! rows.Keys && fringe.Keys !! MergeTables(rows, more).Keys
  {
    hide RollUp, Truncation, Fringe, WholeRows;
    RollUpIsAligned(points, Day);
    RollUpIsAligned(again, Day);
    FringeMeetsNoBucket(points, RollUp(points, Truncation(Day)), uuids, start, end, Day);
    FringeMeetsNoBucket(points, RollUp(again, Truncation(Day)), uuids, start, end, Day);
  }

  lemma RollUpOfRows(again: Table, uuids: set<Series>, start: Instant, end: Instant, p: Precision)
    requires DayOrCoarser(p)
    ensures RollUp(WholeRows(RollUp(again, Truncation(Day)), uuids, start, end, Day), Truncation(p)) == Extra(again, uuids, start, end, p)
  {
    hide RollUp, WholeRows, WholeSamples;
    var whole := WholeSamples(again, uuids, start, end, Day);
    SliceOfRollUp(again, uuids, start, end, Day);
    forall q | q in whole ensures Truncation(p)(Truncation(Day)(q.ts)) == Truncation(p)(q.ts) {
      ThroughGrain(Day, p, q.ts);
    }
    RollUpCompose(whole, Truncation(Day), Truncation(p));
  }

  // ----- one bucket

  /** What is counted twice in a bucket does not change the aggregate: never so for counts. */
  predicate Harmless(aggregate: Aggregate, right: Summary, extra: Summary)
    requires right.Stats? && extra.Stats?
  {
    match aggregate
    case Count => extra.count == 0
    case Sum => extra.sum == 0.0
    case Avg => extra.sum * right.count as real == right.sum * extra.count as real
    case _ => true
  }

  lemma CancelFactor(c: real, x: real, y: real)
    requires c != 0.0 && c * x == c * y
    ensures x == y
  {}

  lemma Quotients(s: real, c: real, x: real, d: real)
    requires c > 0.0 && c + d > 0.0
    ensures (s + x) / (c + d) == s / c <==> x * c == s * d
  {
    var q, r := s / c, (s + x) / (c + d);
    assert c * q == s && (c + d) * r == s + x;
    Distribute(c, d, q);
    assert s * d == c * (d * q);
    if r == q {
      assert x == d * q;
      assert x * c == c * (d * q);
    }
    if x * c == s * d {
      CancelFactor(c, x, d * q);
      assert (c + d) * r == (c + d) * q;
      CancelFactor(c + d, r, q);
    }
  }

  lemma HarmlessIff(t: Table, u: Table, k: Key, extra: Summary, aggregate: Aggregate)
    requires k in t && k in u && u[k].Sound() && extra.Sound() && t[k] == Merge(u[k], extra) && AtLeast(t[k], u[k])
    requires !aggregate.OtherAggregate?
    ensures ValueAt(t, k, aggregate) == ValueAt(u, k, aggregate) <==> Harmless(aggregate, u[k], extra)
  {
    if aggregate.Avg? {
      assert t[k].count as real == u[k].count as real + extra.count as real;
      Quotients(u[k].sum, u[k].count as real, extra.sum, extra.count as real);
    }
  }

  /** In no bucket does what is counted twice change the aggregate. */
  ghost predicate AllHarmless(aggregate: Aggregate, right: Table, extra: Table)
    requires AllStats(right) && AllStats(extra) && extra.Keys <= right.Keys
  {
    forall k :: k in extra ==> Harmless(aggregate, right[k], extra[k])
  }

  lemma AllHarmlessIff(t: Table, right: Table, extra: Table, aggregate: Aggregate)
    requires t == MergeTables(right, extra) && AllSound(right) && AllSound(extra) && AllAtLeast(t, right)
    requires !aggregate.OtherAggregate?
    ensures AllStats(t) && AllStats(right) && AllStats(extra) && extra.Keys <= right.Keys
    ensures AllHarmless(aggregate, right, extra)
       <==> forall k :: k in t ==> ValueAt(t, k, aggregate) == ValueAt(right, k, aggregate)
  {
    hide AtLeast, Harmless;
    SoundIsStats(right);
    SoundIsStats(extra);
    StatsAtLeast(t, right);
    forall k | k in t
      ensures if k in extra then ValueAt(t, k, aggregate) == ValueAt(right, k, aggregate) <==> Harmless(aggregate, right[k], extra[k])
              else ValueAt(t, k, aggregate) == ValueAt(right, k, aggregate)
    {
      if k in extra {
        HarmlessIff(t, right, k, extra[k], aggregate);
      }
    }
  }

  lemma SoundIsStats(t: Table)
    requires AllSound(t)
    ensures AllStats(t)
  {}

  // ----- whole answers

  lemma SidesAreSound(db: Database, again: Table, uuids: set<Series>, start: Instant, end: Instant, p: Precision)
    requires Ready(db) && CountedAgain(db, again)
    ensures AllSound(RollUp(Slice(db.points, uuids, start, end), Truncation(p))) && AllSound(Extra(again, uuids, start, end, p))
  {
    SingleIsSound(db.points);
    SomeAreSound(again, db.points);
    hide RollUp, Truncation, Whole, Grain, Summary.Sound;
    RollUpSound(Slice(db.points, uuids, start, end), Truncation(p));
    RollUpSound(WholeSamples(again, uuids, start, end, Day), Truncation(p));
  }

  /** The buckets of the answer, of the raw answer and of what is counted twice. */
  lemma Sides(db: Database, again: Table, uuids: set<Series>, start: Instant, end: Instant, p: Precision, aggregate: Aggregate)
    requires Ready(db) && CountedAgain(db, again) && RollupSourceForPrecision(true, true, p) == Daily && !aggregate.OtherAggregate?
    ensures var t := RollUp(Read(db, uuids, start, end, Daily), Truncation(p));
            var right, extra := RollUp(Slice(db.points, uuids, start, end), Truncation(p)), Extra(again, uuids, start, end, p);
            && t == MergeTables(right, extra) && t.Keys == right.Keys
            && AllStats(t) && AllStats(right) && AllStats(extra) && extra.Keys <= right.Keys
            && (AllHarmless(aggregate, right, extra)
                <==> forall k :: k in t ==> ValueAt(t, k, aggregate) == ValueAt(right, k, aggregate))
  {
    hide RollUp, Truncation, Ready, CountedAgain, ReadTable, Slice, Extra, MergeTables, AllSound, AllHarmless, ValueAt, AtLeast, DaysRight;
    BucketsRead(db, again, uuids, start, end, p);
    ReadIsRightIff(db, uuids, start, end, p, Daily);
    SidesAreSound(db, again, uuids, start, end, p);
    AllHarmlessIff(RollUp(Read(db, uuids, start, end, Daily), Truncation(p)),
                   RollUp(Slice(db.points, uuids, start, end), Truncation(p)), Extra(again, uuids, start, end, p), aggregate);
  }

  /** What the two theorems below ask for holds in every reachable state, with samples that the run alone determines. */
  lemma ReachableIsSpoiltByAgain(sts: seq<Statement>)
    requires SingleRows(sts)
    ensures Ready(Run(EMPTY, sts)) && CountedAgain(Run(EMPTY, sts), Again(sts))
  {
    hide *;
    ReachableIsReady(sts);
    SingleRowsAreSound(sts);
    ReachableCountsAgain(sts);
  }

  lemma SingleRowsAreSound(sts: seq<Statement>)
    requires SingleRows(sts)
    ensures SoundRows(sts)
  {
    forall i | 0 <= i < |sts| && sts[i].Insert? ensures AllSound(sts[i].rows) {
      SingleIsSound(sts[i].rows);
    }
  }

  /**
   Where the daily table is read, an unfiltered answer is the raw one if and only if what is
   counted twice changes no bucket: a sum if it sums to zero in each, an average if it
   averages in each to what the bucket does, a count if there is nothing counted twice.
   */
  lemma SpoiltAnswerIff(db: Database, again: Table, p: SingleParams)
    requires Ready(db) && CountedAgain(db, again)
    requires SourceOf(p.utc, p.useRollups, p.precision) == Daily && ValuesShow(p.spec)
    ensures AllStats(Read(db, {p.uuid}, p.start, p.end, Daily)) && AllStats(Slice(db.points, {p.uuid}, p.start, p.end))
    ensures var right := RollUp(Slice(db.points, {p.uuid}, p.start, p.end), Truncation(p.precision));
            var extra := Extra(again, {p.uuid}, p.start, p.end, p.precision);
            && AllStats(right) && AllStats(extra) && extra.Keys <= right.Keys
            && (Answer(db, p) == RawAnswer(db, p) <==> AllHarmless(p.spec.aggregate, right, extra))
  {
    var read, slice := Read(db, {p.uuid}, p.start, p.end, Daily), Slice(db.points, {p.uuid}, p.start, p.end);
    var f := Truncation(p.precision);
    Supported(p);
    ReadsOneSeries(db, p.uuid, p.start, p.end, Daily);
    OneSeries(read, p.uuid, f);
    hide *;
    ReadIsStats(db, {p.uuid}, p.start, p.end, Daily);
    Sides(db, again, {p.uuid}, p.start, p.end, p.precision, p.spec.aggregate);
    AnswerRows(db, p);
    SameValuesIff(RollUp(read, f), RollUp(slice, f), p.uuid, p.spec);
  }

  lemma Supported(p: SingleParams)
    requires SourceOf(p.utc, p.useRollups, p.precision) == Daily && ValuesShow(p.spec)
    ensures RollupSourceForPrecision(true, true, p.precision) == Daily && !p.spec.aggregate.OtherAggregate?
  {}

  lemma AnswerRows(db: Database, p: SingleParams)
    requires SourceOf(p.utc, p.useRollups, p.precision) == Daily
    requires AllStats(Read(db, {p.uuid}, p.start, p.end, Daily)) && AllStats(Slice(db.points, {p.uuid}, p.start, p.end))
    ensures var t := RollUp(Read(db, {p.uuid}, p.start, p.end, Daily), Truncation(p.precision));
            var u := RollUp(Slice(db.points, {p.uuid}, p.start, p.end), Truncation(p.precision));
            && AllStats(t) && Answer(db, p) == SeriesRows(t, p.uuid, p.spec)
            && AllStats(u) && RawAnswer(db, p) == SeriesRows(u, p.uuid, p.spec)
  {
    hide RollUp, Truncation, ReadTable, Slice, SeriesRows;
    StatsOfRollUp(Read(db, {p.uuid}, p.start, p.end, Daily), Truncation(p.precision));
    StatsOfRollUp(Slice(db.points, {p.uuid}, p.start, p.end), Truncation(p.precision));
  }

  /** The same for many series, within the limits. */
  lemma SpoiltMultiAnswerIff(db: Database, again: Table, p: MultiParams)
    requires Ready(db) && CountedAgain(db, again)
    requires SourceOf(p.utc, p.useRollups, p.precision) == Daily && ValuesShow(p.Spec())
    ensures AllStats(Read(db, p.uuids, p.start, p.end, Daily)) && AllStats(Slice(db.points, p.uuids, p.start, p.end))
    ensures var right := RollUp(Slice(db.points, p.uuids, p.start, p.end), Truncation(p.precision));
            var extra := Extra(again, p.uuids, p.start, p.end, p.precision);
            && AllStats(right) && AllStats(extra) && extra.Keys <= right.Keys
            && (MultiAnswer(db, p) == RawMultiAnswer(db, p) <==> AllHarmless(p.aggregate, right, extra) || RawMultiAnswer(db, p).Err?)
  {
    var read, slice := Read(db, p.uuids, p.start, p.end, Daily), Slice(db.points, p.uuids, p.start, p.end);
    var f := Truncation(p.precision);
    ReadIsStats(db, p.uuids, p.start, p.end, Daily);
    Sides(db, again, p.uuids, p.start, p.end, p.precision, p.aggregate);
    hide RollUp, Truncation, Ready, CountedAgain, ReadTable, Slice, Extra, MergeTables, AllHarmless, ValueAt, MultiResult, MultiAggregated;
    MultiCases(read, p);
    MultiCases(slice, p);
    SameMultiValuesIff(RollUp(read, f), RollUp(slice, f), p);
  }
}
