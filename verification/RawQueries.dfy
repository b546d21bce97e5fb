/**
 The unaggregated query over many series.  With a limit enabled, the database ranks the
 rows per series and in total and returns no more than one row past either limit.
 */
module RawQueries {
  import opened Wrappers
  import opened Summaries
  import opened Aggregation
  import opened Order
  import opened BucketTables
  import opened MultiQueries

  // ----- value filters

  predicate SqlRange(v: real, le: Option<real>, ge: Option<real>) {
    (ge.None? || v >= ge.value) && (le.None? || v <= le.value)
  }

  /** The filter of the ranked query and the filter of the loop agree on all values unless both bounds are set and cross. */
  lemma FiltersAgreeIff(le: Option<real>, ge: Option<real>)
    ensures (forall v :: SqlRange(v, le, ge) == InValidRange(v, le, ge)) <==> !(le.Some? && ge.Some? && le.value < ge.value)
  {
    if le.Some? && ge.Some? && le.value < ge.value {
      assert SqlRange(ge.value, le, ge) != InValidRange(ge.value, le, ge);
    }
  }

  // ----- rows in query order

  predicate Before(a: DataRow, b: DataRow) {
    a.series < b.series || (a.series == b.series && a.ts < b.ts)
  }

  /** ORDER BY ts_uuid ASC, ts ASC */
  ghost predicate InQueryOrder(rows: seq<DataRow>) {
    forall i, j :: 0 <= i < j < |rows| ==> Before(rows[i], rows[j])
  }

  function CountSeries(rows: seq<DataRow>, s: Series): nat {
    if rows == [] then 0
    else CountSeries(rows[..|rows| - 1], s) + if rows[|rows| - 1].series == s then 1 else 0
  }

  datatype RankedRow = RankedRow(row: DataRow, seriesRowNum: int, totalRowNum: int)

  function Ranked(full: seq<DataRow>, i: nat): RankedRow
    requires i < |full|
  {
    RankedRow(full[i], CountSeries(full[..i + 1], full[i].series), i + 1)
  }

  /** One row past each enabled limit is let through. */
  predicate Fetched(r: RankedRow, maxPerSeries: int, maxTotal: int) {
    (maxPerSeries <= 0 || r.seriesRowNum <= maxPerSeries + 1) && (maxTotal <= 0 || r.totalRowNum <= maxTotal + 1)
  }

  /** The rows fetched among the first n. */
  function Limited(full: seq<DataRow>, n: nat, maxPerSeries: int, maxTotal: int): seq<RankedRow>
    requires n <= |full|
  {
    if n == 0 then []
    else
      var r := Ranked(full, n - 1);
      Limited(full, n - 1, maxPerSeries, maxTotal) + if Fetched(r, maxPerSeries, maxTotal) then [r] else []
  }

  lemma {:induction false} DistinctRows(rows: seq<DataRow>)
    requires InQueryOrder(rows)
    ensures |set r | r in rows| == |rows|
    decreases |rows|
  {
    if rows != [] {
      var init, last := rows[..|rows| - 1], rows[|rows| - 1];
      DistinctRows(init);
      LastRowIsNew(rows);
      assert (set r | r in rows) == (set r | r in init) + {last};
    }
  }

  lemma LastRowIsNew(rows: seq<DataRow>)
    requires InQueryOrder(rows) && rows != []
    ensures rows[|rows| - 1] !in rows[..|rows| - 1]
    ensures forall r :: r in rows <==> r in rows[..|rows| - 1] || r == rows[|rows| - 1]
  {
    var init, last := rows[..|rows| - 1], rows[|rows| - 1];
    assert rows == init + [last];
    forall r | r in init ensures r != last {
      var j :| 0 <= j < |init| && init[j] == r;
      assert Before(rows[j], last);
    }
  }

  /** The position of a row in query order is ROW_NUMBER over all rows. */
  lemma TotalRowNumMeaning(full: seq<DataRow>, i: nat)
    requires InQueryOrder(full) && i < |full|
    ensures Ranked(full, i).totalRowNum == |set r | r in full && (r == full[i] || Before(r, full[i]))|
  {
    var prefix := full[..i + 1];
    var notAfter := set r | r in full && (r == full[i] || Before(r, full[i]));
    forall r ensures r in prefix <==> r in notAfter {
      if r in full {
        var j :| 0 <= j < |full| && full[j] == r;
        if i < j {
          assert Before(full[i], r);
        } else {
          assert prefix[j] == r;
          assert j < i ==> Before(r, full[i]);
        }
      }
    }
    assert notAfter == set r | r in prefix;
    DistinctRows(prefix);
  }

  /** CountSeries counts the rows of a series: the size of their set of positions. */
  function Positions(rows: seq<DataRow>, s: Series): set<int> {
    set j | 0 <= j < |rows| && rows[j].series == s
  }

  lemma PositionsOfMore(rows: seq<DataRow>, s: Series)
    requires rows != []
    ensures var n := |rows| - 1;
            && n !in Positions(rows[..n], s)
            && Positions(rows, s) == Positions(rows[..n], s) + if rows[n].series == s then {n} else {}
  {}

  lemma {:induction false} CountSeriesMeaning(rows: seq<DataRow>, s: Series)
    ensures CountSeries(rows, s) == |Positions(rows, s)|
    decreases |rows|
  {
    if rows != [] {
      hide Positions;
      CountSeriesMeaning(rows[..|rows| - 1], s);
      PositionsOfMore(rows, s);
    }
  }

  /** The series rank is ROW_NUMBER within the series ordered by time. */
  lemma SeriesRowNumMeaning(full: seq<DataRow>, i: nat)
    requires InQueryOrder(full) && i < |full|
    ensures Ranked(full, i).seriesRowNum
         == |set j | 0 <= j < |full| && full[j].series == full[i].series && full[j].ts <= full[i].ts|
  {
    CountSeriesMeaning(full[..i + 1], full[i].series);
    var prefix := full[..i + 1];
    var upTo := set j | 0 <= j < |prefix| && prefix[j].series == full[i].series;
    var notLater := set j | 0 <= j < |full| && full[j].series == full[i].series && full[j].ts <= full[i].ts;
    forall j | 0 <= j < |full| ensures j in upTo <==> j in notLater {
      if j < i { assert Before(full[j], full[i]); }
      if i < j { assert Before(full[i], full[j]); }
    }
    assert upTo == notLater;
  }

  // ----- the appending loops

  datatype Appended = Mapped(mapping: SeriesMap) | SeriesLimitExceeded | TotalLimitExceeded

  function AppendRow(m: SeriesMap, row: DataRow): SeriesMap {
    m[row.series := (if row.series in m then m[row.series] else []) + [TsRow(row.value, row.ts)]]
  }

  function BySeries(rows: seq<DataRow>): SeriesMap {
    if rows == [] then map[] else AppendRow(BySeries(rows[..|rows| - 1]), rows[|rows| - 1])
  }

  /** What limit the nth row exceeds when it is the last of seriesPoints rows of its series. */
  function Validate(m: SeriesMap, seriesPoints: int, totalPoints: int, p: MultiParams): Appended {
    if p.maxPointsPerSeries > 0 && seriesPoints > p.maxPointsPerSeries then SeriesLimitExceeded
    else if p.maxTotalPoints > 0 && totalPoints > p.maxTotalPoints then TotalLimitExceeded
    else Mapped(m)
  }

  /** The reference: read every row, in query order, and stop at the first that exceeds a limit. */
  function Streamed(full: seq<DataRow>, p: MultiParams): Appended {
    if full == [] then Mapped(map[])
    else
      var last := full[|full| - 1];
      match Streamed(full[..|full| - 1], p)
      case Mapped(m) =>
        var next := AppendRow(m, last);
        Validate(next, |next[last.series]|, |full|, p)
      case limit => limit
  }

  lemma {:induction false} GroupedCounts(rows: seq<DataRow>)
    ensures forall s :: s in BySeries(rows) <==> CountSeries(rows, s) > 0
    ensures forall s :: s in BySeries(rows) ==> |BySeries(rows)[s]| == CountSeries(rows, s)
    decreases |rows|
  {
    if rows != [] {
      GroupedCounts(rows[..|rows| - 1]);
    }
  }

  lemma {:induction false} GroupedTotal(rows: seq<DataRow>)
    ensures TotalRows(BySeries(rows)) == |rows|
    decreases |rows|
  {
    if rows != [] {
      var init, last := rows[..|rows| - 1], rows[|rows| - 1];
      GroupedTotal(init);
      AppendRowTotal(BySeries(init), last);
    }
  }

  lemma AppendRowTotal(m: SeriesMap, row: DataRow)
    ensures TotalRows(AppendRow(m, row)) == TotalRows(m) + 1
  {
    hide TotalRows;
    var next := AppendRow(m, row);
    TotalRowsRemove(next, row.series);
    assert next - {row.series} == m - {row.series};
    if row.series in m {
      TotalRowsRemove(m, row.series);
    } else {
      assert m - {row.series} == m;
    }
  }

  lemma {:induction false} StreamedIsGrouped(full: seq<DataRow>, p: MultiParams)
    requires Streamed(full, p).Mapped?
    ensures Streamed(full, p).mapping == BySeries(full)
    decreases |full|
  {
    if full != [] {
      StreamedIsGrouped(full[..|full| - 1], p);
    }
  }

  /** The rows pass the limits as they stand. */
  ghost predicate CountsWithin(rows: seq<DataRow>, p: MultiParams) {
    (p.maxPointsPerSeries > 0 ==> forall s :: CountSeries(rows, s) <= p.maxPointsPerSeries)
    && (p.maxTotalPoints > 0 ==> |rows| <= p.maxTotalPoints)
  }

  lemma {:induction false} StreamedVerdict(full: seq<DataRow>, p: MultiParams)
    ensures Streamed(full, p).Mapped? <==> CountsWithin(full, p)
    decreases |full|
  {
    if full != [] {
      var init, last := full[..|full| - 1], full[|full| - 1];
      StreamedVerdict(init, p);
      assert forall s :: CountSeries(init, s) <= CountSeries(full, s);
      if CountsWithin(init, p) {
        StreamedIsGrouped(init, p);
        GroupedCounts(init);
        GroupedCounts(full);
        assert BySeries(full) == AppendRow(BySeries(init), last);
        assert |BySeries(full)[last.series]| == CountSeries(full, last.series);
        assert forall s :: s != last.series ==> CountSeries(full, s) == CountSeries(init, s);
      }
    }
  }

  /** A limit that is told is exceeded. */
  lemma {:induction false} StreamedTells(full: seq<DataRow>, p: MultiParams)
    ensures Streamed(full, p).SeriesLimitExceeded? ==> !CountsWithin(full, p.(maxTotalPoints := 0))
    ensures Streamed(full, p).TotalLimitExceeded? ==> !CountsWithin(full, p.(maxPointsPerSeries := 0))
    decreases |full|
  {
    if full != [] {
      var init, last := full[..|full| - 1], full[|full| - 1];
      StreamedTells(init, p);
      assert forall s :: CountSeries(init, s) <= CountSeries(full, s);
      if Streamed(init, p).Mapped? {
        StreamedIsGrouped(init, p);
        GroupedCounts(full);
        assert BySeries(full) == AppendRow(BySeries(init), last);
        assert |BySeries(full)[last.series]| == CountSeries(full, last.series);
      }
    }
  }

  lemma CountsWithinIff(full: seq<DataRow>, p: MultiParams)
    ensures CountsWithin(full, p) <==> WithinLimits(BySeries(full), p.maxPointsPerSeries, p.maxTotalPoints)
  {
    GroupedCounts(full);
    GroupedTotal(full);
  }

  // ----- the ranked query and its loop

  /** The first n rows exceed no limit. */
  ghost predicate NoneExceeds(full: seq<DataRow>, n: nat, p: MultiParams)
    requires n <= |full|
  {
    CountsWithin(full[..n], p)
  }

  ghost function RankedUpTo(full: seq<DataRow>, n: nat): seq<RankedRow>
    requires n <= |full|
  {
    seq(n, i requires 0 <= i < n => Ranked(full, i))
  }

  lemma {:induction false} CountSeriesMonotone(rows: seq<DataRow>, n: nat, s: Series)
    requires n <= |rows|
    ensures CountSeries(rows[..n], s) <= CountSeries(rows, s)
    decreases |rows|
  {
    if n == |rows| {
      assert rows[..n] == rows;
    } else {
      CountSeriesMonotone(rows[..|rows| - 1], n, s);
      assert rows[..|rows| - 1][..n] == rows[..n];
    }
  }

  /** As long as no limit is exceeded nothing is filtered out, and neither is the next row. */
  lemma NextIsFetched(full: seq<DataRow>, n: nat, p: MultiParams)
    requires n < |full| && NoneExceeds(full, n, p)
    ensures Fetched(Ranked(full, n), p.maxPointsPerSeries, p.maxTotalPoints)
  {
    var prefix, s := full[..n + 1], full[n].series;
    assert prefix[..n] == full[..n];
    assert CountSeries(prefix, s) == CountSeries(full[..n], s) + 1;
  }

  lemma {:induction false} AllFetched(full: seq<DataRow>, n: nat, p: MultiParams)
    requires n <= |full| && NoneExceeds(full, n, p)
    ensures Limited(full, n, p.maxPointsPerSeries, p.maxTotalPoints) == RankedUpTo(full, n)
  {
    if n > 0 {
      FewerExceedNone(full, n - 1, n, p);
      AllFetched(full, n - 1, p);
      NextIsFetched(full, n - 1, p);
    }
  }

  lemma FewerExceedNone(full: seq<DataRow>, m: nat, n: nat, p: MultiParams)
    requires m <= n <= |full| && NoneExceeds(full, n, p)
    ensures NoneExceeds(full, m, p)
  {
    forall s ensures CountSeries(full[..m], s) <= CountSeries(full[..n], s) {
      CountSeriesMonotone(full[..n], m, s);
      assert full[..n][..m] == full[..m];
    }
  }

  lemma {:induction false} LimitedPrefix(full: seq<DataRow>, m: nat, n: nat, maxPerSeries: int, maxTotal: int)
    requires m <= n <= |full|
    ensures Limited(full, m, maxPerSeries, maxTotal) <= Limited(full, n, maxPerSeries, maxTotal)
  {
    if m < n {
      LimitedPrefix(full, m, n - 1, maxPerSeries, maxTotal);
    }
  }

  /** The row that follows n unexceptional rows of the fetched sequence is the row that follows them in the data. */
  lemma FetchedRow(full: seq<DataRow>, n: nat, p: MultiParams)
    requires n <= |full| && NoneExceeds(full, n, p)
    ensures var rows := Limited(full, |full|, p.maxPointsPerSeries, p.maxTotalPoints);
            if n == |full| then |rows| == n else n < |rows| && rows[n] == Ranked(full, n)
  {
    var rows := Limited(full, |full|, p.maxPointsPerSeries, p.maxTotalPoints);
    AllFetched(full, n, p);
    if n < |full| {
      NextIsFetched(full, n, p);
      LimitedPrefix(full, n + 1, |full|, p.maxPointsPerSeries, p.maxTotalPoints);
      assert Limited(full, n + 1, p.maxPointsPerSeries, p.maxTotalPoints) == RankedUpTo(full, n) + [Ranked(full, n)];
    }
  }

  lemma StreamedNext(full: seq<DataRow>, n: nat, p: MultiParams)
    requires n < |full| && NoneExceeds(full, n, p)
    ensures Streamed(full[..n], p) == Mapped(BySeries(full[..n]))
    ensures var next := BySeries(full[..n + 1]);
            next == AppendRow(BySeries(full[..n]), full[n])
            && |next[full[n].series]| == Ranked(full, n).seriesRowNum
            && Streamed(full[..n + 1], p) == Validate(next, Ranked(full, n).seriesRowNum, n + 1, p)
  {
    var prefix := full[..n + 1];
    StreamedVerdict(full[..n], p);
    StreamedIsGrouped(full[..n], p);
    assert prefix[..n] == full[..n];
    GroupedCounts(prefix);
  }

  lemma {:induction false} StreamedStops(full: seq<DataRow>, n: nat, p: MultiParams)
    requires n <= |full| && !Streamed(full[..n], p).Mapped?
    ensures Streamed(full, p) == Streamed(full[..n], p)
    decreases |full|
  {
    if n < |full| {
      assert full[..|full| - 1][..n] == full[..n];
      StreamedStops(full[..|full| - 1], n, p);
    } else {
      assert full[..n] == full;
    }
  }

  /** Which limit is told: at the first row that exceeds one, that of a series comes before that of all. */
  lemma FirstExceeded(full: seq<DataRow>, n: nat, p: MultiParams)
    requires 0 < n <= |full| && CountsWithin(full[..n - 1], p) && !CountsWithin(full[..n], p)
    ensures Streamed(full, p)
         == if p.maxPointsPerSeries > 0 && exists s :: CountSeries(full[..n], s) > p.maxPointsPerSeries
            then SeriesLimitExceeded else TotalLimitExceeded
  {
    LastRank(full, n);
    hide Streamed, CountSeries, BySeries, AppendRow, CountsWithin, Ranked;
    StreamedNext(full, n - 1, p);
    StreamedVerdict(full[..n], p);
    StreamedStops(full, n, p);
    LastSeriesTells(full[..n], p);
  }

  lemma LastRank(full: seq<DataRow>, n: nat)
    requires 0 < n <= |full|
    ensures full[..n] != [] && full[..n][|full[..n]| - 1] == full[n - 1] && full[..n][..|full[..n]| - 1] == full[..n - 1]
    ensures Ranked(full, n - 1).seriesRowNum == CountSeries(full[..n], full[n - 1].series) && full[..n - 1 + 1] == full[..n]
  {}

  /** When all rows but the last are within the limit of a series, only the series of the last can exceed it. */
  lemma LastSeriesTells(rows: seq<DataRow>, p: MultiParams)
    requires rows != [] && CountsWithin(rows[..|rows| - 1], p)
    ensures var last := rows[|rows| - 1].series;
            p.maxPointsPerSeries > 0 ==>
              ((exists s :: CountSeries(rows, s) > p.maxPointsPerSeries) <==> CountSeries(rows, last) > p.maxPointsPerSeries)
  {
    forall s | s != rows[|rows| - 1].series ensures CountSeries(rows, s) == CountSeries(rows[..|rows| - 1], s) {}
  }

  /**
   The loop over the fetched rows does what reading every row would have done: the same
   limit error at the same row, or the complete mapping.
   */
  method AppendRawMultiSourceLimitedRows(rows: seq<RankedRow>, ghost full: seq<DataRow>, p: MultiParams) returns (r: Appended)
    requires rows == Limited(full, |full|, p.maxPointsPerSeries, p.maxTotalPoints)
    ensures r == Streamed(full, p)
    ensures r.Mapped? <==> CountsWithin(full, p)
    ensures r.Mapped? ==> r.mapping == BySeries(full)
  {
    StreamedVerdict(full, p);
    var mapping: SeriesMap := map[];
    var totalPoints := 0;
    assert full[..0] == [];
    for i := 0 to |rows|
      invariant i <= |full| && NoneExceeds(full, i, p)
      invariant mapping == BySeries(full[..i]) && totalPoints == i
    {
      hide Streamed, Limited, CountsWithin, BySeries, AppendRow, CountSeries;
      FetchedRow(full, i, p);
      StreamedNext(full, i, p);
      StreamedVerdict(full[..i + 1], p);
      if !Streamed(full[..i + 1], p).Mapped? {
        StreamedStops(full, i + 1, p);
      }
      var item := rows[i];
      if p.maxPointsPerSeries > 0 && item.seriesRowNum > p.maxPointsPerSeries {
        return SeriesLimitExceeded;
      }
      if p.maxTotalPoints > 0 && item.totalRowNum > p.maxTotalPoints {
        return TotalLimitExceeded;
      }
      mapping := AppendRow(mapping, item.row);
      totalPoints := totalPoints + 1;
      var verdict := Validate(mapping, |mapping[item.row.series]|, totalPoints, p);
      if !verdict.Mapped? {
        return verdict;
      }
    }
    FetchedRow(full, |rows|, p);
    assert full[..|full|] == full;
    StreamedIsGrouped(full, p);
    r := Mapped(mapping);
  }

  // ----- the data behind the rows

  predicate InTable(row: DataRow, t: Table) {
    Key(row.series, row.ts) in t && t[Key(row.series, row.ts)] == Single(row.value)
  }

  /** The rows of the table, sorted. */
  ghost predicate ListsInOrder(full: seq<DataRow>, t: Table) {
    InQueryOrder(full) && forall row :: row in full <==> InTable(row, t)
  }

  /** The mapping holds, for every series with data, exactly its rows by increasing time. */
  ghost predicate IsRawMap(m: SeriesMap, t: Table) {
    && m.Keys == SeriesIn(t)
    && (forall s :: s in m ==> InTimeOrder(m[s]))
    && (forall s, row :: s in m ==> (row in m[s] <==> InTable(DataRow(s, row.v, row.ts), t)))
  }

  lemma {:induction false} TimeOrderUnique(a: seq<TsRow>, b: seq<TsRow>)
    requires InTimeOrder(a) && InTimeOrder(b) && forall row :: row in a <==> row in b
    ensures a == b
    decreases |a|
  {
    assert a != [] ==> a[0] in a && a[0] in b;
    assert b != [] ==> b[0] in b && b[0] in a;
    if a != [] {
      FirstInTime(a, b[0]);
      FirstInTime(b, a[0]);
      forall row ensures row in a[1..] <==> row in b[1..] {
        RestInTime(a, row);
        RestInTime(b, row);
      }
      TimeOrderUnique(a[1..], b[1..]);
      assert a == [a[0]] + a[1..] && b == [b[0]] + b[1..];
    }
  }

  lemma FirstInTime(rows: seq<TsRow>, row: TsRow)
    requires InTimeOrder(rows) && row in rows
    ensures row == rows[0] || rows[0].ts < row.ts
  {}

  lemma RestInTime(rows: seq<TsRow>, row: TsRow)
    requires InTimeOrder(rows) && rows != []
    ensures InTimeOrder(rows[1..])
    ensures row in rows[1..] <==> row in rows && row != rows[0]
  {
    assert rows == [rows[0]] + rows[1..];
  }

  /** There is one such mapping, so the order in which the database returns rows cannot show. */
  lemma RawMapUnique(a: SeriesMap, b: SeriesMap, t: Table)
    requires IsRawMap(a, t) && IsRawMap(b, t)
    ensures a == b
  {
    forall s | s in a ensures a[s] == b[s] {
      forall row ensures row in a[s] <==> row in b[s] {
        assert row in a[s] <==> InTable(DataRow(s, row.v, row.ts), t);
      }
      TimeOrderUnique(a[s], b[s]);
    }
  }

  lemma {:induction false} GroupedMembers(rows: seq<DataRow>)
    ensures forall s, v, ts :: (s in BySeries(rows) && TsRow(v, ts) in BySeries(rows)[s]) <==> DataRow(s, v, ts) in rows
    decreases |rows|
  {
    if rows != [] {
      var init, last := rows[..|rows| - 1], rows[|rows| - 1];
      GroupedMembers(init);
      assert rows == init + [last];
    }
  }

  lemma {:induction false} GroupedInOrder(rows: seq<DataRow>)
    requires InQueryOrder(rows)
    ensures forall s :: s in BySeries(rows) ==> InTimeOrder(BySeries(rows)[s]) && BySeries(rows)[s] != []
    decreases |rows|
  {
    if rows != [] {
      var init, last := rows[..|rows| - 1], rows[|rows| - 1];
      GroupedInOrder(init);
      GroupedMembers(init);
      var m: SeriesMap := BySeries(init);
      if last.series in m {
        forall i | 0 <= i < |m[last.series]| ensures m[last.series][i].ts < last.ts {
          var row := m[last.series][i];
          assert row in m[last.series];
          var d := DataRow(last.series, row.v, row.ts);
          assert d in init;
          var j :| 0 <= j < |init| && init[j] == d;
          assert Before(rows[j], last);
        }
      }
    }
  }

  lemma GroupedIsRawMap(full: seq<DataRow>, t: Table)
    requires ListsInOrder(full, t) && AllSingle(t)
    ensures IsRawMap(BySeries(full), t)
  {
    var m: SeriesMap := BySeries(full);
    GroupedMembers(full);
    GroupedInOrder(full);
    forall s ensures s in m <==> s in SeriesIn(t) {
      if s in m {
        var row := m[s][0];
        assert row in m[s];
        assert InTable(DataRow(s, row.v, row.ts), t);
      }
      if s in SeriesIn(t) {
        var k :| k in t && k.series == s;
        assert InTable(DataRow(s, t[k].sum, k.ts), t);
        assert TsRow(t[k].sum, k.ts) in m[s];
      }
    }
  }

  // ----- sorting

  function InsertRow(rows: seq<DataRow>, row: DataRow): seq<DataRow> {
    if rows == [] then [row]
    else if Before(row, rows[0]) then [row] + rows
    else [rows[0]] + InsertRow(rows[1..], row)
  }

  lemma {:induction false} InsertRowLaws(rows: seq<DataRow>, row: DataRow)
    requires InQueryOrder(rows)
    requires forall r :: r in rows ==> Before(r, row) || Before(row, r)
    ensures InQueryOrder(InsertRow(rows, row))
    ensures forall r :: r in InsertRow(rows, row) <==> r == row || r in rows
  {
    if rows != [] {
      var head, rest := rows[0], rows[1..];
      assert rows == [head] + rest;
      assert forall r :: r in rest ==> r in rows;
      if Before(row, head) {
        assert forall r :: r in rest ==> Before(head, r) by { HeadIsFirst(rows); }
        ConsInOrder(row, rows);
      } else {
        HeadIsFirst(rows);
        InsertRowLaws(rest, row);
        assert head in rows;
        ConsInOrder(head, InsertRow(rest, row));
      }
    }
  }

  lemma HeadIsFirst(rows: seq<DataRow>)
    requires InQueryOrder(rows) && rows != []
    ensures InQueryOrder(rows[1..]) && forall r :: r in rows[1..] ==> Before(rows[0], r)
  {
    forall r | r in rows[1..] ensures Before(rows[0], r) {
      var j :| 0 <= j < |rows| - 1 && rows[1..][j] == r;
      assert rows[j + 1] == r;
    }
  }

  lemma ConsInOrder(head: DataRow, rows: seq<DataRow>)
    requires InQueryOrder(rows) && forall r :: r in rows ==> Before(head, r)
    ensures InQueryOrder([head] + rows)
  {
    var all := [head] + rows;
    forall i, j | 0 <= i < j < |all| ensures Before(all[i], all[j]) {
      assert all[j] == rows[j - 1] && rows[j - 1] in rows;
      if i > 0 { assert all[i] == rows[i - 1]; }
    }
  }

  /** Reads a table in query order. */
  method ListInOrder(t: Table) returns (full: seq<DataRow>)
    requires AllSingle(t)
    ensures ListsInOrder(full, t)
  {
    var todo := t.Keys;
    full := [];
    ghost var done: set<Key> := {};
    while todo != {}
      invariant done !! todo && done + todo == t.Keys
      invariant InQueryOrder(full)
      invariant forall row :: row in full <==> InTable(row, t) && Key(row.series, row.ts) in done
      decreases todo
    {
      var k := Pick(todo);
      var row := DataRow(k.series, t[k].sum, k.ts);
      forall r | r in full ensures Before(r, row) || Before(row, r) {
        assert Key(r.series, r.ts) != k;
      }
      InsertRowLaws(full, row);
      full := InsertRow(full, row);
      done, todo := done + {k}, todo - {k};
    }
  }

  // ----- the query

  /** The complete answer: the rows of every series that has any, by increasing time. */
  ghost function RawMap(t: Table): SeriesMap
    requires AllSingle(t)
  {
    map s | s in SeriesIn(t) :: RawRows(t, s)
  }

  ghost function RawRows(t: Table, s: Series): seq<TsRow>
    requires AllSingle(t)
  {
    var ks := Ascending(InstantsOf(t, s));
    seq(|ks|, i requires 0 <= i < |ks| => assert ks[i] in ks; TsRow(t[Key(s, ks[i])].sum, ks[i]))
  }

  lemma RawMapIsRawMap(t: Table)
    requires AllSingle(t)
    ensures IsRawMap(RawMap(t), t)
  {
    var m: SeriesMap := RawMap(t);
    forall s, row | s in m ensures row in m[s] <==> InTable(DataRow(s, row.v, row.ts), t) {
      var ks := Ascending(InstantsOf(t, s));
      if row in m[s] {
        var i :| 0 <= i < |ks| && m[s][i] == row;
        assert ks[i] in ks;
      }
      if InTable(DataRow(s, row.v, row.ts), t) {
        assert Key(s, row.ts) in t && row.ts in ks;
        var i :| 0 <= i < |ks| && ks[i] == row.ts;
        assert m[s][i] == row;
      }
    }
  }

  /** The slice of the samples that a filter keeps. */
  function KeptTable(t: Table, keep: real -> bool): Table {
    map k | k in t && t[k].Stats? && keep(t[k].sum) :: t[k]
  }

  function Selected(points: Table, p: MultiParams, keep: real -> bool): Table {
    KeptTable(Slice(points, p.uuids, p.start, p.end), keep)
  }

  /** A mapping when the complete answer is within the limits, the error of a limit it exceeds when it is not. */
  ghost predicate Exact(r: Appended, t: Table, p: MultiParams)
    requires AllSingle(t)
  {
    (r.Mapped? <==> WithinLimits(RawMap(t), p.maxPointsPerSeries, p.maxTotalPoints))
    && (r.Mapped? ==> r.mapping == RawMap(t))
    && (r.SeriesLimitExceeded? ==> !WithinLimits(RawMap(t), p.maxPointsPerSeries, 0))
    && (r.TotalLimitExceeded? ==> !WithinLimits(RawMap(t), 0, p.maxTotalPoints))
  }

  /** The ranked query: the filter and both row numbers are evaluated by the database. */
  method GetTsDataRangeLimited(points: Table, p: MultiParams) returns (rows: seq<RankedRow>, ghost full: seq<DataRow>)
    requires AllSingle(points)
    ensures ListsInOrder(full, Selected(points, p, v => SqlRange(v, p.le, p.ge)))
    ensures rows == Limited(full, |full|, p.maxPointsPerSeries, p.maxTotalPoints)
  {
    var all := ListInOrder(Selected(points, p, v => SqlRange(v, p.le, p.ge)));
    return Limited(all, |all|, p.maxPointsPerSeries, p.maxTotalPoints), all;
  }

  lemma LimitedIsExact(full: seq<DataRow>, t: Table, p: MultiParams)
    requires AllSingle(t) && ListsInOrder(full, t)
    ensures Exact(Streamed(full, p), t, p)
  {
    StreamedVerdict(full, p);
    StreamedTells(full, p);
    CountsWithinIff(full, p);
    CountsWithinIff(full, p.(maxTotalPoints := 0));
    CountsWithinIff(full, p.(maxPointsPerSeries := 0));
    GroupedIsRawMap(full, t);
    RawMapIsRawMap(t);
    RawMapUnique(BySeries(full), RawMap(t), t);
    if Streamed(full, p).Mapped? {
      StreamedIsGrouped(full, p);
    }
  }

  /** The limited branch: an error if and only if the filtered data exceeds an enabled limit, and all of it otherwise. */
  method QueryLimited(points: Table, p: MultiParams) returns (r: Appended)
    requires AllSingle(points)
    ensures AllSingle(Selected(points, p, v => SqlRange(v, p.le, p.ge)))
    ensures Exact(r, Selected(points, p, v => SqlRange(v, p.le, p.ge)), p)
  {
    var rows, full := GetTsDataRangeLimited(points, p);
    r := AppendRawMultiSourceLimitedRows(rows, full, p);
    LimitedIsExact(full, Selected(points, p, v => SqlRange(v, p.le, p.ge)), p);
  }

  // ----- the branch without limits

  ghost predicate DistinctKeys(rows: seq<DataRow>) {
    forall i, j :: 0 <= i < j < |rows| ==> rows[i].series != rows[j].series || rows[i].ts != rows[j].ts
  }

  ghost predicate DistinctTimes(rows: seq<TsRow>) {
    forall i, j :: 0 <= i < j < |rows| ==> rows[i].ts != rows[j].ts
  }

  /** The rows of the table, in any order. */
  ghost predicate Lists(rows: seq<DataRow>, t: Table) {
    DistinctKeys(rows) && forall row :: row in rows <==> InTable(row, t)
  }

  lemma EnumerationLists(rows: seq<DataRow>, t: Table)
    requires Enumerates(DataEntries(rows), t)
    ensures Lists(rows, t)
  {
    var es := DataEntries(rows);
    forall i, j | 0 <= i < j < |rows| ensures rows[i].series != rows[j].series || rows[i].ts != rows[j].ts {
      assert es[i].key != es[j].key;
    }
    forall row ensures row in rows <==> InTable(row, t) {
      if row in rows {
        var i :| 0 <= i < |rows| && rows[i] == row;
        assert es[i] == DataEntry(row);
      }
      if InTable(row, t) {
        var i :| 0 <= i < |es| && es[i].key == Key(row.series, row.ts);
        assert es[i] == DataEntry(rows[i]);
        assert rows[i] == row;
      }
    }
  }

  function KeepRows(rows: seq<DataRow>, keep: real -> bool): seq<DataRow> {
    if rows == [] then []
    else
      var last := rows[|rows| - 1];
      KeepRows(rows[..|rows| - 1], keep) + if keep(last.value) then [last] else []
  }

  lemma {:induction false} KeepRowsMembers(rows: seq<DataRow>, keep: real -> bool)
    ensures forall row :: row in KeepRows(rows, keep) <==> row in rows && keep(row.value)
    ensures DistinctKeys(rows) ==> DistinctKeys(KeepRows(rows, keep))
    decreases |rows|
  {
    if rows != [] {
      var init, last := rows[..|rows| - 1], rows[|rows| - 1];
      KeepRowsMembers(init, keep);
      assert rows == init + [last];
      if DistinctKeys(rows) {
        LastKeyIsNew(rows);
        DistinctWithOneMore(KeepRows(init, keep), last);
      }
    }
  }

  lemma LastKeyIsNew(rows: seq<DataRow>)
    requires DistinctKeys(rows) && rows != []
    ensures DistinctKeys(rows[..|rows| - 1])
    ensures forall row :: row in rows[..|rows| - 1] ==> row.series != rows[|rows| - 1].series || row.ts != rows[|rows| - 1].ts
  {
    var init := rows[..|rows| - 1];
    forall row | row in init ensures row.series != rows[|rows| - 1].series || row.ts != rows[|rows| - 1].ts {
      var i :| 0 <= i < |init| && init[i] == row;
      assert rows[i] == row;
    }
  }

  lemma DistinctWithOneMore(rows: seq<DataRow>, last: DataRow)
    requires DistinctKeys(rows) && forall row :: row in rows ==> row.series != last.series || row.ts != last.ts
    ensures DistinctKeys(rows + [last])
  {
    assert forall i :: 0 <= i < |rows| ==> rows[i] in rows;
  }

  lemma KeptLists(rows: seq<DataRow>, t: Table, keep: real -> bool)
    requires Lists(rows, t)
    ensures Lists(KeepRows(rows, keep), KeptTable(t, keep))
  {
    KeepRowsMembers(rows, keep);
    forall row ensures row in KeepRows(rows, keep) <==> InTable(row, KeptTable(t, keep)) {}
  }

  lemma {:induction false} GroupedDistinct(rows: seq<DataRow>)
    requires DistinctKeys(rows)
    ensures forall s :: s in BySeries(rows) ==> DistinctTimes(BySeries(rows)[s])
    decreases |rows|
  {
    if rows != [] {
      var init, last := rows[..|rows| - 1], rows[|rows| - 1];
      GroupedDistinct(init);
      GroupedMembers(init);
      var m: SeriesMap := BySeries(init);
      if last.series in m {
        forall i | 0 <= i < |m[last.series]| ensures m[last.series][i].ts != last.ts {
          var row := m[last.series][i];
          assert row in m[last.series];
          assert DataRow(last.series, row.v, row.ts) in init;
          var j :| 0 <= j < |init| && init[j] == DataRow(last.series, row.v, row.ts);
          assert rows[j] == init[j];
        }
      }
    }
  }

  lemma {:induction false} SetOfRows(rows: seq<TsRow>)
    requires DistinctTimes(rows)
    ensures |set r | r in rows| == |rows|
    decreases |rows|
  {
    var all := set r | r in rows;
    if rows == [] {
      assert all == {};
    } else {
      var init, last := rows[..|rows| - 1], rows[|rows| - 1];
      SetOfRows(init);
      assert rows == init + [last];
      assert all == (set r | r in init) + {last};
    }
  }

  lemma SameLength(a: seq<TsRow>, b: seq<TsRow>)
    requires DistinctTimes(a) && DistinctTimes(b) && forall row :: row in a <==> row in b
    ensures |a| == |b|
  {
    SetOfRows(a);
    SetOfRows(b);
    assert (set r | r in a) == (set r | r in b);
  }

  /** Each series holds the rows of the complete answer, in the order they were read. */
  ghost predicate Unsorted(m: SeriesMap, t: Table)
    requires AllSingle(t)
  {
    && m.Keys == RawMap(t).Keys
    && (forall s :: s in m ==> DistinctTimes(m[s]))
    && (forall s, row :: s in m ==> (row in m[s] <==> row in RawMap(t)[s]))
  }

  lemma GroupedIsUnsorted(rows: seq<DataRow>, t: Table)
    requires AllSingle(t) && Lists(rows, t)
    ensures Unsorted(BySeries(rows), t)
  {
    var m: SeriesMap, raw: SeriesMap := BySeries(rows), RawMap(t);
    GroupedMembers(rows);
    GroupedDistinct(rows);
    GroupedCounts(rows);
    RawMapIsRawMap(t);
    forall s ensures s in m <==> s in raw {
      if s in m {
        var row := m[s][0];
        assert row in m[s];
        assert InTable(DataRow(s, row.v, row.ts), t);
      }
      if s in raw {
        var k :| k in t && k.series == s;
        assert InTable(DataRow(s, t[k].sum, k.ts), t);
        assert TsRow(t[k].sum, k.ts) in m[s];
      }
    }
    forall s, row: TsRow | s in m ensures row in m[s] <==> row in raw[s] {
      assert row in m[s] <==> DataRow(s, row.v, row.ts) in rows;
      assert row in raw[s] <==> InTable(DataRow(s, row.v, row.ts), t);
    }
  }

  lemma UnsortedLimits(m: SeriesMap, t: Table, p: MultiParams)
    requires AllSingle(t) && Unsorted(m, t)
    ensures WithinLimits(m, p.maxPointsPerSeries, p.maxTotalPoints)
       <==> WithinLimits(RawMap(t), p.maxPointsPerSeries, p.maxTotalPoints)
  {
    RawMapIsRawMap(t);
    forall s | s in m ensures |m[s]| == |RawMap(t)[s]| {
      SameLength(m[s], RawMap(t)[s]);
    }
    TotalRowsSame(m, RawMap(t));
  }

  lemma InsertInTime(sorted: seq<TsRow>, n: nat, row: TsRow)
    requires InTimeOrder(sorted) && n <= |sorted|
    requires (forall k :: 0 <= k < n ==> sorted[k].ts < row.ts) && (n < |sorted| ==> row.ts < sorted[n].ts)
    ensures InTimeOrder(sorted[..n] + [row] + sorted[n..])
    ensures forall r :: r in sorted[..n] + [row] + sorted[n..] <==> r in sorted || r == row
  {
    assert sorted == sorted[..n] + sorted[n..];
    assert forall k :: n < k < |sorted| ==> sorted[n].ts < sorted[k].ts;
  }

  method SortInTime(rows: seq<TsRow>) returns (sorted: seq<TsRow>)
    requires DistinctTimes(rows)
    ensures InTimeOrder(sorted) && forall r :: r in sorted <==> r in rows
  {
    sorted := [];
    for i := 0 to |rows|
      invariant InTimeOrder(sorted) && forall r :: r in sorted <==> r in rows[..i]
    {
      var n := 0;
      while n < |sorted| && sorted[n].ts < rows[i].ts
        invariant n <= |sorted| && forall k :: 0 <= k < n ==> sorted[k].ts < rows[i].ts
      {
        n := n + 1;
      }
      if n < |sorted| {
        assert sorted[n] in rows[..i];
      }
      InsertInTime(sorted, n, rows[i]);
      assert rows[..i + 1] == rows[..i] + [rows[i]];
      sorted := sorted[..n] + [rows[i]] + sorted[n..];
    }
    assert rows[..|rows|] == rows;
  }

  /** Appends the rows that pass the filter, checking the limits as it goes, and then sorts each series. */
  method AppendRawMultiSourceRows(rows: seq<DataRow>, ghost t: Table, p: MultiParams) returns (r: Appended)
    requires AllSingle(t) && Lists(rows, t)
    ensures AllSingle(KeptTable(t, v => InValidRange(v, p.le, p.ge)))
    ensures Exact(r, KeptTable(t, v => InValidRange(v, p.le, p.ge)), p)
  {
    ghost var keep := v => InValidRange(v, p.le, p.ge);
    ghost var kept, wanted := KeepRows(rows, keep), KeptTable(t, keep);
    KeptVerdict(rows, t, keep, p);
    var mapping: SeriesMap := map[];
    var totalPoints := 0;
    assert rows[..0] == [];
    for i := 0 to |rows|
      invariant totalPoints == |KeepRows(rows[..i], keep)|
      invariant Streamed(KeepRows(rows[..i], keep), p) == Mapped(mapping)
    {
      hide Streamed, BySeries, Exact;
      var item := rows[i];
      KeepNext(rows, i, keep);
      if !InValidRange(item.value, p.le, p.ge) {
        assert KeepRows(rows[..i + 1], keep) == KeepRows(rows[..i], keep);
        continue;
      }
      StreamedMore(rows, i, keep, p);
      mapping := AppendRow(mapping, item);
      totalPoints := totalPoints + 1;
      var verdict := Validate(mapping, |mapping[item.series]|, totalPoints, p);
      if !verdict.Mapped? {
        return verdict;
      }
    }
    assert rows[..|rows|] == rows;
    StreamedIsGrouped(kept, p);
    var sorted := SortSeries(mapping, wanted);
    return Mapped(sorted);
  }

  lemma KeptVerdict(rows: seq<DataRow>, t: Table, keep: real -> bool, p: MultiParams)
    requires AllSingle(t) && Lists(rows, t)
    ensures AllSingle(KeptTable(t, keep)) && Unsorted(BySeries(KeepRows(rows, keep)), KeptTable(t, keep))
    ensures Streamed(KeepRows(rows, keep), p).Mapped?
       <==> WithinLimits(RawMap(KeptTable(t, keep)), p.maxPointsPerSeries, p.maxTotalPoints)
    ensures !Streamed(KeepRows(rows, keep), p).Mapped? ==> Exact(Streamed(KeepRows(rows, keep), p), KeptTable(t, keep), p)
  {
    var kept, wanted := KeepRows(rows, keep), KeptTable(t, keep);
    KeptLists(rows, t, keep);
    GroupedIsUnsorted(kept, wanted);
    UnsortedLimits(BySeries(kept), wanted, p);
    UnsortedLimits(BySeries(kept), wanted, p.(maxTotalPoints := 0));
    UnsortedLimits(BySeries(kept), wanted, p.(maxPointsPerSeries := 0));
    StreamedVerdict(kept, p);
    StreamedTells(kept, p);
    CountsWithinIff(kept, p);
    CountsWithinIff(kept, p.(maxTotalPoints := 0));
    CountsWithinIff(kept, p.(maxPointsPerSeries := 0));
    hide Streamed, KeptTable, Lists, Unsorted, CountsWithin, BySeries, KeepRows, RawMap, WithinLimits;
  }

  lemma KeepNext(rows: seq<DataRow>, i: nat, keep: real -> bool)
    requires i < |rows|
    ensures KeepRows(rows[..i + 1], keep)
         == KeepRows(rows[..i], keep) + if keep(rows[i].value) then [rows[i]] else []
  {
    assert rows[..i + 1][..i] == rows[..i];
  }

  lemma {:induction false} KeepPrefix(rows: seq<DataRow>, n: nat, keep: real -> bool)
    requires n <= |rows|
    ensures KeepRows(rows[..n], keep) <= KeepRows(rows, keep)
    decreases |rows|
  {
    if n < |rows| {
      KeepPrefix(rows[..|rows| - 1], n, keep);
      assert rows[..|rows| - 1][..n] == rows[..n];
    } else {
      assert rows[..n] == rows;
    }
  }

  /** One more kept row: its verdict, which is the verdict of the whole when it is an error. */
  lemma StreamedMore(rows: seq<DataRow>, i: nat, keep: real -> bool, p: MultiParams)
    requires i < |rows| && keep(rows[i].value) && Streamed(KeepRows(rows[..i], keep), p).Mapped?
    ensures var before, next := KeepRows(rows[..i], keep), KeepRows(rows[..i + 1], keep);
            var m := AppendRow(Streamed(before, p).mapping, rows[i]);
            && Streamed(next, p) == Validate(m, |m[rows[i].series]|, |next|, p)
            && (!Streamed(next, p).Mapped? ==> Streamed(KeepRows(rows, keep), p) == Streamed(next, p))
  {
    var next := KeepRows(rows[..i + 1], keep);
    KeepNext(rows, i, keep);
    assert next[..|next| - 1] == KeepRows(rows[..i], keep);
    if !Streamed(next, p).Mapped? {
      KeepPrefix(rows, i + 1, keep);
      assert KeepRows(rows, keep)[..|next|] == next;
      StreamedStops(KeepRows(rows, keep), |next|, p);
    }
  }

  method SortSeries(mapping: SeriesMap, ghost t: Table) returns (sorted: SeriesMap)
    requires AllSingle(t) && Unsorted(mapping, t)
    ensures sorted == RawMap(t)
  {
    hide *;
    var todo := mapping.Keys;
    sorted := map[];
    ghost var done: set<Series> := {};
    SeriesOfRaw(mapping, t);
    while todo != {}
      invariant done !! todo && done + todo == mapping.Keys && sorted.Keys == done
      invariant forall s :: s in done ==> sorted[s] == RawMap(t)[s]
      decreases todo
    {
      var s := Pick(todo);
      var rows := SortOne(mapping, t, s);
      sorted := sorted[s := rows];
      done, todo := done + {s}, todo - {s};
    }
    assert done == mapping.Keys;
    SameMaps(sorted, RawMap(t));
  }

  lemma SameMaps(a: SeriesMap, b: SeriesMap)
    requires a.Keys == b.Keys && forall s :: s in a ==> a[s] == b[s]
    ensures a == b
  {
    forall s | s in a ensures s in b && a[s] == b[s] {}
  }

  lemma SeriesOfRaw(mapping: SeriesMap, t: Table)
    requires AllSingle(t) && Unsorted(mapping, t)
    ensures mapping.Keys == RawMap(t).Keys
  {}

  method SortOne(mapping: SeriesMap, ghost t: Table, s: Series) returns (rows: seq<TsRow>)
    requires AllSingle(t) && Unsorted(mapping, t) && s in mapping
    ensures s in RawMap(t) && rows == RawMap(t)[s]
  {
    RawMapIsRawMap(t);
    hide RawMap;
    rows := SortInTime(mapping[s]);
    TimeOrderUnique(rows, RawMap(t)[s]);
  }

  /** The branch taken when no limit is enabled, and what it returns were one enabled. */
  method QueryUnlimited(points: Table, p: MultiParams) returns (r: Appended)
    requires AllSingle(points)
    ensures AllSingle(Selected(points, p, v => InValidRange(v, p.le, p.ge)))
    ensures Exact(r, Selected(points, p, v => InValidRange(v, p.le, p.ge)), p)
  {
    var rows := GetTsDataRange(points, p.uuids, p.start, p.end);
    EnumerationLists(rows, Slice(points, p.uuids, p.start, p.end));
    r := AppendRawMultiSourceRows(rows, Slice(points, p.uuids, p.start, p.end), p);
  }

  predicate LimitsEnabled(p: MultiParams) {
    p.maxPointsPerSeries > 0 || p.maxTotalPoints > 0
  }

  /**
   The unaggregated query.  Unless both bounds are given and cross, both branches answer
   the same question: all the data the value filter keeps, or an error when that exceeds a limit.
   */
  method QueryMultiSourceData(points: Table, p: MultiParams) returns (r: Appended)
    requires AllSingle(points)
    ensures AllSingle(Selected(points, p, v => InValidRange(v, p.le, p.ge)))
    ensures AllSingle(Selected(points, p, v => SqlRange(v, p.le, p.ge)))
    ensures p.maxPointsPerSeries > 0 || p.maxTotalPoints > 0 ==> Exact(r, Selected(points, p, v => SqlRange(v, p.le, p.ge)), p)
    ensures (p.maxPointsPerSeries <= 0 && p.maxTotalPoints <= 0) || p.le.None? || p.ge.None? || p.le.value >= p.ge.value ==>
              Exact(r, Selected(points, p, v => InValidRange(v, p.le, p.ge)), p)
  {
    hide Selected, SqlRange, InValidRange, Exact, AllSingle;
    if LimitsEnabled(p) {
      r := QueryLimited(points, p);
      SelectionIsSingle(points, p);
      if p.le.None? || p.ge.None? || p.le.value >= p.ge.value {
        SameSelection(points, p);
      }
    } else {
      r := QueryUnlimited(points, p);
      SelectionIsSingle(points, p);
    }
  }

  lemma SelectionIsSingle(points: Table, p: MultiParams)
    requires AllSingle(points)
    ensures AllSingle(Selected(points, p, v => InValidRange(v, p.le, p.ge)))
    ensures AllSingle(Selected(points, p, v => SqlRange(v, p.le, p.ge)))
  {}

  lemma SameSelection(points: Table, p: MultiParams)
    requires p.le.None? || p.ge.None? || p.le.value >= p.ge.value
    ensures Selected(points, p, v => SqlRange(v, p.le, p.ge)) == Selected(points, p, v => InValidRange(v, p.le, p.ge))
  {
    FiltersAgreeIff(p.le, p.ge);
    hide SqlRange, InValidRange;
  }
}
