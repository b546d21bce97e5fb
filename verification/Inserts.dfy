/**
 Rows written with ON CONFLICT DO NOTHING, and points grouped by series.
 */
module Inserts {
  import opened Wrappers
  import opened Calendar
  import opened Summaries

  datatype WriterPoint = WriterPoint(value: real, ts: Instant)

  datatype Point = Point(series: Series, point: WriterPoint)

  /** tsdata with its primary key. */
  type Rows = map<Key, real>

  function KeyOf(p: Point): Key { Key(p.series, p.point.ts) }

  function InsertOne(db: Rows, p: Point): Rows {
    if KeyOf(p) in db then db else db[KeyOf(p) := p.point.value]
  }

  /** One row after the other; a row whose key is taken, also by an earlier one of the same statement, is skipped. */
  function InsertAll(db: Rows, points: seq<Point>): Rows
    decreases |points|
  {
    if points == [] then db
    else
      var n := |points| - 1;
      InsertOne(InsertAll(db, points[..n]), points[n])
  }

  /** The points of one series, in the order they came. */
  function PointsOf(points: seq<Point>, s: Series): seq<WriterPoint> {
    if points == [] then []
    else
      var n := |points| - 1;
      PointsOf(points[..n], s) + if points[n].series == s then [points[n].point] else []
  }

  function SeriesOf(points: seq<Point>): set<Series> { set p | p in points :: p.series }

  /** The buffer of the writer: a non-empty group for each series with points. */
  function Grouped(points: seq<Point>): map<Series, seq<WriterPoint>> {
    map s | s in SeriesOf(points) :: PointsOf(points, s)
  }

  function OfSeries(s: Series, group: seq<WriterPoint>): (points: seq<Point>)
    ensures |points| == |group| && forall i :: 0 <= i < |group| ==> points[i] == Point(s, group[i])
  {
    seq(|group|, i requires 0 <= i < |group| => Point(s, group[i]))
  }

  function Find(db: Rows, k: Key): Option<real> { if k in db then Some(db[k]) else None }

  // ----- properties

  lemma {:induction false} InsertKeeps(db: Rows, points: seq<Point>)
    ensures forall k :: k in db ==> Find(InsertAll(db, points), k) == Find(db, k)
    ensures forall k :: k in InsertAll(db, points) ==>
                k in db || exists p :: p in points && KeyOf(p) == k && InsertAll(db, points)[k] == p.point.value
    ensures forall p :: p in points ==> KeyOf(p) in InsertAll(db, points)
    decreases |points|
  {
    if points != [] {
      InsertKeeps(db, points[..|points| - 1]);
      assert points == points[..|points| - 1] + [points[|points| - 1]];
    }
  }

  /** A row that is there stays; otherwise the first point of a key becomes its row. */
  lemma {:induction false} FirstIsStored(db: Rows, points: seq<Point>, i: nat)
    requires i < |points| && forall j :: 0 <= j < i ==> KeyOf(points[j]) != KeyOf(points[i])
    ensures var k := KeyOf(points[i]); Find(InsertAll(db, points), k) == Some(if k in db then db[k] else points[i].point.value)
    decreases |points|
  {
    var n := |points| - 1;
    var k := KeyOf(points[i]);
    if i < n {
      FirstIsStored(db, points[..n], i);
    } else {
      InsertKeeps(db, points[..n]);
    }
  }

  lemma {:induction false} InsertMore(db: Rows, a: seq<Point>, b: seq<Point>)
    ensures InsertAll(db, a + b) == InsertAll(InsertAll(db, a), b)
    decreases |b|
  {
    if b == [] {
      assert a + b == a;
    } else {
      var n := |b| - 1;
      assert (a + b)[..|a| + n] == a + b[..n];
      InsertMore(db, a, b[..n]);
    }
  }

  lemma InsertOneCounts(db: Rows, p: Point)
    ensures |InsertOne(db, p)| == |db| + if KeyOf(p) in db then 0 else 1
  {
    if KeyOf(p) !in db {
      assert InsertOne(db, p).Keys == db.Keys + {KeyOf(p)};
      assert |db.Keys + {KeyOf(p)}| == |db.Keys| + 1;
    }
  }

  ghost predicate NoConflicts(db: Rows, points: seq<Point>) {
    && (forall i :: 0 <= i < |points| ==> KeyOf(points[i]) !in db)
    && (forall i, j :: 0 <= i < j < |points| ==> KeyOf(points[i]) != KeyOf(points[j]))
  }

  lemma NoConflictsWithOneMore(db: Rows, points: seq<Point>)
    requires points != []
    ensures var n := |points| - 1;
            NoConflicts(db, points) <==> (NoConflicts(db, points[..n]) && KeyOf(points[n]) !in db
            && forall i :: 0 <= i < n ==> KeyOf(points[i]) != KeyOf(points[n]))
  {
    var n := |points| - 1;
    assert forall i :: 0 <= i < n ==> points[..n][i] == points[i];
    if NoConflicts(db, points[..n]) && KeyOf(points[n]) !in db && forall i :: 0 <= i < n ==> KeyOf(points[i]) != KeyOf(points[n]) {
      forall i | 0 <= i < |points| ensures KeyOf(points[i]) !in db { assert i < n ==> points[..n][i] == points[i]; }
      forall i, j | 0 <= i < j < |points| ensures KeyOf(points[i]) != KeyOf(points[j]) {
        assert points[..n][i] == points[i] && (j < n ==> points[..n][j] == points[j]);
      }
    }
  }

  lemma ConflictsWithOneMore(db: Rows, points: seq<Point>)
    requires points != []
    ensures var n := |points| - 1;
            && InsertAll(db, points) == InsertOne(InsertAll(db, points[..n]), points[n])
            && (NoConflicts(db, points) <==> (NoConflicts(db, points[..n]) && KeyOf(points[n]) !in InsertAll(db, points[..n])))
  {
    hide NoConflicts, InsertOne, KeyOf;
    var n := |points| - 1;
    NoConflictsWithOneMore(db, points);
    InsertKeys(db, points[..n], KeyOf(points[n]));
    assert forall i :: 0 <= i < n ==> points[..n][i] == points[i];
  }

  /** At most one new row for each point, and exactly one if no two keys meet. */
  lemma {:induction false} InsertCounts(db: Rows, points: seq<Point>)
    ensures |db| <= |InsertAll(db, points)| <= |db| + |points|
    ensures |InsertAll(db, points)| == |db| + |points| <==> NoConflicts(db, points)
    decreases |points|
  {
    if points != [] {
      hide *;
      var n := |points| - 1;
      InsertCounts(db, points[..n]);
      InsertOneCounts(InsertAll(db, points[..n]), points[n]);
      ConflictsWithOneMore(db, points);
    }
  }

  lemma InsertKeys(db: Rows, points: seq<Point>, k: Key)
    ensures k in InsertAll(db, points) <==> k in db || exists i :: 0 <= i < |points| && KeyOf(points[i]) == k
  {
    InsertKeeps(db, points);
    if i :| 0 <= i < |points| && KeyOf(points[i]) == k {
      assert points[i] in points;
    }
  }

  lemma FindAfterOne(db: Rows, p: Point, k: Key)
    ensures Find(InsertOne(db, p), k) == if KeyOf(p) == k && Find(db, k).None? then Some(p.point.value) else Find(db, k)
  {}

  /** A row depends only on the points of its series, in their order. */
  lemma {:induction false} InsertBySeries(db: Rows, points: seq<Point>, k: Key)
    ensures Find(InsertAll(db, points), k) == Find(InsertAll(db, OfSeries(k.series, PointsOf(points, k.series))), k)
    decreases |points|
  {
    if points == [] {
      assert OfSeries(k.series, []) == [];
    } else {
      hide InsertOne, Find;
      var n := |points| - 1;
      InsertBySeries(db, points[..n], k);
      FindAfterOne(InsertAll(db, points[..n]), points[n], k);
      var group := OfSeries(k.series, PointsOf(points[..n], k.series));
      if points[n].series == k.series {
        FindAfterOne(InsertAll(db, group), points[n], k);
        assert OfSeries(k.series, PointsOf(points, k.series)) == group + [points[n]];
        assert (group + [points[n]])[..|group|] == group;
      } else {
        assert PointsOf(points, k.series) == PointsOf(points[..n], k.series);
      }
    }
  }

  lemma {:induction false} OtherSeriesUntouched(db: Rows, points: seq<Point>, k: Key)
    requires forall i :: 0 <= i < |points| ==> points[i].series != k.series
    ensures Find(InsertAll(db, points), k) == Find(db, k)
    decreases |points|
  {
    if points != [] {
      OtherSeriesUntouched(db, points[..|points| - 1], k);
    }
  }

  /** What is found at a key after an insert depends only on what was found there before. */
  lemma {:induction false} FindDependsOnFind(a: Rows, b: Rows, points: seq<Point>, k: Key)
    requires Find(a, k) == Find(b, k)
    ensures Find(InsertAll(a, points), k) == Find(InsertAll(b, points), k)
    decreases |points|
  {
    if points != [] {
      FindDependsOnFind(a, b, points[..|points| - 1], k);
    }
  }

  lemma SameFinds(a: Rows, b: Rows)
    requires forall k :: Find(a, k) == Find(b, k)
    ensures a == b
  {
    assert forall k :: k in a <==> k in b by {
      forall k ensures k in a <==> k in b { assert Find(a, k) == Find(b, k); }
    }
    forall k | k in a ensures a[k] == b[k] { assert Find(a, k) == Find(b, k); }
  }

  lemma {:induction false} PointsOfLength(points: seq<Point>, s: Series)
    ensures |PointsOf(points, s)| > 0 <==> s in SeriesOf(points)
    decreases |points|
  {
    if points != [] {
      var n := |points| - 1;
      PointsOfLength(points[..n], s);
      assert points == points[..n] + [points[n]];
      if s in SeriesOf(points) && points[n].series != s {
        var p :| p in points && p.series == s;
        assert p in points[..n];
      }
      if s in SeriesOf(points[..n]) {
        var p :| p in points[..n] && p.series == s;
        assert p in points;
      }
      if points[n].series == s { assert points[n] in points; }
    }
  }

  ghost predicate EachOnce(order: seq<Series>) {
    forall i, j :: 0 <= i < j < |order| ==> order[i] != order[j]
  }

  /** How many of the points belong to the series listed. */
  function PointsIn(points: seq<Point>, order: seq<Series>): nat {
    if order == [] then 0 else |PointsOf(points, order[0])| + PointsIn(points, order[1..])
  }

  lemma {:induction false} OnePointMore(points: seq<Point>, order: seq<Series>)
    requires points != [] && EachOnce(order)
    ensures var n := |points| - 1;
            PointsIn(points, order) == PointsIn(points[..n], order) + if points[n].series in order then 1 else 0
    decreases |order|
  {
    if order != [] {
      assert order == [order[0]] + order[1..];
      OnePointMore(points, order[1..]);
    }
  }

  /** Groups of distinct series that leave none out hold every point once. */
  lemma {:induction false} GroupsHoldAll(points: seq<Point>, order: seq<Series>)
    requires EachOnce(order) && forall p :: p in points ==> p.series in order
    ensures PointsIn(points, order) == |points|
    decreases |points|
  {
    if points == [] {
      NoPointsIn(order);
    } else {
      var n := |points| - 1;
      assert points[n] in points && forall p :: p in points[..n] ==> p in points;
      GroupsHoldAll(points[..n], order);
      OnePointMore(points, order);
    }
  }

  lemma {:induction false} NoPointsIn(order: seq<Series>)
    ensures PointsIn([], order) == 0
    decreases |order|
  {
    if order != [] { NoPointsIn(order[1..]); }
  }
}
