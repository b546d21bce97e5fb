/**
 One flush of the writer: a statement for each buffered series, in the arbitrary
 order of a map, until the first that fails.
 */
module Flushes {
  import opened Summaries
  import opened Inserts

  /** CountUnread: the rows are stored, but how many is not learnt. */
  datatype Outcome = MarshalFails | ExecFails | CountUnread | Stored

  datatype Call = Call(series: Series, outcome: Outcome)

  datatype Counters = Counters(inserted: int, flushes: int, failedPoints: int, failedFlushes: int)

  type Groups = map<Series, seq<WriterPoint>>

  datatype Flushed = Flushed(db: Rows, counters: Counters, ok: bool)

  /** The calls made are those of the buffered series, each once, in some order. */
  ghost predicate CallsFor(calls: seq<Call>, groups: Groups) {
    && (forall i, j :: 0 <= i < j < |calls| ==> calls[i].series != calls[j].series)
    && (forall i :: 0 <= i < |calls| ==> calls[i].series in groups)
    && (forall s :: s in groups ==> exists i :: 0 <= i < |calls| && calls[i].series == s)
  }

  ghost predicate Known(calls: seq<Call>, groups: Groups) {
    && (forall i, j :: 0 <= i < j < |calls| ==> calls[i].series != calls[j].series)
    && (forall i :: 0 <= i < |calls| ==> calls[i].series in groups && groups[calls[i].series] != [])
  }

  function GroupStored(db: Rows, groups: Groups, s: Series): Rows
    requires s in groups
  {
    InsertAll(db, OfSeries(s, groups[s]))
  }

  function AddInserted(c: Counters, db: Rows, stored: Rows): Counters {
    c.(inserted := c.inserted + |stored| - |db|)
  }

  ghost function FlushCalls(db: Rows, c: Counters, groups: Groups, calls: seq<Call>): Flushed
    requires Known(calls, groups)
    decreases |calls|
  {
    if calls == [] then Flushed(db, c.(flushes := c.flushes + 1), true)
    else
      var s := calls[0].series;
      var stored := GroupStored(db, groups, s);
      match calls[0].outcome
      case Stored =>
        FlushCalls(stored, AddInserted(c, db, stored), groups, calls[1..])
      case CountUnread =>
        Flushed(stored, c, false)
      case _ =>
        Flushed(db, c.(failedPoints := c.failedPoints + |groups[s]|, failedFlushes := c.failedFlushes + 1), false)
  }

  predicate AllStored(calls: seq<Call>) {
    forall i :: 0 <= i < |calls| ==> calls[i].outcome.Stored?
  }

  function Pts(groups: Groups, calls: seq<Call>): nat
    requires forall i :: 0 <= i < |calls| ==> calls[i].series in groups
  {
    if calls == [] then 0 else |groups[calls[0].series]| + Pts(groups, calls[1..])
  }

  // ----- what a flush stores

  /** The rows that were there are as they were, and the new ones are points of the groups. */
  ghost predicate OnlyAdds(db: Rows, after: Rows, groups: Groups) {
    && (forall k :: k in db ==> k in after && after[k] == db[k])
    && (forall k :: k in after && k !in db ==> k.series in groups && WriterPoint(after[k], k.ts) in groups[k.series])
  }

  lemma GroupOnlyAdds(db: Rows, groups: Groups, s: Series)
    requires s in groups
    ensures OnlyAdds(db, GroupStored(db, groups, s), groups)
  {
    var points := OfSeries(s, groups[s]);
    var stored := InsertAll(db, points);
    InsertKeeps(db, points);
    forall k | k in db ensures k in stored && stored[k] == db[k] {
      assert Find(stored, k) == Find(db, k);
    }
    forall k | k in stored && k !in db ensures k.series == s && WriterPoint(stored[k], k.ts) in groups[s] {
      var p :| p in points && KeyOf(p) == k && stored[k] == p.point.value;
      assert p.point == WriterPoint(stored[k], k.ts);
    }
  }

  lemma OnlyAddsTwice(a: Rows, b: Rows, c: Rows, groups: Groups)
    requires OnlyAdds(a, b, groups) && OnlyAdds(b, c, groups)
    ensures OnlyAdds(a, c, groups)
  {
    forall k | k in c && k !in a ensures k.series in groups && WriterPoint(c[k], k.ts) in groups[k.series] {
      if k in b { assert c[k] == b[k]; }
    }
  }

  lemma {:induction false} FlushOkIff(db: Rows, c: Counters, groups: Groups, calls: seq<Call>)
    requires Known(calls, groups)
    ensures FlushCalls(db, c, groups, calls).ok <==> AllStored(calls)
    decreases |calls|
  {
    if calls != [] && calls[0].outcome.Stored? {
      hide GroupStored, AddInserted;
      var stored := GroupStored(db, groups, calls[0].series);
      FlushOkIff(stored, AddInserted(c, db, stored), groups, calls[1..]);
      assert calls == [calls[0]] + calls[1..];
    }
  }

  lemma {:induction false} FlushOnlyAdds(db: Rows, c: Counters, groups: Groups, calls: seq<Call>)
    requires Known(calls, groups)
    ensures OnlyAdds(db, FlushCalls(db, c, groups, calls).db, groups)
    decreases |calls|
  {
    hide OnlyAdds, GroupStored, AddInserted;
    NothingAdded(db, groups);
    if calls != [] {
      var stored := GroupStored(db, groups, calls[0].series);
      GroupOnlyAdds(db, groups, calls[0].series);
      if calls[0].outcome.Stored? {
        FlushOnlyAdds(stored, AddInserted(c, db, stored), groups, calls[1..]);
        OnlyAddsTwice(db, stored, FlushCalls(db, c, groups, calls).db, groups);
      }
    }
  }

  lemma NothingAdded(db: Rows, groups: Groups)
    ensures OnlyAdds(db, db, groups)
  {}

  lemma {:induction false} FlushFind(db: Rows, c: Counters, groups: Groups, calls: seq<Call>, k: Key)
    requires Known(calls, groups) && AllStored(calls)
    ensures Find(FlushCalls(db, c, groups, calls).db, k) ==
            if exists i :: 0 <= i < |calls| && calls[i].series == k.series
            then Find(InsertAll(db, OfSeries(k.series, groups[k.series])), k) else Find(db, k)
    decreases |calls|
  {
    if calls != [] {
      hide Find, AddInserted;
      var s, rest := calls[0].series, calls[1..];
      var stored := GroupStored(db, groups, s);
      FlushFind(stored, AddInserted(c, db, stored), groups, rest, k);
      if s != k.series {
        OtherSeriesUntouched(db, OfSeries(s, groups[s]), k);
        if i :| 0 <= i < |calls| && calls[i].series == k.series {
          assert rest[i - 1] == calls[i];
          FindDependsOnFind(stored, db, OfSeries(k.series, groups[k.series]), k);
        }
        if i :| 0 <= i < |rest| && rest[i].series == k.series {
          assert calls[i + 1] == rest[i];
        }
      }
    }
  }

  /** The order of the buffer does not matter: a flush that succeeds stores the points as if row by row in the order they came. */
  lemma FlushStoresInOrder(db: Rows, c: Counters, pending: seq<Point>, calls: seq<Call>)
    requires CallsFor(calls, Grouped(pending)) && Known(calls, Grouped(pending)) && AllStored(calls)
    ensures FlushCalls(db, c, Grouped(pending), calls).db == InsertAll(db, pending)
  {
    hide Find, InsertAll, FlushCalls;
    var r := FlushCalls(db, c, Grouped(pending), calls).db;
    forall k ensures Find(r, k) == Find(InsertAll(db, pending), k) {
      FlushFind(db, c, Grouped(pending), calls, k);
      InsertBySeries(db, pending, k);
      PointsOfLength(pending, k.series);
      if k.series in Grouped(pending) {
        assert Grouped(pending)[k.series] == PointsOf(pending, k.series);
      } else {
        assert OfSeries(k.series, PointsOf(pending, k.series)) == [];
        NoPoints(db);
      }
    }
    SameFinds(r, InsertAll(db, pending));
  }

  lemma NoPoints(db: Rows)
    ensures InsertAll(db, []) == db
  {}

  lemma GroupsAreKnown(pending: seq<Point>, calls: seq<Call>)
    requires CallsFor(calls, Grouped(pending))
    ensures Known(calls, Grouped(pending))
  {
    forall i | 0 <= i < |calls| ensures Grouped(pending)[calls[i].series] != [] {
      PointsOfLength(pending, calls[i].series);
    }
  }

  function SeriesCalled(calls: seq<Call>): (order: seq<Series>)
    ensures |order| == |calls|
  {
    seq(|calls|, i requires 0 <= i < |calls| => calls[i].series)
  }

  lemma {:induction false} PtsIsPointsIn(pending: seq<Point>, calls: seq<Call>)
    requires forall i :: 0 <= i < |calls| ==> calls[i].series in Grouped(pending)
    ensures Pts(Grouped(pending), calls) == PointsIn(pending, SeriesCalled(calls))
    decreases |calls|
  {
    if calls != [] {
      PtsIsPointsIn(pending, calls[1..]);
      assert SeriesCalled(calls)[1..] == SeriesCalled(calls[1..]);
    }
  }

  /** The groups of a flush hold each buffered point once. */
  lemma CallsHoldAll(pending: seq<Point>, calls: seq<Call>)
    requires CallsFor(calls, Grouped(pending))
    ensures Pts(Grouped(pending), calls) == |pending|
  {
    PtsIsPointsIn(pending, calls);
    var order := SeriesCalled(calls);
    forall p | p in pending ensures p.series in order {
      assert p.series in Grouped(pending);
      var i :| 0 <= i < |calls| && calls[i].series == p.series;
      assert order[i] == p.series;
    }
    GroupsHoldAll(pending, order);
  }

  // ----- what a flush counts

  /** Only the last call failed, if any, and its points were counted; and no stored row met another. */
  ghost predicate AllCounted(db: Rows, groups: Groups, calls: seq<Call>)
    requires Known(calls, groups)
  {
    && (forall i :: 0 <= i < |calls| - 1 ==> calls[i].outcome.Stored?)
    && (calls != [] ==> !calls[|calls| - 1].outcome.CountUnread?)
    && (forall i :: 0 <= i < |calls| && calls[i].outcome.Stored? ==>
                      NoConflicts(db, OfSeries(calls[i].series, groups[calls[i].series])))
  }

  lemma OtherSeriesSameConflicts(db: Rows, s: Series, group: seq<WriterPoint>, t: Series, other: seq<WriterPoint>)
    requires s != t
    ensures NoConflicts(InsertAll(db, OfSeries(s, group)), OfSeries(t, other)) <==> NoConflicts(db, OfSeries(t, other))
  {
    var stored := InsertAll(db, OfSeries(s, group));
    forall i | 0 <= i < |other| ensures KeyOf(OfSeries(t, other)[i]) in stored <==> KeyOf(OfSeries(t, other)[i]) in db {
      var k := KeyOf(OfSeries(t, other)[i]);
      OtherSeriesUntouched(db, OfSeries(s, group), k);
      assert Find(stored, k) == Find(db, k);
    }
  }

  lemma CountedStep(db: Rows, groups: Groups, calls: seq<Call>)
    requires Known(calls, groups) && calls != [] && calls[0].outcome.Stored?
    ensures var s := calls[0].series;
            var stored := GroupStored(db, groups, s);
            AllCounted(db, groups, calls) <==> NoConflicts(db, OfSeries(s, groups[s])) && AllCounted(stored, groups, calls[1..])
  {
    hide NoConflicts;
    var s, rest := calls[0].series, calls[1..];
    var stored := GroupStored(db, groups, s);
    forall i | 0 <= i < |rest|
      ensures rest[i] == calls[i + 1]
      ensures NoConflicts(stored, OfSeries(rest[i].series, groups[rest[i].series]))
         <==> NoConflicts(db, OfSeries(rest[i].series, groups[rest[i].series]))
    {
      OtherSeriesSameConflicts(db, s, groups[s], rest[i].series, groups[rest[i].series]);
    }
    if AllCounted(stored, groups, rest) && NoConflicts(db, OfSeries(s, groups[s])) {
      forall i | 0 <= i < |calls| && calls[i].outcome.Stored?
        ensures NoConflicts(db, OfSeries(calls[i].series, groups[calls[i].series]))
      {
        if i > 0 { assert calls[i] == rest[i - 1]; }
      }
      forall i | 0 <= i < |calls| - 1 ensures calls[i].outcome.Stored? {
        if i > 0 { assert calls[i] == rest[i - 1]; }
      }
    }
  }

  lemma GroupCounts(db: Rows, groups: Groups, s: Series)
    requires s in groups
    ensures |db| <= |GroupStored(db, groups, s)| <= |db| + |groups[s]|
    ensures |GroupStored(db, groups, s)| == |db| + |groups[s]| <==> NoConflicts(db, OfSeries(s, groups[s]))
  {
    InsertCounts(db, OfSeries(s, groups[s]));
  }

  lemma {:induction false} FlushCounters(db: Rows, c: Counters, groups: Groups, calls: seq<Call>)
    requires Known(calls, groups)
    ensures var r := FlushCalls(db, c, groups, calls);
            && c.inserted <= r.counters.inserted && c.failedPoints <= r.counters.failedPoints
            && r.counters.inserted - c.inserted <= |r.db| - |db|
            && (r.ok ==> r.counters.inserted - c.inserted == |r.db| - |db| && r.counters.failedPoints == c.failedPoints)
            && r.counters.flushes == c.flushes + (if r.ok then 1 else 0)
            && c.failedFlushes <= r.counters.failedFlushes <= c.failedFlushes + (if r.ok then 0 else 1)
    decreases |calls|
  {
    if calls != [] {
      hide GroupStored;
      var stored := GroupStored(db, groups, calls[0].series);
      GroupCounts(db, groups, calls[0].series);
      if calls[0].outcome.Stored? {
        FlushCounters(stored, AddInserted(c, db, stored), groups, calls[1..]);
      }
    }
  }

  /**
   A flush is that of the n calls before the first that fails, and what the failure adds: the group
   whose statement or encoding failed is not stored, and counts as failed, points and flush; the group
   whose count could not be read is stored, and counts as nothing.
   */
  lemma {:induction false} FlushStopsAt(db: Rows, c: Counters, groups: Groups, calls: seq<Call>, n: nat)
    requires Known(calls, groups) && n <= |calls| && AllStored(calls[..n]) && (n < |calls| ==> !calls[n].outcome.Stored?)
    ensures Known(calls[..n], groups)
    ensures var r, before := FlushCalls(db, c, groups, calls), FlushCalls(db, c, groups, calls[..n]);
            if n == |calls| then r == before && r.ok && r.counters.flushes == c.flushes + 1
            else
              var failed := if calls[n].outcome.CountUnread? then 0 else 1;
              && !r.ok && r.counters.flushes == c.flushes && r.counters.inserted == before.counters.inserted
              && r.counters.failedFlushes == c.failedFlushes + failed
              && r.counters.failedPoints == c.failedPoints + failed * |groups[calls[n].series]|
              && r.db == if calls[n].outcome.CountUnread? then InsertAll(before.db, OfSeries(calls[n].series, groups[calls[n].series])) else before.db
    decreases n
  {
    if n == |calls| {
      assert calls[..n] == calls;
      FlushOkIff(db, c, groups, calls);
      FlushCounters(db, c, groups, calls);
    } else if n > 0 {
      assert calls[..n][1..] == calls[1..][..n - 1] && calls[..n][0] == calls[0];
      assert calls[0].outcome.Stored?;
      hide GroupStored, AddInserted, InsertAll;
      var stored := GroupStored(db, groups, calls[0].series);
      KeepsOtherCounters(c, db, stored);
      FlushStopsAt(stored, AddInserted(c, db, stored), groups, calls[1..], n - 1);
    }
  }

  lemma KeepsOtherCounters(c: Counters, db: Rows, stored: Rows)
    ensures var d := AddInserted(c, db, stored); d.flushes == c.flushes && d.failedPoints == c.failedPoints && d.failedFlushes == c.failedFlushes
  {}

  /** No point is counted twice, and all are counted exactly if AllCounted. */
  lemma {:induction false} FlushCounts(db: Rows, c: Counters, groups: Groups, calls: seq<Call>)
    requires Known(calls, groups)
    ensures var r := FlushCalls(db, c, groups, calls);
            var counted := (r.counters.inserted - c.inserted) + (r.counters.failedPoints - c.failedPoints);
            counted <= Pts(groups, calls) && (counted == Pts(groups, calls) <==> AllCounted(db, groups, calls))
    decreases |calls|
  {
    hide NoConflicts, AllCounted, GroupStored;
    if calls == [] {
      NoCalls(db, groups);
    } else {
      var stored := GroupStored(db, groups, calls[0].series);
      GroupCounts(db, groups, calls[0].series);
      if calls[0].outcome.Stored? {
        CountedStep(db, groups, calls);
        FlushCounts(stored, AddInserted(c, db, stored), groups, calls[1..]);
      } else {
        FirstCallFails(db, groups, calls);
      }
    }
  }

  lemma NoCalls(db: Rows, groups: Groups)
    ensures AllCounted(db, groups, [])
  {}

  lemma {:induction false} FirstCallFails(db: Rows, groups: Groups, calls: seq<Call>)
    requires Known(calls, groups) && calls != [] && !calls[0].outcome.Stored?
    ensures AllCounted(db, groups, calls) <==> |calls| == 1 && !calls[0].outcome.CountUnread?
    ensures Pts(groups, calls) == |groups[calls[0].series]| <==> |calls| == 1
    ensures |groups[calls[0].series]| > 0
  {
    if |calls| > 1 {
      assert Pts(groups, calls[1..]) >= |groups[calls[1].series]| > 0;
    } else {
      assert calls[1..] == [];
    }
  }
}
