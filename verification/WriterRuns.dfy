/**
 The batching writer between its producers, its bounded queue, its ticker and the
 database, as steps that interleave in any order.
 */
module WriterRuns {
  import opened Summaries
  import opened Inserts
  import opened Flushes

  type Id = int

  /** base is what the table held before; the sizes are positive in every validated configuration. */
  datatype Config = Config(batchSize: int, queueSize: int, base: Rows)

  /** One call of Enqueue: the points still to send, and whether the last one sent is not counted yet. */
  datatype Producer = Producer(rest: seq<Point>, uncounted: bool)

  /**
   The running system; inputs, sent, received, pending and attempts are the history: what
   each producer was given, what entered the queue and from whom, what the writer took out
   of it, and of that what it has not tried to store and what it has, flush by flush.
   */
  datatype State = State(
    producers: map<Id, Producer>, queue: seq<Point>, enqueued: int,
    buffer: Groups, total: int, db: Rows, counters: Counters,
    cancelled: bool, running: bool,
    inputs: map<Id, seq<Point>>, sent: seq<(Id, Point)>, received: seq<Point>, pending: seq<Point>, attempts: seq<seq<Point>>)

  /** calls are those of the flush a step makes, if it makes one. */
  datatype Step =
    | Start(id: Id, points: seq<Point>)
    | Send(id: Id)
    | Count(id: Id)
    | Return(id: Id)
    | Cancel
    | Receive(calls: seq<Call>)
    | Tick(calls: seq<Call>)
    | Stop(calls: seq<Call>)

  function Initial(config: Config): State {
    State(map[], [], 0, map[], 0, config.base, Counters(0, 0, 0, 0), false, true, map[], [], [], [], [])
  }

  function Append(buffer: Groups, p: Point): Groups {
    buffer[p.series := (if p.series in buffer then buffer[p.series] else []) + [p.point]]
  }

  /** The state after a point is taken from the queue, before the size of the batch is looked at. */
  function Taken(s: State): State
    requires s.queue != []
  {
    var p := s.queue[0];
    s.(queue := s.queue[1..], buffer := Append(s.buffer, p), total := s.total + 1,
       received := s.received + [p], pending := s.pending + [p])
  }

  /** Once the context is cancelled the database is not reached any more: the first statement of a flush fails, if not before. */
  predicate Refused(calls: seq<Call>) {
    calls != [] && (calls[0].outcome.MarshalFails? || calls[0].outcome.ExecFails?)
  }

  ghost predicate CanFlush(s: State, calls: seq<Call>) {
    s.total != 0 ==> CallsFor(calls, s.buffer) && Known(calls, s.buffer) && (s.cancelled ==> Refused(calls))
  }

  ghost function Flush(s: State, calls: seq<Call>): State
    requires CanFlush(s, calls)
  {
    if s.total == 0 then s
    else
      var r := FlushCalls(s.db, s.counters, s.buffer, calls);
      s.(buffer := map[], total := 0, db := r.db, counters := r.counters, pending := [], attempts := s.attempts + [s.pending])
  }

  ghost predicate Enabled(config: Config, s: State, e: Step) {
    match e
    case Start(id, points) => id !in s.inputs
    case Send(id) =>
      id in s.producers && !s.producers[id].uncounted && s.producers[id].rest != [] && |s.queue| < config.queueSize
    case Count(id) => id in s.producers && s.producers[id].uncounted
    case Return(id) => id in s.producers && !s.producers[id].uncounted && (s.producers[id].rest == [] || s.cancelled)
    case Cancel => true
    case Receive(calls) =>
      s.running && s.queue != [] && (Taken(s).total >= config.batchSize ==> CanFlush(Taken(s), calls))
    case Tick(calls) => s.running && CanFlush(s, calls)
    case Stop(calls) => s.running && s.cancelled && CanFlush(s, calls)
  }

  ghost function Next(config: Config, s: State, e: Step): State
    requires Enabled(config, s, e)
  {
    match e
    case Start(id, points) => s.(producers := s.producers[id := Producer(points, false)], inputs := s.inputs[id := points])
    case Send(id) =>
      var p := s.producers[id].rest[0];
      s.(producers := s.producers[id := Producer(s.producers[id].rest[1..], true)],
         queue := s.queue + [p], sent := s.sent + [(id, p)])
    case Count(id) => s.(producers := s.producers[id := s.producers[id].(uncounted := false)], enqueued := s.enqueued + 1)
    case Return(id) => s.(producers := s.producers - {id})
    case Cancel => s.(cancelled := true)
    case Receive(calls) => if Taken(s).total >= config.batchSize then Flush(Taken(s), calls) else Taken(s)
    case Tick(calls) => Flush(s, calls)
    case Stop(calls) => Flush(s, calls).(running := false)
  }

  /** Every step can be taken when its turn comes. */
  ghost predicate IsRun(config: Config, s: State, steps: seq<Step>)
    decreases |steps|
  {
    steps == [] || (Enabled(config, s, steps[0]) && IsRun(config, Next(config, s, steps[0]), steps[1..]))
  }

  ghost function RunOf(config: Config, s: State, steps: seq<Step>): State
    requires IsRun(config, s, steps)
    decreases |steps|
  {
    if steps == [] then s else RunOf(config, Next(config, s, steps[0]), steps[1..])
  }

  // ----- what every step keeps

  function Flat(batches: seq<seq<Point>>): seq<Point> {
    if batches == [] then [] else Flat(batches[..|batches| - 1]) + batches[|batches| - 1]
  }

  function Points(sent: seq<(Id, Point)>): seq<Point> { seq(|sent|, i requires 0 <= i < |sent| => sent[i].1) }

  /** What one producer sent, in order. */
  function SentBy(sent: seq<(Id, Point)>, id: Id): seq<Point> {
    if sent == [] then []
    else
      var n := |sent| - 1;
      SentBy(sent[..n], id) + if sent[n].0 == id then [sent[n].1] else []
  }

  function Uncounted(producers: map<Id, Producer>): set<Id> { set id | id in producers && producers[id].uncounted }

  /** The buffer holds the pending points, grouped by series in the order they came, and is short of a batch. */
  ghost predicate BufferOk(config: Config, s: State) {
    s.buffer == Grouped(s.pending) && s.total == |s.pending| < config.batchSize
  }

  /** Every point taken from the queue is pending or in exactly one flush; every point sent was taken or waits its turn. */
  ghost predicate NothingLost(config: Config, s: State) {
    && s.received == Flat(s.attempts) + s.pending
    && Points(s.sent) == s.received + s.queue
    && |s.queue| <= config.queueSize
  }

  ghost predicate ProducersOk(s: State) {
    && s.producers.Keys <= s.inputs.Keys
    && (forall i :: 0 <= i < |s.sent| ==> s.sent[i].0 in s.inputs)
    && (forall id :: id in s.inputs ==> SentBy(s.sent, id) <= s.inputs[id])
    && (forall id :: id in s.producers ==> SentBy(s.sent, id) + s.producers[id].rest == s.inputs[id])
    && (forall id :: id in s.inputs && id !in s.producers && !s.cancelled ==> SentBy(s.sent, id) == s.inputs[id])
    && s.enqueued + |Uncounted(s.producers)| == |s.sent|
  }

  /** New rows are points of some flush, and counters are bounded by what was tried and what was stored. */
  ghost predicate TableOk(config: Config, s: State) {
    && (forall k :: k in config.base ==> k in s.db && s.db[k] == config.base[k])
    && (forall k :: k in s.db && k !in config.base ==> Point(k.series, WriterPoint(s.db[k], k.ts)) in Flat(s.attempts))
    && 0 <= s.counters.inserted <= |s.db| - |config.base|
    && 0 <= s.counters.failedPoints && s.counters.inserted + s.counters.failedPoints <= |Flat(s.attempts)|
    && 0 <= s.counters.flushes && 0 <= s.counters.failedFlushes && s.counters.flushes + s.counters.failedFlushes <= |s.attempts|
  }

  /** As long as every flush succeeded, the table is what row by row inserts in order of arrival would have made it. */
  ghost predicate ExactSoFar(config: Config, s: State) {
    s.counters.flushes == |s.attempts| ==>
      && s.db == InsertAll(config.base, Flat(s.attempts))
      && s.counters.inserted == |s.db| - |config.base| && s.counters.failedPoints == 0
  }

  ghost predicate Good(config: Config, s: State) {
    BufferOk(config, s) && NothingLost(config, s) && ProducersOk(s) && TableOk(config, s) && ExactSoFar(config, s)
  }

  lemma FlatMore(batches: seq<seq<Point>>, batch: seq<Point>)
    ensures Flat(batches + [batch]) == Flat(batches) + batch
  {
    var more := batches + [batch];
    assert more[..|batches|] == batches && more[|batches|] == batch;
    assert Flat(more) == Flat(more[..|batches|]) + more[|batches|];
  }

  lemma SeriesOfMore(pending: seq<Point>, p: Point)
    ensures SeriesOf(pending + [p]) == SeriesOf(pending) + {p.series}
  {
    var more := pending + [p];
    assert p in more && forall q :: q in pending ==> q in more;
  }

  lemma GroupedMore(pending: seq<Point>, p: Point)
    ensures Grouped(pending + [p]) == Append(Grouped(pending), p)
  {
    hide SeriesOf;
    var more := pending + [p];
    assert more[..|pending|] == pending && more[|pending|] == p;
    SeriesOfMore(pending, p);
    PointsOfLength(pending, p.series);
    forall s | s in Grouped(more) ensures s in Append(Grouped(pending), p) && Grouped(more)[s] == Append(Grouped(pending), p)[s] {
      assert PointsOf(more, s) == PointsOf(pending, s) + if p.series == s then [p.point] else [];
    }
  }

  lemma SameTable(config: Config, s: State, t: State)
    requires s.db == t.db && s.counters == t.counters && s.attempts == t.attempts
    ensures TableOk(config, s) == TableOk(config, t) && ExactSoFar(config, s) == ExactSoFar(config, t)
  {}

  lemma SameProducers(s: State, t: State)
    requires s.producers == t.producers && s.inputs == t.inputs && s.sent == t.sent
    requires s.cancelled == t.cancelled && s.enqueued == t.enqueued
    ensures ProducersOk(s) == ProducersOk(t)
  {}

  /** New rows of a flush are points that were pending. */
  lemma FlushAddsPending(db: Rows, c: Counters, pending: seq<Point>, calls: seq<Call>, k: Key)
    requires Known(calls, Grouped(pending))
    requires k in FlushCalls(db, c, Grouped(pending), calls).db && k !in db
    ensures Point(k.series, WriterPoint(FlushCalls(db, c, Grouped(pending), calls).db[k], k.ts)) in pending
  {
    hide FlushCalls, Grouped;
    FlushOnlyAdds(db, c, Grouped(pending), calls);
    GroupMember(pending, k.series, WriterPoint(FlushCalls(db, c, Grouped(pending), calls).db[k], k.ts));
  }

  /** A flush as the table sees it: rows are added from the batch, and counted at most once. */
  ghost predicate FlushedTable(s: State, t: State, batch: seq<Point>) {
    && t.attempts == s.attempts + [batch]
    && (forall k :: k in s.db ==> k in t.db && t.db[k] == s.db[k])
    && (forall k :: k in t.db && k !in s.db ==> Point(k.series, WriterPoint(t.db[k], k.ts)) in batch)
    && s.counters.inserted <= t.counters.inserted && s.counters.failedPoints <= t.counters.failedPoints
    && t.counters.inserted - s.counters.inserted <= |t.db| - |s.db|
    && t.counters.inserted - s.counters.inserted + t.counters.failedPoints - s.counters.failedPoints <= |batch|
    && s.counters.flushes <= t.counters.flushes && s.counters.failedFlushes <= t.counters.failedFlushes
    && t.counters.flushes + t.counters.failedFlushes <= s.counters.flushes + s.counters.failedFlushes + 1
  }

  lemma FlushIsFlushed(s: State, calls: seq<Call>)
    requires s.total == |s.pending| != 0 && s.buffer == Grouped(s.pending) && CanFlush(s, calls)
    ensures FlushedTable(s, Flush(s, calls), s.pending)
  {
    hide FlushCalls, Grouped, AllCounted, CallsFor, Known;
    var r := FlushCalls(s.db, s.counters, s.buffer, calls);
    FlushOnlyAdds(s.db, s.counters, s.buffer, calls);
    FlushCounters(s.db, s.counters, s.buffer, calls);
    FlushCounts(s.db, s.counters, s.buffer, calls);
    CallsHoldAll(s.pending, calls);
    forall k | k in r.db && k !in s.db ensures Point(k.series, WriterPoint(r.db[k], k.ts)) in s.pending {
      FlushAddsPending(s.db, s.counters, s.pending, calls, k);
    }
  }

  /** What the flush of a batch leaves: an empty buffer, and a table that has the whole batch in order if the flush succeeded. */
  ghost predicate BatchTried(s: State, t: State, batch: seq<Point>) {
    && FlushedTable(s, t, batch) && t.buffer == map[] && t.total == 0 && t.pending == []
    && (t.counters.flushes == s.counters.flushes + 1 ==>
          && t.db == InsertAll(s.db, batch)
          && t.counters.inserted - s.counters.inserted == |t.db| - |s.db| && t.counters.failedPoints == s.counters.failedPoints)
    && (s.cancelled ==> NothingStored(s, t))
  }

  /** The table and the counts of what was stored are as they were. */
  ghost predicate NothingStored(s: State, t: State) {
    t.db == s.db && t.counters.inserted == s.counters.inserted && t.counters.flushes == s.counters.flushes
  }

  lemma FlushTries(s: State, calls: seq<Call>)
    requires s.total == |s.pending| != 0 && s.buffer == Grouped(s.pending) && CanFlush(s, calls)
    ensures BatchTried(s, Flush(s, calls), s.pending)
  {
    FlushIsFlushed(s, calls);
    RefusedStoresNothing(s.db, s.counters, s.buffer, calls);
    hide FlushCalls, Grouped, CallsFor, Known, FlushedTable, InsertAll, Refused;
    FlushCounters(s.db, s.counters, s.buffer, calls);
    FlushOkIff(s.db, s.counters, s.buffer, calls);
    if AllStored(calls) {
      FlushStoresInOrder(s.db, s.counters, s.pending, calls);
    }
  }

  lemma RefusedStoresNothing(db: Rows, c: Counters, groups: Groups, calls: seq<Call>)
    requires Known(calls, groups)
    ensures var r := FlushCalls(db, c, groups, calls);
            Refused(calls) ==> r.db == db && r.counters.inserted == c.inserted && r.counters.flushes == c.flushes
  {}

  lemma TableGrows(config: Config, s: State, t: State, batch: seq<Point>)
    requires TableOk(config, s) && FlushedTable(s, t, batch)
    ensures TableOk(config, t)
  {
    FlatMore(s.attempts, batch);
    hide Flat;
    forall k | k in t.db && k !in config.base ensures Point(k.series, WriterPoint(t.db[k], k.ts)) in Flat(t.attempts) {
      if k in s.db { assert t.db[k] == s.db[k]; }
    }
  }

  lemma FlushKeepsTable(config: Config, s: State, calls: seq<Call>)
    requires s.total == |s.pending| && s.buffer == Grouped(s.pending) && CanFlush(s, calls)
    requires TableOk(config, s)
    ensures TableOk(config, Flush(s, calls))
  {
    if s.total != 0 {
      hide TableOk, FlushedTable;
      FlushIsFlushed(s, calls);
      TableGrows(config, s, Flush(s, calls), s.pending);
    }
  }

  lemma {:induction false} GroupMember(points: seq<Point>, s: Series, w: WriterPoint)
    requires s in Grouped(points) && w in Grouped(points)[s]
    ensures Point(s, w) in points
  {
    PointsOfMember(points, s, w);
  }

  lemma {:induction false} PointsOfMember(points: seq<Point>, s: Series, w: WriterPoint)
    ensures w in PointsOf(points, s) ==> Point(s, w) in points
    decreases |points|
  {
    if points != [] {
      PointsOfMember(points[..|points| - 1], s, w);
      assert points == points[..|points| - 1] + [points[|points| - 1]];
    }
  }

  lemma FlushStaysExact(config: Config, s: State, calls: seq<Call>)
    requires s.total == |s.pending| && s.buffer == Grouped(s.pending) && CanFlush(s, calls)
    requires TableOk(config, s) && ExactSoFar(config, s)
    ensures ExactSoFar(config, Flush(s, calls))
  {
    if s.total != 0 {
      FlushCounters(s.db, s.counters, s.buffer, calls);
      FlushOkIff(s.db, s.counters, s.buffer, calls);
      FlatMore(s.attempts, s.pending);
      InsertMore(config.base, Flat(s.attempts), s.pending);
      if AllStored(calls) {
        FlushStoresInOrder(s.db, s.counters, s.pending, calls);
      }
    }
  }

  lemma FlushKeepsGood(config: Config, s: State, calls: seq<Call>)
    requires config.batchSize > 0 && CanFlush(s, calls)
    requires s.buffer == Grouped(s.pending) && s.total == |s.pending|
    requires NothingLost(config, s) && ProducersOk(s) && TableOk(config, s) && ExactSoFar(config, s)
    ensures Good(config, Flush(s, calls))
  {
    assert Grouped([]) == map[];
    hide TableOk, ExactSoFar, FlushCalls, Grouped, ProducersOk, CallsFor, Known, Refused, NothingLost;
    FlushKeepsTable(config, s, calls);
    FlushStaysExact(config, s, calls);
    FlushLosesNothing(config, s, calls);
    SameProducers(s, Flush(s, calls));
  }

  lemma FlushLosesNothing(config: Config, s: State, calls: seq<Call>)
    requires s.total == |s.pending| && CanFlush(s, calls) && NothingLost(config, s)
    ensures NothingLost(config, Flush(s, calls))
  {
    hide FlushCalls, CallsFor, Known, Refused, Points, Flat;
    FlatMore(s.attempts, s.pending);
    assert Flat(s.attempts) + s.pending + [] == Flat(s.attempts) + s.pending;
  }

  lemma TakenKeeps(config: Config, s: State)
    requires Good(config, s) && s.queue != []
    ensures var t := Taken(s);
            t.buffer == Grouped(t.pending) && t.total == |t.pending|
            && NothingLost(config, t) && ProducersOk(t) && TableOk(config, t) && ExactSoFar(config, t)
  {
    hide TableOk, ExactSoFar, Grouped, Append, ProducersOk;
    var p := s.queue[0];
    GroupedMore(s.pending, p);
    assert s.queue == [p] + s.queue[1..];
    assert Flat(s.attempts) + s.pending + [p] == Flat(s.attempts) + (s.pending + [p]);
    assert s.received + s.queue == s.received + [p] + s.queue[1..];
    SameProducers(s, Taken(s));
    SameTable(config, s, Taken(s));
  }

  lemma SentMore(sent: seq<(Id, Point)>, id: Id, p: Point)
    ensures Points(sent + [(id, p)]) == Points(sent) + [p]
    ensures forall x :: SentBy(sent + [(id, p)], x) == SentBy(sent, x) + if x == id then [p] else []
  {
    var more := sent + [(id, p)];
    assert more[..|sent|] == sent && more[|sent|] == (id, p);
    assert Points(more) == Points(sent) + [p];
    forall x ensures SentBy(more, x) == SentBy(sent, x) + if x == id then [p] else [] {
      assert SentBy(more, x) == SentBy(more[..|sent|], x) + if more[|sent|].0 == x then [more[|sent|].1] else [];
    }
  }

  lemma SendKeeps(config: Config, s: State, id: Id)
    requires Good(config, s) && Enabled(config, s, Send(id))
    ensures ProducersOk(Next(config, s, Send(id))) && NothingLost(config, Next(config, s, Send(id)))
  {
    hide TableOk, ExactSoFar, BufferOk, ProducersOk, NothingLost;
    SendKeepsProducers(s, id, s.producers[id].rest[0], Next(config, s, Send(id)));
    SendLosesNothing(config, s, id, s.producers[id].rest[0], Next(config, s, Send(id)));
  }

  lemma SendLosesNothing(config: Config, s: State, id: Id, p: Point, t: State)
    requires NothingLost(config, s) && |s.queue| < config.queueSize
    requires t.received == s.received && t.attempts == s.attempts && t.pending == s.pending
    requires t.sent == s.sent + [(id, p)] && t.queue == s.queue + [p]
    ensures NothingLost(config, t)
  {
    hide SentBy, Points, Flat;
    SentMore(s.sent, id, p);
    assert s.received + s.queue + [p] == s.received + (s.queue + [p]);
  }

  lemma SendKeepsProducers(s: State, id: Id, p: Point, t: State)
    requires ProducersOk(s) && id in s.producers && !s.producers[id].uncounted && s.producers[id].rest != []
    requires p == s.producers[id].rest[0] && t.inputs == s.inputs && t.sent == s.sent + [(id, p)]
    requires t.producers == s.producers[id := Producer(s.producers[id].rest[1..], true)]
    requires t.cancelled == s.cancelled && t.enqueued == s.enqueued
    ensures ProducersOk(t)
  {
    hide SentBy;
    var rest := s.producers[id].rest;
    SentMore(s.sent, id, p);
    assert SentBy(s.sent, id) + rest == SentBy(s.sent, id) + [p] + rest[1..];
    assert Uncounted(t.producers) == Uncounted(s.producers) + {id};
  }

  lemma {:induction false} NoneSentBy(sent: seq<(Id, Point)>, id: Id)
    requires forall i :: 0 <= i < |sent| ==> sent[i].0 != id
    ensures SentBy(sent, id) == []
    decreases |sent|
  {
    if sent != [] { NoneSentBy(sent[..|sent| - 1], id); }
  }

  lemma StartKeeps(config: Config, s: State, id: Id, points: seq<Point>)
    requires ProducersOk(s) && Enabled(config, s, Start(id, points))
    ensures ProducersOk(Next(config, s, Start(id, points)))
  {
    NoneSentBy(s.sent, id);
    hide SentBy;
    assert Uncounted(Next(config, s, Start(id, points)).producers) == Uncounted(s.producers);
  }

  lemma CountKeeps(config: Config, s: State, id: Id)
    requires ProducersOk(s) && Enabled(config, s, Count(id))
    ensures ProducersOk(Next(config, s, Count(id)))
  {
    hide SentBy;
    assert Uncounted(Next(config, s, Count(id)).producers) == Uncounted(s.producers) - {id};
  }

  lemma ReturnKeeps(config: Config, s: State, id: Id)
    requires ProducersOk(s) && Enabled(config, s, Return(id))
    ensures ProducersOk(Next(config, s, Return(id)))
  {
    hide SentBy;
    assert Uncounted(Next(config, s, Return(id)).producers) == Uncounted(s.producers);
  }

  lemma ProducerStepKeeps(config: Config, s: State, e: Step)
    requires ProducersOk(s) && Enabled(config, s, e) && (e.Start? || e.Count? || e.Return? || e.Cancel?)
    ensures ProducersOk(Next(config, s, e))
  {
    match e
    case Start(id, points) => StartKeeps(config, s, id, points);
    case Count(id) => CountKeeps(config, s, id);
    case Return(id) => ReturnKeeps(config, s, id);
    case Cancel =>
  }

  /** Whatever step comes next, it keeps the invariant. */
  lemma StepKeepsGood(config: Config, s: State, e: Step)
    requires config.batchSize > 0 && Good(config, s) && Enabled(config, s, e)
    ensures Good(config, Next(config, s, e))
  {
    hide TableOk, ExactSoFar, ProducersOk, Flush, CanFlush;
    match e
    case Send(id) =>
      SendKeeps(config, s, id);
      SameTable(config, s, Next(config, s, e));
    case Receive(calls) =>
      TakenKeeps(config, s);
      if Taken(s).total >= config.batchSize {
        FlushKeepsGood(config, Taken(s), calls);
      }
    case Tick(calls) => FlushKeepsGood(config, s, calls);
    case Stop(calls) => StopKeepsGood(config, s, calls);
    case _ =>
      ProducerStepKeeps(config, s, e);
      SameTable(config, s, Next(config, s, e));
  }

  lemma GoodFlush(config: Config, s: State, calls: seq<Call>)
    requires config.batchSize > 0 && Good(config, s) && CanFlush(s, calls)
    ensures Good(config, Flush(s, calls))
  {
    hide Flush, CanFlush, NothingLost, ProducersOk, TableOk, ExactSoFar;
    FlushKeepsGood(config, s, calls);
  }

  lemma StopIsFlush(config: Config, s: State, calls: seq<Call>)
    requires Enabled(config, s, Stop(calls))
    ensures CanFlush(s, calls) && Next(config, s, Stop(calls)) == Flush(s, calls).(running := false)
  {
    hide Flush, CanFlush;
  }

  lemma StopKeepsGood(config: Config, s: State, calls: seq<Call>)
    requires config.batchSize > 0 && Good(config, s) && Enabled(config, s, Stop(calls))
    ensures Good(config, Next(config, s, Stop(calls)))
  {
    hide *;
    StopIsFlush(config, s, calls);
    GoodFlush(config, s, calls);
    RunningOrNot(config, Flush(s, calls), false);
  }

  lemma RunningOrNot(config: Config, s: State, running: bool)
    requires Good(config, s)
    ensures Good(config, s.(running := running))
  {
    hide TableOk, ExactSoFar, ProducersOk;
    SameTable(config, s, s.(running := running));
    SameProducers(s, s.(running := running));
  }

  lemma InitialIsGood(config: Config)
    requires config.batchSize > 0 && config.queueSize >= 0
    ensures Good(config, Initial(config))
  {
    assert Grouped([]) == map[];
    assert Points([]) == [];
    assert Uncounted(map[]) == {};
  }

  /** Every state of every interleaving is good. */
  lemma {:induction false} RunKeepsGood(config: Config, s: State, steps: seq<Step>)
    requires config.batchSize > 0 && Good(config, s) && IsRun(config, s, steps)
    ensures Good(config, RunOf(config, s, steps))
    decreases |steps|
  {
    if steps != [] {
      hide Good;
      StepKeepsGood(config, s, steps[0]);
      RunKeepsGood(config, Next(config, s, steps[0]), steps[1..]);
    }
  }

  // ----- what that means for a whole run

  /** First in, first out, through queue, buffer and flushes: nothing is lost, doubled or reordered on the way. */
  lemma PointsAreConserved(config: Config, steps: seq<Step>)
    requires config.batchSize > 0 && config.queueSize >= 0 && IsRun(config, Initial(config), steps)
    ensures var s := RunOf(config, Initial(config), steps);
            && Points(s.sent) == Flat(s.attempts) + s.pending + s.queue
            && s.buffer == Grouped(s.pending) && s.total == |s.pending| < config.batchSize && |s.queue| <= config.queueSize
            && s.counters.inserted + s.counters.failedPoints <= |Flat(s.attempts)|
            && s.enqueued <= |s.sent|
  {
    InitialIsGood(config);
    RunKeepsGood(config, Initial(config), steps);
  }

  /** Without failed flushes, every point tried is stored, unless its key was taken, by the earliest point with that key. */
  lemma SuccessfulRunStoresAll(config: Config, steps: seq<Step>)
    requires config.batchSize > 0 && config.queueSize >= 0 && IsRun(config, Initial(config), steps)
    ensures var s := RunOf(config, Initial(config), steps);
            s.counters.flushes == |s.attempts| ==>
              && s.db == InsertAll(config.base, Flat(s.attempts))
              && (s.counters.inserted + s.counters.failedPoints == |Flat(s.attempts)|
                 <==> NoConflicts(config.base, Flat(s.attempts)))
  {
    InitialIsGood(config);
    RunKeepsGood(config, Initial(config), steps);
    InsertCounts(config.base, Flat(RunOf(config, Initial(config), steps).attempts));
  }

  lemma CancelledStep(config: Config, s: State, e: Step)
    requires s.cancelled && Enabled(config, s, e)
    ensures Next(config, s, e).cancelled && NothingStored(s, Next(config, s, e))
  {
    hide FlushCalls, CallsFor, Known, Refused, Append;
    if e.Receive? && Taken(s).total >= config.batchSize {
      CancelledFlush(Taken(s), e.calls);
    }
    if e.Tick? || e.Stop? {
      CancelledFlush(s, e.calls);
    }
  }

  lemma CancelledFlush(s: State, calls: seq<Call>)
    requires s.cancelled && CanFlush(s, calls)
    ensures Flush(s, calls).cancelled && NothingStored(s, Flush(s, calls))
  {
    hide FlushCalls, CallsFor, Refused;
    if s.total != 0 {
      RefusedStoresNothing(s.db, s.counters, s.buffer, calls);
    }
  }

  lemma {:induction false} CancelledRun(config: Config, s: State, steps: seq<Step>)
    requires s.cancelled && IsRun(config, s, steps)
    ensures NothingStored(s, RunOf(config, s, steps))
    decreases |steps|
  {
    if steps != [] {
      hide Next, Enabled;
      CancelledStep(config, s, steps[0]);
      CancelledRun(config, Next(config, s, steps[0]), steps[1..]);
    }
  }

  lemma {:induction false} RunInTwo(config: Config, s: State, first: seq<Step>, rest: seq<Step>)
    requires IsRun(config, s, first + rest)
    ensures IsRun(config, s, first) && IsRun(config, RunOf(config, s, first), rest)
    ensures RunOf(config, s, first + rest) == RunOf(config, RunOf(config, s, first), rest)
    decreases |first|
  {
    hide Next, Enabled;
    if first == [] {
      assert first + rest == rest;
    } else {
      assert (first + rest)[1..] == first[1..] + rest;
      RunInTwo(config, Next(config, s, first[0]), first[1..], rest);
    }
  }

  /**
   Shutting down stores nothing: whatever comes after a cancellation, the last flush of the
   loop included, the table is what the flushes before it made, so none of the points then
   buffered, queued or still to be sent gets a row.
   */
  lemma NothingStoredAfterCancel(config: Config, before: seq<Step>, after: seq<Step>)
    requires config.batchSize > 0 && config.queueSize >= 0 && IsRun(config, Initial(config), before + [Cancel] + after)
    ensures IsRun(config, Initial(config), before)
    ensures var s, t := RunOf(config, Initial(config), before), RunOf(config, Initial(config), before + [Cancel] + after);
            && NothingStored(s, t)
            && forall k :: k in t.db && k !in config.base ==> Point(k.series, WriterPoint(t.db[k], k.ts)) in Flat(s.attempts)
  {
    InitialIsGood(config);
    hide Good, Enabled;
    RunInTwo(config, Initial(config), before + [Cancel], after);
    RunInTwo(config, Initial(config), before, [Cancel]);
    RunKeepsGood(config, Initial(config), before);
    var s := RunOf(config, Initial(config), before);
    CancelRun(config, s);
    CancelledRun(config, s.(cancelled := true), after);
    GoodTable(config, s);
  }

  lemma CancelRun(config: Config, s: State)
    ensures Enabled(config, s, Cancel) && Next(config, s, Cancel) == s.(cancelled := true)
    ensures IsRun(config, s, [Cancel]) ==> RunOf(config, s, [Cancel]) == s.(cancelled := true)
  {}

  lemma GoodTable(config: Config, s: State)
    requires Good(config, s)
    ensures forall k :: k in s.db && k !in config.base ==> Point(k.series, WriterPoint(s.db[k], k.ts)) in Flat(s.attempts)
  {}
}
