/**
 The writer object: each method is one step of a run.
 */
module WriterObject {
  import opened Inserts
  import opened Flushes
  import opened WriterRuns

  class Writer {
    const config: Config
    var queue: seq<Point>
    var enqueued: int
    var inserted: int
    var flushes: int
    var failedPoints: int
    var failedFlushes: int
    var buffer: Groups
    var total: int
    var db: Rows
    var cancelled: bool
    var running: bool
    ghost var producers: map<Id, Producer>
    ghost var inputs: map<Id, seq<Point>>
    ghost var sent: seq<(Id, Point)>
    ghost var received: seq<Point>
    ghost var pending: seq<Point>
    ghost var attempts: seq<seq<Point>>

    ghost function CountersNow(): Counters
      reads this
    {
      Counters(inserted, flushes, failedPoints, failedFlushes)
    }

    ghost function View(): State
      reads this
    {
      State(producers, queue, enqueued, buffer, total, db, CountersNow(), cancelled, running,
            inputs, sent, received, pending, attempts)
    }

    /** Configurations are validated before: both sizes are positive there. */
    constructor (config: Config)
      requires config.batchSize > 0 && config.queueSize >= 0
      ensures this.config == config && View() == Initial(config) && Good(config, View())
    {
      this.config := config;
      queue, enqueued, buffer, total, db := [], 0, map[], 0, config.base;
      inserted, flushes, failedPoints, failedFlushes := 0, 0, 0, 0;
      cancelled, running := false, true;
      producers, inputs, sent, received, pending, attempts := map[], map[], [], [], [], [];
      InitialIsGood(config);
    }

    /** The statements of one flush, series by series, until one fails. */
    method FlushGroups(calls: seq<Call>) returns (ok: bool)
      requires Known(calls, buffer)
      modifies `db, `inserted, `flushes, `failedPoints, `failedFlushes
      ensures Flushed(db, CountersNow(), ok) == old(FlushCalls(db, CountersNow(), buffer, calls))
    {
      hide GroupStored;
      ghost var goal := FlushCalls(db, CountersNow(), buffer, calls);
      for i := 0 to |calls|
        invariant Known(calls[i..], buffer)
        invariant FlushCalls(db, CountersNow(), buffer, calls[i..]) == goal
      {
        assert calls[i..][0] == calls[i] && calls[i..][1..] == calls[i + 1..];
        var series, points := calls[i].series, buffer[calls[i].series];
        if calls[i].outcome.MarshalFails? || calls[i].outcome.ExecFails? {
          failedPoints := failedPoints + |points|;
          failedFlushes := failedFlushes + 1;
          return false;
        }
        var stored := GroupStored(db, buffer, series);
        var affected := |stored| - |db|;
        db := stored;
        if calls[i].outcome.CountUnread? {
          return false;
        }
        inserted := inserted + affected;
      }
      flushes := flushes + 1;
      return true;
    }

    /** Failed or not, the buffer is empty afterwards. */
    method FlushBuffer(calls: seq<Call>)
      requires CanFlush(View(), calls)
      modifies `db, `inserted, `flushes, `failedPoints, `failedFlushes, `buffer, `total, `attempts, `pending
      ensures View() == Flush(old(View()), calls)
    {
      hide FlushCalls, Known, CallsFor;
      if total == 0 {
        return;
      }
      var ok := FlushGroups(calls);
      ClearBuffer();
    }

    method ClearBuffer()
      modifies `buffer, `total, `attempts, `pending
      ensures buffer == map[] && total == 0 && attempts == old(attempts) + [old(pending)] && pending == []
    {
      buffer, total := map[], 0;
      attempts, pending := attempts + [pending], [];
    }

    /**
     The send of a producer that found room in the queue: the point is last in the queue,
     within its bound, and next in what its producer sent; nobody else's history moves.
     */
    method SendPoint(point: Point, ghost id: Id)
      requires config.batchSize > 0 && Good(config, View())
      requires Enabled(config, View(), Send(id)) && point == producers[id].rest[0]
      modifies `queue, `producers, `sent
      ensures Good(config, View()) && View() == Next(config, old(View()), Send(id))
      ensures queue == old(queue) + [point] && |queue| <= config.queueSize
      ensures SentBy(sent, id) == old(SentBy(sent, id)) + [point]
      ensures id in inputs && SentBy(sent, id) <= inputs[id]
      ensures forall x :: x != id ==> SentBy(sent, x) == old(SentBy(sent, x))
    {
      hide Good, SentBy;
      StepKeepsGood(config, View(), Send(id));
      SentMore(sent, id, point);
      queue := queue + [point];
      producers := producers[id := Producer(producers[id].rest[1..], true)];
      sent := sent + [(id, point)];
      SentIsInput(config, View(), id);
    }

    /**
     The producer counts the point it has sent; other steps may have come in between, so
     the counter lags behind what was sent by the points not counted yet.
     */
    method CountPoint(ghost id: Id)
      requires config.batchSize > 0 && Good(config, View()) && Enabled(config, View(), Count(id))
      modifies `producers, `enqueued
      ensures Good(config, View()) && View() == Next(config, old(View()), Count(id))
      ensures enqueued == old(enqueued) + 1 && enqueued + |Uncounted(producers)| == |sent|
    {
      hide Good;
      StepKeepsGood(config, View(), Count(id));
      enqueued := enqueued + 1;
      producers := producers[id := producers[id].(uncounted := false)];
      SentAreCounted(config, View());
    }

    method TakePoint()
      requires queue != []
      modifies `queue, `buffer, `total, `received, `pending
      ensures View() == Taken(old(View()))
    {
      hide Append;
      ghost var t := Taken(View());
      var point := queue[0];
      buffer := Append(buffer, point);
      queue := queue[1..];
      total := total + 1;
      received, pending := received + [point], pending + [point];
      assert queue == t.queue && buffer == t.buffer && received == t.received && pending == t.pending;
    }

    /**
     The loop takes the first point of the queue.  Short of a batch it is pending last and
     the table is as it was; a full batch, of exactly the batch size, is tried at once.
     */
    method ReceivePoint(calls: seq<Call>)
      requires config.batchSize > 0 && Good(config, View()) && Enabled(config, View(), Receive(calls))
      modifies `queue, `buffer, `total, `received, `pending, `attempts, `db, `inserted, `flushes, `failedPoints, `failedFlushes
      ensures Good(config, View()) && View() == Next(config, old(View()), Receive(calls))
      ensures old(queue) == [old(queue)[0]] + queue && received == old(received) + [old(queue)[0]]
      ensures var batch := old(pending) + [old(queue)[0]];
              if |batch| < config.batchSize
              then pending == batch && db == old(db) && CountersNow() == old(CountersNow()) && attempts == old(attempts)
              else |batch| == config.batchSize && BatchTried(old(View()), View(), batch)
    {
      hide Flush, CanFlush, Taken, BatchTried, Good, Grouped;
      ghost var before := View();
      StepKeepsGood(config, before, Receive(calls));
      TakenBatch(config, before);
      TakePoint();
      if total >= config.batchSize {
        FlushTries(View(), calls);
        TriedFrom(before, View(), Flush(View(), calls), View().pending);
        FlushBuffer(calls);
      }
    }

    /** A tick with nothing pending changes nothing; otherwise what is pending is tried. */
    method TickerFires(calls: seq<Call>)
      requires config.batchSize > 0 && Good(config, View()) && Enabled(config, View(), Tick(calls))
      modifies `db, `inserted, `flushes, `failedPoints, `failedFlushes, `buffer, `total, `attempts, `pending
      ensures Good(config, View()) && View() == Next(config, old(View()), Tick(calls))
      ensures if old(pending) == [] then View() == old(View()) else BatchTried(old(View()), View(), old(pending))
    {
      hide Flush, CanFlush, BatchTried, Grouped;
      StepKeepsGood(config, View(), Tick(calls));
      if pending != [] {
        FlushTries(View(), calls);
      } else {
        NothingToFlush(View(), calls);
      }
      FlushBuffer(calls);
    }

    /**
     Cancelled: one last flush, and the loop ends.  The context of the flush is the cancelled
     one, so what was pending leaves the buffer without getting a row.
     */
    method StopRun(calls: seq<Call>)
      requires config.batchSize > 0 && Good(config, View()) && Enabled(config, View(), Stop(calls))
      modifies `db, `inserted, `flushes, `failedPoints, `failedFlushes, `buffer, `total, `attempts, `pending, `running
      ensures Good(config, View()) && View() == Next(config, old(View()), Stop(calls))
      ensures !running && pending == [] && buffer == map[]
      ensures attempts == old(attempts) + if old(pending) == [] then [] else [old(pending)]
      ensures db == old(db) && inserted == old(inserted) && flushes == old(flushes)
    {
      hide Flush, CanFlush, BatchTried, Good, Grouped;
      StepKeepsGood(config, View(), Stop(calls));
      LastFlush(config, View(), calls);
      FlushBuffer(calls);
      running := false;
    }
  }

  lemma SentIsInput(config: Config, s: State, id: Id)
    requires Good(config, s) && id in s.producers
    ensures id in s.inputs && SentBy(s.sent, id) <= s.inputs[id] && |s.queue| <= config.queueSize
  {}

  lemma SentAreCounted(config: Config, s: State)
    requires Good(config, s)
    ensures s.enqueued + |Uncounted(s.producers)| == |s.sent|
  {}

  lemma TakenBatch(config: Config, s: State)
    requires Good(config, s) && s.queue != []
    ensures var t := Taken(s);
            && t.pending == s.pending + [s.queue[0]] && t.total == |t.pending| <= config.batchSize && t.buffer == Grouped(t.pending)
            && t.queue == s.queue[1..] && t.received == s.received + [s.queue[0]] && t.cancelled == s.cancelled
            && t.db == s.db && t.counters == s.counters && t.attempts == s.attempts
  {
    TakenKeeps(config, s);
  }

  lemma TriedFrom(s: State, taken: State, t: State, batch: seq<Point>)
    requires BatchTried(taken, t, batch)
    requires taken.db == s.db && taken.counters == s.counters && taken.attempts == s.attempts && taken.cancelled == s.cancelled
    ensures BatchTried(s, t, batch)
  {
    hide InsertAll;
  }

  lemma NothingToFlush(s: State, calls: seq<Call>)
    requires s.total == 0 && CanFlush(s, calls)
    ensures Flush(s, calls) == s
  {}

  lemma LastFlush(config: Config, s: State, calls: seq<Call>)
    requires Good(config, s) && s.cancelled && CanFlush(s, calls)
    ensures var t := Flush(s, calls);
            && NothingStored(s, t) && t.pending == [] && t.buffer == map[]
            && t.attempts == s.attempts + if s.pending == [] then [] else [s.pending]
  {
    assert Grouped([]) == map[];
    hide FlushCalls, Known, CallsFor, Refused, Grouped, TableOk, ExactSoFar, ProducersOk, NothingLost;
    CancelledFlush(s, calls);
  }
}
