/**
 Nothing gets stuck: from every state that a run reaches before it is cancelled, the
 run can go on until every point of every producer has been sent, received and flushed.
 */
module WriterProgress {
  import opened Summaries
  import opened Inserts
  import opened Flushes
  import opened WriterRuns
  import Order

  lemma {:induction false} SuccessfulCalls(groups: Groups) returns (calls: seq<Call>)
    ensures CallsFor(calls, groups) && AllStored(calls)
    decreases |groups|
  {
    if groups.Keys == {} {
      calls := [];
    } else {
      var s := Order.Element(groups.Keys);
      assert (groups - {s}).Keys == groups.Keys - {s};
      assert |groups - {s}| < |groups| by { assert |(groups - {s}).Keys| < |groups.Keys|; }
      var rest := SuccessfulCalls(groups - {s});
      calls := [Call(s, Stored)] + rest;
      OneMoreCall(groups, s, rest, calls);
    }
  }

  lemma OneMoreCall(groups: Groups, s: Series, rest: seq<Call>, calls: seq<Call>)
    requires s in groups && CallsFor(rest, groups - {s}) && AllStored(rest) && calls == [Call(s, Stored)] + rest
    ensures CallsFor(calls, groups) && AllStored(calls)
  {
    forall x | x in groups ensures exists i :: 0 <= i < |calls| && calls[i].series == x {
      if x == s {
        assert calls[0].series == x;
      } else {
        assert x in groups - {s};
        var i :| 0 <= i < |rest| && rest[i].series == x;
        assert calls[i + 1].series == x;
      }
    }
  }

  /** t comes from s without cancellation, new producers or failed flushes. */
  ghost predicate Undisturbed(s: State, t: State) {
    && t.running && !t.cancelled && t.inputs == s.inputs
    && t.counters.flushes - s.counters.flushes == |t.attempts| - |s.attempts|
  }

  lemma FlushGoesThrough(s: State) returns (calls: seq<Call>)
    requires s.total == |s.pending| && s.buffer == Grouped(s.pending) && s.running && !s.cancelled
    ensures CanFlush(s, calls)
    ensures var t := Flush(s, calls); t.pending == [] && t.queue == s.queue && t.producers == s.producers && Undisturbed(s, t)
  {
    calls := SuccessfulCalls(s.buffer);
    GroupsAreKnown(s.pending, calls);
    hide Grouped, CallsFor, Known, FlushCalls, AllStored;
    if s.total != 0 {
      FlushOkIff(s.db, s.counters, s.buffer, calls);
      FlushCounters(s.db, s.counters, s.buffer, calls);
    }
  }

  lemma ReceiveGoesThrough(config: Config, s: State) returns (e: Step)
    requires config.batchSize > 0 && Good(config, s) && s.running && !s.cancelled && s.queue != []
    ensures Enabled(config, s, e)
    ensures var t := Next(config, s, e); t.queue == s.queue[1..] && t.producers == s.producers && Undisturbed(s, t)
  {
    TakenKeeps(config, s);
    TakenIs(s);
    hide Good, Flush, CanFlush, Taken, Grouped, NothingLost, ProducersOk, TableOk, ExactSoFar;
    var calls := FlushGoesThrough(Taken(s));
    e := Receive(calls);
  }

  lemma TakenIs(s: State)
    requires s.queue != [] && s.running && !s.cancelled
    ensures var t := Taken(s);
            t.queue == s.queue[1..] && t.producers == s.producers && t.counters == s.counters && t.attempts == s.attempts && Undisturbed(s, t)
  {}

  lemma TickGoesThrough(config: Config, s: State) returns (e: Step)
    requires Good(config, s) && s.running && !s.cancelled
    ensures Enabled(config, s, e)
    ensures var t := Next(config, s, e); t.pending == [] && t.queue == s.queue && t.producers == s.producers && Undisturbed(s, t)
  {
    hide Flush, CanFlush, NothingLost, ProducersOk, TableOk, ExactSoFar;
    var calls := FlushGoesThrough(s);
    e := Tick(calls);
  }

  /** One producer that does not wait for the queue: it counts, sends or returns. */
  lemma ProducerGoesOn(config: Config, s: State, id: Id) returns (e: Step)
    requires config.queueSize > 0 && id in s.producers && s.queue == [] && s.running && !s.cancelled
    ensures Enabled(config, s, e)
    ensures var p, t := s.producers[id], Next(config, s, e);
            && Undisturbed(s, t)
            && if p.uncounted then t.producers == s.producers[id := p.(uncounted := false)] && t.queue == []
               else if p.rest != [] then t.producers == s.producers[id := Producer(p.rest[1..], true)]
               else t.producers == s.producers - {id} && t.queue == []
    ensures |Next(config, s, e).producers| <= |s.producers|
    ensures !s.producers[id].uncounted && s.producers[id].rest == [] ==> |Next(config, s, e).producers| < |s.producers|
  {
    FewerProducers(s.producers, id);
    SameNumber(s.producers, id, s.producers[id].(uncounted := false));
    if s.producers[id].rest != [] { SameNumber(s.producers, id, Producer(s.producers[id].rest[1..], true)); }
    e := if s.producers[id].uncounted then Count(id) else if s.producers[id].rest != [] then Send(id) else Return(id);
  }

  lemma FewerProducers(producers: map<Id, Producer>, id: Id)
    requires id in producers
    ensures |producers - {id}| < |producers|
  {
    assert (producers - {id}).Keys == producers.Keys - {id};
    assert |producers.Keys| == |producers| && |(producers - {id}).Keys| == |producers - {id}|;
  }

  lemma SameNumber(producers: map<Id, Producer>, id: Id, p: Producer)
    requires id in producers
    ensures |producers[id := p]| == |producers|
  {
    assert producers[id := p].Keys == producers.Keys;
    assert |producers[id := p].Keys| == |producers[id := p]| && |producers.Keys| == |producers|;
  }

  /** The loop first empties the queue, then the producers in turn send what they have left, and the last tick flushes the rest. */
  lemma {:induction false} Drain(config: Config, s: State, id: Id) returns (steps: seq<Step>)
    requires config.batchSize > 0 && config.queueSize > 0 && Good(config, s) && s.running && !s.cancelled
    requires s.producers.Keys != {} ==> id in s.producers
    ensures IsRun(config, s, steps)
    ensures var t := RunOf(config, s, steps); t.producers.Keys == {} && t.queue == [] && t.pending == [] && Undisturbed(s, t)
    decreases |s.producers|, if id in s.producers then |s.producers[id].rest| else 0, |s.queue|,
              id in s.producers && s.producers[id].uncounted, |s.pending|
  {
    hide Good, Enabled, Next;
    if s.queue == [] && s.producers.Keys == {} && s.pending == [] {
      steps := [];
      return;
    }
    var e, next := Cancel, id;
    if s.queue != [] {
      e := ReceiveGoesThrough(config, s);
    } else if s.producers.Keys != {} {
      e := ProducerGoesOn(config, s, id);
      if Next(config, s, e).producers.Keys != {} && id !in Next(config, s, e).producers {
        next := Order.Element(Next(config, s, e).producers.Keys);
      }
    } else {
      e := TickGoesThrough(config, s);
    }
    StepKeepsGood(config, s, e);
    var rest := Drain(config, Next(config, s, e), next);
    steps := [e] + rest;
    assert steps[1..] == rest;
  }

  /**
   Before it is cancelled a run can always be completed: all producers return, having sent all
   they were given, everything sent is flushed, and if no flush has failed so far the table has
   it all, in the order it was sent.
   */
  lemma NothingIsStuck(config: Config, steps: seq<Step>) returns (more: seq<Step>)
    requires config.batchSize > 0 && config.queueSize > 0 && IsRun(config, Initial(config), steps)
    requires RunOf(config, Initial(config), steps).running && !RunOf(config, Initial(config), steps).cancelled
    ensures var s := RunOf(config, Initial(config), steps);
            && IsRun(config, s, more)
            && var t := RunOf(config, s, more);
               && t.inputs == s.inputs && (forall id :: id in t.inputs ==> SentBy(t.sent, id) == t.inputs[id])
               && Points(t.sent) == Flat(t.attempts)
               && (s.counters.flushes == |s.attempts| ==> t.db == InsertAll(config.base, Points(t.sent)))
  {
    InitialIsGood(config);
    RunKeepsGood(config, Initial(config), steps);
    var s := RunOf(config, Initial(config), steps);
    hide *;
    var id := if s.producers.Keys != {} then Order.Element(s.producers.Keys) else 0;
    more := Drain(config, s, id);
    RunKeepsGood(config, s, more);
    AllThrough(config, s, RunOf(config, s, more));
  }

  lemma AllThrough(config: Config, s: State, t: State)
    requires Good(config, t) && t.producers.Keys == {} && t.queue == [] && t.pending == [] && Undisturbed(s, t)
    ensures forall id :: id in t.inputs ==> SentBy(t.sent, id) == t.inputs[id]
    ensures Points(t.sent) == Flat(t.attempts)
    ensures s.counters.flushes == |s.attempts| ==> t.db == InsertAll(config.base, Points(t.sent))
  {
    hide SentBy, Points, Flat, InsertAll, TableOk, BufferOk;
  }

  /** A cancelled loop can always end, by a flush whose first statement the database refuses or, alike, whose encoding fails. */
  lemma CancelledLoopEnds(config: Config, s: State, how: Outcome) returns (calls: seq<Call>)
    requires Good(config, s) && s.running && s.cancelled && (how.ExecFails? || how.MarshalFails?)
    ensures s.pending != [] ==> calls != [] && calls[0].outcome == how
    ensures Enabled(config, s, Stop(calls))
    ensures var t := Next(config, s, Stop(calls)); !t.running && t.pending == [] && t.db == s.db && t.queue == s.queue
  {
    calls := RefusedCalls(s.pending, how);
    hide NothingLost, ProducersOk, TableOk, ExactSoFar, FlushCalls, Grouped, CallsFor, Known;
    if s.total != 0 {
      RefusedStoresNothing(s.db, s.counters, s.buffer, calls);
    }
  }

  lemma RefusedCalls(pending: seq<Point>, how: Outcome) returns (calls: seq<Call>)
    requires how.ExecFails? || how.MarshalFails?
    ensures pending != [] ==> calls != [] && calls[0].outcome == how
    ensures CallsFor(calls, Grouped(pending)) && Known(calls, Grouped(pending))
  {
    calls := SuccessfulCalls(Grouped(pending));
    if pending != [] {
      assert pending[0].series in Grouped(pending);
      var others := calls[0 := Call(calls[0].series, how)];
      OtherOutcomes(calls, others, Grouped(pending));
      calls := others;
    }
    GroupsAreKnown(pending, calls);
  }

  lemma OtherOutcomes(calls: seq<Call>, others: seq<Call>, groups: Groups)
    requires CallsFor(calls, groups) && |calls| == |others| && forall i :: 0 <= i < |calls| ==> calls[i].series == others[i].series
    ensures CallsFor(others, groups)
  {
    forall s | s in groups ensures exists i :: 0 <= i < |others| && others[i].series == s {
      var i :| 0 <= i < |calls| && calls[i].series == s;
      assert others[i].series == s;
    }
  }
}
