/**
 The daily table day by day: which statements spoil a day, which repair it, and
 what stays right of a spoilt day.
 */
module DayRollups {
  import opened Calendar
  import opened Summaries
  import opened RollupTables
  import opened Overcounts

  ghost function RightDay(db: Database, d: Key): Summary {
    Lookup(RollUp(db.points, Truncation(Day)), d)
  }

  ghost predicate DayExact(db: Database, d: Key) {
    Lookup(db.daily, d) == RightDay(db, d)
  }

  /** The row of the day is missing exactly if the day has no samples, its bounds are right and its count is not too low. */
  ghost predicate DayAtLeast(db: Database, d: Key) {
    AtLeast(Lookup(db.daily, d), RightDay(db, d))
  }

  predicate UpdatesHourOf(db: Database, rows: Table, d: Key) {
    exists q :: q in rows && BucketOf(q, Truncation(Day)) == d && BucketOf(q, Truncation(Hour)) in db.hourly
  }

  predicate OpensHourOf(db: Database, rows: Table, d: Key) {
    exists q :: q in rows && BucketOf(q, Truncation(Day)) == d && BucketOf(q, Truncation(Hour)) !in db.hourly
  }

  predicate RemovesFrom(db: Database, keys: set<Key>, d: Key) {
    exists q :: q in db.points && q in keys && BucketOf(q, Truncation(Day)) == d
  }

  lemma UpdatesIff(db: Database, rows: Table, d: Key)
    ensures d in DaysOf(TouchedHours(db, rows)) <==> UpdatesHourOf(db, rows, d)
  {
    hide Truncation;
    if UpdatesHourOf(db, rows, d) {
      var q :| q in rows && BucketOf(q, Truncation(Day)) == d && BucketOf(q, Truncation(Hour)) in db.hourly;
      DayOfHour(q);
      assert BucketOf(q, Truncation(Hour)) in TouchedHours(db, rows);
    }
    if d in DaysOf(TouchedHours(db, rows)) {
      var h :| h in TouchedHours(db, rows) && BucketOf(h, Truncation(Day)) == d;
      var q :| q in rows && BucketOf(q, Truncation(Hour)) == h;
      DayOfHour(q);
    }
  }

  lemma NewHoursOf(db: Database, rows: Table, d: Key)
    ensures d in Buckets(RowsOfNewHours(db, rows), Truncation(Day)) <==> OpensHourOf(db, rows, d)
  {
    hide Truncation;
    if OpensHourOf(db, rows, d) {
      var q :| q in rows && BucketOf(q, Truncation(Day)) == d && BucketOf(q, Truncation(Hour)) !in db.hourly;
      assert BucketOf(q, Truncation(Hour)) in Buckets(rows, Truncation(Hour));
      assert q in RowsOfNewHours(db, rows);
    }
  }

  /** What is added to a day. */
  lemma OpensIff(db: Database, rows: Table, d: Key)
    requires AllSound(rows)
    ensures var n := Lookup(RollUp(RowsOfNewHours(db, rows), Truncation(Day)), d);
            (n.Nothing? <==> !OpensHourOf(db, rows, d)) && (n.Nothing? || n.Sound())
  {
    hide Truncation, Summary.Sound, OpensHourOf;
    NewHoursOf(db, rows, d);
    var newRows := RowsOfNewHours(db, rows);
    RollUpSound(newRows, Truncation(Day));
    hide RollUp;
    IsSomething(RollUp(newRows, Truncation(Day)), d);
  }

  lemma IsSomething(t: Table, k: Key)
    requires AllSound(t)
    ensures if k in t then Lookup(t, k).Sound() && Lookup(t, k).Stats? else Lookup(t, k) == Nothing
  {}

  lemma RemovesIff(db: Database, keys: set<Key>, d: Key)
    ensures d in DaysOf(AffectedHours(db, keys)) <==> RemovesFrom(db, keys, d)
  {
    hide Truncation;
    if RemovesFrom(db, keys, d) {
      var q :| q in db.points && q in keys && BucketOf(q, Truncation(Day)) == d;
      DayOfHour(q);
      assert q in Removed(db, keys);
    }
    if d in DaysOf(AffectedHours(db, keys)) {
      var h :| h in AffectedHours(db, keys) && BucketOf(h, Truncation(Day)) == d;
      var q :| q in Removed(db, keys) && BucketOf(q, Truncation(Hour)) == h;
      DayOfHour(q);
    }
  }

  /**
   An insert makes a day right if it updates one of its hours and opens none, wrong if it
   does both, and leaves it as it is otherwise; bounds stay right, and counts never fall short.
   */
  lemma InsertDayIff(db: Database, rows: Table, d: Key)
    requires db.HourlyExact() && db.points.Keys !! rows.Keys && AllSound(rows) && DayAtLeast(db, d)
    ensures DayAtLeast(InsertRows(db, rows), d)
    ensures DayExact(InsertRows(db, rows), d)
       <==> if UpdatesHourOf(db, rows, d) then !OpensHourOf(db, rows, d) else DayExact(db, d)
  {
    hide RollUp, Lookup, Merge, InsertRows, UpdatesHourOf, OpensHourOf, AtLeast, RowsOfNewHours, TouchedHours, Summary.Sound, Truncation;
    var n := Lookup(RollUp(RowsOfNewHours(db, rows), Truncation(Day)), d);
    InsertAddsPoints(db, rows);
    InsertedDay(db, rows, d);
    UpdatesIff(db, rows, d);
    OpensIff(db, rows, d);
    if UpdatesHourOf(db, rows, d) {
      TotalWithNewHours(db, rows, d);
      RepeatedPart(Lookup(RollUp((db.points + rows) - RowsOfNewHours(db, rows).Keys, Truncation(Day)), d), n);
    } else {
      UntouchedTotal(db, rows, d);
      SameAtLeast(n);
      MergeAtLeast(Lookup(db.daily, d), RightDay(db, d), n, n);
    }
  }

  lemma TotalWithNewHours(db: Database, rows: Table, d: Key)
    ensures Lookup(RollUp(db.points + rows, Truncation(Day)), d)
         == Merge(Lookup(RollUp((db.points + rows) - RowsOfNewHours(db, rows).Keys, Truncation(Day)), d),
                  Lookup(RollUp(RowsOfNewHours(db, rows), Truncation(Day)), d))
  {
    hide RollUp, Lookup, Merge, Truncation;
    var newRows := RowsOfNewHours(db, rows);
    var rest := (db.points + rows) - newRows.Keys;
    assert rest + newRows == db.points + rows;
    RollUpUnionAt(rest, newRows, Truncation(Day), d);
  }

  lemma SameAtLeast(a: Summary)
    ensures AtLeast(a, a)
  {}

  /** A delete makes the days right that it removes samples from, and leaves the others as they are. */
  lemma DeleteDayIff(db: Database, keys: set<Key>, d: Key)
    requires db.HourlyExact() && AllSound(db.points) && DayAtLeast(db, d)
    ensures DayAtLeast(DeleteRows(db, keys), d)
    ensures DayExact(DeleteRows(db, keys), d) <==> RemovesFrom(db, keys, d) || DayExact(db, d)
  {
    hide RollUp, Lookup, RefreshDays, AddHours, SummarisedAgain, AffectedHours, Summary.Sound, AtLeast, RemovesFrom, Truncation;
    DeleteKeepsHourly(db, keys);
    DeletedDay(db, keys, d);
    RemovesIff(db, keys, d);
    if RemovesFrom(db, keys, d) {
      SameAtLeast(Lookup(RollUp(db.points - keys, Truncation(Day)), d));
    } else {
      KeptDay(db, keys, d);
    }
  }

  // ----- whole runs

  /** Whether a day is right after a statement, given whether it was before. */
  predicate RightAfter(db: Database, st: Statement, d: Key, right: bool) {
    match st
    case Insert(_, _) =>
      var rows := Added(db, st);
      if UpdatesHourOf(db, rows, d) then !OpensHourOf(db, rows, d) else right
    case Delete(keys) => right || RemovesFrom(db, keys, d)
  }

  /** The last statement that updated an hour of the day or deleted from it decides. */
  ghost predicate EndsRight(db: Database, sts: seq<Statement>, d: Key, right: bool)
    decreases |sts|
  {
    if sts == [] then right else EndsRight(Execute(db, sts[0]), sts[1..], d, RightAfter(db, sts[0], d, right))
  }

  lemma ExecuteDayIff(db: Database, st: Statement, d: Key)
    requires db.HourlyExact() && AllSound(db.points) && (st.Insert? ==> AllSound(st.rows)) && DayAtLeast(db, d)
    ensures DayAtLeast(Execute(db, st), d)
    ensures DayExact(Execute(db, st), d) <==> RightAfter(db, st, d, DayExact(db, d))
  {
    hide InsertRows, DeleteRows, Added, DayExact, DayAtLeast, UpdatesHourOf, OpensHourOf, RemovesFrom, Database.HourlyExact;
    match st
    case Insert(_, _) => AddedRows(db, st); InsertDayIff(db, Added(db, st), d);
    case Delete(keys) => DeleteDayIff(db, keys, d);
  }

  /** After any run a day is right exactly as EndsRight says, and otherwise counts too much. */
  lemma {:induction false} RunDayIff(db: Database, sts: seq<Statement>, d: Key)
    requires db.HourlyExact() && AllSound(db.points) && SoundRows(sts) && DayAtLeast(db, d)
    ensures DayAtLeast(Run(db, sts), d)
    ensures DayExact(Run(db, sts), d) <==> EndsRight(db, sts, d, DayExact(db, d))
    decreases |sts|
  {
    hide Execute, DayExact, DayAtLeast, RightAfter, Database.HourlyExact;
    if sts != [] {
      ExecuteKeepsPoints(db, sts[0]);
      ExecuteKeepsHourly(db, sts[0]);
      ExecuteDayIff(db, sts[0], d);
      assert SoundRows(sts[1..]);
      RunDayIff(Execute(db, sts[0]), sts[1..], d);
    }
  }

  lemma {:induction false} RunKeepsSound(db: Database, sts: seq<Statement>)
    requires Sound(db) && SoundRows(sts)
    ensures Sound(Run(db, sts))
    decreases |sts|
  {
    if sts != [] {
      hide Execute, Sound;
      ExecuteSound(db, sts[0]);
      assert SoundRows(sts[1..]);
      RunKeepsSound(Execute(db, sts[0]), sts[1..]);
    }
  }

  lemma ExecuteSound(db: Database, st: Statement)
    requires Sound(db) && (st.Insert? ==> AllSound(st.rows))
    ensures Sound(Execute(db, st))
  {
    hide InsertRows, DeleteRows, Added, AllSound;
    match st
    case Insert(_, _) => RowsAreSound(db, st); InsertSound(db, Added(db, st));
    case Delete(keys) => DeleteSound(db, keys);
  }

  lemma RowsAreSound(db: Database, st: Statement)
    requires st.Insert? && AllSound(st.rows)
    ensures AllSound(Added(db, st))
  {
    AddedRows(db, st);
  }

  /** The daily table as a whole: a row for every day with samples and for no other, each at least the right one. */
  lemma RunDaily(sts: seq<Statement>)
    requires SoundRows(sts)
    ensures AllAtLeast(Run(EMPTY, sts).daily, RollUp(Run(EMPTY, sts).points, Truncation(Day)))
  {
    hide RollUp, Execute, AllAtLeast;
    EmptyIsExact();
    ExactSound(EMPTY);
    RunKeepsSound(EMPTY, sts);
    var db := Run(EMPTY, sts);
    RollUpSound(db.points, Truncation(Day));
    forall d ensures AtLeast(Lookup(db.daily, d), RightDay(db, d)) {
      SameAtLeast(RightDay(EMPTY, d));
      RunDayIff(EMPTY, sts, d);
    }
    TablesAtLeast(db.daily, RollUp(db.points, Truncation(Day)));
  }

  lemma TablesAtLeast(t: Table, u: Table)
    requires AllSound(t) && AllSound(u) && forall k :: AtLeast(Lookup(t, k), Lookup(u, k))
    ensures AllAtLeast(t, u)
  {
    forall k ensures (k in t <==> k in u) && (k in t ==> AtLeast(t[k], u[k])) {
      assert AtLeast(Lookup(t, k), Lookup(u, k));
    }
  }

  // ----- a day that is spoilt and repaired

  /** One sample at the start of an hour, and a batch with another of that hour and the first of the next one. */
  const FIRST: Statement := Insert(map[Key(1, 0) := Single(1.0)], false)
  const BATCH: Statement := Insert(map[Key(1, 1) := Single(1.0), Key(1, HOUR) := Single(1.0)], false)

  /** Any sample more in either of the two hours. */
  const REPAIR: Statement := Insert(map[Key(1, 2) := Single(1.0)], false)

  const DAY_ONE: Key := Key(1, 0)

  const SAMPLES: Table := map[Key(1, 0) := Single(1.0), Key(1, 1) := Single(1.0), Key(1, HOUR) := Single(1.0)]

  lemma {:induction false} TotalOfOnes<K>(m: map<K, Summary>)
    requires forall k :: k in m ==> m[k] == Single(1.0)
    ensures Total(m) == if m.Keys == {} then Nothing else Stats(|m|, |m| as real, 1.0, 1.0)
    decreases |m|
  {
    if m.Keys != {} {
      var k :| k in m.Keys;
      TotalRemove(m, k);
      var rest := m - {k};
      assert rest.Keys == m.Keys - {k};
      assert |rest| == |rest.Keys| && |m| == |m.Keys|;
      TotalOfOnes(rest);
    }
  }

  lemma OnesOnOneDay(t: Table, d: Key)
    requires t.Keys != {} && forall q :: q in t ==> BucketOf(q, Truncation(Day)) == d && t[q] == Single(1.0)
    ensures Lookup(RollUp(t, Truncation(Day)), d) == Stats(|t|, |t| as real, 1.0, 1.0)
  {
    hide Truncation;
    RollUpAt(t, Truncation(Day), d);
    assert Group(t, Truncation(Day), d) == t;
    TotalOfOnes(t);
  }

  /** The hours and the day of the samples used. */
  lemma FirstHours(ts: Instant)
    requires 0 <= ts <= HOUR
    ensures BucketOf(Key(1, ts), Truncation(Day)) == DAY_ONE
    ensures BucketOf(Key(1, ts), Truncation(Hour)) == Key(1, if ts == HOUR then HOUR else 0)
  {
    hide DateOf, DayNumberOf, TruncateByMinuteStep, TruncateWeek, Quo;
    assert Truncate(Day, 0) == 0 by { MidnightIsDay(); }
    ConstantOnDay(Day, 0, ts);
  }

  lemma MidnightIsDay()
    ensures Truncate(Day, 0) == 0
  {
    hide DateOf, DayNumberOf;
    ThroughDay(Day, 0);
  }

  lemma AfterFirst()
    ensures var db := Run(EMPTY, [FIRST]);
            && db == InsertRows(EMPTY, FIRST.rows)
            && db.points == FIRST.rows && db.hourly.Keys == {Key(1, 0)} && db.HourlyExact()
  {
    hide Truncation, RollUp, RefreshDays, AddHours;
    assert Added(EMPTY, FIRST) == FIRST.rows;
    assert [FIRST][1..] == [];
    FirstHours(0);
    EmptyIsExact();
    InsertKeepsHourly(EMPTY, FIRST.rows);
    assert Buckets(FIRST.rows, Truncation(Hour)) == {Key(1, 0)};
  }

  lemma {:induction false} RunMore(db: Database, sts: seq<Statement>, st: Statement)
    ensures Run(db, sts + [st]) == Execute(Run(db, sts), st)
    decreases |sts|
  {
    hide Execute;
    if sts == [] {
      assert [st][1..] == [];
    } else {
      assert (sts + [st])[1..] == sts[1..] + [st];
      RunMore(Execute(db, sts[0]), sts[1..], st);
    }
  }

  lemma AfterBatch(db: Database)
    requires db.points == FIRST.rows && db.hourly.Keys == {Key(1, 0)} && db.HourlyExact()
    ensures Execute(db, BATCH) == InsertRows(db, BATCH.rows) && db.points.Keys !! BATCH.rows.Keys
    ensures RowsOfNewHours(db, BATCH.rows) == map[Key(1, HOUR) := Single(1.0)]
    ensures DAY_ONE in DaysOf(TouchedHours(db, BATCH.rows))
    ensures InsertRows(db, BATCH.rows).points == SAMPLES
    ensures InsertRows(db, BATCH.rows).hourly.Keys == {Key(1, 0), Key(1, HOUR)} && InsertRows(db, BATCH.rows).HourlyExact()
  {
    hide Truncation, RollUp, RefreshDays, AddHours;
    FirstHours(0);
    FirstHours(1);
    FirstHours(HOUR);
    assert db.points + BATCH.rows == SAMPLES;
    assert Added(db, BATCH) == BATCH.rows;
    assert Buckets(BATCH.rows, Truncation(Hour)) == {Key(1, 0), Key(1, HOUR)} by {
      assert Key(1, 1) in BATCH.rows && Key(1, HOUR) in BATCH.rows;
    }
    assert Key(1, 0) in TouchedHours(db, BATCH.rows);
    InsertKeepsHourly(db, BATCH.rows);
  }

  lemma AfterRepair(db: Database)
    requires db.points == SAMPLES && db.hourly.Keys == {Key(1, 0), Key(1, HOUR)} && db.HourlyExact()
    requires DayAtLeast(db, DAY_ONE)
    ensures DayExact(Execute(db, REPAIR), DAY_ONE)
  {
    hide Truncation, InsertRows, DayExact, DayAtLeast;
    FirstHours(2);
    assert Added(db, REPAIR) == REPAIR.rows;
    assert Key(1, 2) in REPAIR.rows;
    assert UpdatesHourOf(db, REPAIR.rows, DAY_ONE) && !OpensHourOf(db, REPAIR.rows, DAY_ONE);
    InsertDayIff(db, REPAIR.rows, DAY_ONE);
  }

  lemma SummaryOfSamples()
    ensures Lookup(RollUp(SAMPLES, Truncation(Day)), DAY_ONE) == Stats(3, 3.0, 1.0, 1.0)
    ensures Lookup(RollUp(map[Key(1, HOUR) := Single(1.0)], Truncation(Day)), DAY_ONE) == Single(1.0)
  {
    hide Truncation, RollUp, Lookup;
    FirstHours(0);
    FirstHours(1);
    FirstHours(HOUR);
    assert Key(1, 0) in SAMPLES && |SAMPLES| == 3;
    OnesOnOneDay(SAMPLES, DAY_ONE);
    OnesOnOneDay(map[Key(1, HOUR) := Single(1.0)], DAY_ONE);
  }

  lemma BatchDay(db: Database)
    requires db.points == FIRST.rows && db.hourly.Keys == {Key(1, 0)} && db.HourlyExact()
    ensures Execute(db, BATCH).points == SAMPLES && Execute(db, BATCH).HourlyExact()
    ensures Execute(db, BATCH).hourly.Keys == {Key(1, 0), Key(1, HOUR)}
    ensures RightDay(Execute(db, BATCH), DAY_ONE) == Stats(3, 3.0, 1.0, 1.0)
    ensures Lookup(Execute(db, BATCH).daily, DAY_ONE) == Stats(4, 4.0, 1.0, 1.0)
  {
    hide Truncation, RollUp, InsertRows, Execute, RowsOfNewHours, TouchedHours, DaysOf, Lookup, Database.HourlyExact;
    AfterBatch(db);
    SummaryOfSamples();
    InsertAddsPoints(db, BATCH.rows);
    InsertedDay(db, BATCH.rows, DAY_ONE);
  }

  /** The day after the batch: four samples where there are three, until another statement repairs it. */
  lemma BatchCountedTwice()
    ensures Run(EMPTY, [FIRST, BATCH]).points == SAMPLES
    ensures RightDay(Run(EMPTY, [FIRST, BATCH]), DAY_ONE) == Stats(3, 3.0, 1.0, 1.0)
    ensures Lookup(Run(EMPTY, [FIRST, BATCH]).daily, DAY_ONE) == Stats(4, 4.0, 1.0, 1.0)
    ensures DayExact(Run(EMPTY, [FIRST, BATCH, REPAIR]), DAY_ONE)
  {
    hide InsertRows, Execute, Run, RightDay, DayExact, Lookup, Database.HourlyExact;
    AfterFirst();
    BatchDay(Run(EMPTY, [FIRST]));
    assert [FIRST] + [BATCH] == [FIRST, BATCH] && [FIRST, BATCH] + [REPAIR] == [FIRST, BATCH, REPAIR];
    RunMore(EMPTY, [FIRST], BATCH);
    RunMore(EMPTY, [FIRST, BATCH], REPAIR);
    AfterRepair(Run(EMPTY, [FIRST, BATCH]));
  }
}
