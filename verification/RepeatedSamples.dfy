/**
 The samples that the daily table counts twice: which they are after any run of
 statements, and that it is off by them and by nothing else.
 */
module RepeatedSamples {
  import opened Calendar
  import opened Summaries
  import opened RollupTables
  import opened DayRollups

  predicate SomeOf(part: Table, all: Table) {
    forall q :: q in part ==> q in all && part[q] == all[q]
  }

  /** The daily table is the right one with a second copy of these samples in it. */
  ghost predicate CountedAgain(db: Database, again: Table) {
    SomeOf(again, db.points) && db.daily == MergeTables(RollUp(db.points, Truncation(Day)), RollUp(again, Truncation(Day)))
  }

  function OutsideDays(t: Table, days: set<Key>): Table {
    map q | q in t && BucketOf(q, Truncation(Day)) !in days :: t[q]
  }

  /**
   What is counted again after a statement: on the days of hours it updates, the samples
   it put into hours it opened; on days it deletes from, nothing; on others, what was before.
   */
  ghost function AgainAfter(db: Database, st: Statement, again: Table): Table {
    match st
    case Insert(_, _) =>
      var rows := Added(db, st);
      OutsideDays(again, DaysOf(TouchedHours(db, rows))) + CountedTwice(db, rows)
    case Delete(keys) => OutsideDays(again, DaysOf(AffectedHours(db, keys)))
  }

  ghost function AgainOf(db: Database, sts: seq<Statement>, again: Table): Table
    decreases |sts|
  {
    if sts == [] then again else AgainOf(Execute(db, sts[0]), sts[1..], AgainAfter(db, sts[0], again))
  }

  // ----- day by day

  /** The statement updates an hour of the day, or deletes from it. */
  predicate Decides(db: Database, st: Statement, d: Key) {
    match st
    case Insert(_, _) => UpdatesHourOf(db, Added(db, st), d)
    case Delete(keys) => RemovesFrom(db, keys, d)
  }

  /** The samples of the day that a statement which decides it leaves counted twice. */
  ghost function LeftTwice(db: Database, st: Statement, d: Key): Table {
    match st
    case Insert(_, _) => Group(RowsOfNewHours(db, Added(db, st)), Truncation(Day), d)
    case Delete(_) => map[]
  }

  lemma AgainAt(db: Database, st: Statement, again: Table, d: Key)
    ensures Group(AgainAfter(db, st, again), Truncation(Day), d)
         == if Decides(db, st, d) then LeftTwice(db, st, d) else Group(again, Truncation(Day), d)
  {
    hide Truncation, RowsOfNewHours, TouchedHours, AffectedHours, DaysOf, UpdatesHourOf, RemovesFrom, Added;
    match st
    case Insert(_, _) => UpdatesIff(db, Added(db, st), d);
    case Delete(keys) => RemovesIff(db, keys, d);
  }

  /** The row of the day is the right one with a second copy of what is counted again. */
  ghost predicate DayIs(db: Database, again: Table, d: Key) {
    Lookup(db.daily, d) == Merge(RightDay(db, d), Total(Group(again, Truncation(Day), d)))
  }

  lemma MergeCommutes(a: Summary, b: Summary, c: Summary)
    ensures Merge(Merge(a, b), c) == Merge(Merge(a, c), b)
  {}

  lemma InsertDayIs(db: Database, st: Statement, again: Table, d: Key)
    requires st.Insert? && AllSound(st.rows) && db.HourlyExact() && DayIs(db, again, d)
    ensures DayIs(Execute(db, st), AgainAfter(db, st, again), d)
  {
    hide RollUp, Lookup, Merge, Total, Group, InsertRows, UpdatesHourOf, RowsOfNewHours, TouchedHours, Summary.Sound, Truncation, Added, DaysOf,
         Database.HourlyExact, AgainAfter, AllSound;
    var rows := Added(db, st);
    AddedRows(db, st);
    InsertAddsPoints(db, rows);
    InsertedDay(db, rows, d);
    UpdatesIff(db, rows, d);
    AgainAt(db, st, again, d);
    RollUpAt(RowsOfNewHours(db, rows), Truncation(Day), d);
    if !UpdatesHourOf(db, rows, d) {
      UntouchedTotal(db, rows, d);
      MergeCommutes(RightDay(db, d), Total(Group(again, Truncation(Day), d)), Lookup(RollUp(RowsOfNewHours(db, rows), Truncation(Day)), d));
    }
  }

  lemma DeleteDayIs(db: Database, st: Statement, again: Table, d: Key)
    requires st.Delete? && db.HourlyExact() && AllSound(db.points) && DayIs(db, again, d)
    ensures DayIs(Execute(db, st), AgainAfter(db, st, again), d)
  {
    assert Total<Key>(map[]) == Nothing;
    hide RollUp, Lookup, Merge, Total, Group, RemovesFrom, AffectedHours, Summary.Sound, Truncation, DaysOf, AgainAfter;
    var keys := st.keys;
    DeleteKeepsHourly(db, keys);
    DeletedDay(db, keys, d);
    RemovesIff(db, keys, d);
    AgainAt(db, st, again, d);
    if RemovesFrom(db, keys, d) {
      MergeNothing(Lookup(RollUp(db.points - keys, Truncation(Day)), d));
    } else {
      KeptDay(db, keys, d);
    }
  }

  // ----- the table as a whole

  lemma InsertKeepsSome(db: Database, st: Statement, again: Table)
    requires st.Insert? && AllSound(st.rows) && SomeOf(again, db.points)
    ensures SomeOf(AgainAfter(db, st, again), Execute(db, st).points)
  {
    AddedRows(db, st);
    InsertAddsPoints(db, Added(db, st));
    hide InsertRows, Added, Truncation, TouchedHours, DaysOf;
  }

  lemma DeleteKeepsSome(db: Database, st: Statement, again: Table)
    requires st.Delete? && SomeOf(again, db.points)
    ensures SomeOf(AgainAfter(db, st, again), Execute(db, st).points)
  {
    hide RollUp, RefreshDays, AddHours, SummarisedAgain, AffectedHours, DaysOf, Truncation;
    var left := AgainAfter(db, st, again);
    forall q | q in left ensures q !in st.keys {
      RemovesIff(db, st.keys, BucketOf(q, Truncation(Day)));
    }
  }

  lemma CountedOnDays(db: Database, again: Table, d: Key)
    requires CountedAgain(db, again)
    ensures DayIs(db, again, d)
  {
    hide RollUp, Total, Truncation, Lookup, Merge;
    MergeTablesAt(RollUp(db.points, Truncation(Day)), RollUp(again, Truncation(Day)), d);
    RollUpAt(again, Truncation(Day), d);
  }

  lemma CountedOnAllDays(db: Database, again: Table)
    requires Sound(db) && SomeOf(again, db.points) && forall d :: DayIs(db, again, d)
    ensures CountedAgain(db, again)
  {
    SomeAreSound(again, db.points);
    hide RollUp, Total, Truncation, Lookup, Merge, Summary.Sound;
    var right, twice := RollUp(db.points, Truncation(Day)), RollUp(again, Truncation(Day));
    RollUpSound(db.points, Truncation(Day));
    RollUpSound(again, Truncation(Day));
    MergeTablesSound(right, twice);
    forall d ensures Lookup(db.daily, d) == Lookup(MergeTables(right, twice), d) {
      assert DayIs(db, again, d);
      MergeTablesAt(right, twice, d);
      RollUpAt(again, Truncation(Day), d);
    }
    SameLookups(db.daily, MergeTables(right, twice));
  }

  lemma SomeAreSound(part: Table, all: Table)
    requires SomeOf(part, all) && AllSound(all)
    ensures AllSound(part)
  {}

  lemma ExecuteCountsAgain(db: Database, st: Statement, again: Table)
    requires Sound(db) && db.HourlyExact() && CountedAgain(db, again) && (st.Insert? ==> AllSound(st.rows))
    ensures CountedAgain(Execute(db, st), AgainAfter(db, st, again))
  {
    hide Execute, AgainAfter, DayIs, RollUp, MergeTables, SomeOf, AllSound, Database.HourlyExact;
    forall d ensures DayIs(Execute(db, st), AgainAfter(db, st, again), d) {
      CountedOnDays(db, again, d);
      if st.Insert? { InsertDayIs(db, st, again, d); } else { DeleteDayIs(db, st, again, d); }
    }
    if st.Insert? { InsertKeepsSome(db, st, again); } else { DeleteKeepsSome(db, st, again); }
    ExecuteSound(db, st);
    CountedOnAllDays(Execute(db, st), AgainAfter(db, st, again));
  }

  /** Over a whole run the daily table stays the right one with a second copy of the samples counted again. */
  lemma {:induction false} RunCountsAgain(db: Database, sts: seq<Statement>, again: Table)
    requires Sound(db) && db.HourlyExact() && CountedAgain(db, again) && SoundRows(sts)
    ensures CountedAgain(Run(db, sts), AgainOf(db, sts, again))
    decreases |sts|
  {
    if sts != [] {
      assert SoundRows(sts[1..]);
      SoundPoints(db);
      hide Execute, AgainAfter, CountedAgain, Sound, Database.HourlyExact;
      ExecuteCountsAgain(db, sts[0], again);
      ExecuteSound(db, sts[0]);
      ExecuteKeepsHourly(db, sts[0]);
      RunCountsAgain(Execute(db, sts[0]), sts[1..], AgainAfter(db, sts[0], again));
    }
  }

  lemma SoundPoints(db: Database)
    requires Sound(db)
    ensures AllSound(db.points)
  {}

  lemma EmptyCountsNothingAgain()
    ensures Sound(EMPTY) && EMPTY.HourlyExact() && CountedAgain(EMPTY, map[])
  {
    EmptyIsExact();
    ExactSound(EMPTY);
  }

  /** Which samples those are, from the run alone. */
  ghost function Again(sts: seq<Statement>): Table { AgainOf(EMPTY, sts, map[]) }

  /** How far off the daily table is after any run: by a second copy of the samples of Again, and by nothing else. */
  lemma ReachableCountsAgain(sts: seq<Statement>)
    requires SoundRows(sts)
    ensures CountedAgain(Run(EMPTY, sts), Again(sts))
  {
    EmptyCountsNothingAgain();
    RunCountsAgain(EMPTY, sts, map[]);
  }

  // ----- the last statement that decides a day

  lemma {:induction false} AgainInTwo(db: Database, first: seq<Statement>, rest: seq<Statement>, again: Table)
    ensures Run(db, first + rest) == Run(Run(db, first), rest)
    ensures AgainOf(db, first + rest, again) == AgainOf(Run(db, first), rest, AgainOf(db, first, again))
    decreases |first|
  {
    hide Execute, AgainAfter;
    if first == [] {
      assert first + rest == rest;
    } else {
      assert (first + rest)[1..] == first[1..] + rest;
      AgainInTwo(Execute(db, first[0]), first[1..], rest, AgainAfter(db, first[0], again));
    }
  }

  /** No statement updates an hour of the day or deletes from it. */
  ghost predicate NoneDecides(db: Database, sts: seq<Statement>, d: Key)
    decreases |sts|
  {
    sts == [] || (!Decides(db, sts[0], d) && NoneDecides(Execute(db, sts[0]), sts[1..], d))
  }

  lemma {:induction false} UndecidedStays(db: Database, sts: seq<Statement>, again: Table, d: Key)
    requires NoneDecides(db, sts, d)
    ensures Group(AgainOf(db, sts, again), Truncation(Day), d) == Group(again, Truncation(Day), d)
    decreases |sts|
  {
    if sts != [] {
      hide Execute, AgainAfter, Decides, Group, Truncation;
      AgainAt(db, sts[0], again, d);
      UndecidedStays(Execute(db, sts[0]), sts[1..], AgainAfter(db, sts[0], again), d);
    }
  }

  /**
   The row of a day after any run: the right one, and once more the samples of the day that
   the last statement to update one of its hours put into hours it opened.  After a
   delete from the day, or if no statement decided it, the row is right.
   */
  lemma LastDecides(before: seq<Statement>, st: Statement, after: seq<Statement>, d: Key)
    requires SoundRows(before + [st] + after)
    requires Decides(Run(EMPTY, before), st, d) && NoneDecides(Run(EMPTY, before + [st]), after, d)
    ensures var db := Run(EMPTY, before + [st] + after);
            Lookup(db.daily, d) == Merge(RightDay(db, d), Total(LeftTwice(Run(EMPTY, before), st, d)))
  {
    hide Execute, AgainAfter, Decides, NoneDecides, Group, Truncation, Lookup, Merge, Total, LeftTwice, RightDay, CountedAgain;
    ReachableCountsAgain(before + [st] + after);
    CountedOnDays(Run(EMPTY, before + [st] + after), Again(before + [st] + after), d);
    AgainInTwo(EMPTY, before + [st], after, map[]);
    AgainInTwo(EMPTY, before, [st], map[]);
    UndecidedStays(Run(EMPTY, before + [st]), after, Again(before + [st]), d);
    AgainOfOne(Run(EMPTY, before), st, Again(before));
    AgainAt(Run(EMPTY, before), st, Again(before), d);
  }

  lemma AgainOfOne(db: Database, st: Statement, again: Table)
    ensures AgainOf(db, [st], again) == AgainAfter(db, st, again)
  {
    hide Execute, AgainAfter;
    assert [st][1..] == [];
  }

  lemma NeverDecided(sts: seq<Statement>, d: Key)
    requires SoundRows(sts) && NoneDecides(EMPTY, sts, d)
    ensures DayExact(Run(EMPTY, sts), d)
  {
    assert Group(map[], Truncation(Day), d) == map[] && Total<Key>(map[]) == Nothing;
    hide Execute, NoneDecides, Group, Truncation, Lookup, Total, CountedAgain, Run, AgainOf;
    ReachableCountsAgain(sts);
    CountedOnDays(Run(EMPTY, sts), Again(sts), d);
    UndecidedStays(EMPTY, sts, map[], d);
    MergeNothing(RightDay(Run(EMPTY, sts), d));
  }
}
