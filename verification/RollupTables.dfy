/**
 The sample table and the hourly and daily rollup tables that the database
 triggers maintain beside it.  A table maps (series, instant) to a summary; the
 samples themselves are summaries of one value.
 */
module RollupTables {
  import opened Calendar
  import opened Summaries

  function Truncation(p: Precision): Instant -> Instant {
    t => Truncate(p, t)
  }

  datatype Database = Database(points: Table, hourly: Table, daily: Table) {

    ghost predicate HourlyExact() {
      hourly == RollUp(points, Truncation(Hour))
    }

    ghost predicate DailyExact() {
      daily == RollUp(points, Truncation(Day))
    }

    ghost predicate Exact() {
      HourlyExact() && DailyExact()
    }
  }

  const EMPTY := Database(map[], map[], map[])

  function DaysOf(keys: set<Key>): set<Key> {
    set k | k in keys :: BucketOf(k, Truncation(Day))
  }

  // ----- triggers on the hourly table

  /** Drops the days of the given hours and summarises those days again from the hourly table. */
  ghost function RefreshDays(daily: Table, hourly: Table, hours: set<Key>): Table {
    (daily - DaysOf(hours))
    + map d | d in DaysOf(hours) * Buckets(hourly, Truncation(Day)) :: Total(Group(hourly, Truncation(Day), d))
  }

  /** Adds the newly inserted hours to the days they belong to. */
  ghost function AddHours(daily: Table, inserted: Table): Table {
    MergeTables(daily, RollUp(inserted, Truncation(Day)))
  }

  // ----- statements on the sample table, with the triggers they fire

  /** The rows in hours that the hourly table does not have yet. */
  function RowsOfNewHours(db: Database, rows: Table): Table {
    Restrict(rows, Truncation(Hour), Buckets(rows, Truncation(Hour)) - db.hourly.Keys)
  }

  function TouchedHours(db: Database, rows: Table): set<Key> {
    Buckets(rows, Truncation(Hour)) * db.hourly.Keys
  }

  /**
   An insert upserts the hourly table in one statement.  The statement-level update
   trigger of an upsert runs before its insert trigger.
   */
  ghost function InsertRows(db: Database, rows: Table): Database {
    var hourly := MergeTables(db.hourly, RollUp(rows, Truncation(Hour)));
    var inserted := hourly - db.hourly.Keys;
    var refreshed := RefreshDays(db.daily, hourly, TouchedHours(db, rows));
    Database(db.points + rows, hourly, AddHours(refreshed, inserted))
  }

  function Removed(db: Database, keys: set<Key>): Table {
    map q | q in db.points && q in keys :: db.points[q]
  }

  function AffectedHours(db: Database, keys: set<Key>): set<Key> {
    Buckets(Removed(db, keys), Truncation(Hour))
  }

  /** The affected hours, summarised from the samples that remain in them. */
  ghost function SummarisedAgain(db: Database, keys: set<Key>): Table {
    RollUp(Restrict(db.points - keys, Truncation(Hour), AffectedHours(db, keys)), Truncation(Hour))
  }

  /** A delete drops the affected hours and then inserts them again from the samples that remain. */
  ghost function DeleteRows(db: Database, keys: set<Key>): Database {
    var hours := AffectedHours(db, keys);
    var kept := db.hourly - hours;
    var refreshed := RefreshDays(db.daily, kept, hours * db.hourly.Keys);
    Database(db.points - keys, kept + SummarisedAgain(db, keys), AddHours(refreshed, SummarisedAgain(db, keys)))
  }

  datatype Statement = Insert(rows: Table, ignoreConflicts: bool) | Delete(keys: set<Key>)

  /** The rows an insert adds: all or none of them, or with ON CONFLICT DO NOTHING those that are new. */
  function Added(db: Database, st: Statement): Table
    requires st.Insert?
  {
    if st.ignoreConflicts then st.rows - db.points.Keys
    else if st.rows.Keys * db.points.Keys != {} then map[]
    else st.rows
  }

  ghost function Execute(db: Database, st: Statement): Database {
    match st
    case Insert(_, _) => InsertRows(db, Added(db, st))
    case Delete(keys) => DeleteRows(db, keys)
  }

  ghost function Run(db: Database, sts: seq<Statement>): Database
    decreases |sts|
  {
    if sts == [] then db else Run(Execute(db, sts[0]), sts[1..])
  }

  // ----- what the triggers keep

  lemma DaysThroughHours(t: Table)
    ensures RollUp(RollUp(t, Truncation(Hour)), Truncation(Day)) == RollUp(t, Truncation(Day))
  {
    forall q | q in t ensures Truncation(Day)(Truncation(Hour)(q.ts)) == Truncation(Day)(q.ts) {
      ThroughHour(Day, q.ts);
    }
    RollUpCompose(t, Truncation(Hour), Truncation(Day));
  }

  lemma DayOfHour(q: Key)
    ensures BucketOf(BucketOf(q, Truncation(Hour)), Truncation(Day)) == BucketOf(q, Truncation(Day))
  {
    ThroughHour(Day, q.ts);
  }

  /**
   The samples after a statement, key by key: an insert that ignores conflicts leaves the sample that
   is there, any other insert with a conflict is refused and changes nothing at all.
   */
  lemma PointsAfter(db: Database, st: Statement, k: Key)
    ensures Lookup(Execute(db, st).points, k)
         == if st.Delete? then (if k in st.keys then Nothing else Lookup(db.points, k))
            else if k in db.points then db.points[k]
            else if !st.ignoreConflicts && exists q :: q in st.rows && q in db.points then Nothing
            else Lookup(st.rows, k)
    ensures st.Insert? && !st.ignoreConflicts && (exists q :: q in st.rows && q in db.points) ==> Execute(db, st) == db
  {
    hide RollUp, RefreshDays, AddHours;
    if st.Insert? && !st.ignoreConflicts {
      if q :| q in st.rows && q in db.points {
        assert q in st.rows.Keys * db.points.Keys;
        NothingInserted(db);
      }
    }
  }

  lemma NothingInserted(db: Database)
    ensures InsertRows(db, map[]) == db
  {
    assert Buckets(map[], Truncation(Hour)) == {} == Buckets(map[], Truncation(Day));
    assert RollUp(map[], Truncation(Hour)) == map[] == RollUp(map[], Truncation(Day));
    assert TouchedHours(db, map[]) == {} && DaysOf({}) == {};
    NothingMerged(db.hourly);
    NothingMerged(db.daily);
    assert db.points + map[] == db.points;
    assert RefreshDays(db.daily, db.hourly, {}) == db.daily;
    assert db.hourly - db.hourly.Keys == map[];
  }

  lemma NothingMerged(t: Table)
    ensures MergeTables(t, map[]) == t
  {
    forall k | k in t ensures Merge(Lookup(t, k), Nothing) == t[k] {}
  }

  lemma InsertKeepsHourly(db: Database, rows: Table)
    requires db.HourlyExact() && db.points.Keys !! rows.Keys
    ensures InsertRows(db, rows).HourlyExact()
  {
    RollUpUnion(db.points, rows, Truncation(Hour));
  }

  lemma RefreshedDay(daily: Table, hourly: Table, hours: set<Key>, d: Key)
    ensures Lookup(RefreshDays(daily, hourly, hours), d)
         == if d in DaysOf(hours) then Lookup(RollUp(hourly, Truncation(Day)), d) else Lookup(daily, d)
  {}

  /** What the daily table counts twice: the new hours of days in which some other hour was updated. */
  function CountedTwice(db: Database, rows: Table): Table {
    Restrict(RowsOfNewHours(db, rows), Truncation(Day), DaysOf(TouchedHours(db, rows)))
  }

  lemma UntouchedDay(db: Database, rows: Table, d: Key)
    requires d !in DaysOf(TouchedHours(db, rows))
    ensures Group(rows, Truncation(Day), d) == Group(RowsOfNewHours(db, rows), Truncation(Day), d)
  {
    forall q | q in rows && BucketOf(q, Truncation(Day)) == d ensures q in RowsOfNewHours(db, rows) {
      DayOfHour(q);
      var h := BucketOf(q, Truncation(Hour));
      assert h in Buckets(rows, Truncation(Hour));
      if h in db.hourly {
        assert h in TouchedHours(db, rows);
      }
    }
  }

  /** Days are compared by what falls into the new hours and into all others. */
  lemma UntouchedTotal(db: Database, rows: Table, d: Key)
    requires db.points.Keys !! rows.Keys && d !in DaysOf(TouchedHours(db, rows))
    ensures Lookup(RollUp(db.points + rows, Truncation(Day)), d)
         == Merge(Lookup(RollUp(db.points, Truncation(Day)), d), Lookup(RollUp(RowsOfNewHours(db, rows), Truncation(Day)), d))
  {
    hide RollUp, Lookup, Merge, Truncation, TouchedHours, Restrict;
    RollUpUnionAt(db.points, rows, Truncation(Day), d);
    UntouchedDay(db, rows, d);
    SameGroup(rows, RowsOfNewHours(db, rows), Truncation(Day), d);
  }

  /** Whatever the daily table was: the days of updated hours are summarised again, and the new hours are added to them and to all others. */
  lemma InsertedDay(db: Database, rows: Table, d: Key)
    requires db.HourlyExact() && db.points.Keys !! rows.Keys
    ensures Lookup(InsertRows(db, rows).daily, d)
         == Merge(if d in DaysOf(TouchedHours(db, rows)) then Lookup(RollUp(db.points + rows, Truncation(Day)), d)
                  else Lookup(db.daily, d),
                  Lookup(RollUp(RowsOfNewHours(db, rows), Truncation(Day)), d))
  {
    hide RollUp, Lookup, Merge, Truncation, TouchedHours, Restrict;
    var g := Truncation(Day);
    var hourly := InsertRows(db, rows).hourly;
    var touched, newRows := TouchedHours(db, rows), RowsOfNewHours(db, rows);
    InsertKeepsHourly(db, rows);
    DaysThroughHours(db.points + rows);
    NewBuckets(db.hourly, rows, Truncation(Hour));
    DaysThroughHours(newRows);
    RefreshedDay(db.daily, hourly, touched, d);
    MergeTablesAt(RefreshDays(db.daily, hourly, touched), RollUp(newRows, g), d);
  }

  lemma InsertedIntoExactDay(db: Database, rows: Table, d: Key)
    requires db.Exact() && db.points.Keys !! rows.Keys
    ensures Lookup(InsertRows(db, rows).daily, d)
         == Merge(Lookup(RollUp(db.points + rows, Truncation(Day)), d),
                  Lookup(RollUp(CountedTwice(db, rows), Truncation(Day)), d))
  {
    hide RollUp, Lookup, Merge, Truncation, TouchedHours, Restrict, InsertRows;
    InsertedDay(db, rows, d);
    RollUpOfRestrict(RowsOfNewHours(db, rows), Truncation(Day), DaysOf(TouchedHours(db, rows)), d);
    if d !in DaysOf(TouchedHours(db, rows)) {
      UntouchedTotal(db, rows, d);
      MergeNothing(Lookup(RollUp(db.points + rows, Truncation(Day)), d));
    }
  }

  lemma RefreshSound(daily: Table, hourly: Table, hours: set<Key>)
    requires AllSound(daily) && AllSound(hourly)
    ensures AllSound(RefreshDays(daily, hourly, hours))
  {
    RollUpSound(hourly, Truncation(Day));
    forall d | d in RefreshDays(daily, hourly, hours) ensures RefreshDays(daily, hourly, hours)[d].Sound() {
      RefreshedDay(daily, hourly, hours, d);
    }
  }

  lemma AddHoursSound(daily: Table, inserted: Table)
    requires AllSound(daily) && AllSound(inserted)
    ensures AllSound(AddHours(daily, inserted))
  {
    RollUpSound(inserted, Truncation(Day));
    MergeTablesSound(daily, RollUp(inserted, Truncation(Day)));
  }

  ghost predicate Sound(db: Database) {
    AllSound(db.points) && AllSound(db.hourly) && AllSound(db.daily)
  }

  lemma ExactSound(db: Database)
    requires db.Exact() && AllSound(db.points)
    ensures Sound(db)
  {
    RollUpSound(db.points, Truncation(Hour));
    RollUpSound(db.points, Truncation(Day));
  }

  lemma InsertSound(db: Database, rows: Table)
    requires Sound(db) && AllSound(rows)
    ensures Sound(InsertRows(db, rows))
  {
    hide RollUp, AddHours, RefreshDays, Summary.Sound;
    RollUpSound(rows, Truncation(Hour));
    var hourly := MergeTables(db.hourly, RollUp(rows, Truncation(Hour)));
    MergeTablesSound(db.hourly, RollUp(rows, Truncation(Hour)));
    RefreshSound(db.daily, hourly, TouchedHours(db, rows));
    AddHoursSound(RefreshDays(db.daily, hourly, TouchedHours(db, rows)), hourly - db.hourly.Keys);
  }

  /** After an insert the daily table is the exact one plus a second copy of CountedTwice. */
  lemma InsertIntoDaily(db: Database, rows: Table)
    requires db.Exact() && db.points.Keys !! rows.Keys && AllSound(db.points) && AllSound(rows)
    ensures InsertRows(db, rows).daily
         == MergeTables(RollUp(db.points + rows, Truncation(Day)), RollUp(CountedTwice(db, rows), Truncation(Day)))
  {
    hide RollUp, Lookup, CountedTwice, InsertRows;
    var exact, extra := RollUp(db.points + rows, Truncation(Day)), RollUp(CountedTwice(db, rows), Truncation(Day));
    forall d ensures Lookup(InsertRows(db, rows).daily, d) == Lookup(MergeTables(exact, extra), d) {
      InsertedIntoExactDay(db, rows, d);
      MergeTablesAt(exact, extra, d);
    }
    ExactSound(db);
    InsertSound(db, rows);
    RollUpSound(db.points + rows, Truncation(Day));
    CountedTwiceSound(db, rows);
    RollUpSound(CountedTwice(db, rows), Truncation(Day));
    MergeTablesSound(exact, extra);
    SameLookups(InsertRows(db, rows).daily, MergeTables(exact, extra));
  }

  /** True when some day gets a new hour while another of its hours is updated by the same statement. */
  predicate MixesHours(db: Database, rows: Table) {
    exists q, r | q in rows && r in rows ::
      && BucketOf(q, Truncation(Day)) == BucketOf(r, Truncation(Day))
      && BucketOf(q, Truncation(Hour)) in db.hourly
      && BucketOf(r, Truncation(Hour)) !in db.hourly
  }

  lemma CountedTwiceSound(db: Database, rows: Table)
    requires AllSound(rows)
    ensures AllSound(CountedTwice(db, rows))
  {}

  lemma MixesHoursIffCountedTwice(db: Database, rows: Table)
    ensures MixesHours(db, rows) <==> CountedTwice(db, rows).Keys != {}
  {
    var twice := CountedTwice(db, rows);
    if MixesHours(db, rows) {
      var q, r :| q in rows && r in rows
        && BucketOf(q, Truncation(Day)) == BucketOf(r, Truncation(Day))
        && BucketOf(q, Truncation(Hour)) in db.hourly && BucketOf(r, Truncation(Hour)) !in db.hourly;
      DayOfHour(q);
      assert BucketOf(q, Truncation(Hour)) in TouchedHours(db, rows);
      assert r in twice;
    }
    if r :| r in twice {
      var h :| h in TouchedHours(db, rows) && BucketOf(h, Truncation(Day)) == BucketOf(r, Truncation(Day));
      var q :| q in rows && BucketOf(q, Truncation(Hour)) == h;
      DayOfHour(q);
    }
  }

  lemma InsertAddsPoints(db: Database, rows: Table)
    ensures InsertRows(db, rows).points == db.points + rows
  {}

  /** An insert keeps both rollup tables exact if and only if it mixes no hours. */
  lemma InsertKeepsDailyIff(db: Database, rows: Table)
    requires db.Exact() && db.points.Keys !! rows.Keys && AllSound(db.points) && AllSound(rows)
    ensures InsertRows(db, rows).Exact() <==> !MixesHours(db, rows)
  {
    hide RollUp, CountedTwice, InsertRows, MixesHours, MergeTables, Summary.Sound, Lookup, Truncation;
    var g, twice := Truncation(Day), CountedTwice(db, rows);
    var exact := RollUp(db.points + rows, g);
    InsertKeepsHourly(db, rows);
    InsertIntoDaily(db, rows);
    MixesHoursIffCountedTwice(db, rows);
    CountedTwiceSound(db, rows);
    RollUpSound(twice, g);
    RollUpSound(db.points + rows, g);
    RollUpEmptyIff(twice, g);
    MergeTablesSameIff(exact, RollUp(twice, g));
    InsertAddsPoints(db, rows);
  }

  // ----- deletes

  lemma GroupWithoutRemoved(db: Database, keys: set<Key>, p: Precision, k: Key)
    requires k !in Buckets(Removed(db, keys), Truncation(p))
    ensures Group(db.points, Truncation(p), k) == Group(db.points - keys, Truncation(p), k)
  {
    forall q | q in db.points && BucketOf(q, Truncation(p)) == k ensures q !in keys {
      assert q in keys ==> q in Removed(db, keys);
    }
  }

  lemma UnaffectedBucket(db: Database, keys: set<Key>, p: Precision, k: Key)
    requires k !in Buckets(Removed(db, keys), Truncation(p))
    ensures Lookup(RollUp(db.points, Truncation(p)), k) == Lookup(RollUp(db.points - keys, Truncation(p)), k)
  {
    GroupWithoutRemoved(db, keys, p, k);
    SameGroup(db.points, db.points - keys, Truncation(p), k);
  }

  lemma SummarisedAgainAt(db: Database, keys: set<Key>, k: Key)
    ensures Lookup(SummarisedAgain(db, keys), k)
         == if k in AffectedHours(db, keys) then Lookup(RollUp(db.points - keys, Truncation(Hour)), k) else Nothing
  {
    RollUpOfRestrict(db.points - keys, Truncation(Hour), AffectedHours(db, keys), k);
  }

  lemma OnlyAffectedHours(db: Database, keys: set<Key>)
    ensures SummarisedAgain(db, keys).Keys <= AffectedHours(db, keys)
  {}

  lemma DeletedHour(db: Database, keys: set<Key>, k: Key)
    requires db.HourlyExact()
    ensures Lookup(DeleteRows(db, keys).hourly, k) == Lookup(RollUp(db.points - keys, Truncation(Hour)), k)
  {
    hide RollUp, Truncation, SummarisedAgain, RefreshDays, AddHours, Buckets;
    SummarisedAgainAt(db, keys, k);
    OnlyAffectedHours(db, keys);
    if k !in AffectedHours(db, keys) {
      UnaffectedBucket(db, keys, Hour, k);
    }
  }

  lemma AffectedHoursTabled(db: Database, keys: set<Key>)
    requires db.HourlyExact()
    ensures AffectedHours(db, keys) * db.hourly.Keys == AffectedHours(db, keys)
  {}

  lemma AffectedDays(db: Database, keys: set<Key>, d: Key)
    ensures d in Buckets(Removed(db, keys), Truncation(Day)) ==> d in DaysOf(AffectedHours(db, keys))
  {
    if d in Buckets(Removed(db, keys), Truncation(Day)) {
      var q :| q in Removed(db, keys) && BucketOf(q, Truncation(Day)) == d;
      DayOfHour(q);
    }
  }

  lemma NothingRolledUp(t: Table, hours: set<Key>, d: Key)
    requires t.Keys <= hours && d !in DaysOf(hours)
    ensures Lookup(RollUp(t, Truncation(Day)), d) == Nothing
  {}

  /** Whatever the daily table was: the days a delete removes samples from are right, and the others stay. */
  lemma DeletedDay(db: Database, keys: set<Key>, d: Key)
    requires db.HourlyExact() && DeleteRows(db, keys).HourlyExact()
    ensures Lookup(DeleteRows(db, keys).daily, d)
         == if d in DaysOf(AffectedHours(db, keys)) then Lookup(RollUp(db.points - keys, Truncation(Day)), d) else Lookup(db.daily, d)
  {
    hide RollUp, Truncation, Lookup, Merge, MergeTables, RefreshDays, SummarisedAgain, AffectedHours, Buckets;
    var g, hours, again := Truncation(Day), AffectedHours(db, keys), SummarisedAgain(db, keys);
    var kept := db.hourly - hours;
    OnlyAffectedHours(db, keys);
    AffectedHoursTabled(db, keys);
    RefreshedDay(db.daily, kept, hours, d);
    MergeTablesAt(RefreshDays(db.daily, kept, hours), RollUp(again, g), d);
    if d in DaysOf(hours) {
      RollUpUnionAt(kept, again, g, d);
      DaysThroughHours(db.points - keys);
    } else {
      NothingRolledUp(again, hours, d);
      MergeNothing(Lookup(db.daily, d));
    }
  }

  lemma KeptDay(db: Database, keys: set<Key>, d: Key)
    requires d !in DaysOf(AffectedHours(db, keys))
    ensures Lookup(RollUp(db.points, Truncation(Day)), d) == Lookup(RollUp(db.points - keys, Truncation(Day)), d)
  {
    hide RollUp, Truncation, Lookup, AffectedHours, Buckets;
    AffectedDays(db, keys, d);
    UnaffectedBucket(db, keys, Day, d);
  }

  lemma DeleteSound(db: Database, keys: set<Key>)
    requires Sound(db)
    ensures Sound(DeleteRows(db, keys))
  {
    hide RollUp, AddHours, RefreshDays, Summary.Sound, AffectedHours, Truncation;
    var hours := AffectedHours(db, keys);
    var kept := db.hourly - hours;
    RollUpSound(Restrict(db.points - keys, Truncation(Hour), hours), Truncation(Hour));
    RefreshSound(db.daily, kept, hours * db.hourly.Keys);
    AddHoursSound(RefreshDays(db.daily, kept, hours * db.hourly.Keys), SummarisedAgain(db, keys));
  }

  lemma DeleteKeepsHourly(db: Database, keys: set<Key>)
    requires db.HourlyExact() && AllSound(db.points)
    ensures DeleteRows(db, keys).HourlyExact()
  {
    hide RollUp, Lookup, RefreshDays, AddHours, AffectedHours, Summary.Sound, Truncation;
    var next, points := DeleteRows(db, keys), db.points - keys;
    RollUpSound(db.points, Truncation(Hour));
    RollUpSound(points, Truncation(Hour));
    RollUpSound(Restrict(points, Truncation(Hour), AffectedHours(db, keys)), Truncation(Hour));
    forall k ensures Lookup(next.hourly, k) == Lookup(RollUp(points, Truncation(Hour)), k) {
      DeletedHour(db, keys, k);
    }
    SameLookups(next.hourly, RollUp(points, Truncation(Hour)));
  }

  /** A delete keeps both rollup tables exact, whatever it removes. */
  lemma DeleteKeepsExact(db: Database, keys: set<Key>)
    requires db.Exact() && AllSound(db.points)
    ensures DeleteRows(db, keys).Exact()
  {
    hide RollUp, Lookup, RefreshDays, AddHours, SummarisedAgain, AffectedHours, Summary.Sound;
    var next, points := DeleteRows(db, keys), db.points - keys;
    ExactSound(db);
    DeleteSound(db, keys);
    DeleteKeepsHourly(db, keys);
    RollUpSound(points, Truncation(Day));
    forall d ensures Lookup(next.daily, d) == Lookup(RollUp(points, Truncation(Day)), d) {
      DeletedDay(db, keys, d);
      if d !in DaysOf(AffectedHours(db, keys)) { KeptDay(db, keys, d); }
    }
    SameLookups(next.daily, RollUp(points, Truncation(Day)));
  }

  // ----- whole runs

  ghost predicate SoundRows(sts: seq<Statement>) {
    forall i :: 0 <= i < |sts| && sts[i].Insert? ==> AllSound(sts[i].rows)
  }

  /** No insert of the run, as it is executed, opens an hour of a day in which it also updates another. */
  ghost predicate NeverMixes(db: Database, sts: seq<Statement>)
    decreases |sts|
  {
    sts == []
    || ((sts[0].Insert? ==> !MixesHours(db, Added(db, sts[0]))) && NeverMixes(Execute(db, sts[0]), sts[1..]))
  }

  ghost predicate AlwaysExact(db: Database, sts: seq<Statement>)
    decreases |sts|
  {
    db.Exact() && (sts != [] ==> AlwaysExact(Execute(db, sts[0]), sts[1..]))
  }

  lemma AddedRows(db: Database, st: Statement)
    requires st.Insert? && AllSound(st.rows)
    ensures AllSound(Added(db, st))
    ensures db.points.Keys !! Added(db, st).Keys
  {
    assert forall k :: k in st.rows && k in db.points ==> k in st.rows.Keys * db.points.Keys;
  }

  lemma ExecuteKeepsPoints(db: Database, st: Statement)
    requires AllSound(db.points) && (st.Insert? ==> AllSound(st.rows))
    ensures AllSound(Execute(db, st).points)
  {
    hide RollUp, RefreshDays, AddHours, SummarisedAgain, AffectedHours, MergeTables, Added;
    if st.Insert? {
      AddedRows(db, st);
    }
  }

  lemma ExecuteKeepsHourly(db: Database, st: Statement)
    requires db.HourlyExact() && AllSound(db.points) && (st.Insert? ==> AllSound(st.rows))
    ensures Execute(db, st).HourlyExact()
  {
    hide InsertRows, DeleteRows, Added, Database.HourlyExact;
    match st
    case Insert(_, _) => AddedRows(db, st); InsertKeepsHourly(db, Added(db, st));
    case Delete(keys) => DeleteKeepsHourly(db, keys);
  }

  /** In every reachable state the hourly table summarises exactly the samples, whatever was inserted or deleted. */
  lemma {:induction false} RunKeepsHourly(db: Database, sts: seq<Statement>)
    requires db.HourlyExact() && AllSound(db.points) && SoundRows(sts)
    ensures Run(db, sts).HourlyExact() && AllSound(Run(db, sts).points)
    decreases |sts|
  {
    hide Execute, Database.HourlyExact;
    if sts != [] {
      ExecuteKeepsPoints(db, sts[0]);
      ExecuteKeepsHourly(db, sts[0]);
      assert SoundRows(sts[1..]);
      RunKeepsHourly(Execute(db, sts[0]), sts[1..]);
    }
  }

  /** Both tables stay exact after every statement of a run if and only if no insert of the run mixes hours. */
  lemma {:induction false} AlwaysExactIff(db: Database, sts: seq<Statement>)
    requires db.Exact() && AllSound(db.points) && SoundRows(sts)
    ensures AlwaysExact(db, sts) <==> NeverMixes(db, sts)
    decreases |sts|
  {
    hide Database.Exact, InsertRows, DeleteRows, MixesHours, Added;
    if sts != [] {
      var st := sts[0];
      var next := Execute(db, st);
      ExecuteKeepsPoints(db, st);
      assert SoundRows(sts[1..]);
      match st {
        case Insert(_, _) => AddedRows(db, st); InsertKeepsDailyIff(db, Added(db, st));
        case Delete(keys) => DeleteKeepsExact(db, keys);
      }
      if next.Exact() {
        AlwaysExactIff(next, sts[1..]);
      }
    }
  }

  lemma EmptyIsExact()
    ensures EMPTY.Exact() && AllSound(EMPTY.points)
  {
    RollUpEmptyIff(map[], Truncation(Hour));
    RollUpEmptyIff(map[], Truncation(Day));
  }
}
