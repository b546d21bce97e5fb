/**
 The bucket table that the aggregate query loops fill, and the rows built from it.
 */
module BucketTables {
  import opened Wrappers
  import opened Calendar
  import opened Summaries
  import opened Aggregation
  import opened Order

  // ----- values and filters

  predicate InValidRange(v: real, le: Option<real>, ge: Option<real>) {
    if le.Some? && ge.Some? then
      if le.value >= ge.value then v >= ge.value && v <= le.value
      else v >= ge.value || v <= le.value
    else if le.Some? && v <= le.value then true
    else if ge.Some? && v >= ge.value then true
    else le.None? && ge.None?
  }

  datatype Bucket = Bucket(ts: Instant, count: int, sum: real, min: real, max: real) {
    function AsSummary(): Summary { Stats(count, sum, min, max) }
  }

  function AggregateBucketValue(b: Bucket, aggregate: Aggregate): QueryResult<real> {
    match aggregate
    case Avg => if b.count == 0 then Ok(0.0) else Ok(b.sum / b.count as real)
    case Min => Ok(b.min)
    case Max => Ok(b.max)
    case Count => Ok(b.count as real)
    case Sum => Ok(b.sum)
    case OtherAggregate(_) => Err(UnsupportedAggregate)
  }

  /** What a query does with each bucket; convert stands for the unit conversion, None for its failure. */
  datatype RowSpec = RowSpec(aggregate: Aggregate, le: Option<real>, ge: Option<real>, convert: real -> Option<real>)

  /** Neither filter nor conversion. */
  function PlainSpec(aggregate: Aggregate): RowSpec {
    RowSpec(aggregate, None, None, v => Some(v))
  }

  /** The row of one bucket, or none when its value is filtered out. */
  function BucketRow(b: Bucket, spec: RowSpec): QueryResult<seq<TsRow>> {
    match AggregateBucketValue(b, spec.aggregate)
    case Err(e) => Err(e)
    case Ok(value) =>
      match spec.convert(value)
      case None => Err(InvalidUnitConversion)
      case Some(f) => if InValidRange(f, spec.le, spec.ge) then Ok([TsRow(f, b.ts)]) else Ok([])
  }

  function BucketAt(t: Table, k: Key): Bucket
    requires k in t && t[k].Stats?
  {
    Bucket(k.ts, t[k].count, t[k].sum, t[k].min, t[k].max)
  }

  predicate AllStats(t: Table) {
    forall k :: k in t ==> t[k].Stats?
  }

  function InstantsOf(t: Table, s: Series): set<Instant> {
    set k | k in t && k.series == s :: k.ts
  }

  /** The rows of the buckets at the given instants, in that order, or the first error. */
  function RowsAt(t: Table, s: Series, ks: seq<Instant>, spec: RowSpec): QueryResult<seq<TsRow>>
    requires AllStats(t) && forall i :: 0 <= i < |ks| ==> Key(s, ks[i]) in t
  {
    if ks == [] then Ok([])
    else
      match RowsAt(t, s, ks[..|ks| - 1], spec)
      case Err(e) => Err(e)
      case Ok(rows) =>
        match BucketRow(BucketAt(t, Key(s, ks[|ks| - 1])), spec)
        case Err(e) => Err(e)
        case Ok(row) => Ok(rows + row)
  }

  /** The result of a series: one row per bucket of the table in increasing time, value filters applied. */
  ghost function SeriesRows(t: Table, s: Series, spec: RowSpec): QueryResult<seq<TsRow>>
    requires AllStats(t)
  {
    var ks := Ascending(InstantsOf(t, s));
    assert forall i :: 0 <= i < |ks| ==> ks[i] in ks;
    RowsAt(t, s, ks, spec)
  }

  // ----- the bucket table

  /** keys lists, once each, the instants at which a series has a bucket. */
  ghost predicate KeysListed(buckets: map<Key, Bucket>, keys: map<Series, seq<Instant>>) {
    && (forall s :: s in keys ==> keys[s] != [] && Distinct(keys[s]))
    && (forall k: Key :: k in buckets <==> k.series in keys && k.ts in keys[k.series])
  }

  lemma ListOneMore(buckets: map<Key, Bucket>, keys: map<Series, seq<Instant>>, key: Key, b: Bucket)
    requires KeysListed(buckets, keys) && key !in buckets
    ensures KeysListed(buckets[key := b], keys[key.series := (if key.series in keys then keys[key.series] else []) + [key.ts]])
  {
    var before := if key.series in keys then keys[key.series] else [];
    assert key.ts !in before;
    assert Distinct(before + [key.ts]);
  }

  lemma ListSame(a: map<Key, Bucket>, b: map<Key, Bucket>, keys: map<Series, seq<Instant>>)
    requires KeysListed(a, keys) && a.Keys == b.Keys
    ensures KeysListed(b, keys)
  {
    forall k: Key ensures k in b <==> k.series in keys && k.ts in keys[k.series] {
      assert k in a <==> k in b;
    }
  }

  ghost function ViewOf(buckets: map<Key, Bucket>): (t: Table)
    ensures AllStats(t)
  {
    map k | k in buckets :: buckets[k].AsSummary()
  }

  lemma ViewOfUpdate(buckets: map<Key, Bucket>, key: Key, b: Bucket, s: Summary)
    requires s.Stats? && b.AsSummary() == Merge(Lookup(ViewOf(buckets), key), s)
    ensures ViewOf(buckets[key := b]) == MergeTables(ViewOf(buckets), map[key := s])
  {
    hide Merge;
    var left, right := ViewOf(buckets[key := b]), MergeTables(ViewOf(buckets), map[key := s]);
    assert left.Keys == right.Keys;
    forall k | k in left ensures left[k] == right[k] {
      MergeTablesAt(ViewOf(buckets), map[key := s], k);
      if k != key {
        MergeNothing(Lookup(ViewOf(buckets), k));
      }
    }
  }

  lemma LookupInView(buckets: map<Key, Bucket>, key: Key)
    ensures Lookup(ViewOf(buckets), key) == if key in buckets then buckets[key].AsSummary() else Nothing
  {}

  lemma BucketsOfView(buckets: map<Key, Bucket>)
    requires forall k :: k in buckets ==> buckets[k].ts == k.ts
    ensures forall k :: k in buckets ==> k in ViewOf(buckets) && BucketAt(ViewOf(buckets), k) == buckets[k]
  {}

  /** Buckets per series and instant, with the instants of each series in order of first appearance. */
  class BucketTable {
    var buckets: map<Key, Bucket>
    var keys: map<Series, seq<Instant>>

    ghost predicate Valid()
      reads this
    {
      KeysListed(buckets, keys) && forall k :: k in buckets ==> buckets[k].ts == k.ts
    }

    ghost function View(): (t: Table)
      reads this
      ensures AllStats(t)
    {
      ViewOf(buckets)
    }

    constructor ()
      ensures Valid() && View() == map[]
    {
      buckets := map[];
      keys := map[];
    }

    method Accumulate(series: Series, ts: Instant, count: int, sum: real, min: real, max: real)
      requires Valid()
      modifies this
      ensures Valid()
      ensures View() == MergeTables(old(View()), map[Key(series, ts) := Stats(count, sum, min, max)])
    {
      var key := Key(series, ts);
      if key !in buckets {
        ListOneMore(buckets, keys, key, Bucket(ts, 0, 0.0, min, max));
      }
      LookupInView(buckets, key);
      hide MergeTables, ViewOf, KeysListed, Lookup;
      if key !in buckets {
        buckets := buckets[key := Bucket(ts, 0, 0.0, min, max)];
        keys := keys[series := (if series in keys then keys[series] else []) + [ts]];
      }
      var b := buckets[key];
      b := b.(count := b.count + count, sum := b.sum + sum);
      if min < b.min {
        b := b.(min := min);
      }
      if max > b.max {
        b := b.(max := max);
      }
      ListSame(buckets, buckets[key := b], keys);
      buckets := buckets[key := b];
      ViewOfUpdate(old(buckets), key, b, Stats(count, sum, min, max));
      assert buckets == old(buckets)[key := b];
    }

    method SortedKeys(series: Series) returns (ks: seq<Instant>)
      requires Valid()
      ensures ks == Ascending(InstantsOf(View(), series))
      ensures forall j :: 0 <= j < |ks| ==> Key(series, ks[j]) in buckets
    {
      hide KeysListed, InstantsOf, ViewOf;
      ks := [];
      if series in keys {
        DistinctKeys(series);
        ks := Sort(keys[series]);
      }
      SortedKeysOf(series, ks);
    }

    lemma DistinctKeys(series: Series)
      requires Valid() && series in keys
      ensures Distinct(keys[series])
    {}

    method BuildRows(series: Series, spec: RowSpec) returns (r: QueryResult<seq<TsRow>>)
      requires Valid()
      ensures r == SeriesRows(View(), series, spec)
    {
      ghost var t := View();
      InView();
      hide *;
      var ks := SortedKeys(series);
      RowsOfSeries(t, series, ks, spec);
      var rows := [];
      for i := 0 to |ks|
        invariant RowsAt(t, series, ks[..i], spec) == Ok(rows)
      {
        RowsAtNext(t, series, ks, i, spec);
        match BucketRow(buckets[Key(series, ks[i])], spec)
        case Err(e) =>
          RowsAtFails(t, series, ks, i + 1, spec);
          return Err(e);
        case Ok(row) =>
          rows := rows + row;
      }
      r := Ok(rows);
    }

    lemma InView()
      requires Valid()
      ensures forall k :: k in buckets ==> k in View() && BucketAt(View(), k) == buckets[k]
    {
      BucketsOfView(buckets);
    }

    lemma SortedKeysOf(series: Series, ks: seq<Instant>)
      requires Valid()
      requires ks == if series in keys then Ascending(set k | k in keys[series]) else []
      ensures ks == Ascending(InstantsOf(View(), series))
      ensures forall j :: 0 <= j < |ks| ==> Key(series, ks[j]) in buckets
    {
      assert forall j :: 0 <= j < |ks| ==> ks[j] in ks;
      var instants := InstantsOf(View(), series);
      if series in keys {
        forall ts ensures ts in keys[series] <==> ts in instants {
          if ts in keys[series] { assert Key(series, ts) in View(); }
          if ts in instants { assert Key(series, ts) in buckets; }
        }
        assert (set k | k in keys[series]) == instants;
      } else {
        assert instants == {};
      }
    }
  }

  lemma RowsOfSeries(t: Table, s: Series, ks: seq<Instant>, spec: RowSpec)
    requires AllStats(t) && ks == Ascending(InstantsOf(t, s))
    ensures forall i :: 0 <= i < |ks| ==> Key(s, ks[i]) in t
    ensures SeriesRows(t, s, spec) == RowsAt(t, s, ks, spec) && RowsAt(t, s, ks[..0], spec) == Ok([]) && ks[..|ks|] == ks
  {
    assert forall i :: 0 <= i < |ks| ==> ks[i] in ks;
  }

  lemma RowsAtNext(t: Table, s: Series, ks: seq<Instant>, i: nat, spec: RowSpec)
    requires AllStats(t) && i < |ks| && forall j :: 0 <= j < |ks| ==> Key(s, ks[j]) in t
    requires RowsAt(t, s, ks[..i], spec).Ok?
    ensures RowsAt(t, s, ks[..i + 1], spec)
         == match BucketRow(BucketAt(t, Key(s, ks[i])), spec)
            case Err(e) => Err(e)
            case Ok(row) => Ok(RowsAt(t, s, ks[..i], spec).value + row)
  {
    hide BucketRow;
    assert ks[..i + 1][..i] == ks[..i];
  }

  /** An error at one bucket is the result, whatever buckets follow. */
  lemma {:induction false} RowsAtFails(t: Table, s: Series, ks: seq<Instant>, n: nat, spec: RowSpec)
    requires AllStats(t) && forall i :: 0 <= i < |ks| ==> Key(s, ks[i]) in t
    requires n <= |ks| && RowsAt(t, s, ks[..n], spec).Err?
    ensures RowsAt(t, s, ks, spec) == RowsAt(t, s, ks[..n], spec)
    decreases |ks|
  {
    if n == |ks| {
      assert ks[..n] == ks;
    } else {
      assert ks[..|ks| - 1][..n] == ks[..n];
      RowsAtFails(t, s, ks[..|ks| - 1], n, spec);
    }
  }
}
