/**
 Splitting a closed query range into the whole UTC days (or hours) that are read
 from a rollup table and the raw fringes on either side.
 */
module RangeSplit {
  import opened Calendar

  datatype TimeRange = TimeRange(start: Instant, stop: Instant)

  datatype RollupRange = NoRollup | Rollup(range: TimeRange)

  /** How many of the ranges contain t. */
  function RawCount(raw: seq<TimeRange>, t: Instant): nat {
    if raw == [] then 0
    else (if raw[0].start <= t <= raw[0].stop then 1 else 0) + RawCount(raw[1..], t)
  }

  /** The rollup range names whole buckets by their starts; t is covered when the bucket it lies in is named. */
  function RollupCount(rollup: RollupRange, grain: int, t: Instant): nat
    requires grain > 0
  {
    if rollup.Rollup? && rollup.range.start <= t - t % grain <= rollup.range.stop then 1 else 0
  }

  /** Every instant of [start, end] is read exactly once, no other instant is read, and every bucket is whole. */
  ghost predicate Partitions(start: Instant, end: Instant, grain: int, rollup: RollupRange, raw: seq<TimeRange>)
    requires grain > 0
  {
    && (forall t: Instant ::
          RawCount(raw, t) + RollupCount(rollup, grain, t) == if start <= t <= end then 1 else 0)
    && (rollup.Rollup? ==> rollup.range.start % grain == 0 && rollup.range.stop % grain == 0)
    && (forall b: Instant :: b % grain == 0 && RollupCount(rollup, grain, b) == 1
          ==> start <= b && b + grain - 1 <= end)
  }

  /** No bucket that fits in [start, end] is left to the raw ranges. */
  ghost predicate UsesEveryBucket(start: Instant, end: Instant, grain: int, rollup: RollupRange)
    requires grain > 0
  {
    forall b: Instant :: b % grain == 0 && start <= b && b + grain - 1 <= end ==> RollupCount(rollup, grain, b) == 1
  }

  method SplitDailyRollupRanges(start: Instant, end: Instant) returns (rollup: RollupRange, raw: seq<TimeRange>)
    ensures Partitions(start, end, DAY, rollup, raw)
    ensures UsesEveryBucket(start, end, DAY, rollup)
  {
    hide Partitions, UsesEveryBucket, Fits, Midnight, DateOf;
    if end < start {
      NothingToSplit(start, end, DAY);
      return NoRollup, [];
    }

    var firstFullDay := Midnight(DateOf(DayNumber(start)));
    MidnightOf(start);
    if firstFullDay < start {
      firstFullDay := firstFullDay + DAY;
    }

    var lastFullDay := Midnight(DateOf(DayNumber(end)));
    MidnightOf(end);
    if lastFullDay + DAY > end + 1 {
      lastFullDay := lastFullDay - DAY;
    }

    Ends(start, end, DAY, firstFullDay, lastFullDay);
    if lastFullDay < firstFullDay {
      NoWholeBucket(start, end, DAY, firstFullDay, lastFullDay);
      return NoRollup, [TimeRange(start, end)];
    }

    raw := [];
    if start < firstFullDay {
      raw := raw + [TimeRange(start, firstFullDay - 1)];
    }
    var rightStart := lastFullDay + DAY;
    if rightStart < end || rightStart == end {
      raw := raw + [TimeRange(rightStart, end)];
    }
    rollup := Rollup(TimeRange(firstFullDay, lastFullDay));
    FringesAndBuckets(start, end, DAY, firstFullDay, lastFullDay, raw);
  }

  method SplitHourlyRollupRanges(start: Instant, end: Instant) returns (rollup: RollupRange, raw: seq<TimeRange>)
    ensures Partitions(start, end, HOUR, rollup, raw)
    ensures UsesEveryBucket(start, end, HOUR, rollup)
  {
    hide Partitions, UsesEveryBucket, Fits, Midnight, DateOf;
    if end < start {
      NothingToSplit(start, end, HOUR);
      return NoRollup, [];
    }

    var firstFullHour := start - start % HOUR;
    if firstFullHour < start {
      firstFullHour := firstFullHour + HOUR;
    }

    var lastFullHour := end - end % HOUR;
    if lastFullHour + HOUR > end + 1 {
      lastFullHour := lastFullHour - HOUR;
    }

    Ends(start, end, HOUR, firstFullHour, lastFullHour);
    if lastFullHour < firstFullHour {
      NoWholeBucket(start, end, HOUR, firstFullHour, lastFullHour);
      return NoRollup, [TimeRange(start, end)];
    }

    raw := [];
    if start < firstFullHour {
      raw := raw + [TimeRange(start, firstFullHour - 1)];
    }
    var rightStart := lastFullHour + HOUR;
    if rightStart < end || rightStart == end {
      raw := raw + [TimeRange(rightStart, end)];
    }
    rollup := Rollup(TimeRange(firstFullHour, lastFullHour));
    FringesAndBuckets(start, end, HOUR, firstFullHour, lastFullHour, raw);
  }

  // ----- lemmas shared by the two splits

  lemma MidnightOf(t: Instant)
    ensures Midnight(DateOf(DayNumber(t))) == t - t % DAY
  {
    hide DateOf, DayNumberOf;
    DateOfDay(DayNumber(t));
  }

  lemma OneRange(r: TimeRange, t: Instant)
    ensures RawCount([r], t) == if r.start <= t <= r.stop then 1 else 0
  {}

  lemma TwoRanges(r: TimeRange, s: TimeRange, t: Instant)
    ensures RawCount([r, s], t)
         == (if r.start <= t <= r.stop then 1 else 0) + (if s.start <= t <= s.stop then 1 else 0)
  {
    assert [r, s][1..] == [s];
    OneRange(s, t);
  }

  lemma NothingToSplit(start: Instant, end: Instant, grain: int)
    requires end < start && grain > 0
    ensures Partitions(start, end, grain, NoRollup, [])
    ensures UsesEveryBucket(start, end, grain, NoRollup)
  {}

  /** first is the least multiple of grain from start on, and last + grain the greatest not after end + 1. */
  ghost predicate Fits(start: Instant, end: Instant, grain: int, first: Instant, last: Instant)
    requires grain > 0
  {
    first % grain == 0 && last % grain == 0
    && start <= first < start + grain && last + grain <= end + 1 < last + 2 * grain
  }

  lemma Ends(start: Instant, end: Instant, grain: int, first: Instant, last: Instant)
    requires grain > 0
    requires first == start - start % grain + if start % grain > 0 then grain else 0
    requires var floor := end - end % grain; last == if floor + grain > end + 1 then floor - grain else floor
    ensures Fits(start, end, grain, first, last)
  {
    StepIsFloor(start, grain);
    StepIsFloor(end, grain);
    NextMultiple(start - start % grain, grain);
    NextMultiple(end - end % grain, grain);
  }

  lemma NextMultiple(x: int, grain: int)
    requires grain > 0 && x % grain == 0
    ensures (x + grain) % grain == 0 && (x - grain) % grain == 0
  {
    var q := x / grain;
    assert x == q * grain;
    Quotient(q + 1, grain, 0);
    Quotient(q - 1, grain, 0);
    assert (q + 1) * grain == x + grain && (q - 1) * grain == x - grain;
  }

  /** Multiples of grain are at least grain apart. */
  lemma Gap(a: int, b: int, grain: int)
    requires grain > 0 && a % grain == 0 && b % grain == 0 && a < b
    ensures a + grain <= b
  {
    var q, k := a / grain, b / grain;
    assert a == q * grain && b == k * grain;
    if k <= q {
      ScaleUp(k, q, grain);
    }
    ScaleUp(q + 1, k, grain);
    assert (q + 1) * grain == a + grain;
  }

  lemma NoWholeBucket(start: Instant, end: Instant, grain: int, first: Instant, last: Instant)
    requires grain > 0 && start <= end && Fits(start, end, grain, first, last) && last < first
    ensures Partitions(start, end, grain, NoRollup, [TimeRange(start, end)])
    ensures UsesEveryBucket(start, end, grain, NoRollup)
  {
    forall t: Instant ensures RawCount([TimeRange(start, end)], t) == if start <= t <= end then 1 else 0 {
      OneRange(TimeRange(start, end), t);
    }
    forall b: Instant | b % grain == 0 && start <= b && b + grain - 1 <= end ensures false {
      BucketFits(start, end, grain, first, last, b);
    }
  }

  /** A bucket lies within [start, end] just when it starts within [first, last]. */
  lemma BucketFits(start: Instant, end: Instant, grain: int, first: Instant, last: Instant, b: Instant)
    requires grain > 0 && Fits(start, end, grain, first, last) && b % grain == 0
    ensures start <= b && b + grain - 1 <= end <==> first <= b <= last
  {
    if b < first {
      Gap(b, first, grain);
    }
    if last < b {
      Gap(last, b, grain);
    }
  }

  lemma FringesAndBuckets(start: Instant, end: Instant, grain: int, first: Instant, last: Instant, raw: seq<TimeRange>)
    requires grain > 0 && start <= end && Fits(start, end, grain, first, last) && first <= last
    requires raw == (if start < first then [TimeRange(start, first - 1)] else [])
                  + (if last + grain <= end then [TimeRange(last + grain, end)] else [])
    ensures Partitions(start, end, grain, Rollup(TimeRange(first, last)), raw)
    ensures UsesEveryBucket(start, end, grain, Rollup(TimeRange(first, last)))
  {
    var rollup := Rollup(TimeRange(first, last));
    forall t: Instant
      ensures RawCount(raw, t) + RollupCount(rollup, grain, t) == if start <= t <= end then 1 else 0
    {
      FringeCount(start, end, grain, first, last, raw, t);
      BucketOfInstant(first, last, grain, t);
    }
    forall b: Instant | b % grain == 0
      ensures RollupCount(rollup, grain, b) == 1 <==> start <= b && b + grain - 1 <= end
    {
      BucketFits(start, end, grain, first, last, b);
    }
  }

  lemma FringeCount(start: Instant, end: Instant, grain: int, first: Instant, last: Instant, raw: seq<TimeRange>, t: Instant)
    requires grain > 0 && start <= first <= last && last + grain <= end + 1
    requires raw == (if start < first then [TimeRange(start, first - 1)] else [])
                  + (if last + grain <= end then [TimeRange(last + grain, end)] else [])
    ensures RawCount(raw, t) == if start <= t < first || last + grain <= t <= end then 1 else 0
  {
    var left, right := TimeRange(start, first - 1), TimeRange(last + grain, end);
    OneRange(left, t);
    OneRange(right, t);
    TwoRanges(left, right, t);
    assert raw == [] || raw == [left] || raw == [right] || raw == [left, right];
  }

  lemma BucketOfInstant(first: Instant, last: Instant, grain: int, t: Instant)
    requires grain > 0 && first % grain == 0 && last % grain == 0
    ensures first <= t - t % grain <= last <==> first <= t < last + grain
  {
    StepIsFloor(t, grain);
    var b := t - t % grain;
    if last < b {
      Gap(last, b, grain);
    }
  }
}
