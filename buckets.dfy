/**
 Hourly bucket mode: the window [start, endTime) is cut into contiguous
 one-hour buckets starting at `start`, each bucket is queried on its own,
 and every statistic of every bucket is appended, in bucket order, to one
 list. Nothing is merged across buckets.
 */
module Buckets {
  import opened UsageTypes

  /** `TimeUnit.HOURS.toMillis(1)`. */
  const Interval: int := 3_600_000

  /** The platform's per-bucket statistics for [from, to). */
  type BucketQuery = (int, int) -> seq<UsageStat>

  /** The starts of the buckets the loop visits from `t` on. */
  function BucketStarts(t: int, endTime: int): seq<int>
    decreases endTime - t
  {
    if t < endTime then [t] + BucketStarts(t + Interval, endTime) else []
  }

  /** The statistics of the buckets starting at `starts`, concatenated in
      bucket order. */
  function Gathered(starts: seq<int>, query: BucketQuery): seq<UsageStat> {
    if starts == [] then [] else query(starts[0], starts[0] + Interval) + Gathered(starts[1..], query)
  }

  /** There are ceil((endTime - start) / Interval) buckets, none when the
      window is empty. */
  lemma {:induction false} BucketCount(start: int, endTime: int)
    ensures |BucketStarts(start, endTime)| == if start < endTime then (endTime - start + Interval - 1) / Interval else 0
    decreases endTime - start
  {
    if start < endTime {
      BucketCount(start + Interval, endTime);
      if start + Interval < endTime {
        var d := endTime - start - 1;
        assert (d + Interval) / Interval == d / Interval + 1;
      }
    }
  }

  /** The k-th bucket starts k intervals after `start`, before `endTime`,
      and the last one reaches `endTime`. */
  lemma {:induction false} BucketStartAt(start: int, endTime: int, k: nat)
    requires k < |BucketStarts(start, endTime)|
    ensures BucketStarts(start, endTime)[k] == start + k * Interval
    ensures BucketStarts(start, endTime)[k] < endTime
    ensures k == |BucketStarts(start, endTime)| - 1 ==> BucketStarts(start, endTime)[k] + Interval >= endTime
    decreases endTime - start
  {
    if k > 0 {
      BucketStartAt(start + Interval, endTime, k - 1);
    }
  }

  /** The `while (t < endTime)` loop of getTodayUsage. */
  method CollectBuckets(start: int, endTime: int, query: BucketQuery) returns (hourly: seq<UsageStat>)
    ensures hourly == Gathered(BucketStarts(start, endTime), query)
  {
    hourly := [];
    var t := start;
    while t < endTime
      invariant hourly + Gathered(BucketStarts(t, endTime), query) == Gathered(BucketStarts(start, endTime), query)
      decreases endTime - t
    {
      var stats := query(t, t + Interval);
      hourly := hourly + stats;
      t := t + Interval;
    }
  }
}
