/**
 The two reporting functions of the native module: `getTodayUsageExact`,
 which rebuilds per-package foreground time from the event stream, and
 `getTodayUsage`, which concatenates hourly per-bucket statistics. The
 platform calls are parameters: the event stream, the window bounds, the
 per-bucket query and the label lookup.
 */
module Screentime {
  import opened UsageTypes
  import opened EventFold
  import opened EventFoldProperties
  import opened Report
  import opened Buckets

  /** The packages named by a sequence of statistics. */
  function PackagesOf(stats: seq<UsageStat>): set<string> {
    set i | 0 <= i < |stats| :: stats[i].packageName
  }

  /** No package is named twice. */
  ghost predicate DistinctPackages(stats: seq<UsageStat>) {
    forall i, j :: 0 <= i < j < |stats| ==> stats[i].packageName != stats[j].packageName
  }

  /** `total.entries`: one statistic per key of `total`, in the map's
      iteration order, which is not fixed. */
  method ListEntries(total: map<string, int>) returns (entries: seq<UsageStat>)
    ensures forall i :: 0 <= i < |entries| ==>
      entries[i].packageName in total && entries[i].foregroundMs == total[entries[i].packageName]
    ensures DistinctPackages(entries)
    ensures PackagesOf(entries) == total.Keys
  {
    entries := [];
    var todo := total.Keys;
    while todo != {}
      invariant todo <= total.Keys
      invariant forall i :: 0 <= i < |entries| ==>
        entries[i].packageName in total && entries[i].packageName !in todo
        && entries[i].foregroundMs == total[entries[i].packageName]
      invariant DistinctPackages(entries)
      invariant PackagesOf(entries) == total.Keys - todo
      decreases todo
    {
      var pkg :| pkg in todo;
      PackagesOfAppend(entries, UsageStat(pkg, total[pkg]));
      entries := entries + [UsageStat(pkg, total[pkg])];
      todo := todo - {pkg};
    }
  }

  /** Appending a statistic adds its package. */
  lemma PackagesOfAppend(stats: seq<UsageStat>, x: UsageStat)
    ensures PackagesOf(stats + [x]) == PackagesOf(stats) + {x.packageName}
  {
    var appended := stats + [x];
    assert appended[|stats|] == x;
    assert forall i :: 0 <= i < |stats| ==> appended[i] == stats[i];
  }

  /** Two equal elements at different places occur at least twice. */
  lemma TwiceInMultiset<T>(s: seq<T>, i: nat, j: nat)
    requires i < j < |s|
    ensures s[i] == s[j] ==> multiset(s)[s[i]] >= 2
  {
    assert s == s[..i] + [s[i]] + s[i + 1..j] + [s[j]] + s[j + 1..];
  }

  /** A statistic of a sequence without repeated packages occurs once. */
  lemma {:induction false} OnceInMultiset(stats: seq<UsageStat>, x: UsageStat)
    requires DistinctPackages(stats)
    ensures multiset(stats)[x] <= 1
  {
    if stats != [] {
      assert stats == [stats[0]] + stats[1..];
      OnceInMultiset(stats[1..], x);
      if stats[0] == x {
        assert x !in stats[1..];
      }
    }
  }

  /** `getTodayUsageExact`: fold the events, close the sessions still open
      at `end`, and build the rows. There is exactly one row per package
      whose reconstructed total is positive, it reports that total and the
      package's label, and the rows are sorted, largest first. */
  method GetTodayUsageExact(events: seq<UsageEvent>, end: int, lookup: LabelLookup) returns (rows: seq<Row>)
    ensures SortedDesc(rows)
    ensures forall i :: 0 <= i < |rows| ==>
      && rows[i].packageName in Totals(events, end)
      && rows[i].foregroundMs == Totals(events, end)[rows[i].packageName]
      && rows[i].foregroundMs > 0
      && rows[i].appName == AppName(lookup, rows[i].packageName)
    ensures forall i, j :: 0 <= i < j < |rows| ==> rows[i].packageName != rows[j].packageName
    ensures forall pkg :: pkg in Totals(events, end) ==>
      exists i :: 0 <= i < |rows| && rows[i].packageName == pkg
  {
    var fgStart, total := FoldEvents(events);
    total := CloseAtEnd(fgStart, total, end);
    var entries := ListEntries(total);
    rows := BuildRows(entries, lookup);
    TotalsPositive(events, end);
    ExactRowsFromTotals(total, entries, lookup);
    ExactRowsDistinct(entries, lookup);
    forall pkg | pkg in total
      ensures exists i :: 0 <= i < |rows| && rows[i].packageName == pkg
    {
      ExactRowsComplete(entries, lookup, pkg);
    }
  }

  /** Each row built from a listing of the totals reports a key of
      `total` and its value. */
  lemma ExactRowsFromTotals(total: map<string, int>, entries: seq<UsageStat>, lookup: LabelLookup)
    requires forall i :: 0 <= i < |entries| ==>
      entries[i].packageName in total && entries[i].foregroundMs == total[entries[i].packageName]
    ensures var rows := BuildRows(entries, lookup);
      forall i :: 0 <= i < |rows| ==>
        rows[i].packageName in total && rows[i].foregroundMs == total[rows[i].packageName]
  {
    var rows := BuildRows(entries, lookup);
    var stats := StatsOf(rows);
    forall i | 0 <= i < |rows|
      ensures rows[i].packageName in total && rows[i].foregroundMs == total[rows[i].packageName]
    {
      assert stats[i] in multiset(stats);
      assert stats[i] in entries;
    }
  }

  /** Rows built from a listing that names no package twice name no
      package twice. */
  lemma ExactRowsDistinct(entries: seq<UsageStat>, lookup: LabelLookup)
    requires DistinctPackages(entries)
    ensures var rows := BuildRows(entries, lookup);
      forall i, j :: 0 <= i < j < |rows| ==> rows[i].packageName != rows[j].packageName
  {
    var rows := BuildRows(entries, lookup);
    var stats := StatsOf(rows);
    forall i, j | 0 <= i < j < |rows|
      ensures rows[i].packageName != rows[j].packageName
    {
      assert stats[i] in multiset(stats) && stats[j] in multiset(stats);
      var a :| 0 <= a < |entries| && entries[a] == stats[i];
      var b :| 0 <= b < |entries| && entries[b] == stats[j];
      TwiceInMultiset(stats, i, j);
      OnceInMultiset(entries, stats[i]);
      assert rows[i].packageName == rows[j].packageName ==> a == b;
    }
  }

  /** Every listed statistic with a positive time has a row. */
  lemma ExactRowsComplete(entries: seq<UsageStat>, lookup: LabelLookup, pkg: string)
    requires forall i :: 0 <= i < |entries| ==> entries[i].foregroundMs > 0
    requires pkg in PackagesOf(entries)
    ensures var rows := BuildRows(entries, lookup);
      exists i :: 0 <= i < |rows| && rows[i].packageName == pkg
  {
    var rows := BuildRows(entries, lookup);
    var stats := StatsOf(rows);
    var a :| 0 <= a < |entries| && entries[a].packageName == pkg;
    assert entries[a] in multiset(entries);
    assert entries[a] in multiset(stats);
    var i :| 0 <= i < |stats| && stats[i] == entries[a];
    assert rows[i].packageName == pkg;
  }

  /** `getTodayUsage`: query every hourly bucket of [start, endTime), append
      all their statistics, and build the rows. Each statistic with a
      positive time yields its own row, so a package can appear once per
      bucket. */
  method GetTodayUsage(start: int, endTime: int, query: BucketQuery, lookup: LabelLookup) returns (rows: seq<Row>)
    ensures rows == BuildRows(Gathered(BucketStarts(start, endTime), query), lookup)
    ensures SortedDesc(rows)
    ensures forall i :: 0 <= i < |rows| ==>
      rows[i].foregroundMs > 0 && rows[i].appName == AppName(lookup, rows[i].packageName)
    ensures var hourly := Gathered(BucketStarts(start, endTime), query);
      forall x :: multiset(StatsOf(rows))[x] == if x.foregroundMs > 0 then multiset(hourly)[x] else 0
  {
    var hourly := CollectBuckets(start, endTime, query);
    rows := BuildRows(hourly, lookup);
  }

  /** Statistics gathered from buckets that each report the same single
      statistic: that statistic once per bucket. */
  lemma {:induction false} GatheredRepeats(starts: seq<int>, stat: UsageStat)
    ensures var hourly := Gathered(starts, (from: int, to: int) => [stat]);
      |hourly| == |starts| && forall i :: 0 <= i < |hourly| ==> hourly[i] == stat
  {
    if starts != [] {
      GatheredRepeats(starts[1..], stat);
    }
  }

  /** Bucket mode does not merge a package across buckets: a package that
      every hourly bucket reports with the same positive time gets one row
      per bucket. */
  lemma OneRowPerBucket(start: int, endTime: int, pkg: string, ms: int, lookup: LabelLookup)
    requires ms > 0
    ensures var rows := BuildRows(Gathered(BucketStarts(start, endTime), (from: int, to: int) => [UsageStat(pkg, ms)]), lookup);
      && |rows| == |BucketStarts(start, endTime)|
      && forall i :: 0 <= i < |rows| ==> rows[i].packageName == pkg && rows[i].foregroundMs == ms
  {
    var stat := UsageStat(pkg, ms);
    var hourly := Gathered(BucketStarts(start, endTime), (from: int, to: int) => [stat]);
    GatheredRepeats(BucketStarts(start, endTime), stat);
    RowsOfRepeated(BuildRows(hourly, lookup), hourly, stat);
  }

  /** Rows whose statistics are those of a list repeating one positive
      statistic: as many rows, each reporting it. */
  lemma RowsOfRepeated(rows: seq<Row>, hourly: seq<UsageStat>, stat: UsageStat)
    requires stat.foregroundMs > 0
    requires forall i :: 0 <= i < |hourly| ==> hourly[i] == stat
    requires forall x :: multiset(StatsOf(rows))[x] == if x.foregroundMs > 0 then multiset(hourly)[x] else 0
    ensures |rows| == |hourly|
    ensures forall i :: 0 <= i < |rows| ==> StatOf(rows[i]) == stat
  {
    var stats := StatsOf(rows);
    forall i | 0 <= i < |rows|
      ensures StatOf(rows[i]) == stat
    {
      assert stats[i] in multiset(stats);
      assert stats[i] in hourly;
    }
    forall x | x != stat
      ensures multiset(stats)[x] == multiset(hourly)[x]
    {
      assert x !in hourly;
    }
    assert multiset(stats) == multiset(hourly);
    assert |stats| == |multiset(stats)|;
  }

  /** Two packages are reported largest first, each under its label. */
  lemma LargestFirst(lookup: LabelLookup)
    ensures BuildRows([UsageStat("com.a", 30000), UsageStat("com.b", 90000)], lookup)
         == [Row("com.b", AppName(lookup, "com.b"), 90000), Row("com.a", AppName(lookup, "com.a"), 30000)]
  {
    var stats := [UsageStat("com.a", 30000), UsageStat("com.b", 90000)];
    TwoRowsLargestFirst(BuildRows(stats, lookup), stats, lookup);
  }

  /** Sorted, labelled rows that report exactly the two statistics of
      `stats` list the larger one first. */
  lemma TwoRowsLargestFirst(rows: seq<Row>, stats: seq<UsageStat>, lookup: LabelLookup)
    requires stats == [UsageStat("com.a", 30000), UsageStat("com.b", 90000)]
    requires SortedDesc(rows)
    requires forall i :: 0 <= i < |rows| ==> rows[i].appName == AppName(lookup, rows[i].packageName)
    requires forall x :: multiset(StatsOf(rows))[x] == if x.foregroundMs > 0 then multiset(stats)[x] else 0
    ensures rows == [Row("com.b", AppName(lookup, "com.b"), 90000), Row("com.a", AppName(lookup, "com.a"), 30000)]
  {
    var a, b := stats[0], stats[1];
    assert multiset(stats) == multiset{a, b};
    assert multiset(StatsOf(rows)) == multiset{a, b};
    assert |rows| == 2;
    assert StatsOf(rows)[0] in multiset{a, b} && StatsOf(rows)[1] in multiset{a, b};
    TwiceInMultiset(StatsOf(rows), 0, 1);
    assert StatsOf(rows)[0] != StatsOf(rows)[1];
  }

  /** In bucket mode two statistics with the same time come out in the
      order the buckets listed them. */
  lemma TiesInListOrder(lookup: LabelLookup)
    ensures BuildRows([UsageStat("com.a", 5000), UsageStat("com.b", 5000)], lookup)
         == [Row("com.a", AppName(lookup, "com.a"), 5000), Row("com.b", AppName(lookup, "com.b"), 5000)]
  {
    ListOrderKept([UsageStat("com.a", 5000), UsageStat("com.b", 5000)], lookup);
  }
}
