/**
 The row pipeline both reporting modes share: keep the statistics with a
 positive foreground time, attach each package's label, and sort the rows
 by foreground time, largest first.
 */
module Report {
  import opened UsageTypes

  /** Rows in non-increasing order of foreground time. */
  ghost predicate SortedDesc(rows: seq<Row>) {
    forall i, j :: 0 <= i < j < |rows| ==> rows[i].foregroundMs >= rows[j].foregroundMs
  }

  /** The statistic a row reports: its package and its time. */
  function StatOf(row: Row): UsageStat {
    UsageStat(row.packageName, row.foregroundMs)
  }

  /** The statistics a sequence of rows reports, in order. */
  function StatsOf(rows: seq<Row>): seq<UsageStat> {
    seq(|rows|, i requires 0 <= i < |rows| => StatOf(rows[i]))
  }

  /** `.filter { it.totalTimeInForeground > 0 }`: every statistic with a
      positive time is kept, as often as it occurs, and no other. */
  function Positives(stats: seq<UsageStat>): (r: seq<UsageStat>)
    ensures forall x :: multiset(r)[x] == if x.foregroundMs > 0 then multiset(stats)[x] else 0
  {
    if stats == [] then []
    else
      assert stats == [stats[0]] + stats[1..];
      (if stats[0].foregroundMs > 0 then [stats[0]] else []) + Positives(stats[1..])
  }

  /** `.map { ... }`: one row per statistic, labelled through `lookup`. */
  function Labelled(stats: seq<UsageStat>, lookup: LabelLookup): seq<Row> {
    seq(|stats|, i requires 0 <= i < |stats| =>
      Row(stats[i].packageName, AppName(lookup, stats[i].packageName), stats[i].foregroundMs))
  }

  /** Sorted rows start with their largest time. */
  lemma HeadIsLargest(rows: seq<Row>)
    requires SortedDesc(rows)
    ensures forall y :: y in rows ==> y.foregroundMs <= rows[0].foregroundMs
  {
    forall y | y in rows
      ensures y.foregroundMs <= rows[0].foregroundMs
    {
      var k :| 0 <= k < |rows| && rows[k] == y;
    }
  }

  /** A row no smaller than any of the sorted rows can go in front. */
  lemma PrependSorted(x: Row, rows: seq<Row>)
    requires SortedDesc(rows)
    requires forall y :: y in rows ==> y.foregroundMs <= x.foregroundMs
    ensures SortedDesc([x] + rows)
  {
    var r := [x] + rows;
    forall i, j | 0 <= i < j < |r|
      ensures r[i].foregroundMs >= r[j].foregroundMs
    {
      assert r[j] == rows[j - 1];
      if i > 0 {
        assert r[i] == rows[i - 1];
      }
    }
  }

  /** Insert `row` into sorted `rows`, before the first row whose time is
      not larger (so a row that came first stays first among equals). */
  function Insert(row: Row, rows: seq<Row>): (r: seq<Row>)
    ensures multiset(r) == multiset(rows) + multiset{row}
    ensures forall x :: x in r <==> x == row || x in rows
    ensures SortedDesc(rows) ==> SortedDesc(r)
  {
    if rows == [] || rows[0].foregroundMs <= row.foregroundMs then
      assert SortedDesc(rows) ==> SortedDesc([row] + rows) by {
        if SortedDesc(rows) {
          HeadIsLargest(rows);
          PrependSorted(row, rows);
        }
      }
      [row] + rows
    else
      var rest := Insert(row, rows[1..]);
      assert rows == [rows[0]] + rows[1..];
      assert SortedDesc(rows) ==> SortedDesc([rows[0]] + rest) by {
        if SortedDesc(rows) {
          HeadIsLargest(rows);
          assert SortedDesc(rows[1..]);
          PrependSorted(rows[0], rest);
        }
      }
      [rows[0]] + rest
  }

  /** `.sortedByDescending { totalTimeInForeground }`: a sorted
      permutation of `rows`. */
  function SortDesc(rows: seq<Row>): (r: seq<Row>)
    ensures multiset(r) == multiset(rows)
    ensures SortedDesc(r)
  {
    if rows == [] then []
    else
      assert rows == [rows[0]] + rows[1..];
      Insert(rows[0], SortDesc(rows[1..]))
  }

  /** Rows already in order are left as they are: `sortedByDescending` is
      stable, so rows with equal times keep their relative order. */
  lemma {:induction false} SortDescKeepsSorted(rows: seq<Row>)
    requires SortedDesc(rows)
    ensures SortDesc(rows) == rows
  {
    if rows != [] {
      assert SortedDesc(rows[1..]);
      SortDescKeepsSorted(rows[1..]);
    }
  }

  /** The statistics of two row sequences side by side. */
  lemma StatsOfAppend(a: seq<Row>, b: seq<Row>)
    ensures StatsOf(a + b) == StatsOf(a) + StatsOf(b)
  {
  }

  /** Taking row `k` out of `rows` takes its statistic out of theirs. */
  lemma StatsOfRemove(rows: seq<Row>, k: int, rest: seq<Row>)
    requires 0 <= k < |rows| && rest == rows[..k] + rows[k + 1..]
    ensures multiset(StatsOf(rows)) == multiset(StatsOf(rest)) + multiset{StatOf(rows[k])}
  {
    assert rows == rows[..k] + [rows[k]] + rows[k + 1..];
    StatsOfAppend(rows[..k] + [rows[k]], rows[k + 1..]);
    StatsOfAppend(rows[..k], [rows[k]]);
    StatsOfAppend(rows[..k], rows[k + 1..]);
  }

  /** Taking element `k` out of `s` takes one copy of it out of its
      multiset. */
  lemma MultisetRemove<T>(s: seq<T>, k: int)
    requires 0 <= k < |s|
    ensures multiset(s[..k] + s[k + 1..]) == multiset(s) - multiset{s[k]}
  {
    assert s == s[..k] + [s[k]] + s[k + 1..];
  }

  /** An element of the multiset of `s` sits at some index of `s`. */
  lemma IndexOf<T>(s: seq<T>, x: T) returns (k: int)
    requires x in multiset(s)
    ensures 0 <= k < |s| && s[k] == x
  {
    assert x in s;
    k :| 0 <= k < |s| && s[k] == x;
  }

  /** Rows that are a permutation of each other report the same
      statistics. */
  lemma {:induction false} StatsOfPermutation(a: seq<Row>, b: seq<Row>)
    requires multiset(a) == multiset(b)
    ensures multiset(StatsOf(a)) == multiset(StatsOf(b))
    decreases |a|
  {
    if a == [] {
      assert |multiset(b)| == 0;
      assert b == [];
    } else {
      var k := IndexOf(b, a[0]);
      MultisetRemove(a, 0);
      MultisetRemove(b, k);
      var tail, rest := a[..0] + a[1..], b[..k] + b[k + 1..];
      StatsOfPermutation(tail, rest);
      StatsOfRemove(a, 0, tail);
      StatsOfRemove(b, k, rest);
    }
  }

  /** Labelling keeps the statistics as they are. */
  lemma LabelledStats(stats: seq<UsageStat>, lookup: LabelLookup)
    ensures StatsOf(Labelled(stats, lookup)) == stats
  {
  }

  /** A row that occurs in the labelled statistics carries its package's
      label and reports one of those statistics. */
  lemma LabelledRow(kept: seq<UsageStat>, lookup: LabelLookup, row: Row)
    requires row in Labelled(kept, lookup)
    ensures row.appName == AppName(lookup, row.packageName)
    ensures StatOf(row) in kept
  {
    var labelled := Labelled(kept, lookup);
    var k :| 0 <= k < |labelled| && labelled[k] == row;
    assert StatsOf(labelled)[k] == kept[k];
  }

  /** The filter keeps a list whose times are all positive as it is. */
  lemma {:induction false} PositivesKeepsAll(stats: seq<UsageStat>)
    requires forall i :: 0 <= i < |stats| ==> stats[i].foregroundMs > 0
    ensures Positives(stats) == stats
  {
    if stats != [] {
      PositivesKeepsAll(stats[1..]);
    }
  }

  /** The whole pipeline: the rows are sorted, every row has a positive
      time and its package's label, and each statistic with a positive
      time yields exactly one row (statistics are not merged). */
  function BuildRows(stats: seq<UsageStat>, lookup: LabelLookup): (rows: seq<Row>)
    ensures SortedDesc(rows)
    ensures forall i :: 0 <= i < |rows| ==>
      rows[i].foregroundMs > 0 && rows[i].appName == AppName(lookup, rows[i].packageName)
    ensures forall x :: multiset(StatsOf(rows))[x] == if x.foregroundMs > 0 then multiset(stats)[x] else 0
  {
    var kept := Positives(stats);
    var labelled := Labelled(kept, lookup);
    var rows := SortDesc(labelled);
    StatsOfPermutation(rows, labelled);
    LabelledStats(kept, lookup);
    forall i | 0 <= i < |rows|
      ensures rows[i].foregroundMs > 0 && rows[i].appName == AppName(lookup, rows[i].packageName)
    {
      assert rows[i] in multiset(labelled);
      LabelledRow(kept, lookup, rows[i]);
      assert multiset(kept)[StatOf(rows[i])] > 0;
    }
    rows
  }

  /** Statistics that arrive positive and already in order come out as
      rows in that same order; in particular rows with equal times keep
      the order of the list the statistics came in. */
  lemma ListOrderKept(stats: seq<UsageStat>, lookup: LabelLookup)
    requires forall i :: 0 <= i < |stats| ==> stats[i].foregroundMs > 0
    requires forall i, j :: 0 <= i < j < |stats| ==> stats[i].foregroundMs >= stats[j].foregroundMs
    ensures BuildRows(stats, lookup) == Labelled(stats, lookup)
  {
    PositivesKeepsAll(stats);
    SortDescKeepsSorted(Labelled(stats, lookup));
  }
}
