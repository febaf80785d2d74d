# Screen-time usage reconstruction

This project models the native Android module of a screen-time app. The
module answers "how long was each app in the foreground today". It has two
strategies:

- `getTodayUsageExact` rebuilds per-package foreground time from the usage
  event stream. A foreground event (`MOVE_TO_FOREGROUND`, `ACTIVITY_RESUMED`)
  opens a session in the map `fgStart`. A background event
  (`MOVE_TO_BACKGROUND`, `ACTIVITY_PAUSED`) closes it and adds the elapsed
  time to the map `total` through the nested `add`, which ignores a
  non-positive delta. Sessions still open at the end of the window are closed
  at `end`.
- `getTodayUsage` cuts [midnight, now) into one-hour buckets, queries each
  bucket's per-package statistics, and appends them all to one list. A
  package is not merged across buckets, so it can get one row per bucket.

Both strategies then run the same row pipeline: keep the positive times,
attach each package's label (the package name when the lookup throws), and
sort by time, largest first.

Layout:

- `usage_types.dfy` (module `UsageTypes`): events, statistics, rows, and
  the label fallback.
- `event_fold.dfy`:
  - module `EventFold`: one event's effect (`Step`), the fold (`Run`), the
    end-of-window close (`CloseOpen`), and the two loops as methods.
  - module `EventFoldProperties`: lemmas about the fold.
  - module `ExactScenarios`: three worked streams.
- `report.dfy` (module `Report`): filter, label and `sortedByDescending`, as
  functions.
- `buckets.dfy` (module `Buckets`): the hourly partition loop.
- `screentime.dfy` (module `Screentime`): the two entry points as methods,
  and lemmas about their rows.

The map iteration order of `HashMap` is not fixed. The end-of-window close
and the listing of `total.entries` therefore pick the next key by arbitrary
choice. The close is proved to give the same totals in every order.

Three behaviours of the code that one might expect to be different:

- Bucket mode does not sum a package's time across buckets. Every positive
  per-bucket statistic becomes its own row (`Screentime.OneRowPerBucket`).
- In exact mode, the order of rows with equal times is the hash map's
  iteration order, not the order of first appearance in the stream. The
  model leaves that order open. In bucket mode the stable sort runs over the
  gathered list, so rows with equal times keep list order: bucket order
  first, then each bucket's order (`Report.ListOrderKept`,
  `Screentime.TiesInListOrder`).
- An open session closed at the end of the window adds `end - start` only
  when that is positive, because it goes through `add`.

## Model

All source paths are in `modules/screentime/android/src/main/java/expo/modules/screentime/`.

| member | source | states |
|---|---|---|
| `UsageTypes.AppName` | modules/screentime/android/src/main/java/expo/modules/screentime/ScreentimeModule.kt:157-160 | the label is the resolved name, or the package name itself when the lookup fails |
| `EventFold.Add` | modules/screentime/android/src/main/java/expo/modules/screentime/ScreentimeModule.kt:120-123 | a delta of zero or less leaves the totals unchanged; a positive delta is added to the package's total, which starts at zero; other packages keep their totals |
| `EventFold.AddGrows` | modules/screentime/android/src/main/java/expo/modules/screentime/ScreentimeModule.kt:120-123 | `add` never lowers or removes a total and never stores a non-positive one |
| `EventFold.Step` | modules/screentime/android/src/main/java/expo/modules/screentime/ScreentimeModule.kt:126-145 | an event with no package or of another type changes nothing; no event changes another package's session or total; totals never decrease and stay positive |
| `EventFold.FoldEvents` | modules/screentime/android/src/main/java/expo/modules/screentime/ScreentimeModule.kt:125-146 | the event loop leaves `fgStart` and `total` as the fold of `Step` over the whole stream |
| `EventFold.Run` | modules/screentime/android/src/main/java/expo/modules/screentime/ScreentimeModule.kt:125-146 | the tracker after reading the stream is one `Step` per event, in stream order, from empty maps |
| `EventFold.Close` | modules/screentime/android/src/main/java/expo/modules/screentime/ScreentimeModule.kt:137-144 | a background event adds the elapsed time of an open session and clears it, and does nothing without one |
| `EventFold.CloseOpenEffect` | modules/screentime/android/src/main/java/expo/modules/screentime/ScreentimeModule.kt:148-151 | closing at `end` adds `end - start` to each package with an open session when that is positive; packages without one keep their totals; totals stay positive |
| `EventFold.CloseOpen` | modules/screentime/android/src/main/java/expo/modules/screentime/ScreentimeModule.kt:148-151 | the totals after the close: every package of `total` or with a positive gain, holding its total plus the positive part of `end - s` for an open session started at `s` |
| `EventFold.CloseAtEnd` | modules/screentime/android/src/main/java/expo/modules/screentime/ScreentimeModule.kt:148-151 | the close loop gives the same totals whatever order it visits the packages in |
| `EventFold.Totals` | modules/screentime/android/src/main/java/expo/modules/screentime/ScreentimeModule.kt:112-151 | the totals exact mode reports: the event fold followed by the close at `end` |
| `EventFold.CloseOneMore` | modules/screentime/android/src/main/java/expo/modules/screentime/ScreentimeModule.kt:149-150 | visiting one more package in the close loop adds that package's gain and changes no other total |
| `EventFoldProperties.RunAppend` | modules/screentime/android/src/main/java/expo/modules/screentime/ScreentimeModule.kt:125-146 | reading two streams one after the other is reading their concatenation |
| `EventFoldProperties.RunGrows` | modules/screentime/android/src/main/java/expo/modules/screentime/ScreentimeModule.kt:120-146 | over any stream, totals never decrease and every stored total stays strictly positive |
| `EventFoldProperties.RunUnrelated` | modules/screentime/android/src/main/java/expo/modules/screentime/ScreentimeModule.kt:127-145 | events of other packages leave a package's session and total unchanged |
| `EventFoldProperties.EnterThenExit` | modules/screentime/android/src/main/java/expo/modules/screentime/ScreentimeModule.kt:120-143 | a foreground event, then only other packages' events, then a background event of the same package adds exactly `exit - enter` when positive (else nothing) and leaves no open session |
| `EventFoldProperties.ExitWithoutSession` | modules/screentime/android/src/main/java/expo/modules/screentime/ScreentimeModule.kt:137-144 | a background event for a package with no open session changes nothing |
| `EventFoldProperties.SecondExitAddsNothing` | modules/screentime/android/src/main/java/expo/modules/screentime/ScreentimeModule.kt:137-144 | a second background event in a row for the same package changes nothing |
| `EventFoldProperties.ReEnterOverwrites` | modules/screentime/android/src/main/java/expo/modules/screentime/ScreentimeModule.kt:131-135 | a second foreground event overwrites the recorded start, so the time since the first start is not counted |
| `EventFoldProperties.VisitsAddElapsed` | modules/screentime/android/src/main/java/expo/modules/screentime/ScreentimeModule.kt:125-146 | alternating foreground and background events of one package add the sum of the positive durations of its visits |
| `EventFoldProperties.TotalsPositive` | modules/screentime/android/src/main/java/expo/modules/screentime/ScreentimeModule.kt:120-155 | every total the exact reconstruction ends with is strictly positive |
| `EventFoldProperties.RunWithinElapsed` | modules/screentime/android/src/main/java/expo/modules/screentime/ScreentimeModule.kt:125-146 | for a time-ordered stream in [start, end], each package has been credited no more than the time since `start` up to its open session's start, or up to the last event when it has none |
| `EventFoldProperties.NoDoubleCount` | modules/screentime/android/src/main/java/expo/modules/screentime/ScreentimeModule.kt:120-151 | time is never counted twice: for a time-ordered stream in [start, end], no package's total exceeds `end - start` |
| `ExactScenarios.ClosedSession` | modules/screentime/android/src/main/java/expo/modules/screentime/ScreentimeModule.kt:125-151 | enter at 0 and exit at 60000 in a window ending at 120000 gives com.a 60000 |
| `ExactScenarios.SessionOpenAtEnd` | modules/screentime/android/src/main/java/expo/modules/screentime/ScreentimeModule.kt:148-151 | a session opened at 0 and never closed gives `end - 0` |
| `ExactScenarios.ExitWithoutEnter` | modules/screentime/android/src/main/java/expo/modules/screentime/ScreentimeModule.kt:137-144 | a lone background event gives no total at all |
| `Report.Positives` | modules/screentime/android/src/main/java/expo/modules/screentime/ScreentimeModule.kt:74-75 | each statistic with a positive time is kept as often as it occurs, and no other |
| `Report.Insert` | modules/screentime/android/src/main/java/expo/modules/screentime/ScreentimeModule.kt:93 | inserting into sorted rows keeps them sorted and adds exactly the one row |
| `Report.Labelled` | modules/screentime/android/src/main/java/expo/modules/screentime/ScreentimeModule.kt:76-92 | one row per statistic, in order, with its package, its time and its label |
| `Report.SortDesc` | modules/screentime/android/src/main/java/expo/modules/screentime/ScreentimeModule.kt:168 | `sortedByDescending` returns a permutation of its input in non-increasing order of time |
| `Report.SortDescKeepsSorted` | modules/screentime/android/src/main/java/expo/modules/screentime/ScreentimeModule.kt:93 | `sortedByDescending` is stable: rows already in order, ties included, come out unchanged |
| `Report.StatsOfPermutation` | modules/screentime/android/src/main/java/expo/modules/screentime/ScreentimeModule.kt:168 | sorting the labelled rows does not change which package/time pairs they report |
| `Report.BuildRows` | modules/screentime/android/src/main/java/expo/modules/screentime/ScreentimeModule.kt:154-168 | the rows are sorted, each has a positive time and its package's label, and each positive statistic yields exactly one row |
| `Report.PositivesKeepsAll` | modules/screentime/android/src/main/java/expo/modules/screentime/ScreentimeModule.kt:74-75 | the filter keeps a list of positive statistics whole and in order |
| `Report.ListOrderKept` | modules/screentime/android/src/main/java/expo/modules/screentime/ScreentimeModule.kt:74-93 | positive statistics already in descending order come out as rows in list order, so equal times keep list order |
| `Buckets.BucketCount` | modules/screentime/android/src/main/java/expo/modules/screentime/ScreentimeModule.kt:58-66 | the loop visits ceil((endTime - start) / 1 h) buckets, and none when start >= endTime |
| `Buckets.BucketStarts` | modules/screentime/android/src/main/java/expo/modules/screentime/ScreentimeModule.kt:59-65 | the values `t` takes in the loop: `start`, then one hour later each time, while below `endTime` |
| `Buckets.Gathered` | modules/screentime/android/src/main/java/expo/modules/screentime/ScreentimeModule.kt:63-64 | the statistics of the given buckets appended in bucket order, as `addAll` does |
| `Buckets.BucketStartAt` | modules/screentime/android/src/main/java/expo/modules/screentime/ScreentimeModule.kt:58-66 | bucket k starts at start + k hours, before endTime, and the last bucket reaches endTime |
| `Buckets.CollectBuckets` | modules/screentime/android/src/main/java/expo/modules/screentime/ScreentimeModule.kt:58-66 | the loop ends with every bucket's statistics concatenated in bucket order |
| `Screentime.ListEntries` | modules/screentime/android/src/main/java/expo/modules/screentime/ScreentimeModule.kt:154 | `total.entries` lists each package of `total` exactly once, with its total |
| `Screentime.GetTodayUsageExact` | modules/screentime/android/src/main/java/expo/modules/screentime/ScreentimeModule.kt:98-171 | exactly one row per package with a positive reconstructed total, with that total and its label, sorted largest first |
| `Screentime.ExactRowsFromTotals` | modules/screentime/android/src/main/java/expo/modules/screentime/ScreentimeModule.kt:154-168 | every exact-mode row reports a package of `total` and its total |
| `Screentime.ExactRowsDistinct` | modules/screentime/android/src/main/java/expo/modules/screentime/ScreentimeModule.kt:154-168 | no package gets two exact-mode rows |
| `Screentime.ExactRowsComplete` | modules/screentime/android/src/main/java/expo/modules/screentime/ScreentimeModule.kt:154-168 | every package of `total` gets an exact-mode row |
| `Screentime.GetTodayUsage` | modules/screentime/android/src/main/java/expo/modules/screentime/ScreentimeModule.kt:47-96 | the rows are the pipeline over all bucket statistics: sorted, positive, labelled, one row per positive statistic |
| `Screentime.OneRowPerBucket` | modules/screentime/android/src/main/java/expo/modules/screentime/ScreentimeModule.kt:62-93 | a package reported by every bucket gets one row per bucket, not one merged row |
| `Screentime.LargestFirst` | modules/screentime/android/src/main/java/expo/modules/screentime/ScreentimeModule.kt:154-168 | com.a at 30000 and com.b at 90000 come out as com.b then com.a |
| `Screentime.TiesInListOrder` | modules/screentime/android/src/main/java/expo/modules/screentime/ScreentimeModule.kt:74-93 | com.a and com.b at 5000 each come out as com.a then com.b, the order the buckets listed them |

## Left out

- `hasUsageAccess` and `openUsageAccessSettings`: permission checks and an intent launch through Android services, with no logic of their own.
- The early return of an empty list when there is no React context: platform glue.
- Midnight and "now" from `Calendar` and `System.currentTimeMillis()`: clock and time-zone input. The window bounds are parameters. Exact mode needs only `end`, because the event stream is given.
- `UsageStatsManager.queryEvents` and `queryAndAggregateUsageStats`: platform calls. The stream is a parameter and the bucket query is a function parameter.
- `PackageManager` label lookup: a foreign call, modelled as a lookup that may fail.
- `.toDouble()` and the `Map<String, Any>` row packaging: totals stay integers and a row is a datatype.
- 64-bit `Long` wrap-around of timestamps, differences and sums is not modelled. Millisecond timestamps are far from the limit.
- Exact mode's order among rows with equal time: it comes from the hash map's iteration order, so no order among equals is stated there. Bucket mode's tie order is fixed and modelled.
- The TypeScript wrappers, Expo template stubs and view components: no logic of the reconstruction.
- `EventFoldProperties.NoDoubleCount`: the bound holds for streams whose events lie in the window and arrive in time order. The code does not check this; it relies on `queryEvents` delivering such a stream. For other streams no bound is stated.
