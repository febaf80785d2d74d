/**
 Exact event reconstruction: the fold of the event stream over the two
 maps `fgStart` (package to the start of its open foreground session, or
 none) and `total` (package to accumulated milliseconds), and the closing
 of the sessions still open at the end of the window.
 */
module EventFold {
  import opened UsageTypes

  /** The two maps the reconstruction keeps while it reads the stream. */
  datatype Tracker = Tracker(fgStart: map<string, Option<int>>, total: map<string, int>)

  const Empty := Tracker(map[], map[])

  /** The open session of `pkg`, if any (a missing key reads as null). */
  function SessionOf(fgStart: map<string, Option<int>>, pkg: string): Option<int> {
    if pkg in fgStart then fgStart[pkg] else None
  }

  /** The accumulated time of `pkg`, zero when it has none. */
  function TotalOf(total: map<string, int>, pkg: string): int {
    if pkg in total then total[pkg] else 0
  }

  /** Every accumulated total is strictly positive. */
  ghost predicate AllPositive(total: map<string, int>) {
    forall pkg :: pkg in total ==> total[pkg] > 0
  }

  /** No total of `before` is missing from or smaller in `after`. */
  ghost predicate Grown(before: map<string, int>, after: map<string, int>) {
    forall pkg :: pkg in before ==> pkg in after && after[pkg] >= before[pkg]
  }

  /** The nested `add`: a non-positive delta is ignored, a positive one is
      added to the package's total (which starts at zero). */
  function Add(total: map<string, int>, pkg: string, delta: int): (r: map<string, int>)
    ensures delta <= 0 ==> r == total
    ensures delta > 0 ==> pkg in r && r[pkg] == TotalOf(total, pkg) + delta
    ensures r.Keys == if delta > 0 then total.Keys + {pkg} else total.Keys
    ensures forall q :: q in total && q != pkg ==> r[q] == total[q]
  {
    if delta <= 0 then total else total[pkg := TotalOf(total, pkg) + delta]
  }

  /** `add` never lowers a total and never stores a non-positive one. */
  lemma AddGrows(total: map<string, int>, pkg: string, delta: int)
    ensures Grown(total, Add(total, pkg, delta))
    ensures AllPositive(total) ==> AllPositive(Add(total, pkg, delta))
  {
  }

  /** The effect of one event on the tracker. */
  function Step(st: Tracker, e: UsageEvent): (r: Tracker)
    ensures e.packageName.None? ==> r == st
    ensures !OpensSession(e.eventType) && !ClosesSession(e.eventType) ==> r == st
    ensures forall q :: Some(q) != e.packageName ==>
      SessionOf(r.fgStart, q) == SessionOf(st.fgStart, q) && (q in r.total <==> q in st.total)
      && TotalOf(r.total, q) == TotalOf(st.total, q)
    ensures Grown(st.total, r.total)
    ensures AllPositive(st.total) ==> AllPositive(r.total)
  {
    match e.packageName
    case None => st
    case Some(pkg) =>
      if OpensSession(e.eventType) then
        st.(fgStart := st.fgStart[pkg := Some(e.timeStamp)])
      else if ClosesSession(e.eventType) then
        match SessionOf(st.fgStart, pkg)
        case None => st
        case Some(s) =>
          AddGrows(st.total, pkg, e.timeStamp - s);
          Tracker(st.fgStart[pkg := None], Add(st.total, pkg, e.timeStamp - s))
      else
        st
  }

  /** The tracker after reading `events` in order, starting from `st`. */
  function Run(st: Tracker, events: seq<UsageEvent>): Tracker
    decreases |events|
  {
    if events == [] then st else Step(Run(st, events[..|events| - 1]), events[|events| - 1])
  }

  /** The time an open session gains when it is closed at `end`. */
  function Gain(fgStart: map<string, Option<int>>, pkg: string, end: int): int {
    match SessionOf(fgStart, pkg)
    case Some(s) => if end - s > 0 then end - s else 0
    case None => 0
  }

  /** The totals after every still-open session is closed at `end`. */
  function CloseOpen(fgStart: map<string, Option<int>>, total: map<string, int>, end: int): map<string, int>
  {
    map pkg | pkg in total.Keys + fgStart.Keys && (pkg in total || Gain(fgStart, pkg, end) > 0)
      :: TotalOf(total, pkg) + Gain(fgStart, pkg, end)
  }

  /** Closing at `end` leaves a package without an open session as it was,
      adds `end - s` to one whose session opened at `s` when that is
      positive, never lowers a total and keeps every total positive. */
  lemma CloseOpenEffect(fgStart: map<string, Option<int>>, total: map<string, int>, end: int)
    ensures forall pkg :: SessionOf(fgStart, pkg).None? ==>
      (pkg in CloseOpen(fgStart, total, end) <==> pkg in total) && TotalOf(CloseOpen(fgStart, total, end), pkg) == TotalOf(total, pkg)
    ensures forall pkg, s :: SessionOf(fgStart, pkg) == Some(s) ==>
      TotalOf(CloseOpen(fgStart, total, end), pkg) == TotalOf(total, pkg) + (if end - s > 0 then end - s else 0)
    ensures Grown(total, CloseOpen(fgStart, total, end))
    ensures AllPositive(total) ==> AllPositive(CloseOpen(fgStart, total, end))
  {
  }

  /** The totals the exact reconstruction reports for `events`, with the
      window closing at `end`. */
  function Totals(events: seq<UsageEvent>, end: int): map<string, int> {
    var st := Run(Empty, events);
    CloseOpen(st.fgStart, st.total, end)
  }

  // ---------------------------------------------------------------------
  // The loops of getTodayUsageExact

  /** The `while (events.hasNextEvent())` loop. */
  method FoldEvents(events: seq<UsageEvent>) returns (fgStart: map<string, Option<int>>, total: map<string, int>)
    ensures Tracker(fgStart, total) == Run(Empty, events)
  {
    fgStart, total := map[], map[];
    var i := 0;
    while i < |events|
      invariant 0 <= i <= |events|
      invariant Tracker(fgStart, total) == Run(Empty, events[..i])
    {
      var e := events[i];
      assert events[..i + 1][..i] == events[..i];
      i := i + 1;
      if e.packageName.None? {
        continue;
      }
      var pkg := e.packageName.value;
      var t := e.timeStamp;
      match e.eventType
      case MoveToForeground =>
        fgStart := fgStart[pkg := Some(t)];
      case ActivityResumed =>
        fgStart := fgStart[pkg := Some(t)];
      case MoveToBackground =>
        fgStart, total := Close(fgStart, total, pkg, t);
      case ActivityPaused =>
        fgStart, total := Close(fgStart, total, pkg, t);
      case OtherEvent =>
    }
    assert events[..i] == events;
  }

  /** The body of a background event: close the open session of `pkg`, if
      any, adding the elapsed time. */
  method Close(fgStart: map<string, Option<int>>, total: map<string, int>, pkg: string, t: int)
    returns (fgStart': map<string, Option<int>>, total': map<string, int>)
    ensures Tracker(fgStart', total') == Step(Tracker(fgStart, total), UsageEvent(Some(pkg), t, MoveToBackground))
  {
    fgStart', total' := fgStart, total;
    if pkg in fgStart && fgStart[pkg].Some? {
      var s := fgStart[pkg].value;
      total' := Add(total, pkg, t - s);
      fgStart' := fgStart[pkg := None];
    }
  }

  /** The fgStart map with only the keys in `keys`. */
  function Restrict(fgStart: map<string, Option<int>>, keys: set<string>): map<string, Option<int>> {
    map pkg | pkg in fgStart && pkg in keys :: fgStart[pkg]
  }

  /** The `for ((pkg, s) in fgStart)` loop. The map's iteration order is not
      fixed, so each step picks any package not yet visited. */
  method CloseAtEnd(fgStart: map<string, Option<int>>, total: map<string, int>, end: int) returns (closed: map<string, int>)
    ensures closed == CloseOpen(fgStart, total, end)
  {
    closed := total;
    var todo := fgStart.Keys;
    ghost var done: set<string> := {};
    while todo != {}
      invariant todo + done == fgStart.Keys && todo !! done
      invariant closed == CloseOpen(Restrict(fgStart, done), total, end)
      decreases todo
    {
      var pkg :| pkg in todo;
      CloseOneMore(fgStart, total, end, done, pkg);
      if fgStart[pkg].Some? {
        closed := Add(closed, pkg, end - fgStart[pkg].value);
      }
      todo, done := todo - {pkg}, done + {pkg};
    }
    RestrictAll(fgStart);
  }

  /** Restricting to all of its keys leaves the map as it is. */
  lemma RestrictAll(fgStart: map<string, Option<int>>)
    ensures Restrict(fgStart, fgStart.Keys) == fgStart
  {
  }

  /** Visiting one more package of fgStart in the closing loop adds that
      package's gain and nothing else. */
  lemma CloseOneMore(fgStart: map<string, Option<int>>, total: map<string, int>, end: int, done: set<string>, pkg: string)
    requires pkg in fgStart && pkg !in done
    ensures CloseOpen(Restrict(fgStart, done + {pkg}), total, end)
      == Add(CloseOpen(Restrict(fgStart, done), total, end), pkg,
             if fgStart[pkg].Some? then end - fgStart[pkg].value else 0)
  {
    var small, big := Restrict(fgStart, done), Restrict(fgStart, done + {pkg});
    var before, after := CloseOpen(small, total, end), CloseOpen(big, total, end);
    var added := Add(before, pkg, if fgStart[pkg].Some? then end - fgStart[pkg].value else 0);
    assert Gain(small, pkg, end) == 0;
    assert Gain(big, pkg, end) == if fgStart[pkg].Some? && end - fgStart[pkg].value > 0 then end - fgStart[pkg].value else 0;
    forall q | q != pkg
      ensures Gain(big, q, end) == Gain(small, q, end)
    {
      assert SessionOf(big, q) == SessionOf(small, q);
    }
    assert after.Keys == added.Keys;
    forall q | q in after
      ensures after[q] == added[q]
    {
    }
  }
}

module EventFoldProperties {
  import opened UsageTypes
  import opened EventFold

  /** Reading two streams one after the other is reading their
      concatenation. */
  lemma {:induction false} RunAppend(st: Tracker, a: seq<UsageEvent>, b: seq<UsageEvent>)
    ensures Run(st, a + b) == Run(Run(st, a), b)
    decreases |b|
  {
    if b == [] {
      assert a + b == a;
    } else {
      var n := |b| - 1;
      assert (a + b)[..|a + b| - 1] == a + b[..n];
      RunAppend(st, a, b[..n]);
    }
  }

  /** Reading events never lowers a total, and every total stays strictly
      positive. */
  lemma {:induction false} RunGrows(st: Tracker, events: seq<UsageEvent>)
    ensures Grown(st.total, Run(st, events).total)
    ensures AllPositive(st.total) ==> AllPositive(Run(st, events).total)
    decreases |events|
  {
    if events != [] {
      var prefix := events[..|events| - 1];
      RunGrows(st, prefix);
      var mid := Run(st, prefix);
      var last := Step(mid, events[|events| - 1]);
      assert Grown(st.total, last.total) by {
        forall pkg | pkg in st.total
          ensures pkg in last.total && last.total[pkg] >= st.total[pkg]
        {
          assert pkg in mid.total && mid.total[pkg] >= st.total[pkg];
        }
      }
    }
  }

  /** Events of other packages leave a package's session and total as they
      were. */
  lemma {:induction false} RunUnrelated(st: Tracker, events: seq<UsageEvent>, pkg: string)
    requires forall i :: 0 <= i < |events| ==> events[i].packageName != Some(pkg)
    ensures SessionOf(Run(st, events).fgStart, pkg) == SessionOf(st.fgStart, pkg)
    ensures pkg in Run(st, events).total <==> pkg in st.total
    ensures TotalOf(Run(st, events).total, pkg) == TotalOf(st.total, pkg)
    decreases |events|
  {
    if events != [] {
      RunUnrelated(st, events[..|events| - 1], pkg);
    }
  }

  /** A foreground event followed, after events of other packages only, by
      a background event of the same package adds exactly the elapsed time
      when it is positive, and leaves the package without an open session. */
  lemma EnterThenExit(st: Tracker, pkg: string, enter: UsageEvent, between: seq<UsageEvent>, exit: UsageEvent)
    requires enter.packageName == Some(pkg) && OpensSession(enter.eventType)
    requires exit.packageName == Some(pkg) && ClosesSession(exit.eventType)
    requires forall i :: 0 <= i < |between| ==> between[i].packageName != Some(pkg)
    ensures var after := Run(st, [enter] + between + [exit]);
      && TotalOf(after.total, pkg) == TotalOf(st.total, pkg)
           + (if exit.timeStamp - enter.timeStamp > 0 then exit.timeStamp - enter.timeStamp else 0)
      && SessionOf(after.fgStart, pkg) == None
  {
    var events := [enter] + between + [exit];
    assert events[..|events| - 1] == [enter] + between;
    RunAppend(st, [enter], between);
    assert [enter][..0] == [];
    var afterEnter := Step(st, enter);
    assert SessionOf(afterEnter.fgStart, pkg) == Some(enter.timeStamp);
    assert TotalOf(afterEnter.total, pkg) == TotalOf(st.total, pkg);
    RunUnrelated(afterEnter, between, pkg);
  }

  /** A background event for a package with no open session changes
      nothing. */
  lemma ExitWithoutSession(st: Tracker, exit: UsageEvent)
    requires exit.packageName.Some? && ClosesSession(exit.eventType)
    requires SessionOf(st.fgStart, exit.packageName.value).None?
    ensures Step(st, exit) == st
  {
  }

  /** A background event closes the session, so a second one for the same
      package adds nothing. */
  lemma SecondExitAddsNothing(st: Tracker, first: UsageEvent, second: UsageEvent)
    requires first.packageName.Some? && second.packageName == first.packageName
    requires ClosesSession(first.eventType) && ClosesSession(second.eventType)
    ensures Step(Step(st, first), second) == Step(st, first)
  {
    ExitWithoutSession(Step(st, first), second);
  }

  /** A second foreground event for an open package overwrites the recorded
      start: the time since the earlier start is discarded. */
  lemma ReEnterOverwrites(st: Tracker, first: UsageEvent, second: UsageEvent)
    requires first.packageName.Some? && second.packageName == first.packageName
    requires OpensSession(first.eventType) && OpensSession(second.eventType)
    ensures Step(Step(st, first), second) == Step(st, second)
  {
  }

  /** One foreground visit of a package: the times of its foreground and
      its background event. */
  datatype Visit = Visit(enter: int, exit: int)

  /** The events of a package's visits, one foreground and one background
      event each, visit after visit. */
  function VisitEvents(pkg: string, visits: seq<Visit>): seq<UsageEvent> {
    if visits == [] then []
    else [UsageEvent(Some(pkg), visits[0].enter, MoveToForeground),
          UsageEvent(Some(pkg), visits[0].exit, MoveToBackground)]
         + VisitEvents(pkg, visits[1..])
  }

  /** The time the visits add up to, counting only positive durations. */
  function Elapsed(visits: seq<Visit>): int {
    if visits == [] then 0
    else (if visits[0].exit - visits[0].enter > 0 then visits[0].exit - visits[0].enter else 0)
         + Elapsed(visits[1..])
  }

  /** Alternating foreground and background events of one package add the
      sum of the visits' durations to its total and leave no session open. */
  lemma {:induction false} VisitsAddElapsed(st: Tracker, pkg: string, visits: seq<Visit>)
    requires visits != []
    ensures TotalOf(Run(st, VisitEvents(pkg, visits)).total, pkg) == TotalOf(st.total, pkg) + Elapsed(visits)
    ensures SessionOf(Run(st, VisitEvents(pkg, visits)).fgStart, pkg) == None
    decreases |visits|
  {
    var enter := UsageEvent(Some(pkg), visits[0].enter, MoveToForeground);
    var exit := UsageEvent(Some(pkg), visits[0].exit, MoveToBackground);
    var first := [enter] + [] + [exit];
    EnterThenExit(st, pkg, enter, [], exit);
    assert first == [enter, exit];
    if |visits| > 1 {
      RunAppend(st, first, VisitEvents(pkg, visits[1..]));
      VisitsAddElapsed(Run(st, first), pkg, visits[1..]);
    } else {
      assert VisitEvents(pkg, visits) == first;
    }
  }

  /** Every total the exact reconstruction reports is strictly positive. */
  lemma TotalsPositive(events: seq<UsageEvent>, end: int)
    ensures AllPositive(Totals(events, end))
  {
    RunGrows(Empty, events);
    var st := Run(Empty, events);
    CloseOpenEffect(st.fgStart, st.total, end);
  }
  /** The platform delivers the events of [start, end] in time order. */
  ghost predicate InWindow(events: seq<UsageEvent>, start: int, end: int) {
    && (forall i :: 0 <= i < |events| ==> start <= events[i].timeStamp <= end)
    && (forall i, j :: 0 <= i < j < |events| ==> events[i].timeStamp <= events[j].timeStamp)
  }

  /** No package has been credited more time than has passed since `start`:
      one with an open session started at `s` (no later than `now`) has at
      most `s - start`, one without a session at most `now - start`. */
  ghost predicate WithinElapsed(st: Tracker, start: int, now: int) {
    forall pkg :: match SessionOf(st.fgStart, pkg)
      case Some(s) => start <= s <= now && TotalOf(st.total, pkg) <= s - start
      case None => TotalOf(st.total, pkg) <= now - start
  }

  /** The time of the last event read, `start` before any. */
  function LastTime(events: seq<UsageEvent>, start: int): int {
    if events == [] then start else events[|events| - 1].timeStamp
  }

  /** Reading a time-ordered stream never credits a package with more time
      than has elapsed up to the last event. */
  lemma {:induction false} RunWithinElapsed(events: seq<UsageEvent>, start: int, end: int)
    requires start <= end && InWindow(events, start, end)
    ensures WithinElapsed(Run(Empty, events), start, LastTime(events, start))
    decreases |events|
  {
    if events != [] {
      var prefix := events[..|events| - 1];
      assert InWindow(prefix, start, end);
      RunWithinElapsed(prefix, start, end);
      var before := LastTime(prefix, start);
      var e := events[|events| - 1];
      assert before <= e.timeStamp;
      var mid := Run(Empty, prefix);
      var after := Step(mid, e);
      forall pkg
        ensures match SessionOf(after.fgStart, pkg)
          case Some(s) => start <= s <= e.timeStamp && TotalOf(after.total, pkg) <= s - start
          case None => TotalOf(after.total, pkg) <= e.timeStamp - start
      {
        assert SessionOf(mid.fgStart, pkg).Some? ==> start <= SessionOf(mid.fgStart, pkg).value <= before;
      }
    }
  }

  /** Time is never counted twice: for a time-ordered stream inside the
      window [start, end], no package's total exceeds the window's length. */
  lemma NoDoubleCount(events: seq<UsageEvent>, start: int, end: int, pkg: string)
    requires start <= end && InWindow(events, start, end)
    ensures TotalOf(Totals(events, end), pkg) <= end - start
  {
    RunWithinElapsed(events, start, end);
    var st := Run(Empty, events);
    CloseOpenEffect(st.fgStart, st.total, end);
  }
}

module ExactScenarios {
  import opened UsageTypes
  import opened EventFold

  /** One foreground session of one minute inside a two-minute window. */
  lemma ClosedSession()
    ensures Totals([UsageEvent(Some("com.a"), 0, MoveToForeground),
                    UsageEvent(Some("com.a"), 60000, MoveToBackground)], 120000)
         == map["com.a" := 60000]
  {
    var events := [UsageEvent(Some("com.a"), 0, MoveToForeground),
                   UsageEvent(Some("com.a"), 60000, MoveToBackground)];
    assert events[..1] == [events[0]];
    assert events[..1][..0] == [];
    var started := Run(Empty, events[..1]);
    assert started == Step(Run(Empty, []), events[0]);
    assert started == Tracker(map["com.a" := Some(0)], map[]);
    var st := Run(Empty, events);
    assert st == Step(started, events[1]);
    assert st == Tracker(map["com.a" := None], map["com.a" := 60000]);
    assert Totals(events, 120000).Keys == {"com.a"};
  }

  /** A session still open when the window closes is closed at its end. */
  lemma SessionOpenAtEnd()
    ensures Totals([UsageEvent(Some("com.a"), 0, ActivityResumed)], 100000) == map["com.a" := 100000]
  {
    var events := [UsageEvent(Some("com.a"), 0, ActivityResumed)];
    assert events[..0] == [];
    assert Run(Empty, events) == Tracker(map["com.a" := Some(0)], map[]);
    assert Totals(events, 100000).Keys == {"com.a"};
  }

  /** A background event with no earlier foreground event contributes
      nothing. */
  lemma ExitWithoutEnter()
    ensures Totals([UsageEvent(Some("com.b"), 50, ActivityPaused)], 1000) == map[]
  {
    var events := [UsageEvent(Some("com.b"), 50, ActivityPaused)];
    assert events[..0] == [];
    assert Run(Empty, events) == Empty;
    assert Totals(events, 1000).Keys == {};
  }
}
