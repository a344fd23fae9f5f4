/** Whole runs of ipv6stats/ipv6stats.cpp: which records each report is about. */
module Ipv6Runs {
  import opened WindowEnds
  import opened Ipv6Stats

  datatype Event = Got(flow: Flow) | TimedOut

  // The records between the ends of a window: those of the windows that have ended, and those of the open one.
  datatype Cut = Cut(closed: seq<seq<Flow>>, open: seq<Flow>, end: nat, started: bool)

  // A window ends with a timeout, or before a record that is not earlier than its end; the first record sets this.
  function Next(c: Cut, e: Event, size: nat): Cut
    requires size > 0
  {
    match e
    case TimedOut => c.(closed := c.closed + [c.open], open := [], end := c.end + size)
    case Got(f) =>
      if !c.started then c.(open := c.open + [f], end := ClosestEnd(f.time, size), started := true)
      else if c.end <= f.time then c.(closed := c.closed + [c.open], open := [f], end := c.end + size)
      else c.(open := c.open + [f])
  }

  function Walk(es: seq<Event>, size: nat): Cut
    requires size > 0
  {
    if es == [] then Cut([], [], 0, false) else Next(Walk(es[..|es| - 1], size), es[|es| - 1], size)
  }

  function FlowsOf(es: seq<Event>): seq<Flow> {
    if es == [] then []
    else
      var n := |es| - 1;
      if es[n].Got? then FlowsOf(es[..n]) + [es[n].flow] else FlowsOf(es[..n])
  }

  function Joined(parts: seq<seq<Flow>>): seq<Flow> {
    if parts == [] then [] else Joined(parts[..|parts| - 1]) + parts[|parts| - 1]
  }

  lemma JoinedMore(parts: seq<seq<Flow>>, part: seq<Flow>)
    ensures Joined(parts + [part]) == Joined(parts) + part
  {
    assert (parts + [part])[..|parts|] == parts;
  }

  /** The windows cut the records, in their order, into pieces: each record belongs to one window of each size. */
  lemma {:induction false} WindowsCutTheRun(es: seq<Event>, size: nat)
    requires size > 0
    ensures Joined(Walk(es, size).closed) + Walk(es, size).open == FlowsOf(es)
  {
    if es != [] {
      var n := |es| - 1;
      WindowsCutTheRun(es[..n], size);
      var c := Walk(es[..n], size);
      JoinedMore(c.closed, c.open);
    }
  }

  // the sources of these records that sent enough packets
  ghost function SourcesOf(fs: seq<Flow>, threshold: nat): Seen {
    Seen(set f | f in fs && f.packets >= threshold && f.source.V4? :: f.source.ip4,
         set f | f in fs && f.packets >= threshold && f.source.V6? :: f.source.ip6)
  }

  lemma SourcesMore(fs: seq<Flow>, f: Flow, threshold: nat)
    ensures var was, now := SourcesOf(fs, threshold), SourcesOf(fs + [f], threshold);
            && now.v4 == (if f.source.V4? && f.packets >= threshold then was.v4 + {f.source.ip4} else was.v4)
            && now.v6 == (if f.source.V6? && f.packets >= threshold then was.v6 + {f.source.ip6} else was.v6)
  {
    assert forall g :: g in fs + [f] <==> g in fs || g == f;
  }

  lemma NoSources(threshold: nat)
    ensures SourcesOf([], threshold) == Seen({}, {})
  {}

  // what the reports of one kind are about, in their order
  ghost function AboutOf(reports: seq<Report>, truths: seq<Seen>, isLong: bool): seq<Seen>
    requires |reports| == |truths|
  {
    if reports == [] then []
    else
      var n := |reports| - 1;
      var before := AboutOf(reports[..n], truths[..n], isLong);
      if reports[n].isLong == isLong then before + [truths[n]] else before
  }

  lemma AboutMore(reports: seq<Report>, truths: seq<Seen>, r: Report, t: Seen, isLong: bool)
    requires |reports| == |truths|
    ensures AboutOf(reports + [r], truths + [t], isLong)
            == AboutOf(reports, truths, isLong) + if r.isLong == isLong then [t] else []
  {
    assert (reports + [r])[..|reports|] == reports && (truths + [t])[..|truths|] == truths;
  }

  ghost function SourcesOfEach(parts: seq<seq<Flow>>, threshold: nat): (r: seq<Seen>)
    ensures |r| == |parts| && forall i :: 0 <= i < |parts| ==> r[i] == SourcesOf(parts[i], threshold)
  {
    seq(|parts|, i requires 0 <= i < |parts| => SourcesOf(parts[i], threshold))
  }

  // one window, and what was reported
  datatype View = View(size: nat, end: nat, seen: Seen)
  datatype Snap = Snap(initialized: bool, short: View, long: View, reports: seq<Report>, truths: seq<Seen>)

  ghost function ViewOf(w: Window): View
    reads w
  {
    View(w.size, w.end, w.seen)
  }

  ghost function SnapOf(stats: Ipv6Stats): Snap
    reads stats, stats.shortWindow, stats.longWindow
  {
    Snap(stats.initialized, ViewOf(stats.shortWindow), ViewOf(stats.longWindow), stats.reports, stats.truths)
  }

  // the window and the reports about it are those of the records
  ghost predicate ViewFollows(v: View, isLong: bool, n: Snap, es: seq<Event>, threshold: nat) {
    && v.size > 0 && |n.reports| == |n.truths|
    && var c := Walk(es, v.size);
       && v.end == c.end && v.seen == SourcesOf(c.open, threshold) && n.initialized == c.started
       && AboutOf(n.reports, n.truths, isLong) == SourcesOfEach(c.closed, threshold)
  }

  ghost predicate SnapFollows(n: Snap, es: seq<Event>, threshold: nat) {
    ViewFollows(n.short, false, n, es, threshold) && ViewFollows(n.long, true, n, es, threshold)
  }

  ghost predicate Follows(stats: Ipv6Stats, es: seq<Event>)
    reads stats, stats.shortWindow, stats.longWindow
  {
    stats.Valid() && SnapFollows(SnapOf(stats), es, stats.threshold)
  }

  // the event ends the window
  predicate Turns(n: Snap, v: View, e: Event) {
    e.TimedOut? || (n.initialized && v.end <= e.flow.time)
  }

  ghost predicate ViewMoves(n: Snap, v: View, e: Event, w: View, threshold: nat) {
    && w.size == v.size > 0
    && w.end == (if Turns(n, v, e) then v.end + v.size else if n.initialized then v.end
                 else ClosestEnd(e.flow.time, v.size))
    && var was := if Turns(n, v, e) then Seen({}, {}) else v.seen;
       match e
       case TimedOut => w.seen == Seen({}, {})
       case Got(f) =>
         && w.seen.v4 == (if f.source.V4? && f.packets >= threshold then was.v4 + {f.source.ip4} else was.v4)
         && w.seen.v6 == (if f.source.V6? && f.packets >= threshold then was.v6 + {f.source.ip6} else was.v6)
  }

  // one event, and the reports it has written, of the short window first
  ghost predicate SnapMoves(n: Snap, e: Event, m: Snap, short: seq<Report>, long: seq<Report>, threshold: nat) {
    && ViewMoves(n, n.short, e, m.short, threshold) && ViewMoves(n, n.long, e, m.long, threshold)
    && m.initialized == (n.initialized || e.Got?)
    && |n.reports| == |n.truths|
    && |short| == (if Turns(n, n.short, e) then 1 else 0) && |long| == (if Turns(n, n.long, e) then 1 else 0)
    && (forall r :: r in short ==> !r.isLong) && (forall r :: r in long ==> r.isLong)
    && m.reports == n.reports + short + long
    && m.truths == n.truths + (if Turns(n, n.short, e) then [n.short.seen] else [])
                   + (if Turns(n, n.long, e) then [n.long.seen] else [])
  }

  // what one event does to the cut, the open sources and the reports of one window
  lemma CutMore(es: seq<Event>, e: Event, size: nat)
    requires size > 0
    ensures Walk(es + [e], size) == Next(Walk(es, size), e, size)
  {
    assert (es + [e])[..|es|] == es;
  }

  // the reports of one kind after those that one event has written
  lemma AboutAfter(reports: seq<Report>, truths: seq<Seen>, short: seq<Report>, shorts: seq<Seen>,
                   long: seq<Report>, longs: seq<Seen>, isLong: bool)
    requires |reports| == |truths| && |short| == |shorts| <= 1 && |long| == |longs| <= 1
    requires (forall r :: r in short ==> !r.isLong) && (forall r :: r in long ==> r.isLong)
    ensures AboutOf(reports + short + long, truths + shorts + longs, isLong)
            == AboutOf(reports, truths, isLong) + if isLong then longs else shorts
  {
    if short == [] {
      assert reports + short == reports && truths + shorts == truths;
    } else {
      AboutMore(reports, truths, short[0], shorts[0], isLong);
      assert short == [short[0]] && shorts == [shorts[0]];
    }
    if long == [] {
      assert reports + short + long == reports + short && truths + shorts + longs == truths + shorts;
    } else {
      AboutMore(reports + short, truths + shorts, long[0], longs[0], isLong);
      assert long == [long[0]] && longs == [longs[0]];
    }
  }

  lemma EachMore(parts: seq<seq<Flow>>, part: seq<Flow>, threshold: nat)
    ensures SourcesOfEach(parts + [part], threshold) == SourcesOfEach(parts, threshold) + [SourcesOf(part, threshold)]
  {}

  lemma {:induction false} NotStarted(es: seq<Event>, size: nat)
    requires size > 0 && !Walk(es, size).started
    ensures Walk(es, size).open == []
  {
    if es != [] {
      NotStarted(es[..|es| - 1], size);
    }
  }

  // one window, when the event turns it or not
  lemma OneViewMoves(n: Snap, v: View, isLong: bool, e: Event, w: View, m: Snap, es: seq<Event>, threshold: nat)
    requires ViewFollows(v, isLong, n, es, threshold) && ViewMoves(n, v, e, w, threshold)
    requires m.initialized == (n.initialized || e.Got?) && |m.reports| == |m.truths|
    requires AboutOf(m.reports, m.truths, isLong)
             == AboutOf(n.reports, n.truths, isLong) + if Turns(n, v, e) then [v.seen] else []
    ensures ViewFollows(w, isLong, m, es + [e], threshold)
  {
    hide SourcesOf, AboutOf, SourcesOfEach, Walk;
    var c := Walk(es, v.size);
    CutMore(es, e, v.size);
    EachMore(c.closed, c.open, threshold);
    NoSources(threshold);
    if !c.started {
      NotStarted(es, v.size);
    }
    if e.Got? {
      SourcesMore(c.open, e.flow, threshold);
      SourcesMore([], e.flow, threshold);
      assert [] + [e.flow] == [e.flow];
    }
    assert AboutOf(n.reports, n.truths, isLong) + [] == AboutOf(n.reports, n.truths, isLong);
  }

  lemma StillFollows(n: Snap, e: Event, m: Snap, short: seq<Report>, long: seq<Report>, es: seq<Event>, threshold: nat)
    requires SnapFollows(n, es, threshold) && SnapMoves(n, e, m, short, long, threshold)
    ensures SnapFollows(m, es + [e], threshold)
  {
    hide ViewFollows, ViewMoves, AboutOf;
    var shorts := if Turns(n, n.short, e) then [n.short.seen] else [];
    var longs := if Turns(n, n.long, e) then [n.long.seen] else [];
    AboutAfter(n.reports, n.truths, short, shorts, long, longs, false);
    AboutAfter(n.reports, n.truths, short, shorts, long, longs, true);
    OneViewMoves(n, n.short, false, e, m.short, m, es, threshold);
    OneViewMoves(n, n.long, true, e, m.long, m, es, threshold);
  }

  // one event of the main loop: a record, or a timeout
  method TakeEvent(stats: Ipv6Stats, e: Event) returns (ghost short: seq<Report>, ghost long: seq<Report>)
    requires stats.Valid()
    modifies stats, stats.shortWindow, stats.longWindow
    ensures stats.Valid()
    ensures SnapMoves(old(SnapOf(stats)), e, SnapOf(stats), short, long, stats.threshold)
  {
    match e
    case Got(f) => short, long := TakeRecord(stats, f);
    case TimedOut => short, long := TakeTimeout(stats);
  }

  method TakeRecord(stats: Ipv6Stats, f: Flow) returns (ghost short: seq<Report>, ghost long: seq<Report>)
    requires stats.Valid()
    modifies stats, stats.shortWindow, stats.longWindow
    ensures stats.Valid()
    ensures SnapMoves(old(SnapOf(stats)), Got(f), SnapOf(stats), short, long, stats.threshold)
  {
    SizesPositive(stats);
    hide Ipv6Stats.Valid, ViewMoves, SnapMoves, ShortAfter, LookedUp, Window.Half;
    ghost var n := SnapOf(stats);
    ghost var shortTurns := stats.initialized && f.time >= stats.shortWindow.end;
    ghost var longTurns := stats.initialized && f.time >= stats.longWindow.end;
    short := if shortTurns then [stats.shortWindow.ReportOf(false, false)] else [];
    long := if longTurns then [stats.longWindow.ReportOf(true, false)] else [];
    stats.ProcessRecord(f);
    RecordMoves(n, n.short, f, ViewOf(stats.shortWindow), stats.threshold);
    RecordMoves(n, n.long, f, ViewOf(stats.longWindow), stats.threshold);
    AllMoves(n, f, SnapOf(stats), short, long, stats.threshold);
  }

  lemma AllMoves(n: Snap, f: Flow, m: Snap, short: seq<Report>, long: seq<Report>, threshold: nat)
    requires ViewMoves(n, n.short, Got(f), m.short, threshold) && ViewMoves(n, n.long, Got(f), m.long, threshold)
    requires m.initialized && |n.reports| == |n.truths|
    requires |short| == (if n.initialized && f.time >= n.short.end then 1 else 0)
    requires forall r :: r in short ==> !r.isLong
    requires |long| == (if n.initialized && f.time >= n.long.end then 1 else 0) && forall r :: r in long ==> r.isLong
    requires m.reports == n.reports + short + long
    requires m.truths == n.truths + (if n.initialized && f.time >= n.short.end then [n.short.seen] else [])
                         + (if n.initialized && f.time >= n.long.end then [n.long.seen] else [])
    ensures SnapMoves(n, Got(f), m, short, long, threshold)
  {
    hide ViewMoves;
  }

  lemma RecordMoves(n: Snap, v: View, f: Flow, w: View, threshold: nat)
    requires w.size == v.size > 0
    requires w.end == if n.initialized then NextEnd(v.end, v.size, f.time) else ClosestEnd(f.time, v.size)
    requires var was := if n.initialized && f.time >= v.end then Seen({}, {}) else v.seen;
             && w.seen.v4 == (if f.source.V4? && f.packets >= threshold then was.v4 + {f.source.ip4} else was.v4)
             && w.seen.v6 == (if f.source.V6? && f.packets >= threshold then was.v6 + {f.source.ip6} else was.v6)
    ensures ViewMoves(n, v, Got(f), w, threshold)
  {}

  method TakeTimeout(stats: Ipv6Stats) returns (ghost short: seq<Report>, ghost long: seq<Report>)
    requires stats.Valid()
    modifies stats, stats.shortWindow, stats.longWindow
    ensures stats.Valid()
    ensures SnapMoves(old(SnapOf(stats)), TimedOut, SnapOf(stats), short, long, stats.threshold)
  {
    SizesPositive(stats);
    hide Ipv6Stats.Valid;
    ghost var n := SnapOf(stats);
    short, long := [stats.shortWindow.ReportOf(false, true)], [stats.longWindow.ReportOf(true, true)];
    stats.Timeout();
    assert stats.reports == n.reports + short + long;
    assert stats.truths == n.truths + [n.short.seen] + [n.long.seen];
  }

  lemma SizesPositive(stats: Ipv6Stats)
    requires stats.Valid()
    ensures stats.shortWindow.size > 0 && stats.longWindow.size > 0 && |stats.reports| == |stats.truths|
  {}

  method Receive(stats: Ipv6Stats, e: Event, ghost es: seq<Event>)
    requires Follows(stats, es)
    modifies stats, stats.shortWindow, stats.longWindow
    ensures Follows(stats, es + [e])
  {
    hide SnapFollows, SnapMoves, SnapOf;
    ghost var n := SnapOf(stats);
    ghost var short, long := TakeEvent(stats, e);
    StillFollows(n, e, SnapOf(stats), short, long, es, stats.threshold);
  }

  /**
   * From program start, over all records and timeouts: the reports of each kind are, one by one, about the sources with
   * enough packets among the records between two ends of the window, and each counts them.
   */
  method RunAll(windowShort: nat, windowLong: nat, threshold: nat, falsePositive: Oracle, es: seq<Event>)
    returns (stats: Ipv6Stats)
    requires windowShort > 0 && windowLong > 0
    ensures fresh(stats) && stats.Valid() && stats.threshold == threshold
    ensures AboutOf(stats.reports, stats.truths, false) == SourcesOfEach(Walk(es, windowShort).closed, threshold)
    ensures AboutOf(stats.reports, stats.truths, true) == SourcesOfEach(Walk(es, windowLong).closed, threshold)
    ensures stats.shortWindow.seen == SourcesOf(Walk(es, windowShort).open, threshold)
    ensures stats.longWindow.seen == SourcesOf(Walk(es, windowLong).open, threshold)
    ensures |stats.reports| == |stats.truths|
    ensures forall i :: 0 <= i < |stats.reports| ==>
      Counts(stats.reports[i], stats.truths[i], windowLong % windowShort == 0, Exact(falsePositive))
  {
    hide SnapFollows, SnapOf;
    stats := Start(windowShort, windowLong, threshold, falsePositive);
    for i := 0 to |es|
      invariant fresh(stats) && fresh(stats.shortWindow) && fresh(stats.longWindow)
      invariant stats.shortWindow.size == windowShort && stats.longWindow.size == windowLong
      invariant stats.threshold == threshold && Follows(stats, es[..i])
      invariant stats.shortWindow.falsePositive == stats.longWindow.falsePositive == falsePositive
    {
      assert es[..i + 1] == es[..i] + [es[i]];
      Receive(stats, es[i], es[..i]);
    }
    assert es[..|es|] == es;
    FollowsMeans(stats, es);
    ReportsCount(stats);
  }

  // The numbers of a report are never over the true ones, and with exact filters they are these. The number of IPv4
  // addresses is promised for a short window only when it divides the long one.
  ghost predicate Counts(r: Report, seen: Seen, divides: bool, exact: bool) {
    && (r.isLong || divides ==> r.ipv4 <= |seen.v4| && (exact ==> r.ipv4 == |seen.v4|))
    && r.ipv6 <= |seen.v6| && (exact ==> r.ipv6 == |seen.v6|)
    && r.prefix64 <= |set a | a in seen.v6 :: a[..8]| && (exact ==> r.prefix64 == |set a | a in seen.v6 :: a[..8]|)
    && r.prefix48 <= |set a | a in seen.v6 :: a[..6]| && (exact ==> r.prefix48 == |set a | a in seen.v6 :: a[..6]|)
  }

  lemma ReportsCount(stats: Ipv6Stats)
    requires stats.Valid()
    ensures stats.shortWindow.size > 0 && |stats.reports| == |stats.truths|
    ensures forall i :: 0 <= i < |stats.reports| ==>
      Counts(stats.reports[i], stats.truths[i], stats.longWindow.size % stats.shortWindow.size == 0, stats.AreExact())
  {
    forall i | 0 <= i < |stats.reports|
      ensures Counts(stats.reports[i], stats.truths[i], stats.Aligned(), stats.AreExact())
    {
      OneReportCounts(stats.AreExact(), stats.Aligned(), stats.reports[i], stats.truths[i]);
    }
  }

  lemma OneReportCounts(exact: bool, aligned: bool, r: Report, seen: Seen)
    requires ReportOk(exact, aligned, r, seen)
    ensures Counts(r, seen, aligned, exact)
  {
    assert Prefixes(seen.v6, 8) == set a | a in seen.v6 :: a[..8];
    assert Prefixes(seen.v6, 6) == set a | a in seen.v6 :: a[..6];
  }

  method Start(windowShort: nat, windowLong: nat, threshold: nat, falsePositive: Oracle) returns (stats: Ipv6Stats)
    requires windowShort > 0 && windowLong > 0
    ensures fresh(stats) && fresh(stats.shortWindow) && fresh(stats.longWindow)
    ensures stats.shortWindow.size == windowShort && stats.longWindow.size == windowLong
    ensures stats.threshold == threshold && Follows(stats, [])
    ensures stats.shortWindow.falsePositive == stats.longWindow.falsePositive == falsePositive
  {
    stats := new Ipv6Stats(windowShort, windowLong, threshold, falsePositive);
    NoSources(threshold);
    assert SourcesOfEach([], threshold) == [];
  }

  lemma FollowsMeans(stats: Ipv6Stats, es: seq<Event>)
    requires Follows(stats, es)
    ensures stats.shortWindow.size > 0 && stats.longWindow.size > 0
    ensures var short, long := Walk(es, stats.shortWindow.size), Walk(es, stats.longWindow.size);
            && AboutOf(stats.reports, stats.truths, false) == SourcesOfEach(short.closed, stats.threshold)
            && AboutOf(stats.reports, stats.truths, true) == SourcesOfEach(long.closed, stats.threshold)
            && stats.shortWindow.seen == SourcesOf(short.open, stats.threshold)
            && stats.longWindow.seen == SourcesOf(long.open, stats.threshold)
  {}
}
