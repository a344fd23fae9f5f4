/** The main loop of ipv6stats/ipv6stats.cpp: unique addresses and prefixes in a short and a long window. */
module Ipv6Stats {
  import opened WindowEnds

  type Byte = x: int | 0 <= x < 0x100
  type Bytes = seq<Byte>
  type Ip4 = s: Bytes | |s| == 4 witness [0, 0, 0, 0]
  type Ip6 = s: Bytes | |s| == 16 witness [0, 0, 0, 0, 0, 0, 0, 0, 0, 0, 0, 0, 0, 0, 0, 0]

  datatype Address = V4(ip4: Ip4) | V6(ip6: Ip6)
  datatype Flow = Flow(time: nat, source: Address, packets: nat)

  // what is written to the output files
  datatype Report = Report(isLong: bool, ipv4: nat, ipv6: nat, prefix64: nat, prefix48: nat, inactive: bool)

  // the first n bytes of the addresses
  ghost function Prefixes(s: set<Ip6>, n: nat): set<Bytes>
    requires n <= 16
  {
    set a | a in s :: a[..n]
  }

  // the addresses that count in a window
  datatype Seen = Seen(v4: set<Ip4>, v6: set<Ip6>)

  // A filter never forgets what was inserted; what else it takes to be present depends on what was inserted.
  type Oracle = (set<Bytes>, Bytes) -> bool

  ghost predicate Exact(falsePositive: Oracle) {
    forall s, x :: !falsePositive(s, x)
  }

  // what was inserted and counted is never more than there is, and all of it when the filter is exact
  ghost predicate Counted(exact: bool, inserted: set<Bytes>, count: nat, all: set<Bytes>) {
    && inserted <= all && count <= |inserted|
    && (exact ==> inserted == all && count == |inserted|)
  }

  // the filter and the counter of IPv4 addresses
  datatype Half4 = Half4(ipv4: set<Bytes>, count: nat)

  function LookedUp(h: Half4, falsePositive: Oracle, a: Ip4): Half4 {
    Half4(h.ipv4 + {a}, if a in h.ipv4 || falsePositive(h.ipv4, a) then h.count else h.count + 1)
  }

  // The short window is looked up only when the long one has the address, else the address is taken to be new.
  function ShortAfter(short: Half4, long: Half4, inShort: Oracle, inLong: Oracle, a: Ip4): Half4 {
    if a in long.ipv4 || inLong(long.ipv4, a) then LookedUp(short, inShort, a)
    else Half4(short.ipv4 + {a}, short.count + 1)
  }

  /** One window: its counters, and what was inserted into each of its four filters. */
  class Window {
    const size: nat
    const falsePositive: Oracle
    var end: nat
    var uniIpv4: nat
    var uniIpv6: nat
    var uniPrefix64: nat
    var uniPrefix48: nat
    var ipv4: set<Bytes>
    var ipv6: set<Bytes>
    var prefix64: set<Bytes>
    var prefix48: set<Bytes>
    ghost var seen: Seen

    ghost predicate Counts4()
      reads this
    {
      Counted(Exact(falsePositive), ipv4, uniIpv4, seen.v4)
    }

    ghost predicate Counts6()
      reads this
    {
      var exact := Exact(falsePositive);
      && Counted(exact, ipv6, uniIpv6, Prefixes(seen.v6, 16))
      && Counted(exact, prefix64, uniPrefix64, Prefixes(seen.v6, 8))
      && Counted(exact, prefix48, uniPrefix48, Prefixes(seen.v6, 6))
    }

    function Half(): Half4
      reads this
    {
      Half4(ipv4, uniIpv4)
    }

    // what is written about the window
    function ReportOf(isLong: bool, inactive: bool): Report
      reads this
    {
      Report(isLong, uniIpv4, uniIpv6, uniPrefix64, uniPrefix48, inactive)
    }

    ghost predicate Empty()
      reads this
    {
      && uniIpv4 == uniIpv6 == uniPrefix64 == uniPrefix48 == 0
      && ipv4 == ipv6 == prefix64 == prefix48 == {} && seen == Seen({}, {})
    }

    constructor (size: nat, falsePositive: Oracle)
      ensures this.size == size && this.falsePositive == falsePositive && end == 0 && Empty()
    {
      this.size, this.falsePositive, end := size, falsePositive, 0;
      uniIpv4, uniIpv6, uniPrefix64, uniPrefix48 := 0, 0, 0, 0;
      ipv4, ipv6, prefix64, prefix48 := {}, {}, {}, {};
      seen := Seen({}, {});
    }

    // containsinsert
    method ContainsInsert(filter: set<Bytes>, x: Bytes) returns (present: bool, filter': set<Bytes>)
      ensures present == (x in filter || falsePositive(filter, x)) && filter' == filter + {x}
      ensures Exact(falsePositive) ==> (present <==> x in filter)
      ensures |filter'| == |filter| + if x in filter then 0 else 1
    {
      if x in filter {
        assert filter + {x} == filter;
      }
      present := x in filter || falsePositive(filter, x);
      filter' := filter + {x};
    }

    // clear_stats
    method ClearStats()
      modifies this
      ensures uniIpv4 == uniIpv6 == uniPrefix64 == uniPrefix48 == 0
      ensures unchanged(`end, `ipv4, `ipv6, `prefix64, `prefix48, `seen)
    {
      uniIpv4, uniIpv6, uniPrefix64, uniPrefix48 := 0, 0, 0, 0;
    }

    // clear_stats and the next end, where the filters are empty already
    method NextEmptyWindow()
      requires Empty()
      modifies this
      ensures Empty() && end == old(end) + size
    {
      ClearStats();
      end := end + size;
    }

    // clear_stats, the clear of the four filters, and the next end
    method NextWindow()
      modifies this
      ensures Empty() && end == old(end) + size
    {
      ClearStats();
      ipv4, ipv6, prefix64, prefix48 := {}, {}, {}, {};
      seen := Seen({}, {});
      end := end + size;
    }

    method LookUpIpv4(a: Ip4) returns (present: bool)
      modifies `ipv4, `uniIpv4, `seen
      ensures Half() == LookedUp(old(Half()), falsePositive, a) && seen == Seen(old(seen).v4 + {a}, old(seen).v6)
      ensures present == (a in old(ipv4) || falsePositive(old(ipv4), a))
      ensures old(Counts4()) ==> Counts4()
    {
      hide Exact, Counted;
      ghost var was := ipv4;
      present, ipv4 := ContainsInsert(ipv4, a);
      if old(Counts4()) {
        CountedStep(Exact(falsePositive), was, uniIpv4, seen.v4, a, present);
      }
      if !present {
        uniIpv4 := uniIpv4 + 1;
      }
      seen := Seen(seen.v4 + {a}, seen.v6);
    }

    // an address that is taken not to be in the filter
    method InsertIpv4(a: Ip4)
      modifies `ipv4, `uniIpv4, `seen
      ensures Half() == Half4(old(ipv4) + {a}, old(uniIpv4) + 1) && seen == Seen(old(seen).v4 + {a}, old(seen).v6)
      ensures old(Counts4()) && a !in old(ipv4) ==> Counts4()
    {
      hide Exact, Counted;
      if old(Counts4()) && a !in ipv4 {
        CountedStep(Exact(falsePositive), ipv4, uniIpv4, seen.v4, a, false);
      }
      ipv4 := ipv4 + {a};
      uniIpv4 := uniIpv4 + 1;
      seen := Seen(seen.v4 + {a}, seen.v6);
    }

    // the lookups of the prefixes of an address that was not present
    method CountPrefixes(a: Ip6)
      requires Counted(Exact(falsePositive), prefix64, uniPrefix64, Prefixes(seen.v6, 8))
      requires Counted(Exact(falsePositive), prefix48, uniPrefix48, Prefixes(seen.v6, 6))
      modifies `prefix64, `prefix48, `uniPrefix64, `uniPrefix48
      ensures Counted(Exact(falsePositive), prefix64, uniPrefix64, Prefixes(seen.v6, 8) + {a[..8]})
      ensures Counted(Exact(falsePositive), prefix48, uniPrefix48, Prefixes(seen.v6, 6) + {a[..6]})
    {
      hide Exact, Prefixes, Counted;
      ghost var exact, all64, all48 := Exact(falsePositive), Prefixes(seen.v6, 8), Prefixes(seen.v6, 6);
      SeenBefore(seen.v6, a);
      var present;
      ghost var items := prefix64;
      present, prefix64 := ContainsInsert(prefix64, a[..8]);
      CountedStep(exact, items, uniPrefix64, all64, a[..8], present);
      if present {
        CountedSkip(exact, prefix48, uniPrefix48, all48, a[..6]);
      } else {
        uniPrefix64 := uniPrefix64 + 1;
        items := prefix48;
        present, prefix48 := ContainsInsert(prefix48, a[..6]);
        CountedStep(exact, items, uniPrefix48, all48, a[..6], present);
        if !present {
          uniPrefix48 := uniPrefix48 + 1;
        }
      }
    }

    // the nested lookups for one IPv6 address
    method CountIpv6(a: Ip6)
      requires Counts6()
      modifies this
      ensures Counts6() && seen == Seen(old(seen).v4, old(seen).v6 + {a})
      ensures unchanged(`end, `uniIpv4, `ipv4)
    {
      hide Exact, Prefixes, Counted;
      ghost var exact, was := Exact(falsePositive), seen.v6;
      PrefixesAdd(was, a);
      SeenBefore(was, a);
      var present;
      ghost var items := ipv6;
      present, ipv6 := ContainsInsert(ipv6, a[..16]);
      CountedStep(exact, items, uniIpv6, Prefixes(was, 16), a[..16], present);
      if present {
        CountedSkip(exact, prefix64, uniPrefix64, Prefixes(was, 8), a[..8]);
        CountedSkip(exact, prefix48, uniPrefix48, Prefixes(was, 6), a[..6]);
      } else {
        uniIpv6 := uniIpv6 + 1;
        CountPrefixes(a);
      }
      seen := Seen(seen.v4, was + {a});
    }
  }

  // what a flow adds to what is to be counted
  ghost function SeenWith(seen: Seen, f: Flow, threshold: nat): Seen {
    if f.packets < threshold then seen
    else if f.source.V4? then Seen(seen.v4 + {f.source.ip4}, seen.v6)
    else Seen(seen.v4, seen.v6 + {f.source.ip6})
  }

  // a count of this many different ones
  ghost predicate CountOf(exact: bool, count: nat, all: nat) {
    count <= all && (exact ==> count == all)
  }

  // Reports are never over the true numbers, and equal to them with exact filters. The IPv4 number of a short window is
  // right when the long window is a multiple of the short one.
  ghost predicate ReportOk(exact: bool, aligned: bool, r: Report, seen: Seen) {
    && (r.isLong || aligned ==> CountOf(exact, r.ipv4, |seen.v4|))
    && CountOf(exact, r.ipv6, |seen.v6|)
    && CountOf(exact, r.prefix64, |Prefixes(seen.v6, 8)|)
    && CountOf(exact, r.prefix48, |Prefixes(seen.v6, 6)|)
  }

  class Ipv6Stats {
    const shortWindow: Window
    const longWindow: Window
    const threshold: nat
    var initialized: bool
    var inactive: bool
    var reports: seq<Report>          // the output files, in the order of writing
    ghost var truths: seq<Seen>       // what each of them was about

    predicate Aligned() {
      shortWindow.size > 0 && longWindow.size % shortWindow.size == 0
    }

    ghost predicate AreExact() {
      Exact(shortWindow.falsePositive) && Exact(longWindow.falsePositive)
    }

    ghost predicate Nested()
      reads shortWindow, longWindow
    {
      && shortWindow.Counts4() && shortWindow.ipv4 <= longWindow.ipv4
      && shortWindow.size > 0
      && shortWindow.end % shortWindow.size == 0 && longWindow.end % shortWindow.size == 0
      && shortWindow.end <= longWindow.end
    }

    ghost predicate WindowsOk()
      reads this, shortWindow, longWindow
    {
      && shortWindow != longWindow && shortWindow.size > 0 && longWindow.size > 0
      && shortWindow.Counts6() && longWindow.Counts6() && longWindow.Counts4()
      && (Aligned() ==> Nested())
      && (inactive || !initialized ==> shortWindow.Empty() && longWindow.Empty())
    }

    ghost predicate ReportsOk()
      reads this
    {
      && |reports| == |truths|
      && forall i :: 0 <= i < |reports| ==> ReportOk(AreExact(), Aligned(), reports[i], truths[i])
    }

    ghost predicate Valid()
      reads this, shortWindow, longWindow
    {
      WindowsOk() && ReportsOk()
    }

    constructor (windowShort: nat, windowLong: nat, threshold: nat, falsePositive: Oracle)
      requires windowShort > 0 && windowLong > 0
      ensures Valid() && fresh(shortWindow) && fresh(longWindow) && !initialized && !inactive && reports == []
      ensures shortWindow.size == windowShort && longWindow.size == windowLong && this.threshold == threshold
      ensures shortWindow.end == longWindow.end == 0
      ensures shortWindow.falsePositive == longWindow.falsePositive == falsePositive
    {
      shortWindow := new Window(windowShort, falsePositive);
      longWindow := new Window(windowLong, falsePositive);
      this.threshold := threshold;
      initialized, inactive, reports, truths := false, false, [], [];
      new;
      NothingSeen();
    }

    // flush_stats
    method FlushStats(isLong: bool, inactiveFlush: bool)
      requires ReportsOk()
      requires var w := if isLong then longWindow else shortWindow;
               w.Counts6() && (isLong || Aligned() ==> w.Counts4())
      modifies `reports, `truths
      ensures ReportsOk()
      ensures var w := if isLong then longWindow else shortWindow;
              && reports == old(reports) + [w.ReportOf(isLong, inactiveFlush)]
              && truths == old(truths) + [w.seen]
    {
      hide Exact, Prefixes, Counted;
      var w := if isLong then longWindow else shortWindow;
      SizesOf(w);
      reports := reports + [w.ReportOf(isLong, inactiveFlush)];
      truths := truths + [w.seen];
    }

    // the checks whether a window has ended
    method RollWindows(time: nat)
      requires Valid() && initialized && !inactive
      modifies `reports, `truths, shortWindow, longWindow
      ensures Valid()
      ensures shortWindow.end == NextEnd(old(shortWindow.end), shortWindow.size, time)
      ensures longWindow.end == NextEnd(old(longWindow.end), longWindow.size, time)
      ensures Aligned() && longWindow.end != old(longWindow.end) ==> shortWindow.end != old(shortWindow.end)
      ensures if time >= old(shortWindow.end) then shortWindow.Empty()
              else shortWindow.seen == old(shortWindow.seen) && shortWindow.Half() == old(shortWindow.Half())
      ensures if time >= old(longWindow.end) then longWindow.Empty()
              else longWindow.seen == old(longWindow.seen) && longWindow.Half() == old(longWindow.Half())
      ensures truths == old(truths) + (if time >= old(shortWindow.end) then [old(shortWindow.seen)] else [])
                        + (if time >= old(longWindow.end) then [old(longWindow.seen)] else [])
      ensures reports == old(reports)
                         + (if time >= old(shortWindow.end) then [old(shortWindow.ReportOf(false, false))] else [])
                         + (if time >= old(longWindow.end) then [old(longWindow.ReportOf(true, false))] else [])
    {
      hide Exact, Prefixes, Counted, ReportOk;
      if Aligned() {
        EndsStayNested(shortWindow.end, longWindow.end, shortWindow.size, longWindow.size, time);
      }
      if time >= shortWindow.end {
        FlushStats(false, false);
        shortWindow.NextWindow();
        EmptyCounts(shortWindow);
      }
      if time >= longWindow.end {
        FlushStats(true, false);
        longWindow.NextWindow();
        EmptyCounts(longWindow);
      }
    }

    // a timeout after data, and one after a timeout, when the filters are not cleared again
    method FirstTimeout()
      requires Valid() && !inactive
      modifies `reports, `truths, `inactive, shortWindow, longWindow
      ensures Valid() && inactive && shortWindow.Empty() && longWindow.Empty()
      ensures shortWindow.end == old(shortWindow.end) + shortWindow.size
      ensures longWindow.end == old(longWindow.end) + longWindow.size
      ensures truths == old(truths) + [old(shortWindow.seen), old(longWindow.seen)]
      ensures reports == old(reports) + [old(shortWindow.ReportOf(false, true)), old(longWindow.ReportOf(true, true))]
    {
      hide Exact, Prefixes, Counted, ReportOk;
      if Aligned() {
        EndsStayNested(shortWindow.end, longWindow.end, shortWindow.size, longWindow.size, 0);
      }
      FlushStats(false, true);
      shortWindow.NextWindow();
      FlushStats(true, true);
      longWindow.NextWindow();
      inactive := true;
      EmptyCounts(shortWindow);
      EmptyCounts(longWindow);
    }

    method LaterTimeout()
      requires Valid() && inactive
      modifies `reports, `truths, shortWindow, longWindow
      ensures Valid() && inactive && shortWindow.Empty() && longWindow.Empty()
      ensures shortWindow.end == old(shortWindow.end) + shortWindow.size
      ensures longWindow.end == old(longWindow.end) + longWindow.size
      ensures truths == old(truths) + [Seen({}, {}), Seen({}, {})]
      ensures reports == old(reports) + [Report(false, 0, 0, 0, 0, true), Report(true, 0, 0, 0, 0, true)]
    {
      hide Exact, Prefixes, Counted, ReportOk;
      if Aligned() {
        EndsStayNested(shortWindow.end, longWindow.end, shortWindow.size, longWindow.size, 0);
      }
      FlushStats(false, true);
      shortWindow.NextEmptyWindow();
      FlushStats(true, true);
      longWindow.NextEmptyWindow();
      EmptyCounts(shortWindow);
      EmptyCounts(longWindow);
    }

    // a timeout of the input interface
    method Timeout()
      requires Valid()
      modifies `reports, `truths, `inactive, shortWindow, longWindow
      ensures Valid() && inactive && shortWindow.Empty() && longWindow.Empty()
      ensures shortWindow.end == old(shortWindow.end) + shortWindow.size
      ensures longWindow.end == old(longWindow.end) + longWindow.size
      ensures truths == old(truths) + [old(shortWindow.seen), old(longWindow.seen)]
      ensures reports == old(reports) + [old(shortWindow.ReportOf(false, true)), old(longWindow.ReportOf(true, true))]
    {
      hide Exact, Prefixes, Counted, ReportOk;
      if !inactive {
        FirstTimeout();
      } else {
        LaterTimeout();
      }
    }

    // the unique IPv4 address: what is not in the long window is not looked up in the short one
    method CountIpv4(a: Ip4)
      requires longWindow.Counts4() && shortWindow != longWindow
      modifies shortWindow`ipv4, shortWindow`uniIpv4, shortWindow`seen
      modifies longWindow`ipv4, longWindow`uniIpv4, longWindow`seen
      ensures longWindow.Counts4()
      ensures longWindow.Half() == LookedUp(old(longWindow.Half()), longWindow.falsePositive, a)
      ensures shortWindow.Half() == ShortAfter(
                old(shortWindow.Half()), old(longWindow.Half()), shortWindow.falsePositive, longWindow.falsePositive, a)
      ensures shortWindow.seen == Seen(old(shortWindow.seen).v4 + {a}, old(shortWindow.seen).v6)
      ensures longWindow.seen == Seen(old(longWindow.seen).v4 + {a}, old(longWindow.seen).v6)
      ensures old(shortWindow.Counts4() && shortWindow.ipv4 <= longWindow.ipv4) ==>
        shortWindow.Counts4() && shortWindow.ipv4 <= longWindow.ipv4
    {
      hide Exact, Counted;
      var present := longWindow.LookUpIpv4(a);
      if present {
        var _ := shortWindow.LookUpIpv4(a);
      } else {
        shortWindow.InsertIpv4(a);
      }
    }

    // the main loop, for one record
    method ProcessRecord(f: Flow)
      requires Valid()
      modifies this, shortWindow, longWindow
      ensures Valid() && initialized && !inactive
      ensures if old(initialized) then
                && shortWindow.end == NextEnd(old(shortWindow.end), shortWindow.size, f.time)
                && longWindow.end == NextEnd(old(longWindow.end), longWindow.size, f.time)
              else
                && shortWindow.end == ClosestEnd(f.time, shortWindow.size)
                && longWindow.end == ClosestEnd(f.time, longWindow.size)
      ensures Aligned() && old(initialized) && longWindow.end != old(longWindow.end) ==>
        shortWindow.end != old(shortWindow.end)
      ensures reports == old(reports)
                         + (if old(initialized) && f.time >= old(shortWindow.end)
                            then [old(shortWindow.ReportOf(false, false))] else [])
                         + (if old(initialized) && f.time >= old(longWindow.end)
                            then [old(longWindow.ReportOf(true, false))] else [])
      ensures truths == old(truths)
                        + (if old(initialized) && f.time >= old(shortWindow.end) then [old(shortWindow.seen)] else [])
                        + (if old(initialized) && f.time >= old(longWindow.end) then [old(longWindow.seen)] else [])
      ensures var turned := old(initialized) && f.time >= old(shortWindow.end);
              var was := if turned then Seen({}, {}) else old(shortWindow.seen);
              && shortWindow.seen.v4
                 == (if f.source.V4? && f.packets >= threshold then was.v4 + {f.source.ip4} else was.v4)
              && shortWindow.seen.v6
                 == (if f.source.V6? && f.packets >= threshold then was.v6 + {f.source.ip6} else was.v6)
      ensures var turned := old(initialized) && f.time >= old(longWindow.end);
              var was := if turned then Seen({}, {}) else old(longWindow.seen);
              && longWindow.seen.v4
                 == (if f.source.V4? && f.packets >= threshold then was.v4 + {f.source.ip4} else was.v4)
              && longWindow.seen.v6
                 == (if f.source.V6? && f.packets >= threshold then was.v6 + {f.source.ip6} else was.v6)
      ensures f.source.V4? && f.packets >= threshold ==>
        var turned := old(initialized) && f.time >= old(shortWindow.end);
        var short := if turned then Half4({}, 0) else old(shortWindow.Half());
        var long := if old(initialized) && f.time >= old(longWindow.end) then Half4({}, 0) else old(longWindow.Half());
        && longWindow.Half() == LookedUp(long, longWindow.falsePositive, f.source.ip4)
        && shortWindow.Half()
           == ShortAfter(short, long, shortWindow.falsePositive, longWindow.falsePositive, f.source.ip4)
    {
      hide Exact, Prefixes, Counted, ReportOk;
      inactive := false;
      if !initialized {
        Start(f.time);
        ClosestEndIsLeast(f.time, shortWindow.size, 0);
        ClosestEndIsLeast(f.time, longWindow.size, 0);
      }
      RollWindows(f.time);
      CountSource(f);
    }

    method Start(time: nat)
      requires Valid() && !initialized && !inactive
      modifies `initialized, shortWindow, longWindow
      ensures Valid() && initialized && shortWindow.Empty() && longWindow.Empty()
      ensures shortWindow.end == ClosestEnd(time, shortWindow.size)
      ensures longWindow.end == ClosestEnd(time, longWindow.size)
    {
      hide Exact, Prefixes, Counted, ReportOk;
      initialized := true;
      shortWindow.end := ClosestEnd(time, shortWindow.size);
      longWindow.end := ClosestEnd(time, longWindow.size);
      if Aligned() {
        FirstEndsNested(time, shortWindow.size, longWindow.size);
      }
      shortWindow.ClearStats();
      longWindow.ClearStats();
    }

    // the unique addresses, of a source that sent enough packets
    method CountSource(f: Flow)
      requires Valid() && initialized && !inactive
      modifies shortWindow, longWindow
      ensures Valid() && shortWindow.end == old(shortWindow.end) && longWindow.end == old(longWindow.end)
      ensures shortWindow.seen == SeenWith(old(shortWindow.seen), f, threshold)
      ensures longWindow.seen == SeenWith(old(longWindow.seen), f, threshold)
      ensures f.source.V4? && f.packets >= threshold ==>
        && longWindow.Half() == LookedUp(old(longWindow.Half()), longWindow.falsePositive, f.source.ip4)
        && shortWindow.Half() == ShortAfter(old(shortWindow.Half()), old(longWindow.Half()),
                                            shortWindow.falsePositive, longWindow.falsePositive, f.source.ip4)
    {
      hide Exact, Prefixes, Counted, ReportOk;
      if f.source.V4? {
        if f.packets >= threshold {
          CountIpv4(f.source.ip4);
        }
      } else {
        if f.packets >= threshold {
          shortWindow.CountIpv6(f.source.ip6);
          longWindow.CountIpv6(f.source.ip6);
        }
      }
    }
  }

  // two records with one address, between which the long window turns alone
  method CountTwice(windowShort: nat, windowLong: nat, threshold: nat, falsePositive: Oracle, a: Ip4)
    returns (stats: Ipv6Stats)
    requires windowShort > 0 && windowLong > 0 && windowLong % windowShort != 0 && Exact(falsePositive)
    ensures fresh(stats) && fresh(stats.shortWindow) && fresh(stats.longWindow) && stats.Valid() && stats.AreExact()
    ensures stats.shortWindow.size == windowShort && stats.longWindow.size == windowLong && stats.initialized
    ensures stats.shortWindow.Half() == Half4({a}, 2) && stats.shortWindow.seen == Seen({a}, {})
  {
    hide Prefixes, Counted, ReportOk;
    var time := windowLong / windowShort * windowShort;
    LongTurnsAlone(windowShort, windowLong);
    stats := new Ipv6Stats(windowShort, windowLong, threshold, falsePositive);
    stats.ProcessRecord(Flow(time, V4(a), threshold));
    stats.ProcessRecord(Flow(windowLong, V4(a), threshold));
  }

  /**
   * For every other pair of sizes there is a run that counts one IPv4 address twice, with exact filters: the long
   * window turns alone between two records with this address, and the short report that follows says 2.
   */
  method Overcounts(windowShort: nat, windowLong: nat, threshold: nat, falsePositive: Oracle, a: Ip4)
    returns (stats: Ipv6Stats)
    requires windowShort > 0 && windowLong > 0 && windowLong % windowShort != 0 && Exact(falsePositive)
    ensures stats.Valid() && stats.AreExact()
    ensures stats.shortWindow.size == windowShort && stats.longWindow.size == windowLong
    ensures exists i :: 0 <= i < |stats.reports| && !stats.reports[i].isLong
                        && stats.reports[i].ipv4 == 2 && stats.truths[i].v4 == {a}
  {
    hide Prefixes, Counted, ReportOk;
    stats := CountTwice(windowShort, windowLong, threshold, falsePositive, a);
    ghost var n := |stats.reports|;
    stats.ProcessRecord(Flow(stats.shortWindow.end, V4(a), threshold));
    assert !stats.reports[n].isLong && stats.reports[n].ipv4 == 2 && stats.truths[n].v4 == {a};
  }

  lemma EmptyCounts(w: Window)
    requires w.Empty()
    ensures w.Counts4() && w.Counts6()
  {
    NothingSeen();
  }

  lemma SizesOf(w: Window)
    ensures w.Counts4() ==> CountOf(Exact(w.falsePositive), w.uniIpv4, |w.seen.v4|)
    ensures w.Counts6() ==> CountOf(Exact(w.falsePositive), w.uniIpv6, |w.seen.v6|)
    ensures w.Counts6() ==> CountOf(Exact(w.falsePositive), w.uniPrefix64, |Prefixes(w.seen.v6, 8)|)
    ensures w.Counts6() ==> CountOf(Exact(w.falsePositive), w.uniPrefix48, |Prefixes(w.seen.v6, 6)|)
  {
    SubsetSize(w.ipv4, w.seen.v4);
    SubsetSize(w.ipv6, Prefixes(w.seen.v6, 16));
    SubsetSize(w.prefix64, Prefixes(w.seen.v6, 8));
    SubsetSize(w.prefix48, Prefixes(w.seen.v6, 6));
    WholeAddresses(w.seen.v6);
  }

  lemma {:induction false} SubsetSize<T>(a: set<T>, b: set<T>)
    ensures a <= b ==> |a| <= |b|
  {
    if a <= b {
      assert b == a + (b - a);
    }
  }

  lemma WholeAddresses(s: set<Ip6>)
    ensures |Prefixes(s, 16)| == |s|
  {
    var t: set<Bytes> := s;
    var p := Prefixes(s, 16);
    forall a: Ip6 | a in s
      ensures a[..16] == a && a in p
    {
      assert a[..16] in p;
    }
    forall x | x in p
      ensures x in t
    {
      var a :| a in s && a[..16] == x;
    }
    assert p == t;
  }

  lemma NothingSeen()
    ensures Prefixes({}, 16) == Prefixes({}, 8) == Prefixes({}, 6) == {}
  {}

  lemma PrefixesAdd(s: set<Ip6>, a: Ip6)
    ensures Prefixes(s + {a}, 16) == Prefixes(s, 16) + {a[..16]}
    ensures Prefixes(s + {a}, 8) == Prefixes(s, 8) + {a[..8]}
    ensures Prefixes(s + {a}, 6) == Prefixes(s, 6) + {a[..6]}
  {}

  /** An address seen before has its prefixes seen before, and so has a longer prefix its shorter one. */
  lemma SeenBefore(s: set<Ip6>, a: Ip6)
    ensures a[..16] in Prefixes(s, 16) ==> a[..8] in Prefixes(s, 8)
    ensures a[..8] in Prefixes(s, 8) ==> a[..6] in Prefixes(s, 6)
  {
    if a[..16] in Prefixes(s, 16) {
      var b :| b in s && b[..16] == a[..16];
      assert b[..8] == b[..16][..8] == a[..8];
    }
    if a[..8] in Prefixes(s, 8) {
      var b :| b in s && b[..8] == a[..8];
      assert b[..6] == b[..8][..6] == a[..6];
    }
  }

  lemma CountedStep(exact: bool, inserted: set<Bytes>, count: nat, all: set<Bytes>, x: Bytes, present: bool)
    requires Counted(exact, inserted, count, all)
    requires x in inserted ==> present
    requires exact ==> (present <==> x in inserted)
    ensures exact ==> (present <==> x in all)
    ensures Counted(exact, inserted + {x}, if present then count else count + 1, all + {x})
  {
    if x in inserted {
      assert inserted + {x} == inserted;
    }
  }

  lemma CountedSkip(exact: bool, inserted: set<Bytes>, count: nat, all: set<Bytes>, x: Bytes)
    requires Counted(exact, inserted, count, all)
    requires exact ==> x in all
    ensures Counted(exact, inserted, count, all + {x})
  {
    if x in all {
      assert all + {x} == all;
    }
  }
}
