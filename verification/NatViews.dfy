/** What natpair/natpair.cpp sends, in terms of the records that the probes on the two sides of the router have seen. */
module NatViews {
  import opened Filters
  import opened NatFlow
  import opened NatPairing

  // ---- two records ----

  // the record goes out of the network, or else it comes in
  predicate GoesOut(c: Config, r: Received) {
    (IsPrivate(r.srcIp) && !IsPrivate(r.dstIp)) || r.srcIp == c.routerIp
  }

  predicate ComesIn(c: Config, r: Received) {
    !GoesOut(c, r) && ((!IsPrivate(r.srcIp) && IsPrivate(r.dstIp)) || r.dstIp == c.routerIp)
  }

  // What is prepared: IPv4 records that cross the router.
  lemma PreparedExactly(c: Config, r: Received, scope: Scope)
    ensures Prepare(c, r, scope).Prepared? <==> !r.ip6 && (GoesOut(c, r) || ComesIn(c, r))
    ensures Prepare(c, r, scope).Prepared? ==> Prepare(c, r, scope).flow.scope == scope
  {}

  // the LAN view l comes first on the way out, and the WAN view w on the way in; by less than 2 and 3
  predicate InTime(c: Config, out: bool, l: Received, w: Received) {
    && (if out then l.timeFirst <= w.timeFirst && l.timeLast <= w.timeLast
        else w.timeFirst <= l.timeFirst && w.timeLast <= l.timeLast)
    && c.timeDiff(l.timeFirst, w.timeFirst) < 2 && c.timeDiff(l.timeLast, w.timeLast) < 3
  }

  // one outer address and port, one protocol and direction
  predicate Alike(c: Config, l: Received, w: Received) {
    && l.protocol == w.protocol
    && (|| (GoesOut(c, l) && GoesOut(c, w) && l.dstIp == w.dstIp && l.dstPort == w.dstPort)
        || (ComesIn(c, l) && ComesIn(c, w) && l.srcIp == w.srcIp && l.srcPort == w.srcPort))
  }

  /** Two records of the two sides are halves of one flow exactly when they are alike, and close in time. */
  lemma PairedExactly(c: Config, l: Received, w: Received, fl: Flow, fw: Flow)
    requires Prepare(c, l, Lan) == Prepared(fl) && Prepare(c, w, Wan) == Prepared(fw)
    ensures Pairable(c, fl, fw) <==> Alike(c, l, w) && InTime(c, GoesOut(c, l), l, w)
    ensures Pairable(c, fw, fl) <==> Alike(c, l, w) && InTime(c, GoesOut(c, l), l, w)
  {}

  /** Two records of one side never are. */
  lemma OneSideNeverPairs(c: Config, a: Received, b: Received, scope: Scope, fa: Flow, fb: Flow)
    requires Prepare(c, a, scope) == Prepared(fa) && Prepare(c, b, scope) == Prepared(fb)
    ensures !Pairable(c, fa, fb)
  {}

  // ---- the two views of one translated flow ----

  // the inner host at the LAN side, the router at the WAN side, and the same outer host
  predicate Views(c: Config, out: bool, l: Received, w: Received) {
    && !l.ip6 && !w.ip6 && l.protocol == w.protocol && !IsPrivate(c.routerIp)
    && if out then
         && IsPrivate(l.srcIp) && w.srcIp == c.routerIp && l.dstIp == w.dstIp && l.dstPort == w.dstPort
         && !IsPrivate(l.dstIp)
       else
         && IsPrivate(l.dstIp) && w.dstIp == c.routerIp && l.srcIp == w.srcIp && l.srcPort == w.srcPort
         && !IsPrivate(l.srcIp) && l.srcIp != c.routerIp
  }

  // what is to be sent for them
  function Expected(c: Config, out: bool, l: Received, w: Received): Record {
    if out then
      Record(l.srcIp, c.routerIp, l.dstIp, l.srcPort, w.srcPort, l.dstPort, l.timeFirst, w.timeLast, l.protocol, 0)
    else
      Record(l.dstIp, c.routerIp, l.srcIp, l.dstPort, w.dstPort, l.srcPort, w.timeFirst, l.timeLast, l.protocol, 1)
  }

  /** Both views are prepared, and paired exactly when they are close in time, in the order of the direction. */
  lemma ViewsPair(c: Config, out: bool, l: Received, w: Received)
    requires Views(c, out, l, w)
    ensures Prepare(c, l, Lan).Prepared? && Prepare(c, w, Wan).Prepared?
    ensures var fl, fw := Prepare(c, l, Lan).flow, Prepare(c, w, Wan).flow;
            && (Pairable(c, fl, fw) <==> InTime(c, out, l, w)) && (Pairable(c, fw, fl) <==> InTime(c, out, l, w))
            && Output(c, Complete(fw, fl)) == Output(c, Complete(fl, fw)) == Expected(c, out, l, w)
  {
    PreparedExactly(c, l, Lan);
    PreparedExactly(c, w, Wan);
    PairedExactly(c, l, w, Prepare(c, l, Lan).flow, Prepare(c, w, Wan).flow);
  }

  // the records sent in a run
  function Records(c: Config, sent: seq<(Flow, Flow)>): seq<Record> {
    seq(|sent|, i requires 0 <= i < |sent| => Output(c, Complete(sent[i].0, sent[i].1)))
  }

  // a run of two flows
  lemma RunOfTwo(c: Config, f: Flow, g: Flow)
    ensures Run(c, [f, g]).sent == if Pairable(c, f, g) then [(g, f)] else []
  {
    hide Pairable, HashKey, Fresh, CleaningDue;
    assert [f, g][..1] == [f] && [f][..0] == [];
    assert Run(c, [f]) == Stored(START, f);
    var s := Stored(START, f);
    assert s.waiting == [f];
    if Pairable(c, f, g) {
      PairableSameKey(c, f, g);
      assert f in s.waiting;
      assert s.sent == [] && [] + [(g, f)] == [(g, f)];
    }
  }

  /** The pairing loop, given the two views in either order, sends the translated flow exactly when they are in time. */
  lemma ViewsAreSent(c: Config, out: bool, l: Received, w: Received)
    requires Views(c, out, l, w)
    ensures Prepare(c, l, Lan).Prepared? && Prepare(c, w, Wan).Prepared?
    ensures var fl, fw := Prepare(c, l, Lan).flow, Prepare(c, w, Wan).flow;
            var expected := if InTime(c, out, l, w) then [Expected(c, out, l, w)] else [];
            Records(c, Run(c, [fl, fw]).sent) == expected && Records(c, Run(c, [fw, fl]).sent) == expected
  {
    hide Pairable, Output, Complete, Prepare, Run, InTime;
    ViewsPair(c, out, l, w);
    var fl, fw := Prepare(c, l, Lan).flow, Prepare(c, w, Wan).flow;
    RunOfTwo(c, fl, fw);
    RunOfTwo(c, fw, fl);
  }

  // ---- what expires ----

  // the last second that was seen on the side of the flow
  function LastSeen(f: Flow): nat {
    match f.scope case Lan => f.lanTimeLast case Wan => f.wanTimeLast
  }

  // more keys than the cache is for, or the time for the next check has come
  ghost predicate MustClean(c: Config, waiting: seq<Flow>, now: nat, lastCleaning: nat) {
    || |set f | f in waiting :: HashKey(f)| > c.cacheSize
    || (lastCleaning <= now && c.checkTime <= c.timeDiff(now, lastCleaning))
  }

  // not newer than the clock, and too far from it
  predicate IsStale(c: Config, f: Flow, now: nat) {
    LastSeen(f) < now && c.freeTime <= c.timeDiff(LastSeen(f), now)
  }

  // What a flow makes of the waiting ones before any cleaning, and the clock, which only a pair moves.
  ghost function Before(c: Config, s: State, f: Flow): (seq<Flow>, nat) {
    var i := FirstPartner(c, s.waiting, f);
    if i < |s.waiting| then (s.waiting[..i] + s.waiting[i + 1..], LastSeen(f)) else (s.waiting + [f], s.now)
  }

  // from s to t, exactly the stale flows expire
  ghost predicate StaleExpire(c: Config, s: State, t: State) {
    && (forall g :: g in t.waiting <==> g in s.waiting && !IsStale(c, g, s.now))
    && multiset(t.waiting) + t.expired == multiset(s.waiting) + s.expired
    && (forall g :: t.expired[g] == s.expired[g] + if IsStale(c, g, s.now) then multiset(s.waiting)[g] else 0)
    && t.now == t.lastCleaning == s.now && t.sent == s.sent
  }

  lemma ExpireExactly(c: Config, s: State)
    ensures StaleExpire(c, s, Expire(c, s))
  {
    hide Filter;
    var p, q := f => IsFresh(c, f, s.now), f => !IsFresh(c, f, s.now);
    FreshOrStale(c, s.now);
    FilterHolds(p, s.waiting);
    FilterSplits(p, q, s.waiting);
    FilterCount(q, s.waiting);
    hide IsFresh, IsStale;
  }

  lemma FreshOrStale(c: Config, now: nat)
    ensures forall g :: IsFresh(c, g, now) <==> !IsStale(c, g, now)
  {}

  lemma CleanExactly(c: Config, s: State)
    ensures if MustClean(c, s.waiting, s.now, s.lastCleaning) then StaleExpire(c, s, Clean(c, s)) else Clean(c, s) == s
  {
    hide StaleExpire, Expire, HashKey;
    ExpireExactly(c, s);
  }

  lemma NewKeyHasNoPartner(c: Config, waiting: seq<Flow>, f: Flow)
    requires HashKey(f) !in Keys(waiting)
    ensures FirstPartner(c, waiting, f) == |waiting|
  {
    hide HashKey, Pairable;
    var i := FirstPartner(c, waiting, f);
    if i < |waiting| {
      PairableSameKey(c, waiting[i], f);
    }
  }

  /**
   * Each flow is followed by a cleaning if and only if its key was known and one is due; then exactly the stale flows
   * expire, and otherwise none does.
   */
  lemma ExpiredExactly(c: Config, s: State, f: Flow)
    ensures var (waiting, now) := Before(c, s, f);
            var t := Step(c, s, f);
            if (exists g :: g in s.waiting && HashKey(g) == HashKey(f))
               && MustClean(c, waiting, now, s.lastCleaning) then
              StaleExpire(c, s.(waiting := waiting, now := now, sent := t.sent), t)
            else t.waiting == waiting && t.now == now && t.expired == s.expired && t.lastCleaning == s.lastCleaning
  {
    hide MustClean, HashKey, Pairable, Clean, StaleExpire, FirstPartner;
    if HashKey(f) !in Keys(s.waiting) {
      NewKeyHasNoPartner(c, s.waiting, f);
    } else if FirstPartner(c, s.waiting, f) < |s.waiting| {
      CleanExactly(c, Paired(c, s, f));
      SentKept(c, Paired(c, s, f));
    } else {
      CleanExactly(c, Stored(s, f));
      SentKept(c, Stored(s, f));
    }
  }

  lemma SentKept(c: Config, s: State)
    ensures Clean(c, s).sent == s.sent
  {}
}
