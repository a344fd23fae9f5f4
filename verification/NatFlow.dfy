/** Partial flows of natpair/natpair.cpp: when two of them are halves of one translated flow, and what is sent then. */
module NatFlow {
  import opened Arithmetic

  type Byte = x: int | 0 <= x < 0x100
  type Port = x: int | 0 <= x < 0x1_0000
  type Ip = x: int | 0 <= x < 0x1_0000_0000

  datatype Scope = Lan | Wan

  const LAN_TO_WAN: Byte := 0
  const WAN_TO_LAN: Byte := 1
  const NONE: Byte := 2

  // Flow objects are only ever copied, so a flow is a value. Times are in the units of the UniRec library.
  datatype Flow = Flow(
    lanIp: Ip, wanIp: Ip, lanPort: Port, routerPort: Port, wanPort: Port,
    lanTimeFirst: nat, lanTimeLast: nat, wanTimeFirst: nat, wanTimeLast: nat,
    protocol: Byte, direction: Byte, scope: Scope)

  // The options of the module, and ur_timediff, of which nothing is assumed.
  datatype Config = Config(routerIp: Ip, timeDiff: (nat, nat) -> nat, checkTime: nat, freeTime: nat, cacheSize: nat)

  // ---- a flow from a received record ----

  datatype Received = Received(ip6: bool, srcIp: Ip, dstIp: Ip, srcPort: Port, dstPort: Port,
                               protocol: Byte, timeFirst: nat, timeLast: nat)

  datatype Prepared = NotTranslated | Prepared(flow: Flow)

  predicate IsPrivate(ip: Ip) {
    || 167772160 <= ip <= 184549375
    || 2886729728 <= ip <= 2887778303
    || 3232235520 <= ip <= 3232301055
  }

  function DirectionOf(c: Config, srcIp: Ip, dstIp: Ip): Byte {
    if (IsPrivate(srcIp) && !IsPrivate(dstIp)) || srcIp == c.routerIp then LAN_TO_WAN
    else if (!IsPrivate(srcIp) && IsPrivate(dstIp)) || dstIp == c.routerIp then WAN_TO_LAN
    else NONE
  }

  function Prepare(c: Config, r: Received, scope: Scope): Prepared {
    if r.ip6 then NotTranslated
    else
      var direction := DirectionOf(c, r.srcIp, r.dstIp);
      if direction == NONE then NotTranslated
      else
        var (src, dst, srcPort, dstPort) :=
          if direction == WAN_TO_LAN then (r.dstIp, r.srcIp, r.dstPort, r.srcPort)
          else (r.srcIp, r.dstIp, r.srcPort, r.dstPort);
        var blank := Flow(0, dst, 0, 0, dstPort, 0, 0, 0, 0, r.protocol, direction, scope);
        Prepared(
          if scope == Lan then
            blank.(lanIp := src, lanPort := srcPort, lanTimeFirst := r.timeFirst, lanTimeLast := r.timeLast)
          else
            blank.(routerPort := srcPort, wanTimeFirst := r.timeFirst, wanTimeLast := r.timeLast))
  }

  // ---- pairing ----

  // the operator== of Flow
  predicate Pairable(c: Config, f: Flow, other: Flow) {
    && f.scope != other.scope
    && f.wanIp == other.wanIp && f.wanPort == other.wanPort
    && f.protocol == other.protocol && f.direction == other.direction
    && var lan := if f.scope == Lan then f else other;
       var wan := if f.scope == Lan then other else f;
       && (|| (f.direction == LAN_TO_WAN && lan.lanTimeFirst <= wan.wanTimeFirst && lan.lanTimeLast <= wan.wanTimeLast)
           || (f.direction == WAN_TO_LAN && lan.lanTimeFirst >= wan.wanTimeFirst && lan.lanTimeLast >= wan.wanTimeLast))
       && c.timeDiff(lan.lanTimeFirst, wan.wanTimeFirst) < 2
       && c.timeDiff(lan.lanTimeLast, wan.wanTimeLast) < 3
  }

  // wan_ip, wan_port, protocol and direction in the bytes of one 64-bit key, lowest first
  function HashKey(f: Flow): nat {
    f.wanIp + 0x1_0000_0000 * (f.wanPort + 0x1_0000 * (f.protocol + 0x100 * f.direction))
  }

  function GetTime(f: Flow): nat {
    if f.scope == Lan then f.lanTimeLast else f.wanTimeLast
  }

  function FirstTime(f: Flow): nat {
    if f.scope == Lan then f.lanTimeFirst else f.wanTimeFirst
  }

  function Complete(f: Flow, other: Flow): Flow {
    if f.scope == Lan then
      f.(routerPort := other.routerPort, wanTimeFirst := other.wanTimeFirst, wanTimeLast := other.wanTimeLast)
    else
      f.(lanIp := other.lanIp, lanPort := other.lanPort,
         lanTimeFirst := other.lanTimeFirst, lanTimeLast := other.lanTimeLast)
  }

  datatype Record = Record(
    lanIp: Ip, rtrIp: Ip, wanIp: Ip, lanPort: Port, rtrPort: Port, wanPort: Port,
    timeFirst: nat, timeLast: nat, protocol: Byte, direction: Byte)

  // sendToOutput
  function Output(c: Config, f: Flow): Record {
    var (first, last) :=
      if f.direction == LAN_TO_WAN then (f.lanTimeFirst, f.wanTimeLast) else (f.wanTimeFirst, f.lanTimeLast);
    Record(f.lanIp, c.routerIp, f.wanIp, f.lanPort, f.routerPort, f.wanPort, first, last, f.protocol, f.direction)
  }

  /** The private addresses are the three blocks of section 3 of RFC 1918: 10/8, 172.16/12 and 192.168/16. */
  lemma PrivateBlocks(ip: Ip)
    ensures IsPrivate(ip)
            <==> ip / 0x100_0000 == 10 || ip / 0x10_0000 == 172 * 0x10 + 1 || ip / 0x1_0000 == 192 * 0x100 + 168
  {}

  /** The key is a faithful copy of the four fields: equal keys are equal fields. */
  lemma HashKeyInjective(f: Flow, g: Flow)
    ensures HashKey(f) == HashKey(g)
            <==> f.wanIp == g.wanIp && f.wanPort == g.wanPort && f.protocol == g.protocol && f.direction == g.direction
  {
    if HashKey(f) == HashKey(g) {
      var f2, g2 := f.protocol + 0x100 * f.direction, g.protocol + 0x100 * g.direction;
      LowDigit(0x1_0000_0000, f.wanIp, f.wanPort + 0x1_0000 * f2, g.wanIp, g.wanPort + 0x1_0000 * g2);
      LowDigit(0x1_0000, f.wanPort, f2, g.wanPort, g2);
      LowDigit(0x100, f.protocol, f.direction, g.protocol, g.direction);
    }
  }

  lemma LowDigit(m: int, a: int, x: int, b: int, y: int)
    requires 0 <= a < m && 0 <= b < m && a + m * x == b + m * y
    ensures a == b && x == y
  {
    RemainderIs(a + m * x, m, x, a);
    RemainderIs(a + m * x, m, y, b);
  }

  lemma PairableSameKey(c: Config, f: Flow, g: Flow)
    requires Pairable(c, f, g)
    ensures HashKey(f) == HashKey(g)
  {}

  /** Pairing is symmetric, and the record sent does not depend on which half arrived first. */
  lemma PairSymmetric(c: Config, f: Flow, g: Flow)
    ensures Pairable(c, f, g) <==> Pairable(c, g, f)
    ensures Pairable(c, f, g) ==> Output(c, Complete(f, g)) == Output(c, Complete(g, f))
  {}

  /** The interval sent is an interval and covers both halves, in either direction. */
  lemma OutputCoversHalves(c: Config, f: Flow, g: Flow)
    requires Pairable(c, f, g)
    requires FirstTime(f) <= GetTime(f) && FirstTime(g) <= GetTime(g)
    ensures var r := Output(c, Complete(f, g));
            && r.timeFirst <= r.timeLast
            && r.timeFirst <= FirstTime(f) && GetTime(f) <= r.timeLast
            && r.timeFirst <= FirstTime(g) && GetTime(g) <= r.timeLast
  {}

  /** What is sent for two halves, in terms of the records received on the two sides of the router. */
  lemma OutputOfHalves(c: Config, l: Received, w: Received, fl: Flow, fw: Flow)
    requires Prepare(c, l, Lan) == Prepared(fl) && Prepare(c, w, Wan) == Prepared(fw) && Pairable(c, fl, fw)
    ensures Output(c, Complete(fl, fw)) ==
              if fl.direction == LAN_TO_WAN then
                Record(l.srcIp, c.routerIp, w.dstIp, l.srcPort, w.srcPort, w.dstPort, l.timeFirst, w.timeLast,
                       w.protocol, LAN_TO_WAN)
              else
                Record(l.dstIp, c.routerIp, w.srcIp, l.dstPort, w.dstPort, w.srcPort, w.timeFirst, l.timeLast,
                       w.protocol, WAN_TO_LAN)
  {}

  /** The two halves of one translated flow, as the probes on the two sides of the router see it, have one key. */
  lemma HalvesShareKey(c: Config, l: Received, w: Received, fl: Flow, fw: Flow)
    requires Prepare(c, l, Lan) == Prepared(fl) && Prepare(c, w, Wan) == Prepared(fw)
    requires l.protocol == w.protocol && !IsPrivate(c.routerIp)
    requires || (IsPrivate(l.srcIp) && w.srcIp == c.routerIp && l.dstIp == w.dstIp && l.dstPort == w.dstPort
                 && !IsPrivate(l.dstIp))
             || (IsPrivate(l.dstIp) && w.dstIp == c.routerIp && l.srcIp == w.srcIp && l.srcPort == w.srcPort
                 && !IsPrivate(l.srcIp) && l.srcIp != c.routerIp)
    ensures HashKey(fl) == HashKey(fw) && fl.direction == fw.direction != NONE
  {}
}
