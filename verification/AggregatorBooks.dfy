/** Which record is in which group of the aggregator: the groups that are stored, and those that were sent. */
module AggregatorBooks {
  import opened Aggregation
  import opened Filters

  datatype Timeout = NoActiveTimeout | ActiveTimeout(seconds: nat)

  datatype Books = Books(groups: map<Key, seq<Record>>, emitted: seq<(Key, seq<Record>)>, received: seq<Record>)

  const EMPTY := Books(map[], [], [])

  function KeyOf(r: Record): Key { MakeKey(r.keyFields) }

  // the record starts too long after the earliest start in the stored group
  ghost predicate StartsNewWindow(fields: seq<Field>, timeout: Timeout, g: seq<Record>, r: Record)
    requires Group(fields, g)
  {
    timeout.ActiveTimeout? && Sec(Summarize(fields, g).timeFirst) + timeout.seconds < Sec(r.timeFirst)
  }

  ghost function Receive(fields: seq<Field>, timeout: Timeout, b: Books, r: Record): Books
    requires KeyOf(r) in b.groups ==> Group(fields, b.groups[KeyOf(r)])
  {
    var k := KeyOf(r);
    if k !in b.groups then b.(groups := b.groups[k := [r]], received := b.received + [r])
    else if StartsNewWindow(fields, timeout, b.groups[k], r) then
      Books(b.groups[k := [r]], b.emitted + [(k, b.groups[k])], b.received + [r])
    else b.(groups := b.groups[k := b.groups[k] + [r]], received := b.received + [r])
  }

  function Emit(b: Books, k: Key): Books
    requires k in b.groups
  {
    b.(groups := b.groups - {k}, emitted := b.emitted + [(k, b.groups[k])])
  }

  // groups sent one after another, in some order of their keys
  predicate CanEmitAll(b: Books, order: seq<Key>)
    decreases |order|, 0
  {
    order == []
    || (CanEmitAll(b, order[..|order| - 1]) && order[|order| - 1] in EmitAll(b, order[..|order| - 1]).groups)
  }

  function EmitAll(b: Books, order: seq<Key>): Books
    requires CanEmitAll(b, order)
    decreases |order|, 1
  {
    if order == [] then b else Emit(EmitAll(b, order[..|order| - 1]), order[|order| - 1])
  }

  // ---- what every run keeps ----

  // the members of the groups of this key that were sent, in the order of sending
  function SentOf(emitted: seq<(Key, seq<Record>)>, k: Key): seq<Record> {
    if emitted == [] then []
    else
      var n := |emitted| - 1;
      if emitted[n].0 == k then SentOf(emitted[..n], k) + emitted[n].1 else SentOf(emitted[..n], k)
  }

  function StoredOf(groups: map<Key, seq<Record>>, k: Key): seq<Record> {
    if k in groups then groups[k] else []
  }

  function ReceivedOf(received: seq<Record>, k: Key): seq<Record> {
    Filter(r => KeyOf(r) == k, received)
  }

  // no member starts more than the timeout after the earliest start among those before it
  ghost predicate WithinWindow(fields: seq<Field>, timeout: Timeout, g: seq<Record>)
    requires Group(fields, g)
  {
    timeout.ActiveTimeout? ==>
      forall i :: 0 < i < |g| ==> Sec(g[i].timeFirst) <= Sec(Summarize(fields, g[..i]).timeFirst) + timeout.seconds
  }

  ghost predicate GroupOk(fields: seq<Field>, timeout: Timeout, k: Key, g: seq<Record>) {
    Group(fields, g) && WithinWindow(fields, timeout, g) && forall r :: r in g ==> KeyOf(r) == k
  }

  ghost predicate Balanced(b: Books) {
    forall k :: SentOf(b.emitted, k) + StoredOf(b.groups, k) == ReceivedOf(b.received, k)
  }

  ghost predicate BooksOk(fields: seq<Field>, timeout: Timeout, b: Books) {
    && (forall k :: k in b.groups ==> GroupOk(fields, timeout, k, b.groups[k]))
    && (forall i :: 0 <= i < |b.emitted| ==> GroupOk(fields, timeout, b.emitted[i].0, b.emitted[i].1))
    && Balanced(b)
  }

  lemma SentAppend(emitted: seq<(Key, seq<Record>)>, k: Key, g: seq<Record>, k': Key)
    ensures SentOf(emitted + [(k, g)], k') == if k == k' then SentOf(emitted, k') + g else SentOf(emitted, k')
  {
    assert (emitted + [(k, g)])[..|emitted|] == emitted;
  }

  lemma ReceivedAppend(received: seq<Record>, r: Record, k: Key)
    ensures ReceivedOf(received + [r], k)
            == if KeyOf(r) == k then ReceivedOf(received, k) + [r] else ReceivedOf(received, k)
  {
    FilterAppend(r => KeyOf(r) == k, received, r);
  }

  /** Sending a group keeps the books. */
  lemma EmitKeeps(fields: seq<Field>, timeout: Timeout, b: Books, k: Key)
    requires BooksOk(fields, timeout, b) && k in b.groups
    ensures BooksOk(fields, timeout, Emit(b, k))
  {
    hide GroupOk, SentOf, ReceivedOf, KeyOf;
    var c := Emit(b, k);
    forall k'
      ensures SentOf(c.emitted, k') + StoredOf(c.groups, k') == ReceivedOf(c.received, k')
    {
      SentAppend(b.emitted, k, b.groups[k], k');
    }
  }

  lemma {:induction false} EmitAllKeeps(fields: seq<Field>, timeout: Timeout, b: Books, order: seq<Key>)
    requires BooksOk(fields, timeout, b) && CanEmitAll(b, order)
    ensures BooksOk(fields, timeout, EmitAll(b, order)) && EmitAll(b, order).received == b.received
    ensures EmitAll(b, order).groups.Keys == b.groups.Keys - (set k | k in order)
  {
    hide BooksOk;
    if order != [] {
      var n := |order| - 1;
      EmitAllKeeps(fields, timeout, b, order[..n]);
      EmitKeeps(fields, timeout, EmitAll(b, order[..n]), order[n]);
      assert order == order[..n] + [order[n]];
    }
  }

  lemma JoinKeeps(fields: seq<Field>, timeout: Timeout, k: Key, g: seq<Record>, r: Record)
    requires GroupOk(fields, timeout, k, g) && KeyOf(r) == k && Fits(fields, r.values)
    requires !StartsNewWindow(fields, timeout, g, r)
    ensures GroupOk(fields, timeout, k, g + [r])
  {
    hide Summarize, KeyOf, Fits;
    forall i | 0 < i < |g + [r]|
      ensures Group(fields, (g + [r])[..i]) && (g + [r])[..i] == if i < |g| then g[..i] else g
    {
      assert (g + [r])[..i] == if i < |g| then g[..i] else g;
    }
  }

  /** Receiving a record keeps the books, whether it is merged, starts a new window or has a new key. */
  lemma ReceiveKeeps(fields: seq<Field>, timeout: Timeout, b: Books, r: Record)
    requires BooksOk(fields, timeout, b) && Fits(fields, r.values)
    ensures KeyOf(r) in b.groups ==> Group(fields, b.groups[KeyOf(r)])
    ensures BooksOk(fields, timeout, Receive(fields, timeout, b, r))
  {
    hide SentOf, ReceivedOf, KeyOf, Fits, Summarize;
    var k := KeyOf(r);
    assert GroupOk(fields, timeout, k, [r]);
    assert k in b.groups ==> Group(fields, b.groups[k]);
    if k in b.groups && !StartsNewWindow(fields, timeout, b.groups[k], r) {
      JoinKeeps(fields, timeout, k, b.groups[k], r);
    }
    hide GroupOk, StartsNewWindow;
    var c := Receive(fields, timeout, b, r);
    forall k'
      ensures SentOf(c.emitted, k') + StoredOf(c.groups, k') == ReceivedOf(c.received, k')
    {
      ReceivedAppend(b.received, r, k');
      if k in b.groups {
        SentAppend(b.emitted, k, b.groups[k], k');
      }
    }
  }

  /** When nothing is stored any more, the groups sent for a key are the records received with it, in their order. */
  lemma FlushedIsReceived(fields: seq<Field>, timeout: Timeout, b: Books, k: Key)
    requires BooksOk(fields, timeout, b) && b.groups == map[]
    ensures SentOf(b.emitted, k) == ReceivedOf(b.received, k)
  {
    hide SentOf, ReceivedOf;
    assert SentOf(b.emitted, k) + StoredOf(b.groups, k) == ReceivedOf(b.received, k);
  }

  // ---- when a group is split ----

  // some member starts, in seconds, more than the timeout before this record
  ghost predicate StartsTooLate(timeout: Timeout, g: seq<Record>, r: Record) {
    timeout.ActiveTimeout?
    && exists m :: m in g && m.timeFirst / 0x1_0000_0000 + timeout.seconds < r.timeFirst / 0x1_0000_0000
  }

  /** A record joins the stored group of its key, unless there is none or it starts too late: then it begins a group. */
  lemma SplitExactly(fields: seq<Field>, timeout: Timeout, b: Books, r: Record)
    requires KeyOf(r) in b.groups ==> Group(fields, b.groups[KeyOf(r)])
    ensures var k, c := KeyOf(r), Receive(fields, timeout, b, r);
            && c.received == b.received + [r] && c.groups.Keys == b.groups.Keys + {k}
            && (forall l :: l in b.groups && l != k ==> c.groups[l] == b.groups[l])
            && if k !in b.groups then c.groups[k] == [r] && c.emitted == b.emitted
               else if StartsTooLate(timeout, b.groups[k], r) then
                 c.groups[k] == [r] && c.emitted == b.emitted + [(k, b.groups[k])]
               else c.groups[k] == b.groups[k] + [r] && c.emitted == b.emitted
  {
    hide KeyOf, Summarize, IsMinimum, IsMaximum, Group, StartsTooLate;
    var k := KeyOf(r);
    if k in b.groups {
      WindowIs(fields, timeout, b.groups[k], r);
    }
  }

  lemma WindowIs(fields: seq<Field>, timeout: Timeout, g: seq<Record>, r: Record)
    requires Group(fields, g)
    ensures StartsNewWindow(fields, timeout, g, r) <==> StartsTooLate(timeout, g, r)
  {
    hide Summarize, IsMaximum, Group;
    CountAndTimes(fields, g);
    var first := Summarize(fields, g).timeFirst;
    forall m | m in g
      ensures Sec(first) <= Sec(m.timeFirst)
    {
      Quotients(first, m.timeFirst);
    }
  }

  lemma Quotients(x: UrTime, y: UrTime)
    requires x <= y
    ensures Sec(x) <= Sec(y)
  {}

  /** A group is kept by a sweep when some member ends at the limit or later. */
  lemma EndIs(fields: seq<Field>, g: seq<Record>, limit: int)
    requires Group(fields, g)
    ensures Sec(Summarize(fields, g).timeLast) >= limit
            <==> exists m :: m in g && m.timeLast / 0x1_0000_0000 >= limit
  {
    hide Summarize, IsMinimum, Group;
    CountAndTimes(fields, g);
    var last := Summarize(fields, g).timeLast;
    forall m | m in g
      ensures Sec(m.timeLast) <= Sec(last)
    {
      Quotients(m.timeLast, last);
    }
  }
}
