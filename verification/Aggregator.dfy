/** aggregator/aggregator.cpp: the storage of records aggregated in place, and the critical sections that use it. */
module Aggregator {
  import opened AggFunctions
  import opened Aggregation
  import opened AggregatorBooks

  // an output record while it is stored
  class StoredRecord {
    var count: nat
    var timeFirst: UrTime
    var timeLast: UrTime
    const values: array<Value>

    function Value(): Summary
      reads this, values
    {
      Summary(count, timeFirst, timeLast, values[..])
    }

    // create_record, then init_record_data
    constructor (r: Record)
      ensures fresh(values) && values.Length == |r.values| && Value() == Init(r)
    {
      count, timeFirst, timeLast := 0, 0, 0;
      values := new Value[|r.values|](_ => Int(0));
      new;
      InitRecordData(r);
    }

    // init_record_data
    method InitRecordData(r: Record)
      requires |r.values| == values.Length
      modifies this, values
      ensures Value() == Init(r)
    {
      for i := 0 to values.Length
        modifies values
        invariant values[..i] == r.values[..i]
      {
        values[i] := r.values[i];
      }
      assert values[..] == r.values;
      timeFirst, timeLast := r.timeFirst, r.timeLast;
      count := 1;
    }

    // process_agg_functions
    method ProcessAggFunctions(fields: seq<Field>, r: Record)
      requires Fits(fields, values[..]) && Fits(fields, r.values)
      modifies this, values
      ensures Value() == Process(fields, old(Value()), r)
    {
      hide Apply, HasType;
      count := (count + 1) % 0x1_0000_0000;
      if r.timeFirst < timeFirst {
        timeFirst := r.timeFirst;
      }
      if r.timeLast > timeLast {
        timeLast := r.timeLast;
      }
      ghost var was := values[..];
      for i := 0 to |fields|
        modifies values
        invariant forall k :: 0 <= k < |fields| ==>
          values[k] == if k < i then Apply(fields[k].function_, fields[k].type_, was[k], r.values[k]) else was[k]
      {
        values[i] := Apply(fields[i].function_, fields[i].type_, values[i], r.values[i]);
      }
      assert values[..] == ApplyAll(fields, was, r.values);
    }

    // prepare_to_send
    method PrepareToSend(fields: seq<Field>)
      requires Fits(fields, values[..]) && CanDivide(fields, count)
      modifies values
      ensures Value() == Prepared(fields, old(Value()))
    {
      hide Averaged, HasType;
      ghost var was := values[..];
      for i := 0 to |fields|
        modifies values
        invariant forall k :: 0 <= k < |fields| ==>
          values[k] == if k < i then Prepared(fields, old(Value())).values[k] else was[k]
      {
        if IsAveraged(fields[i]) {
          values[i] := Averaged(fields[i].type_, values[i], count);
        }
      }
      assert values[..] == Prepared(fields, old(Value())).values;
    }
  }

  class Aggregator {
    const fields: seq<Field>
    const timeout: Timeout
    var storage: map<Key, StoredRecord>
    var output: seq<(Key, Summary)>     // the output interface
    ghost var books: Books
    ghost var Repr: set<object>

    ghost predicate Separate()
      reads this`storage, this`Repr, Repr
    {
      && (forall k :: k in storage ==>
            storage[k] in Repr && storage[k].values in Repr && storage[k].values.Length == |fields|)
      && (forall k, l :: k in storage && l in storage && k != l ==>
            storage[k] != storage[l] && storage[k].values != storage[l].values)
    }

    ghost function Contents(): (c: map<Key, Summary>)
      requires Separate()
      reads this`storage, this`Repr, Repr
      ensures c.Keys == storage.Keys
    {
      map k | k in storage :: storage[k].Value()
    }

    ghost predicate Valid()
      reads this, Repr
    {
      && this !in Repr && Separate()
      && BooksOk(fields, timeout, books)
      && Matches(fields, Contents(), books.groups)
      && OutputMatches(fields, output, books.emitted)
    }

    constructor (fields: seq<Field>, timeout: Timeout)
      ensures Valid() && books == EMPTY && this.fields == fields && this.timeout == timeout && Repr == {}
    {
      this.fields, this.timeout := fields, timeout;
      storage, output := map[], [];
      books := EMPTY;
      Repr := {};
    }

    // ---- the storage ----

    method Create(key: Key, r: Record)
      requires this !in Repr && Separate() && key !in storage && |r.values| == |fields|
      modifies this`storage, this`Repr
      ensures this !in Repr && Separate() && Contents() == old(Contents())[key := Init(r)] && fresh(Repr - old(Repr))
    {
      var record := new StoredRecord(r);
      storage := storage[key := record];
      Repr := Repr + {record, record.values};
    }

    method Reset(key: Key, r: Record)
      requires this !in Repr && Separate() && key in storage && |r.values| == |fields|
      modifies Repr
      ensures this !in Repr && Separate() && Contents() == old(Contents())[key := Init(r)]
    {
      storage[key].InitRecordData(r);
    }

    method Aggregate(key: Key, r: Record)
      requires this !in Repr && Separate() && key in storage
      requires Fits(fields, Contents()[key].values) && Fits(fields, r.values)
      modifies Repr
      ensures this !in Repr && Separate()
      ensures Contents() == old(Contents())[key := Process(fields, old(Contents()[key]), r)]
    {
      hide Process, Fits;
      storage[key].ProcessAggFunctions(fields, r);
    }

    // a successful send_record_out: averages are divided in place
    method SendRecordOut(key: Key)
      requires this !in Repr && Separate() && key in storage
      requires Fits(fields, Contents()[key].values) && CanDivide(fields, Contents()[key].count)
      modifies this`output, Repr
      ensures this !in Repr && Separate()
      ensures Contents() == old(Contents())[key := Prepared(fields, old(Contents()[key]))]
      ensures output == old(output) + [(key, Prepared(fields, old(Contents()[key])))]
    {
      hide Prepared, Fits;
      storage[key].PrepareToSend(fields);
      output := output + [(key, storage[key].Value())];
    }

    method Erase(key: Key)
      requires this !in Repr && Separate() && key in storage
      modifies this`storage
      ensures this !in Repr && Separate() && Contents() == old(Contents()) - {key}
      ensures storage == old(storage) - {key}
    {
      storage := storage - {key};
    }

    // ---- the critical sections ----

    // the bytes of the key, field by field
    method GenerateKey(r: Record) returns (key: Key)
      ensures key == KeyOf(r)
    {
      key := [];
      for i := 0 to |r.keyFields|
        invariant key == MakeKey(r.keyFields[..i])
      {
        assert r.keyFields[..i + 1][..i] == r.keyFields[..i];
        key := key + r.keyFields[i];
      }
      assert r.keyFields[..|r.keyFields|] == r.keyFields;
    }

    // whether the active timeout has run out for the stored record
    method IsNewWindow(key: Key, r: Record) returns (b: bool)
      requires Valid() && key in storage
      ensures key in books.groups && Group(fields, books.groups[key])
      ensures b <==> StartsNewWindow(fields, timeout, books.groups[key], r)
    {
      hide Summarize, BooksOk, OutputMatches;
      b := false;
      assert Contents()[key].timeFirst == storage[key].timeFirst;
      if timeout.ActiveTimeout? {
        var storedFirst := Sec(storage[key].timeFirst);
        if storedFirst + timeout.seconds < Sec(r.timeFirst) {
          b := true;
        }
      }
    }

    // sending a group, by which its record becomes useless
    method SendGroup(key: Key)
      requires Valid() && key in storage && key in books.groups && Sendable(fields, books.groups[key])
      modifies this`output, Repr
      ensures this !in Repr && Separate()
      ensures key in books.groups && OutputMatches(fields, output, books.emitted + [(key, books.groups[key])])
      ensures Contents() - {key} == old(Contents()) - {key}
    {
      hide BooksOk, Summarize, Prepared, Fits, Separate, Contents, OutputMatches;
      MatchesAt(fields, Contents(), books.groups, key);
      OutputAppend(fields, output, books, key);
      SendRecordOut(key);
    }

    method AddNew(key: Key, r: Record)
      requires Valid() && Fits(fields, r.values) && key == KeyOf(r) && key !in storage
      modifies this, Repr
      ensures Valid() && books == Receive(fields, timeout, old(books), r) && fresh(Repr - old(Repr))
    {
      hide BooksOk, OutputMatches, Matches, Separate, Contents, KeyOf, Fits, Receive, StartsNewWindow, Process;
      FitsLength(fields, r.values);
      SameKeys(fields, Contents(), books.groups);
      ReceiveKeeps(fields, timeout, books, r);
      ReceiveMatches(fields, timeout, Contents(), books, r);
      Create(key, r);
      books := Receive(fields, timeout, books, r);
    }

    method Restart(key: Key, r: Record)
      requires Valid() && Fits(fields, r.values) && key == KeyOf(r)
      requires key in storage && key in books.groups && Sendable(fields, books.groups[key])
      requires Group(fields, books.groups[key]) && StartsNewWindow(fields, timeout, books.groups[key], r)
      modifies this, Repr
      ensures Valid() && books == Receive(fields, timeout, old(books), r) && Repr == old(Repr)
    {
      hide BooksOk, OutputMatches, Matches, Separate, Contents, KeyOf, Fits, Receive, StartsNewWindow, Process;
      hide Sendable;
      FitsLength(fields, r.values);
      SameKeys(fields, Contents(), books.groups);
      ReceiveKeeps(fields, timeout, books, r);
      ghost var was := Contents();
      ReceiveMatches(fields, timeout, was, books, r);
      SendGroup(key);
      Patch(Contents(), was, key, Init(r));
      Reset(key, r);
      books := Receive(fields, timeout, books, r);
    }

    method Merge(key: Key, r: Record)
      requires Valid() && Fits(fields, r.values) && key == KeyOf(r)
      requires key in storage && key in books.groups
      requires Group(fields, books.groups[key]) && !StartsNewWindow(fields, timeout, books.groups[key], r)
      modifies this, Repr
      ensures Valid() && books == Receive(fields, timeout, old(books), r) && Repr == old(Repr)
    {
      hide BooksOk, OutputMatches, Matches, Separate, Contents, KeyOf, Fits, Receive, StartsNewWindow, Process;
      SameKeys(fields, Contents(), books.groups);
      ReceiveKeeps(fields, timeout, books, r);
      ReceiveMatches(fields, timeout, Contents(), books, r);
      Aggregate(key, r);
      books := Receive(fields, timeout, books, r);
    }

    // the main loop, for one record
    method ReceiveRecord(r: Record)
      requires Valid() && Fits(fields, r.values)
      requires KeyOf(r) in books.groups && IsSplit(fields, timeout, books.groups[KeyOf(r)], r) ==>
        Sendable(fields, books.groups[KeyOf(r)])
      modifies this, Repr
      ensures Valid() && books == Receive(fields, timeout, old(books), r) && fresh(Repr - old(Repr))
    {
      hide BooksOk, OutputMatches, Separate, Contents, KeyOf, Fits, StartsNewWindow, Receive;
      var key := GenerateKey(r);
      if key in storage {
        var newTimeWindow := IsNewWindow(key, r);
        if newTimeWindow {
          Restart(key, r);
        } else {
          Merge(key, r);
        }
      } else {
        AddNew(key, r);
      }
    }

    // sending a record and erasing it from the storage
    method Expel(key: Key)
      requires Valid() && key in storage && key in books.groups && Sendable(fields, books.groups[key])
      modifies this, Repr
      ensures Valid() && key in old(books).groups && books == Emit(old(books), key) && Repr == old(Repr)
      ensures storage == old(storage) - {key}
    {
      hide BooksOk, OutputMatches, Matches, Separate, Contents, Emit, Sendable;
      SameKeys(fields, Contents(), books.groups);
      EmitMatches(fields, Contents(), books, key);
      EmitKeeps(fields, timeout, books, key);
      SendGroup(key);
      Erase(key);
      books := Emit(books, key);
    }

    method LastSecond(key: Key) returns (t: nat)
      requires Valid() && key in storage
      ensures key in books.groups && Group(fields, books.groups[key])
      ensures t == Sec(Summarize(fields, books.groups[key]).timeLast)
    {
      hide Summarize, BooksOk, OutputMatches;
      assert Contents()[key].timeLast == storage[key].timeLast;
      t := Sec(storage[key].timeLast);
    }

    // one sweep of the thread that checks the passive timeout: it sends what ended before the limit, in some order
    method SweepPassive(limit: int) returns (ghost order: seq<Key>)
      requires Valid()
      requires forall k :: k in books.groups && !EndsFrom(fields, books.groups[k], limit) ==>
        Sendable(fields, books.groups[k])
      modifies this, Repr
      ensures Valid() && Repr == old(Repr)
      ensures CanEmitAll(old(books), order) && books == EmitAll(old(books), order)
      ensures forall k :: k in old(books).groups ==>
        (k in books.groups <==> EndsFrom(fields, old(books).groups[k], limit))
    {
      hide Valid, CanEmitAll, EmitAll, EndsFrom, Sendable, Swept;
      order := [];
      KeysOfBooks();
      ghost var was := books;
      var keys := storage.Keys;
      NotSwept(fields, was, limit);
      while keys != {}
        invariant Valid() && Repr == old(Repr)
        invariant Swept(fields, was, books, order, keys, limit)
      {
        var key :| key in keys;
        KeysOfBooks();
        StillToSweep(fields, was, books, order, keys, limit, key);
        var last := LastSecond(key);
        EndsFromIs(fields, books.groups[key], limit);
        SweptOne(fields, was, books, order, keys, limit, key);
        if last < limit {
          Expel(key);
          order := order + [key];
        }
        keys := keys - {key};
      }
      AllSwept(fields, was, books, order, limit);
    }

    ghost method KeysOfBooks()
      requires Valid()
      ensures books.groups.Keys == storage.Keys
    {}

    // flush_storage: at the global timeout, at a change of format, and at the end
    method FlushStorage() returns (ghost order: seq<Key>)
      requires Valid() && forall k :: k in books.groups ==> Sendable(fields, books.groups[k])
      modifies this, Repr
      ensures Valid() && Repr == old(Repr)
      ensures CanEmitAll(old(books), order) && books == EmitAll(old(books), order) && books.groups == map[]
    {
      hide Valid, CanEmitAll, EmitAll, Sendable;
      hide EndsFrom;
      order := [];
      assert CanEmitAll(books, []) && EmitAll(books, []) == books by { EmitNone(books); }
      KeysOfBooks();
      ghost var was := books;
      while storage.Keys != {}
        invariant Valid() && Repr == old(Repr) && books.groups.Keys == storage.Keys
        invariant CanEmitAll(was, order) && books == EmitAll(was, order)
        invariant forall k :: k in books.groups ==> Sendable(fields, books.groups[k])
        decreases |storage.Keys|
      {
        var key :| key in storage.Keys;
        EmitMore(was, order, key);
        LessKeys(storage, key);
        Expel(key);
        order := order + [key];
      }
      assert books.groups.Keys == {};
    }
  }

  // the group ends in this second or later
  ghost predicate EndsFrom(fields: seq<Field>, g: seq<Record>, limit: int) {
    Group(fields, g) && Sec(Summarize(fields, g).timeLast) >= limit
  }

  lemma EndsFromIs(fields: seq<Field>, g: seq<Record>, limit: int)
    requires Group(fields, g)
    ensures EndsFrom(fields, g, limit) <==> Sec(Summarize(fields, g).timeLast) >= limit
  {}

  lemma LessKeys<K, V>(m: map<K, V>, k: K)
    requires k in m
    ensures |(m - {k}).Keys| < |m.Keys|
  {
    assert m.Keys == (m - {k}).Keys + {k};
  }

  // a sweep of the groups, with these keys still to come
  ghost predicate Swept(fields: seq<Field>, was: Books, now: Books, order: seq<Key>, keys: set<Key>, limit: int) {
    && CanEmitAll(was, order) && now == EmitAll(was, order)
    && keys <= now.groups.Keys <= was.groups.Keys
    && (forall k :: k in now.groups ==> now.groups[k] == was.groups[k])
    && forall k :: k in was.groups && k !in keys ==> (k in now.groups <==> EndsFrom(fields, was.groups[k], limit))
  }

  lemma NotSwept(fields: seq<Field>, was: Books, limit: int)
    ensures Swept(fields, was, was, [], was.groups.Keys, limit)
  {
    EmitNone(was);
  }

  lemma StillToSweep(
    fields: seq<Field>, was: Books, now: Books, order: seq<Key>, keys: set<Key>, limit: int, key: Key)
    requires Swept(fields, was, now, order, keys, limit) && key in keys
    ensures key in now.groups && key in was.groups && now.groups[key] == was.groups[key]
  {
    hide CanEmitAll, EmitAll, EndsFrom;
  }

  lemma SweptOne(fields: seq<Field>, was: Books, now: Books, order: seq<Key>, keys: set<Key>, limit: int, key: Key)
    requires Swept(fields, was, now, order, keys, limit) && key in keys && key in now.groups
    ensures if EndsFrom(fields, now.groups[key], limit) then Swept(fields, was, now, order, keys - {key}, limit)
            else Swept(fields, was, Emit(now, key), order + [key], keys - {key}, limit)
  {
    hide CanEmitAll, EmitAll, EndsFrom;
    EmitMore(was, order, key);
  }

  lemma AllSwept(fields: seq<Field>, was: Books, now: Books, order: seq<Key>, limit: int)
    requires Swept(fields, was, now, order, {}, limit)
    ensures CanEmitAll(was, order) && now == EmitAll(was, order)
    ensures forall k :: k in was.groups ==> (k in now.groups <==> EndsFrom(fields, was.groups[k], limit))
  {
    hide CanEmitAll, EmitAll, EndsFrom;
  }

  lemma EmitNone(b: Books)
    ensures CanEmitAll(b, []) && EmitAll(b, []) == b
  {}

  lemma EmitMore(b: Books, order: seq<Key>, k: Key)
    requires CanEmitAll(b, order) && k in EmitAll(b, order).groups
    ensures CanEmitAll(b, order + [k]) && EmitAll(b, order + [k]) == Emit(EmitAll(b, order), k)
  {
    assert (order + [k])[..|order|] == order;
  }

  lemma EmitMatches(fields: seq<Field>, contents: map<Key, Summary>, b: Books, k: Key)
    requires Matches(fields, contents, b.groups) && k in b.groups
    ensures Matches(fields, contents - {k}, Emit(b, k).groups)
    ensures Emit(b, k).emitted == b.emitted + [(k, b.groups[k])]
  {
    hide Summarize;
  }

  // Sending it divides by no zero, which a multiple of 2^32 members has as COUNT.
  ghost predicate Sendable(fields: seq<Field>, g: seq<Record>) {
    CanDivide(fields, |g| % 0x1_0000_0000)
  }

  ghost predicate IsSplit(fields: seq<Field>, timeout: Timeout, g: seq<Record>, r: Record) {
    Group(fields, g) && StartsNewWindow(fields, timeout, g, r)
  }

  // each stored record is what its group comes to
  ghost predicate Matches(fields: seq<Field>, contents: map<Key, Summary>, groups: map<Key, seq<Record>>) {
    && contents.Keys == groups.Keys
    && forall k :: k in groups ==> Group(fields, groups[k]) && contents[k] == Summarize(fields, groups[k])
  }

  // each record sent is what its group came to
  ghost predicate IsOutput(fields: seq<Field>, group: (Key, seq<Record>), o: (Key, Summary)) {
    && Group(fields, group.1) && CanDivide(fields, Summarize(fields, group.1).count)
    && o == (group.0, Prepared(fields, Summarize(fields, group.1)))
  }

  ghost predicate OutputMatches(fields: seq<Field>, output: seq<(Key, Summary)>, emitted: seq<(Key, seq<Record>)>) {
    |output| == |emitted| && forall i :: 0 <= i < |output| ==> IsOutput(fields, emitted[i], output[i])
  }

  // Any group of fewer than 2^32 records can be sent.
  lemma SmallGroupsSendable(fields: seq<Field>, g: seq<Record>)
    requires 0 < |g| < 0x1_0000_0000
    ensures Sendable(fields, g)
  {}

  lemma FitsLength(fields: seq<Field>, values: seq<Value>)
    requires Fits(fields, values)
    ensures |values| == |fields|
  {}

  lemma MatchesAt(fields: seq<Field>, contents: map<Key, Summary>, groups: map<Key, seq<Record>>, k: Key)
    requires Matches(fields, contents, groups) && k in contents && k in groups && Sendable(fields, groups[k])
    ensures Group(fields, groups[k])
    ensures Fits(fields, contents[k].values) && CanDivide(fields, contents[k].count)
    ensures IsOutput(fields, (k, groups[k]), (k, Prepared(fields, contents[k])))
  {
    CountAndTimes(fields, groups[k]);
  }

  lemma OutputAppend(fields: seq<Field>, output: seq<(Key, Summary)>, books: Books, k: Key)
    requires OutputMatches(fields, output, books.emitted) && k in books.groups
    ensures forall o :: IsOutput(fields, (k, books.groups[k]), o) ==>
      OutputMatches(fields, output + [o], books.emitted + [(k, books.groups[k])])
  {}

  lemma SameKeys(fields: seq<Field>, contents: map<Key, Summary>, groups: map<Key, seq<Record>>)
    requires Matches(fields, contents, groups)
    ensures contents.Keys == groups.Keys
  {}

  lemma Patch<K, V>(a: map<K, V>, b: map<K, V>, k: K, v: V)
    requires a - {k} == b - {k}
    ensures a[k := v] == b[k := v]
  {
    var c, d := a[k := v], b[k := v];
    forall l
      ensures (l in c <==> l in d) && (l in c ==> c[l] == d[l])
    {
      if l != k {
        assert l in a - {k} <==> l in b - {k};
        assert l in a - {k} ==> (a - {k})[l] == (b - {k})[l];
      }
    }
  }

  lemma GroupOfMore(fields: seq<Field>, g: seq<Record>, r: Record)
    requires Group(fields, g) && Fits(fields, r.values)
    ensures Group(fields, g + [r]) && Summarize(fields, g + [r]) == Process(fields, Summarize(fields, g), r)
  {
    assert (g + [r])[..|g|] == g;
  }

  // what the storage holds after a record, and what is then sent, as the books have it
  lemma ReceiveMatches(fields: seq<Field>, timeout: Timeout, contents: map<Key, Summary>, b: Books, r: Record)
    requires Matches(fields, contents, b.groups) && Fits(fields, r.values)
    ensures KeyOf(r) in b.groups ==> Group(fields, b.groups[KeyOf(r)]) && Fits(fields, contents[KeyOf(r)].values)
    ensures var k, c := KeyOf(r), Receive(fields, timeout, b, r);
            if k !in b.groups then Matches(fields, contents[k := Init(r)], c.groups) && c.emitted == b.emitted
            else if StartsNewWindow(fields, timeout, b.groups[k], r) then
              Matches(fields, contents[k := Init(r)], c.groups) && c.emitted == b.emitted + [(k, b.groups[k])]
            else Matches(fields, contents[k := Process(fields, contents[k], r)], c.groups) && c.emitted == b.emitted
  {
    hide Fits, KeyOf, Process, StartsNewWindow, Summarize, Group;
    var k := KeyOf(r);
    GroupOfOne(fields, r);
    if k in b.groups {
      GroupOfMore(fields, b.groups[k], r);
    }
  }

  lemma GroupOfOne(fields: seq<Field>, r: Record)
    requires Fits(fields, r.values)
    ensures Group(fields, [r]) && Summarize(fields, [r]) == Init(r)
  {}

  /**
   * A record that was sent has the size of its group as COUNT, in 32 bits, the earliest start and the latest end, and
   * in each field the fold over its members, divided by COUNT where it is an average.
   */
  lemma OutputIsFold(fields: seq<Field>, k: Key, g: seq<Record>, o: Summary, i: nat)
    requires IsOutput(fields, (k, g), (k, o)) && i < |fields|
    ensures o.count == |g| % 0x1_0000_0000 && IsMinimum(o.timeFirst, g) && IsMaximum(o.timeLast, g)
    ensures Group(fields, g) && |o.values| == |fields|
    ensures var t, v := fields[i].type_, Fold(fields[i].function_, fields[i].type_, Column(fields, g, i));
            if fields[i].function_ == Avg && t.IntType? then
              0 < o.count < 0x1_0000_0000 && o.values[i] == Int(MakeAvg(t, v.n, o.count))
            else if fields[i].function_ == Avg && t.RealType? then
              o.count > 0 && o.values[i] == Real(v.x / o.count as real)
            else o.values[i] == v
  {
    hide IsMinimum, IsMaximum, Fold, Summarize, InRange, MakeAvg;
    CountAndTimes(fields, g);
    FieldIsFold(fields, g, i);
  }
}
