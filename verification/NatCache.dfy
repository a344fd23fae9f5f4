/** The flow cache of natpair/natpair.cpp, a hash map of buckets, and the loop body that pairs one flow. */
module NatCache {
  import opened Filters
  import opened NatFlow
  import opened NatPairing

  // no bucket is empty, and each holds the waiting flows of its key in arrival order
  ghost predicate Represents(cache: map<nat, seq<Flow>>, waiting: seq<Flow>) {
    forall key :: (key in cache <==> Bucket(waiting, key) != [])
                  && (key in cache ==> cache[key] == Bucket(waiting, key))
  }

  lemma KeysOfBuckets(cache: map<nat, seq<Flow>>, waiting: seq<Flow>)
    requires Represents(cache, waiting)
    ensures cache.Keys == Keys(waiting) && |cache| == |Keys(waiting)|
  {
    hide HashKey;
    forall key
      ensures key in cache <==> key in Keys(waiting)
    {
      FilterHolds(f => HashKey(f) == key, waiting);
      var bucket := Bucket(waiting, key);
      if bucket != [] {
        assert bucket[0] in bucket;
      }
    }
    assert cache.Keys == Keys(waiting);
  }

  lemma BucketOfKey(cache: map<nat, seq<Flow>>, waiting: seq<Flow>, key: nat)
    requires Represents(cache, waiting) && key in cache
    ensures cache[key] == Bucket(waiting, key)
  {}

  // before the first partner, its bucket has what the list has of this key
  lemma PartnerInBucket(c: Config, waiting: seq<Flow>, f: Flow)
    ensures var i := FirstPartner(c, waiting, f);
            && FirstPartner(c, Bucket(waiting, HashKey(f)), f) == |Bucket(waiting[..i], HashKey(f))|
            && (i < |waiting| ==> HashKey(waiting[i]) == HashKey(f))
            && (i == |waiting| ==> waiting[..i] == waiting)
  {
    hide HashKey, Pairable;
    var key, i := HashKey(f), FirstPartner(c, waiting, f);
    var p := (g: Flow) => HashKey(g) == key;
    var before, b := Bucket(waiting[..i], key), Bucket(waiting, key);
    FilterHolds(p, waiting[..i]);
    forall j | 0 <= j < |before|
      ensures !Pairable(c, before[j], f)
    {
      assert before[j] in before;
      var m :| 0 <= m < i && waiting[..i][m] == before[j];
    }
    if i < |waiting| {
      PairableSameKey(c, waiting[i], f);
      FilterAround(p, waiting, i);
    } else {
      assert waiting[..i] == waiting;
    }
    FirstPartnerIs(c, b, f, |before|);
  }

  lemma {:induction false} FirstPartnerIs(c: Config, waiting: seq<Flow>, f: Flow, i: nat)
    requires i <= |waiting| && forall j :: 0 <= j < i ==> !Pairable(c, waiting[j], f)
    requires i < |waiting| ==> Pairable(c, waiting[i], f)
    ensures FirstPartner(c, waiting, f) == i
  {}

  /** The scan of one bucket finds the same first partner as the scan of the whole list. */
  lemma SamePartner(c: Config, waiting: seq<Flow>, f: Flow)
    ensures var i, j := FirstPartner(c, waiting, f), FirstPartner(c, Bucket(waiting, HashKey(f)), f);
            && (i < |waiting| <==> j < |Bucket(waiting, HashKey(f))|)
            && (i < |waiting| ==> waiting[i] == Bucket(waiting, HashKey(f))[j])
  {
    hide HashKey, Pairable;
    PartnerInBucket(c, waiting, f);
    var key := HashKey(f);
    if FirstPartner(c, waiting, f) < |waiting| {
      FilterAround(g => HashKey(g) == key, waiting, FirstPartner(c, waiting, f));
    }
  }

  /** Taking the partner out of its bucket is taking it out of the list. */
  lemma PartnerRemoved(c: Config, waiting: seq<Flow>, f: Flow, key: nat)
    requires FirstPartner(c, waiting, f) < |waiting|
    requires FirstPartner(c, Bucket(waiting, HashKey(f)), f) < |Bucket(waiting, HashKey(f))|
    ensures Bucket(Without(waiting, FirstPartner(c, waiting, f)), key)
            == if key == HashKey(f) then Without(Bucket(waiting, key), FirstPartner(c, Bucket(waiting, key), f))
               else Bucket(waiting, key)
  {
    hide HashKey, Pairable, Filter, FirstPartner;
    var i := FirstPartner(c, waiting, f);
    PartnerInBucket(c, waiting, f);
    FilterAround(g => HashKey(g) == key, waiting, i);
    WithoutMiddle(Bucket(waiting[..i], key), waiting[i], Bucket(waiting[i + 1..], key));
  }

  lemma WithoutMiddle<T>(x: seq<T>, m: T, y: seq<T>)
    ensures Without(x + [m] + y, |x|) == x + y
  {}

  lemma StoredBucket(waiting: seq<Flow>, f: Flow, key: nat)
    ensures Bucket(waiting + [f], key) == if key == HashKey(f) then Bucket(waiting, key) + [f] else Bucket(waiting, key)
  {
    FilterAppend(g => HashKey(g) == key, waiting, f);
  }

  lemma BucketFresh(c: Config, waiting: seq<Flow>, now: nat, key: nat)
    ensures Bucket(Fresh(c, waiting, now), key) == Fresh(c, Bucket(waiting, key), now)
  {
    FilterCommutes(f => HashKey(f) == key, f => IsFresh(c, f, now), waiting);
  }

  /** Cleaning every bucket and leaving out those that become empty is cleaning the list. */
  lemma FreshBuckets(c: Config, cache: map<nat, seq<Flow>>, newcache: map<nat, seq<Flow>>, waiting: seq<Flow>, now: nat)
    requires Represents(cache, waiting)
    requires forall k :: k in newcache <==> k in cache && Fresh(c, cache[k], now) != []
    requires forall k :: k in newcache ==> newcache[k] == Fresh(c, cache[k], now)
    ensures Represents(newcache, Fresh(c, waiting, now))
  {
    assert Fresh(c, [], now) == [];
    hide Bucket, Fresh;
    forall k {
      BucketFresh(c, waiting, now, k);
    }
  }

  class FlowCache {
    const c: Config
    var flowcache: map<nat, seq<Flow>>
    var tNow: nat
    var tLast: nat
    var output: seq<Record>       // the output interface
    ghost var state: State

    ghost predicate Valid()
      reads this
    {
      && Represents(flowcache, state.waiting)
      && tNow == state.now && tLast == state.lastCleaning
      && |output| == |state.sent|
      && forall i :: 0 <= i < |output| ==> output[i] == Output(c, Complete(state.sent[i].0, state.sent[i].1))
    }

    constructor (c: Config)
      ensures Valid() && state == START && this.c == c
    {
      this.c := c;
      flowcache, tNow, tLast, output := map[], 0, 0, [];
      state := START;
    }

    // the walk over one bucket
    method FindPartner(bucket: seq<Flow>, f: Flow) returns (v: nat)
      ensures v == FirstPartner(c, bucket, f)
    {
      v := 0;
      while v < |bucket| && !Pairable(c, bucket[v], f)
        invariant v <= |bucket|
        invariant forall j :: 0 <= j < v ==> !Pairable(c, bucket[j], f)
      {
        v := v + 1;
      }
      FirstPartnerIs(c, bucket, f, v);
    }

    method TakePartner(f: Flow)
      requires Valid() && HashKey(f) in flowcache
      requires FirstPartner(c, flowcache[HashKey(f)], f) < |flowcache[HashKey(f)]|
      modifies this
      ensures Valid() && FirstPartner(c, old(state.waiting), f) < |old(state.waiting)|
      ensures state == Paired(c, old(state), f)
    {
      hide HashKey, Pairable, Complete, Output, FirstPartner, Bucket, Without;
      var key := HashKey(f);
      var bucket := flowcache[key];
      var v := FindPartner(bucket, f);
      SamePartner(c, state.waiting, f);
      forall k {
        PartnerRemoved(c, state.waiting, f, k);
      }
      tNow := GetTime(f);
      assert |bucket| == 1 <==> Without(bucket, v) == [] by { WithoutLength(bucket, v); }
      if |bucket| == 1 {
        flowcache := flowcache - {key};
      } else {
        flowcache := flowcache[key := Without(bucket, v)];
      }
      output := output + [Output(c, Complete(f, bucket[v]))];
      state := Paired(c, state, f);
    }

    method Store(f: Flow)
      requires Valid()
      modifies this
      ensures Valid() && state == Stored(old(state), f)
    {
      hide HashKey, Pairable, Complete, Output, Bucket;
      var key := HashKey(f);
      flowcache := flowcache[key := (if key in flowcache then flowcache[key] else []) + [f]];
      forall k {
        StoredBucket(state.waiting, f, k);
      }
      state := Stored(state, f);
    }

    method FreshOf(bucket: seq<Flow>) returns (newvec: seq<Flow>)
      ensures newvec == Fresh(c, bucket, tNow)
    {
      hide IsFresh;
      newvec := [];
      ghost var now := tNow;
      ghost var p := f => IsFresh(c, f, now);
      for v := 0 to |bucket|
        invariant newvec == Filter(p, bucket[..v])
      {
        FilterTake(p, bucket, v);
        if IsFresh(c, bucket[v], tNow) {
          newvec := newvec + [bucket[v]];
        }
      }
      assert bucket[..|bucket|] == bucket;
    }

    method FreshCache() returns (newcache: map<nat, seq<Flow>>)
      requires Valid()
      ensures Represents(newcache, Fresh(c, state.waiting, tNow))
    {
      hide Fresh;
      newcache := map[];
      var keys := flowcache.Keys;
      while keys != {}
        invariant keys <= flowcache.Keys
        invariant forall k :: k in newcache <==> k in flowcache.Keys - keys && Fresh(c, flowcache[k], tNow) != []
        invariant forall k :: k in newcache ==> newcache[k] == Fresh(c, flowcache[k], tNow)
      {
        var key :| key in keys;
        var newvec := FreshOf(flowcache[key]);
        if |newvec| > 0 {
          newcache := newcache[key := newvec];
        }
        keys := keys - {key};
      }
      FreshBuckets(c, flowcache, newcache, state.waiting, tNow);
    }

    method CleanCache()
      requires Valid()
      modifies this
      ensures Valid() && state == Expire(c, old(state))
    {
      hide Complete, Output, Represents, Fresh;
      var newcache := FreshCache();
      tLast := tNow;
      flowcache := newcache;
      state := Expire(c, state);
    }

    // one turn of the main loop, for a flow taken from the queue
    method Process(f: Flow)
      requires Valid()
      modifies this
      ensures Valid() && state == Step(c, old(state), f)
    {
      hide HashKey, Pairable, CleaningDue, Paired, Stored, Expire, Represents, FirstPartner;
      KeysOfBuckets(flowcache, state.waiting);
      var key := HashKey(f);
      if key !in flowcache {
        Store(f);
        return;
      }
      assert flowcache[key] == Bucket(state.waiting, key) by { BucketOfKey(flowcache, state.waiting, key); }
      SamePartner(c, state.waiting, f);
      var v := FindPartner(flowcache[key], f);
      if v < |flowcache[key]| {
        TakePartner(f);
      } else {
        Store(f);
      }
      KeysOfBuckets(flowcache, state.waiting);
      if CleaningDue(c, |flowcache|, tNow, tLast) {
        CleanCache();
      }
    }

    // the main loop, over the flows in the order in which they leave the queue
    method ProcessAll(fs: seq<Flow>)
      requires Valid() && state == START
      modifies this
      ensures Valid() && state == Run(c, fs)
    {
      hide Step, Valid;
      for i := 0 to |fs|
        invariant Valid() && state == Run(c, fs[..i])
      {
        assert fs[..i + 1][..i] == fs[..i];
        Process(fs[i]);
      }
      assert fs[..|fs|] == fs;
    }
  }

  lemma WithoutLength<T>(s: seq<T>, i: nat)
    requires i < |s|
    ensures |Without(s, i)| == |s| - 1
  {}
}
