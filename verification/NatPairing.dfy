/** The pairing loop of natpair/natpair.cpp as a specification: one list of the flows that wait, in arrival order. */
module NatPairing {
  import opened Filters
  import opened NatFlow

  datatype State = State(
    waiting: seq<Flow>,
    now: nat, lastCleaning: nat,
    sent: seq<(Flow, Flow)>,      // the pairs sent out, the half that arrived last first
    expired: multiset<Flow>)

  const START := State([], 0, 0, [], multiset{})

  // the index of the first flow that the new one can be paired with, or the length
  function FirstPartner(c: Config, waiting: seq<Flow>, f: Flow): (i: nat)
    ensures i <= |waiting|
    ensures i < |waiting| ==> Pairable(c, waiting[i], f)
    ensures forall j :: 0 <= j < i ==> !Pairable(c, waiting[j], f)
  {
    if waiting == [] then 0
    else if Pairable(c, waiting[0], f) then 0
    else FirstPartner(c, waiting[1..], f) + 1
  }

  // the flows with this key
  function Bucket(waiting: seq<Flow>, key: nat): seq<Flow> {
    Filter(f => HashKey(f) == key, waiting)
  }

  ghost function Keys(waiting: seq<Flow>): set<nat> {
    set f | f in waiting :: HashKey(f)
  }

  predicate IsFresh(c: Config, f: Flow, now: nat) {
    GetTime(f) >= now || c.timeDiff(GetTime(f), now) < c.freeTime
  }

  function Fresh(c: Config, waiting: seq<Flow>, now: nat): seq<Flow> {
    Filter(f => IsFresh(c, f, now), waiting)
  }

  predicate CleaningDue(c: Config, buckets: nat, now: nat, lastCleaning: nat) {
    buckets > c.cacheSize || (now >= lastCleaning && c.timeDiff(now, lastCleaning) >= c.checkTime)
  }

  function Expire(c: Config, s: State): State {
    s.(waiting := Fresh(c, s.waiting, s.now),
       expired := s.expired + multiset(Filter(f => !IsFresh(c, f, s.now), s.waiting)),
       lastCleaning := s.now)
  }

  ghost function Clean(c: Config, s: State): State {
    if CleaningDue(c, |Keys(s.waiting)|, s.now, s.lastCleaning) then Expire(c, s) else s
  }

  function Paired(c: Config, s: State, f: Flow): State
    requires FirstPartner(c, s.waiting, f) < |s.waiting|
  {
    var i := FirstPartner(c, s.waiting, f);
    s.(waiting := Without(s.waiting, i), now := GetTime(f), sent := s.sent + [(f, s.waiting[i])])
  }

  function Stored(s: State, f: Flow): State {
    s.(waiting := s.waiting + [f])
  }

  // One flow: a full scan for the first partner. A flow with a new key is stored without a look at the clock.
  ghost function Step(c: Config, s: State, f: Flow): State {
    if HashKey(f) !in Keys(s.waiting) then Stored(s, f)
    else if FirstPartner(c, s.waiting, f) < |s.waiting| then Clean(c, Paired(c, s, f))
    else Clean(c, Stored(s, f))
  }

  ghost function Run(c: Config, fs: seq<Flow>): State {
    if fs == [] then START else Step(c, Run(c, fs[..|fs| - 1]), fs[|fs| - 1])
  }

  // ---- every run ----

  ghost predicate NonePairable(c: Config, waiting: seq<Flow>) {
    forall i, j :: 0 <= i < j < |waiting| ==> !Pairable(c, waiting[i], waiting[j])
  }

  function Halves(sent: seq<(Flow, Flow)>): multiset<Flow> {
    if sent == [] then multiset{}
    else Halves(sent[..|sent| - 1]) + multiset{sent[|sent| - 1].0, sent[|sent| - 1].1}
  }

  function Accounted(s: State): multiset<Flow> {
    Halves(s.sent) + multiset(s.waiting) + s.expired
  }

  lemma {:induction false} FilterKeepsUnpairable(c: Config, p: Flow -> bool, waiting: seq<Flow>)
    requires NonePairable(c, waiting)
    ensures NonePairable(c, Filter(p, waiting))
  {
    hide Pairable;
    if waiting != [] {
      FilterKeepsUnpairable(c, p, waiting[1..]);
      FilterHolds(p, waiting[1..]);
      var rest := Filter(p, waiting[1..]);
      forall j | 0 <= j < |rest|
        ensures !Pairable(c, waiting[0], rest[j])
      {
        assert rest[j] in waiting[1..];
      }
    }
  }

  lemma StepKeepsUnpairable(c: Config, s: State, f: Flow)
    requires NonePairable(c, s.waiting)
    ensures NonePairable(c, Step(c, s, f).waiting)
  {
    hide HashKey, Pairable;
    var i := FirstPartner(c, s.waiting, f);
    if i < |s.waiting| {
      PairableSameKey(c, s.waiting[i], f);
      FilterKeepsUnpairable(c, g => IsFresh(c, g, GetTime(f)), Without(s.waiting, i));
    } else {
      FilterKeepsUnpairable(c, g => IsFresh(c, g, s.now), s.waiting + [f]);
    }
  }

  /** In every run no two waiting flows could be paired with each other. */
  lemma {:induction false} NoPairWaits(c: Config, fs: seq<Flow>)
    ensures NonePairable(c, Run(c, fs).waiting)
  {
    hide Step;
    if fs != [] {
      NoPairWaits(c, fs[..|fs| - 1]);
      StepKeepsUnpairable(c, Run(c, fs[..|fs| - 1]), fs[|fs| - 1]);
    }
  }

  lemma CleanAccounts(c: Config, s: State)
    ensures Accounted(Clean(c, s)) == Accounted(s)
  {
    hide CleaningDue, IsFresh, Filter, Halves;
    var p, q := f => IsFresh(c, f, s.now), f => !IsFresh(c, f, s.now);
    FilterSplits(p, q, s.waiting);
    Regroup(Halves(s.sent), multiset(Filter(p, s.waiting)), multiset(Filter(q, s.waiting)), s.expired);
  }

  lemma Regroup<T>(h: multiset<T>, a: multiset<T>, b: multiset<T>, e: multiset<T>)
    ensures h + a + (e + b) == h + (a + b) + e
  {}

  lemma RegroupPair<T>(h: multiset<T>, w: multiset<T>, e: multiset<T>, f: T, g: T)
    ensures h + multiset{f, g} + w + e == h + (w + multiset{g}) + e + multiset{f}
    ensures h + (w + multiset{f}) + e == h + w + e + multiset{f}
  {}

  lemma PairedAccounts(c: Config, s: State, f: Flow)
    requires FirstPartner(c, s.waiting, f) < |s.waiting|
    ensures Accounted(Paired(c, s, f)) == Accounted(s) + multiset{f}
  {
    hide HashKey, Pairable, FirstPartner;
    var i, t := FirstPartner(c, s.waiting, f), Paired(c, s, f);
    var g := s.waiting[i];
    WithoutRemoves(s.waiting, i);
    assert t.sent[..|t.sent| - 1] == s.sent && t.sent[|t.sent| - 1] == (f, g);
    assert Halves(t.sent) == Halves(s.sent) + multiset{f, g};
    hide Halves, Without;
    RegroupPair(Halves(s.sent), multiset(t.waiting), s.expired, f, g);
  }

  lemma StepAccounts(c: Config, s: State, f: Flow)
    ensures Accounted(Step(c, s, f)) == Accounted(s) + multiset{f}
  {
    hide HashKey, Pairable, Clean, Paired, FirstPartner;
    CleanAccounts(c, Stored(s, f));
    assert Accounted(Stored(s, f)) == Accounted(s) + multiset{f} by {
      RegroupPair(Halves(s.sent), multiset(s.waiting), s.expired, f, f);
    }
    if FirstPartner(c, s.waiting, f) < |s.waiting| {
      PairedAccounts(c, s, f);
      CleanAccounts(c, Paired(c, s, f));
    }
  }

  lemma {:induction false} HalvesCount(sent: seq<(Flow, Flow)>)
    ensures |Halves(sent)| == 2 * |sent|
  {
    if sent != [] {
      HalvesCount(sent[..|sent| - 1]);
    }
  }

  lemma {:induction false} RunAccounts(c: Config, fs: seq<Flow>)
    ensures Accounted(Run(c, fs)) == multiset(fs)
  {
    hide Step;
    if fs != [] {
      RunAccounts(c, fs[..|fs| - 1]);
      hide Accounted;
      StepAccounts(c, Run(c, fs[..|fs| - 1]), fs[|fs| - 1]);
      assert fs == fs[..|fs| - 1] + [fs[|fs| - 1]];
    }
  }

  /** Every flow received is in exactly one pair sent, or waits, or was expired by a cleaning. */
  lemma EveryFlowAccounted(c: Config, fs: seq<Flow>)
    ensures var s := Run(c, fs);
            && multiset(fs) == Halves(s.sent) + multiset(s.waiting) + s.expired
            && |fs| == 2 * |s.sent| + |s.waiting| + |s.expired|
  {
    hide Run;
    RunAccounts(c, fs);
    HalvesCount(Run(c, fs).sent);
    assert |multiset(fs)| == |fs|;
  }

  lemma {:induction false} HalvesOfPairs(sent: seq<(Flow, Flow)>)
    ensures forall p :: p in sent ==> p.0 in Halves(sent) && p.1 in Halves(sent)
  {
    if sent != [] {
      HalvesOfPairs(sent[..|sent| - 1]);
      assert sent == sent[..|sent| - 1] + [sent[|sent| - 1]];
    }
  }

  lemma {:induction false} SentArePairable(c: Config, fs: seq<Flow>)
    ensures forall p :: p in Run(c, fs).sent ==> Pairable(c, p.1, p.0)
  {
    hide Pairable, HashKey;
    if fs != [] {
      SentArePairable(c, fs[..|fs| - 1]);
    }
  }

  /** What is sent are pairs, and each pair is of two flows that were received. */
  lemma SentArePairs(c: Config, fs: seq<Flow>)
    ensures forall p :: p in Run(c, fs).sent ==> Pairable(c, p.1, p.0) && p.0 in fs && p.1 in fs
  {
    hide Pairable, Run, Halves;
    SentArePairable(c, fs);
    RunAccounts(c, fs);
    var s := Run(c, fs);
    HalvesOfPairs(s.sent);
    forall p | p in s.sent
      ensures p.0 in fs && p.1 in fs
    {
      assert p.0 in multiset(fs) && p.1 in multiset(fs);
    }
  }
}
