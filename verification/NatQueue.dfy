/**
 * The threads of natpair/natpair.cpp: producers that push flows into a queue under a mutex and post a semaphore, and
 * one consumer that takes a token for each flow and one more, at which it finds the queue empty and leaves its loop.
 */
module NatQueue {
  import opened NatFlow
  import Pairing = NatPairing

  datatype Item = Item(source: nat, flow: Flow)   // a flow in the queue; which thread pushed it is noted for the proofs

  // what a producer is about to do; the records it will still receive are in todo
  datatype ProducerPc =
    | Ready | Pushing | UnlockPushed | Posting            // lock, push, unlock, sem_post
    | Leaving | UnlockLast | PostLast | UnlockOther | Done // lock taken, then --th_alive == 0 or not
  datatype Producer = Producer(pc: ProducerPc, todo: seq<Prepared>)

  // Waiting: sem_wait; Token: lock; Checking: q.empty(); then unlock and the turn of the pairing loop, or the exit
  datatype ConsumerPc = Waiting | Token | Checking | UnlockTaken | Processing | UnlockEmpty | Exited

  datatype Thread = P(i: nat) | Consumer
  datatype Mutex = Free | HeldBy(owner: Thread)

  datatype State = State(
    producers: seq<Producer>, consumer: ConsumerPc,
    mutex: Mutex, queue: seq<Item>, tokens: nat, alive: int,
    pushed: seq<Item>, popped: seq<Item>)                 // the history

  function Init(inputs: seq<seq<Prepared>>): State {
    State(seq(|inputs|, i requires 0 <= i < |inputs| => Producer(Ready, inputs[i])),
          Waiting, Free, [], 0, |inputs|, [], [])
  }

  // ---- one step of one thread ----

  predicate Enabled(s: State, t: Thread) {
    match t
    case P(i) =>
      && i < |s.producers|
      && var p := s.producers[i];
         if p.pc == Done then false
         else if p.pc == Ready && (p.todo == [] || p.todo[0].Prepared?) then s.mutex == Free
         else true
    case Consumer =>
      match s.consumer
      case Waiting => s.tokens > 0
      case Token => s.mutex == Free
      case Exited => false
      case _ => true
  }

  function With(s: State, i: nat, p: Producer): State
    requires i < |s.producers|
  {
    s.(producers := s.producers[i := p])
  }

  function ProducerStep(s: State, i: nat): State
    requires Enabled(s, P(i))
  {
    var p := s.producers[i];
    match p.pc
    case Ready =>
      if p.todo == [] then With(s, i, p.(pc := Leaving)).(mutex := HeldBy(P(i)))
      else if p.todo[0].NotTranslated? then With(s, i, p.(todo := p.todo[1..]))
      else With(s, i, p.(pc := Pushing)).(mutex := HeldBy(P(i)))
    case Pushing =>
      if p.todo == [] || p.todo[0].NotTranslated? then s    // not reachable, by the invariant
      else
        var x := Item(i, p.todo[0].flow);
        With(s, i, Producer(UnlockPushed, p.todo[1..])).(queue := s.queue + [x], pushed := s.pushed + [x])
    case UnlockPushed => With(s, i, p.(pc := Posting)).(mutex := Free)
    case Posting => With(s, i, p.(pc := Ready)).(tokens := s.tokens + 1)
    case Leaving =>
      With(s, i, p.(pc := if s.alive - 1 == 0 then UnlockLast else UnlockOther)).(alive := s.alive - 1)
    case UnlockLast => With(s, i, p.(pc := PostLast)).(mutex := Free)
    case PostLast => With(s, i, p.(pc := Done)).(tokens := s.tokens + 1)
    case UnlockOther => With(s, i, p.(pc := Done)).(mutex := Free)
  }

  function ConsumerStep(s: State): State
    requires Enabled(s, Consumer)
  {
    match s.consumer
    case Waiting => s.(consumer := Token, tokens := s.tokens - 1)
    case Token => s.(consumer := Checking, mutex := HeldBy(Consumer))
    case Checking =>
      if s.queue != [] then
        s.(consumer := UnlockTaken, queue := s.queue[1..], popped := s.popped + [s.queue[0]])
      else s.(consumer := UnlockEmpty)
    case UnlockTaken => s.(consumer := Processing, mutex := Free)
    case Processing => s.(consumer := Waiting)
    case UnlockEmpty => s.(consumer := Exited, mutex := Free)
  }

  function Next(s: State, t: Thread): State
    requires Enabled(s, t)
  {
    if t.P? then ProducerStep(s, t.i) else ConsumerStep(s)
  }

  // ---- interleavings: which thread runs at each step ----

  predicate Feasible(s: State, schedule: seq<Thread>)
    decreases |schedule|
  {
    schedule == [] || (Enabled(s, schedule[0]) && Feasible(Next(s, schedule[0]), schedule[1..]))
  }

  function After(s: State, schedule: seq<Thread>): State
    requires Feasible(s, schedule)
    decreases |schedule|
  {
    if schedule == [] then s else After(Next(s, schedule[0]), schedule[1..])
  }

  // ---- sums over the producers ----

  function Sum(w: Producer -> nat, ps: seq<Producer>): nat {
    if ps == [] then 0 else w(ps[0]) + Sum(w, ps[1..])
  }

  lemma {:induction false} SumUpdate(w: Producer -> nat, ps: seq<Producer>, i: nat, p: Producer)
    requires i < |ps|
    ensures Sum(w, ps[i := p]) + w(ps[i]) == Sum(w, ps) + w(p)
  {
    if i == 0 {
      assert ps[i := p][1..] == ps[1..];
    } else {
      SumUpdate(w, ps[1..], i - 1, p);
      assert ps[i := p][1..] == ps[1..][i - 1 := p];
    }
  }

  lemma {:induction false} SumBounds(w: Producer -> nat, ps: seq<Producer>, i: nat)
    requires i < |ps|
    ensures w(ps[i]) <= Sum(w, ps)
  {
    if i > 0 {
      SumBounds(w, ps[1..], i - 1);
    }
  }

  lemma {:induction false} SumZero(w: Producer -> nat, ps: seq<Producer>)
    requires forall i :: 0 <= i < |ps| ==> w(ps[i]) == 0
    ensures Sum(w, ps) == 0
  {
    if ps != [] {
      SumZero(w, ps[1..]);
    }
  }

  function Alive(p: Producer): nat {
    if p.pc in {Ready, Pushing, UnlockPushed, Posting, Leaving} then 1 else 0
  }

  // a post that this producer still owes
  function Owed(p: Producer): nat {
    if p.pc in {UnlockPushed, Posting, UnlockLast, PostLast} then 1 else 0
  }

  // ---- the invariant ----

  predicate Locks(pc: ProducerPc) {
    pc in {Pushing, UnlockPushed, Leaving, UnlockLast, UnlockOther}
  }

  predicate ProducerOk(p: Producer) {
    && (p.pc == Pushing ==> p.todo != [] && p.todo[0].Prepared?)
    && (p.pc in {Leaving, UnlockLast, PostLast, UnlockOther, Done} ==> p.todo == [])
  }

  ghost predicate MutexOk(s: State) {
    && (forall i :: 0 <= i < |s.producers| ==> (Locks(s.producers[i].pc) <==> s.mutex == HeldBy(P(i))))
    && (s.consumer in {Checking, UnlockTaken, UnlockEmpty} <==> s.mutex == HeldBy(Consumer))
    && (s.mutex.HeldBy? && s.mutex.owner.P? ==> s.mutex.owner.i < |s.producers|)
  }

  // the token that is not for a flow: promised when the last producer signs off, used when the consumer finds no flow
  function FinalToken(s: State): nat {
    if s.alive == 0 && s.consumer !in {UnlockEmpty, Exited} then 1 else 0
  }

  function HeldToken(s: State): nat {
    if s.consumer in {Token, Checking} then 1 else 0
  }

  ghost predicate TokensOk(s: State) {
    && s.alive == Sum(Alive, s.producers)
    && s.tokens + Sum(Owed, s.producers) + HeldToken(s) == |s.queue| + FinalToken(s)
    && (s.consumer in {UnlockEmpty, Exited} ==> s.alive == 0 && s.queue == [])
  }

  function PushedBy(items: seq<Item>, i: nat): seq<Flow> {
    if items == [] then []
    else
      var x := items[|items| - 1];
      if x.source == i then PushedBy(items[..|items| - 1], i) + [x.flow] else PushedBy(items[..|items| - 1], i)
  }

  function Translated(records: seq<Prepared>): seq<Flow> {
    if records == [] then []
    else if records[0].Prepared? then [records[0].flow] + Translated(records[1..])
    else Translated(records[1..])
  }

  ghost predicate HistoryOk(inputs: seq<seq<Prepared>>, s: State) {
    && |s.producers| == |inputs| > 0
    && s.pushed == s.popped + s.queue
    && (forall i :: 0 <= i < |inputs| ==>
          PushedBy(s.pushed, i) + Translated(s.producers[i].todo) == Translated(inputs[i]))
    && (forall x :: x in s.pushed ==> x.source < |inputs|)
  }

  ghost predicate Inv(inputs: seq<seq<Prepared>>, s: State) {
    && HistoryOk(inputs, s)
    && (forall i :: 0 <= i < |s.producers| ==> ProducerOk(s.producers[i]))
    && MutexOk(s) && TokensOk(s)
  }

  lemma InitOk(inputs: seq<seq<Prepared>>)
    requires |inputs| > 0
    ensures Inv(inputs, Init(inputs))
  {
    var s := Init(inputs);
    SumZero(Owed, s.producers);
    AllAlive(s.producers);
  }

  lemma {:induction false} AllAlive(ps: seq<Producer>)
    requires forall i :: 0 <= i < |ps| ==> ps[i].pc == Ready
    ensures Sum(Alive, ps) == |ps|
  {
    if ps != [] {
      AllAlive(ps[1..]);
    }
  }

  lemma ProducerKeepsLocks(inputs: seq<seq<Prepared>>, s: State, i: nat)
    requires Inv(inputs, s) && Enabled(s, P(i))
    ensures var t := ProducerStep(s, i);
            MutexOk(t) && forall j :: 0 <= j < |t.producers| ==> ProducerOk(t.producers[j])
  {
    hide Sum, PushedBy, Translated;
  }

  lemma ProducerKeepsTokens(inputs: seq<seq<Prepared>>, s: State, i: nat)
    requires Inv(inputs, s) && Enabled(s, P(i))
    ensures TokensOk(ProducerStep(s, i))
  {
    hide Sum, PushedBy, Translated;
    var q := ProducerStep(s, i).producers[i];
    SumUpdate(Alive, s.producers, i, q);
    SumUpdate(Owed, s.producers, i, q);
    SumBounds(Alive, s.producers, i);
  }

  // what a step of this producer leaves of the history: nothing changes, or one record is skipped, or one flow pushed
  lemma ProducerMoves(s: State, i: nat)
    requires Enabled(s, P(i)) && ProducerOk(s.producers[i])
    ensures var t, todo := ProducerStep(s, i), s.producers[i].todo;
            && t.popped == s.popped && |t.producers| == |s.producers|
            && (forall j :: 0 <= j < |s.producers| && j != i ==> t.producers[j] == s.producers[j])
            && (|| (t.producers[i].todo == todo && t.queue == s.queue && t.pushed == s.pushed)
                || (todo != [] && todo[0].NotTranslated? && t.producers[i].todo == todo[1..]
                    && t.queue == s.queue && t.pushed == s.pushed)
                || (todo != [] && todo[0].Prepared? && t.producers[i].todo == todo[1..]
                    && t.queue == s.queue + [Item(i, todo[0].flow)] && t.pushed == s.pushed + [Item(i, todo[0].flow)]))
  {}

  lemma PushedByAppend(items: seq<Item>, x: Item, j: nat)
    ensures PushedBy(items + [x], j) == if j == x.source then PushedBy(items, j) + [x.flow] else PushedBy(items, j)
  {
    assert (items + [x])[..|items|] == items;
  }

  lemma ProducerKeepsHistory(inputs: seq<seq<Prepared>>, s: State, i: nat)
    requires HistoryOk(inputs, s) && Enabled(s, P(i)) && ProducerOk(s.producers[i])
    ensures HistoryOk(inputs, ProducerStep(s, i))
  {
    hide PushedBy, ProducerOk;
    ProducerMoves(s, i);
    hide ProducerStep, Enabled;
    var t, todo := ProducerStep(s, i), s.producers[i].todo;
    forall j | 0 <= j < |inputs|
      ensures PushedBy(t.pushed, j) + Translated(t.producers[j].todo) == Translated(inputs[j])
    {
      if todo != [] && todo[0].Prepared? {
        PushedByAppend(s.pushed, Item(i, todo[0].flow), j);
      }
    }
  }

  lemma ConsumerKeepsInv(inputs: seq<seq<Prepared>>, s: State)
    requires Inv(inputs, s) && Enabled(s, Consumer)
    ensures Inv(inputs, ConsumerStep(s))
  {
    hide Sum, PushedBy, Translated, Alive, Owed;
  }

  /** Every step of every thread keeps the invariant. */
  lemma StepKeepsInv(inputs: seq<seq<Prepared>>, s: State, t: Thread)
    requires Inv(inputs, s) && Enabled(s, t)
    ensures Inv(inputs, Next(s, t))
  {
    if t.P? {
      hide MutexOk, TokensOk, HistoryOk, ProducerOk;
      ProducerKeepsLocks(inputs, s, t.i);
      ProducerKeepsTokens(inputs, s, t.i);
      ProducerKeepsHistory(inputs, s, t.i);
    } else {
      ConsumerKeepsInv(inputs, s);
    }
  }

  lemma {:induction false} RunKeepsInv(inputs: seq<seq<Prepared>>, s: State, schedule: seq<Thread>)
    requires Inv(inputs, s) && Feasible(s, schedule)
    ensures Inv(inputs, After(s, schedule))
    decreases |schedule|
  {
    hide Inv, Enabled, Next;
    if schedule != [] {
      StepKeepsInv(inputs, s, schedule[0]);
      RunKeepsInv(inputs, Next(s, schedule[0]), schedule[1..]);
    }
  }

  // ---- what the invariant means at the moments that matter ----

  // all that was received has been pushed and popped, in queue order, and nothing is left to post
  ghost predicate AllPopped(inputs: seq<seq<Prepared>>, s: State) {
    && s.alive == 0 && s.tokens == 0 && s.queue == [] && s.popped == s.pushed
    && (forall i :: 0 <= i < |s.producers| ==> s.producers[i].pc in {UnlockOther, Done})
    && (forall i :: 0 <= i < |inputs| ==> PushedBy(s.popped, i) == Translated(inputs[i]))
  }

  lemma NobodyAlive(inputs: seq<seq<Prepared>>, s: State)
    requires Inv(inputs, s) && s.alive == 0 && s.queue == [] && s.tokens + Sum(Owed, s.producers) == 0
    ensures AllPopped(inputs, s)
  {
    forall i | 0 <= i < |s.producers|
      ensures s.producers[i].pc in {UnlockOther, Done}
    {
      SumBounds(Alive, s.producers, i);
      SumBounds(Owed, s.producers, i);
    }
  }

  /**
   * In every interleaving: when the consumer, having taken a token, finds the queue empty, this was the final token.
   * All producers are past their last push and owe no post, and each flow was popped exactly once in queue order.
   */
  lemma EmptyQueueMeansFinished(inputs: seq<seq<Prepared>>, schedule: seq<Thread>)
    requires |inputs| > 0 && Feasible(Init(inputs), schedule)
    ensures var s := After(Init(inputs), schedule);
            (s.consumer == Checking && s.queue == []) || s.consumer == Exited ==> AllPopped(inputs, s)
  {
    InitOk(inputs);
    RunKeepsInv(inputs, Init(inputs), schedule);
    var s := After(Init(inputs), schedule);
    if (s.consumer == Checking && s.queue == []) || s.consumer == Exited {
      hide After, Init, Feasible, AllPopped;
      NobodyAlive(inputs, s);
    }
  }

  /** Flows leave the queue in the order in which they were pushed, those of each thread in the order of its input. */
  lemma PoppedIsPrefix(inputs: seq<seq<Prepared>>, schedule: seq<Thread>)
    requires |inputs| > 0 && Feasible(Init(inputs), schedule)
    ensures var s := After(Init(inputs), schedule);
            && s.pushed == s.popped + s.queue
            && forall i :: 0 <= i < |inputs| ==> PushedBy(s.pushed, i) <= Translated(inputs[i])
  {
    InitOk(inputs);
    RunKeepsInv(inputs, Init(inputs), schedule);
  }

  // ---- no deadlock, and every run ends ----

  function Rank(p: Producer): nat {
    16 * |p.todo| +
    match p.pc
    case Ready => 12 case Pushing => 11 case UnlockPushed => 26 case Posting => 25
    case Leaving => 11 case UnlockLast => 10 case PostLast => 9 case UnlockOther => 1 case Done => 0
  }

  function ConsumerRank(pc: ConsumerPc): nat {
    match pc
    case Waiting => 6 case Token => 11 case Checking => 10 case UnlockTaken => 8 case Processing => 7
    case UnlockEmpty => 1 case Exited => 0
  }

  function Measure(s: State): nat {
    Sum(Rank, s.producers) + 6 * s.tokens + ConsumerRank(s.consumer)
  }

  lemma ProducerDecreases(s: State, i: nat)
    requires Enabled(s, P(i)) && ProducerOk(s.producers[i])
    ensures Measure(ProducerStep(s, i)) < Measure(s)
  {
    hide Sum;
    SumUpdate(Rank, s.producers, i, ProducerStep(s, i).producers[i]);
  }

  lemma ConsumerDecreases(s: State)
    requires Enabled(s, Consumer)
    ensures Measure(ConsumerStep(s)) < Measure(s)
  {}

  lemma StepDecreases(inputs: seq<seq<Prepared>>, s: State, t: Thread)
    requires Inv(inputs, s) && Enabled(s, t)
    ensures Measure(Next(s, t)) < Measure(s)
  {
    hide Measure, MutexOk, TokensOk, HistoryOk;
    if t.P? {
      ProducerDecreases(s, t.i);
    } else {
      ConsumerDecreases(s);
    }
  }

  lemma {:induction false} RunsAreBounded(inputs: seq<seq<Prepared>>, s: State, schedule: seq<Thread>)
    requires Inv(inputs, s) && Feasible(s, schedule)
    ensures |schedule| <= Measure(s) - Measure(After(s, schedule))
    decreases |schedule|
  {
    hide Inv, Enabled, Next, Measure;
    if schedule != [] {
      StepKeepsInv(inputs, s, schedule[0]);
      StepDecreases(inputs, s, schedule[0]);
      RunsAreBounded(inputs, Next(s, schedule[0]), schedule[1..]);
    }
  }

  lemma SomebodyCanStep(inputs: seq<seq<Prepared>>, s: State)
    requires Inv(inputs, s) && s.consumer != Exited
    ensures exists t :: Enabled(s, t)
  {
    hide Sum, PushedBy, Translated;
    if s.mutex.HeldBy? {
      assert Enabled(s, s.mutex.owner);
    } else if i :| 0 <= i < |s.producers| && s.producers[i].pc != Done {
      assert Enabled(s, P(i));
    } else {
      SumZero(Alive, s.producers);
      SumZero(Owed, s.producers);
      assert Enabled(s, Consumer);
    }
  }

  /**
   * No interleaving deadlocks or runs forever: a schedule has a bounded length, and one that cannot be continued has
   * brought the consumer to its exit and every producer to its end, with every flow popped.
   */
  lemma EveryRunFinishes(inputs: seq<seq<Prepared>>, schedule: seq<Thread>)
    requires |inputs| > 0 && Feasible(Init(inputs), schedule)
    ensures |schedule| <= Measure(Init(inputs))
    ensures var s := After(Init(inputs), schedule);
            (forall t :: !Enabled(s, t)) ==>
              s.consumer == Exited && AllPopped(inputs, s)
              && forall i :: 0 <= i < |s.producers| ==> s.producers[i].pc == Done
  {
    InitOk(inputs);
    RunKeepsInv(inputs, Init(inputs), schedule);
    RunsAreBounded(inputs, Init(inputs), schedule);
    EmptyQueueMeansFinished(inputs, schedule);
    var s := After(Init(inputs), schedule);
    if forall t :: !Enabled(s, t) {
      hide Measure, Init, Feasible, After;
      if s.consumer != Exited {
        SomebodyCanStep(inputs, s);
      }
      forall i | 0 <= i < |s.producers|
        ensures s.producers[i].pc == Done
      {
        assert !Enabled(s, P(i));
      }
    }
  }

  // ---- together with the pairing loop ----

  function Flows(items: seq<Item>): seq<Flow> {
    seq(|items|, i requires 0 <= i < |items| => items[i].flow)
  }

  // the translated records of all inputs
  function AllTranslated(inputs: seq<seq<Prepared>>): multiset<Flow> {
    if inputs == [] then multiset{} else multiset(Translated(inputs[0])) + AllTranslated(inputs[1..])
  }

  // the items pushed by the threads from..n on
  function AllPushed(items: seq<Item>, from: nat, n: nat): multiset<Flow>
    requires from <= n
    decreases n - from
  {
    if from == n then multiset{} else multiset(PushedBy(items, from)) + AllPushed(items, from + 1, n)
  }

  lemma {:induction false} AllPushedAppend(items: seq<Item>, x: Item, from: nat, n: nat)
    requires from <= n && x.source < n
    ensures AllPushed(items + [x], from, n)
            == AllPushed(items, from, n) + if from <= x.source then multiset{x.flow} else multiset{}
    decreases n - from
  {
    hide PushedBy;
    if from < n {
      PushedByAppend(items, x, from);
      AllPushedAppend(items, x, from + 1, n);
    }
  }

  lemma {:induction false} NothingPushed(from: nat, n: nat)
    requires from <= n
    ensures AllPushed([], from, n) == multiset{}
    decreases n - from
  {
    if from < n {
      NothingPushed(from + 1, n);
    }
  }

  lemma {:induction false} EveryItemHasSource(items: seq<Item>, n: nat)
    requires forall x :: x in items ==> x.source < n
    ensures AllPushed(items, 0, n) == multiset(Flows(items))
  {
    if items == [] {
      NothingPushed(0, n);
    } else {
      var k := |items| - 1;
      EveryItemHasSource(items[..k], n);
      AllPushedAppend(items[..k], items[k], 0, n);
      assert items == items[..k] + [items[k]];
      assert Flows(items) == Flows(items[..k]) + [items[k].flow];
    }
  }

  lemma {:induction false} TotalsAgree(inputs: seq<seq<Prepared>>, items: seq<Item>, from: nat)
    requires from <= |inputs|
    requires forall i :: 0 <= i < |inputs| ==> PushedBy(items, i) == Translated(inputs[i])
    ensures AllPushed(items, from, |inputs|) == AllTranslated(inputs[from..])
    decreases |inputs| - from
  {
    hide PushedBy, Translated;
    if from < |inputs| {
      TotalsAgree(inputs, items, from + 1);
    }
  }

  /**
   * When the consumer has left its loop, each translated record that any producer received is in exactly one pair that
   * was sent, or still waits in the cache, or was expired by a cleaning: these together are all of them, no more and no
   * less.
   */
  lemma EveryRecordAccounted(c: Config, inputs: seq<seq<Prepared>>, schedule: seq<Thread>)
    requires |inputs| > 0 && Feasible(Init(inputs), schedule)
    requires After(Init(inputs), schedule).consumer == Exited
    ensures var s := Pairing.Run(c, Flows(After(Init(inputs), schedule).popped));
            && AllTranslated(inputs) == Pairing.Halves(s.sent) + multiset(s.waiting) + s.expired
            && |AllTranslated(inputs)| == 2 * |s.sent| + |s.waiting| + |s.expired|
  {
    hide PushedBy, Translated, Pairing.Run, AllPushed, AllTranslated, Pairing.Halves;
    var t := After(Init(inputs), schedule);
    EmptyQueueMeansFinished(inputs, schedule);
    InitOk(inputs);
    RunKeepsInv(inputs, Init(inputs), schedule);
    EveryItemHasSource(t.popped, |inputs|);
    TotalsAgree(inputs, t.popped, 0);
    assert inputs[0..] == inputs;
    Pairing.EveryFlowAccounted(c, Flows(t.popped));
    Pairing.HalvesCount(Pairing.Run(c, Flows(t.popped)).sent);
  }
}
