/** Runs of all rules of scalar-aggregator: while one rule saves a record, the databases of all are rolled. */
module RuleRuns {
  import opened Arithmetic
  import opened TimeSeries
  import opened TimeRuns

  // the turn of a rule whose filter matches a record, with the value of its argument
  datatype Job = Job(rule: nat, flow: Flow)

  // ---- one turn, as events of each rule ----

  // what the rule itself does before its last attempt
  function OwnLoop(es: seq<Event>, f: Flow, rolls: nat): seq<Event>
    decreases rolls
  {
    if rolls == 0 then es else OwnLoop(es + [Attempt(f)] + [RollOut], f, rolls - 1)
  }

  function OwnTurn(es: seq<Event>, f: Flow, rolls: nat): seq<Event> {
    OwnLoop(es, f, rolls) + [Attempt(f)]
  }

  function RollOuts(es: seq<Event>, n: nat): seq<Event>
    decreases n
  {
    if n == 0 then es else RollOuts(es + [RollOut], n - 1)
  }

  // what happens to another rule
  function OtherTurn(es: seq<Event>, f: Flow, rolls: nat): seq<Event> {
    RollOuts(es + [Seen(f.lastSec)], rolls)
  }

  ghost predicate AllProper(start: seq<Db>) {
    forall k :: 0 <= k < |start| ==> Proper(start[k])
  }

  ghost predicate JobsOf(n: nat, jobs: seq<Job>) {
    forall m :: 0 <= m < |jobs| ==> jobs[m].rule < n
  }

  // the events of one rule after one more turn
  ghost function Turn(start: seq<Db>, before: seq<seq<Event>>, job: Job, k: nat): seq<Event>
    requires AllProper(start) && |before| == |start| && job.rule < |start| && k < |start|
  {
    var rolls := SaveRolling(After(start[job.rule], before[job.rule]).db, job.flow).0;
    if k == job.rule then OwnTurn(before[k], job.flow, rolls) else OtherTurn(before[k], job.flow, rolls)
  }

  // the events of every rule
  ghost function Events(start: seq<Db>, jobs: seq<Job>): (r: seq<seq<Event>>)
    requires AllProper(start) && JobsOf(|start|, jobs)
    ensures |r| == |start|
  {
    if jobs == [] then seq(|start|, _ => [])
    else
      var n := |jobs| - 1;
      var before := Events(start, jobs[..n]);
      seq(|start|, k requires 0 <= k < |start| => Turn(start, before, jobs[n], k))
  }

  ghost function LedgerOf(start: seq<Db>, jobs: seq<Job>, k: nat): (l: Ledger)
    requires AllProper(start) && JobsOf(|start|, jobs) && k < |start|
    ensures Proper(l.db)
  {
    After(start[k], Events(start, jobs)[k])
  }

  lemma AfterMore(d: Db, es: seq<Event>, e: Event)
    requires Proper(d)
    ensures After(d, es + [e]) == Next(After(d, es), e)
  {
    hide Next, Proper;
    assert (es + [e])[..|es|] == es;
  }

  lemma OneTurn(start: seq<Db>, jobs: seq<Job>, job: Job, k: nat)
    requires AllProper(start) && JobsOf(|start|, jobs) && job.rule < |start| && k < |start|
    ensures JobsOf(|start|, jobs + [job])
    ensures Events(start, jobs + [job])[k] == Turn(start, Events(start, jobs), job, k)
  {
    hide Turn, AllProper;
    assert (jobs + [job])[..|jobs|] == jobs;
  }

  // The attempts before the last one change nothing but the roll-outs.
  lemma {:induction false} OwnLoopReaches(d: Db, es: seq<Event>, f: Flow)
    requires Proper(d)
    ensures var was := After(d, es).db;
            var (rolls, status, result) := SaveRolling(was, f);
            Save(After(d, OwnLoop(es, f, rolls)).db, f) == (status, result)
    decreases SaveRolling(After(d, es).db, f).0
  {
    hide Save, Roll, Proper, SaveRolling, After;
    var was := After(d, es).db;
    SaveRollingUnfolds(was, f);
    if Save(was, f).0 == NeedRollout {
      var more := es + [Attempt(f)];
      AfterMore(d, es, Attempt(f));
      AfterMore(d, more, RollOut);
      OwnLoopReaches(d, more + [RollOut], f);
    }
  }

  lemma {:induction false} RollOutsReach(d: Db, es: seq<Event>, n: nat)
    requires Proper(d)
    ensures After(d, RollOuts(es, n)).db == Rolled(After(d, es).db, n)
    ensures After(d, RollOuts(es, n)).newest == After(d, es).newest
    ensures After(d, RollOuts(es, n)).saved == After(d, es).saved
    decreases n
  {
    hide Roll, Proper, After;
    if n > 0 {
      AfterMore(d, es, RollOut);
      RollOutsReach(d, es + [RollOut], n - 1);
    }
  }

  /** The events of a turn lead to what the loop leaves: the rule itself has saved, the others are as often rolled. */
  lemma TurnReaches(start: seq<Db>, jobs: seq<Job>, job: Job, k: nat)
    requires AllProper(start) && JobsOf(|start|, jobs) && job.rule < |start| && k < |start|
    ensures JobsOf(|start|, jobs + [job])
    ensures var (rolls, status, result) := SaveRolling(LedgerOf(start, jobs, job.rule).db, job.flow);
            LedgerOf(start, jobs + [job], k).db
            == if k == job.rule then result else Rolled(LedgerOf(start, jobs, k).db, rolls)
  {
    OneTurn(start, jobs, job, k);
    hide Save, Roll, Proper, SaveRolling, Rolled, After, Events, AllProper, OwnLoop;
    var es, f := Events(start, jobs)[k], job.flow;
    var rolls := SaveRolling(LedgerOf(start, jobs, job.rule).db, f).0;
    if k == job.rule {
      OwnLoopReaches(start[k], es, f);
      AfterMore(start[k], OwnLoop(es, f, rolls), Attempt(f));
    } else {
      AfterMore(start[k], es, Seen(f.lastSec));
      RollOutsReach(start[k], es + [Seen(f.lastSec)], rolls);
    }
  }

  // ---- all databases in step ----

  // No turn finds the database of its rule inactive or not initialised.
  ghost predicate Quiet(start: seq<Db>, jobs: seq<Job>)
    requires AllProper(start) && JobsOf(|start|, jobs)
  {
    forall m :: 0 <= m < |jobs| ==>
      var d := LedgerOf(start, jobs[..m], jobs[m].rule).db;
      Ready(d, jobs[m].flow) == d
  }

  function Newest(jobs: seq<Job>): nat {
    if jobs == [] then 0 else Newer(jobs[|jobs| - 1].flow.lastSec, Newest(jobs[..|jobs| - 1]))
  }

  ghost predicate Alike(d: Db, e: Db) {
    d.begin == e.begin && d.end == e.end && d.step == e.step
  }

  ghost predicate AllAlike(start: seq<Db>) {
    forall j, k :: 0 <= j < |start| && 0 <= k < |start| ==> Alike(start[j], start[k])
  }

  lemma DrivenMore(d: Db, es: seq<Event>, e: Event)
    requires Proper(d) && Driven(d, es) && Drives(After(d, es), e)
    ensures Driven(d, es + [e])
  {
    hide After, Drives, Proper;
    var all := es + [e];
    forall i | 0 <= i < |all|
      ensures Drives(After(d, all[..i]), all[i])
    {
      if i < |es| {
        assert all[..i] == es[..i];
      } else {
        assert all[..i] == es;
      }
    }
  }

  // one attempt that needs a roll-out, and this
  lemma NeedsOne(l: Ledger, f: Flow)
    requires Proper(l.db) && Ready(l.db, f) == l.db && Save(l.db, f).0 == NeedRollout
    ensures Save(l.db, f).1 == l.db
    ensures var a := Next(l, Attempt(f));
            var b := Next(a, RollOut);
            && Drives(l, Attempt(f)) && Drives(a, RollOut) && b.db == Roll(l.db) && Ready(b.db, f) == b.db
            && b.newest == Newer(f.lastSec, l.newest) && b.saved == l.saved
  {
    ReadyAgain(l.db, f);
  }

  lemma {:induction false} OwnLoopDriven(d: Db, es: seq<Event>, f: Flow)
    requires Proper(d) && Driven(d, es) && Ready(After(d, es).db, f) == After(d, es).db
    ensures var l := After(d, es);
            var rolls := SaveRolling(l.db, f).0;
            var m := After(d, OwnLoop(es, f, rolls));
            && Driven(d, OwnLoop(es, f, rolls)) && Ready(m.db, f) == m.db
            && Newer(f.lastSec, m.newest) == Newer(f.lastSec, l.newest) && m.saved == l.saved
    decreases SaveRolling(After(d, es).db, f).0
  {
    hide Save, Roll, Proper, SaveRolling, After, Ready, Driven, Drives, Next;
    var l := After(d, es);
    SaveRollingUnfolds(l.db, f);
    if Save(l.db, f).0 == NeedRollout {
      var more := es + [Attempt(f)];
      NeedsOne(l, f);
      AfterMore(d, es, Attempt(f));
      DrivenMore(d, es, Attempt(f));
      AfterMore(d, more, RollOut);
      DrivenMore(d, more, RollOut);
      OwnLoopDriven(d, more + [RollOut], f);
    }
  }

  lemma {:induction false} RollOutsDriven(d: Db, es: seq<Event>, n: nat)
    requires Proper(d) && Driven(d, es)
    requires forall i :: 0 <= i < n ==> Rolled(After(d, es).db, i).end < After(d, es).newest
    ensures Driven(d, RollOuts(es, n))
    decreases n
  {
    hide Roll, Proper, After, Driven;
    if n > 0 {
      var l := After(d, es);
      assert Rolled(l.db, 0) == l.db;
      AfterMore(d, es, RollOut);
      DrivenMore(d, es, RollOut);
      forall i | 0 <= i < n - 1
        ensures Rolled(Roll(l.db), i).end < l.newest
      {
        assert Rolled(l.db, i + 1) == Rolled(Roll(l.db), i);
      }
      RollOutsDriven(d, es + [RollOut], n - 1);
    }
  }

  // what is known of all rules between two turns
  ghost predicate InStep(start: seq<Db>, jobs: seq<Job>)
    requires AllProper(start) && JobsOf(|start|, jobs)
  {
    && (forall j, k :: 0 <= j < |start| && 0 <= k < |start| ==>
          Alike(LedgerOf(start, jobs, j).db, LedgerOf(start, jobs, k).db))
    && (forall k :: 0 <= k < |start| ==>
          Driven(start[k], Events(start, jobs)[k]) && LedgerOf(start, jobs, k).newest == Newest(jobs))
  }

  lemma OwnStaysDriven(d: Db, es: seq<Event>, f: Flow)
    requires Proper(d) && Driven(d, es) && Ready(After(d, es).db, f) == After(d, es).db
    ensures var rolls := SaveRolling(After(d, es).db, f).0;
            && Driven(d, OwnTurn(es, f, rolls))
            && After(d, OwnTurn(es, f, rolls)).newest == Newer(f.lastSec, After(d, es).newest)
  {
    hide Save, Roll, Proper, SaveRolling, After, Ready, Driven;
    var rolls := SaveRolling(After(d, es).db, f).0;
    var loop := OwnLoop(es, f, rolls);
    OwnLoopDriven(d, es, f);
    AfterMore(d, loop, Attempt(f));
    DrivenMore(d, loop, Attempt(f));
  }

  lemma OtherStaysDriven(d: Db, es: seq<Event>, f: Flow, rolls: nat)
    requires Proper(d) && Driven(d, es)
    requires forall n :: 0 <= n < rolls ==> Rolled(After(d, es).db, n).end < f.lastSec
    ensures Driven(d, OtherTurn(es, f, rolls))
    ensures After(d, OtherTurn(es, f, rolls)).newest == Newer(f.lastSec, After(d, es).newest)
  {
    hide Save, Roll, Proper, After, Driven, Rolled;
    AfterMore(d, es, Seen(f.lastSec));
    DrivenMore(d, es, Seen(f.lastSec));
    RollOutsDriven(d, es + [Seen(f.lastSec)], rolls);
    RollOutsReach(d, es + [Seen(f.lastSec)], rolls);
  }

  // one rule after one more turn
  lemma RuleStays(start: seq<Db>, jobs: seq<Job>, job: Job, k: nat)
    requires AllProper(start) && JobsOf(|start|, jobs) && job.rule < |start| && k < |start| && InStep(start, jobs)
    requires var d := LedgerOf(start, jobs, job.rule).db; Ready(d, job.flow) == d
    ensures JobsOf(|start|, jobs + [job])
    ensures var d := LedgerOf(start, jobs, job.rule).db;
            Alike(LedgerOf(start, jobs + [job], k).db, SaveRolling(d, job.flow).2)
    ensures Driven(start[k], Events(start, jobs + [job])[k])
    ensures LedgerOf(start, jobs + [job], k).newest == Newer(job.flow.lastSec, Newest(jobs))
  {
    OneTurn(start, jobs, job, k);
    TurnReaches(start, jobs, job, k);
    hide Save, Roll, Proper, SaveRolling, Rolled, After, Events, Driven, OwnTurn, OtherTurn, Newest;
    hide Newer, Ready, JobsOf;
    var d, e := LedgerOf(start, jobs, job.rule).db, LedgerOf(start, jobs, k).db;
    var es, f := Events(start, jobs)[k], job.flow;
    if k == job.rule {
      OwnStaysDriven(start[k], es, f);
    } else {
      assert Alike(e, d);
      StaysInStep(d, e, f);
      SameStep(d, f);
      RolledMoves(e, SaveRolling(d, f).0);
      OtherStaysDriven(start[k], es, f, SaveRolling(d, f).0);
    }
  }

  lemma JobsPrefix(n: nat, jobs: seq<Job>, m: nat)
    requires JobsOf(n, jobs) && m <= |jobs|
    ensures JobsOf(n, jobs[..m])
  {}

  lemma QuietPrefix(start: seq<Db>, jobs: seq<Job>)
    requires AllProper(start) && JobsOf(|start|, jobs) && Quiet(start, jobs) && jobs != []
    ensures Quiet(start, jobs[..|jobs| - 1])
  {
    hide LedgerOf, AllProper, Ready;
    var front := jobs[..|jobs| - 1];
    forall m | 0 <= m < |front|
      ensures front[..m] == jobs[..m]
    {}
  }

  lemma FirstInStep(start: seq<Db>)
    requires AllProper(start) && AllAlike(start)
    ensures InStep(start, [])
  {
    assert forall k :: 0 <= k < |start| ==> Events(start, [])[k] == [];
    hide Driven;
    forall k | 0 <= k < |start|
      ensures Driven(start[k], [])
    {
      NothingDrives(start[k]);
    }
  }

  lemma NothingDrives(d: Db)
    requires Proper(d)
    ensures Driven(d, [])
  {}

  // one more turn of any rule
  lemma TurnInStep(start: seq<Db>, jobs: seq<Job>, job: Job)
    requires AllProper(start) && JobsOf(|start|, jobs) && job.rule < |start| && InStep(start, jobs)
    requires var d := LedgerOf(start, jobs, job.rule).db; Ready(d, job.flow) == d
    ensures JobsOf(|start|, jobs + [job]) && InStep(start, jobs + [job])
  {
    hide Save, Roll, SaveRolling, After, Events, Driven, Ready, LedgerOf, JobsOf, InStep, Newest;
    RuleStays(start, jobs, job, job.rule);
    NewestMore(jobs, job);
    forall k | 0 <= k < |start|
      ensures var d := LedgerOf(start, jobs, job.rule).db;
              Alike(LedgerOf(start, jobs + [job], k).db, SaveRolling(d, job.flow).2)
      ensures Driven(start[k], Events(start, jobs + [job])[k])
      ensures LedgerOf(start, jobs + [job], k).newest == Newest(jobs + [job])
    {
      RuleStays(start, jobs, job, k);
    }
    IsInStep(start, jobs + [job], SaveRolling(LedgerOf(start, jobs, job.rule).db, job.flow).2);
  }

  lemma NewestMore(jobs: seq<Job>, job: Job)
    ensures Newest(jobs + [job]) == Newer(job.flow.lastSec, Newest(jobs))
  {
    assert (jobs + [job])[..|jobs|] == jobs;
  }

  lemma IsInStep(start: seq<Db>, jobs: seq<Job>, d: Db)
    requires AllProper(start) && JobsOf(|start|, jobs)
    requires forall k :: 0 <= k < |start| ==>
      && Alike(LedgerOf(start, jobs, k).db, d) && Driven(start[k], Events(start, jobs)[k])
      && LedgerOf(start, jobs, k).newest == Newest(jobs)
    ensures InStep(start, jobs)
  {
    hide LedgerOf, Driven, Events, Newest, AllProper, JobsOf;
  }

  /**
   * Databases that start in step are in step after every turn, have noticed the same newest end, and are rolled only
   * when a record was seen that ends after their end.
   */
  lemma {:induction false} AlikeInStep(start: seq<Db>, jobs: seq<Job>)
    requires AllProper(start) && JobsOf(|start|, jobs) && AllAlike(start) && Quiet(start, jobs)
    ensures InStep(start, jobs)
  {
    hide AllProper, JobsOf, AllAlike, InStep, LedgerOf, Ready;
    if jobs == [] {
      FirstInStep(start);
    } else {
      var n := |jobs| - 1;
      var front := jobs[..n];
      JobsPrefix(|start|, jobs, n);
      QuietPrefix(start, jobs);
      AlikeInStep(start, front);
      assert jobs == front + [jobs[n]];
      RuleExists(|start|, jobs, n);
      TurnInStep(start, front, jobs[n]);
    }
  }

  lemma RuleExists(n: nat, jobs: seq<Job>, m: nat)
    requires JobsOf(n, jobs) && m < |jobs|
    ensures jobs[m].rule < n
  {}

  // ---- rings of any steps and sizes ----

  lemma QuietAt(start: seq<Db>, jobs: seq<Job>, job: Job)
    requires AllProper(start) && JobsOf(|start|, jobs + [job]) && Quiet(start, jobs + [job])
    ensures JobsOf(|start|, jobs) && job.rule < |start| && Quiet(start, jobs)
    ensures var d := LedgerOf(start, jobs, job.rule).db; Ready(d, job.flow) == d
  {
    var all := jobs + [job];
    JobsPrefix(|start|, all, |jobs|);
    RuleExists(|start|, all, |jobs|);
    assert all[..|jobs|] == jobs;
    hide LedgerOf, AllProper, JobsOf, Ready;
    QuietPrefix(start, all);
  }

  // how often all databases were rolled
  ghost function TotalRolls(start: seq<Db>, jobs: seq<Job>): nat
    requires AllProper(start) && JobsOf(|start|, jobs)
  {
    if jobs == [] then 0
    else
      var n := |jobs| - 1;
      TotalRolls(start, jobs[..n]) + SaveRolling(LedgerOf(start, jobs[..n], jobs[n].rule).db, jobs[n].flow).0
  }

  lemma TotalRollsMore(start: seq<Db>, jobs: seq<Job>, job: Job)
    requires AllProper(start) && JobsOf(|start|, jobs) && JobsOf(|start|, jobs + [job]) && job.rule < |start|
    ensures TotalRolls(start, jobs + [job])
            == TotalRolls(start, jobs) + SaveRolling(LedgerOf(start, jobs, job.rule).db, job.flow).0
  {
    hide LedgerOf, AllProper, JobsOf, SaveRolling;
    assert (jobs + [job])[..|jobs|] == jobs;
  }

  // e is d moved on by n of its steps
  ghost predicate Moved(d: Db, e: Db, n: nat) {
    e.begin == d.begin + n * d.step && e.end == d.end + n * d.step && e.step == d.step
  }

  ghost predicate AllMoved(start: seq<Db>, jobs: seq<Job>)
    requires AllProper(start) && JobsOf(|start|, jobs)
  {
    forall k :: 0 <= k < |start| ==> Moved(start[k], LedgerOf(start, jobs, k).db, TotalRolls(start, jobs))
  }

  // before the last roll-out, the ring of some rule ended before a record that had been seen
  ghost predicate Needed(start: seq<Db>, n: nat, newest: nat) {
    n > 0 ==> exists j :: 0 <= j < |start| && start[j].end + (n - 1) * start[j].step < newest
  }

  lemma MovedOn(d: Db, e: Db, g: Db, n: nat, r: nat)
    requires Moved(d, e, n) && Moved(e, g, r)
    ensures Moved(d, g, n + r)
  {
    assert (n + r) * d.step == n * d.step + r * d.step;
  }

  // the database of rule k after one more turn
  lemma RuleMoves(start: seq<Db>, jobs: seq<Job>, job: Job, k: nat)
    requires AllProper(start) && JobsOf(|start|, jobs) && job.rule < |start| && k < |start|
    requires var d := LedgerOf(start, jobs, job.rule).db; Ready(d, job.flow) == d
    ensures JobsOf(|start|, jobs + [job])
    ensures var rolls := SaveRolling(LedgerOf(start, jobs, job.rule).db, job.flow).0;
            Moved(LedgerOf(start, jobs, k).db, LedgerOf(start, jobs + [job], k).db, rolls)
  {
    TurnReaches(start, jobs, job, k);
    LedgerProper(start, jobs, job.rule);
    LedgerProper(start, jobs, k);
    hide Proper, SaveRolling, Rolled, LedgerOf, Ready, JobsOf, AllProper, Moved;
    TurnMovesDb(LedgerOf(start, jobs, job.rule).db, LedgerOf(start, jobs, k).db, job.flow);
  }

  lemma TurnMovesDb(d: Db, e: Db, f: Flow)
    requires Proper(d) && Proper(e) && Ready(d, f) == d
    ensures var (rolls, _, result) := SaveRolling(d, f);
            Moved(d, result, rolls) && Moved(e, Rolled(e, rolls), rolls)
  {
    hide SaveRolling, Rolled, Ready, Proper;
    LoopReachesEnd(d, f);
    SameStep(d, f);
    RolledMoves(e, SaveRolling(d, f).0);
  }

  lemma TurnMoves(start: seq<Db>, jobs: seq<Job>, job: Job)
    requires AllProper(start) && JobsOf(|start|, jobs) && job.rule < |start|
    requires var d := LedgerOf(start, jobs, job.rule).db; Ready(d, job.flow) == d
    requires AllMoved(start, jobs) && Needed(start, TotalRolls(start, jobs), Newest(jobs))
    ensures JobsOf(|start|, jobs + [job]) && AllMoved(start, jobs + [job])
    ensures Needed(start, TotalRolls(start, jobs + [job]), Newest(jobs + [job]))
  {
    RuleMoves(start, jobs, job, job.rule);
    hide SaveRolling, LedgerOf, Ready, JobsOf, AllProper, TotalRolls, Newest, Moved, Needed, AllMoved, Proper;
    TotalRollsMore(start, jobs, job);
    NewestMore(jobs, job);
    LedgerProper(start, jobs, job.rule);
    MovedAt(start, jobs, job.rule);
    StillNeeded(start, TotalRolls(start, jobs), job, LedgerOf(start, jobs, job.rule).db, Newest(jobs));
    forall k | 0 <= k < |start|
      ensures Moved(start[k], LedgerOf(start, jobs + [job], k).db, TotalRolls(start, jobs + [job]))
    {
      RuleMovedOn(start, jobs, job, k);
    }
    MovedIs(start, jobs + [job]);
  }

  lemma RuleMovedOn(start: seq<Db>, jobs: seq<Job>, job: Job, k: nat)
    requires AllProper(start) && job.rule < |start| && k < |start|
    requires JobsOf(|start|, jobs) && JobsOf(|start|, jobs + [job])
    requires var d := LedgerOf(start, jobs, job.rule).db; Ready(d, job.flow) == d
    requires AllMoved(start, jobs)
    ensures Moved(start[k], LedgerOf(start, jobs + [job], k).db, TotalRolls(start, jobs + [job]))
  {
    hide SaveRolling, LedgerOf, Ready, JobsOf, AllProper, TotalRolls, Moved, AllMoved, Proper;
    TotalRollsMore(start, jobs, job);
    RuleMoves(start, jobs, job, k);
    MovedAt(start, jobs, k);
    var rolls := SaveRolling(LedgerOf(start, jobs, job.rule).db, job.flow).0;
    MovedOn(start[k], LedgerOf(start, jobs, k).db, LedgerOf(start, jobs + [job], k).db, TotalRolls(start, jobs), rolls);
  }

  lemma MovedAt(start: seq<Db>, jobs: seq<Job>, k: nat)
    requires AllProper(start) && JobsOf(|start|, jobs) && AllMoved(start, jobs) && k < |start|
    ensures Moved(start[k], LedgerOf(start, jobs, k).db, TotalRolls(start, jobs))
  {}

  lemma MovedIs(start: seq<Db>, jobs: seq<Job>)
    requires AllProper(start) && JobsOf(|start|, jobs)
    requires forall k :: 0 <= k < |start| ==> Moved(start[k], LedgerOf(start, jobs, k).db, TotalRolls(start, jobs))
    ensures AllMoved(start, jobs)
  {}

  lemma StillNeeded(start: seq<Db>, n: nat, job: Job, d: Db, newest: nat)
    requires job.rule < |start| && Proper(d) && Ready(d, job.flow) == d && Moved(start[job.rule], d, n)
    requires Needed(start, n, newest)
    ensures Needed(start, n + SaveRolling(d, job.flow).0, Newer(job.flow.lastSec, newest))
  {
    hide SaveRolling, Ready, Proper;
    LoopReachesEnd(d, job.flow);
    var rolls, s := SaveRolling(d, job.flow).0, start[job.rule];
    if rolls > 0 {
      OneLess(n, rolls, s.step);
      assert s.end + (n + rolls - 1) * s.step < job.flow.lastSec;
    } else if n > 0 {
      var j :| 0 <= j < |start| && start[j].end + (n - 1) * start[j].step < newest;
      assert start[j].end + (n + rolls - 1) * start[j].step < Newer(job.flow.lastSec, newest);
    }
  }

  lemma OneLess(n: nat, rolls: nat, step: nat)
    requires rolls > 0
    ensures (n + rolls - 1) * step + step == n * step + rolls * step
  {
    assert (n + rolls - 1) * step + step == (n + rolls) * step;
  }

  lemma FirstMoved(start: seq<Db>)
    requires AllProper(start)
    ensures AllMoved(start, []) && Needed(start, TotalRolls(start, []), Newest([]))
  {}

  lemma {:induction false} AllMove(start: seq<Db>, jobs: seq<Job>)
    requires AllProper(start) && JobsOf(|start|, jobs) && Quiet(start, jobs)
    ensures AllMoved(start, jobs) && Needed(start, TotalRolls(start, jobs), Newest(jobs))
  {
    hide AllProper, JobsOf, LedgerOf, Ready, TotalRolls, Newest, Needed, AllMoved, Quiet;
    if jobs == [] {
      FirstMoved(start);
    } else {
      var n := |jobs| - 1;
      assert jobs == jobs[..n] + [jobs[n]];
      QuietAt(start, jobs[..n], jobs[n]);
      AllMove(start, jobs[..n]);
      TurnMoves(start, jobs[..n], jobs[n]);
    }
  }

  /**
   * Whatever their steps and sizes, all databases are rolled equally often, and only when a record was seen that ends
   * after the ring of some rule. Those that start in step stay so, with the same newest end.
   */
  lemma RunsInStep(start: seq<Db>, jobs: seq<Job>)
    requires AllProper(start) && JobsOf(|start|, jobs) && Quiet(start, jobs)
    ensures AllMoved(start, jobs) && Needed(start, TotalRolls(start, jobs), Newest(jobs))
    ensures AllAlike(start) ==> InStep(start, jobs)
  {
    hide AllProper, JobsOf, TotalRolls, Newest, Needed, AllMoved, Quiet, AllAlike, InStep;
    AllMove(start, jobs);
    if AllAlike(start) {
      AlikeInStep(start, jobs);
    }
  }

  // ---- the delay ----

  // After the first roll-out for rule j, and after each later one, the ring of rule k begins early enough.
  predicate RoomBetween(j: Db, k: Db, delay: nat) {
    k.step <= j.step && k.begin + k.step + delay <= j.end + 1
  }

  predicate LeavesRoom(start: seq<Db>, k: nat, delay: nat)
    requires k < |start|
  {
    forall j :: 0 <= j < |start| ==> RoomBetween(start[j], start[k], delay)
  }

  // the record starts no earlier than the ring did at first, and at most delay before the newest end of all so far
  ghost predicate WithinDelay(start: seq<Db>, delay: nat, jobs: seq<Job>, job: Job)
    requires AllProper(start)
  {
    && JobsOf(|start|, jobs) && job.rule < |start| && JobsOf(|start|, jobs + [job]) && Quiet(start, jobs + [job])
    && job.flow.firstSec >= start[job.rule].begin && job.flow.firstSec + delay >= Newest(jobs + [job])
  }

  ghost predicate IsTruncated(start: seq<Db>, jobs: seq<Job>, job: Job)
    requires AllProper(start) && JobsOf(|start|, jobs) && job.rule < |start|
  {
    SaveRolling(LedgerOf(start, jobs, job.rule).db, job.flow).1 == Truncated
  }

  // where the ring of rule k begins after n roll-outs
  lemma BeginsEarly(j: Db, k: Db, delay: nat, n: nat, newest: nat)
    requires n > 0 && RoomBetween(j, k, delay) && j.end + (n - 1) * j.step < newest
    ensures k.begin + n * k.step + delay <= newest
  {
    assert n * k.step == (n - 1) * k.step + k.step;
    assert (n - 1) * k.step <= (n - 1) * j.step by { TimesMonotone(n - 1, k.step, j.step); }
  }

  lemma TimesMonotone(n: nat, a: nat, b: nat)
    requires a <= b
    ensures n * a <= n * b
  {
    NotNegative(n, b - a);
    assert n * (b - a) == n * b - n * a;
  }

  /** The promise of the delay, for a rule to whose ring all others leave room. */
  lemma DelayHolds(start: seq<Db>, delay: nat, jobs: seq<Job>, job: Job)
    requires AllProper(start) && WithinDelay(start, delay, jobs, job) && LeavesRoom(start, job.rule, delay)
    ensures !IsTruncated(start, jobs, job)
  {
    QuietAt(start, jobs, job);
    var all, k, f := jobs + [job], job.rule, job.flow;
    hide SaveRolling, Ready, JobsOf, Quiet, Newest, LedgerOf, TotalRolls, LeavesRoom, AllProper, Proper, Moved, Needed;
    AllMove(start, all);
    TurnReaches(start, jobs, job, k);
    LedgerProper(start, jobs, k);
    MovedAt(start, all, k);
    var d := LedgerOf(start, jobs, k).db;
    BeginsInTime(start, k, delay, SaveRolling(d, f).2, TotalRolls(start, all), Newest(all), f);
    NotTruncatedAt(d, f);
  }

  lemma BeginsInTime(start: seq<Db>, k: nat, delay: nat, e: Db, n: nat, newest: nat, f: Flow)
    requires k < |start| && LeavesRoom(start, k, delay) && Moved(start[k], e, n) && Needed(start, n, newest)
    requires f.firstSec >= start[k].begin && f.firstSec + delay >= newest
    ensures e.begin <= f.firstSec
  {
    hide LeavesRoom;
    if n > 0 {
      var j :| 0 <= j < |start| && start[j].end + (n - 1) * start[j].step < newest;
      RoomAt(start, k, j, delay);
      BeginsEarly(start[j], start[k], delay, n, newest);
    }
  }

  lemma RoomAt(start: seq<Db>, k: nat, j: nat, delay: nat)
    requires j < |start| && k < |start| && LeavesRoom(start, k, delay)
    ensures RoomBetween(start[j], start[k], delay)
  {}

  lemma NotTruncatedAt(d: Db, f: Flow)
    requires Proper(d)
    ensures SaveRolling(d, f).2.begin <= f.firstSec ==> SaveRolling(d, f).1 != Truncated
  {
    hide SaveRolling, Ready, Proper;
    if !f.value.Number? && !d.countUniq {
      NotSaved(d, f);
    } else {
      TruncatedIs(d, f);
    }
  }

  // ---- and where it fails ----

  // what an initialisation leaves: a flow that starts with the ring changes nothing
  ghost predicate Startable(d: Db) {
    Proper(d) && (d.begin > 0 || Initialized(d, 0) == d)
  }

  lemma StartIsReady(d: Db, f: Flow)
    requires Startable(d) && f.firstSec == d.begin
    ensures Ready(d, f) == d
  {}

  lemma RollsExactly(d: Db, f: Flow, n: nat)
    requires Proper(d) && Ready(d, f) == d && f.value.Number? && n > 0 && f.lastSec == d.end + (n - 1) * d.step + 1
    ensures SaveRolling(d, f).0 == n
  {
    hide Ready, Save, SaveRolling, Rolled;
    LoopEnds(d, f);
    var rolls := SaveRolling(d, f).0;
    assert n * d.step == (n - 1) * d.step + d.step;
    if rolls > n {
      LessSteps(n, rolls, d.step);
    } else if rolls < n {
      LessSteps(rolls, n, d.step);
    }
  }

  // the number of roll-outs after which the ring of rule k begins too late
  function TooMany(j: Db, k: Db): nat {
    if k.step > j.step then j.end + 2 else 1
  }

  lemma BeginsLate(j: Db, k: Db, delay: nat)
    requires j.step > 0 && k.step > 0 && !RoomBetween(j, k, delay)
    ensures var n := TooMany(j, k);
            n > 0 && k.begin + n * k.step + delay > j.end + (n - 1) * j.step + 1 && n * k.step > 0
  {
    var n := TooMany(j, k);
    if k.step > j.step {
      TimesMonotone(n, j.step + 1, k.step);
      assert n * (j.step + 1) == n * j.step + n;
      assert n * j.step == (n - 1) * j.step + j.step;
    }
  }

  lemma QuietMore(start: seq<Db>, jobs: seq<Job>, job: Job)
    requires AllProper(start) && JobsOf(|start|, jobs) && Quiet(start, jobs)
    requires job.rule < |start|
    requires var d := LedgerOf(start, jobs, job.rule).db; Ready(d, job.flow) == d
    ensures JobsOf(|start|, jobs + [job]) && Quiet(start, jobs + [job])
  {
    hide LedgerOf, AllProper, Ready;
    var all := jobs + [job];
    assert forall m :: 0 <= m < |jobs| ==> all[..m] == jobs[..m];
    assert all[..|jobs|] == jobs;
  }

  lemma NoJobs(start: seq<Db>, k: nat)
    requires AllProper(start) && k < |start|
    ensures JobsOf(|start|, []) && Quiet(start, []) && LedgerOf(start, [], k).db == start[k] && Newest([]) == 0
  {}

  // a ring that begins after the flow
  lemma BeginsAfter(d: Db, f: Flow)
    requires Proper(d) && f.firstSec < d.begin && f.value.Number?
    ensures Ready(d, f) == d && SaveRolling(d, f).1 == Truncated
  {
    ReadyIs(d, f);
    hide Ready, Save, SaveRolling, Rolled, Proper;
    LoopEnds(d, f);
    NotNegative(SaveRolling(d, f).0, d.step);
    TruncatedIs(d, f);
  }

  function LongFlow(j: Db, n: nat): Flow
    requires n > 0
  {
    Flow(j.begin, 0, j.end + (n - 1) * j.step + 1, 0, Number(0.0, 0))
  }

  function ShortFlow(k: Db, delay: nat, newest: nat): Flow {
    var first := if newest <= k.begin + delay then k.begin else newest - delay;
    Flow(first, 0, first, 0, Number(0.0, 0))
  }

  // one long record of rule j, and the databases after it
  lemma OneLongRecord(start: seq<Db>, j: nat, k: nat, n: nat)
    requires AllProper(start) && j < |start| && k < |start| && Startable(start[j]) && n > 0
    ensures var jobs := [Job(j, LongFlow(start[j], n))];
            && JobsOf(|start|, jobs) && Quiet(start, jobs) && Newest(jobs) == LongFlow(start[j], n).lastSec
            && Moved(start[k], LedgerOf(start, jobs, k).db, n)
  {
    var job := Job(j, LongFlow(start[j], n));
    NoJobs(start, j);
    NoJobs(start, k);
    StartIsReady(start[j], job.flow);
    RollsExactly(start[j], job.flow, n);
    hide Ready, SaveRolling, LedgerOf, JobsOf, Quiet, Startable, AllProper, Newest;
    QuietMore(start, [], job);
    RuleMoves(start, [], job, k);
    NewestMore([], job);
    assert [] + [job] == [job];
  }

  /** Where rule j leaves no room for rule k, a long record of the one makes a record of the other truncated. */
  lemma DelayFails(start: seq<Db>, k: nat, j: nat, delay: nat) returns (jobs: seq<Job>, job: Job)
    requires AllProper(start) && j < |start| && k < |start| && Startable(start[j])
    requires !RoomBetween(start[j], start[k], delay)
    ensures job.rule == k && WithinDelay(start, delay, jobs, job) && IsTruncated(start, jobs, job)
  {
    var n := TooMany(start[j], start[k]);
    BeginsLate(start[j], start[k], delay);
    var long := LongFlow(start[j], n);
    var short := ShortFlow(start[k], delay, long.lastSec);
    jobs, job := [Job(j, long)], Job(k, short);
    OneLongRecord(start, j, k, n);
    var d := LedgerOf(start, jobs, k).db;
    LedgerProper(start, jobs, k);
    assert short.firstSec < d.begin;
    hide Ready, SaveRolling, LedgerOf, JobsOf, Quiet, Startable, AllProper, Newest, Proper;
    BeginsAfter(d, short);
    QuietMore(start, jobs, job);
    NewestMore(jobs, job);
  }

  ghost predicate KeepsDelay(start: seq<Db>, k: nat, delay: nat)
    requires AllProper(start)
  {
    forall jobs: seq<Job>, job: Job :: WithinDelay(start, delay, jobs, job) && job.rule == k ==>
      !IsTruncated(start, jobs, job)
  }

  /** So in all quiet runs, whatever the filters, a rule keeps the delay exactly when all rules leave it room. */
  lemma DelayExactly(start: seq<Db>, k: nat, delay: nat)
    requires AllProper(start) && k < |start| && forall j :: 0 <= j < |start| ==> Startable(start[j])
    ensures KeepsDelay(start, k, delay) <==> LeavesRoom(start, k, delay)
  {
    hide WithinDelay, IsTruncated, RoomBetween, AllProper, Startable;
    if LeavesRoom(start, k, delay) {
      forall jobs: seq<Job>, job: Job | WithinDelay(start, delay, jobs, job) && job.rule == k
        ensures JobsOf(|start|, jobs) && !IsTruncated(start, jobs, job)
      {
        WithinJobs(start, delay, jobs, job);
        DelayHolds(start, delay, jobs, job);
      }
    } else {
      var j :| 0 <= j < |start| && !RoomBetween(start[j], start[k], delay);
      var jobs, job := DelayFails(start, k, j, delay);
    }
  }

  lemma WithinJobs(start: seq<Db>, delay: nat, jobs: seq<Job>, job: Job)
    requires AllProper(start) && WithinDelay(start, delay, jobs, job)
    ensures JobsOf(|start|, jobs) && job.rule < |start|
  {}

  // rings of delay / step + 2 windows, which start together
  ghost predicate Started(start: seq<Db>, delay: nat) {
    && AllProper(start) && AllAlike(start)
    && forall k :: 0 <= k < |start| ==>
         start[k].end == start[k].begin + |start[k].rolling| * start[k].step
         && |start[k].rolling| == delay / start[k].step + 2
  }

  ghost predicate Savable(d: Db, f: Flow) {
    f.value.Number? || d.countUniq
  }

  ghost predicate AllSavable(start: seq<Db>, jobs: seq<Job>)
    requires AllProper(start) && JobsOf(|start|, jobs)
  {
    forall m :: 0 <= m < |jobs| ==> Savable(LedgerOf(start, jobs[..m], jobs[m].rule).db, jobs[m].flow)
  }

  lemma SavableAt(start: seq<Db>, jobs: seq<Job>, job: Job)
    requires AllProper(start) && JobsOf(|start|, jobs + [job]) && AllSavable(start, jobs + [job])
    ensures JobsOf(|start|, jobs) && job.rule < |start| && AllSavable(start, jobs)
    ensures Savable(LedgerOf(start, jobs, job.rule).db, job.flow)
  {
    var all := jobs + [job];
    JobsPrefix(|start|, all, |jobs|);
    RuleExists(|start|, all, |jobs|);
    hide LedgerOf, AllProper, JobsOf, Savable;
    assert all[..|jobs|] == jobs && all[|jobs|] == job;
    forall m | 0 <= m < |jobs|
      ensures Savable(LedgerOf(start, jobs[..m], jobs[m].rule).db, jobs[m].flow)
    {
      assert all[..m] == jobs[..m] && all[m] == jobs[m];
    }
  }

  // after a turn, the rings reach to the end of its record
  lemma TurnReachesEnd(d: Db, f: Flow)
    requires Proper(d) && Ready(d, f) == d && Savable(d, f)
    ensures var e := SaveRolling(d, f).2;
            e.end >= d.end && e.end >= f.lastSec
  {
    hide Ready, Save, SaveRolling, Rolled, Proper;
    LoopEnds(d, f);
  }

  /** Between two turns, the newest end seen is not after the end of any ring. */
  lemma {:induction false} NewestInRing(start: seq<Db>, jobs: seq<Job>, k: nat)
    requires AllProper(start) && AllAlike(start) && k < |start|
    requires JobsOf(|start|, jobs) && Quiet(start, jobs) && AllSavable(start, jobs)
    ensures Newest(jobs) <= LedgerOf(start, jobs, k).db.end
  {
    hide AllAlike, LedgerOf, Ready, AllSavable, Quiet, SaveRolling, Savable, InStep, AllProper, JobsOf;
    if jobs != [] {
      var n := |jobs| - 1;
      var front, job := jobs[..n], jobs[n];
      assert jobs == front + [job];
      QuietAt(start, front, job);
      SavableAt(start, front, job);
      AlikeInStep(start, front);
      NewestInRing(start, front, job.rule);
      RuleStays(start, front, job, k);
      LedgerProper(start, front, job.rule);
      TurnReachesEnd(LedgerOf(start, front, job.rule).db, job.flow);
    }
  }

  lemma LedgerProper(start: seq<Db>, jobs: seq<Job>, k: nat)
    requires AllProper(start) && JobsOf(|start|, jobs) && k < |start|
    ensures Proper(LedgerOf(start, jobs, k).db)
  {}

  /** And a record that starts earlier than the whole ring before the newest end of all records so far is truncated. */
  lemma TooOldIsTruncated(start: seq<Db>, delay: nat, jobs: seq<Job>, job: Job)
    requires Started(start, delay) && JobsOf(|start|, jobs) && job.rule < |start|
    requires JobsOf(|start|, jobs + [job]) && Quiet(start, jobs + [job]) && AllSavable(start, jobs + [job])
    requires var d := start[job.rule]; job.flow.firstSec + (delay / d.step + 2) * d.step < Newest(jobs + [job])
    ensures SaveRolling(LedgerOf(start, jobs, job.rule).db, job.flow).1 == Truncated
  {
    QuietAt(start, jobs, job);
    SavableAt(start, jobs, job);
    NewestMore(jobs, job);
    hide Save, Roll, Proper, SaveRolling, Driven, Ready, AllAlike, JobsOf, Quiet, Newest, After, Events, AllSavable;
    hide Savable;
    AlikeInStep(start, jobs);
    NewestInRing(start, jobs, job.rule);
    BeginIsOld(start[job.rule], Events(start, jobs)[job.rule]);
    assert |start[job.rule].rolling| == delay / start[job.rule].step + 2;
    BeforeRingIsTruncated(LedgerOf(start, jobs, job.rule).db, job.flow);
  }

  lemma BeforeRingIsTruncated(d: Db, f: Flow)
    requires Proper(d) && Ready(d, f) == d && Savable(d, f) && d.end == d.begin + |d.rolling| * d.step
    requires f.firstSec + |d.rolling| * d.step < Newer(f.lastSec, d.end)
    ensures SaveRolling(d, f).1 == Truncated
  {
    hide Ready, Save, SaveRolling, Rolled, Proper;
    LoopEnds(d, f);
    TruncatedIs(d, f);
  }

  // ---- conservation ----

  // each turn finds its database quiet, and what is saved then does not end before it starts, and fits the rolled ring
  ghost predicate Tidy(d: Db, f: Flow)
    requires Proper(d)
  {
    var (rolls, status, _) := SaveRolling(d, f);
    Ready(d, f) == d && (IsSaved(status) ==> Duration(f) >= 0.0 && Fits(Rolled(d, rolls), f))
  }

  ghost predicate AllTidy(start: seq<Db>, jobs: seq<Job>)
    requires AllProper(start) && JobsOf(|start|, jobs)
  {
    forall m :: 0 <= m < |jobs| ==> Tidy(LedgerOf(start, jobs[..m], jobs[m].rule).db, jobs[m].flow)
  }

  // the values of the records of one rule
  function Total(jobs: seq<Job>, k: nat): real {
    if jobs == [] then 0.0
    else
      var n := |jobs| - 1;
      Total(jobs[..n], k) + if jobs[n].rule == k then Amount(jobs[n].flow) else 0.0
  }

  lemma OrderlyMore(d: Db, es: seq<Event>, e: Event)
    requires Proper(d) && Orderly(d, es) && (e.Attempt? ==> Kept(After(d, es).db, e.f))
    ensures Orderly(d, es + [e])
  {
    hide After, Kept, Proper;
    var all := es + [e];
    forall i | 0 <= i < |all| && all[i].Attempt?
      ensures Kept(After(d, all[..i]).db, all[i].f)
    {
      if i < |es| {
        assert all[..i] == es[..i];
      } else {
        assert all[..i] == es;
      }
    }
  }

  lemma NeedsKept(d: Db, f: Flow)
    requires Proper(d) && Ready(d, f) == d && Save(d, f).0 == NeedRollout
    ensures Kept(d, f)
  {}

  lemma {:induction false} OwnLoopOrderly(d: Db, es: seq<Event>, f: Flow)
    requires Proper(d) && Orderly(d, es) && Ready(After(d, es).db, f) == After(d, es).db
    ensures Orderly(d, OwnLoop(es, f, SaveRolling(After(d, es).db, f).0))
    decreases SaveRolling(After(d, es).db, f).0
  {
    hide Save, Roll, Proper, SaveRolling, After, Ready, Orderly, Kept, Next;
    var l := After(d, es);
    SaveRollingUnfolds(l.db, f);
    if Save(l.db, f).0 == NeedRollout {
      var more := es + [Attempt(f)];
      NeedsOne(l, f);
      NeedsKept(l.db, f);
      AfterMore(d, es, Attempt(f));
      OrderlyMore(d, es, Attempt(f));
      AfterMore(d, more, RollOut);
      OrderlyMore(d, more, RollOut);
      OwnLoopOrderly(d, more + [RollOut], f);
    }
  }

  lemma {:induction false} OwnLoopRolls(d: Db, es: seq<Event>, f: Flow)
    requires Proper(d) && Ready(After(d, es).db, f) == After(d, es).db
    ensures var l := After(d, es);
            var rolls := SaveRolling(l.db, f).0;
            var m := After(d, OwnLoop(es, f, rolls));
            m.db == Rolled(l.db, rolls) && m.saved == l.saved && Ready(m.db, f) == m.db
    decreases SaveRolling(After(d, es).db, f).0
  {
    hide Save, Roll, Proper, SaveRolling, After, Ready, Next;
    var l := After(d, es);
    SaveRollingUnfolds(l.db, f);
    if Save(l.db, f).0 == NeedRollout {
      var more := es + [Attempt(f)];
      NeedsOne(l, f);
      AfterMore(d, es, Attempt(f));
      AfterMore(d, more, RollOut);
      OwnLoopRolls(d, more + [RollOut], f);
    }
  }

  // a turn keeps the books of its own rule
  lemma OwnStaysOrderly(d: Db, es: seq<Event>, f: Flow)
    requires Proper(d) && Orderly(d, es) && Tidy(After(d, es).db, f)
    ensures var rolls := SaveRolling(After(d, es).db, f).0;
            && Orderly(d, OwnTurn(es, f, rolls))
            && After(d, OwnTurn(es, f, rolls)).saved == After(d, es).saved + Amount(f)
  {
    hide Save, Roll, Proper, SaveRolling, After, Ready, Orderly, Fits, Duration, Amount, OwnLoop, Rolled, Stored;
    var (rolls, status, result) := SaveRolling(After(d, es).db, f);
    var loop := OwnLoop(es, f, rolls);
    OwnLoopOrderly(d, es, f);
    OwnLoopRolls(d, es, f);
    OwnLoopReaches(d, es, f);
    NotSavedIsNothing(After(d, loop).db, f);
    AfterMore(d, loop, Attempt(f));
    OrderlyMore(d, loop, Attempt(f));
  }

  // only a value that cannot be summed is not saved, in the end
  lemma NotSavedIsNothing(d: Db, f: Flow)
    requires Proper(d)
    ensures var status := Save(d, f).0;
            IsSaved(status) || status == NeedRollout || Amount(f) == 0.0
  {}

  lemma {:induction false} RollOutsOrderly(d: Db, es: seq<Event>, n: nat)
    requires Proper(d) && Orderly(d, es)
    ensures Orderly(d, RollOuts(es, n))
    decreases n
  {
    hide Proper, After, Orderly;
    if n > 0 {
      OrderlyMore(d, es, RollOut);
      RollOutsOrderly(d, es + [RollOut], n - 1);
    }
  }

  lemma OtherStaysOrderly(d: Db, es: seq<Event>, f: Flow, rolls: nat)
    requires Proper(d) && Orderly(d, es)
    ensures Orderly(d, OtherTurn(es, f, rolls))
    ensures After(d, OtherTurn(es, f, rolls)).saved == After(d, es).saved
  {
    hide Proper, After, Orderly, Rolled, RollOuts;
    var seen := es + [Seen(f.lastSec)];
    AfterMore(d, es, Seen(f.lastSec));
    OrderlyMore(d, es, Seen(f.lastSec));
    RollOutsOrderly(d, seen, rolls);
    RollOutsReach(d, seen, rolls);
  }

  lemma TidyAt(start: seq<Db>, jobs: seq<Job>, job: Job)
    requires AllProper(start) && JobsOf(|start|, jobs + [job]) && AllTidy(start, jobs + [job])
    ensures JobsOf(|start|, jobs) && job.rule < |start| && AllTidy(start, jobs)
    ensures Tidy(LedgerOf(start, jobs, job.rule).db, job.flow)
  {
    var all := jobs + [job];
    JobsPrefix(|start|, all, |jobs|);
    RuleExists(|start|, all, |jobs|);
    hide LedgerOf, AllProper, JobsOf, Tidy;
    assert all[..|jobs|] == jobs && all[|jobs|] == job;
    forall m | 0 <= m < |jobs|
      ensures Tidy(LedgerOf(start, jobs[..m], jobs[m].rule).db, jobs[m].flow)
    {
      assert all[..m] == jobs[..m] && all[m] == jobs[m];
    }
  }

  lemma {:induction false} RunIsOrderly(start: seq<Db>, jobs: seq<Job>, k: nat)
    requires AllProper(start) && JobsOf(|start|, jobs) && AllTidy(start, jobs) && k < |start|
    ensures Orderly(start[k], Events(start, jobs)[k]) && LedgerOf(start, jobs, k).saved == Total(jobs, k)
  {
    hide SaveRolling, Tidy, AllTidy, JobsOf, After, Proper, OwnTurn, OtherTurn, Amount, Orderly;
    if jobs == [] {
      NothingIsOrderly(start[k]);
    } else {
      var n := |jobs| - 1;
      var front, job := jobs[..n], jobs[n];
      assert jobs == front + [job];
      TidyAt(start, front, job);
      RunIsOrderly(start, front, k);
      OneTurn(start, front, job, k);
      var es := Events(start, front)[k];
      if k == job.rule {
        OwnStaysOrderly(start[k], es, job.flow);
      } else {
        OtherStaysOrderly(start[k], es, job.flow, SaveRolling(LedgerOf(start, front, job.rule).db, job.flow).0);
      }
    }
  }

  lemma NothingIsOrderly(d: Db)
    requires Proper(d)
    ensures Orderly(d, []) && After(d, []) == Ledger(d, 0.0, 0.0, 0, false)
  {}

  /**
   * Conservation: what a rule has reported and what it still stores is what it stored at first and the values of all
   * records that its filter matched, and all of it are numbers.
   */
  lemma RunsBalance(start: seq<Db>, jobs: seq<Job>, k: nat)
    requires AllProper(start) && JobsOf(|start|, jobs) && AllTidy(start, jobs) && k < |start|
    requires Ring(start[k]) && Numbers(start[k].rolling)
    ensures var l := LedgerOf(start, jobs, k);
            && Ring(l.db) && Numbers(l.db.rolling)
            && l.reported + Stored(l.db.rolling) == Stored(start[k].rolling) + Total(jobs, k)
  {
    hide Ring, Numbers, Stored, After, Orderly, AllTidy, Total;
    RunIsOrderly(start, jobs, k);
    RunBalances(start[k], Events(start, jobs)[k]);
  }

  // ---- the program ----

  // The options apply to the rules that follow them, so each rule has its own.
  type Positive = n: int | n > 0 witness 1
  datatype Setup = Setup(step: Positive, delay: nat, inactiveTimeout: nat, countUniq: bool)

  function NewDb(setup: Setup): (d: Db)
    ensures Proper(d)
  {
    Created(setup.step, setup.delay, setup.inactiveTimeout, setup.countUniq)
  }

  // new databases, initialised together by the first record
  function Fresh(setups: seq<Setup>, time: nat): (start: seq<Db>)
    ensures |start| == |setups| && AllProper(start)
  {
    seq(|setups|, k requires 0 <= k < |setups| => Initialized(NewDb(setups[k]), time))
  }

  lemma FreshStarts(setups: seq<Setup>, time: nat, k: nat)
    requires k < |setups|
    ensures var d, setup := Fresh(setups, time)[k], setups[k];
            && Ring(d) && Numbers(d.rolling) && Stored(d.rolling) == 0.0 && Startable(d)
            && d.step == setup.step && d.begin == time - time % setup.step
            && d.end == d.begin + (setup.delay / setup.step + 2) * setup.step
  {
    var c := NewDb(setups[k]);
    InitRing(c, time);
    NothingStored(Initialized(c, time).rolling);
    if Initialized(c, time).begin == 0 {
      InitAgain(c, time);
    }
  }

  lemma InitAgain(d: Db, time: nat)
    requires Proper(d) && Initialized(d, time).begin == 0
    ensures Initialized(Initialized(d, time), 0) == Initialized(d, time)
  {
    var e := Initialized(d, time);
    assert Initialized(e, 0).rolling == e.rolling;
  }

  /** From program start: what a rule has reported and still stores are the values of the records it matched. */
  lemma AllSavedIsReported(setups: seq<Setup>, time: nat, jobs: seq<Job>, k: nat)
    requires k < |setups| && JobsOf(|setups|, jobs) && AllTidy(Fresh(setups, time), jobs)
    ensures var l := LedgerOf(Fresh(setups, time), jobs, k);
            l.reported + Stored(l.db.rolling) == Total(jobs, k)
  {
    FreshStarts(setups, time, k);
    hide AllTidy, Ring, Stored, Numbers, LedgerOf, Fresh;
    RunsBalance(Fresh(setups, time), jobs, k);
  }

  // the other rule has no shorter step, and its first ring ends late enough
  predicate SetupLeavesRoom(other: Setup, setup: Setup, time: nat) {
    && setup.step <= other.step
    && time - time % setup.step + setup.step + setup.delay
       <= time - time % other.step + (other.delay / other.step + 2) * other.step + 1
  }

  /** From program start: which rules keep their delay in all quiet runs, by the options of all rules. */
  lemma ProgramDelayExactly(setups: seq<Setup>, time: nat, k: nat)
    requires k < |setups|
    ensures KeepsDelay(Fresh(setups, time), k, setups[k].delay)
            <==> forall j :: 0 <= j < |setups| ==> SetupLeavesRoom(setups[j], setups[k], time)
  {
    var start := Fresh(setups, time);
    hide KeepsDelay, Ring, Stored, Numbers, Startable, Fresh;
    FreshStarts(setups, time, k);
    forall j | 0 <= j < |setups|
      ensures Startable(start[j])
      ensures RoomBetween(start[j], start[k], setups[k].delay) <==> SetupLeavesRoom(setups[j], setups[k], time)
    {
      FreshStarts(setups, time, j);
    }
    DelayExactly(start, k, setups[k].delay);
  }

  predicate OneStep(setups: seq<Setup>) {
    forall j, k :: 0 <= j < |setups| && 0 <= k < |setups| ==> setups[j].step == setups[k].step
  }

  // with one step, no delay may exceed another one by more than this
  predicate DelaysClose(setups: seq<Setup>) {
    forall j, k :: 0 <= j < |setups| && 0 <= k < |setups| ==>
      setups[k].delay <= (setups[j].delay / setups[j].step + 1) * setups[j].step + 1
  }

  lemma RoomWithOneStep(other: Setup, setup: Setup, time: nat)
    requires setup.step == other.step
    ensures SetupLeavesRoom(other, setup, time) <==> setup.delay <= (other.delay / other.step + 1) * other.step + 1
  {
    var q, s := other.delay / other.step, other.step;
    assert (q + 2) * s == (q + 1) * s + s;
  }

  /** All rules of a program keep their delays exactly when they have one step and close delays. */
  lemma AllKeepDelay(setups: seq<Setup>, time: nat)
    ensures (forall k :: 0 <= k < |setups| ==> KeepsDelay(Fresh(setups, time), k, setups[k].delay))
            <==> OneStep(setups) && DelaysClose(setups)
  {
    hide KeepsDelay, Fresh, SetupLeavesRoom, OneStep, DelaysClose;
    forall k | 0 <= k < |setups|
      ensures KeepsDelay(Fresh(setups, time), k, setups[k].delay)
              <==> forall j :: 0 <= j < |setups| ==> SetupLeavesRoom(setups[j], setups[k], time)
    {
      ProgramDelayExactly(setups, time, k);
    }
    AllRooms(setups, time);
  }

  lemma AllRooms(setups: seq<Setup>, time: nat)
    ensures (forall j, k :: 0 <= j < |setups| && 0 <= k < |setups| ==> SetupLeavesRoom(setups[j], setups[k], time))
            <==> OneStep(setups) && DelaysClose(setups)
  {
    hide SetupLeavesRoom;
    forall j, k | 0 <= j < |setups| && 0 <= k < |setups|
      ensures setups[j].step == setups[k].step ==>
        (SetupLeavesRoom(setups[j], setups[k], time)
         <==> setups[k].delay <= (setups[j].delay / setups[j].step + 1) * setups[j].step + 1)
      ensures SetupLeavesRoom(setups[j], setups[k], time) ==> setups[k].step <= setups[j].step
    {
      if setups[j].step == setups[k].step {
        RoomWithOneStep(setups[j], setups[k], time);
      } else {
        ShorterStep(setups[j], setups[k], time);
      }
    }
  }

  lemma ShorterStep(other: Setup, setup: Setup, time: nat)
    ensures SetupLeavesRoom(other, setup, time) ==> setup.step <= other.step
  {}

  /**
   * From program start, when all rules have one step: a record of the first window or later is not truncated when it
   * starts at most the least of all delays before the newest end.
   */
  lemma NoneTruncated(setups: seq<Setup>, time: nat, delay: nat, jobs: seq<Job>, job: Job)
    requires OneStep(setups) && forall j :: 0 <= j < |setups| ==> delay <= setups[j].delay
    requires WithinDelay(Fresh(setups, time), delay, jobs, job)
    ensures !IsTruncated(Fresh(setups, time), jobs, job)
  {
    var start, k := Fresh(setups, time), job.rule;
    hide WithinDelay, IsTruncated, Ring, Stored, Numbers, Startable, Fresh;
    WithinJobs(start, delay, jobs, job);
    FreshStarts(setups, time, k);
    forall j | 0 <= j < |setups|
      ensures RoomBetween(start[j], start[k], delay)
    {
      FreshStarts(setups, time, j);
      DelayFitsRing(setups[j].delay, setups[j].step);
    }
    DelayHolds(start, delay, jobs, job);
  }

  lemma DelayFitsRing(delay: nat, step: Positive)
    ensures delay + step <= (delay / step + 2) * step
  {
    var q := delay / step;
    assert delay == q * step + delay % step;
    assert (q + 2) * step == q * step + step + step;
  }
}
