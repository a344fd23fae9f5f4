/** The rules of scalar-aggregator/aggregator.c: the main loop over records, and the flush of all databases. */
module RuleSet {
  import opened TimeSeries
  import opened TimeRuns
  import opened RuleRuns
  import opened TimeDb

  datatype Option<T> = None | Some(value: T)

  // values[k] is that of the argument of rule k, when its filter matches
  datatype Record =
    Record(firstSec: nat, firstMsec: Msec, lastSec: nat, lastMsec: Msec, values: seq<Option<Value>>)

  function FlowOf(rec: Record, v: Value): Flow {
    Flow(rec.firstSec, rec.firstMsec, rec.lastSec, rec.lastMsec, v)
  }

  // The turns of the first n rules. A value of another type ends the program at a rule that does not count unique ones;
  // a character is accepted, and found not to be a number when it is to be saved.
  function JobsIn(uniq: seq<bool>, rec: Record, n: nat): (seq<Job>, bool)
    requires n <= |uniq| == |rec.values|
  {
    if n == 0 then ([], true)
    else
      var (jobs, ok) := JobsIn(uniq, rec, n - 1);
      match rec.values[n - 1]
      case None => (jobs, ok)
      case Some(v) =>
        if !ok then (jobs, false)
        else if v.Other? && !uniq[n - 1] then (jobs, false)
        else (jobs + [Job(n - 1, FlowOf(rec, v))], true)
  }

  ghost predicate AllHave(n: nat, records: seq<Record>) {
    forall i :: 0 <= i < |records| ==> |records[i].values| == n
  }

  // the turns of all records
  function AllJobs(uniq: seq<bool>, records: seq<Record>): (seq<Job>, bool)
    requires AllHave(|uniq|, records)
  {
    if records == [] then ([], true)
    else
      var (jobs, ok) := AllJobs(uniq, records[..|records| - 1]);
      if !ok then (jobs, false)
      else
        var rec := records[|records| - 1];
        (jobs + JobsIn(uniq, rec, |uniq|).0, JobsIn(uniq, rec, |uniq|).1)
  }

  // ---- the turns in terms of the records ----

  // a value that is neither a number nor a character, at a rule that does not count unique ones
  predicate Refused(uniq: seq<bool>, rec: Record, k: nat)
    requires k < |uniq| == |rec.values|
  {
    match rec.values[k]
    case Some(Other(_)) => !uniq[k]
    case _ => false
  }

  // some of the first n rules refuses its value
  predicate AnyRefused(uniq: seq<bool>, rec: Record, n: nat)
    requires n <= |uniq| == |rec.values|
  {
    exists k :: 0 <= k < n && Refused(uniq, rec, k)
  }

  // the turn of this rule is reached, and its filter matches
  predicate HasTurn(uniq: seq<bool>, rec: Record, k: nat)
    requires k < |uniq| == |rec.values|
  {
    rec.values[k].Some? && !AnyRefused(uniq, rec, k + 1)
  }

  ghost predicate InRuleOrder(jobs: seq<Job>) {
    forall i, j :: 0 <= i < j < |jobs| ==> jobs[i].rule < jobs[j].rule
  }

  /**
   * The turns of one record are, in rule order, those of the rules that have a value, up to the first one that refuses
   * it; each has the times of the record and the value for its rule.
   */
  lemma {:induction false} JobsOfRecord(uniq: seq<bool>, rec: Record, n: nat)
    requires n <= |uniq| == |rec.values|
    ensures var (jobs, ok) := JobsIn(uniq, rec, n);
            && (ok <==> !AnyRefused(uniq, rec, n))
            && InRuleOrder(jobs)
            && (forall k :: 0 <= k < n ==>
                  ((exists m :: 0 <= m < |jobs| && jobs[m].rule == k) <==> HasTurn(uniq, rec, k)))
            && forall m :: 0 <= m < |jobs| ==>
                 && jobs[m].rule < n && rec.values[jobs[m].rule].Some?
                 && jobs[m].flow == Flow(rec.firstSec, rec.firstMsec, rec.lastSec, rec.lastMsec,
                                         rec.values[jobs[m].rule].value)
  {
    if n > 0 {
      JobsOfRecord(uniq, rec, n - 1);
      AnyMore(uniq, rec, n - 1);
      var (before, ok) := JobsIn(uniq, rec, n - 1);
      var (jobs, _) := JobsIn(uniq, rec, n);
      hide JobsIn, AnyRefused;
      if jobs != before {
        assert jobs[|before|].rule == n - 1;
      }
      forall k | 0 <= k < n - 1 && HasTurn(uniq, rec, k)
        ensures exists m :: 0 <= m < |jobs| && jobs[m].rule == k
      {
        var m :| 0 <= m < |before| && before[m].rule == k;
        assert jobs[m].rule == k;
      }
    }
  }

  lemma AnyMore(uniq: seq<bool>, rec: Record, n: nat)
    requires n < |uniq| == |rec.values|
    ensures AnyRefused(uniq, rec, n + 1) <==> AnyRefused(uniq, rec, n) || Refused(uniq, rec, n)
  {}

  // the number in the argument of this rule
  function NumberIn(rec: Record, k: nat): real
    requires k < |rec.values|
  {
    match rec.values[k]
    case Some(Number(x, _)) => x
    case _ => 0.0
  }

  // one of the records ended the program
  ghost predicate Ended(uniq: seq<bool>, records: seq<Record>)
    requires AllHave(|uniq|, records)
  {
    exists i :: 0 <= i < |records| && AnyRefused(uniq, records[i], |uniq|)
  }

  // what a rule gets from the records, the last of which may be one that ends the program
  ghost function Received(uniq: seq<bool>, records: seq<Record>, k: nat): real
    requires AllHave(|uniq|, records) && k < |uniq|
  {
    if records == [] then 0.0
    else
      var n := |records| - 1;
      var rec := records[n];
      Received(uniq, records[..n], k)
      + if !Ended(uniq, records[..n]) && HasTurn(uniq, rec, k) then NumberIn(rec, k) else 0.0
  }

  lemma {:induction false} TotalConcat(a: seq<Job>, b: seq<Job>, k: nat)
    ensures Total(a + b, k) == Total(a, k) + Total(b, k)
  {
    if b == [] {
      assert a + b == a;
    } else {
      var n := |b| - 1;
      TotalConcat(a, b[..n], k);
      assert (a + b)[..|a + b| - 1] == a + b[..n];
    }
  }

  lemma TotalMore(jobs: seq<Job>, job: Job, k: nat)
    ensures Total(jobs + [job], k) == Total(jobs, k) + if job.rule == k then Amount(job.flow) else 0.0
  {
    assert (jobs + [job])[..|jobs|] == jobs;
  }

  lemma {:induction false} TotalOfRecord(uniq: seq<bool>, rec: Record, n: nat, k: nat)
    requires n <= |uniq| == |rec.values| && k < |uniq|
    ensures Total(JobsIn(uniq, rec, n).0, k) == if k < n && HasTurn(uniq, rec, k) then NumberIn(rec, k) else 0.0
  {
    if n > 0 {
      TotalOfRecord(uniq, rec, n - 1, k);
      OneRuleMore(uniq, rec, n - 1);
      hide JobsIn, Total, HasTurn;
      if HasTurn(uniq, rec, n - 1) {
        TotalMore(JobsIn(uniq, rec, n - 1).0, Job(n - 1, FlowOf(rec, rec.values[n - 1].value)), k);
      }
    }
  }

  lemma OneRuleMore(uniq: seq<bool>, rec: Record, n: nat)
    requires n < |uniq| == |rec.values|
    ensures HasTurn(uniq, rec, n) ==> rec.values[n].Some?
    ensures var before := JobsIn(uniq, rec, n).0;
            JobsIn(uniq, rec, n + 1).0
            == if HasTurn(uniq, rec, n) then before + [Job(n, FlowOf(rec, rec.values[n].value))] else before
    ensures HasTurn(uniq, rec, n) ==> Amount(FlowOf(rec, rec.values[n].value)) == NumberIn(rec, n)
  {
    JobsOfRecord(uniq, rec, n);
    AnyMore(uniq, rec, n);
    hide AnyRefused;
  }

  /** The numbers of the turns of rule k are those of the records that reach it. */
  lemma {:induction false} TotalOfRecords(uniq: seq<bool>, records: seq<Record>, k: nat)
    requires AllHave(|uniq|, records) && k < |uniq|
    ensures Total(AllJobs(uniq, records).0, k) == Received(uniq, records, k)
  {
    hide JobsIn, HasTurn, AnyRefused;
    if records != [] {
      var n := |records| - 1;
      TotalOfRecords(uniq, records[..n], k);
      EndsAtRefusal(uniq, records[..n]);
      TotalOfRecord(uniq, records[n], |uniq|, k);
      TotalConcat(AllJobs(uniq, records[..n]).0, JobsIn(uniq, records[n], |uniq|).0, k);
    }
  }

  /** The program goes on to the last record unless one of them is refused. */
  lemma {:induction false} EndsAtRefusal(uniq: seq<bool>, records: seq<Record>)
    requires AllHave(|uniq|, records)
    ensures AllJobs(uniq, records).1 <==> !Ended(uniq, records)
  {
    hide JobsIn, AnyRefused;
    if records != [] {
      var n := |records| - 1;
      EndsAtRefusal(uniq, records[..n]);
      JobsOfRecord(uniq, records[n], |uniq|);
      EndedMore(uniq, records);
    }
  }

  lemma EndedMore(uniq: seq<bool>, records: seq<Record>)
    requires AllHave(|uniq|, records) && records != []
    ensures var n := |records| - 1;
            Ended(uniq, records) <==> Ended(uniq, records[..n]) || AnyRefused(uniq, records[n], |uniq|)
  {
    hide AnyRefused;
    var n := |records| - 1;
    assert forall i :: 0 <= i < n ==> records[..n][i] == records[i];
  }

  ghost predicate Complete(n: nat, sent: seq<seq<real>>) {
    forall i :: 0 <= i < |sent| ==> |sent[i]| == n
  }

  // what one rule has sent
  function Sums(n: nat, sent: seq<seq<real>>, k: nat): real
    requires Complete(n, sent) && k < n
  {
    if sent == [] then 0.0 else Sums(n, sent[..|sent| - 1], k) + sent[|sent| - 1][k]
  }

  lemma SumsMore(n: nat, sent: seq<seq<real>>, row: seq<real>, k: nat)
    requires Complete(n, sent) && |row| == n && k < n
    ensures Complete(n, sent + [row]) && Sums(n, sent + [row], k) == Sums(n, sent, k) + row[k]
  {
    assert (sent + [row])[..|sent|] == sent;
  }

  lemma {:induction false} OwnLoopMore(es: seq<Event>, f: Flow, n: nat)
    ensures OwnLoop(es, f, n + 1) == OwnLoop(es, f, n) + [Attempt(f)] + [RollOut]
    decreases n
  {
    if n > 0 {
      OwnLoopMore(es + [Attempt(f)] + [RollOut], f, n - 1);
    }
  }

  lemma {:induction false} RollOutsMore(es: seq<Event>, n: nat)
    ensures RollOuts(es, n + 1) == RollOuts(es, n) + [RollOut]
    decreases n
  {
    if n > 0 {
      RollOutsMore(es + [RollOut], n - 1);
    }
  }

  // database and output of rule k are those of its events
  ghost predicate Books(n: nat, k: nat, start: Db, es: seq<Event>, d: Db, sent: seq<seq<real>>) {
    && k < n && Complete(n, sent) && Proper(start)
    && d == After(start, es).db && Sums(n, sent, k) == After(start, es).reported
  }

  // so are those of all rules
  ghost predicate AllBooks(start: seq<Db>, events: seq<seq<Event>>, ds: seq<Db>, sent: seq<seq<real>>) {
    |start| == |events| == |ds| && forall k :: 0 <= k < |ds| ==> Books(|ds|, k, start[k], events[k], ds[k], sent)
  }

  ghost function RolledEach(ds: seq<Db>): (es: seq<Db>)
    requires AllProper(ds)
    ensures |es| == |ds| && forall k :: 0 <= k < |ds| ==> es[k] == Roll(ds[k])
  {
    seq(|ds|, k requires 0 <= k < |ds| => Roll(ds[k]))
  }

  // the sums of the first windows
  ghost function Heads(ds: seq<Db>): (row: seq<real>)
    requires AllProper(ds)
    ensures |row| == |ds| && forall k :: 0 <= k < |ds| ==> row[k] == ds[k].rolling[0].sum
  {
    seq(|ds|, k requires 0 <= k < |ds| => ds[k].rolling[0].sum)
  }

  function WithRollOut(events: seq<seq<Event>>): (r: seq<seq<Event>>)
    ensures |r| == |events| && forall k :: 0 <= k < |r| ==> r[k] == events[k] + [RollOut]
  {
    seq(|events|, k requires 0 <= k < |events| => events[k] + [RollOut])
  }

  function WithFirst(events: seq<seq<Event>>, k: nat, f: Flow): (r: seq<seq<Event>>)
    ensures |r| == |events|
    ensures forall j :: 0 <= j < |r| ==> r[j] == events[j] + [if j == k then Attempt(f) else Seen(f.lastSec)]
  {
    seq(|events|, j requires 0 <= j < |events| => events[j] + [if j == k then Attempt(f) else Seen(f.lastSec)])
  }

  lemma BooksRoll(n: nat, k: nat, start: Db, es: seq<Event>, d: Db, sent: seq<seq<real>>, row: seq<real>)
    requires Books(n, k, start, es, d, sent) && |row| == n && row[k] == d.rolling[0].sum
    ensures Books(n, k, start, es + [RollOut], Roll(d), sent + [row])
  {
    hide After, Roll, Sums, Complete;
    SumsMore(n, sent, row, k);
    AfterMore(start, es, RollOut);
  }

  lemma AllRoll(start: seq<Db>, events: seq<seq<Event>>, ds: seq<Db>, sent: seq<seq<real>>)
    requires AllBooks(start, events, ds, sent) && AllProper(ds)
    ensures AllBooks(start, WithRollOut(events), RolledEach(ds), sent + [Heads(ds)])
  {
    hide Books, Roll;
    forall k | 0 <= k < |ds|
      ensures Books(|ds|, k, start[k], WithRollOut(events)[k], RolledEach(ds)[k], sent + [Heads(ds)])
    {
      BooksRoll(|ds|, k, start[k], events[k], ds[k], sent, Heads(ds));
    }
  }

  lemma BooksSave(n: nat, k: nat, start: Db, es: seq<Event>, d: Db, sent: seq<seq<real>>, f: Flow)
    requires Books(n, k, start, es, d, sent)
    ensures Books(n, k, start, es + [Attempt(f)], Save(d, f).1, sent)
  {
    hide After, Save, Sums, Complete;
    AfterMore(start, es, Attempt(f));
  }

  lemma BooksSeen(n: nat, k: nat, start: Db, es: seq<Event>, d: Db, sent: seq<seq<real>>, lastSec: nat)
    requires Books(n, k, start, es, d, sent)
    ensures Books(n, k, start, es + [Seen(lastSec)], d, sent)
  {
    hide After, Save, Sums, Complete;
    AfterMore(start, es, Seen(lastSec));
  }

  lemma OneSaves(start: seq<Db>, events: seq<seq<Event>>, ds: seq<Db>, sent: seq<seq<real>>, k: nat, f: Flow)
    requires AllBooks(start, events, ds, sent) && k < |ds| && AllProper(ds)
    ensures AllBooks(start, events[k := events[k] + [Attempt(f)]], ds[k := Save(ds[k], f).1], sent)
  {
    hide Books, Save;
    BooksSave(|ds|, k, start[k], events[k], ds[k], sent, f);
  }

  lemma OneSavesFirst(start: seq<Db>, events: seq<seq<Event>>, ds: seq<Db>, sent: seq<seq<real>>, k: nat, f: Flow)
    requires AllBooks(start, events, ds, sent) && k < |ds| && AllProper(ds)
    ensures AllBooks(start, WithFirst(events, k, f), ds[k := Save(ds[k], f).1], sent)
  {
    hide Books, Save;
    forall j | 0 <= j < |ds|
      ensures Books(|ds|, j, start[j], WithFirst(events, k, f)[j], ds[k := Save(ds[k], f).1][j], sent)
    {
      BooksSave(|ds|, j, start[j], events[j], ds[j], sent, f);
      BooksSeen(|ds|, j, start[j], events[j], ds[j], sent, f.lastSec);
    }
  }

  lemma {:induction false} RolledOnce(d: Db, n: nat)
    requires Proper(d)
    ensures Rolled(d, n + 1) == Roll(Rolled(d, n))
    decreases n
  {
    hide Roll;
    if n > 0 {
      RolledOnce(Roll(d), n - 1);
    }
  }

  // after this many roll-outs and this result of an attempt, what is left of the loop
  ghost predicate Finishes(all: (nat, Status, Db), rolls: nat, status: Status, d: Db, f: Flow)
    requires Proper(d)
  {
    if status == NeedRollout then
      var (more, last, result) := SaveRolling(Roll(d), f);
      all == (rolls + 1 + more, last, result)
    else all == (rolls, status, d)
  }

  // the events of all rules after a turn of rule k, as far as it has come
  ghost predicate TurnSoFar(was: seq<seq<Event>>, now: seq<seq<Event>>, k: nat, f: Flow, rolls: nat) {
    |now| == |was|
    && forall j :: 0 <= j < |was| ==>
         now[j] == if j == k then OwnTurn(was[j], f, rolls) else OtherTurn(was[j], f, rolls)
  }

  lemma TurnStarts(was: seq<seq<Event>>, k: nat, f: Flow)
    ensures TurnSoFar(was, WithFirst(was, k, f), k, f, 0)
  {}

  lemma TurnGoesOn(was: seq<seq<Event>>, now: seq<seq<Event>>, k: nat, f: Flow, rolls: nat)
    requires TurnSoFar(was, now, k, f, rolls) && k < |was|
    ensures TurnSoFar(was, WithRollOut(now)[k := WithRollOut(now)[k] + [Attempt(f)]], k, f, rolls + 1)
  {
    hide OwnLoop, RollOuts;
    var next := WithRollOut(now)[k := WithRollOut(now)[k] + [Attempt(f)]];
    forall j | 0 <= j < |was|
      ensures next[j] == if j == k then OwnTurn(was[j], f, rolls + 1) else OtherTurn(was[j], f, rolls + 1)
    {
      if j == k {
        OwnLoopMore(was[j], f, rolls);
      } else {
        RollOutsMore(was[j] + [Seen(f.lastSec)], rolls);
      }
    }
  }

  // what flushes and one attempt after another have made of the databases, of which rule k saves
  ghost predicate LoopSoFar(was: seq<Db>, now: seq<Db>, k: nat, f: Flow, status: Status, rolls: nat)
    requires AllProper(was) && AllProper(now) && k < |was|
  {
    && |now| == |was| && Finishes(SaveRolling(was[k], f), rolls, status, now[k], f)
    && forall j :: 0 <= j < |was| && j != k ==> now[j] == Rolled(was[j], rolls)
  }

  // after the next one
  ghost function RollsLeft(now: seq<Db>, k: nat, f: Flow): nat
    requires AllProper(now) && k < |now|
  {
    SaveRolling(Roll(now[k]), f).0
  }

  lemma LoopIsOver(was: seq<Db>, now: seq<Db>, k: nat, f: Flow, status: Status, rolls: nat)
    requires AllProper(was) && AllProper(now) && k < |was| && LoopSoFar(was, now, k, f, status, rolls)
    requires status != NeedRollout
    ensures |now| == |was| && (rolls, status, now[k]) == SaveRolling(was[k], f)
    ensures forall j :: 0 <= j < |was| && j != k ==> now[j] == Rolled(was[j], rolls)
  {}

  lemma LoopStarts(was: seq<Db>, k: nat, f: Flow)
    requires AllProper(was) && k < |was|
    ensures var (status, d) := Save(was[k], f);
            AllProper(was[k := d]) && LoopSoFar(was, was[k := d], k, f, status, 0)
  {
    SizeKept(was[k], f);
    SaveRollingUnfolds(was[k], f);
    hide Save, Roll, SaveRolling, Proper;
  }

  lemma LoopGoesOn(was: seq<Db>, now: seq<Db>, k: nat, f: Flow, rolls: nat)
    requires AllProper(was) && AllProper(now) && k < |was| && LoopSoFar(was, now, k, f, NeedRollout, rolls)
    ensures var (status, d) := Save(RolledEach(now)[k], f);
            && AllProper(RolledEach(now)[k := d]) && LoopSoFar(was, RolledEach(now)[k := d], k, f, status, rolls + 1)
            && (status == NeedRollout ==> RollsLeft(RolledEach(now)[k := d], k, f) < RollsLeft(now, k, f))
  {
    SizeKept(Roll(now[k]), f);
    SaveRollingUnfolds(Roll(now[k]), f);
    hide Save, Roll, SaveRolling, Proper;
    forall j | 0 <= j < |was| && j != k
      ensures Roll(now[j]) == Rolled(was[j], rolls + 1)
    {
      RolledOnce(was[j], rolls);
    }
  }

  /** A whole turn of rule k makes the events those of one job more. */
  lemma TurnIsOver(
    start: seq<Db>, jobs: seq<Job>, ds: seq<Db>, sent: seq<seq<real>>, k: nat, f: Flow,
    now: seq<seq<Event>>, rolls: nat)
    requires AllProper(start) && JobsOf(|start|, jobs) && AllBooks(start, Events(start, jobs), ds, sent)
    requires AllProper(ds) && k < |ds| && SaveRolling(ds[k], f).0 == rolls
    requires TurnSoFar(Events(start, jobs), now, k, f, rolls)
    ensures JobsOf(|start|, jobs + [Job(k, f)]) && now == Events(start, jobs + [Job(k, f)])
  {
    hide Events, SaveRolling, OwnTurn, OtherTurn, AllProper, JobsOf;
    assert Books(|ds|, k, start[k], Events(start, jobs)[k], ds[k], sent);
    OneTurn(start, jobs, Job(k, f), k);
    forall j | 0 <= j < |start|
      ensures now[j] == Events(start, jobs + [Job(k, f)])[j]
    {
      OneTurn(start, jobs, Job(k, f), j);
    }
  }

  lemma NoTurns(start: seq<Db>)
    requires AllProper(start)
    ensures JobsOf(|start|, []) && AllBooks(start, Events(start, []), start, [])
  {
    var none := Events(start, []);
    assert |none| == |start| && forall k :: 0 <= k < |start| ==> none[k] == [];
  }

  ghost function InitializedEach(ds: seq<Db>, time: nat): (es: seq<Db>)
    requires AllProper(ds)
    ensures |es| == |ds| && forall k :: 0 <= k < |ds| ==> es[k] == Initialized(ds[k], time)
  {
    seq(|ds|, k requires 0 <= k < |ds| => Initialized(ds[k], time))
  }

  // after a failure there are no more turns
  lemma {:induction false} JobsEnd(uniq: seq<bool>, rec: Record, m: nat, n: nat)
    requires m <= n <= |uniq| == |rec.values| && !JobsIn(uniq, rec, m).1
    ensures JobsIn(uniq, rec, n) == JobsIn(uniq, rec, m)
  {
    if m < n {
      JobsEnd(uniq, rec, m, n - 1);
    }
  }

  lemma {:induction false} AllJobsEnd(uniq: seq<bool>, records: seq<Record>, m: nat, n: nat)
    requires AllHave(|uniq|, records) && m <= n <= |records| && !AllJobs(uniq, records[..m]).1
    ensures AllJobs(uniq, records[..n]) == AllJobs(uniq, records[..m])
  {
    hide JobsIn;
    if m < n {
      AllJobsEnd(uniq, records, m, n - 1);
      assert records[..n][..n - 1] == records[..n - 1];
    }
  }

  lemma AllJobsMore(uniq: seq<bool>, records: seq<Record>, n: nat)
    requires AllHave(|uniq|, records) && n < |records| && AllJobs(uniq, records[..n]).1
    ensures AllJobs(uniq, records[..n + 1])
            == (AllJobs(uniq, records[..n]).0 + JobsIn(uniq, records[n], |uniq|).0, JobsIn(uniq, records[n], |uniq|).1)
  {
    hide JobsIn;
    assert records[..n + 1][..n] == records[..n];
  }

  // The rules of all outputs; their databases are initialised together and rolled together.
  class Rules {
    const dbs: seq<TimeDb>
    var initialized: bool
    var sent: seq<seq<real>>         // the sums that each flush has sent
    ghost var start: seq<Db>
    ghost var events: seq<seq<Event>>
    ghost var jobs: seq<Job>

    ghost predicate Apart()
      reads dbs
    {
      && (forall i :: 0 <= i < |dbs| ==> dbs[i].Valid())
      && (forall i, j :: 0 <= i < j < |dbs| ==> dbs[i] != dbs[j] && dbs[i].data != dbs[j].data)
    }

    ghost function Arrays(): set<object>
    {
      set i | 0 <= i < |dbs| :: dbs[i].data
    }

    // the databases as values
    ghost function State(): (ds: seq<Db>)
      requires Apart()
      reads dbs, Arrays()
      ensures AllProper(ds) && |ds| == |dbs|
    {
      StateOf(|dbs|)
    }

    ghost function StateOf(n: nat): (ds: seq<Db>)
      requires Apart() && n <= |dbs|
      reads dbs, Arrays()
      ensures |ds| == n && forall k :: 0 <= k < n ==> ds[k] == dbs[k].Value()
    {
      if n == 0 then [] else StateOf(n - 1) + [dbs[n - 1].Value()]
    }

    lemma StatesAre(ds: seq<Db>)
      requires Apart() && |ds| == |dbs| && forall k :: 0 <= k < |dbs| ==> dbs[k].Value() == ds[k]
      ensures State() == ds
    {}

    lemma StateIs(k: nat)
      requires Apart() && k < |dbs|
      ensures State()[k] == dbs[k].Value()
    {}

    // databases and output are those of the events
    ghost predicate Valid()
      reads this, dbs, Arrays()
    {
      Apart() && |events| == |start| == |dbs| && AllBooks(start, events, State(), sent)
    }

    // and the events are those of the turns so far
    ghost predicate BetweenTurns()
      reads this, dbs, Arrays()
    {
      Valid() && AllProper(start) && JobsOf(|start|, jobs) && events == Events(start, jobs)
    }

    function Uniq(): (uniq: seq<bool>)
      ensures |uniq| == |dbs| && forall k :: 0 <= k < |dbs| ==> uniq[k] == dbs[k].countUniq
    {
      seq(|dbs|, k requires 0 <= k < |dbs| => dbs[k].countUniq)
    }

    constructor (dbs: seq<TimeDb>)
      requires forall i :: 0 <= i < |dbs| ==> dbs[i].Valid()
      requires forall i, j :: 0 <= i < j < |dbs| ==> dbs[i] != dbs[j] && dbs[i].data != dbs[j].data
      ensures BetweenTurns() && this.dbs == dbs && !initialized && sent == [] && jobs == [] && start == State()
    {
      this.dbs := dbs;
      initialized, sent, jobs := false, [], [];
      new;
      BeginBooks();
    }

    // The books start with the databases as they are.
    ghost method BeginBooks()
      requires Apart() && sent == [] && jobs == []
      modifies this`start, this`events
      ensures BetweenTurns() && start == State()
    {
      hide AllBooks, AllProper, Events, JobsOf;
      start := State();
      NoTurns(start);
      events := Events(start, []);
      assert AllBooks(start, events, start, []) && State() == start;
    }

    // the loop of flush_aggregation_counters
    method RollAll() returns (row: seq<real>)
      requires Apart()
      modifies dbs, Arrays()
      ensures Apart() && State() == RolledEach(old(State())) && row == Heads(old(State()))
    {
      hide Roll, Rolling, AllProper, RolledEach, Heads;
      row := [];
      for k := 0 to |dbs|
        invariant Apart() && |row| == k
        invariant forall i :: 0 <= i < |dbs| ==>
          dbs[i].Value() == if i < k then Roll(old(dbs[i].Value())) else old(dbs[i].Value())
        invariant forall i :: 0 <= i < k ==> row[i] == old(dbs[i].Value()).rolling[0].sum
      {
        var time, sum, finite, count := dbs[k].RollDb();
        row := row + [sum];
      }
      StatesAre(RolledEach(old(State())));
      assert row == Heads(old(State()));
    }

    // flush_aggregation_counters: every database is rolled, and what it gives is sent
    method FlushCounters()
      requires Valid()
      modifies this`sent, this`events, dbs, Arrays()
      ensures Valid() && State() == RolledEach(old(State()))
      ensures sent == old(sent) + [Heads(old(State()))] && events == WithRollOut(old(events))
    {
      hide Apart, State, AllBooks, AllProper, RolledEach, Heads, WithRollOut, WithFirst, Save, Roll;
      AllRoll(start, events, State(), sent);
      var row := RollAll();
      sent := sent + [row];
      events := WithRollOut(events);
    }

    // timedb_save_data of one rule
    method SaveAt(k: nat, f: Flow) returns (status: Status)
      requires Apart() && k < |dbs|
      modifies dbs, Arrays()
      ensures Apart()
      ensures var (s, d) := Save(old(State())[k], f); status == s && State() == old(State())[k := d]
    {
      hide Save;
      status := dbs[k].SaveData(f);
    }

    // the first attempt of a turn; the other rules see the record
    method FirstAttempt(k: nat, f: Flow) returns (status: Status)
      requires Valid() && k < |dbs|
      modifies this`events, dbs, Arrays()
      ensures Valid() && events == WithFirst(old(events), k, f)
      ensures var (s, d) := Save(old(State())[k], f); status == s && State() == old(State())[k := d]
    {
      hide Apart, State, AllBooks, AllProper, RolledEach, Heads, WithRollOut, WithFirst, Save, Roll;
      OneSavesFirst(start, events, State(), sent, k, f);
      status := SaveAt(k, f);
      events := WithFirst(events, k, f);
    }

    // one turn of the loop of rule_save_data
    method FlushAndSave(k: nat, f: Flow) returns (status: Status)
      requires Valid() && k < |dbs|
      modifies this`sent, this`events, dbs, Arrays()
      ensures Valid()
      ensures var rolled := RolledEach(old(State()));
              var (s, d) := Save(rolled[k], f);
              status == s && State() == rolled[k := d]
      ensures |events| == |old(events)| == |dbs|
      ensures events == WithRollOut(old(events))[k := WithRollOut(old(events))[k] + [Attempt(f)]]
    {
      hide Apart, State, AllBooks, AllProper, RolledEach, Heads, WithRollOut, WithFirst, Save, Roll;
      FlushCounters();
      OneSaves(start, events, State(), sent, k, f);
      status := SaveAt(k, f);
      events := events[k := events[k] + [Attempt(f)]];
    }

    // the loop of rule_save_data
    method SaveRecord(k: nat, f: Flow) returns (status: Status, ghost rolls: nat)
      requires Valid() && k < |dbs|
      modifies this`sent, this`events, dbs, Arrays()
      ensures Valid()
      ensures (rolls, status, State()[k]) == SaveRolling(old(State())[k], f)
      ensures forall j :: 0 <= j < |dbs| && j != k ==> State()[j] == Rolled(old(State())[j], rolls)
      ensures TurnSoFar(old(events), events, k, f, rolls)
    {
      hide Apart, State, AllBooks, AllProper, RolledEach, Heads, WithRollOut, WithFirst, Save, Roll;
      hide SaveRolling, TurnSoFar, LoopSoFar, RollsLeft;
      rolls := 0;
      LoopStarts(State(), k, f);
      TurnStarts(events, k, f);
      status := FirstAttempt(k, f);
      while status == NeedRollout
        invariant Valid()
        invariant LoopSoFar(old(State()), State(), k, f, status, rolls)
        invariant TurnSoFar(old(events), events, k, f, rolls)
        decreases if status == NeedRollout then RollsLeft(State(), k, f) + 1 else 0
      {
        ghost var before := events;
        LoopGoesOn(old(State()), State(), k, f, rolls);
        status := FlushAndSave(k, f);
        TurnGoesOn(old(events), before, k, f, rolls);
        rolls := rolls + 1;
      }
      LoopIsOver(old(State()), State(), k, f, status, rolls);
    }

    // rule_save_data of one rule
    method TakeTurn(k: nat, f: Flow)
      requires BetweenTurns() && k < |dbs|
      modifies this`sent, this`events, this`jobs, dbs, Arrays()
      ensures BetweenTurns() && jobs == old(jobs) + [Job(k, f)]
    {
      hide Apart, State, AllBooks, AllProper, RolledEach, Heads, WithRollOut, WithFirst, Save, Roll;
      hide SaveRolling, TurnSoFar, LoopSoFar, RollsLeft, Events, JobsOf;
      ghost var ds, out := State(), sent;
      var status, rolls := SaveRecord(k, f);
      TurnIsOver(start, jobs, ds, out, k, f, events, rolls);
      jobs := jobs + [Job(k, f)];
    }

    // the databases, initialised synchronously
    method InitAll(time: nat)
      requires Apart()
      modifies dbs, Arrays()
      ensures Apart() && State() == InitializedEach(old(State()), time)
    {
      hide Initialized;
      for k := 0 to |dbs|
        invariant Apart()
        invariant forall i :: 0 <= i < |dbs| ==>
          dbs[i].Value() == if i < k then Initialized(old(dbs[i].Value()), time) else old(dbs[i].Value())
      {
        dbs[k].Init(time);
      }
      assert State() == InitializedEach(old(State()), time);
    }

    method Init(time: nat)
      requires BetweenTurns() && !initialized && sent == [] && jobs == []
      modifies this`initialized, this`start, this`events, dbs, Arrays()
      ensures BetweenTurns() && initialized && start == State() == InitializedEach(old(State()), time)
    {
      hide Apart, State, AllBooks, AllProper, Events, JobsOf, InitializedEach;
      InitAll(time);
      initialized := true;
      BeginBooks();
    }

    // every rule whose filter matches the record
    method ProcessRecord(rec: Record) returns (ok: bool)
      requires BetweenTurns() && |rec.values| == |dbs|
      modifies this`sent, this`events, this`jobs, dbs, Arrays()
      ensures BetweenTurns() && jobs == old(jobs) + JobsIn(Uniq(), rec, |dbs|).0 && ok == JobsIn(Uniq(), rec, |dbs|).1
    {
      hide Apart, State, AllBooks, AllProper, Events, JobsOf;
      for k := 0 to |dbs|
        invariant BetweenTurns()
        invariant jobs == old(jobs) + JobsIn(Uniq(), rec, k).0 && JobsIn(Uniq(), rec, k).1
      {
        match rec.values[k]
        case None =>
        case Some(v) =>
          if v.Other? && !dbs[k].countUniq {
            JobsEnd(Uniq(), rec, k + 1, |dbs|);
            return false;
          }
          TakeTurn(k, FlowOf(rec, v));
      }
      ok := true;
    }

    // one record of the main loop; the first one initialises the databases
    method Receive(rec: Record) returns (ok: bool)
      requires BetweenTurns() && |rec.values| == |dbs| && (!initialized ==> sent == [] && jobs == [])
      modifies this, dbs, Arrays()
      ensures BetweenTurns() && initialized
      ensures jobs == old(jobs) + JobsIn(Uniq(), rec, |dbs|).0 && ok == JobsIn(Uniq(), rec, |dbs|).1
      ensures start == if old(initialized) then old(start) else InitializedEach(old(State()), rec.firstSec)
    {
      hide Apart, State, AllBooks, AllProper, Events, JobsOf, InitializedEach, JobsIn;
      if !initialized {
        Init(rec.firstSec);
      }
      ok := ProcessRecord(rec);
    }
  }

  function UniqOf(setups: seq<Setup>): (uniq: seq<bool>)
    ensures |uniq| == |setups| && forall k :: 0 <= k < |setups| ==> uniq[k] == setups[k].countUniq
  {
    seq(|setups|, k requires 0 <= k < |setups| => setups[k].countUniq)
  }

  /** The main loop, from program start to the end of the stream or the first value that a rule does not accept. */
  method Run(setups: seq<Setup>, records: seq<Record>) returns (rules: Rules, ok: bool)
    requires AllHave(|setups|, records)
    ensures fresh(rules) && rules.BetweenTurns() && rules.Uniq() == UniqOf(setups)
    ensures (rules.jobs, ok) == AllJobs(UniqOf(setups), records)
    ensures records != [] ==> rules.start == Fresh(setups, records[0].firstSec)
    ensures ok <==> !Ended(UniqOf(setups), records)
    ensures records != [] && AllTidy(rules.start, rules.jobs) ==>
      forall k :: 0 <= k < |setups| ==>
        && |rules.dbs| == |setups|
        && Sums(|setups|, rules.sent, k) + Stored(rules.dbs[k].Value().rolling) == Received(UniqOf(setups), records, k)
  {
    rules, ok := RunTurns(setups, records);
    hide Received, AllTidy, Stored, Ended, AllJobs;
    EndsAtRefusal(UniqOf(setups), records);
    if records != [] && AllTidy(rules.start, rules.jobs) {
      forall k | 0 <= k < |setups|
        ensures |rules.dbs| == |setups|
        ensures Sums(|setups|, rules.sent, k) + Stored(rules.dbs[k].Value().rolling)
                == Received(UniqOf(setups), records, k)
      {
        SentAndStored(rules, setups, records, k);
      }
    }
  }

  method RunTurns(setups: seq<Setup>, records: seq<Record>) returns (rules: Rules, ok: bool)
    requires AllHave(|setups|, records)
    ensures fresh(rules) && rules.BetweenTurns() && rules.Uniq() == UniqOf(setups)
    ensures (rules.jobs, ok) == AllJobs(UniqOf(setups), records)
    ensures records != [] ==> rules.start == Fresh(setups, records[0].firstSec)
  {
    hide AllProper, Events, JobsOf, AllBooks, JobsIn, AllJobs, Fresh, CreatedEach, InitializedEach;
    hide Rules.BetweenTurns, Rules.State, Rules.Apart;
    rules := Create(setups);
    NoJobs(UniqOf(setups));
    assert records[..0] == [];
    ok := true;
    for i := 0 to |records|
      invariant fresh(rules) && fresh(rules.dbs) && fresh(rules.Arrays())
      invariant rules.BetweenTurns() && rules.Uniq() == UniqOf(setups)
      invariant (rules.jobs, true) == AllJobs(UniqOf(setups), records[..i])
      invariant rules.initialized == (i > 0)
      invariant i == 0 ==> rules.Apart() && rules.sent == [] && rules.jobs == []
      invariant i == 0 ==> rules.State() == CreatedEach(setups)
      invariant i > 0 ==> rules.start == Fresh(setups, records[0].firstSec)
    {
      AllJobsMore(UniqOf(setups), records, i);
      FreshIs(setups, records[i].firstSec);
      ok := rules.Receive(records[i]);
      if !ok {
        AllJobsEnd(UniqOf(setups), records, i + 1, |records|);
        assert records[..|records|] == records;
        return;
      }
    }
    assert records[..|records|] == records;
  }

  /** What a rule has sent and what its database stores are the numbers in the records that reached it. */
  lemma SentAndStored(rules: Rules, setups: seq<Setup>, records: seq<Record>, k: nat)
    requires AllHave(|setups|, records) && records != [] && k < |setups|
    requires rules.BetweenTurns() && rules.Uniq() == UniqOf(setups)
    requires rules.jobs == AllJobs(UniqOf(setups), records).0
    requires rules.start == Fresh(setups, records[0].firstSec) && AllTidy(rules.start, rules.jobs)
    ensures |rules.dbs| == |setups|
    ensures Sums(|setups|, rules.sent, k) + Stored(rules.dbs[k].Value().rolling)
            == Received(UniqOf(setups), records, k)
  {
    hide AllTidy, Stored, Total, Sums, Fresh, After, Events, Received, AllJobs;
    assert |rules.Uniq()| == |rules.dbs|;
    rules.StateIs(k);
    assert Books(|setups|, k, rules.start[k], rules.events[k], rules.State()[k], rules.sent);
    AllSavedIsReported(setups, records[0].firstSec, rules.jobs, k);
    TotalOfRecords(UniqOf(setups), records, k);
  }

  lemma FreshIs(setups: seq<Setup>, time: nat)
    ensures InitializedEach(CreatedEach(setups), time) == Fresh(setups, time)
  {
    hide Initialized, NewDb;
  }

  lemma NoJobs(uniq: seq<bool>)
    ensures AllJobs(uniq, []) == ([], true)
  {}

  ghost function CreatedEach(setups: seq<Setup>): (ds: seq<Db>)
    ensures AllProper(ds) && |ds| == |setups| && forall k :: 0 <= k < |setups| ==> ds[k] == NewDb(setups[k])
  {
    seq(|setups|, k requires 0 <= k < |setups| => NewDb(setups[k]))
  }

  // one database for each rule, as its options say
  method CreateDbs(setups: seq<Setup>) returns (dbs: seq<TimeDb>)
    ensures |dbs| == |setups| && fresh(dbs)
    ensures forall i :: 0 <= i < |setups| ==>
      && dbs[i].Valid() && fresh(dbs[i].data) && dbs[i].countUniq == setups[i].countUniq
      && dbs[i].Value() == NewDb(setups[i])
    ensures forall i, j :: 0 <= i < j < |dbs| ==> dbs[i] != dbs[j] && dbs[i].data != dbs[j].data
  {
    hide NewDb;
    dbs := [];
    for k := 0 to |setups|
      invariant |dbs| == k && fresh(dbs)
      invariant forall i :: 0 <= i < k ==>
        && dbs[i].Valid() && fresh(dbs[i].data) && dbs[i].countUniq == setups[i].countUniq
        && dbs[i].Value() == NewDb(setups[i])
      invariant forall i, j :: 0 <= i < j < k ==> dbs[i] != dbs[j] && dbs[i].data != dbs[j].data
    {
      var db := NewTimeDb(setups[k]);
      dbs := dbs + [db];
    }
  }

  method NewTimeDb(setup: Setup) returns (db: TimeDb)
    ensures fresh(db) && fresh(db.data) && db.Valid() && db.countUniq == setup.countUniq && db.Value() == NewDb(setup)
  {
    db := new TimeDb(setup.step, setup.delay, setup.inactiveTimeout, setup.countUniq);
  }

  method Create(setups: seq<Setup>) returns (rules: Rules)
    ensures fresh(rules) && fresh(rules.dbs) && fresh(rules.Arrays())
    ensures rules.BetweenTurns() && rules.Uniq() == UniqOf(setups)
    ensures !rules.initialized && rules.sent == [] && rules.jobs == []
    ensures rules.Apart() && rules.State() == CreatedEach(setups)
  {
    hide NewDb, AllBooks, AllProper, Events, JobsOf;
    var dbs := CreateDbs(setups);
    rules := new Rules(dbs);
    rules.StatesAre(CreatedEach(setups));
  }
}
