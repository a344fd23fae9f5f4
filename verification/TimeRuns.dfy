/** Runs of one time series of scalar-aggregator: attempts to save flows, and roll-outs. */
module TimeRuns {
  import opened Arithmetic
  import opened Filters
  import opened TimeSeries

  function Created(step: nat, delay: nat, inactiveTimeout: nat, countUniq: bool): Db
    requires step > 0
  {
    Db(step, inactiveTimeout, countUniq, 0, 0, 0, seq(delay / step + 2, _ => Empty(0, 0)))
  }

  // ---- saving until no roll-out is needed ----

  /** After the checks of one attempt and a roll-out, the checks of the next attempt change nothing. */
  lemma ReadyAgain(d: Db, f: Flow)
    requires Proper(d)
    ensures Proper(Ready(d, f)) && Ready(Roll(Ready(d, f)), f) == Roll(Ready(d, f))
  {}

  // the number of roll-outs, the final status and the state then
  function SaveRolling(d: Db, f: Flow): (r: (nat, Status, Db))
    requires Proper(d)
    ensures Proper(r.2) && r.1 != NeedRollout
    decreases if Ready(d, f).end < f.lastSec then f.lastSec - Ready(d, f).end else 0
  {
    var (status, e) := Save(d, f);
    if status == NeedRollout then
      ReadyAgain(d, f);
      var (rolls, last, result) := SaveRolling(Roll(e), f);
      (rolls + 1, last, result)
    else (0, status, e)
  }

  function Rolled(d: Db, n: nat): (r: Db)
    requires Proper(d)
    ensures Proper(r)
    decreases n
  {
    if n == 0 then d else Rolled(Roll(d), n - 1)
  }

  lemma InitTwice(d: Db, time: nat)
    requires Proper(d)
    ensures Initialized(Initialized(d, time), time) == Initialized(d, time)
  {
    var e := Initialized(d, time);
    assert Initialized(e, time).rolling == e.rolling;
  }

  lemma ReadyTwice(d: Db, f: Flow)
    requires Proper(d)
    ensures Proper(Ready(d, f)) && Ready(d, f).step == d.step && Ready(d, f).countUniq == d.countUniq
    ensures Ready(Ready(d, f), f) == Ready(d, f)
  {
    InitTwice(d, f.firstSec);
    InitTwice(Initialized(d, f.firstSec), f.firstSec);
    hide InitWindow, Slot;
    assert Initialized(d, f.firstSec).begin <= f.firstSec;
  }

  lemma SaveTwice(d: Db, f: Flow)
    requires Proper(d) && Proper(Ready(d, f))
    ensures Save(Ready(d, f), f) == Save(d, f)
  {
    hide Ready, Added, Proper;
    ReadyTwice(d, f);
  }

  lemma SaveReads(d: Db, f: Flow)
    requires Proper(d) && Proper(Ready(d, f))
    ensures var (status, e) := Save(d, f);
            && (status == NeedRollout <==> !(!f.value.Number? && !Ready(d, f).countUniq) && Ready(d, f).end < f.lastSec)
            && (status == NeedRollout ==> e == Ready(d, f))
            && e.begin == Ready(d, f).begin && e.end == Ready(d, f).end
  {}

  lemma RollMoves(d: Db)
    requires Proper(d)
    ensures var e := Roll(d);
            Proper(e) && e.begin == d.begin + d.step && e.end == d.end + d.step
            && e.step == d.step && e.countUniq == d.countUniq
  {}

  lemma SaveRollingUnfolds(d: Db, f: Flow)
    requires Proper(d)
    ensures if Save(d, f).0 == NeedRollout then
              var (rolls, status, result) := SaveRolling(Roll(Save(d, f).1), f);
              SaveRolling(d, f) == (rolls + 1, status, result)
            else SaveRolling(d, f) == (0, Save(d, f).0, Save(d, f).1)
  {
    hide Roll, Ready, Proper, Added;
  }

  // one turn of the loop, from the state that the checks leave
  lemma LoopTurns(d: Db, f: Flow)
    requires Proper(d) && Proper(Ready(d, f)) && !(!f.value.Number? && !d.countUniq)
    ensures var r, e := Ready(d, f), Roll(Ready(d, f));
            && Save(r, f) == Save(d, f) && r.step == d.step && r.countUniq == d.countUniq
            && Ready(e, f) == e && e.begin == r.begin + d.step && e.end == r.end + d.step && e.step == d.step
            && e.countUniq == d.countUniq
            && if r.end < f.lastSec then
                 SaveRolling(d, f) == (SaveRolling(e, f).0 + 1, SaveRolling(e, f).1, SaveRolling(e, f).2)
               else
                 && SaveRolling(d, f) == (0, Save(d, f).0, Save(d, f).1)
                 && Save(d, f).1.end == r.end && Save(d, f).1.begin == r.begin
  {
    hide Ready, Save, Roll, Proper, SaveRolling;
    ReadyTwice(d, f);
    SaveTwice(d, f);
    SaveReads(d, f);
    SaveRollingUnfolds(d, f);
    ReadyAgain(d, f);
    RollMoves(Ready(d, f));
  }

  lemma {:induction false} SameStep(d: Db, f: Flow)
    requires Proper(d)
    ensures SaveRolling(d, f).2.step == d.step && |SaveRolling(d, f).2.rolling| == |d.rolling|
    ensures SaveRolling(d, f).2.countUniq == d.countUniq
    decreases SaveRolling(d, f).0
  {
    SaveRollingUnfolds(d, f);
    SizeKept(d, f);
    hide Save, Ready, Roll, Proper, SaveRolling;
    if Save(d, f).0 == NeedRollout {
      SameStep(Roll(Save(d, f).1), f);
    }
  }

  lemma SizeKept(d: Db, f: Flow)
    requires Proper(d)
    ensures var e := Save(d, f).1;
            Proper(e) && e.step == Roll(e).step == d.step && |e.rolling| == |Roll(e).rolling| == |d.rolling|
            && e.countUniq == Roll(e).countUniq == d.countUniq
  {}

  /** What was saved in the end was truncated just when it starts before the ring as it is then. */
  lemma {:induction false} TruncatedIs(d: Db, f: Flow)
    requires Proper(d) && (f.value.Number? || d.countUniq)
    ensures SaveRolling(d, f).1 == Truncated <==> SaveRolling(d, f).2.begin > f.firstSec
    decreases SaveRolling(d, f).0
  {
    SaveRollingUnfolds(d, f);
    SizeKept(d, f);
    hide Save, Ready, Roll, Proper, SaveRolling;
    if Save(d, f).0 == NeedRollout {
      TruncatedIs(Roll(Save(d, f).1), f);
    } else {
      SaveStatus(d, f);
    }
  }

  lemma SaveStatus(d: Db, f: Flow)
    requires Proper(d) && (f.value.Number? || d.countUniq) && Save(d, f).0 != NeedRollout
    ensures Save(d, f).0 == Truncated <==> Save(d, f).1.begin > f.firstSec
  {}

  lemma {:induction false} LoopSaves(d: Db, f: Flow)
    requires Proper(d) && Proper(Ready(d, f)) && !(!f.value.Number? && !d.countUniq)
    ensures var (rolls, status, result) := SaveRolling(d, f);
            Save(Rolled(Ready(d, f), rolls), f) == (status, result)
    decreases if Ready(d, f).end < f.lastSec then f.lastSec - Ready(d, f).end else 0
  {
    LoopTurns(d, f);
    hide Save, Ready, Roll, Proper, SaveRolling;
    if Ready(d, f).end < f.lastSec {
      var e := Roll(Ready(d, f));
      LoopSaves(e, f);
    }
  }

  lemma {:induction false} LoopReaches(d: Db, f: Flow)
    requires Proper(d) && Proper(Ready(d, f)) && !(!f.value.Number? && !d.countUniq)
    ensures var (rolls, status, result) := SaveRolling(d, f);
            && f.lastSec <= result.end && (rolls > 0 ==> result.end < f.lastSec + d.step)
            && result.end == Ready(d, f).end + rolls * d.step
            && result.begin == Ready(d, f).begin + rolls * d.step
    decreases if Ready(d, f).end < f.lastSec then f.lastSec - Ready(d, f).end else 0
  {
    LoopTurns(d, f);
    hide Save, Ready, Roll, Proper, SaveRolling;
    if Ready(d, f).end < f.lastSec {
      var e := Roll(Ready(d, f));
      LoopReaches(e, f);
      OneMore(SaveRolling(e, f).0, d.step);
    }
  }

  lemma OneMore(n: nat, step: nat)
    ensures (n + 1) * step == n * step + step
  {}

  /**
   * The loop ends, after just as many roll-outs as it takes to reach the last second of the flow: one less would have
   * left the end before it. What is saved then is saved as in one attempt.
   */
  lemma LoopEnds(d: Db, f: Flow)
    requires Proper(d) && !(!f.value.Number? && !d.countUniq)
    ensures var (rolls, status, result) := SaveRolling(d, f);
            && Proper(Ready(d, f))
            && f.lastSec <= result.end && (rolls > 0 ==> result.end < f.lastSec + d.step)
            && result.end == Ready(d, f).end + rolls * d.step
            && result.begin == Ready(d, f).begin + rolls * d.step
            && Save(Rolled(Ready(d, f), rolls), f) == (status, result)
  {
    hide Ready, Save, Roll, Proper, SaveRolling;
    ReadyTwice(d, f);
    LoopSaves(d, f);
    LoopReaches(d, f);
  }

  lemma {:induction false} RolledMoves(d: Db, n: nat)
    requires Proper(d)
    ensures var e := Rolled(d, n);
            e.begin == d.begin + n * d.step && e.end == d.end + n * d.step && e.step == d.step
    decreases n
  {
    hide Roll;
    if n > 0 {
      RollMoves(d);
      RolledMoves(Roll(d), n - 1);
      assert n * d.step == (n - 1) * d.step + d.step;
    }
  }

  /**
   * All databases of a rule set move together: while one is rolled to save a flow, another one that starts in step with
   * it ends in step with it, and neither is rolled unless the flow ends after the end of its ring.
   */
  lemma StaysInStep(d: Db, other: Db, f: Flow)
    requires Proper(d) && Proper(other) && Ready(d, f) == d
    requires other.begin == d.begin && other.end == d.end && other.step == d.step
    ensures var (rolls, status, result) := SaveRolling(d, f);
            && Rolled(other, rolls).begin == result.begin && Rolled(other, rolls).end == result.end
            && forall n :: 0 <= n < rolls ==> Rolled(other, n).end == Rolled(d, n).end < f.lastSec
  {
    hide Ready, Save, SaveRolling, Rolled, Proper;
    var (rolls, status, result) := SaveRolling(d, f);
    LoopReachesEnd(d, f);
    RolledMoves(other, rolls);
    forall n | 0 <= n < rolls
      ensures Rolled(other, n).end == Rolled(d, n).end < f.lastSec
    {
      RolledBefore(d, other, n, rolls, f.lastSec);
    }
  }

  lemma RolledBefore(d: Db, other: Db, n: nat, rolls: nat, lastSec: nat)
    requires Proper(d) && Proper(other) && other.end == d.end && other.step == d.step && n < rolls
    requires d.end + rolls * d.step < lastSec + d.step
    ensures Rolled(other, n).end == Rolled(d, n).end < lastSec
  {
    hide Rolled, Proper;
    RolledMoves(other, n);
    RolledMoves(d, n);
    LessSteps(n, rolls, d.step);
  }

  lemma LoopReachesEnd(d: Db, f: Flow)
    requires Proper(d) && Ready(d, f) == d
    ensures var (rolls, status, result) := SaveRolling(d, f);
            && result.end == d.end + rolls * d.step && result.begin == d.begin + rolls * d.step
            && (rolls > 0 ==> result.end < f.lastSec + d.step)
  {
    hide Ready, Save, SaveRolling, Rolled, Proper;
    if !f.value.Number? && !d.countUniq {
      NotSaved(d, f);
    } else {
      LoopEnds(d, f);
    }
  }

  // a value that cannot be summed
  lemma NotSaved(d: Db, f: Flow)
    requires Proper(d) && !f.value.Number? && !d.countUniq
    ensures SaveRolling(d, f) == (0, SaveError, Ready(d, f)) && Proper(Ready(d, f))
  {}

  lemma LessSteps(n: nat, m: nat, step: nat)
    requires n < m
    ensures n * step + step <= m * step
  {
    NotNegative(m - n - 1, step);
    assert (m - n - 1) * step == m * step - n * step - step;
  }

  // ---- conservation over a run ----

  // Seen is a record that is saved by another rule, up to this second.
  datatype Event = Attempt(f: Flow) | Seen(lastSec: nat) | RollOut

  datatype Ledger = Ledger(
    db: Db,
    reported: real,       // the sums of the windows that were rolled out
    saved: real,          // the values of the flows that were saved
    newest: nat,          // the newest last second of a record seen, by this rule or another
    rolled: bool)

  predicate IsSaved(s: Status) { s == SaveOk || s == Truncated }

  function Newer(a: nat, b: nat): nat {
    if a > b then a else b
  }

  function Next(l: Ledger, e: Event): (m: Ledger)
    requires Proper(l.db)
    ensures Proper(m.db)
  {
    match e
    case Attempt(f) =>
      var (status, db) := Save(l.db, f);
      l.(db := db, saved := l.saved + if IsSaved(status) then Amount(f) else 0.0, newest := Newer(f.lastSec, l.newest))
    case Seen(lastSec) =>
      l.(newest := Newer(lastSec, l.newest))
    case RollOut =>
      l.(db := Roll(l.db), reported := l.reported + l.db.rolling[0].sum, rolled := true)
  }

  ghost function After(d: Db, es: seq<Event>): (l: Ledger)
    requires Proper(d)
    ensures Proper(l.db)
  {
    if es == [] then Ledger(d, 0.0, 0.0, 0, false) else Next(After(d, es[..|es| - 1]), es[|es| - 1])
  }

  // a save that trashes nothing: no reset, or one in a ring that holds nothing and was never rolled
  ghost predicate Gentle(d: Db, f: Flow)
    requires Proper(d)
  {
    Ready(d, f) == d || (d.dataBegin == 0 && Stored(d.rolling) == 0.0)
  }

  // Nothing is lost; and a flow that is saved does not end before it starts, and fits the ring.
  ghost predicate Kept(d: Db, f: Flow)
    requires Proper(d)
  {
    Gentle(d, f) && (IsSaved(Save(d, f).0) ==> Duration(f) >= 0.0 && Fits(Ready(d, f), f))
  }

  ghost predicate Orderly(d: Db, es: seq<Event>)
    requires Proper(d)
  {
    forall i :: 0 <= i < |es| && es[i].Attempt? ==> Kept(After(d, es[..i]).db, es[i].f)
  }

  lemma {:induction false} NothingStored(ws: seq<Window>)
    requires forall i :: 0 <= i < |ws| ==> ws[i].sum == 0.0
    ensures Stored(ws) == 0.0
  {
    if ws != [] {
      NothingStored(ws[..|ws| - 1]);
    }
  }

  lemma {:induction false} StoredHead(ws: seq<Window>)
    requires ws != []
    ensures Stored(ws) == ws[0].sum + Stored(ws[1..])
  {
    if |ws| == 1 {
      assert ws[..0] == [];
    } else {
      var n := |ws| - 1;
      StoredHead(ws[..n]);
      assert ws[..n][1..] == ws[1..][..n - 1] && ws[1..][n - 1] == ws[n];
    }
  }

  lemma StoredAppend(ws: seq<Window>, w: Window)
    ensures Stored(ws + [w]) == Stored(ws) + w.sum
  {
    assert (ws + [w])[..|ws|] == ws;
  }

  lemma ReadyRing(d: Db, f: Flow)
    requires Ring(d) && Numbers(d.rolling) && Gentle(d, f)
    ensures Ring(Ready(d, f)) && Numbers(Ready(d, f).rolling) && Stored(Ready(d, f).rolling) == Stored(d.rolling)
  {
    if Ready(d, f) != d {
      InitRing(d, f.firstSec);
      InitRing(Initialized(d, f.firstSec), f.firstSec);
      NothingStored(Ready(d, f).rolling);
    }
  }

  lemma AttemptBalances(d: Db, f: Flow)
    requires Ring(d) && Numbers(d.rolling) && Kept(d, f)
    ensures var (status, e) := Save(d, f);
            Ring(e) && Numbers(e.rolling)
            && Stored(e.rolling) == Stored(d.rolling) + if IsSaved(status) then Amount(f) else 0.0
  {
    hide Amount, Duration, Fits, Consecutive, Gentle, Stored, Numbers;
    ReadyRing(d, f);
    SaveRing(d, f);
    var e := Ready(d, f);
    if IsSaved(Save(d, f).0) {
      SavedExactly(e, f);
    }
  }

  lemma RollBalances(d: Db)
    requires Ring(d) && Numbers(d.rolling)
    ensures Ring(Roll(d)) && Numbers(Roll(d).rolling)
    ensures Stored(Roll(d).rolling) + d.rolling[0].sum == Stored(d.rolling)
  {
    RollRing(d);
    StoredHead(d.rolling);
    StoredAppend(d.rolling[1..], Empty(d.end, d.end + d.step));
  }

  lemma RingIsProper(d: Db)
    requires Ring(d)
    ensures Proper(d)
  {}

  /**
   * Conservation: what was rolled out and what is still stored is what was stored at first and what was saved since,
   * and all of it are numbers.
   */
  lemma {:induction false} RunBalances(d: Db, es: seq<Event>)
    requires Ring(d) && Numbers(d.rolling) && Orderly(d, es)
    ensures var l := After(d, es);
            Ring(l.db) && Numbers(l.db.rolling) && l.reported + Stored(l.db.rolling) == Stored(d.rolling) + l.saved
  {
    RingIsProper(d);
    hide Ring, Stored, Numbers, Kept, Save, Roll, Proper;
    if es != [] {
      var n := |es| - 1;
      forall i | 0 <= i < n
        ensures es[..n][..i] == es[..i]
      {}
      RunBalances(d, es[..n]);
      var l, e := After(d, es[..n]), es[n];
      match e
      case Attempt(f) => AttemptBalances(l.db, f);
      case Seen(_) =>
      case RollOut => RollBalances(l.db);
    }
  }

  // ---- the delay ----

  // No reset, and roll-outs only when a record was seen that ends after the end of the ring.
  ghost predicate Drives(l: Ledger, e: Event)
    requires Proper(l.db)
  {
    match e
    case Attempt(f) => Ready(l.db, f) == l.db
    case Seen(_) => true
    case RollOut => l.db.end < l.newest
  }

  ghost predicate Driven(d: Db, es: seq<Event>)
    requires Proper(d)
  {
    forall i :: 0 <= i < |es| ==> Drives(After(d, es[..i]), es[i])
  }

  lemma DelayFits(step: nat, delay: nat)
    requires step > 0
    ensures (delay / step + 1) * step > delay
  {}

  lemma NextMoves(l: Ledger, e: Event)
    requires Proper(l.db) && Drives(l, e)
    ensures var m := Next(l, e);
            && m.db.step == l.db.step && |m.db.rolling| == |l.db.rolling| && m.newest >= l.newest
            && m.db.begin == l.db.begin + (if e.RollOut? then l.db.step else 0)
            && m.db.end == l.db.end + (if e.RollOut? then l.db.step else 0)
            && m.rolled == (l.rolled || e.RollOut?)
            && (e.RollOut? ==> l.db.end < l.newest)
  {}

  // d has as many windows as its ring is long, and l is a state of it; once rolled, the ring begins with an old window.
  ghost predicate Old(d: Db, l: Ledger) {
    && l.db.step == d.step && |l.db.rolling| == |d.rolling| && l.db.end == l.db.begin + |d.rolling| * d.step
    && (l.rolled ==> l.db.begin + (|d.rolling| - 1) * d.step < l.newest)
    && (!l.rolled ==> l.db.begin == d.begin)
  }

  lemma StaysOld(d: Db, l: Ledger, e: Event)
    requires Proper(l.db) && Drives(l, e) && Old(d, l)
    ensures Old(d, Next(l, e))
  {
    NextMoves(l, e);
    hide Next, Drives, Proper;
    var size := |d.rolling|;
    LastWindow(size, d.step);
  }

  lemma LastWindow(size: nat, step: nat)
    ensures (size - 1) * step + step == size * step
  {}

  lemma {:induction false} BeginIsOld(d: Db, es: seq<Event>)
    requires Proper(d) && Driven(d, es) && d.end == d.begin + |d.rolling| * d.step
    ensures Old(d, After(d, es))
  {
    hide Next, Drives, Old, Proper;
    if es == [] {
      OldAtFirst(d);
    } else {
      var n := |es| - 1;
      forall i | 0 <= i < n
        ensures es[..n][..i] == es[..i]
      {}
      BeginIsOld(d, es[..n]);
      StaysOld(d, After(d, es[..n]), es[n]);
    }
  }

  lemma OldAtFirst(d: Db)
    requires Proper(d) && d.end == d.begin + |d.rolling| * d.step
    ensures Old(d, After(d, []))
  {}

  /**
   * The promise of the delay: in a ring of delay / step + 2 windows, a flow that starts no earlier than the ring did at
   * first, and at most delay seconds before the newest end seen by any rule, its own included, is not truncated.
   */
  lemma DelayIsKept(d: Db, delay: nat, es: seq<Event>, f: Flow)
    requires Proper(d) && Driven(d, es)
    requires d.end == d.begin + |d.rolling| * d.step && |d.rolling| == delay / d.step + 2
    requires var l := After(d, es);
             && Ready(l.db, f) == l.db
             && f.firstSec >= d.begin && f.firstSec + delay >= Newer(f.lastSec, l.newest)
    ensures Save(After(d, es).db, f).0 != Truncated
  {
    BeginIsOld(d, es);
    NotTruncated(d, After(d, es), delay, f);
  }

  lemma NotTruncated(d: Db, l: Ledger, delay: nat, f: Flow)
    requires Proper(d) && Proper(l.db) && Old(d, l) && |d.rolling| == delay / d.step + 2 && Ready(l.db, f) == l.db
    requires f.firstSec >= d.begin && f.firstSec + delay >= Newer(f.lastSec, l.newest)
    ensures Save(l.db, f).0 != Truncated
  {
    hide Ready, Added;
    DelayFits(d.step, delay);
    assert |d.rolling| - 1 == delay / d.step + 1;
  }

  // a flow of whom the checks take the database to be inactive, or not initialised
  predicate Resets(d: Db, f: Flow) {
    d.begin == 0 || f.firstSec - d.begin > d.inactiveTimeout
  }

  lemma ReadyIs(d: Db, f: Flow)
    requires Proper(d)
    ensures Proper(Ready(d, f)) && Ready(d, f).countUniq == d.countUniq
    ensures if Resets(d, f) then Ready(d, f).begin == f.firstSec - f.firstSec % d.step else Ready(d, f) == d
  {}

  /**
   * A reset breaks the promise: whatever the delay, each flow that starts before the window in which the flow that
   * caused it starts is reported as truncated, even when it ends with the newest one.
   */
  lemma ResetBreaksDelay(d: Db, f: Flow, g: Flow)
    requires Proper(d) && Resets(d, f) && g.firstSec < f.firstSec - f.firstSec % d.step
    requires d.countUniq || (f.value.Number? && g.value.Number?)
    ensures SaveRolling(SaveRolling(d, f).2, g).1 == Truncated
  {
    ReadyIs(d, f);
    hide Ready, Save, SaveRolling, Rolled, Proper;
    LoopEnds(d, f);
    SameStep(d, f);
    var e := SaveRolling(d, f).2;
    NotNegative(SaveRolling(d, f).0, d.step);
    assert e.begin > g.firstSec;
    ReadyIs(e, g);
    LoopEnds(e, g);
    NotNegative(SaveRolling(e, g).0, e.step);
    TruncatedIs(e, g);
  }

  // ---- what a window holds when it is rolled out ----

  function AddAll(w: Window, fs: seq<Flow>, countUniq: bool): Window {
    if fs == [] then w else AddTo(AddAll(w, fs[..|fs| - 1], countUniq), fs[|fs| - 1], countUniq)
  }

  function Touching(begin: nat, end: nat, fs: seq<Flow>): seq<Flow> {
    Filter((f: Flow) => begin <= f.lastSec && end >= f.firstSec, fs)
  }

  function TotalShare(begin: nat, end: nat, fs: seq<Flow>): real {
    if fs == [] then 0.0
    else
      var n := |fs| - 1;
      TotalShare(begin, end, fs[..n]) + Share(Empty(begin, end), fs[n])
  }

  lemma TouchingMore(begin: nat, end: nat, fs: seq<Flow>, f: Flow)
    ensures Touching(begin, end, fs + [f])
            == if begin <= f.lastSec && end >= f.firstSec then Touching(begin, end, fs) + [f]
               else Touching(begin, end, fs)
  {
    FilterAppend((f: Flow) => begin <= f.lastSec && end >= f.firstSec, fs, f);
  }

  lemma TotalShareMore(begin: nat, end: nat, fs: seq<Flow>, f: Flow)
    ensures TotalShare(begin, end, fs + [f]) == TotalShare(begin, end, fs) + Share(Empty(begin, end), f)
  {
    hide Share;
    assert (fs + [f])[..|fs|] == fs;
  }

  lemma NextCount(count: nat, n: nat)
    ensures ((count + n) % 0x1_0000_0000 + 1) % 0x1_0000_0000 == (count + n + 1) % 0x1_0000_0000
  {}

  ghost function Items(fs: seq<Flow>): set<int> {
    set f | f in fs :: f.value.item
  }

  lemma ItemsMore(fs: seq<Flow>, f: Flow)
    ensures Items(fs + [f]) == Items(fs) + {f.value.item}
  {}

  // v is what w has become by these flows, which touch it
  ghost predicate Collected(w: Window, v: Window, ts: seq<Flow>, countUniq: bool) {
    && (v.finite <==> w.finite && forall f :: f in ts ==> Measurable(f))
    && v.begin == w.begin && v.end == w.end && v.sum == w.sum + TotalShare(w.begin, w.end, ts)
    && v.count == (if countUniq then w.count else (w.count + |ts|) % 0x1_0000_0000)
    && v.items == w.items + if countUniq then Items(ts) else {}
  }

  lemma CollectsOne(w: Window, v: Window, ts: seq<Flow>, f: Flow, countUniq: bool)
    requires Collected(w, v, ts, countUniq)
    ensures if Touches(v, f) then Collected(w, AddTo(v, f, countUniq), ts + [f], countUniq)
            else AddTo(v, f, countUniq) == v
  {
    hide Measurable, Share, TotalShare, Items;
    assert forall g :: g in ts + [f] <==> g in ts || g == f;
    TotalShareMore(w.begin, w.end, ts, f);
    NextCount(w.count, |ts|);
    ShareOf(v, f);
    ItemsMore(ts, f);
  }

  lemma CollectsNone(w: Window, countUniq: bool)
    requires w.count < 0x1_0000_0000
    ensures Collected(w, w, [], countUniq)
  {}

  /**
   * A window gets a share of, and counts, just the flows that touch it, or notes their distinct items; its sum is a
   * number exactly when all of these have a measurable rate.
   */
  lemma {:induction false} WindowHolds(w: Window, fs: seq<Flow>, countUniq: bool)
    requires w.count < 0x1_0000_0000
    ensures Collected(w, AddAll(w, fs, countUniq), Touching(w.begin, w.end, fs), countUniq)
  {
    if fs == [] {
      TouchingNone(w.begin, w.end);
      CollectsNone(w, countUniq);
    } else {
      var n := |fs| - 1;
      assert fs == fs[..n] + [fs[n]];
      WindowHolds(w, fs[..n], countUniq);
      var v, ts := AddAll(w, fs[..n], countUniq), Touching(w.begin, w.end, fs[..n]);
      assert v.begin == w.begin && v.end == w.end;
      hide Collected, AddTo, Touching;
      TouchingMore(w.begin, w.end, fs[..n], fs[n]);
      CollectsOne(w, v, ts, fs[n], countUniq);
    }
  }

  lemma TouchingNone(begin: nat, end: nat)
    ensures Touching(begin, end, []) == []
  {}

  lemma ShareOf(w: Window, f: Flow)
    ensures Share(w, f) == Share(Empty(w.begin, w.end), f)
  {}

  function Rolls(es: seq<Event>): nat {
    if es == [] then 0 else Rolls(es[..|es| - 1]) + if es[|es| - 1].RollOut? then 1 else 0
  }

  // the flows that were saved, in order
  ghost function SavedFlows(d: Db, es: seq<Event>): (fs: seq<Flow>)
    requires Proper(d)
  {
    if es == [] then []
    else
      var n := |es| - 1;
      if es[n].Attempt? && IsSaved(Save(After(d, es[..n]).db, es[n].f).0) then SavedFlows(d, es[..n]) + [es[n].f]
      else SavedFlows(d, es[..n])
  }

  // no attempt finds the database in need of initialisation
  ghost predicate Steady(d: Db, es: seq<Event>)
    requires Proper(d)
  {
    forall i :: 0 <= i < |es| && es[i].Attempt? ==> Ready(After(d, es[..i]).db, es[i].f) == After(d, es[..i]).db
  }

  lemma NextWindows(l: Ledger, e: Event, i: nat)
    requires Proper(l.db) && (e.Attempt? ==> Ready(l.db, e.f) == l.db) && i < |l.db.rolling|
    ensures var d := Next(l, e).db;
            && |d.rolling| == |l.db.rolling| && d.countUniq == l.db.countUniq
            && if e.RollOut? then i + 1 < |l.db.rolling| ==> d.rolling[i] == l.db.rolling[i + 1]
               else if e.Attempt? && IsSaved(Save(l.db, e.f).0) then
                 d.rolling[i] == AddTo(l.db.rolling[i], e.f, d.countUniq)
               else d.rolling[i] == l.db.rolling[i]
  {
    hide AddTo;
  }

  /** In a steady run, a window has collected exactly the flows that were saved since it was in the ring. */
  lemma {:induction false} WindowCollects(d: Db, es: seq<Event>, i: nat)
    requires Proper(d) && Steady(d, es) && i + Rolls(es) < |d.rolling|
    ensures var e := After(d, es).db;
            && |e.rolling| == |d.rolling| && e.countUniq == d.countUniq
            && e.rolling[i] == AddAll(d.rolling[i + Rolls(es)], SavedFlows(d, es), d.countUniq)
  {
    hide Next, Ready, Save, Proper, AddTo, IsSaved;
    if es != [] {
      var n := |es| - 1;
      forall j | 0 <= j < n
        ensures es[..n][..j] == es[..j]
      {}
      var fs := SavedFlows(d, es[..n]);
      WindowCollects(d, es[..n], if es[n].RollOut? then i + 1 else i);
      NextWindows(After(d, es[..n]), es[n], i);
      if es[n].Attempt? {
        assert (fs + [es[n].f])[..|fs|] == fs;
      }
    }
  }
}
