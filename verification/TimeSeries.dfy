/** The windows of scalar-aggregator/timedb.c as values: what is added to each, and what a whole run adds up to. */
module TimeSeries {
  import opened Arithmetic

  type Msec = x: int | 0 <= x < 1000

  // finite: whether the sum is a number, neither an infinity nor the result of an undefined operation
  datatype Window = Window(begin: nat, end: nat, sum: real, finite: bool, count: nat, items: set<int>)

  function Empty(begin: nat, end: nat): Window {
    Window(begin, end, 0.0, true, 0, {})
  }

  // a number, a character or a value of another type; item identifies it where unique values are counted
  datatype Value = Number(number: real, item: int) | Character(item: int) | Other(item: int)
  datatype Flow = Flow(firstSec: nat, firstMsec: Msec, lastSec: nat, lastMsec: Msec, value: Value)

  datatype Status = SaveOk | NeedRollout | Truncated | SaveError

  // rolling[i] is the window in slot (dataBegin + i) % size of the array
  datatype Db = Db(
    step: nat, inactiveTimeout: nat, countUniq: bool, begin: nat, end: nat, dataBegin: nat, rolling: seq<Window>)

  predicate Proper(d: Db) {
    d.step > 0 && d.dataBegin < |d.rolling| && |d.rolling| >= 2
  }

  function Slot(dataBegin: nat, i: nat, size: nat): nat
    requires size > 0
  {
    (dataBegin + i) % size
  }

  // The slots are filled in array order and dataBegin stays; so do the unique items.
  function InitWindow(d: Db, begin: nat, i: nat): Window
    requires Proper(d) && i < |d.rolling|
  {
    var at := begin + Slot(d.dataBegin, i, |d.rolling|) * d.step;
    Empty(at, at + d.step).(items := d.rolling[i].items)
  }

  function Initialized(d: Db, time: nat): Db
    requires Proper(d)
  {
    var begin := time - time % d.step;
    d.(begin := begin, end := begin + |d.rolling| * d.step,
       rolling := seq(|d.rolling|, i requires 0 <= i < |d.rolling| => InitWindow(d, begin, i)))
  }

  // the state after the two checks at the start of a save: not initialised, and inactive for too long
  function Ready(d: Db, f: Flow): Db
    requires Proper(d)
  {
    var e := if d.begin == 0 then Initialized(d, f.firstSec) else d;
    if f.firstSec - e.begin > e.inactiveTimeout then Initialized(e, f.firstSec) else e
  }

  function First(f: Flow): real { f.firstSec as real + f.firstMsec as real / 1000.0 }
  function Last(f: Flow): real { f.lastSec as real + f.lastMsec as real / 1000.0 }
  function Duration(f: Flow): real { Last(f) - First(f) }
  function Amount(f: Flow): real { if f.value.Number? then f.value.number else 0.0 }

  // the quotient of value and duration is a number, or the infinity that the code looks for
  predicate Measurable(f: Flow) {
    Duration(f) != 0.0 || Amount(f) > 0.0
  }

  function Min(a: real, b: real): real { if a < b then a else b }
  function Max(a: real, b: real): real { if a > b then a else b }

  function TimeIn(begin: nat, end: nat, f: Flow): real {
    Min(end as real, Last(f)) - Max(begin as real, First(f))
  }

  predicate Touches(w: Window, f: Flow) {
    w.begin <= f.lastSec && w.end >= f.firstSec
  }

  // without a duration, the rate is infinite and the whole value is added
  function Share(w: Window, f: Flow): real {
    if Duration(f) == 0.0 then Amount(f) else Amount(f) / Duration(f) * TimeIn(w.begin, w.end, f)
  }

  // A rate that is not measurable spoils the sum.
  function AddTo(w: Window, f: Flow, countUniq: bool): Window {
    if Touches(w, f) then
      w.(sum := w.sum + Share(w, f), finite := w.finite && Measurable(f),
         count := if countUniq then w.count else (w.count + 1) % 0x1_0000_0000,
         items := if countUniq then w.items + {f.value.item} else w.items)
    else w
  }

  function Added(d: Db, f: Flow): Db {
    d.(rolling := seq(|d.rolling|, i requires 0 <= i < |d.rolling| => AddTo(d.rolling[i], f, d.countUniq)))
  }

  function Save(d: Db, f: Flow): (r: (Status, Db))
    requires Proper(d)
  {
    var e := Ready(d, f);
    if !f.value.Number? && !e.countUniq then (SaveError, e)
    else if e.end < f.lastSec then (NeedRollout, e)
    else (if e.begin > f.firstSec then Truncated else SaveOk, Added(e, f))
  }

  function Roll(d: Db): (r: Db)
    requires Proper(d)
    ensures Proper(r)
  {
    d.(begin := d.begin + d.step, end := d.end + d.step, dataBegin := (d.dataBegin + 1) % |d.rolling|,
       rolling := d.rolling[1..] + [Empty(d.end, d.end + d.step)])
  }

  // ---- the ring ----

  // consecutive windows of this length from begin on
  ghost predicate Consecutive(ws: seq<Window>, begin: nat, step: nat) {
    forall i :: 0 <= i < |ws| ==> ws[i].begin == begin + i * step && ws[i].end == begin + i * step + step
  }

  ghost predicate Ring(d: Db) {
    Proper(d) && d.end == d.begin + |d.rolling| * d.step && Consecutive(d.rolling, d.begin, d.step)
  }

  lemma SlotIs(dataBegin: nat, i: nat, size: nat)
    requires dataBegin < size && i < size
    ensures Slot(dataBegin, i, size) == if dataBegin + i < size then dataBegin + i else dataBegin + i - size
  {}

  /** Initialisation yields a ring exactly when the first window is in the first slot. */
  lemma InitRing(d: Db, time: nat)
    requires Proper(d)
    ensures Ring(Initialized(d, time)) <==> d.dataBegin == 0
  {
    var e := Initialized(d, time);
    SlotIs(d.dataBegin, 0, |d.rolling|);
    assert e.rolling[0].begin == e.begin + d.dataBegin * d.step;
    if d.dataBegin == 0 {
      forall i | 0 <= i < |d.rolling|
        ensures e.rolling[i].begin == e.begin + i * d.step
      {
        SlotIs(0, i, |d.rolling|);
      }
    } else {
      assert d.dataBegin * d.step > 0;
      assert e.rolling[0].begin != e.begin + 0 * d.step;
    }
  }

  /** Rolling keeps the ring: the window that leaves comes back as the one after the last. */
  lemma RollRing(d: Db)
    requires Ring(d)
    ensures Ring(Roll(d))
  {
    var e, n := Roll(d), |d.rolling|;
    assert (n - 1) * d.step + d.step == n * d.step;
    forall i | 0 <= i < n
      ensures e.rolling[i].begin == e.begin + i * e.step && e.rolling[i].end == e.begin + i * e.step + e.step
    {
      assert (i + 1) * d.step == i * d.step + d.step;
      if i < n - 1 {
        assert e.rolling[i] == d.rolling[i + 1];
      }
    }
  }

  lemma SaveRing(d: Db, f: Flow)
    requires Proper(d) && Ring(Ready(d, f))
    ensures Ring(Save(d, f).1)
  {}

  // ---- what one flow adds to a ring ----

  function Shares(ws: seq<Window>, f: Flow): real {
    if ws == [] then 0.0
    else Shares(ws[..|ws| - 1], f) + if Touches(ws[|ws| - 1], f) then Share(ws[|ws| - 1], f) else 0.0
  }

  function Stored(ws: seq<Window>): real {
    if ws == [] then 0.0 else Stored(ws[..|ws| - 1]) + ws[|ws| - 1].sum
  }

  lemma {:induction false} AddedStored(ws: seq<Window>, ws': seq<Window>, f: Flow, countUniq: bool)
    requires |ws| == |ws'|
    requires forall i :: 0 <= i < |ws| ==> ws'[i] == AddTo(ws[i], f, countUniq)
    ensures Stored(ws') == Stored(ws) + Shares(ws, f)
  {
    hide Share, Touches;
    if ws != [] {
      AddedStored(ws[..|ws| - 1], ws'[..|ws| - 1], f, countUniq);
    }
  }

  // how much of the flow's time lies between begin and end
  function Overlap(begin: nat, end: nat, f: Flow): real {
    Max(0.0, TimeIn(begin, end, f))
  }

  // The window that ends in the second in which the flow starts is taken to be touched, with a negative time.
  predicate StartsOnBoundary(begin: nat, end: nat, step: nat, f: Flow)
    requires step > 0
  {
    begin < f.firstSec <= end && (f.firstSec - begin) % step == 0
  }

  function Penalty(begin: nat, end: nat, step: nat, f: Flow): real
    requires step > 0
  {
    if StartsOnBoundary(begin, end, step, f) then f.firstMsec as real / 1000.0 else 0.0
  }

  function TimeCounted(w: Window, f: Flow): real {
    if Touches(w, f) then TimeIn(w.begin, w.end, f) else 0.0
  }

  // one window
  lemma OneWindow(w: Window, f: Flow)
    requires w.begin < w.end && Duration(f) > 0.0
    ensures TimeCounted(w, f)
            == Overlap(w.begin, w.end, f) - if w.end == f.firstSec then f.firstMsec as real / 1000.0 else 0.0
  {
    assert f.firstSec <= f.lastSec;
    assert 0.0 <= f.firstMsec as real / 1000.0 < 1.0 && 0.0 <= f.lastMsec as real / 1000.0 < 1.0;
    if w.end < f.firstSec {
      assert w.end as real <= f.firstSec as real - 1.0;
    } else if w.begin > f.lastSec {
      assert w.begin as real >= f.lastSec as real + 1.0;
    } else if w.end > f.firstSec {
      assert w.end as real >= f.firstSec as real + 1.0;
    }
  }

  lemma OverlapSplits(begin: nat, mid: nat, end: nat, f: Flow)
    requires begin <= mid <= end && Duration(f) > 0.0
    ensures Overlap(begin, end, f) == Overlap(begin, mid, f) + Overlap(mid, end, f)
  {}

  lemma MultipleNotBetween(x: nat, n: nat, step: nat)
    requires step > 0 && x % step == 0 && n * step < x <= n * step + step
    ensures x == n * step + step
  {
    var q := x / step;
    assert x == q * step;
    assert (n + 1) * step == n * step + step && (n + 2) * step == n * step + step + step;
    MulLess(n, q, step);
    MulLess(q, n + 2, step);
  }

  lemma PenaltySplits(begin: nat, n: nat, step: nat, f: Flow)
    requires step > 0
    ensures var mid := begin + n * step;
            Penalty(begin, mid + step, step, f)
            == Penalty(begin, mid, step, f) + if mid + step == f.firstSec then f.firstMsec as real / 1000.0 else 0.0
  {
    var mid := begin + n * step;
    MultipleMod(n + 1, step);
    assert (n + 1) * step == n * step + step;
    if StartsOnBoundary(begin, mid + step, step, f) && mid < f.firstSec {
      MultipleNotBetween(f.firstSec - begin, n, step);
    }
  }

  /**
   * What a flow of positive length adds to consecutive windows: its value per second, times its time within them, less
   * its milliseconds when it starts in the last second of one of them.
   */
  lemma {:induction false} SharesAre(ws: seq<Window>, begin: nat, step: nat, f: Flow)
    requires step > 0 && Consecutive(ws, begin, step) && Duration(f) > 0.0
    ensures var end := begin + |ws| * step;
            Shares(ws, f) == Amount(f) / Duration(f) * (Overlap(begin, end, f) - Penalty(begin, end, step, f))
  {
    hide TimeIn, Overlap, Penalty, Amount, Duration, Touches, Shares;
    var perSec := Amount(f) / Duration(f);
    if ws == [] {
      NoShares(ws, f);
      EmptyOverlap(begin, step, f);
      Distributes(perSec, 0.0, 0.0);
    } else {
      var n := |ws| - 1;
      var mid := begin + n * step;
      assert mid + step == begin + |ws| * step;
      SharesAre(ws[..n], begin, step, f);
      LastShare(ws, begin, n, step, f);
      OverlapSplits(begin, mid, mid + step, f);
      PenaltySplits(begin, n, step, f);
      OneWindow(ws[n], f);
      var before := Overlap(begin, mid, f) - Penalty(begin, mid, step, f);
      assert Overlap(begin, mid + step, f) - Penalty(begin, mid + step, step, f) == before + TimeCounted(ws[n], f);
      Distributes(perSec, before, TimeCounted(ws[n], f));
    }
  }

  lemma NoShares(ws: seq<Window>, f: Flow)
    requires ws == []
    ensures Shares(ws, f) == 0.0
  {}

  lemma LastShare(ws: seq<Window>, begin: nat, n: nat, step: nat, f: Flow)
    requires |ws| == n + 1 && Duration(f) > 0.0
    ensures Shares(ws, f) == Shares(ws[..n], f) + Amount(f) / Duration(f) * TimeCounted(ws[n], f)
  {
    hide TimeIn;
    Distributes(Amount(f) / Duration(f), 0.0, 0.0);
  }

  lemma EmptyOverlap(begin: nat, step: nat, f: Flow)
    requires Duration(f) > 0.0 && step > 0
    ensures Overlap(begin, begin, f) == 0.0 == Penalty(begin, begin, step, f)
  {}

  lemma Distributes(a: real, b: real, c: real)
    ensures a * (b + c) == a * b + a * c
  {}

  // inside the windows, and not starting within the last second of one of them
  predicate Conserved(begin: nat, end: nat, step: nat, f: Flow)
    requires step > 0
  {
    && begin <= f.firstSec
    && (f.lastSec < end || (f.lastSec == end && f.lastMsec == 0))
    && !(f.firstMsec > 0 && (f.firstSec - begin) % step == 0 && begin < f.firstSec)
  }

  /**
   * A flow of positive length that ends by the end second adds exactly its value, or less or more than it. It is exact
   * iff the value is zero or the flow lies inside and does not start some milliseconds after a window has ended.
   */
  lemma ConservedExactly(d: Db, f: Flow)
    requires Ring(d) && Duration(f) > 0.0 && f.lastSec <= d.end
    ensures Shares(d.rolling, f) == Amount(f) <==> Amount(f) == 0.0 || Conserved(d.begin, d.end, d.step, f)
  {
    hide Overlap, Penalty, Conserved, Shares, Share;
    SharesAre(d.rolling, d.begin, d.step, f);
    var t := Overlap(d.begin, d.end, f) - Penalty(d.begin, d.end, d.step, f);
    QuotientTimes(Amount(f), Duration(f), t);
    ConservedTime(d.begin, d.end, d.step, f);
  }

  lemma QuotientTimes(v: real, u: real, t: real)
    requires u > 0.0
    ensures v / u * t == v <==> v == 0.0 || t == u
  {
    var q := v / u;
    assert q * u == v;
    Distributes(q, t - u, u);
    if q * (t - u) == 0.0 {
      assert q == 0.0 || t - u == 0.0;
    }
  }

  lemma ConservedTime(begin: nat, end: nat, step: nat, f: Flow)
    requires step > 0 && begin < end && Duration(f) > 0.0 && f.lastSec <= end
    ensures Overlap(begin, end, f) - Penalty(begin, end, step, f) == Duration(f) <==> Conserved(begin, end, step, f)
  {
    assert f.firstMsec as real / 1000.0 >= 0.0 && f.lastMsec as real / 1000.0 >= 0.0;
    assert f.firstMsec > 0 <==> f.firstMsec as real / 1000.0 > 0.0;
    assert f.lastMsec > 0 <==> f.lastMsec as real / 1000.0 > 0.0;
    assert f.firstMsec as real / 1000.0 < 1.0 && f.lastMsec as real / 1000.0 < 1.0;
    assert f.firstSec <= f.lastSec;
    if f.firstSec < begin {
      assert f.firstSec as real + 1.0 <= begin as real;
    }
    if f.lastSec < end {
      assert f.lastSec as real + 1.0 <= end as real;
    }
  }

  // in how many consecutive windows a moment is counted: both windows at a boundary
  function TimesCounted(begin: nat, end: nat, step: nat, sec: nat): nat
    requires step > 0
  {
    if sec < begin || sec > end then 0
    else if begin < sec < end && (sec - begin) % step == 0 then 2
    else 1
  }

  /** A flow of no length adds its whole value to each window that it touches: twice when it falls between two. */
  lemma {:induction false} ZeroLengthShares(ws: seq<Window>, begin: nat, step: nat, f: Flow)
    requires step > 0 && Consecutive(ws, begin, step) && ws != [] && Duration(f) == 0.0
    ensures Shares(ws, f) == Amount(f) * TimesCounted(begin, begin + |ws| * step, step, f.firstSec) as real
  {
    hide Duration, Amount, Shares, TimesCounted, Share;
    var n := |ws| - 1;
    var mid := begin + n * step;
    assert mid + step == begin + |ws| * step;
    LastWhole(ws, f);
    if n == 0 {
      NoShares(ws[..0], f);
      TimesOnce(begin, step, f.firstSec);
      DistributesNat(Amount(f), 0);
    } else {
      ZeroLengthShares(ws[..n], begin, step, f);
      TimesStep(begin, n, step, f.firstSec);
      DistributesNat(Amount(f), TimesCounted(begin, mid, step, f.firstSec));
    }
  }

  lemma LastWhole(ws: seq<Window>, f: Flow)
    requires ws != [] && Duration(f) == 0.0
    ensures var n := |ws| - 1;
            Shares(ws, f) == Shares(ws[..n], f) + if ws[n].begin <= f.firstSec <= ws[n].end then Amount(f) else 0.0
  {
    assert f.firstSec == f.lastSec;
  }

  lemma TimesOnce(begin: nat, step: nat, sec: nat)
    requires step > 0
    ensures TimesCounted(begin, begin + step, step, sec) == if begin <= sec <= begin + step then 1 else 0
  {
    if begin < sec < begin + step {
      SmallMod(sec - begin, step);
    }
  }

  lemma SmallMod(x: nat, step: nat)
    requires 0 < x < step
    ensures x % step != 0
  {}

  lemma DistributesNat(a: real, n: nat)
    ensures a * (n + 1) as real == a * n as real + a
  {}

  lemma TimesStep(begin: nat, n: nat, step: nat, sec: nat)
    requires step > 0 && n > 0
    ensures var mid := begin + n * step;
            TimesCounted(begin, mid + step, step, sec)
            == TimesCounted(begin, mid, step, sec) + if mid <= sec <= mid + step then 1 else 0
  {
    var mid := begin + n * step;
    MultipleMod(n, step);
    assert n * step > 0;
    if mid < sec < mid + step && (sec - begin) % step == 0 {
      MultipleNotBetween(sec - begin, n, step);
    }
  }

  /** For a flow of no length, conservation is to be counted once: inside, and not between two windows. */
  lemma ZeroLengthConservedExactly(d: Db, f: Flow)
    requires Ring(d) && Measurable(f) && Duration(f) == 0.0
    ensures Shares(d.rolling, f) == Amount(f)
            <==> d.begin <= f.firstSec <= d.end
                 && !(d.begin < f.firstSec < d.end && (f.firstSec - d.begin) % d.step == 0)
  {
    ZeroLengthShares(d.rolling, d.begin, d.step, f);
    hide Shares, Consecutive;
    var n := TimesCounted(d.begin, d.end, d.step, f.firstSec);
    if n == 0 {
      assert Amount(f) * 0.0 == 0.0;
    } else if n == 1 {
      assert Amount(f) * 1.0 == Amount(f);
    } else {
      assert Amount(f) * 2.0 == Amount(f) + Amount(f);
    }
  }

  // ---- sums that are numbers ----

  ghost predicate Numbers(ws: seq<Window>) {
    forall i :: 0 <= i < |ws| ==> ws[i].finite
  }

  /** In a ring, a second from the beginning to the end is in some window. */
  lemma SomeWindow(d: Db, sec: nat) returns (i: nat)
    requires Ring(d) && d.begin <= sec <= d.end
    ensures i < |d.rolling| && d.rolling[i].begin <= sec <= d.rolling[i].end
  {
    var n := |d.rolling|;
    if sec == d.end {
      i := n - 1;
      assert n * d.step == i * d.step + d.step;
    } else {
      var x := sec - d.begin;
      i := x / d.step;
      DivisionIs(x, d.step);
      MulLess(i, n, d.step);
    }
  }

  lemma DivisionIs(x: nat, step: nat)
    requires step > 0
    ensures x / step >= 0 && x / step * step <= x < x / step * step + step
  {}

  lemma AddedNumbers(d: Db, f: Flow)
    requires Ring(d) && Numbers(d.rolling) && Duration(f) >= 0.0 && f.lastSec <= d.end
    ensures Numbers(Added(d, f).rolling) <==> Measurable(f) || f.firstSec < d.begin
  {
    hide Share, Duration, Amount;
    var e := Added(d, f);
    if !Measurable(f) {
      assert f.firstSec == f.lastSec by { NoLength(f); }
      if f.firstSec >= d.begin {
        var i := SomeWindow(d, f.firstSec);
        assert !e.rolling[i].finite;
      } else {
        forall i | 0 <= i < |d.rolling|
          ensures e.rolling[i] == d.rolling[i]
        {
          assert d.rolling[i].begin == d.begin + i * d.step >= d.begin;
        }
      }
    }
  }

  lemma NoLength(f: Flow)
    requires !Measurable(f)
    ensures Duration(f) == 0.0 && f.firstSec == f.lastSec && Amount(f) <= 0.0
  {}

  // what a caller can check before a save
  predicate Fits(d: Db, f: Flow)
    requires Proper(d)
  {
    if Duration(f) > 0.0 then Amount(f) == 0.0 || Conserved(d.begin, d.end, d.step, f)
    else if Amount(f) > 0.0 then
      d.begin <= f.firstSec <= d.end && !(d.begin < f.firstSec < d.end && (f.firstSec - d.begin) % d.step == 0)
    else Amount(f) == 0.0 && f.firstSec < d.begin
  }

  /**
   * A save of a flow that does not end before it starts leaves numbers, and adds the value of the flow to the stored
   * sums, no less and no more, exactly when the flow fits.
   */
  lemma SavedExactly(d: Db, f: Flow)
    requires Ring(d) && Numbers(d.rolling) && Duration(f) >= 0.0 && f.lastSec <= d.end
    ensures Numbers(Added(d, f).rolling) && Stored(Added(d, f).rolling) == Stored(d.rolling) + Amount(f) <==> Fits(d, f)
  {
    AddedStored(d.rolling, Added(d, f).rolling, f, d.countUniq);
    AddedNumbers(d, f);
    if Duration(f) == 0.0 && f.firstSec < d.begin {
      BeforeRing(d, f);
    }
    hide Shares, Stored, Added, Conserved, Ring, Numbers;
    if Duration(f) > 0.0 {
      ConservedExactly(d, f);
    } else if Measurable(f) {
      ZeroLengthConservedExactly(d, f);
    } else {
      NoLength(f);
    }
  }

  lemma BeforeRing(d: Db, f: Flow)
    requires Ring(d) && Duration(f) == 0.0 && f.firstSec < d.begin
    ensures Shares(d.rolling, f) == 0.0
  {
    ZeroLengthShares(d.rolling, d.begin, d.step, f);
  }
}
