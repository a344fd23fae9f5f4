/** scalar-aggregator/timedb.c: the ring of windows, rolled in place. */
module TimeDb {
  import opened TimeSeries
  import opened TimeRuns

  class TimeDb {
    const step: nat
    const size: nat
    const inactiveTimeout: nat
    const countUniq: bool
    const data: array<Window>
    var begin: nat
    var end: nat
    var dataBegin: nat

    ghost predicate Valid()
      reads this
    {
      step > 0 && size >= 2 && data.Length == size && dataBegin < size
    }

    // the database as a value: its windows from the first on
    ghost function Value(): (d: Db)
      reads this, data
      requires Valid()
      ensures Proper(d) && |d.rolling| == size
    {
      Db(step, inactiveTimeout, countUniq, begin, end, dataBegin, Rolling(data[..], dataBegin))
    }

    constructor (step: nat, delay: nat, inactiveTimeout: nat, countUniq: bool)
      requires step > 0
      ensures Valid() && fresh(data) && Value() == Created(step, delay, inactiveTimeout, countUniq)
    {
      this.step := step;
      this.size := delay / step + 2;
      this.inactiveTimeout := inactiveTimeout;
      this.countUniq := countUniq;
      begin, end, dataBegin := 0, 0, 0;
      data := new Window[delay / step + 2](_ => Empty(0, 0));
      new;
      assert Rolling(data[..], 0) == Created(step, delay, inactiveTimeout, countUniq).rolling;
    }

    // timedb_init
    method Init(first: nat)
      requires Valid()
      modifies this, data
      ensures Valid() && Value() == Initialized(old(Value()), first)
    {
      var time := first - first % step;
      begin := time;
      for i := 0 to size
        invariant Valid() && begin == first - first % step && dataBegin == old(dataBegin)
        invariant time == begin + i * step
        invariant forall k :: 0 <= k < i ==>
          data[k] == Empty(begin + k * step, begin + k * step + step).(items := old(data[k].items))
        invariant forall k :: i <= k < size ==> data[k] == old(data[k])
      {
        assert (i + 1) * step == i * step + step;
        data[i] := Empty(time, time + step).(items := data[i].items);
        time := time + step;
      }
      end := time;
      assert Value().rolling == Initialized(old(Value()), first).rolling;
    }

    // timedb_save_data
    method SaveData(f: Flow) returns (status: Status)
      requires Valid()
      modifies this, data
      ensures Valid() && (status, Value()) == Save(old(Value()), f)
    {
      hide AddTo, InitWindow, Slot;
      if begin == 0 {
        Init(f.firstSec);
      }
      if f.firstSec - begin > inactiveTimeout {
        Init(f.firstSec);
      }
      assert Value() == Ready(old(Value()), f);
      if !f.value.Number? && !countUniq {
        return SaveError;
      }
      if end < f.lastSec {
        return NeedRollout;
      }
      AddFlow(f);
      status := if begin > f.firstSec then Truncated else SaveOk;
    }

    // the loop over the windows
    method AddFlow(f: Flow)
      requires Valid()
      modifies data
      ensures Value() == Added(old(Value()), f)
    {
      hide AddTo;
      ghost var was := data[..];
      for i := 0 to size
        invariant Valid()
        invariant forall k :: 0 <= k < size ==>
          RollingAt(data[..], dataBegin, k)
          == if k < i then AddTo(RollingAt(was, dataBegin, k), f, countUniq) else RollingAt(was, dataBegin, k)
      {
        var at := (dataBegin + i) % size;
        SlotIs(dataBegin, i, size);
        assert data[at] == RollingAt(data[..], dataBegin, i);
        ghost var before := data[..];
        data[at] := AddTo(data[at], f, countUniq);
        OneSlotChanges(before, data[..], dataBegin, i);
      }
      assert Value().rolling == Added(old(Value()), f).rolling;
    }

    // timedb_roll_db
    method RollDb() returns (time: nat, sum: real, finite: bool, count: nat)
      requires Valid()
      modifies this, data
      ensures Valid() && Value() == Roll(old(Value()))
      ensures var w := old(Value()).rolling[0];
              time == w.begin && sum == w.sum && finite == w.finite
              && count == if countUniq then |w.items| % 0x1_0000_0000 else w.count
    {
      SlotIs(dataBegin, 0, size);
      var first := data[dataBegin];
      time, sum, finite := first.begin, first.sum, first.finite;
      count := if countUniq then |first.items| % 0x1_0000_0000 else first.count;
      ghost var was := data[..];
      data[dataBegin] := Empty(end, end + step);
      assert data[..] == was[dataBegin := Empty(end, end + step)];
      RollingRotates(was, dataBegin, Empty(end, end + step));
      begin := begin + step;
      end := end + step;
      dataBegin := (dataBegin + 1) % size;
    }
  }

  // the macro rolling_data
  ghost function RollingAt(data: seq<Window>, dataBegin: nat, i: nat): Window
    requires dataBegin < |data| && i < |data|
  {
    data[Slot(dataBegin, i, |data|)]
  }

  ghost function Rolling(data: seq<Window>, dataBegin: nat): seq<Window>
    requires dataBegin < |data|
  {
    seq(|data|, i requires 0 <= i < |data| => RollingAt(data, dataBegin, i))
  }

  lemma OneSlotChanges(before: seq<Window>, after: seq<Window>, dataBegin: nat, i: nat)
    requires dataBegin < |before| == |after| && i < |before|
    requires after == before[Slot(dataBegin, i, |before|) := after[Slot(dataBegin, i, |before|)]]
    ensures forall k :: 0 <= k < |before| && k != i ==>
      RollingAt(after, dataBegin, k) == RollingAt(before, dataBegin, k)
  {
    SlotIs(dataBegin, i, |before|);
    forall k | 0 <= k < |before| && k != i
      ensures RollingAt(after, dataBegin, k) == RollingAt(before, dataBegin, k)
    {
      SlotIs(dataBegin, k, |before|);
    }
  }

  /** Overwriting the first window and moving the beginning by one turns the first window into the last. */
  lemma RollingRotates(was: seq<Window>, dataBegin: nat, w: Window)
    requires dataBegin < |was| && |was| >= 2
    ensures Rolling(was[dataBegin := w], (dataBegin + 1) % |was|) == Rolling(was, dataBegin)[1..] + [w]
  {
    var n := |was|;
    SlotIs(dataBegin, 1, n);
    forall i | 0 <= i < n
      ensures Rolling(was[dataBegin := w], (dataBegin + 1) % n)[i] == (Rolling(was, dataBegin)[1..] + [w])[i]
    {
      SlotIs((dataBegin + 1) % n, i, n);
      if i < n - 1 {
        SlotIs(dataBegin, i + 1, n);
      }
    }
  }
}
