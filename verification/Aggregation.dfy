/** Groups of records with one key, and the record that aggregator keeps for such a group. */
module Aggregation {
  import opened AggFunctions

  type Key = seq<Byte>

  // times are in the units of the UniRec library: seconds in the upper 32 bits of 64
  type UrTime = x: int | 0 <= x < 0x1_0000_0000_0000_0000

  function Sec(t: UrTime): nat { t / 0x1_0000_0000 }

  datatype Field = Field(function_: Function, type_: FieldType)

  // a received record: its key fields, and the fields that have an aggregation function
  datatype Record = Record(keyFields: seq<seq<Byte>>, timeFirst: UrTime, timeLast: UrTime, values: seq<Value>)

  // a stored record
  datatype Summary = Summary(count: nat, timeFirst: UrTime, timeLast: UrTime, values: seq<Value>)

  predicate Fits(fields: seq<Field>, values: seq<Value>) {
    |values| == |fields| && forall i :: 0 <= i < |fields| ==> HasType(fields[i].type_, values[i])
  }

  // ---- the key ----

  function MakeKey(keyFields: seq<seq<Byte>>): Key {
    if keyFields == [] then [] else MakeKey(keyFields[..|keyFields| - 1]) + keyFields[|keyFields| - 1]
  }

  // the sizes in the key template
  predicate HasSizes(keyFields: seq<seq<Byte>>, sizes: seq<nat>) {
    |keyFields| == |sizes| && forall i :: 0 <= i < |sizes| ==> |keyFields[i]| == sizes[i]
  }

  function TotalSize(sizes: seq<nat>): nat {
    if sizes == [] then 0 else TotalSize(sizes[..|sizes| - 1]) + sizes[|sizes| - 1]
  }

  lemma {:induction false} KeySize(keyFields: seq<seq<Byte>>, sizes: seq<nat>)
    requires HasSizes(keyFields, sizes)
    ensures |MakeKey(keyFields)| == TotalSize(sizes)
  {
    if sizes != [] {
      KeySize(keyFields[..|sizes| - 1], sizes[..|sizes| - 1]);
    }
  }

  /** Two keys made with one template have equal bytes exactly when all their fields are equal. */
  lemma {:induction false} KeyIsTuple(a: seq<seq<Byte>>, b: seq<seq<Byte>>, sizes: seq<nat>)
    requires HasSizes(a, sizes) && HasSizes(b, sizes)
    ensures MakeKey(a) == MakeKey(b) <==> a == b
  {
    if sizes != [] {
      var n := |sizes| - 1;
      KeyIsTuple(a[..n], b[..n], sizes[..n]);
      KeySize(a[..n], sizes[..n]);
      KeySize(b[..n], sizes[..n]);
      if MakeKey(a) == MakeKey(b) {
        var k := |MakeKey(a[..n])|;
        assert MakeKey(a[..n]) == MakeKey(a)[..k] && MakeKey(b[..n]) == MakeKey(b)[..k];
        assert a[n] == MakeKey(a)[k..] && b[n] == MakeKey(b)[k..];
        assert a == a[..n] + [a[n]] && b == b[..n] + [b[n]];
      }
    }
  }

  // ---- what the code computes for a group ----

  function Init(r: Record): Summary {
    Summary(1, r.timeFirst, r.timeLast, r.values)
  }

  function ApplyAll(fields: seq<Field>, dst: seq<Value>, src: seq<Value>): (v: seq<Value>)
    requires Fits(fields, dst) && Fits(fields, src)
    ensures Fits(fields, v)
  {
    seq(|fields|, i requires 0 <= i < |fields| => Apply(fields[i].function_, fields[i].type_, dst[i], src[i]))
  }

  function Process(fields: seq<Field>, s: Summary, r: Record): Summary
    requires Fits(fields, s.values) && Fits(fields, r.values)
  {
    Summary((s.count + 1) % 0x1_0000_0000,
            if r.timeFirst < s.timeFirst then r.timeFirst else s.timeFirst,
            if r.timeLast > s.timeLast then r.timeLast else s.timeLast,
            ApplyAll(fields, s.values, r.values))
  }

  ghost predicate Group(fields: seq<Field>, g: seq<Record>) {
    g != [] && forall r :: r in g ==> Fits(fields, r.values)
  }

  ghost function Summarize(fields: seq<Field>, g: seq<Record>): (s: Summary)
    requires Group(fields, g)
    ensures Fits(fields, s.values)
  {
    if |g| == 1 then Init(g[0]) else Process(fields, Summarize(fields, g[..|g| - 1]), g[|g| - 1])
  }

  // get_avg_ptr: the fields with something left to do
  predicate IsAveraged(f: Field) {
    f.function_ == Avg && (f.type_.IntType? || f.type_.RealType?)
  }

  // There is nothing to divide, or a count to divide by: it is 0 for a multiple of 2^32 members.
  predicate CanDivide(fields: seq<Field>, count: nat) {
    0 < count < 0x1_0000_0000 || forall i :: 0 <= i < |fields| ==> !IsAveraged(fields[i])
  }

  // prepare_to_send: only the average has anything left to do
  function Prepared(fields: seq<Field>, s: Summary): Summary
    requires Fits(fields, s.values) && CanDivide(fields, s.count)
  {
    s.(values := seq(|fields|, i requires 0 <= i < |fields| =>
      if IsAveraged(fields[i]) then Averaged(fields[i].type_, s.values[i], s.count) else s.values[i]))
  }

  // ---- what it means ----

  // the values of field i in the group
  ghost function Column(fields: seq<Field>, g: seq<Record>, i: nat): (vs: seq<Value>)
    requires Group(fields, g) && i < |fields|
    ensures Values(fields[i].type_, vs) && |vs| == |g|
  {
    var vs := seq(|g|, k requires 0 <= k < |g| => g[k].values[i]);
    assert forall k :: 0 <= k < |g| ==> g[k] in g;
    vs
  }

  /** Each stored field is the fold of its function over that field of the members, in their order. */
  lemma {:induction false} FieldIsFold(fields: seq<Field>, g: seq<Record>, i: nat)
    requires Group(fields, g) && i < |fields|
    ensures Summarize(fields, g).values[i] == Fold(fields[i].function_, fields[i].type_, Column(fields, g, i))
  {
    hide Apply;
    if |g| > 1 {
      var n := |g| - 1;
      FieldIsFold(fields, g[..n], i);
      assert Column(fields, g, i)[..n] == Column(fields, g[..n], i);
    }
  }

  ghost predicate IsMinimum(m: int, g: seq<Record>) {
    (exists r :: r in g && r.timeFirst == m) && forall r :: r in g ==> m <= r.timeFirst
  }

  ghost predicate IsMaximum(m: int, g: seq<Record>) {
    (exists r :: r in g && r.timeLast == m) && forall r :: r in g ==> m >= r.timeLast
  }

  lemma MinimumAppend(m: int, g: seq<Record>, r: Record)
    requires IsMinimum(m, g)
    ensures IsMinimum(if r.timeFirst < m then r.timeFirst else m, g + [r])
  {
    var a :| a in g && a.timeFirst == m;
    assert a in g + [r] && r in g + [r];
  }

  lemma MaximumAppend(m: int, g: seq<Record>, r: Record)
    requires IsMaximum(m, g)
    ensures IsMaximum(if r.timeLast > m then r.timeLast else m, g + [r])
  {
    var a :| a in g && a.timeLast == m;
    assert a in g + [r] && r in g + [r];
  }

  lemma OnlyOne(g: seq<Record>)
    requires |g| == 1
    ensures IsMinimum(g[0].timeFirst, g) && IsMaximum(g[0].timeLast, g)
  {
    assert g[0] in g;
  }

  /** COUNT is the size of the group as a 32-bit number, TIME_FIRST the least start and TIME_LAST the greatest end. */
  lemma {:induction false} CountAndTimes(fields: seq<Field>, g: seq<Record>)
    requires Group(fields, g)
    ensures var s := Summarize(fields, g);
            s.count == |g| % 0x1_0000_0000 && IsMinimum(s.timeFirst, g) && IsMaximum(s.timeLast, g)
  {
    hide ApplyAll, Fits, IsMinimum, IsMaximum;
    var n := |g| - 1;
    assert g == g[..n] + [g[n]] && g[n] in g;
    if n == 0 {
      OnlyOne(g);
    } else {
      CountAndTimes(fields, g[..n]);
      var s := Summarize(fields, g[..n]);
      MinimumAppend(s.timeFirst, g[..n], g[n]);
      MaximumAppend(s.timeLast, g[..n], g[n]);
      NextCount(n);
    }
  }

  lemma NextCount(n: nat)
    ensures (n % 0x1_0000_0000 + 1) % 0x1_0000_0000 == (n + 1) % 0x1_0000_0000
  {}

  /** An average that is sent is the sum of the members, divided once by their number, integers rounded towards zero. */
  lemma AverageIsMean(fields: seq<Field>, g: seq<Record>, i: nat)
    requires Group(fields, g) && i < |fields| && |g| < 0x1_0000_0000
    requires fields[i].function_ == Avg && (fields[i].type_.IntType? || fields[i].type_.RealType?)
    ensures Fits(fields, Summarize(fields, g).values) && CanDivide(fields, Summarize(fields, g).count)
    ensures var t, sent := fields[i].type_, Prepared(fields, Summarize(fields, g)).values[i];
            var sum := Total(Column(fields, g, i));
            if t.RealType? then sent == Real(RealTotal(Column(fields, g, i)) / |g| as real)
            else InRange(t, sum) ==> (sent == Int(TruncatedQuotient(sum, |g|)) <==> AverageIsExact(t, sum, |g|))
  {
    hide Group, Summarize, Fold, Averaged, AverageIsExact, TruncatedQuotient, InRange, HasType, Column, Prepared;
    hide Total, RealTotal, Fits;
    SentAverage(fields, g, i);
    var t, vs := fields[i].type_, Column(fields, g, i);
    if t.RealType? {
      RealAverage(t, vs);
    } else if InRange(t, Total(vs)) {
      AverageOfColumn(t, vs);
    }
  }

  lemma SentAverage(fields: seq<Field>, g: seq<Record>, i: nat)
    requires Group(fields, g) && i < |fields| && |g| < 0x1_0000_0000
    requires fields[i].function_ == Avg && (fields[i].type_.IntType? || fields[i].type_.RealType?)
    ensures |g| > 0 && Fits(fields, Summarize(fields, g).values) && CanDivide(fields, Summarize(fields, g).count)
    ensures var t, v := fields[i].type_, Fold(Avg, fields[i].type_, Column(fields, g, i));
            Prepared(fields, Summarize(fields, g)).values[i] == Averaged(t, v, |g|)
  {
    hide Group, Summarize, Fold, Averaged, HasType, IsMinimum, IsMaximum;
    CountAndTimes(fields, g);
    GroupNotEmpty(fields, g);
    FieldIsFold(fields, g, i);
  }

  lemma RealAverage(t: FieldType, vs: seq<Value>)
    requires Values(t, vs) && t.RealType? && |vs| < 0x1_0000_0000
    ensures Averaged(t, Fold(Avg, t, vs), |vs|) == Real(RealTotal(vs) / |vs| as real)
  {
    FoldSum(Avg, t, vs);
  }

  lemma GroupNotEmpty(fields: seq<Field>, g: seq<Record>)
    requires Group(fields, g)
    ensures g != []
  {}

  lemma AverageOfColumn(t: FieldType, vs: seq<Value>)
    requires Values(t, vs) && t.IntType? && |vs| < 0x1_0000_0000 && InRange(t, Total(vs))
    ensures Averaged(t, Fold(Avg, t, vs), |vs|) == Int(TruncatedQuotient(Total(vs), |vs|))
            <==> AverageIsExact(t, Total(vs), |vs|)
  {
    FoldSum(Avg, t, vs);
    hide Fold, Wrap, MakeAvg, AverageIsExact, TruncatedQuotient;
    WrapInRange(t, Total(vs));
    MakeAvgExactly(t, Total(vs), |vs|);
  }
}
