/** Sub-lists of the elements with a property, in order. */
module Filters {
  function Filter<T>(p: T -> bool, s: seq<T>): seq<T> {
    if s == [] then []
    else if p(s[0]) then [s[0]] + Filter(p, s[1..])
    else Filter(p, s[1..])
  }

  function Without<T>(s: seq<T>, i: nat): seq<T>
    requires i < |s|
  {
    s[..i] + s[i + 1..]
  }

  lemma {:induction false} FilterConcat<T>(p: T -> bool, x: seq<T>, y: seq<T>)
    ensures Filter(p, x + y) == Filter(p, x) + Filter(p, y)
  {
    hide Filter;
    if x == [] {
      FilterNone(p);
      assert x + y == y;
    } else {
      FilterHead(p, x);
      FilterHead(p, x + y);
      FilterConcat(p, x[1..], y);
      assert (x + y)[1..] == x[1..] + y;
    }
  }

  lemma FilterNone<T>(p: T -> bool)
    ensures Filter(p, []) == []
  {}

  lemma FilterHead<T>(p: T -> bool, s: seq<T>)
    requires s != []
    ensures Filter(p, s) == (if p(s[0]) then [s[0]] else []) + Filter(p, s[1..])
  {}

  lemma FilterAppend<T>(p: T -> bool, s: seq<T>, x: T)
    ensures Filter(p, s + [x]) == if p(x) then Filter(p, s) + [x] else Filter(p, s)
  {
    FilterConcat(p, s, [x]);
  }

  lemma FilterTake<T>(p: T -> bool, s: seq<T>, n: nat)
    requires n < |s|
    ensures Filter(p, s[..n + 1]) == if p(s[n]) then Filter(p, s[..n]) + [s[n]] else Filter(p, s[..n])
  {
    FilterAppend(p, s[..n], s[n]);
    assert s[..n + 1] == s[..n] + [s[n]];
  }

  lemma {:induction false} FilterHolds<T>(p: T -> bool, s: seq<T>)
    ensures forall x :: x in Filter(p, s) <==> x in s && p(x)
  {
    if s != [] {
      FilterHolds(p, s[1..]);
    }
  }

  lemma {:induction false} FilterSame<T>(p: T -> bool, q: T -> bool, s: seq<T>)
    requires forall x :: p(x) <==> q(x)
    ensures Filter(p, s) == Filter(q, s)
  {
    if s != [] {
      FilterSame(p, q, s[1..]);
    }
  }

  lemma {:induction false} FilterCount<T>(p: T -> bool, s: seq<T>)
    ensures forall x :: multiset(Filter(p, s))[x] == if p(x) then multiset(s)[x] else 0
  {
    if s != [] {
      FilterCount(p, s[1..]);
      assert s == [s[0]] + s[1..];
    }
  }

  lemma {:induction false} FilterCommutes<T>(p: T -> bool, q: T -> bool, s: seq<T>)
    ensures Filter(p, Filter(q, s)) == Filter(q, Filter(p, s))
  {
    if s != [] {
      FilterCommutes(p, q, s[1..]);
    }
  }

  /** What has the property and what has not are all there is. */
  lemma {:induction false} FilterSplits<T>(p: T -> bool, q: T -> bool, s: seq<T>)
    requires forall x :: q(x) == !p(x)
    ensures multiset(Filter(p, s)) + multiset(Filter(q, s)) == multiset(s)
  {
    if s != [] {
      FilterSplits(p, q, s[1..]);
      assert s == [s[0]] + s[1..];
    }
  }

  lemma WithoutRemoves<T>(s: seq<T>, i: nat)
    requires i < |s|
    ensures multiset(s) == multiset(Without(s, i)) + multiset{s[i]}
  {
    assert s == s[..i] + [s[i]] + s[i + 1..];
  }

  /** Of the elements around position i, those after it follow those before it. */
  lemma FilterAround<T>(p: T -> bool, s: seq<T>, i: nat)
    requires i < |s|
    ensures Filter(p, s) == if p(s[i]) then Filter(p, s[..i]) + [s[i]] + Filter(p, s[i + 1..])
                            else Filter(p, s[..i]) + Filter(p, s[i + 1..])
    ensures Filter(p, Without(s, i)) == Filter(p, s[..i]) + Filter(p, s[i + 1..])
  {
    hide Filter;
    FilterMiddle(p, s[..i], s[i], s[i + 1..]);
    FilterConcat(p, s[..i], s[i + 1..]);
    Around(s, i);
  }

  lemma Around<T>(s: seq<T>, i: nat)
    requires i < |s|
    ensures s[..i] + [s[i]] + s[i + 1..] == s
  {}

  lemma FilterMiddle<T>(p: T -> bool, x: seq<T>, e: T, y: seq<T>)
    ensures Filter(p, x + [e] + y) == if p(e) then Filter(p, x) + [e] + Filter(p, y) else Filter(p, x) + Filter(p, y)
  {
    hide Filter;
    FilterAppend(p, x, e);
    FilterConcat(p, x + [e], y);
  }
}
