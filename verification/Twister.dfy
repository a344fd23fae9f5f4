/** The Mersenne Twister of topn/twister.h: a batch generator in place, against the infinite recurrence. */
module Twister {
  const N := 624
  const M := 397

  // ---- the recurrence on 32-bit words ----

  function Twist(x: bv32, u: bv32, v: bv32): bv32 {
    x ^ (((u & 0x80000000) | (v & 0x7fffffff)) >> 1) ^ (if v & 1 != 0 then 0x9908b0df else 0)
  }

  function Xor(a: bv32, b: bv32): bv32 { a ^ b }

  function Right11(y: bv32): bv32 { Xor(y, y >> 11) }
  function Left7(y: bv32): bv32 { y ^ ((y << 7) & 0x9d2c5680) }
  function Left15(y: bv32): bv32 { y ^ ((y << 15) & 0xefc60000) }
  function Right18(y: bv32): bv32 { Xor(y, y >> 18) }

  function Temper(y: bv32): bv32 {
    Right18(Left15(Left7(Right11(y))))
  }

  // x(k) of the sequence that starts from a seed
  function Word(seed: bv32, k: nat): bv32 {
    if k == 0 then seed | 1
    else if k < N then Next(Word(seed, k - 1))
    else Twist(Word(seed, k - N + M), Word(seed, k - N), Word(seed, k - N + 1))
  }

  // the n-th number of the stream
  function Output(seed: bv32, n: nat): bv32 {
    Temper(Word(seed, N + n))
  }

  // ---- the same arithmetic in the 64 bits of the type uint32 ----

  function Wide(x: bv32): bv64 {
    x as bv64
  }

  function MixBits(u: bv64, v: bv64): bv64 {
    (u & 0x80000000) | (v & 0x7fffffff)
  }

  function WideTwist(x: bv64, u: bv64, v: bv64): bv64 {
    x ^ (MixBits(u, v) >> 1) ^ (if v & 1 != 0 then 0x9908b0df else 0)
  }

  function WideXor(a: bv64, b: bv64): bv64 { a ^ b }

  function WideRight11(y: bv64): bv64 { WideXor(y, y >> 11) }
  function WideLeft7(y: bv64): bv64 { y ^ ((y << 7) & 0x9d2c5680) }
  function WideLeft15(y: bv64): bv64 { y ^ ((y << 15) & 0xefc60000) }
  function WideRight18(y: bv64): bv64 { WideXor(y, y >> 18) }

  lemma MixFits(x: bv32, u: bv32, v: bv32)
    ensures (x as bv64) ^ ((((u as bv64) & 0x80000000) | ((v as bv64) & 0x7fffffff)) >> 1)
            == (x ^ (((u & 0x80000000) | (v & 0x7fffffff)) >> 1)) as bv64
    ensures ((v as bv64) & 1 != 0) == (v & 1 != 0)
  {}

  lemma XorFits(a: bv32, b: bv32)
    ensures WideXor(Wide(a), Wide(b)) == Wide(Xor(a, b))
  {
    assert (a as bv64) ^ (b as bv64) == (a ^ b) as bv64;
  }

  lemma ShiftFits(y: bv32)
    ensures Wide(y) >> 11 == Wide(y >> 11)
    ensures Wide(y) >> 18 == Wide(y >> 18)
  {
    assert (y as bv64) >> 11 == (y >> 11) as bv64;
    assert (y as bv64) >> 18 == (y >> 18) as bv64;
  }

  lemma TwistFits(x: bv32, u: bv32, v: bv32)
    ensures WideTwist(Wide(x), Wide(u), Wide(v)) == Wide(Twist(x, u, v))
  {
    MixFits(x, u, v);
    XorFits(x ^ (((u & 0x80000000) | (v & 0x7fffffff)) >> 1), if v & 1 != 0 then 0x9908b0df else 0);
  }

  lemma Right11Fits(y: bv32)
    ensures WideRight11(Wide(y)) == Wide(Right11(y))
  {
    hide Wide, Xor, WideXor;
    ShiftFits(y);
    XorFits(y, y >> 11);
  }

  lemma Left7Fits(y: bv32)
    ensures WideLeft7(Wide(y)) == Wide(Left7(y))
  {
    assert (y as bv64) ^ (((y as bv64) << 7) & 0x9d2c5680) == (y ^ ((y << 7) & 0x9d2c5680)) as bv64;
  }

  lemma Left15Fits(y: bv32)
    ensures WideLeft15(Wide(y)) == Wide(Left15(y))
  {
    assert (y as bv64) ^ (((y as bv64) << 15) & 0xefc60000) == (y ^ ((y << 15) & 0xefc60000)) as bv64;
  }

  lemma Right18Fits(y: bv32)
    ensures WideRight18(Wide(y)) == Wide(Right18(y))
  {
    hide Wide, Xor, WideXor;
    ShiftFits(y);
    XorFits(y, y >> 18);
  }

  lemma TemperFits(y: bv32)
    ensures WideRight18(WideLeft15(WideLeft7(WideRight11(Wide(y))))) == Wide(Temper(y))
  {
    hide Wide, Right11, Left7, Left15, Right18, WideRight11, WideLeft7, WideLeft15, WideRight18;
    Right11Fits(y);
    Left7Fits(Right11(y));
    Left15Fits(Left7(Right11(y)));
    Right18Fits(Left15(Left7(Right11(y))));
  }

  // the low 32 bits
  function Narrow(x: bv64): bv32 {
    (x & 0xffffffff) as bv32
  }

  function Low(x: bv64): bv64 {
    x & 0xffffffff
  }

  // the step of the seeding generator; the running product is not masked, only what is stored from it is
  function Next(x: bv32): bv32 {
    69069 * x
  }

  function WideNext(x: bv64): bv64 {
    x * 69069
  }

  lemma NarrowOdd(seed: bv64)
    ensures Narrow(seed | 1) == Narrow(seed) | 1
  {
    calc {
      Narrow(seed | 1);
      ((seed | 1) & 0xffffffff) as bv32;
      ((seed & 0xffffffff) as bv32) | 1;
      Narrow(seed) | 1;
    }
  }

  lemma NarrowLow(x: bv64)
    ensures Narrow(Low(x)) == Narrow(x)
  {
    calc {
      Narrow(Low(x));
      Narrow(x & 0xffffffff);
      ((x & 0xffffffff) & 0xffffffff) as bv32;
      (x & 0xffffffff) as bv32;
      Narrow(x);
    }
  }

  lemma LowFits(x: bv64)
    ensures Low(x) == Wide(Narrow(x))
  {
    assert x & 0xffffffff == ((x & 0xffffffff) as bv32) as bv64;
  }

  lemma NextFits(x: bv64)
    ensures Narrow(WideNext(x)) == Next(Narrow(x))
  {
    calc {
      Narrow(WideNext(x));
      Narrow(x * 69069);
      ((x * 69069) & 0xffffffff) as bv32;
      69069 * ((x & 0xffffffff) as bv32);
      Next((x & 0xffffffff) as bv32);
      Next(Narrow(x));
    }
  }

  // ---- the generator ----

  class Generator {
    const state: array<bv64>
    var next: nat
    var left: int
    // the seed of the current sequence, and the number of the words of it that have been drawn
    ghost var seed: bv32
    ghost var drawn: nat
    // the sequence number of state[0]
    ghost var base: nat

    // A never-seeded generator has left == -1 and stands for one seeded with 4357.
    ghost predicate Valid()
      reads this, state
    {
      && state.Length == N + 1
      && -1 <= left < N
      && (left == -1 ==> seed == 4357 && drawn == 0)
      && (left >= 0 ==> drawn + left == base && Holds(state[..], seed, base, N))
      && (left > 0 ==> next == N - left)
    }

    constructor ()
      ensures Valid() && seed == 4357 && drawn == 0 && fresh(state)
    {
      state := new bv64[N + 1];
      next, left := 0, -1;
      seed, drawn, base := 4357, 0, 0;
    }

    method SeedMT(newSeed: bv64)
      requires state.Length == N + 1
      modifies this, state
      ensures Valid() && left == 0 && seed == Narrow(newSeed) && drawn == 0
    {
      hide Wide, Narrow, Low, Next, WideNext, Holds;
      var x := Low(newSeed | 1);
      NarrowOdd(newSeed);
      NarrowLow(newSeed | 1);
      LowFits(newSeed | 1);
      seed, drawn, base := Narrow(newSeed), 0, 0;
      left := 0;
      var s := 0;
      HoldsNothing(state[..], seed, 0);
      HoldsOne(state[..], seed, 0, s, x);
      state[s] := x;
      s := s + 1;
      var j := N - 1;
      while j != 0
        invariant 0 <= j && s + j == N && 1 <= s
        invariant left == 0 && seed == Narrow(newSeed) && drawn == 0 && base == 0
        invariant Narrow(x) == Word(seed, s - 1)
        invariant Holds(state[..], seed, 0, s)
      {
        NextFits(x);
        x := WideNext(x);
        LowFits(x);
        HoldsOne(state[..], seed, 0, s, Low(x));
        state[s] := Low(x);
        s := s + 1;
        j := j - 1;
      }
    }

    // the words whose partner M further on is still an old one
    method ReloadFront() returns (s0: bv64, s1: bv64)
      requires state.Length == N + 1 && HalfReloaded(state[..], seed, base, 0)
      requires state[0] == Wide(Word(seed, base)) && state[1] == Wide(Word(seed, base + 1))
      modifies state
      ensures HalfReloaded(state[..], seed, base, N - M)
      ensures s0 == Wide(Word(seed, base + (N - M))) && s1 == Wide(Word(seed, base + (N - M) + 1))
    {
      hide Wide, WideTwist, Holds, HalfReloaded, Word;
      var p0, p2, pM := 0, 2, M;
      s0, s1 := state[0], state[1];
      var j := N - M;
      while j != 0
        invariant 0 <= j && p0 + j == N - M && p2 == p0 + 2 && pM == p0 + M
        invariant s0 == Wide(Word(seed, base + p0)) && s1 == Wide(Word(seed, base + p0 + 1))
        invariant HalfReloaded(state[..], seed, base, p0)
      {
        OldWord(state[..], seed, base, p0, pM);
        OldWord(state[..], seed, base, p0, p2);
        ReloadStep(state[..], seed, base, p0, state[pM], s0, s1);
        state[p0] := WideTwist(state[pM], s0, s1);
        p0, pM := p0 + 1, pM + 1;
        s0, s1, p2 := s1, state[p2], p2 + 1;
        j := j - 1;
      }
    }

    // the words whose partner, N - M before them, is a new one, but for the last
    method ReloadBack(first: bv64, second: bv64) returns (s0: bv64)
      requires state.Length == N + 1 && HalfReloaded(state[..], seed, base, N - M)
      requires first == Wide(Word(seed, base + (N - M))) && second == Wide(Word(seed, base + (N - M) + 1))
      modifies state
      ensures HalfReloaded(state[..], seed, base, N - 1) && s0 == Wide(Word(seed, base + (N - 1)))
    {
      hide Wide, WideTwist, Holds, HalfReloaded, Word;
      var s1;
      s0, s1 := first, second;
      var p0, p2, pM := N - M, N - M + 2, 0;
      var j := M - 1;
      while j != 0
        invariant 0 <= j && p0 + j == N - 1 && p2 == p0 + 2 && pM == p0 - (N - M)
        invariant s0 == Wide(Word(seed, base + p0))
        invariant p0 + 1 < N ==> s1 == Wide(Word(seed, base + p0 + 1))
        invariant HalfReloaded(state[..], seed, base, p0)
      {
        NewWord(state[..], seed, base, p0, pM);
        if p2 < N {
          OldWord(state[..], seed, base, p0, p2);
        }
        ReloadStep(state[..], seed, base, p0, state[pM], s0, s1);
        state[p0] := WideTwist(state[pM], s0, s1);
        p0, pM := p0 + 1, pM + 1;
        s0, s1, p2 := s1, state[p2], p2 + 1;
        j := j - 1;
      }
    }

    // the last word, which goes with the first new one
    method ReloadLast(s0: bv64) returns (s1: bv64)
      requires state.Length == N + 1 && HalfReloaded(state[..], seed, base, N - 1)
      requires s0 == Wide(Word(seed, base + (N - 1)))
      modifies state
      ensures HalfReloaded(state[..], seed, base, N) && s1 == Wide(Word(seed, base + N))
    {
      hide Wide, WideTwist, HalfReloaded, Word;
      NewWord(state[..], seed, base, N - 1, M - 1);
      NewWord(state[..], seed, base, N - 1, 0);
      s1 := state[0];
      ReloadStep(state[..], seed, base, N - 1, state[M - 1], s0, s1);
      state[N - 1] := WideTwist(state[M - 1], s0, s1);
    }

    /** Replaces the N words by the next N of the sequence, in place, and returns the first of them, tempered. */
    method ReloadMT() returns (r: bv64)
      requires left == -2 || (left == -1 && drawn == base)
      requires state.Length == N + 1
      requires left == -2 ==> seed == 4357 && drawn == 0
      requires left == -1 ==> Holds(state[..], seed, base, N)
      modifies this, state
      ensures Valid() && seed == old(seed) && drawn == old(drawn) + 1
      ensures r == Wide(Output(seed, old(drawn)))
    {
      hide Wide, WideTwist, Holds, HalfReloaded, Word, Temper, WideRight11, WideLeft7, WideLeft15, WideRight18;
      if left < -1 {
        SeedMT(4357);
        DefaultSeed();
      }
      left, next := N - 1, 1;
      NothingReloaded(state[..], seed, base);
      var s0, s1 := ReloadFront();
      s0 := ReloadBack(s0, s1);
      s1 := ReloadLast(s0);
      AllReloaded(state[..], seed, base);
      drawn, base := drawn + 1, base + N;
      TemperFits(Word(seed, base));
      r := WideRight18(WideLeft15(WideLeft7(WideRight11(s1))));
    }

    /** The next number of the stream. */
    method RandomMT() returns (y: bv64)
      requires Valid()
      modifies this, state
      ensures Valid() && seed == old(seed) && drawn == old(drawn) + 1
      ensures y == Wide(Output(seed, old(drawn)))
    {
      hide Wide, Word, Temper, WideRight11, WideLeft7, WideLeft15, WideRight18;
      left := left - 1;
      if left < 0 {
        y := ReloadMT();
        return;
      }
      assert state[..][next] == Wide(Word(seed, base + next));
      TemperFits(Word(seed, base + next));
      y := WideRight18(WideLeft15(WideLeft7(WideRight11(state[next]))));
      next, drawn := next + 1, drawn + 1;
    }
  }

  lemma HoldsNothing(state: seq<bv64>, seed: bv32, base: nat)
    ensures Holds(state, seed, base, 0)
  {}

  lemma HoldsOne(state: seq<bv64>, seed: bv32, base: nat, n: nat, v: bv64)
    requires Holds(state, seed, base, n) && n < |state| && v == Wide(Word(seed, base + n))
    ensures Holds(state[n := v], seed, base, n + 1)
  {}

  // the first i words are of the next batch, the others still of the batch at base
  ghost predicate HalfReloaded(state: seq<bv64>, seed: bv32, base: nat, i: nat) {
    && |state| == N + 1 && i <= N
    && (forall k :: 0 <= k < i ==> state[k] == Wide(Word(seed, base + N + k)))
    && (forall k :: i <= k < N ==> state[k] == Wide(Word(seed, base + k)))
  }

  lemma DefaultSeed()
    ensures Narrow(4357) == 4357
  {}

  lemma NothingReloaded(state: seq<bv64>, seed: bv32, base: nat)
    requires |state| == N + 1 && Holds(state, seed, base, N)
    ensures HalfReloaded(state, seed, base, 0)
    ensures state[0] == Wide(Word(seed, base)) && state[1] == Wide(Word(seed, base + 1))
  {
    hide Word;
  }

  lemma AllReloaded(state: seq<bv64>, seed: bv32, base: nat)
    requires HalfReloaded(state, seed, base, N)
    ensures Holds(state, seed, base + N, N)
  {
    hide Word;
  }

  lemma OldWord(state: seq<bv64>, seed: bv32, base: nat, i: nat, k: nat)
    requires HalfReloaded(state, seed, base, i) && i <= k < N
    ensures state[k] == Wide(Word(seed, base + k))
  {
    hide Word;
  }

  lemma NewWord(state: seq<bv64>, seed: bv32, base: nat, i: nat, k: nat)
    requires HalfReloaded(state, seed, base, i) && k < i
    ensures state[k] == Wide(Word(seed, base + N + k))
  {
    hide Word;
  }

  lemma TwistedWord(seed: bv32, base: nat, i: nat)
    ensures WideTwist(Wide(Word(seed, base + i + M)), Wide(Word(seed, base + i)), Wide(Word(seed, base + i + 1)))
            == Wide(Word(seed, base + N + i))
  {
    hide Wide, Twist, WideTwist;
    TwistFits(Word(seed, base + i + M), Word(seed, base + i), Word(seed, base + i + 1));
    var k := base + N + i;
    assert k - N + M == base + i + M && k - N + 1 == base + i + 1;
  }

  lemma ReloadStep(state: seq<bv64>, seed: bv32, base: nat, i: nat, x: bv64, u: bv64, v: bv64)
    requires HalfReloaded(state, seed, base, i) && i < N
    requires x == Wide(Word(seed, base + i + M))
    requires u == Wide(Word(seed, base + i)) && v == Wide(Word(seed, base + i + 1))
    ensures HalfReloaded(state[i := WideTwist(x, u, v)], seed, base, i + 1)
  {
    hide Wide, WideTwist, Word;
    TwistedWord(seed, base, i);
  }

  // the first n elements are the sequence from its word number base on
  ghost predicate Holds(state: seq<bv64>, seed: bv32, base: nat, n: nat) {
    n <= |state| && forall i :: 0 <= i < n ==> state[i] == Wide(Word(seed, base + i))
  }

  /** The first n numbers after seeding, or without seeding: the stream of the seed, or of 4357. */
  method FirstNumbers(seed: bv64, seeded: bool, n: nat) returns (numbers: seq<bv64>)
    ensures |numbers| == n
    ensures forall i :: 0 <= i < n ==> numbers[i] == Wide(Output(if seeded then Narrow(seed) else 4357, i))
  {
    hide Wide, Narrow, Output;
    var g := new Generator();
    if seeded {
      g.SeedMT(seed);
    }
    numbers := [];
    while |numbers| < n
      invariant g.Valid() && fresh(g) && fresh(g.state)
      invariant g.seed == (if seeded then Narrow(seed) else 4357) && g.drawn == |numbers| <= n
      invariant forall i :: 0 <= i < |numbers| ==> numbers[i] == Wide(Output(g.seed, i))
    {
      var y := g.RandomMT();
      numbers := numbers + [y];
    }
  }

  // ---- the recurrence, written out ----

  lemma FirstWord(seed: bv32)
    ensures Word(seed, 0) == seed | 1
  {}

  /** Each word of the seeding is made of the one before it. */
  lemma Seeding(seed: bv32, k: nat)
    requires k < 623
    ensures Word(seed, k + 1) == Next(Word(seed, k))
  {
    hide Next, Twist;
  }

  /** Namely by a multiplication by 69069. */
  lemma SeedingStep(x: bv32)
    ensures Next(x) == 69069 * x
  {}

  /** After that, x(k + 624) is x(k + 397) + (upper(x(k)) | lower(x(k + 1))) A, with the last row of A 0x9908b0df. */
  lemma Recurrence(seed: bv32, k: nat)
    ensures var y := (Word(seed, k) & 0x80000000) | (Word(seed, k + 1) & 0x7fffffff);
            Word(seed, k + 624) == Word(seed, k + 397) ^ (y >> 1) ^ (if y & 1 == 1 then 0x9908b0df else 0)
  {
    hide Word;
    WordTwists(seed, k);
    LastBit(Word(seed, k), Word(seed, k + 1));
  }

  lemma WordTwists(seed: bv32, k: nat)
    ensures Word(seed, k + 624) == Twist(Word(seed, k + 397), Word(seed, k), Word(seed, k + 1))
  {
    hide Twist;
  }

  lemma LastBit(u: bv32, v: bv32)
    ensures ((u & 0x80000000) | (v & 0x7fffffff)) & 1 == v & 1
    ensures v & 1 == 0 || v & 1 == 1
  {}

  /** The numbers are the words from 624 on, tempered in these four steps. */
  lemma Tempering(seed: bv32, n: nat, y0: bv32, y1: bv32, y2: bv32, y3: bv32)
    requires y0 == Word(seed, 624 + n) && y1 == y0 ^ (y0 >> 11)
    requires y2 == y1 ^ ((y1 << 7) & 0x9d2c5680) && y3 == y2 ^ ((y2 << 15) & 0xefc60000)
    ensures Output(seed, n) == y3 ^ (y3 >> 18)
  {
    hide Word, Right11, Left7, Left15, Right18;
    RightIs(y0, y1, y2, y3);
  }

  lemma RightIs(y0: bv32, y1: bv32, y2: bv32, y3: bv32)
    ensures Right11(y0) == y0 ^ (y0 >> 11)
    ensures Left7(y1) == y1 ^ ((y1 << 7) & 0x9d2c5680)
    ensures Left15(y2) == y2 ^ ((y2 << 15) & 0xefc60000)
    ensures Right18(y3) == y3 ^ (y3 >> 18)
  {}

  lemma OddTimes(x: bv32)
    requires x & 1 == 1
    ensures Next(x) & 3 == x & 3 && Next(x) & 4 != x & 4
  {}

  lemma TwoSteps(x: bv32)
    requires x & 1 == 1
    ensures Next(Next(x)) & 8 != x & 8
    ensures Next(Next(Next(Next(x)))) & 16 != x & 16
  {}

  /**
   * What the comment in the code says about the seeds: the lowest bit is always set, the next one never changes, the
   * one after that alternates, and the two after that have cycles of four and eight.
   */
  lemma {:induction false} LowBitsOfSeeds(seed: bv32, k: nat)
    requires k < 624
    ensures Word(seed, k) & 1 == 1
    ensures Word(seed, k) & 3 == Word(seed, 0) & 3
    ensures k >= 1 ==> Word(seed, k) & 4 != Word(seed, k - 1) & 4
    ensures k >= 2 ==> Word(seed, k) & 8 != Word(seed, k - 2) & 8
    ensures k >= 4 ==> Word(seed, k) & 16 != Word(seed, k - 4) & 16
  {
    if k == 0 {
      FirstWord(seed);
      FirstIsOdd(seed);
    } else {
      LowBitsOfSeeds(seed, k - 1);
      Seeding(seed, k - 1);
      hide Word, Next;
      OddTimes(Word(seed, k - 1));
      LowBit(Word(seed, k), Word(seed, k - 1));
      SeedsBefore(seed, k);
    }
  }

  lemma SeedsBefore(seed: bv32, k: nat)
    requires 0 < k < 624
    ensures k >= 2 ==> Word(seed, k) & 8 != Word(seed, k - 2) & 8
    ensures k >= 4 ==> Word(seed, k) & 16 != Word(seed, k - 4) & 16
  {
    hide Word, Next;
    Seeding(seed, k - 1);
    if k >= 2 {
      Seeding(seed, k - 2);
      OddSeed(seed, k - 2);
      TwoSteps(Word(seed, k - 2));
    }
    if k >= 4 {
      Seeding(seed, k - 3);
      Seeding(seed, k - 4);
      OddSeed(seed, k - 4);
      TwoSteps(Word(seed, k - 4));
    }
  }

  lemma {:induction false} OddSeed(seed: bv32, k: nat)
    requires k < 624
    ensures Word(seed, k) & 1 == 1
  {
    if k == 0 {
      FirstWord(seed);
      FirstIsOdd(seed);
    } else {
      OddSeed(seed, k - 1);
      Seeding(seed, k - 1);
      hide Word, Next;
      OddTimes(Word(seed, k - 1));
      LowBit(Word(seed, k), Word(seed, k - 1));
    }
  }

  lemma FirstIsOdd(seed: bv32)
    ensures (seed | 1) & 1 == 1
  {}

  lemma LowBit(x: bv32, y: bv32)
    requires x & 3 == y & 3
    ensures x & 1 == y & 1
  {
    assert (x & 3) & 1 == x & 1 && (y & 3) & 1 == y & 1;
  }
}
