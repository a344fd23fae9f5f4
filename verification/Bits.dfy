/** The bits of bytes and byte strings, the most significant bit of the first byte being bit 0. */
module Bits {
  function BitValue(b: bv8, m: nat): bv8
    requires m < 8
  {
    (b >> (7 - m)) & 1
  }

  function ByteBit(b: bv8, m: nat): bool
    requires m < 8
  {
    BitValue(b, m) == 1
  }

  function Bit(s: seq<bv8>, k: nat): bool
    requires k < 8 * |s|
  {
    ByteBit(s[k / 8], k % 8)
  }

  // x and y have the same bits in the range
  ghost predicate SameBits(x: seq<bv8>, y: seq<bv8>, from: nat, to: nat) {
    && to <= 8 * |x| && to <= 8 * |y|
    && forall k :: from <= k < to ==> Bit(x, k) == Bit(y, k)
  }

  lemma SameByte(a: bv8, b: bv8)
    requires forall m :: 0 <= m < 8 ==> ByteBit(a, m) == ByteBit(b, m)
    ensures a == b
  {
    assert ByteBit(a, 0) == ByteBit(b, 0) && ByteBit(a, 1) == ByteBit(b, 1);
    assert ByteBit(a, 2) == ByteBit(b, 2) && ByteBit(a, 3) == ByteBit(b, 3);
    assert ByteBit(a, 4) == ByteBit(b, 4) && ByteBit(a, 5) == ByteBit(b, 5);
    assert ByteBit(a, 6) == ByteBit(b, 6) && ByteBit(a, 7) == ByteBit(b, 7);
  }

  /** A byte string is determined by its bits. */
  lemma SameString(x: seq<bv8>, y: seq<bv8>)
    requires |x| == |y| && SameBits(x, y, 0, 8 * |x|)
    ensures x == y
  {
    hide ByteBit;
    forall i | 0 <= i < |x|
      ensures x[i] == y[i]
    {
      forall m | 0 <= m < 8
        ensures ByteBit(x[i], m) == ByteBit(y[i], m)
      {
        assert (8 * i + m) / 8 == i && (8 * i + m) % 8 == m;
        assert Bit(x, 8 * i + m) == Bit(y, 8 * i + m);
      }
      SameByte(x[i], y[i]);
    }
  }

  lemma FlipBitValue(b: bv8, x: bv8, n: nat, m: nat)
    requires n < 8 && m < 8
    ensures ((b ^ ((x & 0x80) >> n)) >> (7 - m)) & 1 == ((b >> (7 - m)) & 1) ^ (if m == n then x >> 7 else 0)
  {}

  lemma XorOfBits(p: bv8, q: bv8)
    ensures ((p & 1) ^ (q >> 7) == 1) == ((p & 1 == 1) != (q >> 7 == 1))
    ensures (q >> 7) & 1 == q >> 7
    ensures (p & 1) ^ 0 == p & 1
  {}

  /** Exclusive or with the first bit of x, moved to position n, changes bit n and no other. */
  lemma FlipBit(b: bv8, x: bv8, n: nat, m: nat)
    requires n < 8 && m < 8
    ensures ByteBit(b ^ ((x & 0x80) >> n), m) == if m == n then ByteBit(b, m) != ByteBit(x, 0) else ByteBit(b, m)
  {
    FlipBitValue(b, x, n, m);
    XorOfBits(b >> (7 - m), x);
  }

  // y is x with bit k changed if flip says so
  ghost predicate Flipped(x: seq<bv8>, y: seq<bv8>, k: nat, flip: bool) {
    && |x| == |y|
    && forall i :: 0 <= i < 8 * |x| ==> Bit(y, i) == if i == k then Bit(x, i) != flip else Bit(x, i)
  }

  // a new byte with bit k changed
  lemma FlippedByte(s: seq<bv8>, b: bv8, k: nat, flip: bool)
    requires k < 8 * |s|
    requires forall m :: 0 <= m < 8 ==>
      ByteBit(b, m) == if m == k % 8 then ByteBit(s[k / 8], m) != flip else ByteBit(s[k / 8], m)
    ensures Flipped(s, s[k / 8 := b], k, flip)
  {
    hide ByteBit;
    forall i | 0 <= i < 8 * |s|
      ensures Bit(s[k / 8 := b], i) == if i == k then Bit(s, i) != flip else Bit(s, i)
    {
      if i / 8 == k / 8 {
        assert ByteBit(b, i % 8)
               == if i % 8 == k % 8 then ByteBit(s[k / 8], i % 8) != flip else ByteBit(s[k / 8], i % 8);
      }
    }
  }

  lemma FlipBitOf(s: seq<bv8>, x: bv8, k: nat)
    requires k < 8 * |s|
    ensures Flipped(s, s[k / 8 := s[k / 8] ^ ((x & 0x80) >> (k % 8))], k, ByteBit(x, 0))
  {
    hide Bit, ByteBit, Flipped;
    forall m | 0 <= m < 8 {
      FlipBit(s[k / 8], x, k % 8, m);
    }
    FlippedByte(s, s[k / 8] ^ ((x & 0x80) >> (k % 8)), k, ByteBit(x, 0));
  }
}
