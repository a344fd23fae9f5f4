/** Addresses as bit strings, and the inputs that panonymizer.c blends from an address prefix and its pad. */
module AddressBits {
  import opened Bits
  import opened PrefixPreserving

  type Bytes = seq<bv8>

  // ---- bit strings and bytes ----

  function BitsOf(s: Bytes): (b: BitString)
    ensures |b| == 8 * |s|
    ensures forall k :: 0 <= k < |b| ==> b[k] == Bit(s, k)
  {
    seq(8 * |s|, k requires 0 <= k < 8 * |s| => Bit(s, k))
  }

  lemma BitsDetermine(s: Bytes, t: Bytes)
    requires BitsOf(s) == BitsOf(t)
    ensures s == t
  {
    hide Bit;
    assert |s| == |t|;
    forall k | 0 <= k < 8 * |s|
      ensures Bit(s, k) == Bit(t, k)
    {
      assert BitsOf(s)[k] == BitsOf(t)[k];
    }
    SameString(s, t);
  }

  function Pack(b0: bool, b1: bool, b2: bool, b3: bool, b4: bool, b5: bool, b6: bool, b7: bool): bv8 {
    (if b0 then 0x80 else 0) | (if b1 then 0x40 else 0) | (if b2 then 0x20 else 0) | (if b3 then 0x10 else 0) |
    (if b4 then 0x08 else 0) | (if b5 then 0x04 else 0) | (if b6 then 0x02 else 0) | (if b7 then 0x01 else 0)
  }

  lemma PackBits(b0: bool, b1: bool, b2: bool, b3: bool, b4: bool, b5: bool, b6: bool, b7: bool)
    ensures var b := Pack(b0, b1, b2, b3, b4, b5, b6, b7);
            && ByteBit(b, 0) == b0 && ByteBit(b, 1) == b1 && ByteBit(b, 2) == b2 && ByteBit(b, 3) == b3
            && ByteBit(b, 4) == b4 && ByteBit(b, 5) == b5 && ByteBit(b, 6) == b6 && ByteBit(b, 7) == b7
  {}

  // bit k of the prefix, or of the pad where the prefix has ended
  function BlendBit(pad: Bytes, prefix: BitString, k: nat): bool
    requires k < 8 * |pad|
  {
    if k < |prefix| then prefix[k] else Bit(pad, k)
  }

  function BlendByte(pad: Bytes, prefix: BitString, i: nat): bv8
    requires i < |pad|
  {
    Pack(BlendBit(pad, prefix, 8 * i), BlendBit(pad, prefix, 8 * i + 1), BlendBit(pad, prefix, 8 * i + 2),
         BlendBit(pad, prefix, 8 * i + 3), BlendBit(pad, prefix, 8 * i + 4), BlendBit(pad, prefix, 8 * i + 5),
         BlendBit(pad, prefix, 8 * i + 6), BlendBit(pad, prefix, 8 * i + 7))
  }

  // the input of the pseudorandom function: the prefix, filled up from the pad
  function Blend(pad: Bytes, prefix: BitString): (x: Bytes)
    ensures |x| == |pad|
  {
    seq(|pad|, i requires 0 <= i < |pad| => BlendByte(pad, prefix, i))
  }

  lemma BlendBits(pad: Bytes, prefix: BitString, k: nat)
    requires k < 8 * |pad|
    ensures Bit(Blend(pad, prefix), k) == BlendBit(pad, prefix, k)
  {
    hide ByteBit, Bit, Pack, BlendBit;
    var i := k / 8;
    PackBits(BlendBit(pad, prefix, 8 * i), BlendBit(pad, prefix, 8 * i + 1), BlendBit(pad, prefix, 8 * i + 2),
             BlendBit(pad, prefix, 8 * i + 3), BlendBit(pad, prefix, 8 * i + 4), BlendBit(pad, prefix, 8 * i + 5),
             BlendBit(pad, prefix, 8 * i + 6), BlendBit(pad, prefix, 8 * i + 7));
    BitAt(Blend(pad, prefix), i, k % 8);
  }

  lemma BitAt(s: Bytes, i: nat, m: nat)
    requires i < |s| && m < 8
    ensures Bit(s, 8 * i + m) == ByteBit(s[i], m)
  {
    hide ByteBit;
  }

  // A string with those bits is the blend.
  lemma BlendIs(pad: Bytes, prefix: BitString, s: Bytes)
    requires |s| == |pad| && forall k :: 0 <= k < 8 * |pad| ==> Bit(s, k) == BlendBit(pad, prefix, k)
    ensures s == Blend(pad, prefix)
  {
    hide Bit, BlendBit;
    forall k | 0 <= k < 8 * |pad|
      ensures Bit(s, k) == Bit(Blend(pad, prefix), k)
    {
      BlendBits(pad, prefix, k);
    }
    SameString(s, Blend(pad, prefix));
  }

  // ---- the byte operations of the IPv6 code; shifts past the end of a byte drop out of it ----

  // the first n bits of o, the others of p
  function MixByte(o: bv8, p: bv8, n: nat): bv8
    requires n < 8
  {
    Or(And(o, 0xff << (8 - n)), And(p, 0xff >> n))
  }

  // the bit, 0 or 1, moved to position n
  function SetBit(r: bv8, bit: bv8, n: nat): bv8
    requires n < 8
  {
    Or(r, bit << (7 - n))
  }

  // C compares the bytes shifted in 32 bits, so it sees the bits 0 .. n at once.
  function Shifted(x: bv8, n: nat): bv32
    requires n < 8
  {
    ((x as bv32) << n) >> 7
  }

  function And(x: bv8, y: bv8): bv8 { x & y }
  function Or(x: bv8, y: bv8): bv8 { x | y }
  function Xor(x: bv8, y: bv8): bv8 { x ^ y }

  lemma AndValue(x: bv8, y: bv8, m: nat)
    requires m < 8
    ensures BitValue(And(x, y), m) == And(BitValue(x, m), BitValue(y, m))
  {
    calc {
      BitValue(And(x, y), m);
      BitValue(x & y, m);
      ((x & y) >> (7 - m)) & 1;
      ((x >> (7 - m)) & 1) & ((y >> (7 - m)) & 1);
      And((x >> (7 - m)) & 1, (y >> (7 - m)) & 1);
      And(BitValue(x, m), BitValue(y, m));
    }
  }

  lemma OrValue(x: bv8, y: bv8, m: nat)
    requires m < 8
    ensures BitValue(Or(x, y), m) == Or(BitValue(x, m), BitValue(y, m))
  {
    calc {
      BitValue(Or(x, y), m);
      BitValue(x | y, m);
      ((x | y) >> (7 - m)) & 1;
      ((x >> (7 - m)) & 1) | ((y >> (7 - m)) & 1);
      Or((x >> (7 - m)) & 1, (y >> (7 - m)) & 1);
      Or(BitValue(x, m), BitValue(y, m));
    }
  }

  lemma XorValue(x: bv8, y: bv8, m: nat)
    requires m < 8
    ensures BitValue(Xor(x, y), m) == Xor(BitValue(x, m), BitValue(y, m))
  {
    calc {
      BitValue(Xor(x, y), m);
      BitValue(x ^ y, m);
      ((x ^ y) >> (7 - m)) & 1;
      ((x >> (7 - m)) & 1) ^ ((y >> (7 - m)) & 1);
      Xor((x >> (7 - m)) & 1, (y >> (7 - m)) & 1);
      Xor(BitValue(x, m), BitValue(y, m));
    }
  }

  lemma OneBit(b: bv8, m: nat)
    requires m < 8
    ensures BitValue(b, m) == 0 || BitValue(b, m) == 1
  {}

  lemma OpTables()
    ensures And(0, 0) == And(0, 1) == And(1, 0) == 0 && And(1, 1) == 1
    ensures Or(0, 0) == 0 && Or(0, 1) == Or(1, 0) == Or(1, 1) == 1
    ensures Xor(0, 0) == Xor(1, 1) == 0 && Xor(0, 1) == Xor(1, 0) == 1
  {}

  lemma OpBits(x: bv8, y: bv8, m: nat)
    requires m < 8
    ensures ByteBit(And(x, y), m) == (ByteBit(x, m) && ByteBit(y, m))
    ensures ByteBit(Or(x, y), m) == (ByteBit(x, m) || ByteBit(y, m))
    ensures ByteBit(Xor(x, y), m) == (ByteBit(x, m) != ByteBit(y, m))
  {
    hide BitValue, And, Or, Xor;
    AndValue(x, y, m);
    OrValue(x, y, m);
    XorValue(x, y, m);
    OneBit(x, m);
    OneBit(y, m);
    OpTables();
  }

  lemma MaskBits(n: nat, m: nat)
    requires n < 8 && m < 8
    ensures ByteBit(0xff << (8 - n), m) == (m < n)
    ensures ByteBit(0xff >> n, m) == (m >= n)
    ensures !ByteBit(0 << (7 - n), m) && ByteBit(1 << (7 - n), m) == (m == n)
  {}

  lemma MixByteBit(o: bv8, p: bv8, n: nat, m: nat)
    requires n < 8 && m < 8
    ensures ByteBit(MixByte(o, p, n), m) == if m < n then ByteBit(o, m) else ByteBit(p, m)
  {
    hide ByteBit, And, Or;
    MaskBits(n, m);
    OpBits(o, 0xff << (8 - n), m);
    OpBits(p, 0xff >> n, m);
    OpBits(And(o, 0xff << (8 - n)), And(p, 0xff >> n), m);
  }

  lemma SetBitBit(r: bv8, bit: bv8, n: nat, m: nat)
    requires n < 8 && m < 8 && (bit == 0 || bit == 1)
    ensures ByteBit(SetBit(r, bit, n), m) == (ByteBit(r, m) || (m == n && bit == 1))
  {
    hide ByteBit, Or;
    MaskBits(n, m);
    OpBits(r, bit << (7 - n), m);
  }

  function Right(x: bv8, s: nat): bv8
    requires s < 8
  {
    x >> s
  }

  lemma RightValue(x: bv8, s: nat, m: nat)
    requires s < 8 && m < 8
    ensures BitValue(Right(x, s), m) == if m >= s then BitValue(x, m - s) else 0
  {
    calc {
      BitValue(Right(x, s), m);
      BitValue(x >> s, m);
      ((x >> s) >> (7 - m)) & 1;
      if m >= s then (x >> (7 - (m - s))) & 1 else 0;
      if m >= s then BitValue(x, m - s) else 0;
    }
  }

  lemma WidthsAgree(x: bv8, y: bv8)
    ensures x as bv32 == y as bv32 <==> x == y
  {}

  /** Once the bits before n agree, the wide comparison decides bit n. */
  lemma ShiftedEqual(x: bv8, y: bv8, n: nat)
    requires n < 8
    requires forall m :: 0 <= m < n ==> ByteBit(x, m) == ByteBit(y, m)
    ensures Shifted(x, n) == Shifted(y, n) <==> ByteBit(x, n) == ByteBit(y, n)
  {
    hide BitValue, Right, Shifted;
    var s := 7 - n;
    ShiftedIsRight(x, n);
    ShiftedIsRight(y, n);
    WidthsAgree(Right(x, s), Right(y, s));
    if ByteBit(x, n) == ByteBit(y, n) {
      RightSame(x, y, n);
    } else {
      RightValue(x, s, 7);
      RightValue(y, s, 7);
    }
  }

  lemma RightSame(x: bv8, y: bv8, n: nat)
    requires n < 8
    requires forall m :: 0 <= m <= n ==> ByteBit(x, m) == ByteBit(y, m)
    ensures Right(x, 7 - n) == Right(y, 7 - n)
  {
    hide BitValue, Right;
    var s := 7 - n;
    forall m | 0 <= m < 8
      ensures ByteBit(Right(x, s), m) == ByteBit(Right(y, s), m)
    {
      RightValue(x, s, m);
      RightValue(y, s, m);
      if m >= s {
        assert ByteBit(x, m - s) == ByteBit(y, m - s);
      }
    }
    SameByte(Right(x, s), Right(y, s));
  }

  lemma ShiftedIsRight(x: bv8, n: nat)
    requires n < 8
    ensures Shifted(x, n) == Right(x, 7 - n) as bv32
  {
    calc {
      Shifted(x, n);
      ((x as bv32) << n) >> 7;
      (x >> (7 - n)) as bv32;
      Right(x, 7 - n) as bv32;
    }
  }
}
