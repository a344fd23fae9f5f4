/** The fold that turns a 32-bit hash into one bit: it is the parity of the hash. */
module Parity {
  import opened Bits
  import opened Cipher
  import opened KeyExpansion
  import opened PrefixPreserving
  import opened AddressBits
  import opened AddressWords
  import opened Anonymizer

  // whether an odd number of the bits is set
  function Odd(b: BitString): bool {
    if b == [] then false else Odd(b[..|b| - 1]) != b[|b| - 1]
  }

  lemma {:induction false} OddConcat(x: BitString, y: BitString)
    ensures Odd(x + y) == (Odd(x) != Odd(y))
  {
    if y == [] {
      assert x + y == x;
    } else {
      var z := x + y;
      assert z[..|z| - 1] == x + y[..|y| - 1];
      OddConcat(x, y[..|y| - 1]);
    }
  }

  lemma {:induction false} OddXor(x: BitString, y: BitString, z: BitString)
    requires |x| == |y| == |z| && forall i :: 0 <= i < |x| ==> z[i] == (x[i] != y[i])
    ensures Odd(z) == (Odd(x) != Odd(y))
  {
    if x != [] {
      OddXor(x[..|x| - 1], y[..|y| - 1], z[..|z| - 1]);
    }
  }

  // the last n bits
  function Tail(b: BitString, n: nat): BitString
    requires n <= |b|
  {
    b[|b| - n..]
  }

  // Folding the upper half of the last 2n bits onto the lower half keeps their parity.
  lemma FoldKeepsOdd(h: BitString, g: BitString, n: nat)
    requires |h| == |g| == 32 && 2 * n <= 32
    requires forall i :: 32 - n <= i < 32 ==> g[i] == (h[i] != h[i - n])
    ensures Odd(Tail(g, n)) == Odd(Tail(h, 2 * n))
  {
    var x, y := h[32 - 2 * n..32 - n], h[32 - n..];
    OddXor(y, x, Tail(g, n));
    assert Tail(h, 2 * n) == x + y;
    OddConcat(x, y);
  }

  lemma ShiftValue(h: bv32, s: bv8, k: bv8, j: bv8)
    requires s == 4 || s == 8 || s == 16
    requires j < 32 && k < 32 && k == j + s
    ensures WordValue(ShiftRight(h, s), k) == WordValue(h, j)
  {
    calc {
      WordValue(ShiftRight(h, s), k);
      WordValue(h >> s, k);
      (h >> s << k) >> 31;
      (h << j) >> 31;
      WordValue(h, j);
    }
  }

  lemma SumOfIndices(a: bv8, b: bv8, c: bv8)
    requires a as int == b as int + c as int && a < 32
    ensures a == b + c
  {}

  lemma FoldedBit(h: bv32, s: nat, i: nat)
    requires s == 4 || s == 8 || s == 16
    requires s <= i < 32
    ensures s as bv8 < 32
    ensures WordBits(XorWord(h, ShiftRight(h, s as bv8)))[i] == (WordBits(h)[i] != WordBits(h)[i - s])
  {
    hide WordBits, XorWord, ShiftRight;
    ShiftedBit(h, s, i);
    XorBits(h, ShiftRight(h, s as bv8), i);
  }

  lemma ShiftedBit(h: bv32, s: nat, i: nat)
    requires s == 4 || s == 8 || s == 16
    requires s <= i < 32
    ensures s as bv8 < 32
    ensures WordBits(ShiftRight(h, s as bv8))[i] == WordBits(h)[i - s]
  {
    hide WordBits, WordValue, ShiftRight;
    SmallIndex(i);
    SmallIndex(s);
    SmallIndex(i - s);
    SumOfIndices(i as bv8, (i - s) as bv8, s as bv8);
    ShiftValue(h, s as bv8, i as bv8, (i - s) as bv8);
    WordBitAt(ShiftRight(h, s as bv8), i);
    WordBitAt(h, i - s);
  }

  lemma FoldOnce(h: bv32, s: nat)
    requires s == 4 || s == 8 || s == 16
    ensures s as bv8 < 32
    ensures Odd(Tail(WordBits(XorWord(h, ShiftRight(h, s as bv8))), s)) == Odd(Tail(WordBits(h), 2 * s))
  {
    hide WordBits, XorWord, ShiftRight, Odd;
    SmallIndex(s);
    var g := XorWord(h, ShiftRight(h, s as bv8));
    forall i | 32 - s <= i < 32
      ensures WordBits(g)[i] == (WordBits(h)[i] != WordBits(h)[i - s])
    {
      FoldedBit(h, s, i);
    }
    FoldKeepsOdd(WordBits(h), WordBits(g), s);
  }

  lemma NibbleTable(q: bv32)
    requires q < 16
    ensures ((0x6996 as bv32) >> q) & 1 == ((q >> 3) ^ (q >> 2) ^ (q >> 1) ^ q) & 1
  {
    assert q == 0 || q == 1 || q == 2 || q == 3 || q == 4 || q == 5 || q == 6 || q == 7 || q == 8
           || q == 9 || q == 10 || q == 11 || q == 12 || q == 13 || q == 14 || q == 15;
  }

  lemma NibbleBits(h: bv32)
    ensures (((h & 0xf) >> 3) ^ ((h & 0xf) >> 2) ^ ((h & 0xf) >> 1) ^ (h & 0xf)) & 1
            == ((h << 28) >> 31) ^ ((h << 29) >> 31) ^ ((h << 30) >> 31) ^ ((h << 31) >> 31)
  {}

  function Xor4(a: bv32, b: bv32, c: bv32, d: bv32): bv32 {
    XorWord(XorWord(XorWord(a, b), c), d)
  }

  lemma NibbleValue(h: bv32)
    ensures NibbleParity(h) as bv32 == Xor4(WordValue(h, 28), WordValue(h, 29), WordValue(h, 30), WordValue(h, 31))
  {
    calc {
      NibbleParity(h) as bv32;
      (((0x6996 as bv32) >> (h & 0xf)) & 1) as bv8 as bv32;
      ((0x6996 as bv32) >> (h & 0xf)) & 1;
      { NibbleTable(h & 0xf); }
      (((h & 0xf) >> 3) ^ ((h & 0xf) >> 2) ^ ((h & 0xf) >> 1) ^ (h & 0xf)) & 1;
      { NibbleBits(h); }
      ((h << 28) >> 31) ^ ((h << 29) >> 31) ^ ((h << 30) >> 31) ^ ((h << 31) >> 31);
      Xor4((h << 28) >> 31, (h << 29) >> 31, (h << 30) >> 31, (h << 31) >> 31);
      Xor4(WordValue(h, 28), WordValue(h, 29), WordValue(h, 30), WordValue(h, 31));
    }
  }

  lemma NibbleIsOdd(h: bv32)
    ensures NibbleParity(h) == 1 <==> Odd(Tail(WordBits(h), 4))
  {
    hide WordBits, WordValue, XorWord, NibbleParity;
    NibbleValue(h);
    XorTables();
    LastIndices();
    var b := WordBits(h);
    WordBitAt(h, 28);
    WordBitAt(h, 29);
    WordBitAt(h, 30);
    WordBitAt(h, 31);
    ValueIsBit(h, 28);
    ValueIsBit(h, 29);
    ValueIsBit(h, 30);
    ValueIsBit(h, 31);
    OddOfFour(Tail(b, 4));
  }

  lemma LastIndices()
    ensures 28 as int as bv8 == 28 && 29 as int as bv8 == 29 && 30 as int as bv8 == 30 && 31 as int as bv8 == 31
  {}

  lemma OddOfFour(b: BitString)
    requires |b| == 4
    ensures Odd(b) == (((b[0] != b[1]) != b[2]) != b[3])
  {
    assert Odd(b[..3]) == (Odd(b[..3][..2]) != b[2]);
    assert b[..3][..2] == b[..2];
    assert Odd(b[..2]) == (Odd(b[..2][..1]) != b[1]);
    assert b[..2][..1] == b[..1] && Odd(b[..1]) == b[0];
  }

  /** The Murmur branch yields 1 exactly for the hashes with an odd number of set bits. */
  lemma FoldIsParity(h: bv32)
    ensures FoldedParity(h) == 1 <==> Odd(WordBits(h))
  {
    hide WordBits, XorWord, ShiftRight, NibbleParity, Odd;
    FoldOnce(h, 16);
    FoldOnce(Fold16(h), 8);
    FoldOnce(Fold8(Fold16(h)), 4);
    FoldIndices();
    NibbleIsOdd(Fold4(Fold8(Fold16(h))));
    assert Tail(WordBits(h), 32) == WordBits(h);
  }

  lemma FoldIndices()
    ensures 16 as int as bv8 == 16 && 8 as int as bv8 == 8 && 4 as int as bv8 == 4
  {}

  // ---- one bit of an anonymized address ----

  lemma TopBitIs(b: bv8)
    ensures TopBit(b) == 1 <==> b >= 0x80
  {}

  /** The pseudorandom bit is the first one of the ciphertext, or the parity of the hash. */
  lemma RandomValueIs(algorithm: Algorithm, key: CipherKey, x: Bytes)
    requires |x| == 16
    ensures RandomValue(algorithm, key, x) == 1
            <==> match algorithm
                 case RijndaelBc => EncryptWith(key, BlockAt(x, 0)).c0.b0 >= 0x80
                 case MurmurHash3(hash) => Odd(WordBits(hash(x)))
  {
    hide EncryptWith, TopBit, FoldedParity, WordBits;
    match algorithm
    case RijndaelBc => TopBitIs(EncryptWith(key, BlockAt(x, 0)).c0.b0);
    case MurmurHash3(hash) => FoldIsParity(hash(x));
  }

  /**
   * Bit i of an anonymized address: it is changed when the pseudorandom bit of these sixteen bytes is set, the first i
   * bits of which are those of the address, and the others those of the pad.
   */
  lemma AnonymizedBit(algorithm: Algorithm, key: CipherKey, pad: Bytes, a: BitString, i: nat, x: Bytes)
    requires |pad| == |x| == 16 && i < |a| <= 128
    requires forall k :: 0 <= k < 128 ==> Bit(x, k) == if k < i then a[k] else Bit(pad, k)
    ensures Anonymized(Prf(algorithm, key, pad), a)[i]
            == (a[i] != match algorithm
                        case RijndaelBc => EncryptWith(key, BlockAt(x, 0)).c0.b0 >= 0x80
                        case MurmurHash3(hash) => Odd(WordBits(hash(x))))
  {
    hide EncryptWith, RandomValue, WordBits, Bit;
    forall k | 0 <= k < 128
      ensures Bit(Blend(pad, a[..i]), k) == Bit(x, k)
    {
      BlendBits(pad, a[..i], k);
    }
    SameString(Blend(pad, a[..i]), x);
    RandomValueIs(algorithm, key, x);
  }
}
