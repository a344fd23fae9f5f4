/** IPv4 addresses as 32-bit words: what the shifts of panonymizer.c do to single bits. */
module AddressWords {
  import opened Bits
  import opened PrefixPreserving
  import opened AddressBits

  // the four bytes as the code takes them out of a word
  function WordBytes(w: bv32): (b: Bytes)
    ensures |b| == 4
  {
    [(w >> 24) as bv8, ((w << 8) >> 24) as bv8, ((w << 16) >> 24) as bv8, ((w << 24) >> 24) as bv8]
  }

  function WordBits(w: bv32): (b: BitString)
    ensures |b| == 32
  {
    BitsOf(WordBytes(w))
  }

  // bit k, the most significant one being bit 0
  function WordValue(w: bv32, k: bv8): bv32
    requires k < 32
  {
    (w << k) >> 31
  }

  // the address up to bit pos, the pad from there
  function InputWord(a: bv32, p: bv32, pos: bv8): bv32
    requires pos < 32
  {
    if pos == 0 then p else OrWord(HighBits(a, pos), LowBits(p, pos))
  }

  function HighBits(a: bv32, pos: bv8): bv32
    requires 1 <= pos < 32
  {
    (a >> (32 - pos)) << (32 - pos)
  }

  function LowBits(p: bv32, pos: bv8): bv32
    requires pos < 32
  {
    (p << pos) >> pos
  }

  function OrWord(x: bv32, y: bv32): bv32 {
    x | y
  }

  function SetWord(r: bv32, bit: bv32, pos: bv8): bv32
    requires pos < 32
  {
    r | (bit << (31 - pos))
  }

  function XorWord(x: bv32, y: bv32): bv32 {
    x ^ y
  }

  function ShiftRight(x: bv32, s: bv8): bv32
    requires s < 32
  {
    x >> s
  }

  // ---- one bit of each, by its value ----

  lemma HighValue(a: bv32, pos: bv8, k: bv8)
    requires 1 <= pos < 32 && k < 32
    ensures WordValue(HighBits(a, pos), k) == if k < pos then WordValue(a, k) else 0
  {
    calc {
      WordValue(HighBits(a, pos), k);
      WordValue((a >> (32 - pos)) << (32 - pos), k);
      (((a >> (32 - pos)) << (32 - pos)) << k) >> 31;
      if k < pos then (a << k) >> 31 else 0;
      if k < pos then WordValue(a, k) else 0;
    }
  }

  lemma LowValue(p: bv32, pos: bv8, k: bv8)
    requires pos < 32 && k < 32
    ensures WordValue(LowBits(p, pos), k) == if k < pos then 0 else WordValue(p, k)
  {
    calc {
      WordValue(LowBits(p, pos), k);
      WordValue((p << pos) >> pos, k);
      (((p << pos) >> pos) << k) >> 31;
      if k < pos then 0 else (p << k) >> 31;
      if k < pos then 0 else WordValue(p, k);
    }
  }

  lemma OrValue(x: bv32, y: bv32, k: bv8)
    requires k < 32
    ensures WordValue(OrWord(x, y), k) == OrWord(WordValue(x, k), WordValue(y, k))
  {
    calc {
      WordValue(OrWord(x, y), k);
      WordValue(x | y, k);
      ((x | y) << k) >> 31;
      ((x << k) >> 31) | ((y << k) >> 31);
      OrWord((x << k) >> 31, (y << k) >> 31);
      OrWord(WordValue(x, k), WordValue(y, k));
    }
  }

  lemma OrZero(x: bv32)
    ensures OrWord(x, 0) == x && OrWord(0, x) == x
  {}

  lemma InputValue(a: bv32, p: bv32, pos: bv8, k: bv8)
    requires pos < 32 && k < 32
    ensures WordValue(InputWord(a, p, pos), k) == if k < pos then WordValue(a, k) else WordValue(p, k)
  {
    hide WordValue, HighBits, LowBits, OrWord;
    if pos > 0 {
      HighValue(a, pos, k);
      LowValue(p, pos, k);
      OrValue(HighBits(a, pos), LowBits(p, pos), k);
      OrZero(WordValue(a, k));
      OrZero(WordValue(p, k));
    }
  }

  lemma SetValue(r: bv32, bit: bv32, pos: bv8, k: bv8)
    requires pos < 32 && k < 32 && bit <= 1
    ensures WordValue(SetWord(r, bit, pos), k) == if k == pos then WordValue(r, k) | bit else WordValue(r, k)
  {
    calc {
      WordValue(SetWord(r, bit, pos), k);
      WordValue(r | (bit << (31 - pos)), k);
      ((r | (bit << (31 - pos))) << k) >> 31;
      if k == pos then ((r << k) >> 31) | bit else (r << k) >> 31;
      if k == pos then WordValue(r, k) | bit else WordValue(r, k);
    }
  }

  lemma XorValue(x: bv32, y: bv32, k: bv8)
    requires k < 32
    ensures WordValue(XorWord(x, y), k) == XorWord(WordValue(x, k), WordValue(y, k))
  {
    calc {
      WordValue(XorWord(x, y), k);
      WordValue(x ^ y, k);
      ((x ^ y) << k) >> 31;
      ((x << k) >> 31) ^ ((y << k) >> 31);
      XorWord((x << k) >> 31, (y << k) >> 31);
      XorWord(WordValue(x, k), WordValue(y, k));
    }
  }

  lemma ValueIsBit(w: bv32, k: bv8)
    requires k < 32
    ensures WordValue(w, k) == 0 || WordValue(w, k) == 1
  {}

  // ---- from bit positions in the code to positions in the bit string ----

  lemma Octet(i: nat)
    requires i < 8
    ensures i == 0 || i == 1 || i == 2 || i == 3 || i == 4 || i == 5 || i == 6 || i == 7
  {}

  lemma SmallIndex(i: nat)
    requires i < 32
    ensures i as bv8 < 32 && i as bv8 as int == i
  {
    Octet(i / 4);
  }

  lemma BitByIndex(b: bv8, k: bv8, m: nat)
    requires k < 8 && k as int == m
    ensures BitValue(b, m) == (b >> (7 - k)) & 1
  {
    Octet(m);
  }

  lemma ByteOfWord(w: bv32, k: bv8)
    requires k < 8
    ensures (((w >> 24) as bv8 >> (7 - k)) & 1) as bv32 == (w << k) >> 31
    ensures ((((w << 8) >> 24) as bv8 >> (7 - k)) & 1) as bv32 == (w << (8 + k)) >> 31
    ensures ((((w << 16) >> 24) as bv8 >> (7 - k)) & 1) as bv32 == (w << (16 + k)) >> 31
    ensures ((((w << 24) >> 24) as bv8 >> (7 - k)) & 1) as bv32 == (w << (24 + k)) >> 31
  {}

  lemma IndexParts(i: nat)
    requires i < 32
    ensures var k := (i % 8) as bv8;
            && k < 8 && k as int == i % 8
            && i as bv8 == (if i < 8 then k else if i < 16 then 8 + k else if i < 24 then 16 + k else 24 + k)
  {
    Octet(i / 4);
  }

  // one byte of the word against the four positions it can have
  lemma ByteBits(w: bv32, k: bv8, m: nat)
    requires k < 8 && k as int == m
    ensures ByteBit((w >> 24) as bv8, m) == (WordValue(w, k) == 1)
    ensures ByteBit(((w << 8) >> 24) as bv8, m) == (WordValue(w, 8 + k) == 1)
    ensures ByteBit(((w << 16) >> 24) as bv8, m) == (WordValue(w, 16 + k) == 1)
    ensures ByteBit(((w << 24) >> 24) as bv8, m) == (WordValue(w, 24 + k) == 1)
  {
    hide BitValue;
    BitByIndex((w >> 24) as bv8, k, m);
    BitByIndex(((w << 8) >> 24) as bv8, k, m);
    BitByIndex(((w << 16) >> 24) as bv8, k, m);
    BitByIndex(((w << 24) >> 24) as bv8, k, m);
    ByteOfWord(w, k);
  }

  lemma WordBitAt(w: bv32, i: nat)
    requires i < 32
    ensures i as bv8 < 32
    ensures WordBits(w)[i] == (WordValue(w, i as bv8) == 1)
  {
    hide ByteBit, WordValue;
    SmallIndex(i);
    IndexParts(i);
    ByteBits(w, (i % 8) as bv8, i % 8);
  }

  // ---- the word operations on bit strings ----

  lemma IndexOrder(k: bv8, pos: bv8)
    ensures k < pos <==> k as int < pos as int
    ensures k == pos <==> k as int == pos as int
  {}

  lemma NextIndex(pos: bv8)
    requires pos < 32
    ensures (pos + 1) as int == pos as int + 1
  {}

  lemma InputBits(a: bv32, p: bv32, pos: bv8, i: nat)
    requires pos < 32 && i < 32
    ensures WordBits(InputWord(a, p, pos))[i] == if i < pos as int then WordBits(a)[i] else WordBits(p)[i]
  {
    hide WordBits, WordValue, InputWord;
    SmallIndex(i);
    var k := i as bv8;
    IndexOrder(k, pos);
    InputValue(a, p, pos, k);
    WordBitAt(InputWord(a, p, pos), i);
    WordBitAt(a, i);
    WordBitAt(p, i);
  }

  lemma SetBits(r: bv32, bit: bv32, pos: bv8, i: nat)
    requires pos < 32 && i < 32 && (bit == 0 || bit == 1)
    ensures WordBits(SetWord(r, bit, pos))[i] == (WordBits(r)[i] || (i == pos as int && bit == 1))
  {
    hide WordBits, WordValue, SetWord;
    SmallIndex(i);
    var k := i as bv8;
    IndexOrder(k, pos);
    SetValue(r, bit, pos, k);
    ValueIsBit(r, k);
    WordBitAt(SetWord(r, bit, pos), i);
    WordBitAt(r, i);
  }

  lemma XorTables()
    ensures XorWord(0, 0) == XorWord(1, 1) == 0 && XorWord(0, 1) == XorWord(1, 0) == 1
  {}

  lemma XorBits(x: bv32, y: bv32, i: nat)
    requires i < 32
    ensures WordBits(XorWord(x, y))[i] == (WordBits(x)[i] != WordBits(y)[i])
  {
    hide WordBits, WordValue, XorWord;
    SmallIndex(i);
    var k := i as bv8;
    XorValue(x, y, k);
    ValueIsBit(x, k);
    ValueIsBit(y, k);
    XorTables();
    WordBitAt(XorWord(x, y), i);
    WordBitAt(x, i);
    WordBitAt(y, i);
  }

  // the comparison of the inverse looks at one bit of each word
  lemma TopsEqual(x: bv32, y: bv32, pos: bv8)
    requires pos < 32
    ensures WordValue(x, pos) == WordValue(y, pos) <==> WordBits(x)[pos as int] == WordBits(y)[pos as int]
  {
    hide WordBits, WordValue;
    IndexOrder(pos, 32);
    SmallIndex(pos as int);
    IndexOrder(pos as int as bv8, pos);
    ValueIsBit(x, pos);
    ValueIsBit(y, pos);
    WordBitAt(x, pos as int);
    WordBitAt(y, pos as int);
  }

  lemma WordsAreBits(x: bv32, y: bv32)
    requires WordBits(x) == WordBits(y)
    ensures x == y
  {
    hide BitsOf;
    BitsDetermine(WordBytes(x), WordBytes(y));
    assert WordBytes(x)[0] == WordBytes(y)[0] && WordBytes(x)[1] == WordBytes(y)[1];
    assert WordBytes(x)[2] == WordBytes(y)[2] && WordBytes(x)[3] == WordBytes(y)[3];
    BytesAreWord(x, y);
  }

  lemma BytesAreWord(x: bv32, y: bv32)
    requires (x >> 24) as bv8 == (y >> 24) as bv8 && ((x << 8) >> 24) as bv8 == ((y << 8) >> 24) as bv8
    requires ((x << 16) >> 24) as bv8 == ((y << 16) >> 24) as bv8
             && ((x << 24) >> 24) as bv8 == ((y << 24) >> 24) as bv8
    ensures x == y
  {}
}
