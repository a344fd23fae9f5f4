/** What anonymization promises about addresses: bijection, prefixes kept, IPv4 and IPv6 alike. */
module Prefixes {
  import opened Bits
  import opened AddressBits
  import opened AddressWords
  import opened PrefixPreserving
  import opened Anonymizer

  // ---- is_from_prefix of prefix_tags_functions.c ----

  datatype Ip = V4(word: bv32) | V6(bytes: Bytes)

  predicate WellFormed(ip: Ip) {
    ip.V6? ==> |ip.bytes| == 16
  }

  function PrefixMask(n: nat): bv32
    requires 1 <= n <= 32
  {
    0xffffffff << (32 - n)
  }

  function AndWord(x: bv32, y: bv32): bv32 {
    x & y
  }

  predicate IsFromPrefix4(ip: bv32, prefix: bv32, n: nat)
    requires 1 <= n <= 32
  {
    AndWord(ip, PrefixMask(n)) == AndWord(prefix, PrefixMask(n))
  }

  predicate IsFromPrefix6(ip: Bytes, prefix: Bytes, n: nat)
    requires |ip| == |prefix| == 16 && n <= 128
  {
    var bytesMatch := ip[..n / 8] == prefix[..n / 8];
    if bytesMatch && n % 8 != 0 then
      var mask: bv8 := 0xff << (8 - n % 8);
      And(ip[n / 8], mask) == And(prefix[n / 8], mask)
    else
      bytesMatch
  }

  predicate IsFromPrefix(ip: Ip, prefix: Ip, n: nat)
    requires WellFormed(ip) && WellFormed(prefix)
    requires if ip.V4? then 1 <= n <= 32 else n <= 128
  {
    if ip.V4? && prefix.V4? then IsFromPrefix4(ip.word, prefix.word, n)
    else if ip.V6? && prefix.V6? then IsFromPrefix6(ip.bytes, prefix.bytes, n)
    else false
  }

  // ---- the masks look at exactly the first n bits ----

  lemma MaskValue(n: nat, k: bv8)
    requires 1 <= n <= 32 && k < 32
    ensures WordValue(PrefixMask(n), k) == if k as int < n then 1 else 0
  {
    if n <= 16 {
      ShortMaskValue(n, k);
    } else {
      LongMaskValue(n, k);
    }
  }

  lemma ShortMaskValue(n: nat, k: bv8)
    requires 1 <= n <= 16 && k < 32
    ensures WordValue(PrefixMask(n), k) == if k as int < n then 1 else 0
  {
    Octet((n - 1) / 4);
  }

  lemma LongMaskValue(n: nat, k: bv8)
    requires 17 <= n <= 32 && k < 32
    ensures WordValue(PrefixMask(n), k) == if k as int < n then 1 else 0
  {
    Octet((n - 1) / 4);
  }

  lemma TopIsBit(x: bv32, k: bv8)
    requires k < 32
    ensures (x << k) >> 31 == (x >> (31 - k)) & 1
  {}

  lemma BitsOfAnd(x: bv32, y: bv32, k: bv8)
    requires k < 32
    ensures ((x & y) >> (31 - k)) & 1 == ((x >> (31 - k)) & 1) & ((y >> (31 - k)) & 1)
  {}

  lemma AndWordValue(x: bv32, y: bv32, k: bv8)
    requires k < 32
    ensures WordValue(AndWord(x, y), k) == AndWord(WordValue(x, k), WordValue(y, k))
  {
    calc {
      WordValue(AndWord(x, y), k);
      (AndWord(x, y) << k) >> 31;
      ((x & y) << k) >> 31;
      { TopIsBit(x & y, k); }
      ((x & y) >> (31 - k)) & 1;
      { BitsOfAnd(x, y, k); }
      ((x >> (31 - k)) & 1) & ((y >> (31 - k)) & 1);
      AndWord((x >> (31 - k)) & 1, (y >> (31 - k)) & 1);
      { TopIsBit(x, k); TopIsBit(y, k); }
      AndWord((x << k) >> 31, (y << k) >> 31);
      AndWord(WordValue(x, k), WordValue(y, k));
    }
  }

  lemma AndTables()
    ensures AndWord(0, 0) == AndWord(0, 1) == AndWord(1, 0) == 0 && AndWord(1, 1) == 1
  {}

  lemma MaskedBits(w: bv32, n: nat, i: nat)
    requires 1 <= n <= 32 && i < 32
    ensures WordBits(AndWord(w, PrefixMask(n)))[i] == (i < n && WordBits(w)[i])
  {
    hide WordBits, WordValue, AndWord, PrefixMask;
    SmallIndex(i);
    var k := i as bv8;
    MaskValue(n, k);
    AndWordValue(w, PrefixMask(n), k);
    ValueIsBit(w, k);
    AndTables();
    WordBitAt(AndWord(w, PrefixMask(n)), i);
    WordBitAt(w, i);
  }

  lemma IsFromPrefix4Bits(ip: bv32, prefix: bv32, n: nat)
    requires 1 <= n <= 32
    ensures IsFromPrefix4(ip, prefix, n) <==> WordBits(ip)[..n] == WordBits(prefix)[..n]
  {
    hide WordBits, AndWord, PrefixMask;
    var x, y := AndWord(ip, PrefixMask(n)), AndWord(prefix, PrefixMask(n));
    forall i | 0 <= i < 32
      ensures WordBits(x)[i] == (i < n && WordBits(ip)[i])
      ensures WordBits(y)[i] == (i < n && WordBits(prefix)[i])
    {
      MaskedBits(ip, n, i);
      MaskedBits(prefix, n, i);
    }
    if x == y {
      forall i | 0 <= i < n
        ensures WordBits(ip)[..n][i] == WordBits(prefix)[..n][i]
      {
        assert WordBits(x)[i] == WordBits(y)[i];
      }
    }
    if WordBits(ip)[..n] == WordBits(prefix)[..n] {
      forall i | 0 <= i < 32
        ensures WordBits(x)[i] == WordBits(y)[i]
      {
        if i < n {
          assert WordBits(ip)[..n][i] == WordBits(prefix)[..n][i];
        }
      }
      WordsAreBits(x, y);
    }
  }

  lemma IsFromPrefix6Bits(ip: Bytes, prefix: Bytes, n: nat)
    requires |ip| == |prefix| == 16 && n <= 128
    ensures IsFromPrefix6(ip, prefix, n) <==> BitsOf(ip)[..n] == BitsOf(prefix)[..n]
  {
    hide BitValue, And;
    var q, m := n / 8, n % 8;
    if BitsOf(ip)[..n] == BitsOf(prefix)[..n] {
      assert forall k :: 0 <= k < n ==> BitsOf(ip)[..n][k] == BitsOf(prefix)[..n][k];
      forall i | 0 <= i < q
        ensures ip[i] == prefix[i]
      {
        SameByteBits(ip, prefix, i, 8);
        SameByte(ip[i], prefix[i]);
      }
      if m != 0 {
        SameByteBits(ip, prefix, q, m);
        SameUnderMask(ip[q], prefix[q], m);
      }
    }
    if IsFromPrefix6(ip, prefix, n) {
      forall k | 0 <= k < n
        ensures Bit(ip, k) == Bit(prefix, k)
      {
        if k / 8 < q {
          assert ip[..q][k / 8] == prefix[..q][k / 8];
        } else {
          MaskTellsBit(ip[q], prefix[q], m, k % 8);
        }
      }
    }
  }

  lemma SameByteBits(x: Bytes, y: Bytes, i: nat, m: nat)
    requires |x| == |y| && i < |x| && m <= 8
    requires forall k :: 0 <= k < 8 * i + m ==> Bit(x, k) == Bit(y, k)
    ensures forall j :: 0 <= j < m ==> ByteBit(x[i], j) == ByteBit(y[i], j)
  {
    hide ByteBit;
    forall j | 0 <= j < m
      ensures ByteBit(x[i], j) == ByteBit(y[i], j)
    {
      BitAt(x, i, j);
      BitAt(y, i, j);
      assert Bit(x, 8 * i + j) == Bit(y, 8 * i + j);
    }
  }

  lemma SameUnderMask(x: bv8, y: bv8, m: nat)
    requires m < 8 && forall j :: 0 <= j < m ==> ByteBit(x, j) == ByteBit(y, j)
    ensures And(x, 0xff << (8 - m)) == And(y, 0xff << (8 - m))
  {
    hide BitValue, And;
    var u, v := And(x, 0xff << (8 - m)), And(y, 0xff << (8 - m));
    forall j | 0 <= j < 8
      ensures ByteBit(u, j) == ByteBit(v, j)
    {
      OpBits(x, 0xff << (8 - m), j);
      OpBits(y, 0xff << (8 - m), j);
      MaskBits(m, j);
    }
    SameByte(u, v);
  }

  lemma MaskTellsBit(x: bv8, y: bv8, m: nat, j: nat)
    requires j < m < 8 && And(x, 0xff << (8 - m)) == And(y, 0xff << (8 - m))
    ensures ByteBit(x, j) == ByteBit(y, j)
  {
    hide BitValue, And;
    OpBits(x, 0xff << (8 - m), j);
    OpBits(y, 0xff << (8 - m), j);
    MaskBits(m, j);
  }

  // ---- the results of the anonymizer ----

  ghost predicate IsAnonymized(f: PrefixBit, a: Ip, b: Ip) {
    match (a, b)
    case (V4(x), V4(y)) => WordBits(y) == Anonymized(f, WordBits(x))
    case (V6(x), V6(y)) => BitsOf(y) == Anonymized(f, BitsOf(x))
    case _ => false
  }

  ghost predicate IsDeanonymized(f: PrefixBit, b: Ip, a: Ip) {
    match (b, a)
    case (V4(y), V4(x)) => WordBits(x) == Deanonymized(f, WordBits(y))
    case (V6(y), V6(x)) => BitsOf(x) == Deanonymized(f, BitsOf(y))
    case _ => false
  }

  /** Deanonymizing the anonymized address gives it back, and the other way round: both maps are bijections. */
  lemma RoundTrip(f: PrefixBit, a: Ip, b: Ip)
    ensures IsAnonymized(f, a, b) <==> IsDeanonymized(f, b, a)
  {
    hide BitsOf, WordBits;
    match (a, b)
    case (V4(x), V4(y)) =>
      DeanonymizeAnonymized(f, WordBits(x));
      AnonymizeDeanonymized(f, WordBits(y));
    case (V6(x), V6(y)) =>
      DeanonymizeAnonymized(f, BitsOf(x));
      AnonymizeDeanonymized(f, BitsOf(y));
    case _ =>
  }

  /** Each address has one image and one preimage. */
  lemma Bijection(f: PrefixBit, a: Ip, b: Ip, a': Ip, b': Ip)
    requires IsAnonymized(f, a, b) && IsAnonymized(f, a', b')
    ensures a == a' <==> b == b'
  {
    hide BitsOf, WordBits;
    RoundTrip(f, a, b);
    RoundTrip(f, a', b');
    if a == a' {
      SameAddress(b, b');
    }
    if b == b' {
      SameAddress(a, a');
    }
  }

  lemma SameAddress(a: Ip, b: Ip)
    requires match (a, b) case (V4(x), V4(y)) => WordBits(x) == WordBits(y)
                          case (V6(x), V6(y)) => BitsOf(x) == BitsOf(y)
                          case _ => false
    ensures a == b
  {
    hide BitsOf, WordBits;
    match (a, b)
    case (V4(x), V4(y)) => WordsAreBits(x, y);
    case (V6(x), V6(y)) => BitsDetermine(x, y);
  }

  /** An address lies in a prefix exactly when its image lies in the prefix that the image of the prefix starts. */
  lemma PrefixMatchesKept(f: PrefixBit, a: Ip, b: Ip, p: Ip, q: Ip, n: nat)
    requires WellFormed(a) && WellFormed(b) && WellFormed(p) && WellFormed(q)
    requires if a.V4? then 1 <= n <= 32 else n <= 128
    requires IsAnonymized(f, a, b) && IsAnonymized(f, p, q)
    ensures IsFromPrefix(a, p, n) <==> IsFromPrefix(b, q, n)
  {
    hide BitsOf, WordBits, IsFromPrefix4, IsFromPrefix6;
    match (a, p)
    case (V4(x), V4(y)) =>
      IsFromPrefix4Bits(x, y, n);
      IsFromPrefix4Bits(b.word, q.word, n);
      PreservesPrefixes(f, WordBits(x), WordBits(y), n);
    case (V6(x), V6(y)) =>
      IsFromPrefix6Bits(x, y, n);
      IsFromPrefix6Bits(b.bytes, q.bytes, n);
      PreservesPrefixes(f, BitsOf(x), BitsOf(y), n);
    case _ =>
  }

  /** The first 32 bits of an anonymized IPv6 address are the anonymized first 32 bits, read as an IPv4 address. */
  lemma FamiliesAgree(f: PrefixBit, x: Bytes, y: Bytes, v: bv32, w: bv32)
    requires |x| == |y| == 16 && IsAnonymized(f, V6(x), V6(y)) && IsAnonymized(f, V4(v), V4(w))
    ensures x[..4] == WordBytes(v) <==> y[..4] == WordBytes(w)
  {
    hide BitsOf;
    HeadBits(x);
    HeadBits(y);
    AnonymizedPrefix(f, BitsOf(x), 32);
    PreservesPrefixes(f, BitsOf(x)[..32], WordBits(v), 32);
    assert BitsOf(x)[..32][..32] == BitsOf(x)[..32] && WordBits(v)[..32] == WordBits(v);
    assert BitsOf(y)[..32] == Anonymized(f, BitsOf(x)[..32]);
    assert WordBits(w)[..32] == WordBits(w);
    assert Anonymized(f, BitsOf(x)[..32])[..32] == Anonymized(f, BitsOf(x)[..32]);
    if BitsOf(x[..4]) == WordBits(v) {
      BitsDetermine(x[..4], WordBytes(v));
    }
    if BitsOf(y[..4]) == WordBits(w) {
      BitsDetermine(y[..4], WordBytes(w));
    }
  }

  lemma HeadBits(x: Bytes)
    requires |x| == 16
    ensures |BitsOf(x)| == 128 && BitsOf(x)[..32] == BitsOf(x[..4])
  {
    hide ByteBit;
  }

  // ---- ip_anonymize of anonymizer.c ----

  datatype Mode = Anonymization | Deanonymization

  // The address is a value here; the field it came from is overwritten with the result.
  method IpAnonymize(p: Panonymizer, ip: Ip, mode: Mode) returns (result: Ip)
    requires p.Valid() && WellFormed(ip)
    ensures WellFormed(result) && (result.V4? <==> ip.V4?)
    ensures match mode
            case Anonymization => IsAnonymized(p.PrfInUse(), ip, result)
            case Deanonymization => IsDeanonymized(p.PrfInUse(), ip, result)
  {
    hide BitsOf, WordBits, Anonymized, Deanonymized;
    match ip
    case V4(word) =>
      var other;
      if mode == Anonymization {
        other := p.Anonymize(word);
      } else {
        other := p.Deanonymize(word);
      }
      result := V4(other);
    case V6(bytes) =>
      var from, to := new bv8[16](i requires 0 <= i < 16 => bytes[i]), new bv8[16];
      assert from[..] == bytes;
      if mode == Anonymization {
        p.AnonymizeV6(from, to);
      } else {
        p.DeanonymizeV6(from, to);
      }
      result := V6(to[..]);
  }

  function Opposite(mode: Mode): Mode {
    match mode case Anonymization => Deanonymization case Deanonymization => Anonymization
  }

  ghost predicate IsImage(f: PrefixBit, mode: Mode, ip: Ip, image: Ip) {
    match mode
    case Anonymization => IsAnonymized(f, ip, image)
    case Deanonymization => IsDeanonymized(f, ip, image)
  }

  lemma ImageBack(f: PrefixBit, mode: Mode, ip: Ip, image: Ip, back: Ip)
    requires IsImage(f, mode, ip, image)
    ensures IsImage(f, Opposite(mode), image, back) <==> back == ip
  {
    hide IsAnonymized, IsDeanonymized;
    RoundTrip(f, ip, image);
    RoundTrip(f, back, image);
    RoundTrip(f, image, ip);
    RoundTrip(f, image, back);
    if IsImage(f, Opposite(mode), image, back) {
      SameImage(f, ip, image, back, mode);
    }
  }

  // an anonymization that is told by its other end
  lemma SameImage(f: PrefixBit, ip: Ip, image: Ip, result: Ip, mode: Mode)
    requires if mode == Anonymization then IsAnonymized(f, ip, image) && IsAnonymized(f, result, image)
             else IsAnonymized(f, image, ip) && IsAnonymized(f, image, result)
    ensures result == ip
  {
    if mode == Anonymization {
      Bijection(f, ip, image, result, image);
    } else {
      Bijection(f, image, ip, image, result);
    }
  }

  lemma SameFamily(f: PrefixBit, mode: Mode, ip: Ip, image: Ip)
    requires IsImage(f, mode, ip, image)
    ensures ip.V4? <==> image.V4?
  {}

  // ---- the field in place ----

  // what ip_is4 sees: an IPv4 address has fixed bytes around it
  predicate IsV4Field(field: Bytes) {
    && |field| == 16
    && (forall i :: 0 <= i < 8 ==> field[i] == 0) && (forall i :: 12 <= i < 16 ==> field[i] == 0xff)
  }

  function IpOf(field: Bytes): (ip: Ip)
    requires |field| == 16
    ensures WellFormed(ip) && (ip.V4? <==> IsV4Field(field))
  {
    if IsV4Field(field) then V4(PadWord(field[8..12])) else V6(field)
  }

  // the four bytes of an IPv4 address in their place, or all sixteen
  function FieldWith(field: Bytes, ip: Ip): (f: Bytes)
    requires |field| == 16 && WellFormed(ip)
    ensures |f| == 16
  {
    match ip
    case V4(word) => field[..8] + WordBytes(word) + field[12..]
    case V6(bytes) => bytes
  }

  ghost predicate IsFieldImage(f: PrefixBit, mode: Mode, a: Bytes, b: Bytes)
    requires |a| == 16
  {
    exists image :: WellFormed(image) && IsImage(f, mode, IpOf(a), image) && b == FieldWith(a, image)
  }

  lemma WordBack(word: bv32)
    ensures PadWord(WordBytes(word)) == word
  {
    hide PadWord;
    PadWordBytes(WordBytes(word));
    assert WordBytes(word)[..4] == WordBytes(word);
    SameWord(PadWord(WordBytes(word)), word);
  }

  lemma SameWord(x: bv32, y: bv32)
    requires WordBytes(x) == WordBytes(y)
    ensures x == y
  {
    assert WordBytes(x)[0] == WordBytes(y)[0] && WordBytes(x)[1] == WordBytes(y)[1];
    assert WordBytes(x)[2] == WordBytes(y)[2] && WordBytes(x)[3] == WordBytes(y)[3];
    BytesAreWord(x, y);
  }

  // writing an IPv4 address into its place, and reading it from there
  lemma V4InPlace(a: Bytes, word: bv32)
    requires IsV4Field(a)
    ensures IsV4Field(FieldWith(a, V4(word))) && IpOf(FieldWith(a, V4(word))) == V4(word)
    ensures forall w :: FieldWith(FieldWith(a, V4(word)), V4(w)) == FieldWith(a, V4(w))
    ensures FieldWith(a, IpOf(a)) == a
  {
    hide PadWord, WordBytes;
    var b := FieldWith(a, V4(word));
    assert b[..8] == a[..8] && b[8..12] == WordBytes(word) && b[12..] == a[12..];
    WordBack(word);
    PadWordBytes(a[8..12]);
    assert a == a[..8] + a[8..12] + a[12..];
    assert a[8..12][..4] == a[8..12];
  }

  /**
   * What is anonymized and then deanonymized, or the other way round, is what it was, unless the image of an IPv6
   * address happens to look like an IPv4 address: then, and only then, other bytes come back.
   */
  lemma FieldBack(f: PrefixBit, mode: Mode, a: Bytes, b: Bytes, c: Bytes)
    requires |a| == |b| == 16 && IsFieldImage(f, mode, a, b) && IsFieldImage(f, Opposite(mode), b, c)
    ensures c == a <==> IsV4Field(a) || !IsV4Field(b)
  {
    hide IsImage, PadWord, WordBytes, IsV4Field;
    var image :| WellFormed(image) && IsImage(f, mode, IpOf(a), image) && b == FieldWith(a, image);
    var back :| WellFormed(back) && IsImage(f, Opposite(mode), IpOf(b), back) && c == FieldWith(b, back);
    SameFamily(f, mode, IpOf(a), image);
    SameFamily(f, Opposite(mode), IpOf(b), back);
    if IsV4Field(a) {
      V4InPlace(a, image.word);
      ImageBack(f, mode, IpOf(a), image, back);
    } else if IsV4Field(b) {
      V4InPlace(b, back.word);
    } else {
      ImageBack(f, mode, IpOf(a), image, back);
    }
  }

  /** ip_anonymize, which writes the result over the field. */
  method AnonymizeField(p: Panonymizer, field: array<bv8>, mode: Mode)
    requires p.Valid() && field.Length == 16 && p.Outside(field)
    modifies field
    ensures p.Valid() && p.PrfInUse() == old(p.PrfInUse())
    ensures IsFieldImage(p.PrfInUse(), mode, old(field[..]), field[..])
  {
    hide IsV4Field, IsAnonymized, IsDeanonymized, PadWord, WordBytes;
    ghost var was := field[..];
    var result := IpAnonymize(p, IpOf(field[..]), mode);
    match result
    case V4(word) =>
      var bytes := WordBytes(word);
      field[8], field[9], field[10], field[11] := bytes[0], bytes[1], bytes[2], bytes[3];
      assert field[..] == was[..8] + bytes + was[12..];
    case V6(bytes) =>
      for i := 0 to 16
        invariant field[..i] == bytes[..i]
      {
        field[i] := bytes[i];
      }
      assert field[..] == bytes;
  }

  /** Under one key: what one run of the module has done another one undoes, exactly in these cases. */
  method ThereAndBack(p: Panonymizer, field: array<bv8>, mode: Mode) returns (ghost image: Bytes)
    requires p.Valid() && field.Length == 16 && p.Outside(field)
    modifies field
    ensures |image| == 16 && IsFieldImage(p.PrfInUse(), mode, old(field[..]), image)
    ensures field[..] == old(field[..]) <==> IsV4Field(old(field[..])) || !IsV4Field(image)
  {
    hide IsFieldImage, IsV4Field;
    ghost var was := field[..];
    AnonymizeField(p, field, mode);
    image := field[..];
    AnonymizeField(p, field, Opposite(mode));
    FieldBack(p.PrfInUse(), mode, was, image, field[..]);
  }
}
