/** The Crypto-PAn anonymizer of anonymizer/panonymizer.c: bytes for IPv6, one word for IPv4, and their inverses. */
module Anonymizer {
  import opened Bits
  import opened AddressBits
  import opened AddressWords
  import opened PrefixPreserving
  import opened Cipher
  import opened KeyExpansion
  import R = Rijndael

  // ---- the pseudorandom bit of sixteen bytes ----

  // ANONYMIZATION_ALGORITHM; the hash stands for hash_div8, any function of the input
  datatype Algorithm = RijndaelBc | MurmurHash3(hash: Bytes -> bv32)

  function Fold16(h: bv32): bv32 { XorWord(h, ShiftRight(h, 16)) }
  function Fold8(h: bv32): bv32 { XorWord(h, ShiftRight(h, 8)) }
  function Fold4(h: bv32): bv32 { XorWord(h, ShiftRight(h, 4)) }

  // 0x6996 is the table of the parities of the nibbles
  function NibbleParity(h: bv32): bv8 {
    (((0x6996 as bv32) >> (h & 0xf)) & 1) as bv8
  }

  function FoldedParity(h: bv32): bv8 {
    NibbleParity(Fold4(Fold8(Fold16(h))))
  }

  function TopBit(b: bv8): bv8 {
    b >> 7
  }

  function RandomValue(algorithm: Algorithm, key: CipherKey, x: Bytes): bv8
    requires |x| == 16
  {
    match algorithm
    case RijndaelBc => TopBit(EncryptWith(key, BlockAt(x, 0)).c0.b0)
    case MurmurHash3(hash) => FoldedParity(hash(x))
  }

  lemma ValuesAreBits(b: bv8, h: bv32)
    ensures TopBit(b) == 0 || TopBit(b) == 1
    ensures NibbleParity(h) == 0 || NibbleParity(h) == 1
  {}

  lemma RandomValueIsBit(algorithm: Algorithm, key: CipherKey, x: Bytes)
    requires |x| == 16
    ensures RandomValue(algorithm, key, x) == 0 || RandomValue(algorithm, key, x) == 1
  {
    hide EncryptWith, TopBit, NibbleParity;
    match algorithm
    case RijndaelBc => ValuesAreBits(EncryptWith(key, BlockAt(x, 0)).c0.b0, 0);
    case MurmurHash3(hash) => ValuesAreBits(0, Fold4(Fold8(Fold16(hash(x)))));
  }

  // the function of the prefix that the algorithm, the key and the pad make up
  function Prf(algorithm: Algorithm, key: CipherKey, pad: Bytes): PrefixBit
    requires |pad| == 16
  {
    prefix => RandomValue(algorithm, key, Blend(pad, prefix)) == 1
  }

  class Panonymizer {
    const cipher: R.Rijndael
    const pad: array<bv8>
    const algorithm: Algorithm

    ghost predicate Valid()
      reads this, pad, cipher, cipher.initVector, cipher.expandedKey
    {
      && pad.Length == 16
      && pad != cipher.initVector && pad as object != cipher.expandedKey
      && cipher.Valid() && cipher.state == R.Ready && cipher.direction == R.ENCRYPT
    }

    // a buffer that is none of the anonymizer's own
    ghost predicate Outside(b: array<bv8>) {
      b != pad && b != cipher.initVector && b as object != cipher.expandedKey
    }

    ghost function PrfInUse(): PrefixBit
      reads this, pad, cipher
      requires pad.Length == 16
    {
      Prf(algorithm, cipher.key, pad[..])
    }

    /** PAnonymizer_Init: half of the key keys the cipher, the other half is encrypted to give the pad. */
    constructor (key: array<bv8>, algorithm: Algorithm)
      requires key.Length == 32
      ensures Valid() && fresh(pad) && fresh(cipher) && fresh(cipher.initVector) && fresh(cipher.expandedKey)
      ensures this.algorithm == algorithm
      ensures |cipher.key| == 4 && forall i :: 0 <= i < 4 ==> cipher.key[i] == WordAt(key[..], 4 * i)
      ensures BlockAt(pad[..], 0) == EncryptWith(cipher.key, BlockAt(key[..], 16))
    {
      hide BlockAt, WordAt, EncryptWith, IsDecryptionSchedule, Schedule;
      var c := new R.Rijndael();
      var code := c.Init(R.ECB, R.ENCRYPT, key, 0, null);
      var p := new bv8[16];
      c.Encrypt(key, 16, p, 0);
      cipher, pad, this.algorithm := c, p, algorithm;
    }

    // rin_input: the address up to bit pos, the pad from there
    method FillInput(rinInput: array<bv8>, address: array<bv8>, pos: nat)
      requires Valid() && rinInput.Length == 16 && address.Length == 16 && pos < 128
      requires rinInput != address && Outside(rinInput)
      modifies rinInput
      ensures Valid()
      ensures rinInput[..] == Blend(pad[..], BitsOf(address[..])[..pos])
    {
      var i := 0;
      while i < 16
        invariant 0 <= i <= 16
        invariant forall j :: 0 <= j < i ==> rinInput[j] == InputByte(address[..], pad[..], pos, j)
      {
        rinInput[i] := InputByte(address[..], pad[..], pos, i);
        i := i + 1;
      }
      InputIsBlend(address[..], pad[..], pos, rinInput[..]);
    }

    method RandomBit(x: array<bv8>) returns (bit: bv8)
      requires Valid() && x.Length == 16
      ensures Valid()
      ensures bit == RandomValue(algorithm, cipher.key, x[..])
    {
      hide EncryptWith, IsDecryptionSchedule, Schedule, TopBit, NibbleParity, Fold16, Fold8, Fold4;
      match algorithm
      case RijndaelBc =>
        var rinOutput := new bv8[16];
        cipher.Encrypt(x, 0, rinOutput, 0);
        bit := TopBit(rinOutput[0]);
      case MurmurHash3(hash) =>
        var hOutput := hash(x[..]);
        hOutput := Fold16(hOutput);
        hOutput := Fold8(hOutput);
        hOutput := Fold4(hOutput);
        bit := NibbleParity(hOutput);
    }

    /** anonymize_v6: the sixteen bytes, read as 128 bits, are anonymized under the pseudorandom function in use. */
    method AnonymizeV6(origAddr: array<bv8>, anonAddr: array<bv8>)
      requires Valid() && origAddr.Length == 16 && anonAddr.Length == 16
      requires anonAddr != origAddr && Outside(anonAddr)
      modifies anonAddr
      ensures Valid()
      ensures BitsOf(anonAddr[..]) == Anonymized(PrfInUse(), BitsOf(origAddr[..]))
    {
      hide Blend, BitsOf, Bit, SetBit, RandomValue, Anonymized;
      ghost var f, a := PrfInUse(), BitsOf(origAddr[..]);
      var rinInput := new bv8[16];
      Clear(anonAddr);
      var pos := 0;
      NoPadBits(f, a, anonAddr[..]);
      while pos <= 127
        invariant 0 <= pos <= 128 && Valid() && PrfInUse() == f
        invariant BitsOf(origAddr[..]) == a
        invariant PadBits(f, a, anonAddr[..], pos)
      {
        FillInput(rinInput, origAddr, pos);
        var bit := RandomBit(rinInput);
        PadBitsStep(algorithm, cipher.key, pad[..], a, anonAddr[..], pos, bit);
        anonAddr[pos / 8] := SetBit(anonAddr[pos / 8], bit, pos % 8);
        pos := pos + 1;
      }
      ghost var onePad := anonAddr[..];
      var i := 0;
      while i < 16
        invariant 0 <= i <= 16 && Valid() && PrfInUse() == f
        invariant forall j :: 0 <= j < i ==> anonAddr[j] == Xor(onePad[j], origAddr[j])
        invariant forall j :: i <= j < 16 ==> anonAddr[j] == onePad[j]
      {
        anonAddr[i] := Xor(anonAddr[i], origAddr[i]);
        i := i + 1;
      }
      XorIsAnonymized(f, origAddr[..], onePad, anonAddr[..]);
    }

    /** deanonymize_v6: the inverse map, bit by bit. */
    method DeanonymizeV6(anonAddr: array<bv8>, origAddr: array<bv8>)
      requires Valid() && origAddr.Length == 16 && anonAddr.Length == 16
      requires anonAddr != origAddr && Outside(origAddr)
      modifies origAddr
      ensures Valid()
      ensures BitsOf(origAddr[..]) == Deanonymized(PrfInUse(), BitsOf(anonAddr[..]))
    {
      hide Blend, BitsOf, Bit, SetBit, RandomValue, Deanonymized, Shifted, PadBits, FoundBits;
      ghost var f, b := PrfInUse(), BitsOf(anonAddr[..]);
      ghost var a := Deanonymized(f, b);
      var rinInput := new bv8[16];
      var result := new bv8[16];
      Clear(origAddr);
      Clear(result);
      var pos := 0;
      NoPadBits(f, a, result[..]);
      NoPadBits(f, a, origAddr[..]);
      while pos <= 127
        invariant 0 <= pos <= 128 && Valid() && PrfInUse() == f
        invariant BitsOf(anonAddr[..]) == b
        invariant PadBits(f, a, result[..], pos)
        invariant FoundBits(a, origAddr[..], pos)
      {
        FillInput(rinInput, origAddr, pos);
        FoundPrefix(a, origAddr[..], pos);
        var bit := RandomBit(rinInput);
        PadBitsStep(algorithm, cipher.key, pad[..], a, result[..], pos, bit);
        result[pos / 8] := SetBit(result[pos / 8], bit, pos % 8);
        MissMeansOne(f, b, result[..], origAddr[..], anonAddr[..], pos);
        if Shifted(anonAddr[pos / 8], pos % 8) != Shifted(Xor(result[pos / 8], origAddr[pos / 8]), pos % 8) {
          origAddr[pos / 8] := Xor(origAddr[pos / 8], 1 << (7 - pos % 8));
        }
        pos := pos + 1;
      }
      AllFound(a, origAddr[..]);
    }

    // the first four bytes, from the most significant one on
    method StoreFirst(rinInput: array<bv8>, word: bv32)
      requires rinInput.Length == 16
      modifies rinInput
      ensures rinInput[..] == WordBytes(word) + old(rinInput[4..])
    {
      rinInput[0] := (word >> 24) as bv8;
      rinInput[1] := ((word << 8) >> 24) as bv8;
      rinInput[2] := ((word << 16) >> 24) as bv8;
      rinInput[3] := ((word << 24) >> 24) as bv8;
    }

    // rin_input for IPv4: four bytes of a word made of address and pad, then the rest of the pad
    method FillInputWord(rinInput: array<bv8>, address: bv32, pos: bv8)
      requires Valid() && rinInput.Length == 16 && pos < 32 && Outside(rinInput)
      requires forall i :: 4 <= i < 16 ==> rinInput[i] == pad[i]
      modifies rinInput
      ensures Valid()
      ensures forall i :: 4 <= i < 16 ==> rinInput[i] == pad[i]
      ensures pos as int <= 32 && rinInput[..] == Blend(pad[..], WordBits(address)[..pos as int])
    {
      hide WordBits, WordBytes, InputWord, PadWord, Blend;
      var first4bytesInput := InputWord(address, PadWord(pad[..]), pos);
      StoreFirst(rinInput, first4bytesInput);
      assert rinInput[..] == WordBytes(first4bytesInput) + pad[4..];
      WordInputIsBlend(address, pad[..], pos, rinInput[..]);
    }

    method CopyPad() returns (rinInput: array<bv8>)
      requires Valid()
      ensures Valid() && fresh(rinInput) && rinInput.Length == 16 && rinInput[..] == pad[..]
    {
      rinInput := new bv8[16];
      for i := 0 to 16
        invariant Valid()
        invariant rinInput[..i] == pad[..i]
      {
        rinInput[i] := pad[i];
      }
    }

    /** anonymize: the same map on the 32 bits of an IPv4 address. */
    method Anonymize(origAddr: bv32) returns (anonAddr: bv32)
      requires Valid()
      ensures Valid()
      ensures WordBits(anonAddr) == Anonymized(PrfInUse(), WordBits(origAddr))
    {
      hide Blend, WordBits, SetWord, XorWord, RandomValue, Anonymized, PadString;
      ghost var f, a := PrfInUse(), WordBits(origAddr);
      var rinInput := CopyPad();
      var result: bv32 := 0;
      NothingInWord(f, a);
      var pos: bv8 := 0;
      while pos <= 31
        invariant pos <= 32 && Valid() && PrfInUse() == f
        invariant forall i :: 4 <= i < 16 ==> rinInput[i] == pad[i]
        invariant PadString(f, a, WordBits(result), pos as int)
        decreases 32 - pos
      {
        FillInputWord(rinInput, origAddr, pos);
        var bit := RandomBit(rinInput);
        PadStringStep(algorithm, cipher.key, pad[..], a, result, pos, bit);
        NextIndex(pos);
        result := SetWord(result, bit as bv32, pos);
        pos := pos + 1;
      }
      XorIsAnonymizedWord(f, origAddr, result);
      anonAddr := XorWord(result, origAddr);
    }

    /** deanonymize: the inverse, which tests the one bit at pos. */
    method Deanonymize(anonAddr: bv32) returns (origAddr: bv32)
      requires Valid()
      ensures Valid()
      ensures WordBits(origAddr) == Deanonymized(PrfInUse(), WordBits(anonAddr))
    {
      hide Blend, WordBits, WordValue, SetWord, XorWord, RandomValue, Deanonymized, PadString, FoundString;
      ghost var f, b := PrfInUse(), WordBits(anonAddr);
      ghost var a := Deanonymized(f, b);
      var rinInput := CopyPad();
      origAddr := 0;
      var result: bv32 := 0;
      NothingInWord(f, a);
      var pos: bv8 := 0;
      while pos <= 31
        invariant pos <= 32 && Valid() && PrfInUse() == f
        invariant forall i :: 4 <= i < 16 ==> rinInput[i] == pad[i]
        invariant PadString(f, a, WordBits(result), pos as int)
        invariant FoundString(a, WordBits(origAddr), pos as int)
        decreases 32 - pos
      {
        FillInputWord(rinInput, origAddr, pos);
        FoundStringPrefix(a, WordBits(origAddr), pos as int);
        var bit := RandomBit(rinInput);
        PadStringStep(algorithm, cipher.key, pad[..], a, result, pos, bit);
        NextIndex(pos);
        result := SetWord(result, bit as bv32, pos);
        MissMeansOneInWord(f, b, result, origAddr, anonAddr, pos);
        if WordValue(anonAddr, pos) != WordValue(XorWord(result, origAddr), pos) {
          origAddr := XorWord(origAddr, 1 << (31 - pos));
        }
        pos := pos + 1;
      }
      assert WordBits(origAddr) == a by {
        FoundStringPrefix(a, WordBits(origAddr), 32);
        assert WordBits(origAddr)[..32] == WordBits(origAddr) && a[..32] == a;
      }
    }

    method Clear(b: array<bv8>)
      requires Valid() && Outside(b)
      modifies b
      ensures Valid()
      ensures forall i :: 0 <= i < b.Length ==> b[i] == 0
    {
      for i := 0 to b.Length
        invariant Valid()
        invariant forall j :: 0 <= j < i ==> b[j] == 0
      {
        b[i] := 0;
      }
    }
  }

  // the first n bits of the one-time pad of the address a, the others still 0
  ghost predicate PadBits(f: PrefixBit, a: BitString, r: Bytes, n: nat) {
    && 8 * |r| == |a|
    && forall k :: 0 <= k < |a| ==> Bit(r, k) == (k < n && f(a[..k]))
  }

  // the first n bits of a, the others still 0
  ghost predicate FoundBits(a: BitString, r: Bytes, n: nat) {
    && 8 * |r| == |a|
    && forall k :: 0 <= k < |a| ==> Bit(r, k) == (k < n && a[k])
  }

  lemma NoPadBits(f: PrefixBit, a: BitString, r: Bytes)
    requires 8 * |r| == |a| && forall i :: 0 <= i < |r| ==> r[i] == 0
    ensures PadBits(f, a, r, 0) && FoundBits(a, r, 0)
  {
    hide BitValue;
    forall k | 0 <= k < |a|
      ensures !Bit(r, k)
    {
      ZeroBits(k % 8);
    }
  }

  lemma ZeroBits(m: nat)
    requires m < 8
    ensures !ByteBit(0, m)
  {}

  lemma PadBitsStep(algorithm: Algorithm, key: CipherKey, pad: Bytes, a: BitString, r: Bytes, n: nat, bit: bv8)
    requires |pad| == 16 && n < |a| && PadBits(Prf(algorithm, key, pad), a, r, n)
    requires bit == RandomValue(algorithm, key, Blend(pad, a[..n]))
    ensures PadBits(Prf(algorithm, key, pad), a, r[n / 8 := SetBit(r[n / 8], bit, n % 8)], n + 1)
  {
    hide ByteBit, SetBit, RandomValue, Blend;
    RandomValueIsBit(algorithm, key, Blend(pad, a[..n]));
    var s := r[n / 8 := SetBit(r[n / 8], bit, n % 8)];
    forall k | 0 <= k < |a|
      ensures Bit(s, k) == (k < n + 1 && Prf(algorithm, key, pad)(a[..k]))
    {
      SetBitBit(r[n / 8], bit, n % 8, k % 8);
      assert Bit(r, k) == (k < n && Prf(algorithm, key, pad)(a[..k]));
    }
  }

  lemma XorIsAnonymized(f: PrefixBit, orig: Bytes, onePad: Bytes, anon: Bytes)
    requires |orig| == |onePad| == |anon| && PadBits(f, BitsOf(orig), onePad, 8 * |orig|)
    requires forall i :: 0 <= i < |orig| ==> anon[i] == Xor(onePad[i], orig[i])
    ensures BitsOf(anon) == Anonymized(f, BitsOf(orig))
  {
    hide ByteBit, Xor;
    forall k | 0 <= k < 8 * |orig|
      ensures BitsOf(anon)[k] == Anonymized(f, BitsOf(orig))[k]
    {
      OpBits(onePad[k / 8], orig[k / 8], k % 8);
    }
  }

  lemma FoundPrefix(a: BitString, r: Bytes, n: nat)
    requires n <= |a| && FoundBits(a, r, n)
    ensures BitsOf(r)[..n] == a[..n]
  {
    hide Bit;
  }

  lemma AllFound(a: BitString, r: Bytes)
    requires FoundBits(a, r, |a|)
    ensures BitsOf(r) == a
  {
    hide Bit;
  }

  // below bit n the anonymized address and the one-time pad over the bits found agree
  lemma FoundSoFar(f: PrefixBit, b: BitString, result: Bytes, orig: Bytes, anon: Bytes, n: nat, m: nat)
    requires n < |b| && |b| == 8 * |anon| && BitsOf(anon) == b && m <= n % 8
    requires PadBits(f, Deanonymized(f, b), result, n + 1) && FoundBits(Deanonymized(f, b), orig, n)
    ensures ByteBit(Xor(result[n / 8], orig[n / 8]), m)
            == if m < n % 8 then ByteBit(anon[n / 8], m) else f(Deanonymized(f, b)[..n])
  {
    hide BitValue, Xor, Deanonymized;
    var a := Deanonymized(f, b);
    var k := 8 * (n / 8) + m;
    assert k <= n < |a|;
    OpBits(result[n / 8], orig[n / 8], m);
    BitAt(result, n / 8, m);
    BitAt(orig, n / 8, m);
    BitAt(anon, n / 8, m);
    DeanonymizedAt(f, b, k);
    assert b[k] == Bit(anon, k);
  }

  /** Whether the wide comparison misses is the next bit of the original address. */
  lemma MissIsBit(f: PrefixBit, b: BitString, result: Bytes, orig: Bytes, anon: Bytes, n: nat)
    requires n < |b| && |b| == 8 * |anon| && BitsOf(anon) == b
    requires PadBits(f, Deanonymized(f, b), result, n + 1) && FoundBits(Deanonymized(f, b), orig, n)
    ensures Shifted(anon[n / 8], n % 8) != Shifted(Xor(result[n / 8], orig[n / 8]), n % 8) <==> Deanonymized(f, b)[n]
  {
    hide ByteBit, Xor, Shifted, Deanonymized;
    var x, y := anon[n / 8], Xor(result[n / 8], orig[n / 8]);
    forall m | 0 <= m < n % 8
      ensures ByteBit(x, m) == ByteBit(y, m)
    {
      FoundSoFar(f, b, result, orig, anon, n, m);
    }
    ShiftedEqual(x, y, n % 8);
    FoundSoFar(f, b, result, orig, anon, n, n % 8);
    DeanonymizedAt(f, b, n);
    assert b[n] == ByteBit(x, n % 8);
  }

  lemma MissMeansOne(f: PrefixBit, b: BitString, result: Bytes, orig: Bytes, anon: Bytes, n: nat)
    requires n < |b| && |b| == 8 * |anon| && BitsOf(anon) == b
    requires PadBits(f, Deanonymized(f, b), result, n + 1) && FoundBits(Deanonymized(f, b), orig, n)
    ensures var miss := Shifted(anon[n / 8], n % 8) != Shifted(Xor(result[n / 8], orig[n / 8]), n % 8);
            FoundBits(Deanonymized(f, b),
                      if miss then orig[n / 8 := Xor(orig[n / 8], 1 << (7 - n % 8))] else orig, n + 1)
  {
    hide PadBits, Shifted, Deanonymized, FoundBits;
    MissIsBit(f, b, result, orig, anon, n);
    FoundStep(Deanonymized(f, b), orig, n);
  }

  lemma FoundStep(a: BitString, orig: Bytes, n: nat)
    requires n < |a| && FoundBits(a, orig, n)
    ensures FoundBits(a, if a[n] then orig[n / 8 := Xor(orig[n / 8], 1 << (7 - n % 8))] else orig, n + 1)
  {
    hide ByteBit, Xor;
    if a[n] {
      var r := orig[n / 8 := Xor(orig[n / 8], 1 << (7 - n % 8))];
      forall k | 0 <= k < |a|
        ensures Bit(r, k) == (k < n + 1 && a[k])
      {
        OpBits(orig[n / 8], 1 << (7 - n % 8), k % 8);
        MaskBits(n % 8, k % 8);
        assert Bit(orig, k) == (k < n && a[k]);
      }
    }
  }

  // ---- IPv4 ----

  // first4bytes_pad
  function PadWord(pad: Bytes): bv32
    requires |pad| >= 4
  {
    ((pad[0] as bv32) << 24) + ((pad[1] as bv32) << 16) + ((pad[2] as bv32) << 8) + (pad[3] as bv32)
  }

  lemma PadWordBytes(pad: Bytes)
    requires |pad| >= 4
    ensures WordBytes(PadWord(pad)) == pad[..4]
  {}

  lemma WordInputIsBlend(address: bv32, pad: Bytes, pos: bv8, x: Bytes)
    requires pos < 32 && |pad| == 16
    requires x == WordBytes(InputWord(address, PadWord(pad), pos)) + pad[4..]
    ensures pos as int <= 32 && x == Blend(pad, WordBits(address)[..pos as int])
  {
    hide ByteBit, InputWord, PadWord, WordBytes, Bit;
    IndexOrder(pos, 32);
    var prefix := WordBits(address)[..pos as int];
    forall k | 0 <= k < 128
      ensures Bit(x, k) == BlendBit(pad, prefix, k)
    {
      PadWordBytes(pad);
      if k < 32 {
        InputBits(address, PadWord(pad), pos, k);
        FirstBits(WordBytes(InputWord(address, PadWord(pad), pos)), x, k);
        FirstBits(pad[..4], pad, k);
      } else {
        SameBitIn(x, pad, k);
      }
    }
    BlendIs(pad, prefix, x);
  }

  lemma SameBitIn(x: Bytes, y: Bytes, k: nat)
    requires k < 8 * |x| && k < 8 * |y| && x[k / 8] == y[k / 8]
    ensures Bit(x, k) == Bit(y, k)
  {}

  lemma FirstBits(x: Bytes, y: Bytes, k: nat)
    requires x <= y && k < 8 * |x|
    ensures Bit(x, k) == Bit(y, k)
  {}

  // the first n bits of the one-time pad of a, the others still 0
  ghost predicate PadString(f: PrefixBit, a: BitString, r: BitString, n: int) {
    |r| == |a| && forall i :: 0 <= i < |a| ==> r[i] == (i < n && f(a[..i]))
  }

  // the first n bits of a, the others still 0
  ghost predicate FoundString(a: BitString, r: BitString, n: int) {
    |r| == |a| && forall i :: 0 <= i < |a| ==> r[i] == (i < n && a[i])
  }

  lemma NothingInWord(f: PrefixBit, a: BitString)
    requires |a| == 32
    ensures PadString(f, a, WordBits(0), 0) && FoundString(a, WordBits(0), 0)
  {
    hide BitValue;
    forall i | 0 <= i < 32
      ensures !WordBits(0)[i]
    {
      ZeroBytes();
      ZeroBits(i % 8);
    }
  }

  lemma ZeroBytes()
    ensures WordBytes(0) == [0, 0, 0, 0]
  {}

  lemma PadStringStep(algorithm: Algorithm, key: CipherKey, pad: Bytes, a: BitString, r: bv32, pos: bv8, bit: bv8)
    requires |pad| == 16 && |a| == 32 && pos < 32 && pos as int < 32
    requires PadString(Prf(algorithm, key, pad), a, WordBits(r), pos as int)
    requires bit == RandomValue(algorithm, key, Blend(pad, a[..pos as int]))
    ensures PadString(Prf(algorithm, key, pad), a, WordBits(SetWord(r, bit as bv32, pos)), pos as int + 1)
  {
    hide WordBits, SetWord, RandomValue, Blend;
    RandomValueIsBit(algorithm, key, Blend(pad, a[..pos as int]));
    var s := WordBits(SetWord(r, bit as bv32, pos));
    forall i | 0 <= i < 32
      ensures s[i] == (WordBits(r)[i] || (i == pos as int && bit == 1))
    {
      SetBits(r, bit as bv32, pos, i);
    }
    PadStringNext(Prf(algorithm, key, pad), a, WordBits(r), s, pos as int);
  }

  lemma PadStringNext(f: PrefixBit, a: BitString, r: BitString, s: BitString, n: nat)
    requires n < |a| == |s| && PadString(f, a, r, n)
    requires forall i :: 0 <= i < |a| ==> s[i] == (r[i] || (i == n && f(a[..n])))
    ensures PadString(f, a, s, n + 1)
  {}

  lemma FoundStringNext(a: BitString, r: BitString, s: BitString, n: nat)
    requires n < |a| == |s| && FoundString(a, r, n)
    requires forall i :: 0 <= i < |a| ==> s[i] == (r[i] != (i == n && a[n]))
    ensures FoundString(a, s, n + 1)
  {}

  lemma FoundStringPrefix(a: BitString, r: BitString, n: nat)
    requires n <= |a| && FoundString(a, r, n)
    ensures |r| == |a| && r[..n] == a[..n]
  {}

  lemma MissMeansOneInWord(f: PrefixBit, b: BitString, result: bv32, orig: bv32, anon: bv32, pos: bv8)
    requires WordBits(anon) == b && pos < 32 && pos as int < 32
    requires PadString(f, Deanonymized(f, b), WordBits(result), pos as int + 1)
    requires FoundString(Deanonymized(f, b), WordBits(orig), pos as int)
    ensures var miss := WordValue(anon, pos) != WordValue(XorWord(result, orig), pos);
            FoundString(Deanonymized(f, b),
                        WordBits(if miss then XorWord(orig, 1 << (31 - pos)) else orig), pos as int + 1)
  {
    hide WordBits, WordValue, XorWord, Deanonymized;
    var a, n := Deanonymized(f, b), pos as int;
    TopsEqual(anon, XorWord(result, orig), pos);
    XorBits(result, orig, n);
    DeanonymizedAt(f, b, n);
    var s := WordBits(if a[n] then XorWord(orig, 1 << (31 - pos)) else orig);
    forall i | 0 <= i < 32
      ensures s[i] == (WordBits(orig)[i] != (i == n && a[n]))
    {
      XorBits(orig, 1 << (31 - pos), i);
      OneBitSet(pos, i);
    }
    FoundStringNext(a, WordBits(orig), s, n);
  }

  lemma OneBitSet(pos: bv8, i: nat)
    requires pos < 32 && i < 32
    ensures WordBits(1 << (31 - pos))[i] == (i == pos as int)
  {
    hide WordBits, SetWord;
    SetBits(0, 1, pos, i);
    NothingInWord(_ => false, seq(32, _ => false));
    SetOne(pos);
  }

  lemma SetOne(pos: bv8)
    requires pos < 32
    ensures SetWord(0, 1, pos) == 1 << (31 - pos)
  {}

  lemma XorIsAnonymizedWord(f: PrefixBit, orig: bv32, onePad: bv32)
    requires PadString(f, WordBits(orig), WordBits(onePad), 32)
    ensures WordBits(XorWord(onePad, orig)) == Anonymized(f, WordBits(orig))
  {
    hide WordBits, XorWord;
    forall i | 0 <= i < 32
      ensures WordBits(XorWord(onePad, orig))[i] == Anonymized(f, WordBits(orig))[i]
    {
      XorBits(onePad, orig, i);
    }
  }

  // byte i of rin_input for the prefix of length pos
  function InputByte(address: Bytes, pad: Bytes, pos: nat, i: nat): bv8
    requires i < |address| && i < |pad|
  {
    var bitNum, leftByte := pos % 8, pos / 8;
    if leftByte > i then address[i]
    else if leftByte == i then MixByte(address[i], pad[i], bitNum)
    else pad[i]
  }

  lemma InputIsBlend(address: Bytes, pad: Bytes, pos: nat, x: Bytes)
    requires |address| == |pad| == |x| && pos <= 8 * |address|
    requires forall i :: 0 <= i < |x| ==> x[i] == InputByte(address, pad, pos, i)
    ensures x == Blend(pad, BitsOf(address)[..pos])
  {
    hide ByteBit, MixByte;
    var prefix := BitsOf(address)[..pos];
    forall k | 0 <= k < 8 * |pad|
      ensures Bit(x, k) == BlendBit(pad, prefix, k)
    {
      MixByteBit(address[k / 8], pad[k / 8], pos % 8, k % 8);
    }
    BlendIs(pad, prefix, x);
  }
}
