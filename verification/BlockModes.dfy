/** What the padded ECB and CBC modes of rijndael.c compute on whole byte strings, and their round trips. */
module BlockModes {
  import opened GaloisField
  import opened Cipher
  import opened KeyExpansion

  type Bytes = seq<bv8>

  datatype Mode = Ecb | Cbc

  datatype Unpadded = Plain(bytes: Bytes) | Corrupted

  function XorBlock(a: Block, b: Block): Block {
    AddRoundKey(a, b)
  }

  // ---- padding: n bytes of value n, with 1 <= n <= 16 ----

  function PadLength(n: nat): (pad: nat)
    ensures 1 <= pad <= 16
    ensures (n + pad) % 16 == 0
  {
    16 - n % 16
  }

  function Padded(p: Bytes): Bytes {
    p + seq(PadLength(|p|), _ => PadLength(|p|) as bv8)
  }

  // The two modes disagree on the extreme lengths: ECB takes 0 and refuses 16, CBC refuses 0 and takes 16.
  predicate PadLengthAccepted(mode: Mode, pad: int) {
    match mode
    case Ecb => pad < 16
    case Cbc => 0 < pad <= 16
  }

  function Unpad(mode: Mode, p: Bytes): Unpadded
    requires |p| >= 16
  {
    var pad := p[|p| - 1] as int;
    if PadLengthAccepted(mode, pad) && forall i :: |p| - pad <= i < |p| ==> p[i] == p[|p| - 1]
    then Plain(p[..|p| - pad])
    else Corrupted
  }

  // ---- the chaining ----

  // what is added to block i: nothing, the vector, or the ciphertext block before
  function Mask(mode: Mode, iv: Block, c: Bytes, i: nat): Block
    requires 16 * i <= |c|
  {
    if mode == Ecb then ZeroBlock() else if i == 0 then iv else BlockAt(c, 16 * (i - 1))
  }

  function ZeroBlock(): Block {
    var z := Word(0, 0, 0, 0);
    Block(z, z, z, z)
  }

  // c holds the encryption of the first n blocks of p
  ghost predicate Encrypted(mode: Mode, key: CipherKey, iv: Block, p: Bytes, c: Bytes, n: nat) {
    && 16 * n <= |p| && 16 * n <= |c|
    && forall i :: 0 <= i < n ==>
         BlockAt(c, 16 * i) == EncryptWith(key, XorBlock(BlockAt(p, 16 * i), Mask(mode, iv, c, i)))
  }

  function DecryptedBlock(mode: Mode, key: CipherKey, iv: Block, c: Bytes, i: nat): Block
    requires 16 * i + 16 <= |c|
  {
    XorBlock(DecryptWith(key, BlockAt(c, 16 * i)), Mask(mode, iv, c, i))
  }

  function DecryptedByte(mode: Mode, key: CipherKey, iv: Block, c: Bytes, i: nat): bv8
    requires |c| % 16 == 0 && i < |c|
  {
    BlockFits(|c|, i);
    ByteOf(DecryptedBlock(mode, key, iv, c, i / 16), i % 16)
  }

  lemma BlockFits(n: nat, i: nat)
    requires n % 16 == 0 && i < n
    ensures 16 * (i / 16) + 16 <= n
  {}

  function Decrypted(mode: Mode, key: CipherKey, iv: Block, c: Bytes): (p: Bytes)
    requires |c| % 16 == 0
    ensures |p| == |c|
  {
    seq(|c|, i requires 0 <= i < |c| => DecryptedByte(mode, key, iv, c, i))
  }

  // ---- round trips ----

  lemma DecryptedUndoes(mode: Mode, key: CipherKey, iv: Block, p: Bytes, c: Bytes)
    requires |p| == |c| && |p| % 16 == 0
    requires Encrypted(mode, key, iv, p, c, |p| / 16)
    ensures Decrypted(mode, key, iv, c) == p
  {
    hide BlockAt, ByteOf, XorBlock, Mask, EncryptWith, DecryptWith;
    forall i | 0 <= i < |p|
      ensures Decrypted(mode, key, iv, c)[i] == p[i]
    {
      var b := i / 16;
      var mask := Mask(mode, iv, c, b);
      CipherInverse(key, XorBlock(BlockAt(p, 16 * b), mask));
      XorBlockInverse(BlockAt(p, 16 * b), mask);
      ByteOfBlockAt(p, 16 * b, i % 16);
    }
  }

  lemma XorBlockInverse(a: Block, b: Block)
    ensures XorBlock(XorBlock(a, b), b) == a
  {
    AddRoundKeyInverse(a, b);
  }

  lemma ByteRoundTrip(n: nat)
    requires n <= 16
    ensures n as bv8 as int == n
  {
    assert n == 0 || n == 1 || n == 2 || n == 3 || n == 4 || n == 5 || n == 6 || n == 7 || n == 8
           || n == 9 || n == 10 || n == 11 || n == 12 || n == 13 || n == 14 || n == 15 || n == 16;
  }

  /** Unpadding inverts padding exactly when the mode accepts a pad of that length. */
  lemma UnpadPadded(mode: Mode, p: Bytes)
    ensures Unpad(mode, Padded(p)) == if mode == Ecb && |p| % 16 == 0 then Corrupted else Plain(p)
  {
    ByteRoundTrip(PadLength(|p|));
    PaddedParts(p);
    hide Padded;
  }

  lemma PaddedParts(p: Bytes)
    ensures var q, pad := Padded(p), PadLength(|p|);
            && |q| == |p| + pad && |q| % 16 == 0 && |q| >= 16 && q[..|p|] == p
            && forall i :: |p| <= i < |q| ==> q[i] == pad as bv8
  {}

  /**
   * The padded round trip: pad, encrypt, decrypt, unpad. It returns the input for every input in CBC, and in ECB
   * if and only if the length is not a multiple of the block size.
   */
  lemma PaddedRoundTrip(mode: Mode, key: CipherKey, iv: Block, p: Bytes, c: Bytes)
    requires |c| == |Padded(p)| && Encrypted(mode, key, iv, Padded(p), c, |c| / 16)
    ensures Unpad(mode, Decrypted(mode, key, iv, c)) == Plain(p) <==> mode == Cbc || |p| % 16 != 0
    ensures mode == Ecb && |p| % 16 == 0 ==> Unpad(mode, Decrypted(mode, key, iv, c)) == Corrupted
  {
    DecryptedUndoes(mode, key, iv, Padded(p), c);
    UnpadPadded(mode, p);
  }

  // ---- growing a ciphertext block by block ----

  lemma BlockAtSlice(c: Bytes, i: nat)
    requires i + 16 <= |c|
    ensures BlockAt(c, i) == BlockAt(c[i..i + 16], 0)
  {}

  lemma BlockAtSame(c: Bytes, i: nat, d: Bytes, j: nat)
    requires i + 16 <= |c| && j + 16 <= |d| && c[i..i + 16] == d[j..j + 16]
    ensures BlockAt(c, i) == BlockAt(d, j)
  {
    hide BlockAt;
    BlockAtSlice(c, i);
    BlockAtSlice(d, j);
  }

  lemma BlockAtPrefix(c: Bytes, d: Bytes, i: nat, n: nat)
    requires i + 16 <= n <= |c| && n <= |d| && c[..n] == d[..n]
    ensures BlockAt(c, i) == BlockAt(d, i)
  {
    assert c[i..i + 16] == c[..n][i..i + 16] == d[..n][i..i + 16] == d[i..i + 16];
    BlockAtSame(c, i, d, i);
  }

  lemma MaskPrefix(mode: Mode, iv: Block, c: Bytes, d: Bytes, i: nat)
    requires 16 * i <= |c| && 16 * i <= |d| && c[..16 * i] == d[..16 * i]
    ensures Mask(mode, iv, c, i) == Mask(mode, iv, d, i)
  {
    if i > 0 {
      BlockAtPrefix(c, d, 16 * (i - 1), 16 * i);
    }
  }

  // if d continues c by one more block, encrypted with the mask that c gives it
  lemma EncryptedStep(mode: Mode, key: CipherKey, iv: Block, p: Bytes, c: Bytes, d: Bytes, n: nat)
    requires Encrypted(mode, key, iv, p, c, n)
    requires 16 * n + 16 <= |p| && 16 * n + 16 <= |c| == |d| && c[..16 * n] == d[..16 * n]
    requires BlockAt(d, 16 * n) == EncryptWith(key, XorBlock(BlockAt(p, 16 * n), Mask(mode, iv, c, n)))
    ensures Encrypted(mode, key, iv, p, d, n + 1)
  {
    hide BlockAt, XorBlock, EncryptWith, Mask;
    MaskPrefix(mode, iv, c, d, n);
    forall i | 0 <= i < n
      ensures BlockAt(d, 16 * i) == EncryptWith(key, XorBlock(BlockAt(p, 16 * i), Mask(mode, iv, d, i)))
    {
      BlockAtPrefix(c, d, 16 * i, 16 * n);
      assert c[..16 * i] == c[..16 * n][..16 * i] && d[..16 * i] == d[..16 * n][..16 * i];
      MaskPrefix(mode, iv, c, d, i);
    }
  }

  lemma XorZero(a: Block)
    ensures XorBlock(a, ZeroBlock()) == a
  {
    assert forall x: bv8 :: Add(x, 0) == x;
  }
}
