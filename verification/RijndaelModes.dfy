/** The padded modes of anonymizer/rijndael.c, over byte buffers that may be one and the same. */
module RijndaelModes {
  import opened Cipher
  import opened KeyExpansion
  import opened BlockModes
  import R = Rijndael

  function ModeOf(mode: int): Mode {
    if mode == R.ECB then Ecb else Cbc
  }

  function VectorOf(r: R.Rijndael): Block
    reads r, r.initVector
    requires r.initVector.Length == 16
  {
    BlockAt(r.initVector[..], 0)
  }

  // the cipher is set up for this direction and the buffer is none of its own
  ghost predicate Usable(r: R.Rijndael, direction: int, outBuffer: array<bv8>)
    reads r, r.initVector, r.expandedKey
  {
    && r.Valid() && r.state == R.Ready && r.direction == direction
    && outBuffer as object != r.expandedKey && outBuffer != r.initVector
  }

  // ---- encryption ----

  // One block of either mode: the masked plaintext is in a, its encryption goes to block i of the output.
  method EncryptNext(r: R.Rijndael, mode: Mode, a: array<bv8>, j: nat, ghost p: Bytes, outBuffer: array<bv8>, i: nat)
    requires Usable(r, R.ENCRYPT, outBuffer)
    requires j + 16 <= a.Length && 16 * i + 16 <= |p| && 16 * i + 16 <= outBuffer.Length
    requires BlockAt(a[..], j) == XorBlock(BlockAt(p, 16 * i), Mask(mode, VectorOf(r), outBuffer[..], i))
    requires Encrypted(mode, r.key, VectorOf(r), p, outBuffer[..], i)
    modifies outBuffer
    ensures r.Valid() && VectorOf(r) == old(VectorOf(r))
    ensures Encrypted(mode, r.key, VectorOf(r), p, outBuffer[..], i + 1)
    ensures forall k :: 16 * i + 16 <= k < outBuffer.Length ==> outBuffer[k] == old(outBuffer[k])
  {
    hide BlockAt, XorBlock, EncryptWith, Encrypted, Mask;
    ghost var c := outBuffer[..];
    r.Encrypt(a, j, outBuffer, 16 * i);
    assert outBuffer[..16 * i] == c[..16 * i];
    EncryptedStep(mode, r.key, VectorOf(r), p, c, outBuffer[..], i);
  }

  // block := input block i XOR the block at iv
  method XorInto(block: array<bv8>, input: array<bv8>, i: nat, iv: array<bv8>, j: nat)
    requires block.Length == 16
    requires i + 16 <= input.Length && j + 16 <= iv.Length
    modifies block
    ensures BlockAt(block[..], 0) == old(XorBlock(BlockAt(input[..], i), BlockAt(iv[..], j)))
  {
    R.StoreBlock(block, 0, XorBlock(BlockAt(input[..], i), BlockAt(iv[..], j)));
  }

  // the last, partial block of the plaintext and its padding
  method PadInto(block: array<bv8>, input: array<bv8>, inputOctets: nat, ghost p: Bytes)
    requires block.Length == 16 && block != input && inputOctets <= input.Length
    requires |p| == inputOctets
    requires input[inputOctets - inputOctets % 16..inputOctets] == p[inputOctets - inputOctets % 16..]
    modifies block
    ensures BlockAt(block[..], 0) == BlockAt(Padded(p), inputOctets - inputOctets % 16)
  {
    var start := inputOctets - inputOctets % 16;
    var padLen := PadLength(inputOctets);
    assert input[start..inputOctets] == p[start..];
    var i := 0;
    while i < 16
      invariant 0 <= i <= 16
      invariant block[..i] == Padded(p)[start..start + i]
    {
      assert i < 16 - padLen ==> input[start + i] == input[start..inputOctets][i];
      block[i] := if i < 16 - padLen then input[start + i] else padLen as bv8;
      i := i + 1;
    }
    BlockAtSame(block[..], 0, Padded(p), start);
  }

  // what the input buffer still holds at block i is what will be encrypted there
  lemma NextPlaintext(input: Bytes, p: Bytes, i: nat)
    requires |p| <= |input| && 16 * i + 16 <= |p| && input[16 * i..|p|] == p[16 * i..]
    ensures BlockAt(input, 16 * i) == BlockAt(Padded(p), 16 * i)
    ensures BlockAt(input, 16 * i) == XorBlock(BlockAt(Padded(p), 16 * i), ZeroBlock())
    ensures input[16 * i + 16..|p|] == p[16 * i + 16..]
  {
    assert input[16 * i..16 * i + 16] == input[16 * i..|p|][..16] == p[16 * i..][..16];
    assert Padded(p)[16 * i..16 * i + 16] == p[16 * i..][..16];
    BlockAtSame(input, 16 * i, Padded(p), 16 * i);
    XorZero(BlockAt(Padded(p), 16 * i));
    assert input[16 * i + 16..|p|] == input[16 * i..|p|][16..];
  }

  method EcbPadEncrypt(r: R.Rijndael, input: array<bv8>, inputOctets: nat, outBuffer: array<bv8>)
    requires Usable(r, R.ENCRYPT, outBuffer)
    requires inputOctets <= input.Length && 16 * (inputOctets / 16) + 16 <= outBuffer.Length
    modifies outBuffer
    ensures r.Valid()
    ensures Encrypted(Ecb, r.key, VectorOf(r), old(Padded(input[..inputOctets])), outBuffer[..], inputOctets / 16 + 1)
  {
    hide BlockAt, XorBlock, Encrypted, EncryptWith;
    ghost var p := input[..inputOctets];
    var numBlocks := inputOctets / 16;
    var block := new bv8[16];
    var i := 0;
    NothingEncrypted(Ecb, r.key, VectorOf(r), Padded(p), outBuffer[..]);
    while i < numBlocks
      invariant 0 <= i <= numBlocks
      invariant Usable(r, R.ENCRYPT, outBuffer)
      invariant Encrypted(Ecb, r.key, VectorOf(r), Padded(p), outBuffer[..], i)
      invariant input[16 * i..inputOctets] == p[16 * i..]
    {
      NextPlaintext(input[..], p, i);
      ghost var rest := input[16 * i + 16..inputOctets];
      EncryptNext(r, Ecb, input, 16 * i, Padded(p), outBuffer, i);
      assert input[16 * i + 16..inputOctets] == rest;
      i := i + 1;
    }
    PadInto(block, input, inputOctets, p);
    XorZero(BlockAt(Padded(p), 16 * i));
    EncryptNext(r, Ecb, block, 0, Padded(p), outBuffer, i);
  }

  method CbcPadEncrypt(r: R.Rijndael, input: array<bv8>, inputOctets: nat, outBuffer: array<bv8>)
    requires Usable(r, R.ENCRYPT, outBuffer)
    requires inputOctets <= input.Length && 16 * (inputOctets / 16) + 16 <= outBuffer.Length
    modifies outBuffer
    ensures r.Valid()
    ensures Encrypted(Cbc, r.key, VectorOf(r), old(Padded(input[..inputOctets])), outBuffer[..], inputOctets / 16 + 1)
  {
    hide BlockAt, XorBlock, Encrypted, EncryptWith;
    ghost var p := input[..inputOctets];
    var numBlocks := inputOctets / 16;
    var block := new bv8[16];
    var iv, j := r.initVector, 0;
    var i := 0;
    NothingEncrypted(Cbc, r.key, VectorOf(r), Padded(p), outBuffer[..]);
    while i < numBlocks
      invariant 0 <= i <= numBlocks
      invariant Usable(r, R.ENCRYPT, outBuffer)
      invariant (iv == r.initVector || iv == outBuffer) && 0 <= j && j + 16 <= iv.Length
      invariant BlockAt(iv[..], j) == Mask(Cbc, VectorOf(r), outBuffer[..], i)
      invariant Encrypted(Cbc, r.key, VectorOf(r), Padded(p), outBuffer[..], i)
      invariant input[16 * i..inputOctets] == p[16 * i..]
    {
      NextPlaintext(input[..], p, i);
      ghost var rest := input[16 * i + 16..inputOctets];
      XorInto(block, input, 16 * i, iv, j);
      EncryptNext(r, Cbc, block, 0, Padded(p), outBuffer, i);
      assert input[16 * i + 16..inputOctets] == rest;
      iv, j := outBuffer, 16 * i;
      i := i + 1;
    }
    PadInto(block, input, inputOctets, p);
    XorInto(block, block, 0, iv, j);
    EncryptNext(r, Cbc, block, 0, Padded(p), outBuffer, i);
  }

  lemma NothingEncrypted(mode: Mode, key: CipherKey, iv: Block, p: Bytes, c: Bytes)
    ensures Encrypted(mode, key, iv, p, c, 0)
  {}

  /** Rijndael_padEncrypt: the padded encryption of the input, or the code that says why there is none. */
  method PadEncrypt(r: R.Rijndael, input: array?<bv8>, inputOctets: int, outBuffer: array<bv8>) returns (code: int)
    requires r.Valid() && outBuffer as object != r.expandedKey && outBuffer != r.initVector
    requires input != null && inputOctets > 0 ==>
               inputOctets <= input.Length && 16 * (inputOctets / 16) + 16 <= outBuffer.Length
    modifies outBuffer
    ensures r.Valid()
    ensures code == if r.state != R.Ready || r.direction != R.ENCRYPT then R.NOT_INITIALIZED
                    else if input == null || inputOctets <= 0 then 0
                    else if r.mode == R.CFB1 then -1
                    else 16 * (inputOctets / 16) + 16
    ensures code > 0 ==>
              Encrypted(ModeOf(r.mode), r.key, VectorOf(r), old(Padded(input[..inputOctets])), outBuffer[..], code / 16)
  {
    if r.state != R.Ready || r.direction != R.ENCRYPT {
      return R.NOT_INITIALIZED;
    }
    if input == null || inputOctets <= 0 {
      return 0;
    }
    if r.mode == R.ECB {
      EcbPadEncrypt(r, input, inputOctets, outBuffer);
    } else if r.mode == R.CBC {
      CbcPadEncrypt(r, input, inputOctets, outBuffer);
    } else {
      return -1;
    }
    return 16 * (inputOctets / 16 + 1);
  }

  // ---- decryption ----

  lemma DecryptedSlice(mode: Mode, key: CipherKey, iv: Block, c: Bytes, s: Bytes, j: nat, i: nat)
    requires |c| % 16 == 0 && 16 * i + 16 <= |c| && j + 16 <= |s|
    requires BlockAt(s, j) == DecryptedBlock(mode, key, iv, c, i)
    ensures s[j..j + 16] == Decrypted(mode, key, iv, c)[16 * i..16 * i + 16]
  {
    hide BlockAt, ByteOf, DecryptedBlock;
    var x, y := s[j..j + 16], Decrypted(mode, key, iv, c)[16 * i..16 * i + 16];
    forall k | 0 <= k < 16
      ensures x[k] == y[k]
    {
      ByteOfBlockAt(s, j, k);
      assert (16 * i + k) / 16 == i && (16 * i + k) % 16 == k;
    }
  }

  // Decrypts block i into the buffer b at j; iv is the mask the mode wants there.
  method DecryptNext(
    r: R.Rijndael, mode: Mode, input: array<bv8>, ghost c: Bytes, i: nat, iv: Block, b: array<bv8>, j: nat)
    requires Usable(r, R.DECRYPT, b)
    requires 16 * i + 16 <= input.Length && |c| % 16 == 0 && 16 * i + 16 <= |c| && j + 16 <= b.Length
    requires input[16 * i..16 * i + 16] == c[16 * i..16 * i + 16]
    requires iv == Mask(mode, VectorOf(r), c, i)
    modifies b
    ensures r.Valid() && VectorOf(r) == old(VectorOf(r))
    ensures b[j..j + 16] == Decrypted(mode, r.key, VectorOf(r), c)[16 * i..16 * i + 16]
    ensures b[..j] == old(b[..j])
    ensures forall k :: 0 <= k < b.Length && !(j <= k < j + 16) ==> b[k] == old(b[k])
  {
    hide BlockAt, XorBlock, DecryptWith, Decrypted, Mask;
    BlockAtSame(input[..], 16 * i, c, 16 * i);
    r.Decrypt(input, 16 * i, b, j);
    if mode == Cbc {
      R.StoreBlock(b, j, XorBlock(BlockAt(b[..], j), iv));
    } else {
      EcbMask(VectorOf(r), c, i);
      XorZero(BlockAt(b[..], j));
    }
    DecryptedSlice(mode, r.key, VectorOf(r), c, b[..], j, i);
  }

  lemma EcbMask(iv: Block, c: Bytes, i: nat)
    requires 16 * i <= |c|
    ensures Mask(Ecb, iv, c, i) == ZeroBlock()
  {}

  // the checks on the last block, which is still in a buffer of its own
  method CheckPadding(mode: Mode, block: array<bv8>, ghost plain: Bytes) returns (padLen: int)
    requires block.Length == 16 && |plain| >= 16 && block[..] == plain[|plain| - 16..]
    ensures padLen < 0 <==> Unpad(mode, plain) == Corrupted
    ensures padLen >= 0 ==> padLen <= 16 && Unpad(mode, plain) == Plain(plain[..|plain| - padLen])
  {
    assert forall k :: 0 <= k < 16 ==> block[..][k] == plain[|plain| - 16..][k];
    padLen := block[15] as int;
    if !PadLengthAccepted(mode, padLen) {
      return -1;
    }
    var i := 16 - padLen;
    while i < 16
      invariant 16 - padLen <= i <= 16
      invariant forall k :: 16 - padLen <= k < i ==> block[k] == block[15]
    {
      if block[i] != block[15] {
        assert plain[|plain| - 16 + i] != plain[|plain| - 1];
        return -1;
      }
      i := i + 1;
    }
    forall k | |plain| - padLen <= k < |plain|
      ensures plain[k] == plain[|plain| - 1]
    {
      assert block[..][k - (|plain| - 16)] == plain[k];
    }
  }

  // the code and the output that go with an unpadded text
  ghost predicate Delivered(u: Unpadded, code: int, outBuffer: Bytes) {
    match u
    case Corrupted => code == R.CORRUPTED_DATA
    case Plain(bytes) => code == |bytes| <= |outBuffer| && outBuffer[..code] == bytes
  }

  method DecryptBlocks(
    r: R.Rijndael, mode: Mode, input: array<bv8>, inputOctets: nat, ghost c: Bytes, outBuffer: array<bv8>)
    returns (code: int)
    requires Usable(r, R.DECRYPT, outBuffer)
    requires 16 <= inputOctets <= input.Length && inputOctets % 16 == 0 && inputOctets <= outBuffer.Length
    requires c == input[..inputOctets]
    modifies outBuffer
    ensures r.Valid() && VectorOf(r) == old(VectorOf(r))
    ensures Delivered(Unpad(mode, Decrypted(mode, r.key, VectorOf(r), c)), code, outBuffer[..])
  {
    hide BlockAt, XorBlock, DecryptWith, Decrypted, Mask, Unpad, Schedule, IsDecryptionSchedule;
    ghost var vector := VectorOf(r);
    ghost var plain := Decrypted(mode, r.key, vector, c);
    var numBlocks := inputOctets / 16;
    var block := new bv8[16];
    var iv := if mode == Ecb then ZeroBlock() else VectorOf(r);
    FirstMask(mode, vector, c);
    var i := 0;
    while i < numBlocks - 1
      invariant 0 <= i <= numBlocks - 1
      invariant Usable(r, R.DECRYPT, outBuffer) && VectorOf(r) == vector
      invariant iv == Mask(mode, vector, c, i)
      invariant outBuffer[..16 * i] == plain[..16 * i]
      invariant input[16 * i..inputOctets] == c[16 * i..]
    {
      iv := DecryptTurn(r, mode, input, inputOctets, c, i, iv, block, outBuffer);
      i := i + 1;
    }
    code := DecryptLast(r, mode, input, inputOctets, c, i, iv, block, outBuffer);
  }

  method DecryptLast(r: R.Rijndael, mode: Mode, input: array<bv8>, inputOctets: nat, ghost c: Bytes, i: nat, iv: Block,
                     block: array<bv8>, outBuffer: array<bv8>)
    returns (code: int)
    requires Usable(r, R.DECRYPT, outBuffer) && Usable(r, R.DECRYPT, block) && block != outBuffer
    requires |c| == inputOctets <= input.Length && inputOctets % 16 == 0 && inputOctets <= outBuffer.Length
    requires block.Length == 16 && 16 * i + 16 == inputOctets
    requires iv == Mask(mode, VectorOf(r), c, i)
    requires outBuffer[..16 * i] == Decrypted(mode, r.key, VectorOf(r), c)[..16 * i]
    requires input[16 * i..inputOctets] == c[16 * i..]
    modifies block, outBuffer
    ensures r.Valid() && VectorOf(r) == old(VectorOf(r))
    ensures Delivered(Unpad(mode, Decrypted(mode, r.key, VectorOf(r), c)), code, outBuffer[..])
  {
    hide BlockAt, XorBlock, DecryptWith, Decrypted, Mask, Unpad, Schedule, IsDecryptionSchedule;
    ghost var plain := Decrypted(mode, r.key, VectorOf(r), c);
    NextCiphertext(mode, VectorOf(r), input[..], c, i);
    DecryptNext(r, mode, input, c, i, iv, block, 0);
    var padLen := CheckPadding(mode, block, plain);
    if padLen < 0 {
      return R.CORRUPTED_DATA;
    }
    CopyBytes(block, 16 - padLen, outBuffer, 16 * i);
    assert plain[16 * i..][..16 - padLen] == plain[16 * i..inputOctets - padLen];
    PrefixGrows(outBuffer[..], plain, 16 * i, inputOctets - padLen);
    return inputOctets - padLen;
  }

  // one turn of the loop over all blocks but the last
  method DecryptTurn(r: R.Rijndael, mode: Mode, input: array<bv8>, inputOctets: nat, ghost c: Bytes, i: nat, iv: Block,
                     block: array<bv8>, outBuffer: array<bv8>)
    returns (next: Block)
    requires Usable(r, R.DECRYPT, outBuffer) && Usable(r, R.DECRYPT, block) && block != outBuffer && block != input
    requires |c| == inputOctets <= input.Length && inputOctets % 16 == 0 && inputOctets <= outBuffer.Length
    requires block.Length == 16 && 16 * i + 16 <= inputOctets
    requires iv == Mask(mode, VectorOf(r), c, i)
    requires outBuffer[..16 * i] == Decrypted(mode, r.key, VectorOf(r), c)[..16 * i]
    requires input[16 * i..inputOctets] == c[16 * i..]
    modifies block, outBuffer
    ensures r.Valid() && VectorOf(r) == old(VectorOf(r))
    ensures next == Mask(mode, VectorOf(r), c, i + 1)
    ensures outBuffer[..16 * i + 16] == Decrypted(mode, r.key, VectorOf(r), c)[..16 * i + 16]
    ensures input[16 * i + 16..inputOctets] == c[16 * i + 16..]
  {
    hide BlockAt, XorBlock, DecryptWith, Decrypted, Mask, Schedule, IsDecryptionSchedule;
    NextCiphertext(mode, VectorOf(r), input[..], c, i);
    next := if mode == Ecb then iv else BlockAt(input[..], 16 * i);
    if mode == Ecb {
      DecryptNext(r, mode, input, c, i, iv, outBuffer, 16 * i);
    } else {
      DecryptNext(r, mode, input, c, i, iv, block, 0);
      CopyBytes(block, 16, outBuffer, 16 * i);
    }
    PrefixGrows(outBuffer[..], Decrypted(mode, r.key, VectorOf(r), c), 16 * i, 16 * i + 16);
  }

  lemma PrefixGrows(s: Bytes, plain: Bytes, n: nat, m: nat)
    requires n <= m <= |s| && m <= |plain|
    requires s[..n] == plain[..n] && s[n..m] == plain[n..m]
    ensures s[..m] == plain[..m]
  {
    assert s[..m] == s[..n] + s[n..m];
    assert plain[..m] == plain[..n] + plain[n..m];
  }

  method CopyBytes(block: array<bv8>, n: nat, outBuffer: array<bv8>, j: nat)
    requires block != outBuffer && n <= block.Length && j + n <= outBuffer.Length
    modifies outBuffer
    ensures outBuffer[j..j + n] == block[..n] && outBuffer[..j] == old(outBuffer[..j])
    ensures forall k :: 0 <= k < outBuffer.Length && !(j <= k < j + n) ==> outBuffer[k] == old(outBuffer[k])
  {
    for k := 0 to n
      invariant outBuffer[j..j + k] == block[..k]
      invariant forall m :: 0 <= m < outBuffer.Length && !(j <= m < j + k) ==> outBuffer[m] == old(outBuffer[m])
    {
      outBuffer[j + k] := block[k];
    }
  }

  lemma FirstMask(mode: Mode, iv: Block, c: Bytes)
    ensures Mask(mode, iv, c, 0) == if mode == Ecb then ZeroBlock() else iv
  {}

  lemma NextCiphertext(mode: Mode, iv: Block, input: Bytes, c: Bytes, i: nat)
    requires |c| <= |input| && 16 * i + 16 <= |c| && input[16 * i..|c|] == c[16 * i..]
    ensures input[16 * i..16 * i + 16] == c[16 * i..16 * i + 16]
    ensures input[16 * i + 16..|c|] == c[16 * i + 16..]
    ensures Mask(mode, iv, c, i + 1) == if mode == Ecb then Mask(mode, iv, c, i) else BlockAt(input, 16 * i)
  {
    hide BlockAt;
    assert input[16 * i..16 * i + 16] == input[16 * i..|c|][..16] == c[16 * i..][..16];
    assert c[16 * i..16 * i + 16] == c[16 * i..][..16];
    assert input[16 * i + 16..|c|] == input[16 * i..|c|][16..];
    BlockAtSame(input, 16 * i, c, 16 * i);
  }

  /** Rijndael_padDecrypt: the unpadded plaintext, or the code that says why there is none. */
  method PadDecrypt(r: R.Rijndael, input: array?<bv8>, inputOctets: int, outBuffer: array<bv8>) returns (code: int)
    requires r.Valid() && outBuffer as object != r.expandedKey && outBuffer != r.initVector
    requires input != null && inputOctets > 0 ==> inputOctets <= input.Length && inputOctets <= outBuffer.Length
    modifies outBuffer
    ensures r.Valid()
    ensures r.state != R.Ready ==> code == R.NOT_INITIALIZED
    ensures r.state == R.Ready && r.direction != R.DECRYPT ==> code == R.BAD_DIRECTION
    ensures r.state == R.Ready && r.direction == R.DECRYPT ==>
              if input == null || inputOctets <= 0 then code == 0
              else if inputOctets % 16 != 0 then code == R.CORRUPTED_DATA
              else if r.mode == R.CFB1 then code == -1
              else Delivered(Unpad(ModeOf(r.mode),
                                    Decrypted(ModeOf(r.mode), r.key, VectorOf(r), old(input[..inputOctets]))),
                             code, outBuffer[..])
  {
    if r.state != R.Ready {
      return R.NOT_INITIALIZED;
    }
    if r.direction != R.DECRYPT {
      return R.BAD_DIRECTION;
    }
    if input == null || inputOctets <= 0 {
      return 0;
    }
    if inputOctets % 16 != 0 {
      return R.CORRUPTED_DATA;
    }
    if r.mode != R.ECB && r.mode != R.CBC {
      return -1;
    }
    hide Unpad, Decrypted, Delivered, Schedule, IsDecryptionSchedule, BlockAt;
    code := DecryptBlocks(r, ModeOf(r.mode), input, inputOctets, input[..inputOctets], outBuffer);
  }

  /**
   * The session that rijndael.h shows as its example of usage, for any key, vector and input: what comes back is the
   * input, except that ECB reports whole-block inputs as corrupted.
   */
  method Session(mode: int, keyBytes: array<bv8>, keyLen: int, vector: array?<bv8>, input: array<bv8>)
    returns (len: int, output2: array<bv8>)
    requires mode == R.ECB || mode == R.CBC
    requires 0 <= keyLen <= 2 && 16 + 8 * keyLen <= keyBytes.Length
    requires vector != null ==> vector.Length >= 16
    requires input.Length > 0
    ensures if mode == R.CBC || input.Length % 16 != 0 then
              len == input.Length <= output2.Length && output2[..len] == input[..]
            else len == R.CORRUPTED_DATA
  {
    hide Unpad, Padded, Decrypted, Encrypted, Schedule, IsDecryptionSchedule, BlockAt;
    var r := new R.Rijndael();
    var output := new bv8[input.Length + 16];
    output2 := new bv8[input.Length + 16];
    var code := r.Init(mode, R.ENCRYPT, keyBytes, keyLen, vector);
    ghost var key, iv := r.key, VectorOf(r);
    assert input[..input.Length] == input[..];
    PaddedLength(input[..]);
    len := PadEncrypt(r, input, input.Length, output);
    ghost var c := output[..len];
    EncryptedPrefix(ModeOf(mode), key, iv, Padded(input[..]), output[..], len);
    code := r.Init(mode, R.DECRYPT, keyBytes, keyLen, vector);
    assert r.key == key;
    assert VectorOf(r) == iv;
    len := PadDecrypt(r, output, len, output2);
    PaddedRoundTrip(ModeOf(mode), key, iv, input[..], c);
  }

  lemma PaddedLength(p: Bytes)
    ensures |Padded(p)| == 16 * (|p| / 16) + 16
  {}

  lemma EncryptedPrefix(mode: Mode, key: CipherKey, iv: Block, p: Bytes, c: Bytes, len: nat)
    requires len <= |c| && len % 16 == 0 && Encrypted(mode, key, iv, p, c, len / 16)
    ensures Encrypted(mode, key, iv, p, c[..len], len / 16)
  {
    hide BlockAt, EncryptWith, XorBlock, Mask;
    forall i | 0 <= i < len / 16
      ensures BlockAt(c[..len], 16 * i) == EncryptWith(key, XorBlock(BlockAt(p, 16 * i), Mask(mode, iv, c[..len], i)))
    {
      BlockAtPrefix(c, c[..len], 16 * i, len);
      assert c[..len][..16 * i] == c[..16 * i];
      MaskPrefix(mode, iv, c, c[..len], i);
    }
  }
}
