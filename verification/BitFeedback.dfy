/** One-bit cipher feedback (section 6.3 of NIST SP 800-38A with s = 1) as rijndael.c runs it over one block. */
module BitFeedback {
  import opened GaloisField
  import opened Cipher
  import opened KeyExpansion
  import opened Bits
  import ZeroKey
  import R = Rijndael

  type Bytes = seq<bv8>

  function ShiftWord(w: Word, next: bv8): Word {
    Word((w.b0 << 1) | (w.b1 >> 7), (w.b1 << 1) | (w.b2 >> 7), (w.b2 << 1) | (w.b3 >> 7), (w.b3 << 1) | next)
  }

  // the shift register moves up one bit and takes in the given one
  function ShiftIn(s: Block, bit: bool): Block {
    Block(ShiftWord(s.c0, s.c1.b0 >> 7), ShiftWord(s.c1, s.c2.b0 >> 7), ShiftWord(s.c2, s.c3.b0 >> 7),
          ShiftWord(s.c3, if bit then 1 else 0))
  }

  // the register once the first k bits of the ciphertext have gone through it
  function Register(iv: Block, c: Bytes, k: nat): Block
    requires k <= 8 * |c|
  {
    if k == 0 then iv else ShiftIn(Register(iv, c, k - 1), Bit(c, k - 1))
  }

  // the sixteen bytes of a block
  function BytesOf(s: Block): (b: Bytes)
    ensures |b| == 16
  {
    [s.c0.b0, s.c0.b1, s.c0.b2, s.c0.b3, s.c1.b0, s.c1.b1, s.c1.b2, s.c1.b3,
     s.c2.b0, s.c2.b1, s.c2.b2, s.c2.b3, s.c3.b0, s.c3.b1, s.c3.b2, s.c3.b3]
  }

  lemma ShiftedByteBit(b: bv8, next: bv8, m: nat)
    requires m < 8
    ensures ByteBit((b << 1) | (next >> 7), m) == if m < 7 then ByteBit(b, m + 1) else ByteBit(next, 0)
  {}

  lemma LastByteBit(b: bv8, bit: bool, m: nat)
    requires m < 8
    ensures ByteBit((b << 1) | (if bit then 1 else 0), m) == if m < 7 then ByteBit(b, m + 1) else bit
  {}

  // a byte that takes in the first bit of the next one
  function TakesIn(b: bv8, next: bv8): bv8 {
    (b << 1) | (next >> 7)
  }

  function LastIn(b: bv8, bit: bool): bv8 {
    (b << 1) | (if bit then 1 else 0)
  }

  lemma ShiftedWord(w: Word, last: bv8, bit: bool)
    ensures ShiftWord(w, last >> 7)
            == Word(TakesIn(w.b0, w.b1), TakesIn(w.b1, w.b2), TakesIn(w.b2, w.b3), TakesIn(w.b3, last))
    ensures ShiftWord(w, if bit then 1 else 0)
            == Word(TakesIn(w.b0, w.b1), TakesIn(w.b1, w.b2), TakesIn(w.b2, w.b3), LastIn(w.b3, bit))
  {}

  lemma ShiftedBlock(s: Block, bit: bool)
    ensures var a, b, c, d := s.c0, s.c1, s.c2, s.c3;
            ShiftIn(s, bit)
            == Block(Word(TakesIn(a.b0, a.b1), TakesIn(a.b1, a.b2), TakesIn(a.b2, a.b3), TakesIn(a.b3, b.b0)),
                     Word(TakesIn(b.b0, b.b1), TakesIn(b.b1, b.b2), TakesIn(b.b2, b.b3), TakesIn(b.b3, c.b0)),
                     Word(TakesIn(c.b0, c.b1), TakesIn(c.b1, c.b2), TakesIn(c.b2, c.b3), TakesIn(c.b3, d.b0)),
                     Word(TakesIn(d.b0, d.b1), TakesIn(d.b1, d.b2), TakesIn(d.b2, d.b3), LastIn(d.b3, bit)))
  {
    hide TakesIn, LastIn, ShiftWord;
    ShiftedWord(s.c0, s.c1.b0, bit);
    ShiftedWord(s.c1, s.c2.b0, bit);
    ShiftedWord(s.c2, s.c3.b0, bit);
    ShiftedWord(s.c3, 0, bit);
  }

  predicate BytesShift(s: Block, bit: bool, i: nat)
    requires i < 16
  {
    BytesOf(ShiftIn(s, bit))[i]
    == if i < 15 then TakesIn(BytesOf(s)[i], BytesOf(s)[i + 1]) else LastIn(BytesOf(s)[15], bit)
  }

  lemma ShiftedBytes0(s: Block, bit: bool)
    ensures BytesShift(s, bit, 0) && BytesShift(s, bit, 1) && BytesShift(s, bit, 2) && BytesShift(s, bit, 3)
  {
    hide TakesIn, LastIn, ShiftIn;
    ShiftedBlock(s, bit);
  }

  lemma ShiftedBytes1(s: Block, bit: bool)
    ensures BytesShift(s, bit, 4) && BytesShift(s, bit, 5) && BytesShift(s, bit, 6) && BytesShift(s, bit, 7)
  {
    hide TakesIn, LastIn, ShiftIn;
    ShiftedBlock(s, bit);
  }

  lemma ShiftedBytes2(s: Block, bit: bool)
    ensures BytesShift(s, bit, 8) && BytesShift(s, bit, 9) && BytesShift(s, bit, 10) && BytesShift(s, bit, 11)
  {
    hide TakesIn, LastIn, ShiftIn;
    ShiftedBlock(s, bit);
  }

  lemma ShiftedBytes3(s: Block, bit: bool)
    ensures BytesShift(s, bit, 12) && BytesShift(s, bit, 13) && BytesShift(s, bit, 14) && BytesShift(s, bit, 15)
  {
    hide TakesIn, LastIn, ShiftIn;
    ShiftedBlock(s, bit);
  }

  lemma ShiftedBytes(s: Block, bit: bool, i: nat)
    requires i < 16
    ensures BytesShift(s, bit, i)
  {
    hide BytesShift;
    ShiftedBytes0(s, bit);
    ShiftedBytes1(s, bit);
    ShiftedBytes2(s, bit);
    ShiftedBytes3(s, bit);
  }

  lemma ShiftedBit(s: Block, bit: bool, j: nat)
    requires j < 128
    ensures Bit(BytesOf(ShiftIn(s, bit)), j) == if j < 127 then Bit(BytesOf(s), j + 1) else bit
  {
    hide ByteBit, BytesOf, ShiftIn;
    var i, m := j / 8, j % 8;
    ShiftedBytes(s, bit, i);
    if i < 15 {
      ShiftedByteBit(BytesOf(s)[i], BytesOf(s)[i + 1], m);
    } else {
      LastByteBit(BytesOf(s)[i], bit, m);
    }
    assert m < 7 ==> (j + 1) / 8 == i && (j + 1) % 8 == m + 1;
    assert m == 7 ==> (j + 1) / 8 == i + 1 && (j + 1) % 8 == 0;
  }

  /** The register after k bits: the last 128 bits of the vector followed by the ciphertext so far. */
  lemma {:induction false} RegisterBits(iv: Block, c: Bytes, k: nat, j: nat)
    requires k <= 8 * |c| && j < 128
    ensures Bit(BytesOf(Register(iv, c, k)), j) == if j + k < 128 then Bit(BytesOf(iv), j + k) else Bit(c, j + k - 128)
    decreases k
  {
    hide Bit, BytesOf, ShiftIn;
    if k > 0 {
      ShiftedBit(Register(iv, c, k - 1), Bit(c, k - 1), j);
      if j < 127 {
        RegisterBits(iv, c, k - 1, j + 1);
      }
    }
  }

  // the first bit of the encrypted register
  function KeyBit(w: seq<Word>, nr: nat, register: Block): bool
    requires 1 <= nr && 4 * nr + 4 <= |w|
  {
    ByteBit(Encrypt(w, nr, register).c0.b0, 0)
  }

  // y is x, each of the first n bits changed by the key bit that the ciphertext c gives it
  ghost predicate Masked(w: seq<Word>, nr: nat, iv: Block, x: Bytes, c: Bytes, y: Bytes, n: nat)
    requires 1 <= nr && 4 * nr + 4 <= |w|
  {
    && |x| == |y| && n <= 8 * |x| && n <= 8 * |c|
    && forall k :: 0 <= k < n ==> Bit(y, k) == (Bit(x, k) != KeyBit(w, nr, Register(iv, c, k)))
  }

  lemma {:induction false} RegisterSame(iv: Block, c: Bytes, d: Bytes, k: nat)
    requires SameBits(c, d, 0, k)
    ensures Register(iv, c, k) == Register(iv, d, k)
  {
    hide ShiftIn, ByteBit;
    if k > 0 {
      RegisterSame(iv, c, d, k - 1);
      assert Bit(c, k - 1) == Bit(d, k - 1);
    }
  }

  // two schedules give the same key bits while this ciphertext goes through the register
  ghost predicate SameKeyBits(w: seq<Word>, v: seq<Word>, nr: nat, iv: Block, c: Bytes, n: nat)
    requires 1 <= nr && 4 * nr + 4 <= |w| && 4 * nr + 4 <= |v| && n <= 8 * |c|
  {
    forall k :: 0 <= k < n ==> KeyBit(w, nr, Register(iv, c, k)) == KeyBit(v, nr, Register(iv, c, k))
  }

  /**
   * Masking a block over one schedule with the ciphertext as feedback, then again over another, gives the plaintext
   * back exactly when the two have the same key bits for the ciphertext; so it does over one schedule.
   */
  lemma FeedbackRoundTrip(w: seq<Word>, v: seq<Word>, nr: nat, iv: Block, p: Bytes, c: Bytes, d: Bytes)
    requires 1 <= nr && 4 * nr + 4 <= |w| && 4 * nr + 4 <= |v|
    requires |p| == |c| == |d| == 16
    requires Masked(w, nr, iv, p, c, c, 128)
    requires Masked(v, nr, iv, c, c, d, 128)
    ensures d == p <==> SameKeyBits(w, v, nr, iv, c, 128)
    ensures w == v ==> d == p
  {
    hide ByteBit, Register, KeyBit, Bit;
    if SameKeyBits(w, v, nr, iv, c, 128) {
      SameString(d, p);
    }
    if d == p {
      forall k | 0 <= k < 128
        ensures KeyBit(w, nr, Register(iv, c, k)) == KeyBit(v, nr, Register(iv, c, k))
      {
        assert Bit(c, k) == (Bit(p, k) != KeyBit(w, nr, Register(iv, c, k)));
        assert Bit(d, k) == (Bit(c, k) != KeyBit(v, nr, Register(iv, c, k)));
      }
    }
  }

  // ---- the two directions ----

  // what Init leaves in the key array: for decryption, the inner round keys are inversely mixed
  function ScheduleFor(key: CipherKey, direction: int): (w: seq<Word>)
    ensures |w| == 4 * RoundsFor(key) + 4
  {
    var w := Schedule(key);
    if direction == R.ENCRYPT then w
    else seq(|w|, i requires 0 <= i < |w| => if 4 <= i < 4 * RoundsFor(key) then InvMixColumn(w[i]) else w[i])
  }

  lemma SchedulePrefix(r: R.Rijndael)
    requires r.Valid() && r.state == R.Ready
    ensures ScheduleFor(r.key, r.direction) <= r.expandedKey[..]
  {
    hide InvMixColumn;
  }

  lemma KeyBitPrefix(w: seq<Word>, v: seq<Word>, nr: nat, register: Block)
    requires 1 <= nr && 4 * nr + 4 <= |w| && w <= v
    ensures KeyBit(v, nr, register) == KeyBit(w, nr, register)
  {
    EncryptPrefix(w, v, nr, register);
  }

  lemma MaskedPrefix(w: seq<Word>, v: seq<Word>, nr: nat, iv: Block, x: Bytes, c: Bytes, y: Bytes, n: nat)
    requires 1 <= nr && 4 * nr + 4 <= |w| && w <= v && Masked(v, nr, iv, x, c, y, n)
    ensures Masked(w, nr, iv, x, c, y, n)
  {
    hide KeyBit, Register, Bit;
    forall k | 0 <= k < n
      ensures Bit(y, k) == (Bit(x, k) != KeyBit(w, nr, Register(iv, c, k)))
    {
      KeyBitPrefix(w, v, nr, Register(iv, c, k));
    }
  }

  /** Under the key of zero bytes and the zero vector, the two directions differ in the first key bit already. */
  lemma DirectionsDiffer()
    ensures !KeyBit(ScheduleFor(ZeroKey.Key(), R.ENCRYPT), 10, ZeroKey.Zero())
    ensures KeyBit(ScheduleFor(ZeroKey.Key(), R.DECRYPT), 10, ZeroKey.Zero())
  {
    hide InvMixColumn, Cipher.Encrypt, ExpandedWord;
    var key := ZeroKey.Key();
    forall r | 0 <= r <= 10
      ensures RoundKey(ScheduleFor(key, R.ENCRYPT), r) == ZeroKey.RoundKeyAt(r)
      ensures RoundKey(ScheduleFor(key, R.DECRYPT), r) == ZeroKey.InvKeyAt(r)
    {
      ZeroKey.RoundKeyIs(r);
      ZeroKey.InvKeyIs(r);
    }
    ZeroKey.StateEnds(ScheduleFor(key, R.ENCRYPT));
    ZeroKey.InvStateFirst(ScheduleFor(key, R.DECRYPT));
  }

  /** So whatever is encrypted under them comes back from an object set up for decryption with its first bit flipped. */
  lemma WrongDirectionFlips(p: Bytes, c: Bytes, d: Bytes)
    requires |p| == |c| == |d| == 16
    requires Masked(ScheduleFor(ZeroKey.Key(), R.ENCRYPT), 10, ZeroKey.Zero(), p, c, c, 128)
    requires Masked(ScheduleFor(ZeroKey.Key(), R.DECRYPT), 10, ZeroKey.Zero(), c, c, d, 128)
    ensures Bit(d, 0) != Bit(p, 0)
  {
    hide KeyBit, Bit, ScheduleFor;
    DirectionsDiffer();
    assert Register(ZeroKey.Zero(), c, 0) == ZeroKey.Zero();
  }

  lemma FeedbackStep(w: seq<Word>, nr: nat, iv: Block, x: Bytes, c: Bytes, d: Bytes, k: nat)
    requires 1 <= nr && 4 * nr + 4 <= |w| && |c| == |d|
    requires Masked(w, nr, iv, x, c, c, k) && SameBits(c, x, k, 8 * |x|) && k < 8 * |x|
    requires Flipped(c, d, k, KeyBit(w, nr, Register(iv, c, k)))
    ensures Masked(w, nr, iv, x, d, d, k + 1) && SameBits(d, x, k + 1, 8 * |x|)
    ensures Register(iv, d, k) == Register(iv, c, k)
  {
    hide ByteBit, KeyBit, Register, Bit;
    RegisterSame(iv, c, d, k);
    forall i | 0 <= i < k + 1
      ensures Bit(d, i) == (Bit(x, i) != KeyBit(w, nr, Register(iv, d, i)))
    {
      RegisterSame(iv, c, d, i);
    }
  }

  lemma NothingMasked(w: seq<Word>, nr: nat, iv: Block, x: Bytes, c: Bytes)
    requires 1 <= nr && 4 * nr + 4 <= |w|
    ensures Masked(w, nr, iv, x, c, x, 0)
  {}

  lemma MaskStep(w: seq<Word>, nr: nat, iv: Block, x: Bytes, c: Bytes, y: Bytes, z: Bytes, k: nat)
    requires 1 <= nr && 4 * nr + 4 <= |w|
    requires Masked(w, nr, iv, x, c, y, k) && SameBits(y, x, k, 8 * |x|) && k < 8 * |x| && k < 8 * |c|
    requires Flipped(y, z, k, KeyBit(w, nr, Register(iv, c, k)))
    ensures Masked(w, nr, iv, x, c, z, k + 1) && SameBits(z, x, k + 1, 8 * |x|)
  {
    hide ByteBit, KeyBit, Register, Bit;
  }

  lemma FlippedAbove(y: Bytes, z: Bytes, c: Bytes, k: nat, flip: bool)
    requires Flipped(y, z, k, flip) && SameBits(y, c, k, 8 * |y|)
    ensures SameBits(z, c, k + 1, 8 * |z|)
  {
    hide Bit;
  }

  // b[k / 8] ^= (x & 0x80) >> (k & 7)
  method FlipIn(b: array<bv8>, k: nat, x: bv8)
    requires k < 8 * b.Length
    modifies b
    ensures Flipped(old(b[..]), b[..], k, ByteBit(x, 0))
  {
    hide Flipped, ByteBit;
    FlipBitOf(b[..], x, k);
    ghost var was := b[..];
    b[k / 8] := b[k / 8] ^ ((x & 0x80) >> (k % 8));
    assert b[..] == was[k / 8 := was[k / 8] ^ ((x & 0x80) >> (k % 8))];
  }

  lemma FirstByte(s: Bytes)
    requires |s| >= 16
    ensures BlockAt(s, 0).c0.b0 == s[0]
  {}

  /** The CFB1 branch of Rijndael_blockEncrypt for one block: the output buffer holds the plaintext on entry. */
  method EncryptOneBlock(r: R.Rijndael, outBuffer: array<bv8>)
    requires r.Valid() && 2 <= r.uRounds <= 14
    requires outBuffer.Length >= 16 && outBuffer != r.initVector && outBuffer as object != r.expandedKey
    modifies outBuffer
    ensures Masked(r.expandedKey[..], r.uRounds, BlockAt(r.initVector[..], 0), old(outBuffer[..]), outBuffer[..],
                   outBuffer[..], 128)
    ensures SameBits(outBuffer[..], old(outBuffer[..]), 128, 8 * outBuffer.Length)
  {
    hide ByteBit, Bit, ShiftIn, BlockAt, Cipher.Encrypt, Flipped, Masked;
    ghost var w, x, vector := r.expandedKey[..], outBuffer[..], BlockAt(r.initVector[..], 0);
    var block := new bv8[16];
    var iv := BlockAt(r.initVector[..], 0);
    NothingMasked(w, r.uRounds, vector, x, outBuffer[..]);
    var k := 0;
    while k < 128
      invariant 0 <= k <= 128
      invariant r.expandedKey[..] == w
      invariant iv == Register(vector, outBuffer[..], k)
      invariant Masked(w, r.uRounds, vector, x, outBuffer[..], outBuffer[..], k)
      invariant SameBits(outBuffer[..], x, k, 8 * outBuffer.Length)
    {
      ghost var c := outBuffer[..];
      R.StoreBlock(block, 0, iv);
      r.EncryptBlock(block, 0, block, 0);
      FirstByte(block[..]);
      FlipIn(outBuffer, k, block[0]);
      FeedbackStep(w, r.uRounds, vector, x, c, outBuffer[..], k);
      iv := ShiftIn(iv, Bit(outBuffer[..], k));
      k := k + 1;
    }
  }

  /**
   * The CFB1 branch of Rijndael_blockDecrypt for one block: the output buffer holds the ciphertext on entry, and may
   * be the input buffer. The keystream comes from encrypt() over the schedule in place, whatever the direction.
   */
  method DecryptOneBlock(r: R.Rijndael, input: array<bv8>, outBuffer: array<bv8>)
    requires r.Valid() && 2 <= r.uRounds <= 14 && input.Length >= 16
    requires outBuffer.Length >= 16 && outBuffer != r.initVector && outBuffer as object != r.expandedKey
    modifies outBuffer
    ensures Masked(r.expandedKey[..], r.uRounds, BlockAt(r.initVector[..], 0), old(outBuffer[..]), old(input[..]),
                   outBuffer[..], 128)
    ensures SameBits(outBuffer[..], old(outBuffer[..]), 128, 8 * outBuffer.Length)
  {
    hide ByteBit, Bit, ShiftIn, BlockAt, Cipher.Encrypt, Flipped, Masked;
    ghost var w, x, vector := r.expandedKey[..], outBuffer[..], BlockAt(r.initVector[..], 0);
    ghost var c := input[..];
    var block := new bv8[16];
    var iv := BlockAt(r.initVector[..], 0);
    NothingMasked(w, r.uRounds, vector, x, c);
    var k := 0;
    while k < 128
      invariant 0 <= k <= 128
      invariant r.expandedKey[..] == w
      invariant iv == Register(vector, c, k)
      invariant Masked(w, r.uRounds, vector, x, c, outBuffer[..], k)
      invariant SameBits(outBuffer[..], x, k, 8 * outBuffer.Length)
      invariant SameBits(input[..], c, k, 8 * input.Length)
    {
      R.StoreBlock(block, 0, iv);
      r.EncryptBlock(block, 0, block, 0);
      FirstByte(block[..]);
      assert Bit(input[..], k) == Bit(c, k);
      iv := ShiftIn(iv, Bit(input[..], k));
      ghost var y := outBuffer[..];
      FlipIn(outBuffer, k, block[0]);
      MaskStep(w, r.uRounds, vector, x, c, y, outBuffer[..], k);
      if input == outBuffer {
        FlippedAbove(y, outBuffer[..], c, k, KeyBit(w, r.uRounds, Register(vector, c, k)));
      }
      k := k + 1;
    }
  }

  ghost function VectorOf(vector: array?<bv8>): (iv: Bytes)
    requires vector != null ==> vector.Length >= 16
    reads vector
    ensures |iv| == 16
  {
    if vector != null then vector[..16] else seq(16, _ => 0)
  }

  ghost predicate IsKey(key: CipherKey, keyBytes: Bytes, keyLen: int) {
    && 0 <= keyLen <= 2 && |keyBytes| >= 16 + 8 * keyLen && |key| == 4 + 2 * keyLen
    && forall i :: 0 <= i < |key| ==> key[i] == WordAt(keyBytes, 4 * i)
  }

  // the object under this key, vector and direction
  method SetUp(direction: int, keyBytes: array<bv8>, keyLen: int, vector: array?<bv8>) returns (r: R.Rijndael)
    requires direction in {R.ENCRYPT, R.DECRYPT} && 0 <= keyLen <= 2 && 16 + 8 * keyLen <= keyBytes.Length
    requires vector != null ==> vector.Length >= 16
    ensures fresh(r) && fresh(r.initVector) && fresh(r.expandedKey)
    ensures r.Valid() && r.state == R.Ready && r.mode == R.CFB1 && r.direction == direction
    ensures IsKey(r.key, keyBytes[..], keyLen) && r.initVector[..] == VectorOf(vector)
  {
    hide WordAt, ScheduleFor, Schedule;
    r := new R.Rijndael();
    var code := r.Init(R.CFB1, direction, keyBytes, keyLen, vector);
  }

  lemma OneKey(key: CipherKey, other: CipherKey, keyBytes: Bytes, keyLen: int)
    requires IsKey(key, keyBytes, keyLen) && IsKey(other, keyBytes, keyLen)
    ensures key == other
  {
    hide WordAt;
  }

  // encryption in place; c is the ciphertext
  method EncryptWith(r: R.Rijndael, buffer: array<bv8>)
    requires r.Valid() && r.state == R.Ready && r.direction == R.ENCRYPT
    requires buffer.Length == 16 && buffer != r.initVector && buffer as object != r.expandedKey
    modifies buffer
    ensures Masked(ScheduleFor(r.key, r.direction), RoundsFor(r.key), BlockAt(r.initVector[..], 0),
                   old(buffer[..]), buffer[..], buffer[..], 128)
  {
    hide Masked, BlockAt, Bit, ScheduleFor;
    ghost var w, iv, p := r.expandedKey[..], BlockAt(r.initVector[..], 0), buffer[..];
    SchedulePrefix(r);
    EncryptOneBlock(r, buffer);
    MaskedPrefix(ScheduleFor(r.key, r.direction), w, r.uRounds, iv, p, buffer[..], buffer[..], 128);
  }

  // decryption in place, which an object of either direction accepts
  method DecryptWith(r: R.Rijndael, buffer: array<bv8>)
    requires r.Valid() && r.state == R.Ready
    requires buffer.Length == 16 && buffer != r.initVector && buffer as object != r.expandedKey
    modifies buffer
    ensures Masked(ScheduleFor(r.key, r.direction), RoundsFor(r.key), BlockAt(r.initVector[..], 0),
                   old(buffer[..]), old(buffer[..]), buffer[..], 128)
  {
    hide Masked, BlockAt, Bit, ScheduleFor;
    ghost var w, iv, c := r.expandedKey[..], BlockAt(r.initVector[..], 0), buffer[..];
    SchedulePrefix(r);
    DecryptOneBlock(r, buffer, buffer);
    MaskedPrefix(ScheduleFor(r.key, r.direction), w, r.uRounds, iv, c, c, buffer[..], 128);
  }

  /**
   * A block is encrypted in place and, by an object set up with the same key and vector in this direction, decrypted in
   * place. It is restored when the direction is that of encryption; in the other one exactly when, by chance, the two
   * key streams agree for the ciphertext c, which they do not for any plaintext under zero key and vector.
   */
  method FeedbackSession(
    direction: int, keyBytes: array<bv8>, keyLen: int, vector: array?<bv8>, buffer: array<bv8>)
    returns (ghost key: CipherKey, ghost c: Bytes)
    requires direction in {R.ENCRYPT, R.DECRYPT} && 0 <= keyLen <= 2 && 16 + 8 * keyLen <= keyBytes.Length
    requires vector != null ==> vector.Length >= 16
    requires buffer.Length == 16 && buffer != keyBytes && buffer != vector
    modifies buffer
    ensures IsKey(key, keyBytes[..], keyLen)
    ensures Masked(ScheduleFor(key, R.ENCRYPT), RoundsFor(key), BlockAt(VectorOf(vector), 0),
                   old(buffer[..]), c, c, 128)
    ensures direction == R.ENCRYPT ==> buffer[..] == old(buffer[..])
    ensures buffer[..] == old(buffer[..])
            <==> SameKeyBits(ScheduleFor(key, R.ENCRYPT), ScheduleFor(key, direction), RoundsFor(key),
                             BlockAt(VectorOf(vector), 0), c, 128)
    ensures direction == R.DECRYPT && key == ZeroKey.Key() && BlockAt(VectorOf(vector), 0) == ZeroKey.Zero()
            ==> Bit(buffer[..], 0) != Bit(old(buffer[..]), 0)
  {
    hide Masked, BlockAt, Bit, ScheduleFor, SameKeyBits, IsKey;
    ghost var p, iv := buffer[..], BlockAt(VectorOf(vector), 0);
    var r := SetUp(R.ENCRYPT, keyBytes, keyLen, vector);
    key := r.key;
    EncryptWith(r, buffer);
    c := buffer[..];
    var s := SetUp(direction, keyBytes, keyLen, vector);
    OneKey(key, s.key, keyBytes[..], keyLen);
    DecryptWith(s, buffer);
    FeedbackRoundTrip(ScheduleFor(key, R.ENCRYPT), ScheduleFor(key, direction), RoundsFor(key), iv, p, c, buffer[..]);
    if direction == R.DECRYPT && key == ZeroKey.Key() && iv == ZeroKey.Zero() {
      WrongDirectionFlips(p, c, buffer[..]);
    }
  }
}
