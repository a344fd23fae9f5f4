/** The cipher of FIPS 197 on whole states: the textbook form that the table-driven code must compute. */
module Cipher {
  import opened GaloisField
  import opened SBoxes

  // Four columns of four bytes; byte i of a block is byte i % 4 of column i / 4.
  datatype Block = Block(c0: Word, c1: Word, c2: Word, c3: Word)

  // ---- blocks in byte sequences ----

  function WordAt(s: seq<bv8>, i: nat): Word
    requires i + 4 <= |s|
  {
    Word(s[i], s[i + 1], s[i + 2], s[i + 3])
  }

  function BlockAt(s: seq<bv8>, i: nat): Block
    requires i + 16 <= |s|
  {
    Block(WordAt(s, i), WordAt(s, i + 4), WordAt(s, i + 8), WordAt(s, i + 12))
  }

  function ByteOfWord(w: Word, j: nat): bv8
    requires j < 4
  {
    if j == 0 then w.b0 else if j == 1 then w.b1 else if j == 2 then w.b2 else w.b3
  }

  function ByteOf(s: Block, j: nat): bv8
    requires j < 16
  {
    ByteOfWord(if j < 4 then s.c0 else if j < 8 then s.c1 else if j < 12 then s.c2 else s.c3, j % 4)
  }

  lemma ByteOfBlockAt(s: seq<bv8>, i: nat, j: nat)
    requires i + 16 <= |s| && j < 16
    ensures ByteOf(BlockAt(s, i), j) == s[i + j]
  {}

  // ---- the round transformations, sections 5.1 and 5.3 ----

  function AddRoundKey(s: Block, k: Block): Block {
    Block(Xor(s.c0, k.c0), Xor(s.c1, k.c1), Xor(s.c2, k.c2), Xor(s.c3, k.c3))
  }

  function SubWord(w: Word): Word {
    Word(Sub(w.b0), Sub(w.b1), Sub(w.b2), Sub(w.b3))
  }

  function InvSubWord(w: Word): Word {
    Word(InvSub(w.b0), InvSub(w.b1), InvSub(w.b2), InvSub(w.b3))
  }

  function SubBytes(s: Block): Block {
    Block(SubWord(s.c0), SubWord(s.c1), SubWord(s.c2), SubWord(s.c3))
  }

  function InvSubBytes(s: Block): Block {
    Block(InvSubWord(s.c0), InvSubWord(s.c1), InvSubWord(s.c2), InvSubWord(s.c3))
  }

  // Row r of the state moves r columns to the left.
  function ShiftRows(s: Block): Block {
    Block(Word(s.c0.b0, s.c1.b1, s.c2.b2, s.c3.b3),
          Word(s.c1.b0, s.c2.b1, s.c3.b2, s.c0.b3),
          Word(s.c2.b0, s.c3.b1, s.c0.b2, s.c1.b3),
          Word(s.c3.b0, s.c0.b1, s.c1.b2, s.c2.b3))
  }

  function InvShiftRows(s: Block): Block {
    Block(Word(s.c0.b0, s.c3.b1, s.c2.b2, s.c1.b3),
          Word(s.c1.b0, s.c0.b1, s.c3.b2, s.c2.b3),
          Word(s.c2.b0, s.c1.b1, s.c0.b2, s.c3.b3),
          Word(s.c3.b0, s.c2.b1, s.c1.b2, s.c0.b3))
  }

  function MixColumns(s: Block): Block {
    Block(MixColumn(s.c0), MixColumn(s.c1), MixColumn(s.c2), MixColumn(s.c3))
  }

  function InvMixColumns(s: Block): Block {
    Block(InvMixColumn(s.c0), InvMixColumn(s.c1), InvMixColumn(s.c2), InvMixColumn(s.c3))
  }

  // ---- the ciphers, over a key schedule of four words per round ----

  function RoundKey(w: seq<Word>, r: nat): Block
    requires 4 * r + 4 <= |w|
  {
    Block(w[4 * r], w[4 * r + 1], w[4 * r + 2], w[4 * r + 3])
  }

  // the state after the initial key addition and r full rounds
  function Rounds(w: seq<Word>, r: nat, s: Block): Block
    requires 4 * r + 4 <= |w|
  {
    if r == 0 then AddRoundKey(s, RoundKey(w, 0))
    else AddRoundKey(MixColumns(ShiftRows(SubBytes(Rounds(w, r - 1, s)))), RoundKey(w, r))
  }

  // section 5.1
  function Encrypt(w: seq<Word>, nr: nat, s: Block): Block
    requires 1 <= nr && 4 * nr + 4 <= |w|
  {
    AddRoundKey(ShiftRows(SubBytes(Rounds(w, nr - 1, s))), RoundKey(w, nr))
  }

  // the state of the inverse cipher once the round keys nr, nr - 1, .., r have been added, r >= 1
  function InvRounds(w: seq<Word>, nr: nat, r: nat, s: Block): Block
    requires 1 <= r <= nr && 4 * nr + 4 <= |w|
    decreases nr - r
  {
    if r == nr then AddRoundKey(s, RoundKey(w, nr))
    else InvMixColumns(AddRoundKey(InvSubBytes(InvShiftRows(InvRounds(w, nr, r + 1, s))), RoundKey(w, r)))
  }

  // section 5.3
  function Decrypt(w: seq<Word>, nr: nat, s: Block): Block
    requires 1 <= nr && 4 * nr + 4 <= |w|
  {
    AddRoundKey(InvSubBytes(InvShiftRows(InvRounds(w, nr, 1, s))), RoundKey(w, 0))
  }

  // The equivalent inverse cipher of section 5.3.5: the same order of steps as encryption.
  function EqInvRounds(dw: seq<Word>, nr: nat, r: nat, s: Block): Block
    requires 1 <= r <= nr && 4 * nr + 4 <= |dw|
    decreases nr - r
  {
    if r == nr then AddRoundKey(s, RoundKey(dw, nr))
    else AddRoundKey(InvMixColumns(InvShiftRows(InvSubBytes(EqInvRounds(dw, nr, r + 1, s)))), RoundKey(dw, r))
  }

  function EqInvDecrypt(dw: seq<Word>, nr: nat, s: Block): Block
    requires 1 <= nr && 4 * nr + 4 <= |dw|
  {
    AddRoundKey(InvShiftRows(InvSubBytes(EqInvRounds(dw, nr, 1, s))), RoundKey(dw, 0))
  }

  // the schedule that decryption wants: InvMixColumns on all round keys but the first and the last
  ghost predicate IsDecryptionSchedule(dw: seq<Word>, w: seq<Word>, nr: nat)
    requires 4 * nr + 4 <= |w|
  {
    && 4 * nr + 4 <= |dw|
    && forall i :: 0 <= i < 4 * nr + 4 ==> dw[i] == if 4 <= i < 4 * nr then InvMixColumn(w[i]) else w[i]
  }

  // ---- each transformation has an inverse ----

  lemma XorCancels(a: Word, b: Word)
    ensures Xor(Xor(a, b), b) == a
  {
    hide Add;
    AddCancels(a.b0, b.b0);
    AddCancels(a.b1, b.b1);
    AddCancels(a.b2, b.b2);
    AddCancels(a.b3, b.b3);
  }

  lemma AddRoundKeyInverse(s: Block, k: Block)
    ensures AddRoundKey(AddRoundKey(s, k), k) == s
  {
    hide Xor;
    XorCancels(s.c0, k.c0);
    XorCancels(s.c1, k.c1);
    XorCancels(s.c2, k.c2);
    XorCancels(s.c3, k.c3);
  }

  lemma SubWordInverse(w: Word)
    ensures InvSubWord(SubWord(w)) == w
    ensures SubWord(InvSubWord(w)) == w
  {
    hide Sub, InvSub;
    SubInverse(w.b0);
    SubInverse(w.b1);
    SubInverse(w.b2);
    SubInverse(w.b3);
  }

  lemma SubBytesInverse(s: Block)
    ensures InvSubBytes(SubBytes(s)) == s
    ensures SubBytes(InvSubBytes(s)) == s
  {
    hide SubWord, InvSubWord;
    SubWordInverse(s.c0);
    SubWordInverse(s.c1);
    SubWordInverse(s.c2);
    SubWordInverse(s.c3);
  }

  lemma MixColumnsInverse(s: Block)
    ensures InvMixColumns(MixColumns(s)) == s
    ensures MixColumns(InvMixColumns(s)) == s
  {
    hide MixColumn, InvMixColumn;
    MixInverse(s.c0);
    MixInverse(s.c1);
    MixInverse(s.c2);
    MixInverse(s.c3);
  }

  lemma InvMixColumnsAdd(s: Block, k: Block)
    ensures InvMixColumns(AddRoundKey(s, k)) == AddRoundKey(InvMixColumns(s), InvMixColumns(k))
  {
    hide InvMixColumn, Xor;
    InvMixAdd(s.c0, k.c0);
    InvMixAdd(s.c1, k.c1);
    InvMixAdd(s.c2, k.c2);
    InvMixAdd(s.c3, k.c3);
  }

  lemma ShiftRowsInverse(s: Block)
    ensures InvShiftRows(ShiftRows(s)) == s
    ensures ShiftRows(InvShiftRows(s)) == s
    ensures InvShiftRows(InvSubBytes(s)) == InvSubBytes(InvShiftRows(s))
  {
    hide Sub, InvSub;
  }

  // ---- the textbook inverse cipher undoes the cipher ----

  lemma {:induction false} InvRoundsUndo(w: seq<Word>, nr: nat, r: nat, s: Block)
    requires 1 <= r <= nr && 4 * nr + 4 <= |w|
    ensures InvRounds(w, nr, r, Encrypt(w, nr, s)) == ShiftRows(SubBytes(Rounds(w, r - 1, s)))
    decreases nr - r
  {
    hide AddRoundKey, SubBytes, InvSubBytes, ShiftRows, InvShiftRows, MixColumns, InvMixColumns;
    var before := ShiftRows(SubBytes(Rounds(w, r - 1, s)));
    if r == nr {
      AddRoundKeyInverse(before, RoundKey(w, nr));
    } else {
      InvRoundsUndo(w, nr, r + 1, s);
      var after := Rounds(w, r, s);
      ShiftRowsInverse(SubBytes(after));
      SubBytesInverse(after);
      AddRoundKeyInverse(MixColumns(before), RoundKey(w, r));
      MixColumnsInverse(before);
    }
  }

  /** Decryption undoes encryption, for every schedule and every block. */
  lemma DecryptEncrypt(w: seq<Word>, nr: nat, s: Block)
    requires 1 <= nr && 4 * nr + 4 <= |w|
    ensures Decrypt(w, nr, Encrypt(w, nr, s)) == s
  {
    hide AddRoundKey, SubBytes, InvSubBytes, ShiftRows, InvShiftRows;
    InvRoundsUndo(w, nr, 1, s);
    var first := Rounds(w, 0, s);
    ShiftRowsInverse(SubBytes(first));
    SubBytesInverse(first);
    AddRoundKeyInverse(s, RoundKey(w, 0));
  }

  lemma {:induction false} RoundsUndo(w: seq<Word>, nr: nat, r: nat, s: Block)
    requires 1 <= r <= nr && 4 * nr + 4 <= |w|
    ensures Rounds(w, r - 1, Decrypt(w, nr, s)) == InvSubBytes(InvShiftRows(InvRounds(w, nr, r, s)))
  {
    hide AddRoundKey, SubBytes, InvSubBytes, ShiftRows, InvShiftRows, MixColumns, InvMixColumns;
    if r == 1 {
      AddRoundKeyInverse(InvSubBytes(InvShiftRows(InvRounds(w, nr, 1, s))), RoundKey(w, 0));
    } else {
      RoundsUndo(w, nr, r - 1, s);
      var later := InvSubBytes(InvShiftRows(InvRounds(w, nr, r, s)));
      var keyed := AddRoundKey(later, RoundKey(w, r - 1));
      SubBytesInverse(InvShiftRows(InvMixColumns(keyed)));
      ShiftRowsInverse(InvMixColumns(keyed));
      MixColumnsInverse(keyed);
      AddRoundKeyInverse(later, RoundKey(w, r - 1));
    }
  }

  /** The converse, so that each schedule permutes the 2^128 blocks. */
  lemma EncryptDecrypt(w: seq<Word>, nr: nat, s: Block)
    requires 1 <= nr && 4 * nr + 4 <= |w|
    ensures Encrypt(w, nr, Decrypt(w, nr, s)) == s
  {
    hide AddRoundKey, SubBytes, InvSubBytes, ShiftRows, InvShiftRows;
    RoundsUndo(w, nr, nr, s);
    var last := InvRounds(w, nr, nr, s);
    SubBytesInverse(InvShiftRows(last));
    ShiftRowsInverse(last);
    AddRoundKeyInverse(s, RoundKey(w, nr));
  }

  // ---- the equivalent inverse cipher ----

  lemma {:induction false} EqInvRoundsAgree(dw: seq<Word>, w: seq<Word>, nr: nat, r: nat, s: Block)
    requires 1 <= r <= nr && 4 * nr + 4 <= |w| && IsDecryptionSchedule(dw, w, nr)
    ensures EqInvRounds(dw, nr, r, s) == InvRounds(w, nr, r, s)
    decreases nr - r
  {
    hide AddRoundKey, InvSubBytes, InvShiftRows, InvMixColumn;
    if r < nr {
      EqInvRoundsAgree(dw, w, nr, r + 1, s);
      ShiftRowsInverse(InvRounds(w, nr, r + 1, s));
      InvMixColumnsAdd(InvSubBytes(InvShiftRows(InvRounds(w, nr, r + 1, s))), RoundKey(w, r));
    }
  }

  /** Section 5.3.5: over the transformed schedule the equivalent inverse cipher is the inverse cipher. */
  lemma EqInvDecryptIsDecrypt(dw: seq<Word>, w: seq<Word>, nr: nat, s: Block)
    requires 1 <= nr && 4 * nr + 4 <= |w| && IsDecryptionSchedule(dw, w, nr)
    ensures EqInvDecrypt(dw, nr, s) == Decrypt(w, nr, s)
  {
    hide AddRoundKey, InvSubBytes, InvShiftRows;
    EqInvRoundsAgree(dw, w, nr, 1, s);
    ShiftRowsInverse(InvRounds(w, nr, 1, s));
  }

  // ---- only the first 4 * nr + 4 words of a schedule matter ----

  lemma {:induction false} RoundsPrefix(w: seq<Word>, v: seq<Word>, r: nat, s: Block)
    requires 4 * r + 4 <= |w| && w <= v
    ensures Rounds(v, r, s) == Rounds(w, r, s)
  {
    hide AddRoundKey, SubBytes, ShiftRows, MixColumns;
    assert RoundKey(v, r) == RoundKey(w, r);
    if r > 0 {
      RoundsPrefix(w, v, r - 1, s);
    }
  }

  lemma EncryptPrefix(w: seq<Word>, v: seq<Word>, nr: nat, s: Block)
    requires 1 <= nr && 4 * nr + 4 <= |w| && w <= v
    ensures Encrypt(v, nr, s) == Encrypt(w, nr, s)
  {
    hide AddRoundKey, SubBytes, ShiftRows;
    assert RoundKey(v, nr) == RoundKey(w, nr);
    RoundsPrefix(w, v, nr - 1, s);
  }
}
