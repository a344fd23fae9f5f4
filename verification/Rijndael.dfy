/**
 * The cipher object of anonymizer/rijndael.c. The module's static variables are the fields of a class,
 * and a four-byte row of m_expandedKey[_MAX_ROUNDS + 1][4] is one Word of a flat array.
 */
module Rijndael {
  import Arithmetic
  import opened GaloisField
  import opened Cipher
  import opened KeyExpansion
  import opened RijndaelTables

  // ---- blocks in byte buffers ----

  method StoreWord(b: array<bv8>, j: nat, w: Word)
    requires j + 4 <= b.Length
    modifies b
    ensures WordAt(b[..], j) == w
    ensures forall k :: 0 <= k < b.Length && !(j <= k < j + 4) ==> b[k] == old(b[k])
  {
    b[j] := w.b0;
    b[j + 1] := w.b1;
    b[j + 2] := w.b2;
    b[j + 3] := w.b3;
  }

  method StoreBlock(b: array<bv8>, j: nat, s: Block)
    requires j + 16 <= b.Length
    modifies b
    ensures BlockAt(b[..], j) == s
    ensures forall k :: 0 <= k < b.Length && !(j <= k < j + 16) ==> b[k] == old(b[k])
  {
    StoreWord(b, j, s.c0);
    StoreWord(b, j + 4, s.c1);
    StoreWord(b, j + 8, s.c2);
    StoreWord(b, j + 12, s.c3);
  }

  // ---- constants of rijndael.h ----

  const SUCCESS := 0
  const UNSUPPORTED_MODE := -1
  const UNSUPPORTED_DIRECTION := -2
  const UNSUPPORTED_KEY_LENGTH := -3
  const BAD_KEY := -4
  const NOT_INITIALIZED := -5
  const BAD_DIRECTION := -6
  const CORRUPTED_DATA := -7

  const ENCRYPT := 0
  const DECRYPT := 1

  const ECB := 0
  const CBC := 1
  const CFB1 := 2

  // ---- the key schedule, block by block in place ----

  // words base .. base + |key| of the expansion
  ghost predicate IsExpansionAt(key: CipherKey, words: seq<Word>, base: nat)
    requires |words| >= |key|
  {
    forall j :: 0 <= j < |key| ==> words[j] == ExpandedWord(key, base + j)
  }

  lemma XorAssociates(a: Word, b: Word, c: Word)
    ensures Xor(Xor(a, b), c) == Xor(a, Xor(b, c))
  {
    hide Add;
    AddAssociates3(a.b0, b.b0, c.b0);
    AddAssociates3(a.b1, b.b1, c.b1);
    AddAssociates3(a.b2, b.b2, c.b2);
    AddAssociates3(a.b3, b.b3, c.b3);
  }

  lemma BlockIndex(nk: nat, m: nat, j: nat)
    requires nk == 4 || nk == 6 || nk == 8
    requires j < nk
    ensures (m * nk + j) % nk == j
    ensures (m * nk + j) / nk == m
  {
    Arithmetic.RemainderIs(m * nk + j, nk, m, j);
  }

  lemma BlockStart(key: CipherKey, m: nat, base: nat)
    requires base == m * |key|
    ensures ExpandedWord(key, base + |key|)
            == Xor(Xor(ExpandedWord(key, base), SubWord(RotWord(ExpandedWord(key, base + |key| - 1)))),
                   Word(XPower(m), 0, 0, 0))
  {
    hide Xor, SubWord, RotWord, XPower;
    var next := base + |key|;
    BlockIndex(|key|, m + 1, 0);
    assert next == (m + 1) * |key|;
    XorAssociates(ExpandedWord(key, base), SubWord(RotWord(ExpandedWord(key, next - 1))), Word(XPower(m), 0, 0, 0));
  }

  lemma BlockMiddle(key: CipherKey, m: nat, base: nat, j: nat)
    requires base == m * |key| && 1 <= j < |key|
    ensures ExpandedWord(key, base + |key| + j)
            == Xor(ExpandedWord(key, base + j),
                   var w := ExpandedWord(key, base + |key| + j - 1);
                   if |key| == 8 && j == 4 then SubWord(w) else w)
  {
    hide Xor, SubWord, RotWord, XPower;
    var i := base + |key| + j;
    BlockIndex(|key|, m + 1, j);
    assert i == (m + 1) * |key| + j;
  }

  /** Turns tempKey, which holds block number rconpointer of the expansion, into the next block. */
  method NextKeyBlock(tempKey: array<Word>, ghost key: CipherKey, uKeyColumns: nat, ghost base: nat, rconpointer: nat)
    requires tempKey.Length == 8 && uKeyColumns == |key|
    requires base == rconpointer * |key| && rconpointer < 10
    requires IsExpansionAt(key, tempKey[..], base)
    modifies tempKey
    ensures IsExpansionAt(key, tempKey[..], base + |key|)
  {
    hide ExpandedWord, XPower, Rcon, Xor, SubWord, RotWord;
    ghost var next := base + |key|;
    RconIsXPower(rconpointer);
    BlockStart(key, rconpointer, base);
    assert tempKey[..][uKeyColumns - 1] == ExpandedWord(key, base + (uKeyColumns - 1));
    tempKey[0] := Xor(tempKey[0], SubWord(RotWord(tempKey[uKeyColumns - 1])));
    tempKey[0] := Xor(tempKey[0], Word(Rcon(rconpointer), 0, 0, 0));
    if uKeyColumns != 8 {
      XorChain(tempKey, key, rconpointer, base, 1, uKeyColumns);
    } else {
      XorChain(tempKey, key, rconpointer, base, 1, uKeyColumns / 2);
      BlockMiddle(key, rconpointer, base, 4);
      tempKey[uKeyColumns / 2] := Xor(tempKey[uKeyColumns / 2], SubWord(tempKey[uKeyColumns / 2 - 1]));
      XorChain(tempKey, key, rconpointer, base, uKeyColumns / 2 + 1, uKeyColumns);
    }
  }

  // words below j are of the next block, the others still of the block at base
  ghost predicate HalfExpanded(tempKey: seq<Word>, key: CipherKey, base: nat, j: nat)
    requires |tempKey| == 8
  {
    && (forall i :: 0 <= i < j && i < |key| ==> tempKey[i] == ExpandedWord(key, base + |key| + i))
    && (forall i :: j <= i < |key| ==> tempKey[i] == ExpandedWord(key, base + i))
  }

  // the loops that add each column to the one after it
  method XorChain(tempKey: array<Word>, ghost key: CipherKey, ghost m: nat, ghost base: nat, from: nat, to: nat)
    requires tempKey.Length == 8 && base == m * |key|
    requires 1 <= from <= to <= |key|
    requires |key| == 8 && from <= 4 ==> to <= 4
    requires HalfExpanded(tempKey[..], key, base, from)
    modifies tempKey
    ensures HalfExpanded(tempKey[..], key, base, to)
  {
    hide ExpandedWord, Xor, SubWord;
    var j := from;
    while j < to
      invariant from <= j <= to
      invariant HalfExpanded(tempKey[..], key, base, j)
    {
      BlockMiddle(key, m, base, j);
      ghost var was := tempKey[..];
      assert was[j - 1] == ExpandedWord(key, base + |key| + (j - 1));
      tempKey[j] := Xor(tempKey[j], tempKey[j - 1]);
      assert tempKey[..] == was[j := Xor(was[j], was[j - 1])];
      j := j + 1;
    }
  }

  // ---- the cipher object ----

  datatype Status = Ready | Invalid

  class Rijndael {
    var state: Status
    var mode: int
    var direction: int
    var uRounds: nat
    const initVector: array<bv8>
    const expandedKey: array<Word>
    ghost var key: CipherKey

    ghost predicate Valid()
      reads this, initVector, expandedKey
    {
      && initVector.Length == 16
      && expandedKey.Length == 60
      && initVector as object != expandedKey
      && (state == Ready ==>
            && mode in {ECB, CBC, CFB1}
            && direction in {ENCRYPT, DECRYPT}
            && uRounds == RoundsFor(key)
            && if direction == ENCRYPT then Schedule(key) <= expandedKey[..]
               else IsDecryptionSchedule(expandedKey[..], Schedule(key), uRounds))
    }

    constructor ()
      ensures Valid() && state == Invalid
      ensures fresh(initVector) && fresh(expandedKey)
    {
      state, mode, direction, uRounds := Invalid, 0, 0, 0;
      initVector := new bv8[16];
      expandedKey := new Word[60];
      key := *;
    }

    // the words of the whole schedule
    function Total(): nat
      reads this
    {
      4 * uRounds + 4
    }

    /** Copies a block of tempKey behind the words written so far; stops at the end of the last round key. */
    method CopyKeyBlock(tempKey: array<Word>, uKeyColumns: nat, r0: nat, t0: nat) returns (r: nat, t: nat)
      requires tempKey.Length == 8 && uKeyColumns <= 8 && expandedKey.Length == 60 && tempKey != expandedKey
      requires t0 < 4 && uRounds <= 14 && 4 * r0 + t0 <= Total()
      modifies expandedKey
      ensures t < 4
      ensures 4 * r + t == if 4 * r0 + t0 + uKeyColumns <= Total() then 4 * r0 + t0 + uKeyColumns else Total()
      ensures forall k :: 4 * r0 + t0 <= k < 4 * r + t ==> expandedKey[k] == tempKey[k - (4 * r0 + t0)]
      ensures forall k :: 0 <= k < 4 * r0 + t0 ==> expandedKey[k] == old(expandedKey[k])
    {
      r, t := r0, t0;
      ghost var start := 4 * r0 + t0;
      var j := 0;
      while j < uKeyColumns && r <= uRounds
        invariant 0 <= j <= uKeyColumns && t < 4
        invariant 4 * r + t == start + j <= Total()
        invariant forall k :: start <= k < start + j ==> expandedKey[k] == tempKey[k - start]
        invariant forall k :: 0 <= k < start ==> expandedKey[k] == old(expandedKey[k])
      {
        ghost var j0 := j;
        while j < uKeyColumns && t < 4
          invariant j0 <= j <= uKeyColumns && t <= 4
          invariant j == j0 ==> t < 4
          invariant 4 * r + t == start + j
          invariant forall k :: start <= k < start + j ==> expandedKey[k] == tempKey[k - start]
          invariant forall k :: 0 <= k < start ==> expandedKey[k] == old(expandedKey[k])
        {
          expandedKey[4 * r + t] := tempKey[j];
          j, t := j + 1, t + 1;
        }
        if t == 4 {
          r, t := r + 1, 0;
        }
      }
    }

    // one turn of the schedule's loop: the next block of the expansion, copied into the round keys
    method NextRoundKeys(tempKey: array<Word>, ghost k: CipherKey, uKeyColumns: nat, ghost base: nat, rconpointer: nat,
                         r0: nat, t0: nat)
      returns (r: nat, t: nat)
      requires expandedKey.Length == 60 && uRounds == RoundsFor(k) && uKeyColumns == |k|
      requires tempKey.Length == 8 && tempKey != expandedKey
      requires base == rconpointer * |k| && rconpointer < 10 && t0 < 4
      requires 4 * r0 + t0 == base + |k| <= Total()
      requires IsExpansionAt(k, tempKey[..], base) && Expanded(k, expandedKey[..], 4 * r0 + t0)
      modifies tempKey, expandedKey
      ensures t < 4
      ensures 4 * r + t == if base + 2 * |k| <= Total() then base + 2 * |k| else Total()
      ensures IsExpansionAt(k, tempKey[..], base + |k|)
      ensures Expanded(k, expandedKey[..], 4 * r + t)
    {
      hide ExpandedWord, IsExpansionAt;
      ghost var was := expandedKey[..];
      NextKeyBlock(tempKey, k, uKeyColumns, base, rconpointer);
      r, t := CopyKeyBlock(tempKey, uKeyColumns, r0, t0);
      assert forall i :: 0 <= i < base + |k| ==> expandedKey[..][i] == was[i];
      BlockWritten(k, tempKey[..], expandedKey[..], base + |k|, base + |k|, 4 * r + t);
    }

    /** The in-place, block-wise schedule computes the word-by-word expansion of the key. */
    method KeySched(keyMatrix: array<Word>, ghost k: CipherKey)
      requires expandedKey.Length == 60 && uRounds == RoundsFor(k)
      requires keyMatrix.Length == 8 && keyMatrix != expandedKey && k <= keyMatrix[..]
      modifies expandedKey
      ensures Schedule(k) <= expandedKey[..]
    {
      hide ExpandedWord, IsExpansionAt;
      var rconpointer: nat, r: nat, t: nat := 0, 0, 0;
      var uKeyColumns := uRounds - 6;
      var tempKey := new Word[8];
      var j := 0;
      while j < uKeyColumns
        invariant 0 <= j <= uKeyColumns
        invariant forall i :: 0 <= i < j ==> tempKey[i] == keyMatrix[i]
      {
        tempKey[j] := keyMatrix[j];
        j := j + 1;
      }
      FirstBlock(k, tempKey[..]);
      r, t := CopyKeyBlock(tempKey, uKeyColumns, r, t);
      BlockWritten(k, tempKey[..], expandedKey[..], 0, 0, 4 * r + t);
      ghost var base := 0;
      while r <= uRounds
        invariant t < 4 && base == rconpointer * |k|
        invariant 4 * r + t == if base + |k| <= Total() then base + |k| else Total()
        invariant IsExpansionAt(k, tempKey[..], base)
        invariant Expanded(k, expandedKey[..], 4 * r + t)
        decreases Total() - base
      {
        RconInRange(|k|, rconpointer, base);
        r, t := NextRoundKeys(tempKey, k, uKeyColumns, base, rconpointer, r, t);
        rconpointer, base := rconpointer + 1, base + |k|;
      }
      ScheduleInPlace(k, expandedKey[..]);
    }

    /** Rewrites the round keys 1 .. uRounds - 1 for the equivalent inverse cipher. */
    method KeyEncToDec(ghost k: CipherKey)
      requires expandedKey.Length == 60 && uRounds == RoundsFor(k)
      requires Schedule(k) <= expandedKey[..]
      modifies expandedKey
      ensures IsDecryptionSchedule(expandedKey[..], Schedule(k), uRounds)
    {
      hide InvMixColumn, XorAll, U1, U2, U3, U4;
      ghost var w := Schedule(k);
      assert forall i :: 0 <= i < |w| ==> expandedKey[..][i] == w[i];
      var r := 1;
      while r < uRounds
        invariant 1 <= r <= uRounds
        invariant forall i :: 0 <= i < Total() ==>
                    expandedKey[i] == if 4 <= i < 4 * r then InvMixColumn(w[i]) else w[i]
      {
        var c := 0;
        while c < 4
          invariant 0 <= c <= 4
          invariant forall i :: 0 <= i < Total() ==>
                      expandedKey[i] == if 4 <= i < 4 * r + c then InvMixColumn(w[i]) else w[i]
        {
          var v := expandedKey[4 * r + c];
          InvTableColumn(v.b0, v.b1, v.b2, v.b3);
          expandedKey[4 * r + c] := XorAll(U1(v.b0), U2(v.b1), U3(v.b2), U4(v.b3));
          c := c + 1;
        }
        r := r + 1;
      }
    }

    /** The table-driven encryption is the cipher of section 5.1, also when the two buffers are one. */
    method EncryptBlock(a: array<bv8>, i: nat, b: array<bv8>, j: nat)
      requires expandedKey.Length == 60 && 2 <= uRounds <= 14
      requires i + 16 <= a.Length && j + 16 <= b.Length && b as object != expandedKey
      modifies b
      ensures BlockAt(b[..], j) == Cipher.Encrypt(expandedKey[..], uRounds, old(BlockAt(a[..], i)))
      ensures forall k :: 0 <= k < b.Length && !(j <= k < j + 16) ==> b[k] == old(b[k])
    {
      hide AddRoundKey, MixColumns, ShiftRows, SubBytes, TableRound, TableFinalRound, BlockAt;
      ghost var w, x := expandedKey[..], BlockAt(a[..], i);
      var temp := AddRoundKey(BlockAt(a[..], i), RoundKey(expandedKey[..], 0));
      TablesAreRounds(temp);
      StoreBlock(b, j, TableRound(temp));
      var r := 1;
      while r < uRounds - 1
        invariant 1 <= r <= uRounds - 1
        invariant BlockAt(b[..], j) == MixColumns(ShiftRows(SubBytes(Rounds(w, r - 1, x))))
        invariant expandedKey[..] == w
        invariant forall k :: 0 <= k < b.Length && !(j <= k < j + 16) ==> b[k] == old(b[k])
      {
        temp := AddRoundKey(BlockAt(b[..], j), RoundKey(expandedKey[..], r));
        TablesAreRounds(temp);
        StoreBlock(b, j, TableRound(temp));
        r := r + 1;
      }
      temp := AddRoundKey(BlockAt(b[..], j), RoundKey(expandedKey[..], uRounds - 1));
      TablesAreRounds(temp);
      StoreBlock(b, j, TableFinalRound(temp));
      StoreBlock(b, j, AddRoundKey(BlockAt(b[..], j), RoundKey(expandedKey[..], uRounds)));
    }

    /** The table-driven decryption is the equivalent inverse cipher of section 5.3.5. */
    method DecryptBlock(a: array<bv8>, i: nat, b: array<bv8>, j: nat)
      requires expandedKey.Length == 60 && 2 <= uRounds <= 14
      requires i + 16 <= a.Length && j + 16 <= b.Length && b as object != expandedKey
      modifies b
      ensures BlockAt(b[..], j) == EqInvDecrypt(expandedKey[..], uRounds, old(BlockAt(a[..], i)))
      ensures forall k :: 0 <= k < b.Length && !(j <= k < j + 16) ==> b[k] == old(b[k])
    {
      hide AddRoundKey, InvMixColumns, InvShiftRows, InvSubBytes, InvTableRound, InvTableFinalRound, BlockAt;
      ghost var w, x := expandedKey[..], BlockAt(a[..], i);
      var temp := AddRoundKey(BlockAt(a[..], i), RoundKey(expandedKey[..], uRounds));
      InvTablesAreRounds(temp);
      StoreBlock(b, j, InvTableRound(temp));
      var r := uRounds - 1;
      while r > 1
        invariant 1 <= r <= uRounds - 1
        invariant BlockAt(b[..], j) == InvMixColumns(InvShiftRows(InvSubBytes(EqInvRounds(w, uRounds, r + 1, x))))
        invariant expandedKey[..] == w
        invariant forall k :: 0 <= k < b.Length && !(j <= k < j + 16) ==> b[k] == old(b[k])
      {
        temp := AddRoundKey(BlockAt(b[..], j), RoundKey(expandedKey[..], r));
        InvTablesAreRounds(temp);
        StoreBlock(b, j, InvTableRound(temp));
        r := r - 1;
      }
      temp := AddRoundKey(BlockAt(b[..], j), RoundKey(expandedKey[..], 1));
      InvTablesAreRounds(temp);
      StoreBlock(b, j, InvTableFinalRound(temp));
      StoreBlock(b, j, AddRoundKey(BlockAt(b[..], j), RoundKey(expandedKey[..], 0)));
    }

    /** With the cipher ready for encryption, a block goes out under the key it was set up with. */
    method Encrypt(a: array<bv8>, i: nat, b: array<bv8>, j: nat)
      requires Valid() && state == Ready && direction == ENCRYPT
      requires i + 16 <= a.Length && j + 16 <= b.Length && b as object != expandedKey && b != initVector
      modifies b
      ensures Valid()
      ensures BlockAt(b[..], j) == EncryptWith(key, old(BlockAt(a[..], i)))
      ensures forall k :: 0 <= k < b.Length && !(j <= k < j + 16) ==> b[k] == old(b[k])
    {
      hide Cipher.Encrypt, IsDecryptionSchedule, BlockAt;
      EncryptPrefix(Schedule(key), expandedKey[..], uRounds, BlockAt(a[..], i));
      EncryptBlock(a, i, b, j);
    }

    /** With the cipher ready for decryption, the same key undoes it. */
    method Decrypt(a: array<bv8>, i: nat, b: array<bv8>, j: nat)
      requires Valid() && state == Ready && direction == DECRYPT
      requires i + 16 <= a.Length && j + 16 <= b.Length && b as object != expandedKey && b != initVector
      modifies b
      ensures Valid()
      ensures BlockAt(b[..], j) == DecryptWith(key, old(BlockAt(a[..], i)))
      ensures forall k :: 0 <= k < b.Length && !(j <= k < j + 16) ==> b[k] == old(b[k])
    {
      hide EqInvDecrypt, Cipher.Decrypt, IsDecryptionSchedule, BlockAt;
      EqInvDecryptIsDecrypt(expandedKey[..], Schedule(key), uRounds, BlockAt(a[..], i));
      DecryptBlock(a, i, b, j);
    }

    /** Sets the mode, the direction, the initialization vector and the key schedule, or says why not. */
    method Init(newMode: int, dir: int, keyBytes: array?<bv8>, keyLen: int, iv: array?<bv8>) returns (code: int)
      requires Valid()
      requires keyBytes != null && 0 <= keyLen <= 2 ==> 16 + 8 * keyLen <= keyBytes.Length && keyBytes != initVector
      requires keyBytes as object? != expandedKey
      requires iv != null ==> iv.Length >= 16
      modifies this, initVector, expandedKey
      ensures Valid()
      ensures code == if newMode !in {CBC, ECB, CFB1} then UNSUPPORTED_MODE
                      else if dir !in {ENCRYPT, DECRYPT} then UNSUPPORTED_DIRECTION
                      else if !(0 <= keyLen <= 2) then UNSUPPORTED_KEY_LENGTH
                      else if keyBytes == null then BAD_KEY
                      else SUCCESS
      ensures state == (if code == SUCCESS then Ready else Invalid)
      ensures code == SUCCESS ==>
                && mode == newMode && direction == dir
                && |key| == 4 + 2 * keyLen
                && (forall i :: 0 <= i < |key| ==> key[i] == old(WordAt(keyBytes[..], 4 * i)))
                && initVector[..] == if iv != null then old(iv[..16]) else seq(16, _ => 0)
    {
      hide IsDecryptionSchedule, WordAt, Schedule;
      state := Invalid;
      if newMode != CBC && newMode != ECB && newMode != CFB1 {
        return UNSUPPORTED_MODE;
      }
      mode := newMode;
      if dir != ENCRYPT && dir != DECRYPT {
        return UNSUPPORTED_DIRECTION;
      }
      direction := dir;
      SetVector(iv);
      if keyLen == 0 {
        uRounds := 10;
      } else if keyLen == 1 {
        uRounds := 12;
      } else if keyLen == 2 {
        uRounds := 14;
      } else {
        return UNSUPPORTED_KEY_LENGTH;
      }
      if keyBytes == null {
        return BAD_KEY;
      }
      key := ExpandKey(keyBytes, 4 + 2 * keyLen);
      state := Ready;
      return SUCCESS;
    }

    method ExpandKey(keyBytes: array<bv8>, columns: nat) returns (ghost k: CipherKey)
      requires columns in {4, 6, 8} && 4 * columns <= keyBytes.Length && keyBytes as object != expandedKey
      requires expandedKey.Length == 60 && uRounds == columns + 6
      modifies expandedKey
      ensures |k| == columns
      ensures forall i :: 0 <= i < columns ==> k[i] == WordAt(keyBytes[..], 4 * i)
      ensures if direction == DECRYPT then IsDecryptionSchedule(expandedKey[..], Schedule(k), uRounds)
              else Schedule(k) <= expandedKey[..]
    {
      var keyMatrix := KeyMatrix(keyBytes, columns);
      k := keyMatrix[..columns];
      KeySched(keyMatrix, k);
      if direction == DECRYPT {
        KeyEncToDec(k);
      }
    }

    method KeyMatrix(keyBytes: array<bv8>, columns: nat) returns (keyMatrix: array<Word>)
      requires columns <= 8 && 4 * columns <= keyBytes.Length
      ensures fresh(keyMatrix) && keyMatrix.Length == 8
      ensures forall j :: 0 <= j < columns ==> keyMatrix[j] == WordAt(keyBytes[..], 4 * j)
    {
      keyMatrix := new Word[8];
      var i := 0;
      while i < columns
        invariant 0 <= i <= columns
        invariant forall j :: 0 <= j < i ==> keyMatrix[j] == WordAt(keyBytes[..], 4 * j)
      {
        keyMatrix[i] := WordAt(keyBytes[..], 4 * i);
        i := i + 1;
      }
    }

    method SetVector(iv: array?<bv8>)
      requires initVector.Length == 16
      requires iv != null ==> iv.Length >= 16
      modifies initVector
      ensures initVector[..] == if iv != null then old(iv[..16]) else seq(16, _ => 0)
    {
      var i := 0;
      while i < 16
        invariant 0 <= i <= 16
        invariant forall k :: 0 <= k < i ==> initVector[k] == if iv != null then old(iv[k]) else 0
        invariant iv != null && iv != initVector ==> iv[..] == old(iv[..])
        invariant iv == initVector ==> forall k :: i <= k < 16 ==> iv[k] == old(iv[k])
      {
        initVector[i] := if iv != null then iv[i] else 0;
        i := i + 1;
      }
    }
  }

  // the first n words of the schedule are in place
  ghost predicate Expanded(key: CipherKey, words: seq<Word>, n: nat) {
    n <= |words| && forall i :: 0 <= i < n ==> words[i] == ExpandedWord(key, i)
  }

  lemma ScheduleInPlace(key: CipherKey, words: seq<Word>)
    requires Expanded(key, words, 4 * RoundsFor(key) + 4)
    ensures Schedule(key) <= words
  {
    hide ExpandedWord;
    assert forall i :: 0 <= i < |Schedule(key)| ==> Schedule(key)[i] == words[i];
  }

  lemma FirstBlock(key: CipherKey, words: seq<Word>)
    requires key <= words
    ensures IsExpansionAt(key, words, 0)
  {}

  lemma BlockWritten(key: CipherKey, tempKey: seq<Word>, words: seq<Word>, start: nat, base: nat, end: nat)
    requires |tempKey| >= |key| && IsExpansionAt(key, tempKey, base)
    requires base <= start <= end <= |words| && end <= base + |key|
    requires Expanded(key, words, start)
    requires forall k :: start <= k < end ==> words[k] == tempKey[k - base]
    ensures Expanded(key, words, end)
  {
    hide ExpandedWord;
    forall i | start <= i < end
      ensures words[i] == ExpandedWord(key, i)
    {
      assert tempKey[i - base] == ExpandedWord(key, base + (i - base));
    }
  }

  // rcon is read for at most ten blocks, and a block never ends beyond the round keys it starts in
  lemma RconInRange(nk: nat, rconpointer: nat, base: nat)
    requires nk == 4 || nk == 6 || nk == 8
    requires base == rconpointer * nk && base + nk < 4 * (nk + 6) + 4
    ensures rconpointer < 10
  {
    if nk == 4 {
    } else if nk == 6 {
    } else {
    }
  }
}
