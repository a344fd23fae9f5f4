/** The word-by-word key expansion of section 5.2 of FIPS 197. */
module KeyExpansion {
  import opened GaloisField
  import opened Cipher

  type CipherKey = k: seq<Word> | |k| == 4 || |k| == 6 || |k| == 8
    witness [Word(0, 0, 0, 0), Word(0, 0, 0, 0), Word(0, 0, 0, 0), Word(0, 0, 0, 0)]

  function RotWord(w: Word): Word {
    Word(w.b1, w.b2, w.b3, w.b0)
  }

  // x^j in the field
  function XPower(j: nat): bv8 {
    if j == 0 then 1 else XTime(XPower(j - 1))
  }

  function ExpandedWord(key: CipherKey, i: nat): Word {
    var nk := |key|;
    if i < nk then key[i]
    else
      var previous := ExpandedWord(key, i - 1);
      var temp :=
        if i % nk == 0 then Xor(SubWord(RotWord(previous)), Word(XPower(i / nk - 1), 0, 0, 0))
        else if nk > 6 && i % nk == 4 then SubWord(previous)
        else previous;
      Xor(ExpandedWord(key, i - nk), temp)
  }

  // the number of rounds, Nk + 6
  function RoundsFor(key: CipherKey): nat {
    |key| + 6
  }

  function Schedule(key: CipherKey): (w: seq<Word>)
    ensures |w| == 4 * RoundsFor(key) + 4
    ensures forall i :: 0 <= i < |w| ==> w[i] == ExpandedWord(key, i)
  {
    seq(4 * RoundsFor(key) + 4, i requires 0 <= i => ExpandedWord(key, i))
  }

  // ---- the block cipher of a key ----

  function EncryptWith(key: CipherKey, s: Block): Block {
    Encrypt(Schedule(key), RoundsFor(key), s)
  }

  function DecryptWith(key: CipherKey, s: Block): Block {
    Decrypt(Schedule(key), RoundsFor(key), s)
  }

  /** Encryption and decryption under one key are inverse permutations of the blocks. */
  lemma CipherInverse(key: CipherKey, s: Block)
    ensures DecryptWith(key, EncryptWith(key, s)) == s
    ensures EncryptWith(key, DecryptWith(key, s)) == s
  {
    DecryptEncrypt(Schedule(key), RoundsFor(key), s);
    EncryptDecrypt(Schedule(key), RoundsFor(key), s);
  }
}
