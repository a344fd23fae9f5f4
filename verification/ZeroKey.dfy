/**
 * Under the key of sixteen zero bytes: the round keys, and what becomes of the zero block over the schedule and over
 * the schedule of the decryption direction. The first bits of the two results differ.
 */
module ZeroKey {
  import opened GaloisField
  import opened Cipher
  import opened KeyExpansion
  import opened RijndaelTables

  function Zero(): Block {
    Block(Word(0, 0, 0, 0), Word(0, 0, 0, 0), Word(0, 0, 0, 0), Word(0, 0, 0, 0))
  }

  function Key(): CipherKey {
    [Word(0, 0, 0, 0), Word(0, 0, 0, 0), Word(0, 0, 0, 0), Word(0, 0, 0, 0)]
  }

  // ---- the round keys ----

  // round key r
  function RoundKeyAt(r: nat): Block {
    match r
    case 0 =>
      Block(Word(0x00, 0x00, 0x00, 0x00), Word(0x00, 0x00, 0x00, 0x00),
            Word(0x00, 0x00, 0x00, 0x00), Word(0x00, 0x00, 0x00, 0x00))
    case 1 =>
      Block(Word(0x62, 0x63, 0x63, 0x63), Word(0x62, 0x63, 0x63, 0x63),
            Word(0x62, 0x63, 0x63, 0x63), Word(0x62, 0x63, 0x63, 0x63))
    case 2 =>
      Block(Word(0x9b, 0x98, 0x98, 0xc9), Word(0xf9, 0xfb, 0xfb, 0xaa),
            Word(0x9b, 0x98, 0x98, 0xc9), Word(0xf9, 0xfb, 0xfb, 0xaa))
    case 3 =>
      Block(Word(0x90, 0x97, 0x34, 0x50), Word(0x69, 0x6c, 0xcf, 0xfa),
            Word(0xf2, 0xf4, 0x57, 0x33), Word(0x0b, 0x0f, 0xac, 0x99))
    case 4 =>
      Block(Word(0xee, 0x06, 0xda, 0x7b), Word(0x87, 0x6a, 0x15, 0x81),
            Word(0x75, 0x9e, 0x42, 0xb2), Word(0x7e, 0x91, 0xee, 0x2b))
    case 5 =>
      Block(Word(0x7f, 0x2e, 0x2b, 0x88), Word(0xf8, 0x44, 0x3e, 0x09),
            Word(0x8d, 0xda, 0x7c, 0xbb), Word(0xf3, 0x4b, 0x92, 0x90))
    case 6 =>
      Block(Word(0xec, 0x61, 0x4b, 0x85), Word(0x14, 0x25, 0x75, 0x8c),
            Word(0x99, 0xff, 0x09, 0x37), Word(0x6a, 0xb4, 0x9b, 0xa7))
    case 7 =>
      Block(Word(0x21, 0x75, 0x17, 0x87), Word(0x35, 0x50, 0x62, 0x0b),
            Word(0xac, 0xaf, 0x6b, 0x3c), Word(0xc6, 0x1b, 0xf0, 0x9b))
    case 8 =>
      Block(Word(0x0e, 0xf9, 0x03, 0x33), Word(0x3b, 0xa9, 0x61, 0x38),
            Word(0x97, 0x06, 0x0a, 0x04), Word(0x51, 0x1d, 0xfa, 0x9f))
    case 9 =>
      Block(Word(0xb1, 0xd4, 0xd8, 0xe2), Word(0x8a, 0x7d, 0xb9, 0xda),
            Word(0x1d, 0x7b, 0xb3, 0xde), Word(0x4c, 0x66, 0x49, 0x41))
    case _ =>
      Block(Word(0xb4, 0xef, 0x5b, 0xcb), Word(0x3e, 0x92, 0xe2, 0x11),
            Word(0x23, 0xe9, 0x51, 0xcf), Word(0x6f, 0x8f, 0x18, 0x8e))
  }

  function NextRoundKey(k: Block, power: bv8): Block {
    var c0 := Xor(k.c0, Xor(SubWord(RotWord(k.c3)), Word(power, 0, 0, 0)));
    var c1 := Xor(k.c1, c0);
    var c2 := Xor(k.c2, c1);
    Block(c0, c1, c2, Xor(k.c3, c2))
  }

  lemma NextKey1()
    ensures NextRoundKey(Block(Word(0x00, 0x00, 0x00, 0x00), Word(0x00, 0x00, 0x00, 0x00),
                               Word(0x00, 0x00, 0x00, 0x00), Word(0x00, 0x00, 0x00, 0x00)), 0x01)
            == Block(Word(0x62, 0x63, 0x63, 0x63), Word(0x62, 0x63, 0x63, 0x63),
                     Word(0x62, 0x63, 0x63, 0x63), Word(0x62, 0x63, 0x63, 0x63))
  {}

  lemma NextKey2()
    ensures NextRoundKey(Block(Word(0x62, 0x63, 0x63, 0x63), Word(0x62, 0x63, 0x63, 0x63),
                               Word(0x62, 0x63, 0x63, 0x63), Word(0x62, 0x63, 0x63, 0x63)), 0x02)
            == Block(Word(0x9b, 0x98, 0x98, 0xc9), Word(0xf9, 0xfb, 0xfb, 0xaa),
                     Word(0x9b, 0x98, 0x98, 0xc9), Word(0xf9, 0xfb, 0xfb, 0xaa))
  {}

  lemma NextKey3()
    ensures NextRoundKey(Block(Word(0x9b, 0x98, 0x98, 0xc9), Word(0xf9, 0xfb, 0xfb, 0xaa),
                               Word(0x9b, 0x98, 0x98, 0xc9), Word(0xf9, 0xfb, 0xfb, 0xaa)), 0x04)
            == Block(Word(0x90, 0x97, 0x34, 0x50), Word(0x69, 0x6c, 0xcf, 0xfa),
                     Word(0xf2, 0xf4, 0x57, 0x33), Word(0x0b, 0x0f, 0xac, 0x99))
  {}

  lemma NextKey4()
    ensures NextRoundKey(Block(Word(0x90, 0x97, 0x34, 0x50), Word(0x69, 0x6c, 0xcf, 0xfa),
                               Word(0xf2, 0xf4, 0x57, 0x33), Word(0x0b, 0x0f, 0xac, 0x99)), 0x08)
            == Block(Word(0xee, 0x06, 0xda, 0x7b), Word(0x87, 0x6a, 0x15, 0x81),
                     Word(0x75, 0x9e, 0x42, 0xb2), Word(0x7e, 0x91, 0xee, 0x2b))
  {}

  lemma NextKey5()
    ensures NextRoundKey(Block(Word(0xee, 0x06, 0xda, 0x7b), Word(0x87, 0x6a, 0x15, 0x81),
                               Word(0x75, 0x9e, 0x42, 0xb2), Word(0x7e, 0x91, 0xee, 0x2b)), 0x10)
            == Block(Word(0x7f, 0x2e, 0x2b, 0x88), Word(0xf8, 0x44, 0x3e, 0x09),
                     Word(0x8d, 0xda, 0x7c, 0xbb), Word(0xf3, 0x4b, 0x92, 0x90))
  {}

  lemma NextKey6()
    ensures NextRoundKey(Block(Word(0x7f, 0x2e, 0x2b, 0x88), Word(0xf8, 0x44, 0x3e, 0x09),
                               Word(0x8d, 0xda, 0x7c, 0xbb), Word(0xf3, 0x4b, 0x92, 0x90)), 0x20)
            == Block(Word(0xec, 0x61, 0x4b, 0x85), Word(0x14, 0x25, 0x75, 0x8c),
                     Word(0x99, 0xff, 0x09, 0x37), Word(0x6a, 0xb4, 0x9b, 0xa7))
  {}

  lemma NextKey7()
    ensures NextRoundKey(Block(Word(0xec, 0x61, 0x4b, 0x85), Word(0x14, 0x25, 0x75, 0x8c),
                               Word(0x99, 0xff, 0x09, 0x37), Word(0x6a, 0xb4, 0x9b, 0xa7)), 0x40)
            == Block(Word(0x21, 0x75, 0x17, 0x87), Word(0x35, 0x50, 0x62, 0x0b),
                     Word(0xac, 0xaf, 0x6b, 0x3c), Word(0xc6, 0x1b, 0xf0, 0x9b))
  {}

  lemma NextKey8()
    ensures NextRoundKey(Block(Word(0x21, 0x75, 0x17, 0x87), Word(0x35, 0x50, 0x62, 0x0b),
                               Word(0xac, 0xaf, 0x6b, 0x3c), Word(0xc6, 0x1b, 0xf0, 0x9b)), 0x80)
            == Block(Word(0x0e, 0xf9, 0x03, 0x33), Word(0x3b, 0xa9, 0x61, 0x38),
                     Word(0x97, 0x06, 0x0a, 0x04), Word(0x51, 0x1d, 0xfa, 0x9f))
  {}

  lemma NextKey9()
    ensures NextRoundKey(Block(Word(0x0e, 0xf9, 0x03, 0x33), Word(0x3b, 0xa9, 0x61, 0x38),
                               Word(0x97, 0x06, 0x0a, 0x04), Word(0x51, 0x1d, 0xfa, 0x9f)), 0x1b)
            == Block(Word(0xb1, 0xd4, 0xd8, 0xe2), Word(0x8a, 0x7d, 0xb9, 0xda),
                     Word(0x1d, 0x7b, 0xb3, 0xde), Word(0x4c, 0x66, 0x49, 0x41))
  {}

  lemma NextKey10()
    ensures NextRoundKey(Block(Word(0xb1, 0xd4, 0xd8, 0xe2), Word(0x8a, 0x7d, 0xb9, 0xda),
                               Word(0x1d, 0x7b, 0xb3, 0xde), Word(0x4c, 0x66, 0x49, 0x41)), 0x36)
            == Block(Word(0xb4, 0xef, 0x5b, 0xcb), Word(0x3e, 0x92, 0xe2, 0x11),
                     Word(0x23, 0xe9, 0x51, 0xcf), Word(0x6f, 0x8f, 0x18, 0x8e))
  {}


  lemma NextKey(r: nat)
    requires 1 <= r <= 10
    ensures NextRoundKey(RoundKeyAt(r - 1), Rcon(r - 1)) == RoundKeyAt(r)
  {
    hide NextRoundKey;
    match r
    case 1 => NextKey1();
    case 2 => NextKey2();
    case 3 => NextKey3();
    case 4 => NextKey4();
    case 5 => NextKey5();
    case 6 => NextKey6();
    case 7 => NextKey7();
    case 8 => NextKey8();
    case 9 => NextKey9();
    case _ => NextKey10();
  }

  ghost predicate KeyWords(r: nat) {
    && ExpandedWord(Key(), 4 * r) == RoundKeyAt(r).c0 && ExpandedWord(Key(), 4 * r + 1) == RoundKeyAt(r).c1
    && ExpandedWord(Key(), 4 * r + 2) == RoundKeyAt(r).c2 && ExpandedWord(Key(), 4 * r + 3) == RoundKeyAt(r).c3
  }

  lemma NextWords(r: nat)
    requires r >= 1
    ensures var k := Block(ExpandedWord(Key(), 4 * r - 4), ExpandedWord(Key(), 4 * r - 3),
                           ExpandedWord(Key(), 4 * r - 2), ExpandedWord(Key(), 4 * r - 1));
            NextRoundKey(k, XPower(r - 1))
            == Block(ExpandedWord(Key(), 4 * r), ExpandedWord(Key(), 4 * r + 1),
                     ExpandedWord(Key(), 4 * r + 2), ExpandedWord(Key(), 4 * r + 3))
  {
    hide Xor, SubWord, RotWord, XPower, ExpandedWord;
    NextWord(4 * r);
    NextWord(4 * r + 1);
    NextWord(4 * r + 2);
    NextWord(4 * r + 3);
  }

  lemma NextWord(i: nat)
    requires i >= 4
    ensures var previous := ExpandedWord(Key(), i - 1);
            var temp :=
              if i % 4 == 0 then Xor(SubWord(RotWord(previous)), Word(XPower(i / 4 - 1), 0, 0, 0)) else previous;
            ExpandedWord(Key(), i) == Xor(ExpandedWord(Key(), i - 4), temp)
  {
    hide Xor, SubWord, RotWord, XPower;
  }

  lemma {:induction false} KeyIs(r: nat)
    requires r <= 10
    ensures KeyWords(r)
  {
    hide NextRoundKey, ExpandedWord, RoundKeyAt, XPower, Rcon;
    if r == 0 {
      FirstWords();
    } else {
      KeyIs(r - 1);
      NextWords(r);
      RconIsXPower(r - 1);
      NextKey(r);
    }
  }

  lemma FirstWords()
    ensures KeyWords(0)
  {}

  lemma RoundKeyIs(r: nat)
    requires r <= 10
    ensures RoundKey(Schedule(Key()), r) == RoundKeyAt(r)
  {
    hide RoundKeyAt, ExpandedWord;
    KeyIs(r);
  }

  // ---- the round keys of the decryption direction ----

  // InvMixColumns of the inner ones
  function InvKeyAt(r: nat): Block {
    match r
    case 0 =>
      Block(Word(0x00, 0x00, 0x00, 0x00), Word(0x00, 0x00, 0x00, 0x00),
            Word(0x00, 0x00, 0x00, 0x00), Word(0x00, 0x00, 0x00, 0x00))
    case 1 =>
      Block(Word(0x6d, 0x6a, 0x6e, 0x68), Word(0x6d, 0x6a, 0x6e, 0x68),
            Word(0x6d, 0x6a, 0x6e, 0x68), Word(0x6d, 0x6a, 0x6e, 0x68))
    case 2 =>
      Block(Word(0x65, 0x33, 0xc2, 0xc6), Word(0x08, 0x59, 0xac, 0xae),
            Word(0x65, 0x33, 0xc2, 0xc6), Word(0x08, 0x59, 0xac, 0xae))
    case 3 =>
      Block(Word(0x6e, 0xad, 0x0c, 0xac), Word(0x66, 0xf4, 0xa0, 0x02),
            Word(0x03, 0xc7, 0x62, 0xc4), Word(0x0b, 0x9e, 0xce, 0x6a))
    case 4 =>
      Block(Word(0xc2, 0x7d, 0x64, 0x92), Word(0xa4, 0x89, 0xc4, 0x90),
            Word(0xa7, 0x4e, 0xa6, 0x54), Word(0xac, 0xd0, 0x68, 0x3e))
    case 5 =>
      Block(Word(0xb5, 0xa9, 0x1e, 0xf0), Word(0x11, 0x20, 0xda, 0x60),
            Word(0xb6, 0x6e, 0x7c, 0x34), Word(0x1a, 0xbe, 0x14, 0x0a))
    case 6 =>
      Block(Word(0x2a, 0xe5, 0x0b, 0x87), Word(0x3b, 0xc5, 0xd1, 0xe7),
            Word(0x8d, 0xab, 0xad, 0xd3), Word(0x97, 0x15, 0xb9, 0xd9))
    case 7 =>
      Block(Word(0xef, 0xea, 0x4a, 0x8b), Word(0xd4, 0x2f, 0x9b, 0x6c),
            Word(0x59, 0x84, 0x36, 0xbf), Word(0xce, 0x91, 0x8f, 0x66))
    case 8 =>
      Block(Word(0x6a, 0xb6, 0xf2, 0xe9), Word(0xbe, 0x99, 0x69, 0x85),
            Word(0xe7, 0x1d, 0x5f, 0x3a), Word(0x29, 0x8c, 0xd0, 0x5c))
    case 9 =>
      Block(Word(0x55, 0x85, 0x82, 0x0d), Word(0xeb, 0x1c, 0xeb, 0x88),
            Word(0x0c, 0x01, 0xb4, 0xb2), Word(0x25, 0x8d, 0x64, 0xee))
    case _ =>
      Block(Word(0xb4, 0xef, 0x5b, 0xcb), Word(0x3e, 0x92, 0xe2, 0x11),
            Word(0x23, 0xe9, 0x51, 0xcf), Word(0x6f, 0x8f, 0x18, 0x8e))
  }

  lemma MixedKey1()
    ensures MixColumns(Block(Word(0x6d, 0x6a, 0x6e, 0x68), Word(0x6d, 0x6a, 0x6e, 0x68),
                             Word(0x6d, 0x6a, 0x6e, 0x68), Word(0x6d, 0x6a, 0x6e, 0x68)))
            == Block(Word(0x62, 0x63, 0x63, 0x63), Word(0x62, 0x63, 0x63, 0x63),
                     Word(0x62, 0x63, 0x63, 0x63), Word(0x62, 0x63, 0x63, 0x63))
  {}

  lemma MixedKey2()
    ensures MixColumns(Block(Word(0x65, 0x33, 0xc2, 0xc6), Word(0x08, 0x59, 0xac, 0xae),
                             Word(0x65, 0x33, 0xc2, 0xc6), Word(0x08, 0x59, 0xac, 0xae)))
            == Block(Word(0x9b, 0x98, 0x98, 0xc9), Word(0xf9, 0xfb, 0xfb, 0xaa),
                     Word(0x9b, 0x98, 0x98, 0xc9), Word(0xf9, 0xfb, 0xfb, 0xaa))
  {}

  lemma MixedKey3()
    ensures MixColumns(Block(Word(0x6e, 0xad, 0x0c, 0xac), Word(0x66, 0xf4, 0xa0, 0x02),
                             Word(0x03, 0xc7, 0x62, 0xc4), Word(0x0b, 0x9e, 0xce, 0x6a)))
            == Block(Word(0x90, 0x97, 0x34, 0x50), Word(0x69, 0x6c, 0xcf, 0xfa),
                     Word(0xf2, 0xf4, 0x57, 0x33), Word(0x0b, 0x0f, 0xac, 0x99))
  {}

  lemma MixedKey4()
    ensures MixColumns(Block(Word(0xc2, 0x7d, 0x64, 0x92), Word(0xa4, 0x89, 0xc4, 0x90),
                             Word(0xa7, 0x4e, 0xa6, 0x54), Word(0xac, 0xd0, 0x68, 0x3e)))
            == Block(Word(0xee, 0x06, 0xda, 0x7b), Word(0x87, 0x6a, 0x15, 0x81),
                     Word(0x75, 0x9e, 0x42, 0xb2), Word(0x7e, 0x91, 0xee, 0x2b))
  {}

  lemma MixedKey5()
    ensures MixColumns(Block(Word(0xb5, 0xa9, 0x1e, 0xf0), Word(0x11, 0x20, 0xda, 0x60),
                             Word(0xb6, 0x6e, 0x7c, 0x34), Word(0x1a, 0xbe, 0x14, 0x0a)))
            == Block(Word(0x7f, 0x2e, 0x2b, 0x88), Word(0xf8, 0x44, 0x3e, 0x09),
                     Word(0x8d, 0xda, 0x7c, 0xbb), Word(0xf3, 0x4b, 0x92, 0x90))
  {}

  lemma MixedKey6()
    ensures MixColumns(Block(Word(0x2a, 0xe5, 0x0b, 0x87), Word(0x3b, 0xc5, 0xd1, 0xe7),
                             Word(0x8d, 0xab, 0xad, 0xd3), Word(0x97, 0x15, 0xb9, 0xd9)))
            == Block(Word(0xec, 0x61, 0x4b, 0x85), Word(0x14, 0x25, 0x75, 0x8c),
                     Word(0x99, 0xff, 0x09, 0x37), Word(0x6a, 0xb4, 0x9b, 0xa7))
  {}

  lemma MixedKey7()
    ensures MixColumns(Block(Word(0xef, 0xea, 0x4a, 0x8b), Word(0xd4, 0x2f, 0x9b, 0x6c),
                             Word(0x59, 0x84, 0x36, 0xbf), Word(0xce, 0x91, 0x8f, 0x66)))
            == Block(Word(0x21, 0x75, 0x17, 0x87), Word(0x35, 0x50, 0x62, 0x0b),
                     Word(0xac, 0xaf, 0x6b, 0x3c), Word(0xc6, 0x1b, 0xf0, 0x9b))
  {}

  lemma MixedKey8()
    ensures MixColumns(Block(Word(0x6a, 0xb6, 0xf2, 0xe9), Word(0xbe, 0x99, 0x69, 0x85),
                             Word(0xe7, 0x1d, 0x5f, 0x3a), Word(0x29, 0x8c, 0xd0, 0x5c)))
            == Block(Word(0x0e, 0xf9, 0x03, 0x33), Word(0x3b, 0xa9, 0x61, 0x38),
                     Word(0x97, 0x06, 0x0a, 0x04), Word(0x51, 0x1d, 0xfa, 0x9f))
  {}

  lemma MixedKey9()
    ensures MixColumns(Block(Word(0x55, 0x85, 0x82, 0x0d), Word(0xeb, 0x1c, 0xeb, 0x88),
                             Word(0x0c, 0x01, 0xb4, 0xb2), Word(0x25, 0x8d, 0x64, 0xee)))
            == Block(Word(0xb1, 0xd4, 0xd8, 0xe2), Word(0x8a, 0x7d, 0xb9, 0xda),
                     Word(0x1d, 0x7b, 0xb3, 0xde), Word(0x4c, 0x66, 0x49, 0x41))
  {}


  lemma InvKeyIs(r: nat)
    requires r <= 10
    ensures InvKeyAt(r) == if 1 <= r <= 9 then InvMixColumns(RoundKeyAt(r)) else RoundKeyAt(r)
  {
    if 1 <= r <= 9 {
      hide MixColumns, InvMixColumns;
      MixColumnsInverse(InvKeyAt(r));
      match r
      case 1 => MixedKey1();
      case 2 => MixedKey2();
      case 3 => MixedKey3();
      case 4 => MixedKey4();
      case 5 => MixedKey5();
      case 6 => MixedKey6();
      case 7 => MixedKey7();
      case 8 => MixedKey8();
      case _ => MixedKey9();
    }
  }

  // ---- the zero block over the schedule ----

  // the state after r rounds
  function State(r: nat): Block {
    match r
    case 0 =>
      Block(Word(0x00, 0x00, 0x00, 0x00), Word(0x00, 0x00, 0x00, 0x00),
            Word(0x00, 0x00, 0x00, 0x00), Word(0x00, 0x00, 0x00, 0x00))
    case 1 =>
      Block(Word(0x01, 0x00, 0x00, 0x00), Word(0x01, 0x00, 0x00, 0x00),
            Word(0x01, 0x00, 0x00, 0x00), Word(0x01, 0x00, 0x00, 0x00))
    case 2 =>
      Block(Word(0xc6, 0xe4, 0xe4, 0x8b), Word(0xa4, 0x87, 0x87, 0xe8),
            Word(0xc6, 0xe4, 0xe4, 0x8b), Word(0xa4, 0x87, 0x87, 0xe8))
    case 3 =>
      Block(Word(0x28, 0x2d, 0xf3, 0xc4), Word(0x6a, 0xf3, 0x86, 0x25),
            Word(0x4a, 0x4e, 0x90, 0xa7), Word(0x08, 0x90, 0xe5, 0x46))
    case 4 =>
      Block(Word(0xab, 0xd2, 0xcd, 0xfe), Word(0x37, 0x5a, 0xb5, 0x49),
            Word(0x50, 0xa0, 0xaf, 0xc0), Word(0x75, 0x9a, 0x6a, 0x5f))
    case 5 =>
      Block(Word(0xd4, 0x6f, 0x4f, 0x6c), Word(0x55, 0xb8, 0x96, 0x33),
            Word(0x7e, 0x05, 0xbb, 0x3d), Word(0x79, 0x79, 0xde, 0x23))
    case 6 =>
      Block(Word(0x04, 0xf2, 0xca, 0x97), Word(0x07, 0x78, 0x28, 0x45),
            Word(0xe2, 0x2f, 0x01, 0x96), Word(0x49, 0xc5, 0xd7, 0x10))
    case 7 =>
      Block(Word(0xb7, 0xaa, 0xe4, 0xc5), Word(0x1d, 0x25, 0x2d, 0x4f),
            Word(0x6c, 0x92, 0x0f, 0x81), Word(0x94, 0xe5, 0x81, 0x50))
    case 8 =>
      Block(Word(0x23, 0xe7, 0x8c, 0x3c), Word(0x13, 0x21, 0x63, 0xdb),
            Word(0xaa, 0xc0, 0xc6, 0x57), Word(0x2e, 0x03, 0xcb, 0x95))
    case _ =>
      Block(Word(0x7f, 0xfe, 0x0e, 0x95), Word(0x51, 0xa5, 0x66, 0x35),
            Word(0x0e, 0x34, 0x7c, 0x47), Word(0x29, 0x29, 0xec, 0xcb))
  }

  // and the bytes substituted
  function StateSub(r: nat): Block {
    match r
    case 0 =>
      Block(Word(0x63, 0x63, 0x63, 0x63), Word(0x63, 0x63, 0x63, 0x63),
            Word(0x63, 0x63, 0x63, 0x63), Word(0x63, 0x63, 0x63, 0x63))
    case 1 =>
      Block(Word(0x7c, 0x63, 0x63, 0x63), Word(0x7c, 0x63, 0x63, 0x63),
            Word(0x7c, 0x63, 0x63, 0x63), Word(0x7c, 0x63, 0x63, 0x63))
    case 2 =>
      Block(Word(0xb4, 0x69, 0x69, 0x3d), Word(0x49, 0x17, 0x17, 0x9b),
            Word(0xb4, 0x69, 0x69, 0x3d), Word(0x49, 0x17, 0x17, 0x9b))
    case 3 =>
      Block(Word(0x34, 0xd8, 0x0d, 0x1c), Word(0x02, 0x0d, 0x44, 0x3f),
            Word(0xd6, 0x2f, 0x60, 0x5c), Word(0x30, 0x60, 0xd9, 0x5a))
    case 4 =>
      Block(Word(0x62, 0xb5, 0xbd, 0xbb), Word(0x9a, 0xbe, 0xd5, 0x3b),
            Word(0x53, 0xe0, 0x79, 0xba), Word(0x9d, 0xb8, 0x02, 0xcf))
    case 5 =>
      Block(Word(0x48, 0xa8, 0x84, 0x50), Word(0xfc, 0x6c, 0x90, 0xc3),
            Word(0xf3, 0x6b, 0xea, 0x27), Word(0xb6, 0xb6, 0x1d, 0x26))
    case 6 =>
      Block(Word(0xf2, 0x89, 0x74, 0x88), Word(0xc5, 0xbc, 0x34, 0x6e),
            Word(0x98, 0x15, 0x7c, 0x90), Word(0x3b, 0xa6, 0x0e, 0xca))
    case 7 =>
      Block(Word(0xa9, 0xac, 0x69, 0xa6), Word(0xa4, 0x3f, 0xd8, 0x84),
            Word(0x50, 0x4f, 0x76, 0x0c), Word(0x22, 0xd9, 0x0c, 0x53))
    case 8 =>
      Block(Word(0x26, 0x94, 0x64, 0xeb), Word(0x7d, 0xfd, 0xfb, 0xb9),
            Word(0xac, 0xba, 0xb4, 0x5b), Word(0x31, 0x7b, 0x1f, 0x2a))
    case _ =>
      Block(Word(0xd2, 0xbb, 0xab, 0x2a), Word(0xd1, 0x06, 0x33, 0x96),
            Word(0xab, 0x18, 0x10, 0xa0), Word(0xa5, 0xa5, 0xce, 0x1f))
  }

  lemma StateSub0()
    ensures SubBytes(Block(Word(0x00, 0x00, 0x00, 0x00), Word(0x00, 0x00, 0x00, 0x00),
                           Word(0x00, 0x00, 0x00, 0x00), Word(0x00, 0x00, 0x00, 0x00)))
            == Block(Word(0x63, 0x63, 0x63, 0x63), Word(0x63, 0x63, 0x63, 0x63),
                     Word(0x63, 0x63, 0x63, 0x63), Word(0x63, 0x63, 0x63, 0x63))
  {}

  lemma StateSub1()
    ensures SubBytes(Block(Word(0x01, 0x00, 0x00, 0x00), Word(0x01, 0x00, 0x00, 0x00),
                           Word(0x01, 0x00, 0x00, 0x00), Word(0x01, 0x00, 0x00, 0x00)))
            == Block(Word(0x7c, 0x63, 0x63, 0x63), Word(0x7c, 0x63, 0x63, 0x63),
                     Word(0x7c, 0x63, 0x63, 0x63), Word(0x7c, 0x63, 0x63, 0x63))
  {}

  lemma StateSub2()
    ensures SubBytes(Block(Word(0xc6, 0xe4, 0xe4, 0x8b), Word(0xa4, 0x87, 0x87, 0xe8),
                           Word(0xc6, 0xe4, 0xe4, 0x8b), Word(0xa4, 0x87, 0x87, 0xe8)))
            == Block(Word(0xb4, 0x69, 0x69, 0x3d), Word(0x49, 0x17, 0x17, 0x9b),
                     Word(0xb4, 0x69, 0x69, 0x3d), Word(0x49, 0x17, 0x17, 0x9b))
  {}

  lemma StateSub3()
    ensures SubBytes(Block(Word(0x28, 0x2d, 0xf3, 0xc4), Word(0x6a, 0xf3, 0x86, 0x25),
                           Word(0x4a, 0x4e, 0x90, 0xa7), Word(0x08, 0x90, 0xe5, 0x46)))
            == Block(Word(0x34, 0xd8, 0x0d, 0x1c), Word(0x02, 0x0d, 0x44, 0x3f),
                     Word(0xd6, 0x2f, 0x60, 0x5c), Word(0x30, 0x60, 0xd9, 0x5a))
  {}

  lemma StateSub4()
    ensures SubBytes(Block(Word(0xab, 0xd2, 0xcd, 0xfe), Word(0x37, 0x5a, 0xb5, 0x49),
                           Word(0x50, 0xa0, 0xaf, 0xc0), Word(0x75, 0x9a, 0x6a, 0x5f)))
            == Block(Word(0x62, 0xb5, 0xbd, 0xbb), Word(0x9a, 0xbe, 0xd5, 0x3b),
                     Word(0x53, 0xe0, 0x79, 0xba), Word(0x9d, 0xb8, 0x02, 0xcf))
  {}

  lemma StateSub5()
    ensures SubBytes(Block(Word(0xd4, 0x6f, 0x4f, 0x6c), Word(0x55, 0xb8, 0x96, 0x33),
                           Word(0x7e, 0x05, 0xbb, 0x3d), Word(0x79, 0x79, 0xde, 0x23)))
            == Block(Word(0x48, 0xa8, 0x84, 0x50), Word(0xfc, 0x6c, 0x90, 0xc3),
                     Word(0xf3, 0x6b, 0xea, 0x27), Word(0xb6, 0xb6, 0x1d, 0x26))
  {}

  lemma StateSub6()
    ensures SubBytes(Block(Word(0x04, 0xf2, 0xca, 0x97), Word(0x07, 0x78, 0x28, 0x45),
                           Word(0xe2, 0x2f, 0x01, 0x96), Word(0x49, 0xc5, 0xd7, 0x10)))
            == Block(Word(0xf2, 0x89, 0x74, 0x88), Word(0xc5, 0xbc, 0x34, 0x6e),
                     Word(0x98, 0x15, 0x7c, 0x90), Word(0x3b, 0xa6, 0x0e, 0xca))
  {}

  lemma StateSub7()
    ensures SubBytes(Block(Word(0xb7, 0xaa, 0xe4, 0xc5), Word(0x1d, 0x25, 0x2d, 0x4f),
                           Word(0x6c, 0x92, 0x0f, 0x81), Word(0x94, 0xe5, 0x81, 0x50)))
            == Block(Word(0xa9, 0xac, 0x69, 0xa6), Word(0xa4, 0x3f, 0xd8, 0x84),
                     Word(0x50, 0x4f, 0x76, 0x0c), Word(0x22, 0xd9, 0x0c, 0x53))
  {}

  lemma StateSub8()
    ensures SubBytes(Block(Word(0x23, 0xe7, 0x8c, 0x3c), Word(0x13, 0x21, 0x63, 0xdb),
                           Word(0xaa, 0xc0, 0xc6, 0x57), Word(0x2e, 0x03, 0xcb, 0x95)))
            == Block(Word(0x26, 0x94, 0x64, 0xeb), Word(0x7d, 0xfd, 0xfb, 0xb9),
                     Word(0xac, 0xba, 0xb4, 0x5b), Word(0x31, 0x7b, 0x1f, 0x2a))
  {}

  lemma StateSub9()
    ensures SubBytes(Block(Word(0x7f, 0xfe, 0x0e, 0x95), Word(0x51, 0xa5, 0x66, 0x35),
                           Word(0x0e, 0x34, 0x7c, 0x47), Word(0x29, 0x29, 0xec, 0xcb)))
            == Block(Word(0xd2, 0xbb, 0xab, 0x2a), Word(0xd1, 0x06, 0x33, 0x96),
                     Word(0xab, 0x18, 0x10, 0xa0), Word(0xa5, 0xa5, 0xce, 0x1f))
  {}


  lemma StateMix1()
    ensures AddRoundKey(MixColumns(ShiftRows(Block(Word(0x63, 0x63, 0x63, 0x63), Word(0x63, 0x63, 0x63, 0x63),
                                                   Word(0x63, 0x63, 0x63, 0x63), Word(0x63, 0x63, 0x63, 0x63)))),
                        Block(Word(0x62, 0x63, 0x63, 0x63), Word(0x62, 0x63, 0x63, 0x63),
                              Word(0x62, 0x63, 0x63, 0x63), Word(0x62, 0x63, 0x63, 0x63)))
            == Block(Word(0x01, 0x00, 0x00, 0x00), Word(0x01, 0x00, 0x00, 0x00),
                     Word(0x01, 0x00, 0x00, 0x00), Word(0x01, 0x00, 0x00, 0x00))
  {}

  lemma StateMix2()
    ensures AddRoundKey(MixColumns(ShiftRows(Block(Word(0x7c, 0x63, 0x63, 0x63), Word(0x7c, 0x63, 0x63, 0x63),
                                                   Word(0x7c, 0x63, 0x63, 0x63), Word(0x7c, 0x63, 0x63, 0x63)))),
                        Block(Word(0x9b, 0x98, 0x98, 0xc9), Word(0xf9, 0xfb, 0xfb, 0xaa),
                              Word(0x9b, 0x98, 0x98, 0xc9), Word(0xf9, 0xfb, 0xfb, 0xaa)))
            == Block(Word(0xc6, 0xe4, 0xe4, 0x8b), Word(0xa4, 0x87, 0x87, 0xe8),
                     Word(0xc6, 0xe4, 0xe4, 0x8b), Word(0xa4, 0x87, 0x87, 0xe8))
  {}

  lemma StateMix3()
    ensures AddRoundKey(MixColumns(ShiftRows(Block(Word(0xb4, 0x69, 0x69, 0x3d), Word(0x49, 0x17, 0x17, 0x9b),
                                                   Word(0xb4, 0x69, 0x69, 0x3d), Word(0x49, 0x17, 0x17, 0x9b)))),
                        Block(Word(0x90, 0x97, 0x34, 0x50), Word(0x69, 0x6c, 0xcf, 0xfa),
                              Word(0xf2, 0xf4, 0x57, 0x33), Word(0x0b, 0x0f, 0xac, 0x99)))
            == Block(Word(0x28, 0x2d, 0xf3, 0xc4), Word(0x6a, 0xf3, 0x86, 0x25),
                     Word(0x4a, 0x4e, 0x90, 0xa7), Word(0x08, 0x90, 0xe5, 0x46))
  {}

  lemma StateMix4()
    ensures AddRoundKey(MixColumns(ShiftRows(Block(Word(0x34, 0xd8, 0x0d, 0x1c), Word(0x02, 0x0d, 0x44, 0x3f),
                                                   Word(0xd6, 0x2f, 0x60, 0x5c), Word(0x30, 0x60, 0xd9, 0x5a)))),
                        Block(Word(0xee, 0x06, 0xda, 0x7b), Word(0x87, 0x6a, 0x15, 0x81),
                              Word(0x75, 0x9e, 0x42, 0xb2), Word(0x7e, 0x91, 0xee, 0x2b)))
            == Block(Word(0xab, 0xd2, 0xcd, 0xfe), Word(0x37, 0x5a, 0xb5, 0x49),
                     Word(0x50, 0xa0, 0xaf, 0xc0), Word(0x75, 0x9a, 0x6a, 0x5f))
  {}

  lemma StateMix5()
    ensures AddRoundKey(MixColumns(ShiftRows(Block(Word(0x62, 0xb5, 0xbd, 0xbb), Word(0x9a, 0xbe, 0xd5, 0x3b),
                                                   Word(0x53, 0xe0, 0x79, 0xba), Word(0x9d, 0xb8, 0x02, 0xcf)))),
                        Block(Word(0x7f, 0x2e, 0x2b, 0x88), Word(0xf8, 0x44, 0x3e, 0x09),
                              Word(0x8d, 0xda, 0x7c, 0xbb), Word(0xf3, 0x4b, 0x92, 0x90)))
            == Block(Word(0xd4, 0x6f, 0x4f, 0x6c), Word(0x55, 0xb8, 0x96, 0x33),
                     Word(0x7e, 0x05, 0xbb, 0x3d), Word(0x79, 0x79, 0xde, 0x23))
  {}

  lemma StateMix6()
    ensures AddRoundKey(MixColumns(ShiftRows(Block(Word(0x48, 0xa8, 0x84, 0x50), Word(0xfc, 0x6c, 0x90, 0xc3),
                                                   Word(0xf3, 0x6b, 0xea, 0x27), Word(0xb6, 0xb6, 0x1d, 0x26)))),
                        Block(Word(0xec, 0x61, 0x4b, 0x85), Word(0x14, 0x25, 0x75, 0x8c),
                              Word(0x99, 0xff, 0x09, 0x37), Word(0x6a, 0xb4, 0x9b, 0xa7)))
            == Block(Word(0x04, 0xf2, 0xca, 0x97), Word(0x07, 0x78, 0x28, 0x45),
                     Word(0xe2, 0x2f, 0x01, 0x96), Word(0x49, 0xc5, 0xd7, 0x10))
  {}

  lemma StateMix7()
    ensures AddRoundKey(MixColumns(ShiftRows(Block(Word(0xf2, 0x89, 0x74, 0x88), Word(0xc5, 0xbc, 0x34, 0x6e),
                                                   Word(0x98, 0x15, 0x7c, 0x90), Word(0x3b, 0xa6, 0x0e, 0xca)))),
                        Block(Word(0x21, 0x75, 0x17, 0x87), Word(0x35, 0x50, 0x62, 0x0b),
                              Word(0xac, 0xaf, 0x6b, 0x3c), Word(0xc6, 0x1b, 0xf0, 0x9b)))
            == Block(Word(0xb7, 0xaa, 0xe4, 0xc5), Word(0x1d, 0x25, 0x2d, 0x4f),
                     Word(0x6c, 0x92, 0x0f, 0x81), Word(0x94, 0xe5, 0x81, 0x50))
  {}

  lemma StateMix8()
    ensures AddRoundKey(MixColumns(ShiftRows(Block(Word(0xa9, 0xac, 0x69, 0xa6), Word(0xa4, 0x3f, 0xd8, 0x84),
                                                   Word(0x50, 0x4f, 0x76, 0x0c), Word(0x22, 0xd9, 0x0c, 0x53)))),
                        Block(Word(0x0e, 0xf9, 0x03, 0x33), Word(0x3b, 0xa9, 0x61, 0x38),
                              Word(0x97, 0x06, 0x0a, 0x04), Word(0x51, 0x1d, 0xfa, 0x9f)))
            == Block(Word(0x23, 0xe7, 0x8c, 0x3c), Word(0x13, 0x21, 0x63, 0xdb),
                     Word(0xaa, 0xc0, 0xc6, 0x57), Word(0x2e, 0x03, 0xcb, 0x95))
  {}

  lemma StateMix9()
    ensures AddRoundKey(MixColumns(ShiftRows(Block(Word(0x26, 0x94, 0x64, 0xeb), Word(0x7d, 0xfd, 0xfb, 0xb9),
                                                   Word(0xac, 0xba, 0xb4, 0x5b), Word(0x31, 0x7b, 0x1f, 0x2a)))),
                        Block(Word(0xb1, 0xd4, 0xd8, 0xe2), Word(0x8a, 0x7d, 0xb9, 0xda),
                              Word(0x1d, 0x7b, 0xb3, 0xde), Word(0x4c, 0x66, 0x49, 0x41)))
            == Block(Word(0x7f, 0xfe, 0x0e, 0x95), Word(0x51, 0xa5, 0x66, 0x35),
                     Word(0x0e, 0x34, 0x7c, 0x47), Word(0x29, 0x29, 0xec, 0xcb))
  {}


  lemma StateRound(r: nat)
    requires 1 <= r <= 9
    ensures AddRoundKey(MixColumns(ShiftRows(SubBytes(State(r - 1)))), RoundKeyAt(r)) == State(r)
  {
    hide AddRoundKey, MixColumns, ShiftRows, SubBytes;
    match r
    case 1 => StateSub0(); StateMix1();
    case 2 => StateSub1(); StateMix2();
    case 3 => StateSub2(); StateMix3();
    case 4 => StateSub3(); StateMix4();
    case 5 => StateSub4(); StateMix5();
    case 6 => StateSub5(); StateMix6();
    case 7 => StateSub6(); StateMix7();
    case 8 => StateSub7(); StateMix8();
    case _ => StateSub8(); StateMix9();
  }

  lemma {:induction false} StateIs(w: seq<Word>, r: nat)
    requires r <= 9 && 4 * r + 4 <= |w| && forall i :: 0 <= i <= r ==> RoundKey(w, i) == RoundKeyAt(i)
    ensures Rounds(w, r, Zero()) == State(r)
  {
    hide AddRoundKey, MixColumns, ShiftRows, SubBytes, State, RoundKeyAt, RoundKey;
    if r == 0 {
      State0();
    } else {
      StateIs(w, r - 1);
      StateRound(r);
    }
  }

  lemma State0()
    ensures AddRoundKey(Zero(), RoundKeyAt(0)) == State(0)
  {}

  lemma StateEnds(w: seq<Word>)
    requires 44 <= |w| && forall i :: 0 <= i <= 10 ==> RoundKey(w, i) == RoundKeyAt(i)
    ensures Encrypt(w, 10, Zero()) == Result()
  {
    hide AddRoundKey, ShiftRows, SubBytes, Rounds, RoundKey, RoundKeyAt, Result;
    StateIs(w, 9);
    StateSub9();
    StateLast();
  }

  lemma StateLast()
    ensures AddRoundKey(ShiftRows(StateSub(9)), RoundKeyAt(10)) == Result()
  {}

  // the ciphertext 66e94bd4 ef8a2c3b 884cfa59 ca342b2e
  function Result(): Block {
    Block(Word(0x66, 0xe9, 0x4b, 0xd4), Word(0xef, 0x8a, 0x2c, 0x3b),
          Word(0x88, 0x4c, 0xfa, 0x59), Word(0xca, 0x34, 0x2b, 0x2e))
  }

  /** The zero block under the zero key, as a whole. */
  lemma KnownAnswer()
    ensures EncryptWith(Key(), Zero()) == Result() && DecryptWith(Key(), Result()) == Zero()
  {
    hide Encrypt, Decrypt, RoundKeyAt, Result, ExpandedWord;
    forall r | 0 <= r <= 10
      ensures RoundKey(Schedule(Key()), r) == RoundKeyAt(r)
    {
      RoundKeyIs(r);
    }
    StateEnds(Schedule(Key()));
    CipherInverse(Key(), Zero());
  }

  // ---- the zero block over the schedule of the decryption direction ----

  // the state after r rounds
  function InvState(r: nat): Block {
    match r
    case 0 =>
      Block(Word(0x00, 0x00, 0x00, 0x00), Word(0x00, 0x00, 0x00, 0x00),
            Word(0x00, 0x00, 0x00, 0x00), Word(0x00, 0x00, 0x00, 0x00))
    case 1 =>
      Block(Word(0x0e, 0x09, 0x0d, 0x0b), Word(0x0e, 0x09, 0x0d, 0x0b),
            Word(0x0e, 0x09, 0x0d, 0x0b), Word(0x0e, 0x09, 0x0d, 0x0b))
    case 2 =>
      Block(Word(0xd7, 0xd3, 0xa0, 0xa0), Word(0xba, 0xb9, 0xce, 0xc8),
            Word(0xd7, 0xd3, 0xa0, 0xa0), Word(0xba, 0xb9, 0xce, 0xc8))
    case 3 =>
      Block(Word(0x80, 0xdc, 0xac, 0xc3), Word(0x54, 0xaa, 0x04, 0x33),
            Word(0xed, 0xb6, 0xc2, 0xab), Word(0x39, 0xc0, 0x6a, 0x5b))
    case 4 =>
      Block(Word(0xb0, 0xa5, 0x04, 0x25), Word(0x1a, 0x1d, 0xdc, 0xe0),
            Word(0x8a, 0x1f, 0x2e, 0x1d), Word(0x89, 0xba, 0xa5, 0xb8))
    case 5 =>
      Block(Word(0xca, 0x22, 0x8b, 0x8f), Word(0x2c, 0x2c, 0xf5, 0x25),
            Word(0x5e, 0x0f, 0x31, 0x69), Word(0x67, 0x20, 0x55, 0x2b))
    case 6 =>
      Block(Word(0x67, 0xd0, 0x93, 0x54), Word(0xcc, 0x34, 0xa0, 0x18),
            Word(0xfd, 0xfe, 0x79, 0xcf), Word(0x37, 0x65, 0x68, 0xd1))
    case 7 =>
      Block(Word(0x5e, 0xa0, 0xe2, 0xcd), Word(0xf1, 0xe6, 0x81, 0x0f),
            Word(0x57, 0x98, 0x60, 0x93), Word(0x1b, 0x5a, 0x3b, 0x4c))
    case 8 =>
      Block(Word(0xaa, 0xab, 0xe4, 0x0d), Word(0x72, 0x34, 0x8d, 0xb8),
            Word(0x66, 0xe4, 0x0b, 0x1d), Word(0x87, 0x30, 0xf8, 0xf9))
    case _ =>
      Block(Word(0x8c, 0xfd, 0xd0, 0xf8), Word(0x46, 0x9a, 0x22, 0xd5),
            Word(0x63, 0xed, 0xe5, 0x52), Word(0x54, 0x1d, 0x5c, 0xbb))
  }

  // and the bytes substituted
  function InvStateSub(r: nat): Block {
    match r
    case 0 =>
      Block(Word(0x63, 0x63, 0x63, 0x63), Word(0x63, 0x63, 0x63, 0x63),
            Word(0x63, 0x63, 0x63, 0x63), Word(0x63, 0x63, 0x63, 0x63))
    case 1 =>
      Block(Word(0xab, 0x01, 0xd7, 0x2b), Word(0xab, 0x01, 0xd7, 0x2b),
            Word(0xab, 0x01, 0xd7, 0x2b), Word(0xab, 0x01, 0xd7, 0x2b))
    case 2 =>
      Block(Word(0x0e, 0x66, 0xe0, 0xe0), Word(0xf4, 0x56, 0x8b, 0xe8),
            Word(0x0e, 0x66, 0xe0, 0xe0), Word(0xf4, 0x56, 0x8b, 0xe8))
    case 3 =>
      Block(Word(0xcd, 0x86, 0x91, 0x2e), Word(0x20, 0xac, 0xf2, 0xc3),
            Word(0x55, 0x4e, 0x25, 0x62), Word(0x12, 0xba, 0x02, 0x39))
    case 4 =>
      Block(Word(0xe7, 0x06, 0xf2, 0x3f), Word(0xa2, 0xa4, 0x86, 0xe1),
            Word(0x7e, 0xc0, 0x31, 0xa4), Word(0xa7, 0xf4, 0x06, 0x6c))
    case 5 =>
      Block(Word(0x74, 0x93, 0x3d, 0x73), Word(0x71, 0x71, 0xe6, 0x3f),
            Word(0x58, 0x76, 0xc7, 0xf9), Word(0x85, 0xb7, 0xfc, 0xf1))
    case 6 =>
      Block(Word(0x85, 0x70, 0xdc, 0x20), Word(0x4b, 0x18, 0xe0, 0xad),
            Word(0x54, 0xbb, 0xb6, 0x8a), Word(0x9a, 0x4d, 0x45, 0x3e))
    case 7 =>
      Block(Word(0x58, 0xe0, 0x98, 0xbd), Word(0xa1, 0x8e, 0x0c, 0x76),
            Word(0x5b, 0x46, 0xd0, 0xdc), Word(0xaf, 0xbe, 0xe2, 0x29))
    case 8 =>
      Block(Word(0xac, 0x62, 0x69, 0xd7), Word(0x40, 0x18, 0x5d, 0x6c),
            Word(0x33, 0x69, 0x2b, 0xa4), Word(0x17, 0x04, 0x41, 0x99))
    case _ =>
      Block(Word(0x64, 0x54, 0x70, 0x41), Word(0x5a, 0xb8, 0x93, 0x03),
            Word(0xfb, 0x55, 0xd9, 0x00), Word(0x20, 0xa4, 0x4a, 0xea))
  }

  lemma InvStateSub0()
    ensures SubBytes(Block(Word(0x00, 0x00, 0x00, 0x00), Word(0x00, 0x00, 0x00, 0x00),
                           Word(0x00, 0x00, 0x00, 0x00), Word(0x00, 0x00, 0x00, 0x00)))
            == Block(Word(0x63, 0x63, 0x63, 0x63), Word(0x63, 0x63, 0x63, 0x63),
                     Word(0x63, 0x63, 0x63, 0x63), Word(0x63, 0x63, 0x63, 0x63))
  {}

  lemma InvStateSub1()
    ensures SubBytes(Block(Word(0x0e, 0x09, 0x0d, 0x0b), Word(0x0e, 0x09, 0x0d, 0x0b),
                           Word(0x0e, 0x09, 0x0d, 0x0b), Word(0x0e, 0x09, 0x0d, 0x0b)))
            == Block(Word(0xab, 0x01, 0xd7, 0x2b), Word(0xab, 0x01, 0xd7, 0x2b),
                     Word(0xab, 0x01, 0xd7, 0x2b), Word(0xab, 0x01, 0xd7, 0x2b))
  {}

  lemma InvStateSub2()
    ensures SubBytes(Block(Word(0xd7, 0xd3, 0xa0, 0xa0), Word(0xba, 0xb9, 0xce, 0xc8),
                           Word(0xd7, 0xd3, 0xa0, 0xa0), Word(0xba, 0xb9, 0xce, 0xc8)))
            == Block(Word(0x0e, 0x66, 0xe0, 0xe0), Word(0xf4, 0x56, 0x8b, 0xe8),
                     Word(0x0e, 0x66, 0xe0, 0xe0), Word(0xf4, 0x56, 0x8b, 0xe8))
  {}

  lemma InvStateSub3()
    ensures SubBytes(Block(Word(0x80, 0xdc, 0xac, 0xc3), Word(0x54, 0xaa, 0x04, 0x33),
                           Word(0xed, 0xb6, 0xc2, 0xab), Word(0x39, 0xc0, 0x6a, 0x5b)))
            == Block(Word(0xcd, 0x86, 0x91, 0x2e), Word(0x20, 0xac, 0xf2, 0xc3),
                     Word(0x55, 0x4e, 0x25, 0x62), Word(0x12, 0xba, 0x02, 0x39))
  {}

  lemma InvStateSub4()
    ensures SubBytes(Block(Word(0xb0, 0xa5, 0x04, 0x25), Word(0x1a, 0x1d, 0xdc, 0xe0),
                           Word(0x8a, 0x1f, 0x2e, 0x1d), Word(0x89, 0xba, 0xa5, 0xb8)))
            == Block(Word(0xe7, 0x06, 0xf2, 0x3f), Word(0xa2, 0xa4, 0x86, 0xe1),
                     Word(0x7e, 0xc0, 0x31, 0xa4), Word(0xa7, 0xf4, 0x06, 0x6c))
  {}

  lemma InvStateSub5()
    ensures SubBytes(Block(Word(0xca, 0x22, 0x8b, 0x8f), Word(0x2c, 0x2c, 0xf5, 0x25),
                           Word(0x5e, 0x0f, 0x31, 0x69), Word(0x67, 0x20, 0x55, 0x2b)))
            == Block(Word(0x74, 0x93, 0x3d, 0x73), Word(0x71, 0x71, 0xe6, 0x3f),
                     Word(0x58, 0x76, 0xc7, 0xf9), Word(0x85, 0xb7, 0xfc, 0xf1))
  {}

  lemma InvStateSub6()
    ensures SubBytes(Block(Word(0x67, 0xd0, 0x93, 0x54), Word(0xcc, 0x34, 0xa0, 0x18),
                           Word(0xfd, 0xfe, 0x79, 0xcf), Word(0x37, 0x65, 0x68, 0xd1)))
            == Block(Word(0x85, 0x70, 0xdc, 0x20), Word(0x4b, 0x18, 0xe0, 0xad),
                     Word(0x54, 0xbb, 0xb6, 0x8a), Word(0x9a, 0x4d, 0x45, 0x3e))
  {}

  lemma InvStateSub7()
    ensures SubBytes(Block(Word(0x5e, 0xa0, 0xe2, 0xcd), Word(0xf1, 0xe6, 0x81, 0x0f),
                           Word(0x57, 0x98, 0x60, 0x93), Word(0x1b, 0x5a, 0x3b, 0x4c)))
            == Block(Word(0x58, 0xe0, 0x98, 0xbd), Word(0xa1, 0x8e, 0x0c, 0x76),
                     Word(0x5b, 0x46, 0xd0, 0xdc), Word(0xaf, 0xbe, 0xe2, 0x29))
  {}

  lemma InvStateSub8()
    ensures SubBytes(Block(Word(0xaa, 0xab, 0xe4, 0x0d), Word(0x72, 0x34, 0x8d, 0xb8),
                           Word(0x66, 0xe4, 0x0b, 0x1d), Word(0x87, 0x30, 0xf8, 0xf9)))
            == Block(Word(0xac, 0x62, 0x69, 0xd7), Word(0x40, 0x18, 0x5d, 0x6c),
                     Word(0x33, 0x69, 0x2b, 0xa4), Word(0x17, 0x04, 0x41, 0x99))
  {}

  lemma InvStateSub9()
    ensures SubBytes(Block(Word(0x8c, 0xfd, 0xd0, 0xf8), Word(0x46, 0x9a, 0x22, 0xd5),
                           Word(0x63, 0xed, 0xe5, 0x52), Word(0x54, 0x1d, 0x5c, 0xbb)))
            == Block(Word(0x64, 0x54, 0x70, 0x41), Word(0x5a, 0xb8, 0x93, 0x03),
                     Word(0xfb, 0x55, 0xd9, 0x00), Word(0x20, 0xa4, 0x4a, 0xea))
  {}


  lemma InvStateMix1()
    ensures AddRoundKey(MixColumns(ShiftRows(Block(Word(0x63, 0x63, 0x63, 0x63), Word(0x63, 0x63, 0x63, 0x63),
                                                   Word(0x63, 0x63, 0x63, 0x63), Word(0x63, 0x63, 0x63, 0x63)))),
                        Block(Word(0x6d, 0x6a, 0x6e, 0x68), Word(0x6d, 0x6a, 0x6e, 0x68),
                              Word(0x6d, 0x6a, 0x6e, 0x68), Word(0x6d, 0x6a, 0x6e, 0x68)))
            == Block(Word(0x0e, 0x09, 0x0d, 0x0b), Word(0x0e, 0x09, 0x0d, 0x0b),
                     Word(0x0e, 0x09, 0x0d, 0x0b), Word(0x0e, 0x09, 0x0d, 0x0b))
  {}

  lemma InvStateMix2()
    ensures AddRoundKey(MixColumns(ShiftRows(Block(Word(0xab, 0x01, 0xd7, 0x2b), Word(0xab, 0x01, 0xd7, 0x2b),
                                                   Word(0xab, 0x01, 0xd7, 0x2b), Word(0xab, 0x01, 0xd7, 0x2b)))),
                        Block(Word(0x65, 0x33, 0xc2, 0xc6), Word(0x08, 0x59, 0xac, 0xae),
                              Word(0x65, 0x33, 0xc2, 0xc6), Word(0x08, 0x59, 0xac, 0xae)))
            == Block(Word(0xd7, 0xd3, 0xa0, 0xa0), Word(0xba, 0xb9, 0xce, 0xc8),
                     Word(0xd7, 0xd3, 0xa0, 0xa0), Word(0xba, 0xb9, 0xce, 0xc8))
  {}

  lemma InvStateMix3()
    ensures AddRoundKey(MixColumns(ShiftRows(Block(Word(0x0e, 0x66, 0xe0, 0xe0), Word(0xf4, 0x56, 0x8b, 0xe8),
                                                   Word(0x0e, 0x66, 0xe0, 0xe0), Word(0xf4, 0x56, 0x8b, 0xe8)))),
                        Block(Word(0x6e, 0xad, 0x0c, 0xac), Word(0x66, 0xf4, 0xa0, 0x02),
                              Word(0x03, 0xc7, 0x62, 0xc4), Word(0x0b, 0x9e, 0xce, 0x6a)))
            == Block(Word(0x80, 0xdc, 0xac, 0xc3), Word(0x54, 0xaa, 0x04, 0x33),
                     Word(0xed, 0xb6, 0xc2, 0xab), Word(0x39, 0xc0, 0x6a, 0x5b))
  {}

  lemma InvStateMix4()
    ensures AddRoundKey(MixColumns(ShiftRows(Block(Word(0xcd, 0x86, 0x91, 0x2e), Word(0x20, 0xac, 0xf2, 0xc3),
                                                   Word(0x55, 0x4e, 0x25, 0x62), Word(0x12, 0xba, 0x02, 0x39)))),
                        Block(Word(0xc2, 0x7d, 0x64, 0x92), Word(0xa4, 0x89, 0xc4, 0x90),
                              Word(0xa7, 0x4e, 0xa6, 0x54), Word(0xac, 0xd0, 0x68, 0x3e)))
            == Block(Word(0xb0, 0xa5, 0x04, 0x25), Word(0x1a, 0x1d, 0xdc, 0xe0),
                     Word(0x8a, 0x1f, 0x2e, 0x1d), Word(0x89, 0xba, 0xa5, 0xb8))
  {}

  lemma InvStateMix5()
    ensures AddRoundKey(MixColumns(ShiftRows(Block(Word(0xe7, 0x06, 0xf2, 0x3f), Word(0xa2, 0xa4, 0x86, 0xe1),
                                                   Word(0x7e, 0xc0, 0x31, 0xa4), Word(0xa7, 0xf4, 0x06, 0x6c)))),
                        Block(Word(0xb5, 0xa9, 0x1e, 0xf0), Word(0x11, 0x20, 0xda, 0x60),
                              Word(0xb6, 0x6e, 0x7c, 0x34), Word(0x1a, 0xbe, 0x14, 0x0a)))
            == Block(Word(0xca, 0x22, 0x8b, 0x8f), Word(0x2c, 0x2c, 0xf5, 0x25),
                     Word(0x5e, 0x0f, 0x31, 0x69), Word(0x67, 0x20, 0x55, 0x2b))
  {}

  lemma InvStateMix6()
    ensures AddRoundKey(MixColumns(ShiftRows(Block(Word(0x74, 0x93, 0x3d, 0x73), Word(0x71, 0x71, 0xe6, 0x3f),
                                                   Word(0x58, 0x76, 0xc7, 0xf9), Word(0x85, 0xb7, 0xfc, 0xf1)))),
                        Block(Word(0x2a, 0xe5, 0x0b, 0x87), Word(0x3b, 0xc5, 0xd1, 0xe7),
                              Word(0x8d, 0xab, 0xad, 0xd3), Word(0x97, 0x15, 0xb9, 0xd9)))
            == Block(Word(0x67, 0xd0, 0x93, 0x54), Word(0xcc, 0x34, 0xa0, 0x18),
                     Word(0xfd, 0xfe, 0x79, 0xcf), Word(0x37, 0x65, 0x68, 0xd1))
  {}

  lemma InvStateMix7()
    ensures AddRoundKey(MixColumns(ShiftRows(Block(Word(0x85, 0x70, 0xdc, 0x20), Word(0x4b, 0x18, 0xe0, 0xad),
                                                   Word(0x54, 0xbb, 0xb6, 0x8a), Word(0x9a, 0x4d, 0x45, 0x3e)))),
                        Block(Word(0xef, 0xea, 0x4a, 0x8b), Word(0xd4, 0x2f, 0x9b, 0x6c),
                              Word(0x59, 0x84, 0x36, 0xbf), Word(0xce, 0x91, 0x8f, 0x66)))
            == Block(Word(0x5e, 0xa0, 0xe2, 0xcd), Word(0xf1, 0xe6, 0x81, 0x0f),
                     Word(0x57, 0x98, 0x60, 0x93), Word(0x1b, 0x5a, 0x3b, 0x4c))
  {}

  lemma InvStateMix8()
    ensures AddRoundKey(MixColumns(ShiftRows(Block(Word(0x58, 0xe0, 0x98, 0xbd), Word(0xa1, 0x8e, 0x0c, 0x76),
                                                   Word(0x5b, 0x46, 0xd0, 0xdc), Word(0xaf, 0xbe, 0xe2, 0x29)))),
                        Block(Word(0x6a, 0xb6, 0xf2, 0xe9), Word(0xbe, 0x99, 0x69, 0x85),
                              Word(0xe7, 0x1d, 0x5f, 0x3a), Word(0x29, 0x8c, 0xd0, 0x5c)))
            == Block(Word(0xaa, 0xab, 0xe4, 0x0d), Word(0x72, 0x34, 0x8d, 0xb8),
                     Word(0x66, 0xe4, 0x0b, 0x1d), Word(0x87, 0x30, 0xf8, 0xf9))
  {}

  lemma InvStateMix9()
    ensures AddRoundKey(MixColumns(ShiftRows(Block(Word(0xac, 0x62, 0x69, 0xd7), Word(0x40, 0x18, 0x5d, 0x6c),
                                                   Word(0x33, 0x69, 0x2b, 0xa4), Word(0x17, 0x04, 0x41, 0x99)))),
                        Block(Word(0x55, 0x85, 0x82, 0x0d), Word(0xeb, 0x1c, 0xeb, 0x88),
                              Word(0x0c, 0x01, 0xb4, 0xb2), Word(0x25, 0x8d, 0x64, 0xee)))
            == Block(Word(0x8c, 0xfd, 0xd0, 0xf8), Word(0x46, 0x9a, 0x22, 0xd5),
                     Word(0x63, 0xed, 0xe5, 0x52), Word(0x54, 0x1d, 0x5c, 0xbb))
  {}


  lemma InvStateRound(r: nat)
    requires 1 <= r <= 9
    ensures AddRoundKey(MixColumns(ShiftRows(SubBytes(InvState(r - 1)))), InvKeyAt(r)) == InvState(r)
  {
    hide AddRoundKey, MixColumns, ShiftRows, SubBytes;
    match r
    case 1 => InvStateSub0(); InvStateMix1();
    case 2 => InvStateSub1(); InvStateMix2();
    case 3 => InvStateSub2(); InvStateMix3();
    case 4 => InvStateSub3(); InvStateMix4();
    case 5 => InvStateSub4(); InvStateMix5();
    case 6 => InvStateSub5(); InvStateMix6();
    case 7 => InvStateSub6(); InvStateMix7();
    case 8 => InvStateSub7(); InvStateMix8();
    case _ => InvStateSub8(); InvStateMix9();
  }

  lemma {:induction false} InvStateIs(w: seq<Word>, r: nat)
    requires r <= 9 && 4 * r + 4 <= |w| && forall i :: 0 <= i <= r ==> RoundKey(w, i) == InvKeyAt(i)
    ensures Rounds(w, r, Zero()) == InvState(r)
  {
    hide AddRoundKey, MixColumns, ShiftRows, SubBytes, InvState, InvKeyAt, RoundKey;
    if r == 0 {
      InvState0();
    } else {
      InvStateIs(w, r - 1);
      InvStateRound(r);
    }
  }

  lemma InvState0()
    ensures AddRoundKey(Zero(), InvKeyAt(0)) == InvState(0)
  {}

  lemma InvStateFirst(w: seq<Word>)
    requires 44 <= |w| && forall i :: 0 <= i <= 10 ==> RoundKey(w, i) == InvKeyAt(i)
    ensures Encrypt(w, 10, Zero()).c0.b0 == 0xd0
  {
    hide AddRoundKey, ShiftRows, SubBytes, Rounds, RoundKey, InvKeyAt;
    InvStateIs(w, 9);
    InvStateSub9();
    InvStateLast();
  }

  lemma InvStateLast()
    ensures AddRoundKey(ShiftRows(InvStateSub(9)), InvKeyAt(10)).c0.b0 == 0xd0
  {}
}
