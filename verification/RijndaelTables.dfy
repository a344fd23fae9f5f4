/** The lookup tables of anonymizer/rijndael.c, and the proof that one round by table lookup is a textbook round. */
module RijndaelTables {
  import opened GaloisField
  import opened SBoxes
  import opened Cipher
  import opened KeyExpansion

  // ---- the lookup tables ----

  function T1(x: bv8): Word { Word(XTime(Sub(x)), Sub(x), Sub(x), Mul3(Sub(x))) }
  function T2(x: bv8): Word { Word(Mul3(Sub(x)), XTime(Sub(x)), Sub(x), Sub(x)) }
  function T3(x: bv8): Word { Word(Sub(x), Mul3(Sub(x)), XTime(Sub(x)), Sub(x)) }
  function T4(x: bv8): Word { Word(Sub(x), Sub(x), Mul3(Sub(x)), XTime(Sub(x))) }

  function U1(x: bv8): Word { Word(MulE(x), Mul9(x), MulD(x), MulB(x)) }
  function U2(x: bv8): Word { Word(MulB(x), MulE(x), Mul9(x), MulD(x)) }
  function U3(x: bv8): Word { Word(MulD(x), MulB(x), MulE(x), Mul9(x)) }
  function U4(x: bv8): Word { Word(Mul9(x), MulD(x), MulB(x), MulE(x)) }

  function T5(x: bv8): Word { U1(InvSub(x)) }
  function T6(x: bv8): Word { U2(InvSub(x)) }
  function T7(x: bv8): Word { U3(InvSub(x)) }
  function T8(x: bv8): Word { U4(InvSub(x)) }

  // the table rcon[30]
  function Rcon(j: nat): bv8
    requires j < 30
  {
    match j
    case 0 => 0x01 case 1 => 0x02 case 2 => 0x04 case 3 => 0x08 case 4 => 0x10 case 5 => 0x20
    case 6 => 0x40 case 7 => 0x80 case 8 => 0x1b case 9 => 0x36 case 10 => 0x6c case 11 => 0xd8
    case 12 => 0xab case 13 => 0x4d case 14 => 0x9a case 15 => 0x2f case 16 => 0x5e case 17 => 0xbc
    case 18 => 0x63 case 19 => 0xc6 case 20 => 0x97 case 21 => 0x35 case 22 => 0x6a case 23 => 0xd4
    case 24 => 0xb3 case 25 => 0x7d case 26 => 0xfa case 27 => 0xef case 28 => 0xc5 case _ => 0x91
  }

  lemma RconStep(j: nat)
    requires j < 10
    ensures Rcon(0) == 1
    ensures Rcon(j + 1) == XTime(Rcon(j))
  {}

  // the entries that the key schedule reads
  lemma {:induction false} RconIsXPower(j: nat)
    requires j <= 10
    ensures Rcon(j) == XPower(j)
  {
    hide XTime, Rcon;
    if j == 0 {
      RconStep(0);
    } else {
      RconIsXPower(j - 1);
      RconStep(j - 1);
    }
  }

  // ---- one round by table lookup ----

  function XorAll(p: Word, q: Word, r: Word, s: Word): Word {
    Xor(Xor(Xor(p, q), r), s)
  }

  function TableRound(t: Block): Block {
    Block(XorAll(T1(t.c0.b0), T2(t.c1.b1), T3(t.c2.b2), T4(t.c3.b3)),
          XorAll(T1(t.c1.b0), T2(t.c2.b1), T3(t.c3.b2), T4(t.c0.b3)),
          XorAll(T1(t.c2.b0), T2(t.c3.b1), T3(t.c0.b2), T4(t.c1.b3)),
          XorAll(T1(t.c3.b0), T2(t.c0.b1), T3(t.c1.b2), T4(t.c2.b3)))
  }

  function TableFinalRound(t: Block): Block {
    Block(Word(T1(t.c0.b0).b1, T1(t.c1.b1).b1, T1(t.c2.b2).b1, T1(t.c3.b3).b1),
          Word(T1(t.c1.b0).b1, T1(t.c2.b1).b1, T1(t.c3.b2).b1, T1(t.c0.b3).b1),
          Word(T1(t.c2.b0).b1, T1(t.c3.b1).b1, T1(t.c0.b2).b1, T1(t.c1.b3).b1),
          Word(T1(t.c3.b0).b1, T1(t.c0.b1).b1, T1(t.c1.b2).b1, T1(t.c2.b3).b1))
  }

  function InvTableRound(t: Block): Block {
    Block(XorAll(T5(t.c0.b0), T6(t.c3.b1), T7(t.c2.b2), T8(t.c1.b3)),
          XorAll(T5(t.c1.b0), T6(t.c0.b1), T7(t.c3.b2), T8(t.c2.b3)),
          XorAll(T5(t.c2.b0), T6(t.c1.b1), T7(t.c0.b2), T8(t.c3.b3)),
          XorAll(T5(t.c3.b0), T6(t.c2.b1), T7(t.c1.b2), T8(t.c0.b3)))
  }

  function InvTableFinalRound(t: Block): Block {
    Block(Word(InvSub(t.c0.b0), InvSub(t.c3.b1), InvSub(t.c2.b2), InvSub(t.c1.b3)),
          Word(InvSub(t.c1.b0), InvSub(t.c0.b1), InvSub(t.c3.b2), InvSub(t.c2.b3)),
          Word(InvSub(t.c2.b0), InvSub(t.c1.b1), InvSub(t.c0.b2), InvSub(t.c3.b3)),
          Word(InvSub(t.c3.b0), InvSub(t.c2.b1), InvSub(t.c1.b2), InvSub(t.c0.b3)))
  }

  lemma AddAssociates(a: bv8, b: bv8, c: bv8, d: bv8)
    ensures Add(Add(Add(a, b), c), d) == Sum(a, b, c, d)
  {
    hide Add;
    AddAssociates3(Add(a, b), c, d);
  }

  lemma AddAssociates3(a: bv8, b: bv8, c: bv8)
    ensures Add(Add(a, b), c) == Add(a, Add(b, c))
  {}

  lemma XorAllIsSum(p: Word, q: Word, r: Word, s: Word)
    ensures XorAll(p, q, r, s) == Word(Sum(p.b0, q.b0, r.b0, s.b0), Sum(p.b1, q.b1, r.b1, s.b1),
                                       Sum(p.b2, q.b2, r.b2, s.b2), Sum(p.b3, q.b3, r.b3, s.b3))
  {
    hide Add, Sum;
    AddAssociates(p.b0, q.b0, r.b0, s.b0);
    AddAssociates(p.b1, q.b1, r.b1, s.b1);
    AddAssociates(p.b2, q.b2, r.b2, s.b2);
    AddAssociates(p.b3, q.b3, r.b3, s.b3);
  }

  lemma TableColumn(a: bv8, b: bv8, c: bv8, d: bv8)
    ensures XorAll(T1(a), T2(b), T3(c), T4(d)) == MixColumn(SubWord(Word(a, b, c, d)))
  {
    hide XorAll, Sum, Sub, XTime, Mul3;
    XorAllIsSum(T1(a), T2(b), T3(c), T4(d));
  }

  lemma InvTableColumn(a: bv8, b: bv8, c: bv8, d: bv8)
    ensures XorAll(U1(a), U2(b), U3(c), U4(d)) == InvMixColumn(Word(a, b, c, d))
  {
    hide XorAll, Sum, Mul9, MulB, MulD, MulE;
    XorAllIsSum(U1(a), U2(b), U3(c), U4(d));
  }

  /** The fused tables compute the textbook rounds. */
  lemma TablesAreRounds(t: Block)
    ensures TableRound(t) == MixColumns(ShiftRows(SubBytes(t)))
    ensures TableFinalRound(t) == ShiftRows(SubBytes(t))
  {
    hide XorAll, MixColumn, Sub, XTime, Mul3;
    TableColumn(t.c0.b0, t.c1.b1, t.c2.b2, t.c3.b3);
    TableColumn(t.c1.b0, t.c2.b1, t.c3.b2, t.c0.b3);
    TableColumn(t.c2.b0, t.c3.b1, t.c0.b2, t.c1.b3);
    TableColumn(t.c3.b0, t.c0.b1, t.c1.b2, t.c2.b3);
  }

  lemma InvTablesAreRounds(t: Block)
    ensures InvTableRound(t) == InvMixColumns(InvShiftRows(InvSubBytes(t)))
    ensures InvTableFinalRound(t) == InvShiftRows(InvSubBytes(t))
  {
    hide XorAll, InvMixColumn, InvSub, U1, U2, U3, U4;
    InvTableColumn(InvSub(t.c0.b0), InvSub(t.c3.b1), InvSub(t.c2.b2), InvSub(t.c1.b3));
    InvTableColumn(InvSub(t.c1.b0), InvSub(t.c0.b1), InvSub(t.c3.b2), InvSub(t.c2.b3));
    InvTableColumn(InvSub(t.c2.b0), InvSub(t.c1.b1), InvSub(t.c0.b2), InvSub(t.c3.b3));
    InvTableColumn(InvSub(t.c3.b0), InvSub(t.c2.b1), InvSub(t.c1.b2), InvSub(t.c0.b3));
  }
}
