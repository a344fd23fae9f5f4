/** Bytes as elements of GF(2^8), the field of section 4.2 of FIPS 197, and the column transformations over it. */
module GaloisField {
  datatype Word = Word(b0: bv8, b1: bv8, b2: bv8, b3: bv8)

  function Add(a: bv8, b: bv8): bv8 {
    a ^ b
  }

  // multiplication by x, section 4.2.1
  function XTime(b: bv8): bv8 {
    (b << 1) ^ ((b >> 7) * 0x1b)
  }

  function Mul3(b: bv8): bv8 {
    Add(XTime(b), b)
  }

  function Mul9(b: bv8): bv8 {
    Add(XTime(XTime(XTime(b))), b)
  }

  function MulB(b: bv8): bv8 {
    Add(Add(XTime(XTime(XTime(b))), XTime(b)), b)
  }

  function MulD(b: bv8): bv8 {
    Add(Add(XTime(XTime(XTime(b))), XTime(XTime(b))), b)
  }

  function MulE(b: bv8): bv8 {
    Add(Add(XTime(XTime(XTime(b))), XTime(XTime(b))), XTime(b))
  }

  function Sum(a: bv8, b: bv8, c: bv8, d: bv8): bv8 {
    Add(Add(a, b), Add(c, d))
  }

  function Xor(a: Word, b: Word): Word {
    Word(Add(a.b0, b.b0), Add(a.b1, b.b1), Add(a.b2, b.b2), Add(a.b3, b.b3))
  }

  // section 5.1.3
  function MixColumn(w: Word): Word {
    Word(Sum(XTime(w.b0), Mul3(w.b1), w.b2, w.b3),
         Sum(w.b0, XTime(w.b1), Mul3(w.b2), w.b3),
         Sum(w.b0, w.b1, XTime(w.b2), Mul3(w.b3)),
         Sum(Mul3(w.b0), w.b1, w.b2, XTime(w.b3)))
  }

  // section 5.3.3
  function InvMixColumn(w: Word): Word {
    Word(Sum(MulE(w.b0), MulB(w.b1), MulD(w.b2), Mul9(w.b3)),
         Sum(Mul9(w.b0), MulE(w.b1), MulB(w.b2), MulD(w.b3)),
         Sum(MulD(w.b0), Mul9(w.b1), MulE(w.b2), MulB(w.b3)),
         Sum(MulB(w.b0), MulD(w.b1), Mul9(w.b2), MulE(w.b3)))
  }

  // ---- laws of addition ----

  lemma AddCancels(a: bv8, b: bv8)
    ensures Add(Add(a, b), b) == a
  {}

  lemma AddSwap(a: bv8, b: bv8, c: bv8, d: bv8)
    ensures Add(Add(a, b), Add(c, d)) == Add(Add(a, c), Add(b, d))
  {
    assert (a ^ b) ^ (c ^ d) == (a ^ c) ^ (b ^ d);
  }

  lemma AddCommutes(a: bv8, b: bv8)
    ensures Add(a, b) == Add(b, a)
  {}

  lemma SumRotates(a: bv8, b: bv8, c: bv8, d: bv8)
    ensures Sum(a, b, c, d) == Sum(b, c, d, a)
  {
    hide Add;
    AddCommutes(Add(b, c), Add(d, a));
    AddCommutes(d, a);
    AddSwap(a, d, b, c);
    AddCommutes(d, c);
  }

  lemma SumAdd(a: Word, b: Word)
    ensures Sum(Add(a.b0, b.b0), Add(a.b1, b.b1), Add(a.b2, b.b2), Add(a.b3, b.b3))
            == Add(Sum(a.b0, a.b1, a.b2, a.b3), Sum(b.b0, b.b1, b.b2, b.b3))
  {
    hide Add;
    AddSwap(a.b0, b.b0, a.b1, b.b1);
    AddSwap(a.b2, b.b2, a.b3, b.b3);
    AddSwap(Add(a.b0, a.b1), Add(b.b0, b.b1), Add(a.b2, a.b3), Add(b.b2, b.b3));
  }

  lemma SumTransposes(a: Word, b: Word, c: Word, d: Word)
    ensures Sum(Sum(a.b0, a.b1, a.b2, a.b3), Sum(b.b0, b.b1, b.b2, b.b3),
                Sum(c.b0, c.b1, c.b2, c.b3), Sum(d.b0, d.b1, d.b2, d.b3))
            == Sum(Sum(a.b0, b.b0, c.b0, d.b0), Sum(a.b1, b.b1, c.b1, d.b1),
                   Sum(a.b2, b.b2, c.b2, d.b2), Sum(a.b3, b.b3, c.b3, d.b3))
  {
    hide Add;
    SumAdd(a, b);
    SumAdd(c, d);
    SumAdd(Xor(a, b), Xor(c, d));
  }

  // ---- multiplication by a constant is additive ----

  lemma XTimeAdd(a: bv8, b: bv8)
    ensures XTime(Add(a, b)) == Add(XTime(a), XTime(b))
  {}

  lemma MulAdd(a: bv8, b: bv8)
    ensures Mul3(Add(a, b)) == Add(Mul3(a), Mul3(b))
    ensures Mul9(Add(a, b)) == Add(Mul9(a), Mul9(b))
    ensures MulB(Add(a, b)) == Add(MulB(a), MulB(b))
    ensures MulD(Add(a, b)) == Add(MulD(a), MulD(b))
    ensures MulE(Add(a, b)) == Add(MulE(a), MulE(b))
  {
    hide XTime, Add;
    var a2, b2 := XTime(a), XTime(b);
    var a4, b4 := XTime(a2), XTime(b2);
    var a8, b8 := XTime(a4), XTime(b4);
    XTimeAdd(a, b);
    XTimeAdd(a2, b2);
    XTimeAdd(a4, b4);
    AddSwap(a2, b2, a, b);
    AddSwap(a8, b8, a, b);
    AddSwap(a8, b8, a2, b2);
    AddSwap(Add(a8, a2), Add(b8, b2), a, b);
    AddSwap(a8, b8, a4, b4);
    AddSwap(Add(a8, a4), Add(b8, b4), a, b);
    AddSwap(Add(a8, a4), Add(b8, b4), a2, b2);
  }

  lemma MulSum(a: bv8, b: bv8, c: bv8, d: bv8)
    ensures XTime(Sum(a, b, c, d)) == Sum(XTime(a), XTime(b), XTime(c), XTime(d))
    ensures Mul3(Sum(a, b, c, d)) == Sum(Mul3(a), Mul3(b), Mul3(c), Mul3(d))
    ensures Mul9(Sum(a, b, c, d)) == Sum(Mul9(a), Mul9(b), Mul9(c), Mul9(d))
    ensures MulB(Sum(a, b, c, d)) == Sum(MulB(a), MulB(b), MulB(c), MulB(d))
    ensures MulD(Sum(a, b, c, d)) == Sum(MulD(a), MulD(b), MulD(c), MulD(d))
    ensures MulE(Sum(a, b, c, d)) == Sum(MulE(a), MulE(b), MulE(c), MulE(d))
  {
    hide Add, XTime, Mul3, Mul9, MulB, MulD, MulE;
    XTimeAdd(Add(a, b), Add(c, d));
    XTimeAdd(a, b);
    XTimeAdd(c, d);
    MulAdd(Add(a, b), Add(c, d));
    MulAdd(a, b);
    MulAdd(c, d);
  }

  // ---- the two matrices are inverse ----

  // the first row of InvMixColumn against the columns of MixColumn
  lemma InvTimesMix(x: bv8)
    ensures Sum(MulE(XTime(x)), MulB(x), MulD(x), Mul9(Mul3(x))) == x
    ensures Sum(MulE(Mul3(x)), MulB(XTime(x)), MulD(x), Mul9(x)) == 0
  {}

  lemma InvTimesMixMore(x: bv8)
    ensures Sum(MulE(x), MulB(Mul3(x)), MulD(XTime(x)), Mul9(x)) == 0
    ensures Sum(MulE(x), MulB(x), MulD(Mul3(x)), Mul9(XTime(x))) == 0
  {}

  // the first row of MixColumn against the columns of InvMixColumn
  lemma MixTimesInv(x: bv8)
    ensures Sum(XTime(MulE(x)), Mul3(Mul9(x)), MulD(x), MulB(x)) == x
    ensures Sum(XTime(MulB(x)), Mul3(MulE(x)), Mul9(x), MulD(x)) == 0
  {}

  lemma MixTimesInvMore(x: bv8)
    ensures Sum(XTime(MulD(x)), Mul3(MulB(x)), MulE(x), Mul9(x)) == 0
    ensures Sum(XTime(Mul9(x)), Mul3(MulD(x)), MulB(x), MulE(x)) == 0
  {}

  // Rotating a column commutes with both matrices, so the first row speaks for all four.
  lemma InvMixRow(a: bv8, b: bv8, c: bv8, d: bv8)
    ensures InvMixColumn(MixColumn(Word(a, b, c, d))).b0 == a
  {
    hide XTime, Mul3, Mul9, MulB, MulD, MulE;
    MulSum(XTime(a), Mul3(b), c, d);
    MulSum(a, XTime(b), Mul3(c), d);
    MulSum(a, b, XTime(c), Mul3(d));
    MulSum(Mul3(a), b, c, XTime(d));
    SumTransposes(Word(MulE(XTime(a)), MulE(Mul3(b)), MulE(c), MulE(d)),
                  Word(MulB(a), MulB(XTime(b)), MulB(Mul3(c)), MulB(d)),
                  Word(MulD(a), MulD(b), MulD(XTime(c)), MulD(Mul3(d))),
                  Word(Mul9(Mul3(a)), Mul9(b), Mul9(c), Mul9(XTime(d))));
    InvTimesMix(a);
    InvTimesMix(b);
    InvTimesMixMore(c);
    InvTimesMixMore(d);
  }

  lemma MixInvRow(a: bv8, b: bv8, c: bv8, d: bv8)
    ensures MixColumn(InvMixColumn(Word(a, b, c, d))).b0 == a
  {
    hide XTime, Mul3, Mul9, MulB, MulD, MulE;
    MulSum(MulE(a), MulB(b), MulD(c), Mul9(d));
    MulSum(Mul9(a), MulE(b), MulB(c), MulD(d));
    SumTransposes(Word(XTime(MulE(a)), XTime(MulB(b)), XTime(MulD(c)), XTime(Mul9(d))),
                  Word(Mul3(Mul9(a)), Mul3(MulE(b)), Mul3(MulB(c)), Mul3(MulD(d))),
                  Word(MulD(a), Mul9(b), MulE(c), MulB(d)),
                  Word(MulB(a), MulD(b), Mul9(c), MulE(d)));
    MixTimesInv(a);
    MixTimesInv(b);
    MixTimesInvMore(c);
    MixTimesInvMore(d);
  }

  function Rotate(w: Word): Word {
    Word(w.b1, w.b2, w.b3, w.b0)
  }

  lemma MixRotates(w: Word)
    ensures MixColumn(Rotate(w)) == Rotate(MixColumn(w))
    ensures InvMixColumn(Rotate(w)) == Rotate(InvMixColumn(w))
  {
    hide Sum, XTime, Mul3, Mul9, MulB, MulD, MulE;
    SumRotates(XTime(w.b0), Mul3(w.b1), w.b2, w.b3);
    SumRotates(w.b0, XTime(w.b1), Mul3(w.b2), w.b3);
    SumRotates(w.b0, w.b1, XTime(w.b2), Mul3(w.b3));
    SumRotates(Mul3(w.b0), w.b1, w.b2, XTime(w.b3));
    SumRotates(MulE(w.b0), MulB(w.b1), MulD(w.b2), Mul9(w.b3));
    SumRotates(Mul9(w.b0), MulE(w.b1), MulB(w.b2), MulD(w.b3));
    SumRotates(MulD(w.b0), Mul9(w.b1), MulE(w.b2), MulB(w.b3));
    SumRotates(MulB(w.b0), MulD(w.b1), Mul9(w.b2), MulE(w.b3));
  }

  /** InvMixColumn and MixColumn undo each other. */
  lemma MixInverse(w: Word)
    ensures InvMixColumn(MixColumn(w)) == w
    ensures MixColumn(InvMixColumn(w)) == w
  {
    hide MixColumn, InvMixColumn;
    var w1 := Rotate(w);
    var w2 := Rotate(w1);
    var w3 := Rotate(w2);
    MixRotates(w);
    MixRotates(w1);
    MixRotates(w2);
    MixRotates(MixColumn(w));
    MixRotates(MixColumn(w1));
    MixRotates(MixColumn(w2));
    MixRotates(InvMixColumn(w));
    MixRotates(InvMixColumn(w1));
    MixRotates(InvMixColumn(w2));
    InvMixRow(w.b0, w.b1, w.b2, w.b3);
    InvMixRow(w1.b0, w1.b1, w1.b2, w1.b3);
    InvMixRow(w2.b0, w2.b1, w2.b2, w2.b3);
    InvMixRow(w3.b0, w3.b1, w3.b2, w3.b3);
    MixInvRow(w.b0, w.b1, w.b2, w.b3);
    MixInvRow(w1.b0, w1.b1, w1.b2, w1.b3);
    MixInvRow(w2.b0, w2.b1, w2.b2, w2.b3);
    MixInvRow(w3.b0, w3.b1, w3.b2, w3.b3);
  }

  /** InvMixColumn distributes over the key addition; section 5.3.5 of FIPS 197 rests on this. */
  lemma InvMixAdd(v: Word, w: Word)
    ensures InvMixColumn(Xor(v, w)) == Xor(InvMixColumn(v), InvMixColumn(w))
  {
    hide Add, XTime, Mul9, MulB, MulD, MulE;
    MulAdd(v.b0, w.b0);
    MulAdd(v.b1, w.b1);
    MulAdd(v.b2, w.b2);
    MulAdd(v.b3, w.b3);
    SumAdd(Word(MulE(v.b0), MulB(v.b1), MulD(v.b2), Mul9(v.b3)), Word(MulE(w.b0), MulB(w.b1), MulD(w.b2), Mul9(w.b3)));
    SumAdd(Word(Mul9(v.b0), MulE(v.b1), MulB(v.b2), MulD(v.b3)), Word(Mul9(w.b0), MulE(w.b1), MulB(w.b2), MulD(w.b3)));
    SumAdd(Word(MulD(v.b0), Mul9(v.b1), MulE(v.b2), MulB(v.b3)), Word(MulD(w.b0), Mul9(w.b1), MulE(w.b2), MulB(w.b3)));
    SumAdd(Word(MulB(v.b0), MulD(v.b1), Mul9(v.b2), MulE(v.b3)), Word(MulB(w.b0), MulD(w.b1), Mul9(w.b2), MulE(w.b3)));
  }
}
