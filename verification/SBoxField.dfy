/** What the byte substitution is: an affine map of the inverse in the field, section 5.1.1 of FIPS 197. */
module SBoxField {
  import opened GaloisField
  import opened SBoxes

  // ---- the product in the field, section 4.2 ----

  function Part(a: bv8, b: bv8): bv8 {
    if b & 1 == 1 then a else 0
  }

  // the multiples of a by the powers of x, as the bits of b say
  function Times(a: bv8, b: bv8): bv8 {
    var a1 := XTime(a);
    var a2 := XTime(a1);
    var a3 := XTime(a2);
    var a4 := XTime(a3);
    var a5 := XTime(a4);
    var a6 := XTime(a5);
    var a7 := XTime(a6);
    Add(Sum(Part(a, b), Part(a1, b >> 1), Part(a2, b >> 2), Part(a3, b >> 3)),
        Sum(Part(a4, b >> 4), Part(a5, b >> 5), Part(a6, b >> 6), Part(a7, b >> 7)))
  }

  /** The multiples that the column maps use are products by 2, 3, 9, 11, 13 and 14. */
  lemma MultiplesAreProducts(a: bv8)
    ensures XTime(a) == Times(a, 0x02) && Mul3(a) == Times(a, 0x03) && Mul9(a) == Times(a, 0x09)
    ensures MulB(a) == Times(a, 0x0b) && MulD(a) == Times(a, 0x0d) && MulE(a) == Times(a, 0x0e)
  {
    hide Times, XTime, Mul3, Mul9, MulB, MulD, MulE;
    SmallMultiples(a);
    LargeMultiples(a);
    LargestMultiples(a);
  }

  lemma SmallMultiples(a: bv8)
    ensures XTime(a) == Times(a, 0x02) && Mul3(a) == Times(a, 0x03)
  {}

  lemma LargeMultiples(a: bv8)
    ensures Mul9(a) == Times(a, 0x09) && MulB(a) == Times(a, 0x0b)
  {}

  lemma LargestMultiples(a: bv8)
    ensures MulD(a) == Times(a, 0x0d) && MulE(a) == Times(a, 0x0e)
  {}

  lemma PartAdd(a: bv8, d: bv8, e: bv8)
    ensures Part(a, Add(d, e)) == Add(Part(a, d), Part(a, e))
  {}

  lemma ShiftAdd(d: bv8, e: bv8)
    ensures Add(d, e) >> 1 == Add(d >> 1, e >> 1) && Add(d, e) >> 2 == Add(d >> 2, e >> 2)
    ensures Add(d, e) >> 3 == Add(d >> 3, e >> 3) && Add(d, e) >> 4 == Add(d >> 4, e >> 4)
    ensures Add(d, e) >> 5 == Add(d >> 5, e >> 5) && Add(d, e) >> 6 == Add(d >> 6, e >> 6)
    ensures Add(d, e) >> 7 == Add(d >> 7, e >> 7)
  {}

  /** Multiplication distributes over addition. */
  lemma TimesAdd(a: bv8, d: bv8, e: bv8)
    ensures Times(a, Add(d, e)) == Add(Times(a, d), Times(a, e))
  {
    hide Add, XTime, Part;
    var a1 := XTime(a);
    var a2 := XTime(a1);
    var a3 := XTime(a2);
    var a4 := XTime(a3);
    var a5 := XTime(a4);
    var a6 := XTime(a5);
    var a7 := XTime(a6);
    ShiftAdd(d, e);
    PartAdd(a, d, e);
    PartAdd(a1, d >> 1, e >> 1);
    PartAdd(a2, d >> 2, e >> 2);
    PartAdd(a3, d >> 3, e >> 3);
    PartAdd(a4, d >> 4, e >> 4);
    PartAdd(a5, d >> 5, e >> 5);
    PartAdd(a6, d >> 6, e >> 6);
    PartAdd(a7, d >> 7, e >> 7);
    var p := Word(Part(a, d), Part(a1, d >> 1), Part(a2, d >> 2), Part(a3, d >> 3));
    var q := Word(Part(a, e), Part(a1, e >> 1), Part(a2, e >> 2), Part(a3, e >> 3));
    var r := Word(Part(a4, d >> 4), Part(a5, d >> 5), Part(a6, d >> 6), Part(a7, d >> 7));
    var s := Word(Part(a4, e >> 4), Part(a5, e >> 5), Part(a6, e >> 6), Part(a7, e >> 7));
    SumAdd(p, q);
    SumAdd(r, s);
    hide Sum;
    AddSwap(Sum(p.b0, p.b1, p.b2, p.b3), Sum(q.b0, q.b1, q.b2, q.b3),
            Sum(r.b0, r.b1, r.b2, r.b3), Sum(s.b0, s.b1, s.b2, s.b3));
  }

  // the products of two bytes that are not zero, for a range of the second one

  lemma NoZeroDivisor0(x: bv8, d: bv8)
    requires x != 0 && 0 < d < 0x20
    ensures Times(x, d) != 0
  {}

  lemma NoZeroDivisor1(x: bv8, d: bv8)
    requires x != 0 && 0x20 <= d < 0x40
    ensures Times(x, d) != 0
  {}

  lemma NoZeroDivisor2(x: bv8, d: bv8)
    requires x != 0 && 0x40 <= d < 0x60
    ensures Times(x, d) != 0
  {}

  lemma NoZeroDivisor3(x: bv8, d: bv8)
    requires x != 0 && 0x60 <= d < 0x70
    ensures Times(x, d) != 0
  {}

  lemma NoZeroDivisor4(x: bv8, d: bv8)
    requires x != 0 && 0x70 <= d < 0x80
    ensures Times(x, d) != 0
  {}

  lemma NoZeroDivisor5(x: bv8, d: bv8)
    requires x != 0 && 0x80 <= d < 0xa0
    ensures Times(x, d) != 0
  {}

  lemma NoZeroDivisor6(x: bv8, d: bv8)
    requires x != 0 && 0xa0 <= d < 0xb0
    ensures Times(x, d) != 0
  {}

  lemma NoZeroDivisor7(x: bv8, d: bv8)
    requires x != 0 && 0xb0 <= d < 0xc0
    ensures Times(x, d) != 0
  {}

  lemma NoZeroDivisor8(x: bv8, d: bv8)
    requires x != 0 && 0xc0 <= d < 0xd0
    ensures Times(x, d) != 0
  {}

  lemma NoZeroDivisor9(x: bv8, d: bv8)
    requires x != 0 && 0xd0 <= d < 0xe0
    ensures Times(x, d) != 0
  {}

  lemma NoZeroDivisor10(x: bv8, d: bv8)
    requires x != 0 && 0xe0 <= d < 0xf0
    ensures Times(x, d) != 0
  {}

  lemma NoZeroDivisor11(x: bv8, d: bv8)
    requires x != 0 && 0xf0 <= d
    ensures Times(x, d) != 0
  {}

  lemma NoZeroDivisors(x: bv8, d: bv8)
    requires x != 0 && d != 0
    ensures Times(x, d) != 0
  {
    hide Times;
    if d < 0x20 {
      NoZeroDivisor0(x, d);
    } else if d < 0x40 {
      NoZeroDivisor1(x, d);
    } else if d < 0x60 {
      NoZeroDivisor2(x, d);
    } else if d < 0x70 {
      NoZeroDivisor3(x, d);
    } else if d < 0x80 {
      NoZeroDivisor4(x, d);
    } else if d < 0xa0 {
      NoZeroDivisor5(x, d);
    } else if d < 0xb0 {
      NoZeroDivisor6(x, d);
    } else if d < 0xc0 {
      NoZeroDivisor7(x, d);
    } else if d < 0xd0 {
      NoZeroDivisor8(x, d);
    } else if d < 0xe0 {
      NoZeroDivisor9(x, d);
    } else if d < 0xf0 {
      NoZeroDivisor10(x, d);
    } else {
      NoZeroDivisor11(x, d);
    }
  }

  // ---- the inverse ----

  // y is the inverse of x; that of 0 is taken to be 0
  predicate IsInverse(x: bv8, y: bv8) {
    if x == 0 then y == 0 else Times(x, y) == 1
  }

  lemma SameSum(a: bv8, b: bv8)
    ensures Add(a, a) == 0
    ensures Add(a, b) == 0 ==> a == b
  {}

  lemma OneInverse(x: bv8, y: bv8, z: bv8)
    requires IsInverse(x, y) && IsInverse(x, z)
    ensures y == z
  {
    hide Times, Add;
    if x != 0 && y != z {
      SameSum(y, z);
      SameSum(1, 1);
      TimesAdd(x, y, z);
      NoZeroDivisors(x, Add(y, z));
    }
  }

  // ---- the affine map and its inverse ----

  function RotateLeft(b: bv8): bv8 {
    (b << 1) | (b >> 7)
  }

  // bit i of the result is b(i) + b(i + 4) + b(i + 5) + b(i + 6) + b(i + 7) + c(i), with c = 0x63 and indices modulo 8
  function Affine(b: bv8): bv8 {
    var b1 := RotateLeft(b);
    var b2 := RotateLeft(b1);
    var b3 := RotateLeft(b2);
    Add(Add(Sum(b, b1, b2, b3), RotateLeft(b3)), 0x63)
  }

  function InvAffine(b: bv8): bv8 {
    var b1 := RotateLeft(b);
    var b3 := RotateLeft(RotateLeft(b1));
    var b6 := RotateLeft(RotateLeft(RotateLeft(b3)));
    Add(Add(Add(b1, b3), b6), 0x05)
  }

  lemma AffineInverse(b: bv8)
    ensures Affine(InvAffine(b)) == b
  {}

  lemma TableInverse0(x: bv8)
    requires x < 0x40
    ensures IsInverse(x, InvAffine(Sub(x)))
  {}

  lemma TableInverse1(x: bv8)
    requires 0x40 <= x < 0x80
    ensures IsInverse(x, InvAffine(Sub(x)))
  {}

  lemma TableInverse2(x: bv8)
    requires 0x80 <= x < 0xc0
    ensures IsInverse(x, InvAffine(Sub(x)))
  {}

  lemma TableInverse3(x: bv8)
    requires 0xc0 <= x
    ensures IsInverse(x, InvAffine(Sub(x)))
  {}

  lemma TableInverse(x: bv8)
    ensures IsInverse(x, InvAffine(Sub(x)))
  {
    hide IsInverse, InvAffine, Sub;
    if x < 0x40 {
      TableInverse0(x);
    } else if x < 0x80 {
      TableInverse1(x);
    } else if x < 0xc0 {
      TableInverse2(x);
    } else {
      TableInverse3(x);
    }
  }

  /** Every byte has an inverse. */
  lemma HasInverse(x: bv8) returns (y: bv8)
    ensures IsInverse(x, y)
  {
    y := InvAffine(Sub(x));
    TableInverse(x);
  }

  /** The table S, for every byte: the affine map of the inverse. */
  lemma SubIsAffine(x: bv8, y: bv8)
    requires IsInverse(x, y)
    ensures Sub(x) == Affine(y)
  {
    hide IsInverse, Affine, InvAffine, Sub;
    TableInverse(x);
    OneInverse(x, y, InvAffine(Sub(x)));
    AffineInverse(Sub(x));
  }

  /** The table S5, for every byte: the one whose inverse the affine map takes there. */
  lemma InvSubIsInverse(x: bv8, y: bv8)
    requires IsInverse(x, y)
    ensures InvSub(Affine(y)) == x
  {
    hide IsInverse, Affine, Sub, InvSub;
    SubIsAffine(x, y);
    SubInverse(x);
  }
}
