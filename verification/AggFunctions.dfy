/** The typed aggregation functions of aggregator/agg_functions.h, and what folding them over a group yields. */
module AggFunctions {
  import opened Arithmetic

  datatype Function = Sum | Avg | Min | Max | First | FirstNonEmpty | Last | BitOr | BitAnd

  datatype Width = W8 | W16 | W32 | W64

  // RealType is float and double, StringType also bytes, OtherType what no function is offered for, as MAC addresses.
  datatype FieldType =
    | IntType(width: Width, signed: bool) | CharType | TimeType
    | RealType | IpType | StringType | ArrayType | OtherType

  type Byte = x: int | 0 <= x < 0x100

  // An address is the number that its sixteen bytes make, the first one the most significant.
  datatype Value = Int(n: int) | Real(x: real) | Ip(address: nat) | Data(bytes: seq<Byte>)

  function WidthOf(t: FieldType): Width {
    match t case IntType(w, _) => w case CharType => W8 case _ => W64
  }

  predicate IsSigned(t: FieldType) {
    match t case IntType(_, s) => s case CharType => true case _ => false
  }

  predicate IsIntegral(t: FieldType) {
    t.IntType? || t.CharType? || t.TimeType?
  }

  predicate HasType(t: FieldType, v: Value) {
    if IsIntegral(t) then v.Int? && InRange(t, v.n)
    else if t.RealType? then v.Real?
    else if t.IpType? then v.Ip? && v.address < 0x1_0000_0000_0000_0000_0000_0000_0000_0000
    else v.Data?
  }

  function Bits(w: Width): nat {
    match w case W8 => 8 case W16 => 16 case W32 => 32 case W64 => 64
  }

  function Modulus(w: Width): int {
    match w
    case W8 => 0x100 case W16 => 0x1_0000 case W32 => 0x1_0000_0000 case W64 => 0x1_0000_0000_0000_0000
  }

  function Lowest(t: FieldType): int {
    if IsSigned(t) then -(Modulus(WidthOf(t)) / 2) else 0
  }

  predicate InRange(t: FieldType, v: int) {
    Lowest(t) <= v < Lowest(t) + Modulus(WidthOf(t))
  }

  /** The ranges of the types. */
  lemma RangesAre(t: FieldType, v: int)
    ensures t == IntType(W8, true) || t == CharType ==> (InRange(t, v) <==> -0x80 <= v < 0x80)
    ensures t == IntType(W16, true) ==> (InRange(t, v) <==> -0x8000 <= v < 0x8000)
    ensures t == IntType(W32, true) ==> (InRange(t, v) <==> -0x8000_0000 <= v < 0x8000_0000)
    ensures t == IntType(W64, true) ==> (InRange(t, v) <==> -0x8000_0000_0000_0000 <= v < 0x8000_0000_0000_0000)
    ensures t == IntType(W8, false) ==> (InRange(t, v) <==> 0 <= v < 0x100)
    ensures t == IntType(W16, false) ==> (InRange(t, v) <==> 0 <= v < 0x1_0000)
    ensures t == IntType(W32, false) ==> (InRange(t, v) <==> 0 <= v < 0x1_0000_0000)
    ensures t == IntType(W64, false) || t == TimeType ==> (InRange(t, v) <==> 0 <= v < 0x1_0000_0000_0000_0000)
  {}

  // conversion to the type: the one value in its range that differs by a multiple of the modulus
  function Wrap(t: FieldType, v: int): (r: int)
    ensures InRange(t, r)
  {
    var m := Modulus(WidthOf(t));
    var q := (v - Lowest(t)) / m;
    Remains(v - Lowest(t), m);
    v - q * m
  }

  lemma Remains(x: int, m: int)
    requires m > 0
    ensures 0 <= x - x / m * m < m
  {}

  // get_function_ptr: where a function is not offered for a type, the first value is kept
  function Selected(f: Function, t: FieldType): Function {
    match f
    case Sum => if t.IntType? || t.RealType? then f else First
    case Avg => if t.IntType? || t.RealType? then f else First
    case Min => if IsIntegral(t) || t.RealType? || t.IpType? then f else First
    case Max => if IsIntegral(t) || t.RealType? || t.IpType? then f else First
    case First => f
    case FirstNonEmpty => if t.OtherType? then First else f
    case Last => if t.OtherType? || t.ArrayType? then First else f
    case BitOr => if t.IntType? || t.CharType? then f else First
    case BitAnd => if t.IntType? || t.CharType? then f else First
  }

  // ---- bits ----

  predicate Bit(n: nat, k: nat) {
    if k == 0 then n % 2 == 1 else Bit(n / 2, k - 1)
  }

  function Or(bits: nat, a: nat, b: nat): nat {
    if bits == 0 then 0
    else 2 * Or(bits - 1, a / 2, b / 2) + if a % 2 == 1 || b % 2 == 1 then 1 else 0
  }

  function And(bits: nat, a: nat, b: nat): nat {
    if bits == 0 then 0
    else 2 * And(bits - 1, a / 2, b / 2) + if a % 2 == 1 && b % 2 == 1 then 1 else 0
  }

  function Pattern(t: FieldType, v: int): nat {
    v % Modulus(WidthOf(t))
  }

  // ---- one function on one value ----

  // the order of the type, for addresses that of ip_cmp
  predicate Less(a: Value, b: Value) {
    match (a, b)
    case (Int(m), Int(n)) => m < n
    case (Real(x), Real(y)) => x < y
    case (Ip(m), Ip(n)) => m < n
    case _ => false
  }

  // zero, a null address of either family, or of no length
  predicate IsEmpty(v: Value) {
    match v
    case Int(n) => n == 0
    case Real(x) => x == 0.0
    case Ip(n) => n == 0 || n == 0xffff_ffff
    case Data(bytes) => bytes == []
  }

  function AddTo(t: FieldType, dst: Value, src: Value): Value
    requires t.IntType? || t.RealType?
    requires HasType(t, dst) && HasType(t, src)
  {
    if t.RealType? then Real(dst.x + src.x) else Int(Wrap(t, dst.n + src.n))
  }

  // A null address is replaced by one that is not, any other empty value by whatever there is.
  function FirstNonEmptyOf(dst: Value, src: Value): Value {
    if dst.Ip? then (if IsEmpty(dst) && !IsEmpty(src) then src else dst)
    else if IsEmpty(dst) then src else dst
  }

  function Apply(f: Function, t: FieldType, dst: Value, src: Value): (r: Value)
    requires HasType(t, dst) && HasType(t, src)
    ensures HasType(t, r)
  {
    match Selected(f, t)
    case Sum => AddTo(t, dst, src)
    case Avg => AddTo(t, dst, src)
    case Min => if Less(src, dst) then src else dst
    case Max => if Less(dst, src) then src else dst
    case First => dst
    case FirstNonEmpty => FirstNonEmptyOf(dst, src)
    case Last => src
    case BitOr => Int(Wrap(t, Or(Bits(WidthOf(t)), Pattern(t, dst.n), Pattern(t, src.n))))
    case BitAnd => Int(Wrap(t, And(Bits(WidthOf(t)), Pattern(t, dst.n), Pattern(t, src.n))))
  }

  // the value of a field after these records
  function Fold(f: Function, t: FieldType, vs: seq<Value>): (r: Value)
    requires vs != [] && forall v :: v in vs ==> HasType(t, v)
    ensures HasType(t, r)
  {
    if |vs| == 1 then vs[0] else Apply(f, t, Fold(f, t, vs[..|vs| - 1]), vs[|vs| - 1])
  }

  function IntOf(v: Value): int {
    if v.Int? then v.n else 0
  }

  function RealOf(v: Value): real {
    if v.Real? then v.x else 0.0
  }

  function Total(vs: seq<Value>): int {
    if vs == [] then 0 else Total(vs[..|vs| - 1]) + IntOf(vs[|vs| - 1])
  }

  function RealTotal(vs: seq<Value>): real {
    if vs == [] then 0.0 else RealTotal(vs[..|vs| - 1]) + RealOf(vs[|vs| - 1])
  }

  // ---- what the folds mean ----

  lemma WrapUnique(t: FieldType, v: int, r: int, k: int)
    requires InRange(t, r) && r == v + k * Modulus(WidthOf(t))
    ensures r == Wrap(t, v)
  {
    var m := Modulus(WidthOf(t));
    var q := (v - Lowest(t)) / m;
    assert r - Wrap(t, v) == k * m + q * m == (k + q) * m;
    hide Modulus;
    SmallMultiple(k + q, m);
  }

  lemma WrapAdds(t: FieldType, a: int, b: int)
    ensures Wrap(t, Wrap(t, a) + b) == Wrap(t, a + b)
  {
    hide Lowest;
    var m := Modulus(WidthOf(t));
    var q := (a - Lowest(t)) / m;
    var p := (Wrap(t, a) + b - Lowest(t)) / m;
    hide Modulus;
    var r := Wrap(t, Wrap(t, a) + b);
    assert r == a - q * m + b - p * m;
    assert (-q - p) * m == -(q * m) - p * m;
    WrapUnique(t, a + b, r, -q - p);
  }

  lemma WrapInRange(t: FieldType, v: int)
    requires InRange(t, v)
    ensures Wrap(t, v) == v
  {
    WrapUnique(t, v, v, 0);
  }

  predicate Values(t: FieldType, vs: seq<Value>) {
    vs != [] && forall v :: v in vs ==> HasType(t, v)
  }

  lemma {:induction false} SelectedSum(f: Function, t: FieldType, vs: seq<Value>)
    requires Values(t, vs) && Selected(f, t) in {Sum, Avg}
    ensures Fold(f, t, vs) == if t.RealType? then Real(RealTotal(vs)) else Int(Wrap(t, Total(vs)))
  {
    hide Wrap, InRange;
    var n := |vs| - 1;
    assert vs[n] in vs && HasType(t, vs[n]);
    if n == 0 {
      assert Total(vs) == Total(vs[..0]) + IntOf(vs[0]) == IntOf(vs[0]);
      assert RealTotal(vs) == RealTotal(vs[..0]) + RealOf(vs[0]) == RealOf(vs[0]);
      if t.IntType? {
        WrapInRange(t, IntOf(vs[0]));
      }
    } else {
      SelectedSum(f, t, vs[..n]);
      if t.IntType? {
        WrapAdds(t, Total(vs[..n]), IntOf(vs[n]));
      }
    }
  }

  lemma {:induction false} SelectedExtreme(f: Function, t: FieldType, vs: seq<Value>)
    requires Values(t, vs)
    ensures Selected(f, t) == Min ==> Fold(f, t, vs) in vs && forall v :: v in vs ==> !Less(v, Fold(f, t, vs))
    ensures Selected(f, t) == Max ==> Fold(f, t, vs) in vs && forall v :: v in vs ==> !Less(Fold(f, t, vs), v)
  {
    hide InRange, Wrap;
    var n := |vs| - 1;
    if n > 0 {
      SelectedExtreme(f, t, vs[..n]);
      assert vs == vs[..n] + [vs[n]];
      LessTransfers(t, Fold(f, t, vs[..n]), vs[n], vs[..n]);
    }
  }

  // the order within a type is a linear one
  lemma LessTransfers(t: FieldType, a: Value, b: Value, vs: seq<Value>)
    requires HasType(t, a) && HasType(t, b) && forall v :: v in vs ==> HasType(t, v)
    ensures Less(b, a) && (forall v :: v in vs ==> !Less(v, a)) ==> forall v :: v in vs ==> !Less(v, b)
    ensures Less(a, b) && (forall v :: v in vs ==> !Less(a, v)) ==> forall v :: v in vs ==> !Less(b, v)
    ensures !Less(a, a)
  {
    hide InRange;
  }

  // the first value that is not empty; if there is none, the first one
  function FirstFull(vs: seq<Value>): Value
    requires vs != []
  {
    if !IsEmpty(vs[0]) || |vs| == 1 then vs[0]
    else if IsEmpty(FirstFull(vs[1..])) then vs[0] else FirstFull(vs[1..])
  }

  lemma {:induction false} FirstFullIs(vs: seq<Value>)
    requires vs != []
    ensures FirstFull(vs) in vs
    ensures IsEmpty(FirstFull(vs)) ==> FirstFull(vs) == vs[0] && forall v :: v in vs ==> IsEmpty(v)
    ensures !IsEmpty(FirstFull(vs)) ==>
      exists i :: 0 <= i < |vs| && vs[i] == FirstFull(vs) && forall j :: 0 <= j < i ==> IsEmpty(vs[j])
  {
    hide IsEmpty;
    assert vs == [vs[0]] + vs[1..];
    if IsEmpty(vs[0]) && |vs| > 1 {
      FirstFullIs(vs[1..]);
      if !IsEmpty(FirstFull(vs[1..])) {
        var i :| 0 <= i < |vs[1..]| && vs[1..][i] == FirstFull(vs[1..])
                 && forall j :: 0 <= j < i ==> IsEmpty(vs[1..][j]);
        assert forall j :: 0 < j < i + 1 ==> vs[j] == vs[1..][j - 1];
        assert vs[i + 1] == FirstFull(vs);
      }
    }
  }

  lemma {:induction false} FirstFullAppend(vs: seq<Value>, v: Value)
    requires vs != []
    ensures FirstFull(vs + [v]) == if IsEmpty(FirstFull(vs)) && !IsEmpty(v) then v else FirstFull(vs)
  {
    hide IsEmpty;
    assert (vs + [v])[0] == vs[0] && (vs + [v])[1..] == vs[1..] + [v];
    if |vs| > 1 {
      FirstFullAppend(vs[1..], v);
    }
  }

  // where a type has one empty value, it does not matter that it is replaced by itself
  lemma OneEmptyValue(t: FieldType, dst: Value, src: Value)
    requires HasType(t, dst) && HasType(t, src)
    ensures FirstNonEmptyOf(dst, src) == if IsEmpty(dst) && !IsEmpty(src) then src else dst
  {
    hide InRange;
  }

  lemma {:induction false} SelectedPick(f: Function, t: FieldType, vs: seq<Value>)
    requires Values(t, vs)
    ensures Selected(f, t) == First ==> Fold(f, t, vs) == vs[0]
    ensures Selected(f, t) == Last ==> Fold(f, t, vs) == vs[|vs| - 1]
    ensures Selected(f, t) == FirstNonEmpty ==> Fold(f, t, vs) == FirstFull(vs)
  {
    hide HasType, IsEmpty, Apply, Selected;
    var n := |vs| - 1;
    if n > 0 {
      SelectedPick(f, t, vs[..n]);
      FirstFullAppend(vs[..n], vs[n]);
      ApplyPicks(f, t, Fold(f, t, vs[..n]), vs[n]);
      assert vs == vs[..n] + [vs[n]];
    }
  }

  lemma ApplyPicks(f: Function, t: FieldType, dst: Value, src: Value)
    requires HasType(t, dst) && HasType(t, src)
    ensures Selected(f, t) == First ==> Apply(f, t, dst, src) == dst
    ensures Selected(f, t) == Last ==> Apply(f, t, dst, src) == src
    ensures Selected(f, t) == FirstNonEmpty ==>
      Apply(f, t, dst, src) == if IsEmpty(dst) && !IsEmpty(src) then src else dst
  {
    hide InRange, Wrap, IsEmpty, FirstNonEmptyOf;
    OneEmptyValue(t, dst, src);
  }

  lemma {:induction false} BitOfOr(bits: nat, a: nat, b: nat, k: nat)
    ensures Bit(Or(bits, a, b), k) <==> k < bits && (Bit(a, k) || Bit(b, k))
    ensures Bit(And(bits, a, b), k) <==> k < bits && Bit(a, k) && Bit(b, k)
  {
    if bits == 0 {
      NoBits(k);
    } else {
      OrHalves(bits, a, b);
      hide Or, And;
      if k > 0 {
        BitOfOr(bits - 1, a / 2, b / 2, k - 1);
      }
    }
  }

  lemma OrHalves(bits: nat, a: nat, b: nat)
    requires bits > 0
    ensures Or(bits, a, b) / 2 == Or(bits - 1, a / 2, b / 2) && And(bits, a, b) / 2 == And(bits - 1, a / 2, b / 2)
    ensures Or(bits, a, b) % 2 == 1 <==> a % 2 == 1 || b % 2 == 1
    ensures And(bits, a, b) % 2 == 1 <==> a % 2 == 1 && b % 2 == 1
  {}

  lemma {:induction false} NoBits(k: nat)
    ensures !Bit(0, k)
  {
    if k > 0 {
      NoBits(k - 1);
    }
  }

  function Pow2(n: nat): nat {
    if n == 0 then 1 else 2 * Pow2(n - 1)
  }

  lemma {:induction false} BitsFit(bits: nat, a: nat, b: nat)
    ensures Or(bits, a, b) < Pow2(bits) && And(bits, a, b) < Pow2(bits)
  {
    if bits > 0 {
      BitsFit(bits - 1, a / 2, b / 2);
    }
  }

  lemma {:induction false} Pow2Adds(a: nat, b: nat)
    ensures Pow2(a + b) == Pow2(a) * Pow2(b)
  {
    if a > 0 {
      Pow2Adds(a - 1, b);
      Doubled(Pow2(a - 1), Pow2(b));
    }
  }

  lemma Doubled(x: nat, y: nat)
    ensures 2 * x * y == 2 * (x * y)
  {}

  lemma Pow2Four()
    ensures Pow2(4) == 16
  {}

  lemma ModulusIs(w: Width)
    ensures Modulus(w) == Pow2(Bits(w))
  {
    hide Pow2;
    Pow2Four();
    Pow2Adds(4, 4);
    Pow2Adds(8, 8);
    Pow2Adds(16, 16);
    Pow2Adds(32, 32);
  }

  // converting a pattern to the type and back gives the pattern
  lemma PatternOfWrap(t: FieldType, n: nat)
    requires n < Modulus(WidthOf(t))
    ensures Pattern(t, Wrap(t, n)) == n
  {
    var m := Modulus(WidthOf(t));
    var q := (n - Lowest(t)) / m;
    assert (-q) * m == -(q * m);
    hide Modulus;
    RemainderIs(Wrap(t, n), m, -q, n);
  }

  lemma {:induction false} SelectedBits(f: Function, t: FieldType, vs: seq<Value>, k: nat)
    requires Values(t, vs) && k < Bits(WidthOf(t)) && (t.IntType? || t.CharType?)
    ensures f == BitOr ==>
      (Bit(Pattern(t, IntOf(Fold(f, t, vs))), k) <==> exists v :: v in vs && Bit(Pattern(t, IntOf(v)), k))
    ensures f == BitAnd ==>
      (Bit(Pattern(t, IntOf(Fold(f, t, vs))), k) <==> forall v :: v in vs ==> Bit(Pattern(t, IntOf(v)), k))
  {
    hide HasType, Pattern, Bit, Apply;
    var n := |vs| - 1;
    LastOrBefore(vs);
    if n > 0 {
      SelectedBits(f, t, vs[..n], k);
      ApplyBits(f, t, Fold(f, t, vs[..n]), vs[n], k);
    }
  }

  lemma LastOrBefore(vs: seq<Value>)
    requires vs != []
    ensures forall v :: v in vs <==> v in vs[..|vs| - 1] || v == vs[|vs| - 1]
  {
    assert vs == vs[..|vs| - 1] + [vs[|vs| - 1]];
  }

  lemma ApplyBits(f: Function, t: FieldType, dst: Value, src: Value, k: nat)
    requires HasType(t, dst) && HasType(t, src) && k < Bits(WidthOf(t)) && (t.IntType? || t.CharType?)
    ensures var a, b, r := Pattern(t, IntOf(dst)), Pattern(t, IntOf(src)), Pattern(t, IntOf(Apply(f, t, dst, src)));
            && (f == BitOr ==> (Bit(r, k) <==> Bit(a, k) || Bit(b, k)))
            && (f == BitAnd ==> (Bit(r, k) <==> Bit(a, k) && Bit(b, k)))
  {
    hide InRange, Wrap, Pattern, Bit, Or, And;
    BitsOfOne(t, Pattern(t, IntOf(dst)), Pattern(t, IntOf(src)), k);
  }

  lemma BitsOfOne(t: FieldType, a: nat, b: nat, k: nat)
    requires k < Bits(WidthOf(t))
    ensures var n := Bits(WidthOf(t));
            && (Bit(Pattern(t, Wrap(t, Or(n, a, b))), k) <==> Bit(a, k) || Bit(b, k))
            && (Bit(Pattern(t, Wrap(t, And(n, a, b))), k) <==> Bit(a, k) && Bit(b, k))
  {
    hide Wrap, Pattern, Bit, Or, And;
    var w := WidthOf(t);
    BitOfOr(Bits(w), a, b, k);
    BitsFit(Bits(w), a, b);
    ModulusIs(w);
    PatternOfWrap(t, Or(Bits(w), a, b));
    PatternOfWrap(t, And(Bits(w), a, b));
  }

  // ---- what each function yields for each type ----

  /** A sum, also the one that is divided later: of integers, in the range of the type and true but for its modulus. */
  lemma FoldSum(f: Function, t: FieldType, vs: seq<Value>)
    requires Values(t, vs) && f in {Sum, Avg}
    ensures match t
            case IntType(w, _) =>
              Fold(f, t, vs) == Int(Wrap(t, Total(vs))) && (Fold(f, t, vs).n - Total(vs)) % Modulus(w) == 0
            case RealType => Fold(f, t, vs) == Real(RealTotal(vs))
            case _ => Fold(f, t, vs) == vs[0]
  {
    hide Fold, Wrap;
    if t.IntType? || t.RealType? {
      SelectedSum(f, t, vs);
    } else {
      SelectedPick(f, t, vs);
    }
    if t.IntType? {
      SameResidue(t, Total(vs), Wrap(t, Total(vs)));
      Opposite(Total(vs) - Wrap(t, Total(vs)), Modulus(t.width));
    }
  }

  lemma Opposite(x: int, m: int)
    requires m > 0 && x % m == 0
    ensures (-x) % m == 0
  {
    MultipleAt(x, m);
    Negated(x / m, m);
    MultipleMod(-(x / m), m);
  }

  // a is not above b, in the order of the type
  predicate NotAbove(t: FieldType, a: Value, b: Value)
    requires HasType(t, a) && HasType(t, b)
  {
    match t
    case IntType(_, _) => a.n <= b.n
    case CharType => a.n <= b.n
    case TimeType => a.n <= b.n
    case RealType => a.x <= b.x
    case IpType => a.address <= b.address
    case _ => true
  }

  /** A minimum of numbers or addresses is one of the values and above none; for other types it is the first value. */
  lemma FoldMin(t: FieldType, vs: seq<Value>)
    requires Values(t, vs)
    ensures if t.StringType? || t.ArrayType? || t.OtherType? then Fold(Min, t, vs) == vs[0]
            else Fold(Min, t, vs) in vs && forall v :: v in vs ==> NotAbove(t, Fold(Min, t, vs), v)
  {
    hide Fold, InRange;
    SelectedExtreme(Min, t, vs);
    SelectedPick(Min, t, vs);
  }

  /** A maximum of numbers or addresses is one of the values and below none; for other types it is the first value. */
  lemma FoldMax(t: FieldType, vs: seq<Value>)
    requires Values(t, vs)
    ensures if t.StringType? || t.ArrayType? || t.OtherType? then Fold(Max, t, vs) == vs[0]
            else Fold(Max, t, vs) in vs && forall v :: v in vs ==> NotAbove(t, v, Fold(Max, t, vs))
  {
    hide Fold, InRange;
    SelectedExtreme(Max, t, vs);
    SelectedPick(Max, t, vs);
  }

  /** The first value; the last one of types that have it, and the first one of others. */
  lemma FoldEnds(t: FieldType, vs: seq<Value>)
    requires Values(t, vs)
    ensures Fold(First, t, vs) == vs[0]
    ensures Fold(Last, t, vs) == if t.ArrayType? || t.OtherType? then vs[0] else vs[|vs| - 1]
  {
    hide Fold, InRange;
    SelectedPick(First, t, vs);
    SelectedPick(Last, t, vs);
  }

  // zero, an address of zeros in either form, or of no length
  predicate Blank(t: FieldType, v: Value)
    requires HasType(t, v)
  {
    match t
    case IntType(_, _) => v.n == 0
    case CharType => v.n == 0
    case TimeType => v.n == 0
    case RealType => v.x == 0.0
    case IpType => v.address == 0 || v.address == 0xffff_ffff
    case _ => v.bytes == []
  }

  /** The first value that is not blank, or the first one of all when there is no other, or none of this kind. */
  lemma FoldFirstNonEmpty(t: FieldType, vs: seq<Value>)
    requires Values(t, vs)
    ensures var r := Fold(FirstNonEmpty, t, vs);
            if t.OtherType? || forall v :: v in vs ==> Blank(t, v) then r == vs[0]
            else
              exists i :: 0 <= i < |vs| && r == vs[i] && !Blank(t, vs[i]) && forall j :: 0 <= j < i ==> Blank(t, vs[j])
  {
    hide Fold, InRange;
    SelectedPick(FirstNonEmpty, t, vs);
    FirstFullIs(vs);
    BlankIsEmpty(t, vs);
    hide IsEmpty, Blank, HasType, FirstFull;
  }

  lemma BlankIsEmpty(t: FieldType, vs: seq<Value>)
    requires Values(t, vs)
    ensures forall v :: v in vs ==> (Blank(t, v) <==> IsEmpty(v))
  {
    hide InRange;
  }

  /**
   * A bit of an OR is set iff it is set in some value, a bit of an AND iff it is set in all; for types other than
   * integers and characters it is the first value.
   */
  lemma FoldBits(f: Function, t: FieldType, vs: seq<Value>, k: nat)
    requires Values(t, vs) && k < Bits(WidthOf(t)) && f in {BitOr, BitAnd}
    ensures !t.IntType? && !t.CharType? ==> Fold(f, t, vs) == vs[0]
    ensures t.IntType? || t.CharType? ==>
      if f == BitOr then
        (Bit(Pattern(t, IntOf(Fold(f, t, vs))), k) <==> exists v :: v in vs && Bit(Pattern(t, IntOf(v)), k))
      else
        (Bit(Pattern(t, IntOf(Fold(f, t, vs))), k) <==> forall v :: v in vs ==> Bit(Pattern(t, IntOf(v)), k))
  {
    hide Fold, InRange, Bit, Pattern;
    if t.IntType? || t.CharType? {
      SelectedBits(f, t, vs, k);
    } else {
      SelectedPick(f, t, vs);
    }
  }

  // ---- the average ----

  // Division in C++: towards zero.
  function TruncatedQuotient(a: int, b: int): int
    requires b > 0
  {
    if a >= 0 then a / b else -((-a) / b)
  }

  /** The quotient is not further from zero than the true one, by less than 1, and has its sign. */
  lemma TowardsZero(a: int, b: int)
    requires b > 0
    ensures var q := TruncatedQuotient(a, b);
            if a >= 0 then 0 <= q * b <= a < q * b + b else q * b - b < a <= q * b <= 0
  {
    var n := if a >= 0 then a else -a;
    var p := n / b;
    assert n == p * b + n % b;
    QuotientBounds(n, b, p, n % b);
    NotNegative(p, b);
    Negated(p, b);
  }

  // The count is a uint32_t: with a signed type of at most 32 bits the sum is converted to unsigned for the division.
  function MakeAvg(t: FieldType, sum: int, count: nat): int
    requires 0 < count < 0x1_0000_0000
  {
    if WidthOf(t) == W64 then TruncatedQuotient(sum, count)
    else Wrap(t, (sum % 0x1_0000_0000) / count)
  }

  // when the conversion does no harm
  predicate AverageIsExact(t: FieldType, sum: int, count: nat)
    requires 0 < count < 0x1_0000_0000
  {
    || WidthOf(t) == W64 || sum >= 0
    || (0x1_0000_0000 / count - if (-sum) % count > 0x1_0000_0000 % count then 1 else 0) % Modulus(WidthOf(t)) == 0
  }

  // dividing 2^32 - m
  lemma QuotientOfComplement(m: nat, count: nat)
    requires 0 < count && 0 < m <= 0x8000_0000
    ensures (0x1_0000_0000 - m) / count
            == 0x1_0000_0000 / count - m / count - if m % count > 0x1_0000_0000 % count then 1 else 0
  {
    var q, r, a, d := 0x1_0000_0000 / count, 0x1_0000_0000 % count, m / count, m % count;
    var e := if d > r then 1 else 0;
    assert 0x1_0000_0000 == q * count + r && m == a * count + d;
    var rest := r - d + e * count;
    assert (q - a - e) * count == q * count - a * count - e * count;
    assert 0x1_0000_0000 - m == (q - a - e) * count + rest && 0 <= rest < count;
    RemainderIs(0x1_0000_0000 - m, count, q - a - e, rest);
  }

  lemma QuotientSmaller(x: nat, c: nat)
    requires c > 0
    ensures 0 <= x / c <= x
  {
    assert x == x / c * c + x % c;
    QuotientBounds(x, c, x / c, x % c);
  }

  lemma QuotientBounds(x: nat, c: nat, q: int, r: nat)
    requires r < c && x == q * c + r
    ensures 0 <= q <= x
  {
    if q >= 0 {
      assert q * c >= q * 1;
    }
  }

  // a value and another one in range are the same after conversion iff they differ by a multiple of the modulus
  lemma SameResidue(t: FieldType, x: int, y: int)
    requires InRange(t, y)
    ensures Wrap(t, x) == y <==> (x - y) % Modulus(WidthOf(t)) == 0
  {
    hide Lowest, Modulus;
    var m := Modulus(WidthOf(t));
    assert m > 0 by { ModulusPositive(WidthOf(t)); }
    var q := (x - Lowest(t)) / m;
    if Wrap(t, x) == y {
      RemainderIs(x - y, m, q, 0);
    }
    if (x - y) % m == 0 {
      var k := (x - y) / m;
      MultipleAt(x - y, m);
      Negated(k, m);
      WrapUnique(t, x, y, -k);
    }
  }

  lemma ModulusPositive(w: Width)
    ensures Modulus(w) > 0
  {}

  lemma Negated(k: int, m: int)
    ensures (-k) * m == -(k * m)
  {}

  /**
   * The average is the quotient rounded towards zero exactly when the type has 64 bits, the sum is not negative, or the
   * quotients of 2^32 happen to vanish in the width of the type.
   */
  lemma MakeAvgExactly(t: FieldType, sum: int, count: nat)
    requires InRange(t, sum) && 0 < count < 0x1_0000_0000
    ensures MakeAvg(t, sum, count) == TruncatedQuotient(sum, count) <==> AverageIsExact(t, sum, count)
  {
    if WidthOf(t) == W64 {
    } else if sum >= 0 {
      QuotientSmaller(sum, count);
      assert sum % 0x1_0000_0000 == sum;
      WrapInRange(t, sum / count);
    } else {
      var m := -sum;
      assert 0 < m <= 0x8000_0000 && sum % 0x1_0000_0000 == 0x1_0000_0000 - m;
      QuotientOfComplement(m, count);
      QuotientSmaller(m, count);
      SameResidue(t, (0x1_0000_0000 - m) / count, -(m / count));
    }
  }

  // the division of the sum in a field by the count
  function Averaged(t: FieldType, v: Value, count: nat): (r: Value)
    requires (t.IntType? || t.RealType?) && HasType(t, v) && 0 < count < 0x1_0000_0000
  {
    if t.RealType? then Real(v.x / count as real) else Int(MakeAvg(t, v.n, count))
  }

  /** The average of the 8-bit values -1, -1 and -1 is sent as 84. */
  lemma NegativeAverageFails(t: FieldType, vs: seq<Value>)
    requires t == IntType(W8, true) && vs == [Int(-1), Int(-1), Int(-1)]
    ensures Fold(Avg, t, vs) == Int(-3) && MakeAvg(t, -3, |vs|) == 84 != TruncatedQuotient(-3, |vs|)
  {
    hide Fold, Wrap;
    FoldSum(Avg, t, vs);
    assert vs[..2][..1] == vs[..1] && vs[..1][..0] == [];
    assert Total(vs[..1]) == Total(vs[..1][..0]) + IntOf(vs[..1][0]) == -1;
    assert Total(vs[..2]) == Total(vs[..2][..1]) + IntOf(vs[..2][1]) == -2;
    WrapInRange(t, -3);
    WrapUnique(t, 1431655764, 84, -5592405);
  }
}
