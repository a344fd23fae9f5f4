/** Deleting fields from a template specification: each delete blanks characters, one trim cleans up after them. */
module TemplateDelete {
  import opened Filters
  import opened Template

  // ---- template_spec_delete_field on strings ----

  predicate Occurs(s: string, p: nat, field: string) {
    p + |field| <= |s| && s[p..p + |field|] == field
  }

  // an occurrence that is not a part of a longer token
  predicate IsField(s: string, p: nat, field: string) {
    && Occurs(s, p, field)
    && (p == 0 || IsSeparator(s[p - 1]))
    && (p + |field| == |s| || IsSeparator(s[p + |field|]))
  }

  // the first such occurrence, or -1
  function FindField(s: string, from: nat, field: string): int
    decreases |s| - from
  {
    if from + |field| > |s| then -1
    else if IsField(s, from, field) then from
    else FindField(s, from + 1, field)
  }

  // the comma before the type, or the beginning
  function CommaBefore(s: string, p: nat): (q: nat)
    requires p < |s|
    ensures q <= p
  {
    if p == 0 || s[p] == ',' then p else CommaBefore(s, p - 1)
  }

  function Spaces(n: nat): string {
    seq(n, _ => ' ')
  }

  function Blanked(s: string, from: nat, to: nat): string
    requires from <= to <= |s|
  {
    s[..from] + Spaces(to - from) + s[to..]
  }

  // whether the field was found, and what is left
  function Deleted(s: string, field: string): (bool, string)
    requires field != ""
  {
    var p := FindField(s, 0, field);
    FoundIsField(s, 0, field);
    if p < 0 then (false, s) else (true, Blanked(s, CommaBefore(s, p), p + |field|))
  }

  lemma {:induction false} FoundIsField(s: string, from: nat, field: string)
    ensures var p := FindField(s, from, field);
            && (p >= 0 ==> p >= from && IsField(s, p, field) && forall q :: from <= q < p ==> !IsField(s, q, field))
            && (p < 0 ==> forall q :: q >= from ==> !IsField(s, q, field))
    decreases |s| - from
  {
    if from + |field| <= |s| && !IsField(s, from, field) {
      FoundIsField(s, from + 1, field);
    }
  }

  // ---- specifications in which some fields are blanked ----

  datatype Slot = Live(field: Field) | Dead(length: nat)

  // Each field but the first has its comma before it.
  function Piece(slot: Slot, first: bool): string {
    match slot
    case Live(f) => (if first then "" else ",") + f.type_ + " " + f.name
    case Dead(n) => Spaces(n)
  }

  function Show(slots: seq<Slot>): string {
    if slots == [] then "" else Show(Front(slots)) + Piece(Last(slots), |slots| == 1)
  }

  // what follows slot k
  function RestOf(slots: seq<Slot>, k: nat): string
    requires k < |slots|
  {
    if k == |slots| - 1 then "" else RestOf(Front(slots), k) + Piece(Last(slots), false)
  }

  predicate SlotOk(slot: Slot) {
    match slot
    case Live(f) => IsToken(f.type_) && IsToken(f.name)
    case Dead(n) => n > 0
  }

  ghost predicate SlotsOk(slots: seq<Slot>) {
    && (forall i :: 0 <= i < |slots| ==> SlotOk(slots[i]))
    && (forall i, j :: 0 <= i < j < |slots| && slots[i].Live? && slots[j].Live? ==>
          slots[i].field.name != slots[j].field.name)
  }

  function LiveFields(slots: seq<Slot>): seq<Field> {
    if slots == [] then []
    else if Last(slots).Live? then LiveFields(Front(slots)) + [Last(slots).field]
    else LiveFields(Front(slots))
  }

  // where the name in slot k begins
  function NamePos(slots: seq<Slot>, k: nat): nat
    requires k < |slots| && slots[k].Live?
  {
    |Show(slots[..k])| + (if k == 0 then 0 else 1) + |slots[k].field.type_| + 1
  }

  lemma {:induction false} ShowSplits(slots: seq<Slot>, k: nat)
    requires k < |slots|
    ensures Show(slots) == Show(slots[..k]) + Piece(slots[k], k == 0) + RestOf(slots, k)
  {
    hide Piece;
    if k == |slots| - 1 {
      assert slots[..k] == Front(slots);
    } else {
      ShowSplits(Front(slots), k);
      assert Front(slots)[..k] == slots[..k];
    }
  }

  lemma {:induction false} RestUnchanged(slots: seq<Slot>, k: nat, x: Slot)
    requires k < |slots|
    ensures RestOf(slots[k := x], k) == RestOf(slots, k) && slots[k := x][..k] == slots[..k]
  {
    hide Piece;
    if k < |slots| - 1 {
      RestUnchanged(Front(slots), k, x);
      assert Front(slots[k := x]) == Front(slots)[k := x];
    }
  }

  lemma PieceStarts(slot: Slot)
    requires SlotOk(slot)
    ensures Piece(slot, false) != "" && IsSeparator(Piece(slot, false)[0])
  {}

  lemma {:induction false} RestStarts(slots: seq<Slot>, k: nat)
    requires k < |slots| && forall i :: 0 <= i < |slots| ==> SlotOk(slots[i])
    ensures RestOf(slots, k) == "" || IsSeparator(RestOf(slots, k)[0])
  {
    hide Piece, SlotOk;
    if k < |slots| - 1 {
      RestStarts(Front(slots), k);
      PieceStarts(Last(slots));
    }
  }

  // ---- where a field can be found ----

  // in the text of one live slot, nothing but its type and its name is a token
  lemma TokenInPair(f: Field, p: nat, t: string)
    requires IsToken(t) && IsToken(f.type_) && IsToken(f.name) && IsField(f.type_ + " " + f.name, p, t)
    ensures (p == 0 && t == f.type_) || (p == |f.type_| + 1 && t == f.name)
  {
    var s := f.type_ + " " + f.name;
    var n := |f.type_|;
    assert s[..n] == f.type_ && s[n + 1..] == f.name;
    forall i | 0 <= i < |s|
      ensures IsSeparator(s[i]) <==> i == n
    {
      if i < n {
        TokenChar(f.type_, i);
      } else if i > n {
        TokenChar(f.name, i - n - 1);
      }
    }
    NoSeparatorWithin(s, p, t);
    assert s[n] == ' ';
    assert p > 0 && IsSeparator(s[p - 1]) ==> p - 1 == n;
    assert p + |t| < |s| && IsSeparator(s[p + |t|]) ==> p + |t| == n;
    assert t == s[p..p + |t|];
    assert t != "";
    if p < n {
      assert p + |t| <= n;
    }
  }

  lemma TokenChar(t: string, i: nat)
    requires IsToken(t) && i < |t|
    ensures !IsSeparator(t[i])
  {
    assert t[i] in t;
  }

  lemma NoSeparatorWithin(s: string, p: nat, t: string)
    requires IsToken(t) && Occurs(s, p, t)
    ensures forall i :: p <= i < p + |t| ==> !IsSeparator(s[i])
  {
    forall i | p <= i < p + |t|
      ensures !IsSeparator(s[i])
    {
      TokenChar(t, i - p);
      assert s[i] == s[p..p + |t|][i - p];
    }
  }

  // A token that is found in a concatenation is found in one of its parts, when the second begins with a separator.
  lemma FieldInParts(a: string, b: string, p: nat, t: string)
    requires IsToken(t) && IsField(a + b, p, t) && (b == "" || IsSeparator(b[0]))
    ensures IsField(a, p, t) || (p > |a| && IsField(b, p - |a|, t))
  {
    NoSeparatorWithin(a + b, p, t);
    assert b != "" ==> (a + b)[|a|] == b[0];
    if p < |a| {
      assert p + |t| <= |a|;
      assert a[p..p + |t|] == (a + b)[p..p + |t|];
    } else {
      assert b != "" && p > |a|;
      assert b[p - |a|..p - |a| + |t|] == (a + b)[p..p + |t|];
    }
  }

  lemma NoneInSpaces(n: nat, p: nat, t: string)
    requires IsToken(t)
    ensures !IsField(Spaces(n), p, t)
  {
    var s := Spaces(n);
    assert forall i :: 0 <= i < |s| ==> IsSeparator(s[i]);
    if Occurs(s, p, t) {
      var c := s[p];
      NoSeparatorWithin(s, p, t);
    }
  }

  lemma Assoc(a: string, b: string, c: string, d: string, e: string)
    ensures a + (b + c + d + e) == a + b + c + d + e
    ensures a == b == "" ==> a + (b + c + d + e) == c + d + e
    ensures b + (c + d + e) == b + c + d + e
  {}

  lemma PieceIs(slot: Slot, first: bool)
    ensures match slot
            case Dead(n) => Piece(slot, first) == Spaces(n)
            case Live(f) =>
              Piece(slot, first) == if first then f.type_ + " " + f.name else "," + (f.type_ + " " + f.name)
  {
    match slot
    case Dead(n) =>
    case Live(f) => Assoc("", ",", f.type_, " ", f.name);
  }

  lemma FieldInPiece(slot: Slot, first: bool, p: nat, t: string)
    requires SlotOk(slot) && IsToken(t) && IsField(Piece(slot, first), p, t)
    ensures slot.Live?
    ensures var at := if first then 0 else 1;
            (p == at && t == slot.field.type_) || (p == at + |slot.field.type_| + 1 && t == slot.field.name)
  {
    hide IsField, IsToken, Piece;
    PieceIs(slot, first);
    match slot
    case Dead(n) => NoneInSpaces(n, p, t);
    case Live(f) =>
      if first {
        TokenInPair(f, p, t);
      } else {
        FieldAfterComma(f.type_ + " " + f.name, p, t);
        TokenInPair(f, p - 1, t);
      }
  }

  lemma FieldAfterComma(s: string, p: nat, t: string)
    requires IsToken(t) && IsField("," + s, p, t)
    ensures p >= 1 && IsField(s, p - 1, t)
  {
    NoSeparatorWithin("," + s, p, t);
    assert IsSeparator(("," + s)[0]);
    assert s[p - 1..p - 1 + |t|] == ("," + s)[p..p + |t|];
  }

  // where the type in slot k begins
  function TypePos(slots: seq<Slot>, k: nat): nat
    requires k < |slots| && slots[k].Live?
  {
    |Show(slots[..k])| + if k == 0 then 0 else 1
  }

  ghost predicate TokenAt(slots: seq<Slot>, k: nat, p: nat, t: string) {
    && k < |slots| && slots[k].Live?
    && ((p == TypePos(slots, k) && slots[k].field.type_ == t) || (p == NamePos(slots, k) && slots[k].field.name == t))
  }

  /** In a specification, what is found as a field is the type or the name of a field that is not blanked. */
  lemma {:induction false} FoundInSlot(slots: seq<Slot>, p: nat, t: string) returns (k: nat)
    requires SlotsOk(slots) && IsToken(t) && IsField(Show(slots), p, t)
    ensures TokenAt(slots, k, p, t)
  {
    hide Piece, IsField, IsToken;
    NoneInSpaces(0, p, t);
    assert Spaces(0) == "";
    var n := |slots| - 1;
    var a, b := Show(Front(slots)), Piece(Last(slots), n == 0);
    if n == 0 {
      assert Show(slots) == b;
      FieldInPiece(slots[0], true, p, t);
      k := 0;
    } else {
      PieceStarts(Last(slots));
      FieldInParts(a, b, p, t);
      if IsField(a, p, t) {
        k := FoundInSlot(Front(slots), p, t);
        assert Front(slots)[..k] == slots[..k];
      } else {
        FieldInPiece(Last(slots), false, p - |a|, t);
        k := n;
        assert slots[..n] == Front(slots);
      }
    }
  }

  lemma {:induction false} ShowGrows(slots: seq<Slot>, j: nat, k: nat)
    requires j <= k <= |slots|
    ensures |Show(slots[..j])| <= |Show(slots[..k])|
  {
    hide Piece;
    if j < k {
      ShowGrows(slots, j, k - 1);
      assert Front(slots[..k]) == slots[..k - 1];
    }
  }

  lemma TypeIsField(slots: seq<Slot>, k: nat)
    requires SlotsOk(slots) && k < |slots| && slots[k].Live?
    ensures IsField(Show(slots), TypePos(slots, k), slots[k].field.type_)
    ensures TypePos(slots, k) + |slots[k].field.type_| < |Show(slots[..k])| + |Piece(slots[k], k == 0)| <= |Show(slots)|
  {
    hide IsField, RestOf, IsSeparator, IsToken, Show, SlotOk, Piece;
    var a, b, c := Show(slots[..k]), Piece(slots[k], k == 0), RestOf(slots, k);
    ShowSplits(slots, k);
    if k == 0 {
      ShowNothing(slots[..k]);
    }
    TypeInText(a, b, c, slots[k].field, k == 0);
    PieceLength(slots[k].field, k == 0);
  }

  lemma TypeInText(a: string, b: string, c: string, f: Field, first: bool)
    requires b == Piece(Live(f), first) && (first ==> a == "")
    ensures IsField(a + b + c, |a| + if first then 0 else 1, f.type_)
  {
    hide IsSeparator;
    var s, at := a + b + c, |a| + if first then 0 else 1;
    var n := |f.type_|;
    assert b[at - |a|..at - |a| + n] == f.type_ && b[at - |a| + n] == ' ';
    assert s[at..at + n] == b[at - |a|..at - |a| + n];
    assert s[at + n] == ' ';
    assert !first ==> b[0] == ',' && s[at - 1] == ',';
    SpaceSeparates();
  }

  lemma NameIsField(slots: seq<Slot>, k: nat)
    requires SlotsOk(slots) && k < |slots| && slots[k].Live?
    ensures IsField(Show(slots), NamePos(slots, k), slots[k].field.name)
    ensures NamePos(slots, k) + |slots[k].field.name| == |Show(slots[..k])| + |Piece(slots[k], k == 0)| <= |Show(slots)|
  {
    hide IsField, RestOf, IsSeparator, IsToken, Show, SlotOk, Piece;
    var a, b, c := Show(slots[..k]), Piece(slots[k], k == 0), RestOf(slots, k);
    ShowSplits(slots, k);
    RestStarts(slots, k);
    NameInText(a, b, c, slots[k].field, k == 0);
    PieceLength(slots[k].field, k == 0);
  }

  lemma NameInText(a: string, b: string, c: string, f: Field, first: bool)
    requires b == Piece(Live(f), first) && (c == "" || IsSeparator(c[0]))
    ensures IsField(a + b + c, |a| + (if first then 0 else 1) + |f.type_| + 1, f.name)
  {
    hide IsSeparator;
    var s, at := a + b + c, |a| + (if first then 0 else 1) + |f.type_| + 1;
    assert b[at - |a| - 1] == ' ' && b[at - |a|..] == f.name;
    assert s[at - 1] == ' ';
    assert s[at..at + |f.name|] == b[at - |a|..];
    assert c != "" ==> s[at + |f.name|] == c[0];
    SpaceSeparates();
  }

  lemma PieceLength(f: Field, first: bool)
    ensures |Piece(Live(f), first)| == (if first then 0 else 1) + |f.type_| + 1 + |f.name|
  {}

  lemma ShowNothing(slots: seq<Slot>)
    requires slots == []
    ensures Show(slots) == ""
  {}

  lemma SpaceSeparates()
    ensures IsSeparator(' ') && IsSeparator(',')
  {}

  lemma {:induction false} CommaBeforeIs(s: string, p: nat, q: nat)
    requires q <= p < |s| && (q == 0 || s[q] == ',') && forall i :: q < i <= p ==> s[i] != ','
    ensures CommaBefore(s, p) == q
    decreases p
  {
    if p > q {
      CommaBeforeIs(s, p - 1, q);
    }
  }

  // Walking back from a name one arrives at the beginning of its piece.
  lemma CommaInText(a: string, b: string, c: string, f: Field, first: bool)
    requires b == Piece(Live(f), first) && SlotOk(Live(f)) && (first ==> a == "")
    ensures var p := |a| + (if first then 0 else 1) + |f.type_| + 1;
            p < |a + b + c| && CommaBefore(a + b + c, p) == |a|
  {
    hide IsToken;
    var s, at := a + b + c, if first then 0 else 1;
    var p := |a| + at + |f.type_| + 1;
    TokenNotEmpty(f.name);
    forall i | |a| < i <= p
      ensures s[i] != ','
    {
      assert s[i] == b[i - |a|];
      if at <= i - |a| < at + |f.type_| {
        TokenChar(f.type_, i - |a| - at);
        assert b[i - |a|] == f.type_[i - |a| - at];
      } else if i == p {
        TokenChar(f.name, 0);
        assert b[i - |a|] == f.name[0];
      }
    }
    assert !first ==> s[|a|] == b[0] == ',';
    CommaBeforeIs(s, p, |a|);
  }

  lemma CommaBeforeName(slots: seq<Slot>, k: nat)
    requires SlotsOk(slots) && k < |slots| && slots[k].Live?
    ensures NamePos(slots, k) < |Show(slots)| && CommaBefore(Show(slots), NamePos(slots, k)) == |Show(slots[..k])|
  {
    hide IsToken, Piece, RestOf, CommaBefore, Show, SlotOk;
    assert SlotOk(slots[k]);
    if k == 0 {
      ShowNothing(slots[..k]);
    }
    var a, b, c := Show(slots[..k]), Piece(slots[k], k == 0), RestOf(slots, k);
    ShowSplits(slots, k);
    CommaInText(a, b, c, slots[k].field, k == 0);
  }

  lemma TokenNotEmpty(t: string)
    requires IsToken(t)
    ensures t != ""
  {}

  function Blank(slots: seq<Slot>, k: nat): seq<Slot>
    requires k < |slots|
  {
    slots[k := Dead(|Piece(slots[k], k == 0)|)]
  }

  lemma BlankOk(slots: seq<Slot>, k: nat)
    requires SlotsOk(slots) && k < |slots|
    ensures SlotsOk(Blank(slots, k))
  {
    assert SlotOk(slots[k]);
  }

  lemma ShowBlank(slots: seq<Slot>, k: nat)
    requires k < |slots|
    ensures var a, b := Show(slots[..k]), Piece(slots[k], k == 0);
            && |a| + |b| <= |Show(slots)|
            && Show(Blank(slots, k)) == Blanked(Show(slots), |a|, |a| + |b|)
  {
    hide Show, Piece, RestOf;
    var a, b, c := Show(slots[..k]), Piece(slots[k], k == 0), RestOf(slots, k);
    PieceIs(Dead(|b|), k == 0);
    ShowSplits(slots, k);
    ShowSplits(Blank(slots, k), k);
    RestUnchanged(slots, k, Dead(|b|));
    assert (a + b + c)[..|a|] == a && (a + b + c)[|a| + |b|..] == c;
  }

  // ---- deleting from a list of fields ----

  function Without(fs: seq<Field>, name: string): seq<Field> {
    Filter((f: Field) => f.name != name, fs)
  }

  // blanking the slot with this name takes the field out of the list
  lemma {:induction false} LiveWithout(slots: seq<Slot>, k: nat, name: string)
    requires SlotsOk(slots) && k < |slots| && slots[k].Live? && slots[k].field.name == name
    ensures LiveFields(Blank(slots, k)) == Without(LiveFields(slots), name)
  {
    hide SlotOk, Filter;
    var n := |slots| - 1;
    var p := (f: Field) => f.name != name;
    if k == n {
      assert Front(Blank(slots, k)) == Front(slots);
      FilterAppend(p, LiveFields(Front(slots)), slots[n].field);
      LiveUntouched(Front(slots), name);
    } else {
      assert Front(Blank(slots, k)) == Blank(Front(slots), k);
      LiveWithout(Front(slots), k, name);
      if slots[n].Live? {
        FilterAppend(p, LiveFields(Front(slots)), slots[n].field);
      }
    }
  }

  lemma {:induction false} LiveUntouched(slots: seq<Slot>, name: string)
    requires forall i :: 0 <= i < |slots| && slots[i].Live? ==> slots[i].field.name != name
    ensures Without(LiveFields(slots), name) == LiveFields(slots)
  {
    if slots != [] {
      LiveUntouched(Front(slots), name);
      if Last(slots).Live? {
        FilterAppend((f: Field) => f.name != name, LiveFields(Front(slots)), Last(slots).field);
      }
    }
  }

  lemma {:induction false} LiveIn(slots: seq<Slot>, f: Field)
    ensures f in LiveFields(slots) <==> exists i :: 0 <= i < |slots| && slots[i] == Live(f)
  {
    if slots != [] {
      LiveIn(Front(slots), f);
      assert slots == Front(slots) + [Last(slots)];
    }
  }

  // ---- one delete ----

  // the position of a token, or the number of tokens
  function FirstIndex(ts: seq<string>, t: string): (i: nat)
    ensures i <= |ts| && t !in ts[..i] && (i < |ts| ==> ts[i] == t)
  {
    if ts == [] || ts[0] == t then 0 else FirstIndex(ts[1..], t) + 1
  }

  // In the specification, the first token with this name is the name of a field; or there is none.
  predicate NameComesFirst(fs: seq<Field>, name: string) {
    var i := FirstIndex(Flatten(fs), name);
    i == |Flatten(fs)| || i % 2 == 1
  }

  lemma FirstIndexIs(ts: seq<string>, t: string, i: nat)
    requires i < |ts| && ts[i] == t && t !in ts[..i]
    ensures FirstIndex(ts, t) == i
  {
    var j := FirstIndex(ts, t);
    assert forall k :: 0 <= k < |ts[..i]| ==> ts[..i][k] == ts[k];
    assert forall k :: 0 <= k < |ts[..j]| ==> ts[..j][k] == ts[k];
  }

  lemma {:induction false} FlattenConcat(x: seq<Field>, y: seq<Field>)
    ensures Flatten(x + y) == Flatten(x) + Flatten(y)
  {
    if y == [] {
      assert x + y == x;
    } else {
      FlattenConcat(x, Front(y));
      assert Front(x + y) == x + Front(y);
    }
  }

  // the live fields behind slot k
  function LiveAfter(slots: seq<Slot>, k: nat): seq<Field>
    requires k < |slots|
  {
    if k == |slots| - 1 then []
    else if Last(slots).Live? then LiveAfter(Front(slots), k) + [Last(slots).field]
    else LiveAfter(Front(slots), k)
  }

  lemma {:induction false} LiveSplits(slots: seq<Slot>, k: nat)
    requires k < |slots|
    ensures LiveFields(slots)
            == if slots[k].Live? then LiveFields(slots[..k]) + [slots[k].field] + LiveAfter(slots, k)
               else LiveFields(slots[..k]) + LiveAfter(slots, k)
  {
    if k == |slots| - 1 {
      assert slots[..k] == Front(slots);
    } else {
      LiveSplits(Front(slots), k);
      assert Front(slots)[..k] == slots[..k];
    }
  }

  lemma FlattenSplits(slots: seq<Slot>, k: nat)
    requires k < |slots| && slots[k].Live?
    ensures var x, f, y := Flatten(LiveFields(slots[..k])), slots[k].field, Flatten(LiveAfter(slots, k));
            Flatten(LiveFields(slots)) == x + [f.type_, f.name] + y && |x| == 2 * |LiveFields(slots[..k])|
  {
    hide LiveFields, LiveAfter;
    var x, f, y := LiveFields(slots[..k]), slots[k].field, LiveAfter(slots, k);
    LiveSplits(slots, k);
    FlattenConcat(x, [f]);
    FlattenConcat(x + [f], y);
    assert Flatten([f]) == [f.type_, f.name] by { assert Front([f]) == []; }
    RenderPairs(x);
  }

  // the slot of the first token with this name
  lemma {:induction false} FirstSlot(slots: seq<Slot>, t: string) returns (k: nat)
    requires t in Flatten(LiveFields(slots))
    ensures k < |slots| && slots[k].Live? && t !in Flatten(LiveFields(slots[..k]))
    ensures slots[k].field.type_ == t || slots[k].field.name == t
  {
    assert slots != [] by { assert Flatten(LiveFields([])) == []; }
    if t in Flatten(LiveFields(Front(slots))) {
      k := FirstSlot(Front(slots), t);
      assert Front(slots)[..k] == slots[..k];
    } else {
      k := |slots| - 1;
      assert slots[..k] == Front(slots);
    }
  }

  // the first occurrence is in the slot of the first token
  lemma FoundFirst(slots: seq<Slot>, k: nat, t: string)
    requires SlotsOk(slots) && IsToken(t) && k < |slots| && slots[k].Live?
    requires t !in Flatten(LiveFields(slots[..k]))
    requires slots[k].field.type_ == t || slots[k].field.name == t
    ensures FindField(Show(slots), 0, t) == if slots[k].field.type_ == t then TypePos(slots, k) else NamePos(slots, k)
  {
    hide IsToken, IsField, Show, Flatten, LiveFields, SlotsOk;
    TypeIsField(slots, k);
    NameIsField(slots, k);
    FoundIsField(Show(slots), 0, t);
    var p := FindField(Show(slots), 0, t);
    var l := FoundInSlot(slots, p, t);
    if l < k {
      EarlierToken(slots, l, k);
    } else if l > k {
      ShowGrows(slots, k + 1, l);
      PieceOf(slots, k);
    }
  }

  lemma PieceOf(slots: seq<Slot>, k: nat)
    requires k < |slots|
    ensures |Show(slots[..k + 1])| == |Show(slots[..k])| + |Piece(slots[k], k == 0)|
  {
    hide Piece;
    assert Front(slots[..k + 1]) == slots[..k];
  }

  lemma EarlierToken(slots: seq<Slot>, l: nat, k: nat)
    requires l < k <= |slots| && slots[l].Live?
    ensures slots[l].field.type_ in Flatten(LiveFields(slots[..k]))
    ensures slots[l].field.name in Flatten(LiveFields(slots[..k]))
  {
    FlattenSplits(slots[..k], l);
  }

  /** When a name comes first, or there is none, a delete blanks just the field of this name. */
  lemma DeleteName(slots: seq<Slot>, name: string) returns (after: seq<Slot>)
    requires SlotsOk(slots) && IsToken(name) && NameComesFirst(LiveFields(slots), name)
    ensures SlotsOk(after) && LiveFields(after) == Without(LiveFields(slots), name)
    ensures name != ""
    ensures Deleted(Show(slots), name) == (exists f :: f in LiveFields(slots) && f.name == name, Show(after))
  {
    hide IsToken, Piece, CommaBefore, Blanked, Show, SlotsOk, Flatten, LiveFields, IsField;
    TokenNotEmpty(name);
    if name in Flatten(LiveFields(slots)) {
      var k := FirstSlot(slots, name);
      FirstOfSlot(slots, k, name);
      FoundFirst(slots, k, name);
      LiveInSlot(slots, k);
      NameIsField(slots, k);
      CommaBeforeName(slots, k);
      ShowBlank(slots, k);
      BlankOk(slots, k);
      LiveWithout(slots, k, name);
      after := Blank(slots, k);
    } else {
      NotFound(slots, name);
      after := slots;
    }
  }

  lemma LiveInSlot(slots: seq<Slot>, k: nat)
    requires k < |slots| && slots[k].Live?
    ensures slots[k].field in LiveFields(slots)
  {
    LiveIn(slots, slots[k].field);
  }

  // in the slot of the first token, the type is at an even index and the name at an odd one
  lemma FirstOfSlot(slots: seq<Slot>, k: nat, t: string)
    requires k < |slots| && slots[k].Live? && t !in Flatten(LiveFields(slots[..k]))
    requires slots[k].field.type_ == t || slots[k].field.name == t
    ensures var ts, x := Flatten(LiveFields(slots)), Flatten(LiveFields(slots[..k]));
            && FirstIndex(ts, t) == |x| + (if slots[k].field.type_ == t then 0 else 1) < |ts|
            && |x| % 2 == 0
            && (NameComesFirst(LiveFields(slots), t) <==> slots[k].field.type_ != t)
  {
    hide Flatten, LiveFields, LiveAfter;
    FlattenSplits(slots, k);
    var ts, x := Flatten(LiveFields(slots)), Flatten(LiveFields(slots[..k]));
    assert ts[..|x|] == x && ts[..|x| + 1] == x + [slots[k].field.type_];
    FirstIndexIs(ts, t, |x| + if slots[k].field.type_ == t then 0 else 1);
  }

  lemma NotFound(slots: seq<Slot>, t: string)
    requires SlotsOk(slots) && IsToken(t) && t !in Flatten(LiveFields(slots))
    ensures t != "" && Deleted(Show(slots), t) == (false, Show(slots))
    ensures Without(LiveFields(slots), t) == LiveFields(slots)
    ensures forall f :: f in LiveFields(slots) ==> f.name != t
    ensures NameComesFirst(LiveFields(slots), t)
  {
    hide IsToken, IsField, Show, Flatten, LiveFields, SlotsOk;
    TokenNotEmpty(t);
    FoundIsField(Show(slots), 0, t);
    var p := FindField(Show(slots), 0, t);
    assert slots[..|slots|] == slots;
    if p >= 0 {
      var l := FoundInSlot(slots, p, t);
      EarlierToken(slots, l, |slots|);
    }
    forall i | 0 <= i < |slots| && slots[i].Live?
      ensures slots[i].field.name != t
    {
      EarlierToken(slots, i, |slots|);
    }
    LiveUntouched(slots, t);
    forall f | f in LiveFields(slots)
      ensures f.name != t
    {
      LiveIn(slots, f);
    }
  }

  /** When a type comes first, a delete takes this one token, and the field of the name, if there is one, stays. */
  lemma DeleteType(slots: seq<Slot>, name: string)
    requires SlotsOk(slots) && IsToken(name) && !NameComesFirst(LiveFields(slots), name)
    ensures name != ""
    ensures var ts := Flatten(LiveFields(slots));
            var i := FirstIndex(ts, name);
            var (found, left) := Deleted(Show(slots), name);
            found && i < |ts| && i % 2 == 0 && Tokens(left) == ts[..i] + ts[i + 1..]
  {
    hide IsToken, Piece, CommaBefore, Blanked, Show, SlotsOk, Flatten, LiveFields, LiveAfter, IsField, Tokens, RestOf;
    hide FirstIndex, FindField;
    TokenNotEmpty(name);
    var k := FirstSlot(slots, name);
    FirstOfSlot(slots, k, name);
    FoundFirst(slots, k, name);
    TypeIsField(slots, k);
    CommaBeforeType(slots, k);
    FlattenSplits(slots, k);
    HalfBlanked(slots, k);
    WithoutType(Flatten(LiveFields(slots[..k])), slots[k].field, Flatten(LiveAfter(slots, k)));
  }

  lemma WithoutType(x: seq<string>, f: Field, y: seq<string>)
    ensures var ts := x + [f.type_, f.name] + y;
            ts[..|x|] + ts[|x| + 1..] == x + [f.name] + y
  {
    var ts := x + [f.type_, f.name] + y;
    assert ts[..|x|] == x && ts[|x| + 1..] == [f.name] + y;
  }

  lemma CommaBeforeType(slots: seq<Slot>, k: nat)
    requires SlotsOk(slots) && k < |slots| && slots[k].Live? && TypePos(slots, k) < |Show(slots)|
    ensures CommaBefore(Show(slots), TypePos(slots, k)) == |Show(slots[..k])|
  {
    hide IsToken, Piece, RestOf, Show, SlotOk;
    assert SlotOk(slots[k]);
    var a, b, c := Show(slots[..k]), Piece(slots[k], k == 0), RestOf(slots, k);
    ShowSplits(slots, k);
    if k == 0 {
      ShowNothing(slots[..k]);
    } else {
      CommaAndType(slots[k].field);
      assert Show(slots)[|a|] == b[0] && Show(slots)[|a| + 1] == b[1];
      CommaBeforeIs(Show(slots), |a| + 1, |a|);
    }
  }

  lemma CommaAndType(f: Field)
    requires SlotOk(Live(f))
    ensures var b := Piece(Live(f), false); |b| > 1 && b[0] == ',' && b[1] != ','
  {
    TokenNotEmpty(f.type_);
    TokenChar(f.type_, 0);
  }

  lemma HalfBlanked(slots: seq<Slot>, k: nat)
    requires SlotsOk(slots) && k < |slots| && slots[k].Live?
    requires TypePos(slots, k) + |slots[k].field.type_| <= |Show(slots)|
    ensures Tokens(Blanked(Show(slots), |Show(slots[..k])|, TypePos(slots, k) + |slots[k].field.type_|))
            == Flatten(LiveFields(slots[..k])) + [slots[k].field.name] + Flatten(LiveAfter(slots, k))
  {
    hide IsToken, RestOf, Show, Flatten, LiveFields, LiveAfter, Tokens, SlotOk, Piece, Blanked, IsSeparator;
    assert SlotOk(slots[k]);
    var a, f, c := Show(slots[..k]), slots[k].field, RestOf(slots, k);
    assert slots[k] == Live(f);
    var gap := (if k == 0 then 0 else 1) + |f.type_|;
    ShowSplits(slots, k);
    BlankedText(a, f, c, k == 0);
    SlotsOkPrefix(slots, k);
    TokensOfShow(slots[..k]);
    TokensOfRest(slots, k);
    RestStarts(slots, k);
    SlotTokens(f);
    TokenNotEmpty(f.type_);
    TokensOfHalf(a, gap, f.name, c);
    if k == 0 {
      ShowNothing(slots[..k]);
    }
  }

  lemma SlotTokens(f: Field)
    requires SlotOk(Live(f))
    ensures IsToken(f.type_) && IsToken(f.name)
  {}

  lemma SlotsOkPrefix(slots: seq<Slot>, k: nat)
    requires SlotsOk(slots) && k <= |slots|
    ensures SlotsOk(slots[..k])
  {
    hide SlotOk;
  }

  lemma BlankedText(a: string, f: Field, c: string, first: bool)
    ensures var b, gap := Piece(Live(f), first), (if first then 0 else 1) + |f.type_|;
            |a| + gap <= |a + b + c| && Blanked(a + b + c, |a|, |a| + gap) == a + Spaces(gap) + (" " + f.name + c)
  {
    var b, gap := Piece(Live(f), first), (if first then 0 else 1) + |f.type_|;
    assert b[gap..] == " " + f.name;
    assert (a + b + c)[..|a|] == a && (a + b + c)[|a| + gap..] == b[gap..] + c;
  }

  lemma TokensOfHalf(a: string, gap: nat, name: string, c: string)
    requires gap > 0 && IsToken(name) && (c == "" || IsSeparator(c[0]))
    ensures Tokens(a + Spaces(gap) + (" " + name + c)) == Tokens(a) + [name] + Tokens(c)
  {
    hide Tokens, IsToken;
    TokensOfSpaces(gap);
    TokensConcat(a, Spaces(gap));
    TokensConcat(a + Spaces(gap), " " + name + c);
    NoToken(' ');
    TokensOfToken(name);
    TokensConcat(" ", name);
    TokensConcat(" " + name, c);
  }

  lemma {:induction false} TokensOfRest(slots: seq<Slot>, k: nat)
    requires SlotsOk(slots) && k < |slots|
    ensures Tokens(RestOf(slots, k)) == Flatten(LiveAfter(slots, k))
  {
    hide Tokens, Piece, IsToken;
    if k == |slots| - 1 {
      NoTokens();
    } else {
      TokensOfRest(Front(slots), k);
      PieceStarts(Last(slots));
      TokensConcat(RestOf(Front(slots), k), Piece(Last(slots), false));
      TokensOfPiece(Last(slots), false);
      if Last(slots).Live? {
        assert Front(LiveAfter(slots, k)) == LiveAfter(Front(slots), k);
      }
    }
  }

  lemma {:induction false} LiveTokens(slots: seq<Slot>)
    requires SlotsOk(slots)
    ensures AllAreTokens(Flatten(LiveFields(slots)))
  {
    TokensOfShow(slots);
    TokensAreTokens(Show(slots));
  }

  lemma {:induction false} WithoutTokens(fs: seq<Field>, name: string)
    requires AllAreTokens(Flatten(fs))
    ensures AllAreTokens(Flatten(Without(fs, name)))
  {
    hide IsToken;
    forall f | f in fs
      ensures IsToken(f.type_) && IsToken(f.name)
    {
      FieldTokens(fs, f);
    }
    FilterHolds((f: Field) => f.name != name, fs);
    FlattenTokens(Without(fs, name));
  }

  lemma {:induction false} FieldTokens(fs: seq<Field>, f: Field)
    requires AllAreTokens(Flatten(fs)) && f in fs
    ensures IsToken(f.type_) && IsToken(f.name)
  {
    hide IsToken;
    var ts := Flatten(fs);
    if f == Last(fs) {
      assert ts[|ts| - 2] == f.type_ && ts[|ts| - 1] == f.name;
    } else {
      assert fs == Front(fs) + [Last(fs)];
      assert forall i :: 0 <= i < |Flatten(Front(fs))| ==> Flatten(Front(fs))[i] == ts[i];
      FieldTokens(Front(fs), f);
    }
  }

  lemma {:induction false} FlattenTokens(fs: seq<Field>)
    requires forall f :: f in fs ==> IsToken(f.type_) && IsToken(f.name)
    ensures AllAreTokens(Flatten(fs))
  {
    hide IsToken;
    if fs != [] {
      assert fs == Front(fs) + [Last(fs)];
      FlattenTokens(Front(fs));
    }
  }

  /**
   * Trimming after one delete gives the specification without the field of this name if and only if the first token
   * that is the name stands at the place of a name, or there is none.
   */
  lemma DeleteExactly(slots: seq<Slot>, name: string)
    requires SlotsOk(slots) && IsToken(name)
    ensures name != ""
    ensures Trimmed(Deleted(Show(slots), name).1) == Spec(Without(LiveFields(slots), name))
            <==> NameComesFirst(LiveFields(slots), name)
  {
    hide IsToken, Show, LiveFields, Deleted, Trimmed, Tokens, SlotsOk, Spec, Without, FirstIndex;
    var g := Without(LiveFields(slots), name);
    if NameComesFirst(LiveFields(slots), name) {
      var after := DeleteName(slots, name);
      TokensOfShow(after);
      TrimmedPairs(Show(after), g);
    } else {
      DeleteType(slots, name);
      var left := Deleted(Show(slots), name).1;
      TrimKeepsTokens(left);
      LiveTokens(slots);
      WithoutTokens(LiveFields(slots), name);
      RenderPairs(g);
      TokensOfRender(Flatten(g));
      RenderPairs(LiveFields(slots));
      assert |Tokens(Trimmed(left))| % 2 == 1 && |Tokens(Spec(g))| % 2 == 0;
    }
  }

  // the deletes of one call of field_del, and which of them found their field
  function DeletedAll(s: string, names: seq<string>): (seq<bool>, string)
    requires forall i :: 0 <= i < |names| ==> names[i] != ""
  {
    if names == [] then ([], s)
    else
      var (found, rest) := DeletedAll(s, Front(names));
      var (b, left) := Deleted(rest, Last(names));
      (found + [b], left)
  }

  function WithoutAll(fs: seq<Field>, names: seq<string>): seq<Field> {
    Filter((f: Field) => f.name !in names, fs)
  }

  ghost predicate Distinct(fs: seq<Field>) {
    forall i, j :: 0 <= i < j < |fs| ==> fs[i].name != fs[j].name
  }

  ghost predicate FieldsOk(fs: seq<Field>) {
    Distinct(fs) && forall i :: 0 <= i < |fs| ==> IsToken(fs[i].type_) && IsToken(fs[i].name)
  }

  ghost predicate NamesOk(names: seq<string>) {
    forall i :: 0 <= i < |names| ==> IsToken(names[i])
  }

  // at each delete, a name comes first in what is left, or there is none
  ghost predicate NamesComeFirst(fs: seq<Field>, names: seq<string>) {
    forall i :: 0 <= i < |names| ==> NameComesFirst(WithoutAll(fs, names[..i]), names[i])
  }

  function AllLive(fs: seq<Field>): seq<Slot> {
    seq(|fs|, i requires 0 <= i < |fs| => Live(fs[i]))
  }

  lemma {:induction false} AllLiveShow(fs: seq<Field>)
    ensures Show(AllLive(fs)) == Spec(fs)
  {
    hide Show, Spec;
    if fs == [] {
      ShowNothing(AllLive(fs));
      assert Spec(fs) == "" by { SpecOfNone(); }
    } else {
      AllLiveShow(Front(fs));
      assert Front(AllLive(fs)) == AllLive(Front(fs));
      ShowLast(AllLive(fs), Last(fs));
      SpecLast(fs);
    }
  }

  lemma SpecOfNone()
    ensures Spec([]) == ""
  {}

  lemma SpecLast(fs: seq<Field>)
    requires fs != []
    ensures var f := Last(fs);
            Spec(fs) == if |fs| == 1 then f.type_ + " " + f.name else Spec(Front(fs)) + "," + f.type_ + " " + f.name
  {}

  lemma {:induction false} AllLiveFields(fs: seq<Field>)
    ensures LiveFields(AllLive(fs)) == fs
  {
    if fs != [] {
      AllLiveFields(Front(fs));
      assert Front(AllLive(fs)) == AllLive(Front(fs));
      assert fs == Front(fs) + [Last(fs)];
    }
  }

  lemma ShowLast(slots: seq<Slot>, f: Field)
    requires slots != [] && Last(slots) == Live(f)
    ensures if |slots| == 1 then Show(slots) == f.type_ + " " + f.name
            else Show(slots) == Show(Front(slots)) + "," + f.type_ + " " + f.name
  {
    if |slots| == 1 {
      ShowNothing(Front(slots));
      Assoc("", "", f.type_, " ", f.name);
    } else {
      Assoc(Show(Front(slots)), ",", f.type_, " ", f.name);
    }
  }

  lemma {:induction false} WithoutMore(fs: seq<Field>, names: seq<string>, name: string)
    ensures Without(WithoutAll(fs, names), name) == WithoutAll(fs, names + [name])
  {
    if fs != [] {
      WithoutMore(fs[1..], names, name);
    }
  }

  lemma {:induction false} WithoutNone(fs: seq<Field>)
    ensures WithoutAll(fs, []) == fs
  {
    if fs != [] {
      WithoutNone(fs[1..]);
    }
  }

  lemma {:induction false} DeleteMany(fs: seq<Field>, names: seq<string>) returns (slots: seq<Slot>)
    requires FieldsOk(fs) && NamesOk(names) && NamesComeFirst(fs, names)
    ensures SlotsOk(slots) && LiveFields(slots) == WithoutAll(fs, names)
    ensures forall i :: 0 <= i < |names| ==> names[i] != ""
    ensures DeletedAll(Spec(fs), names).1 == Show(slots)
    ensures |DeletedAll(Spec(fs), names).0| == |names|
    ensures forall i :: 0 <= i < |names| ==>
      (DeletedAll(Spec(fs), names).0[i] <==> exists f :: f in WithoutAll(fs, names[..i]) && f.name == names[i])
  {
    hide IsToken, WithoutAll, Without, Show, Spec, LiveFields, Deleted, DeletedAll, SlotsOk, NameComesFirst;
    NamesNotEmpty(names);
    if names == [] {
      AllLiveShow(fs);
      AllLiveFields(fs);
      AllLiveOk(fs);
      WithoutNone(fs);
      NothingDeleted(Spec(fs));
      slots := AllLive(fs);
    } else {
      var n := |names| - 1;
      assert names == Front(names) + [names[n]] && names[..n] == Front(names);
      forall i | 0 <= i < n
        ensures names[..i] == Front(names)[..i]
      {}
      var before := DeleteMany(fs, Front(names));
      slots := DeleteName(before, names[n]);
      WithoutMore(fs, Front(names), names[n]);
      DeletedMore(Spec(fs), names);
    }
  }

  lemma AllLiveOk(fs: seq<Field>)
    requires FieldsOk(fs)
    ensures SlotsOk(AllLive(fs))
  {}

  lemma NamesNotEmpty(names: seq<string>)
    requires NamesOk(names)
    ensures forall i :: 0 <= i < |names| ==> names[i] != ""
  {}

  lemma NothingDeleted(s: string)
    ensures DeletedAll(s, []) == ([], s)
  {}

  lemma DeletedMore(s: string, names: seq<string>)
    requires names != [] && forall i :: 0 <= i < |names| ==> names[i] != ""
    ensures var (found, rest) := DeletedAll(s, Front(names));
            DeletedAll(s, names) == (found + [Deleted(rest, Last(names)).0], Deleted(rest, Last(names)).1)
  {
    hide Deleted;
  }

  lemma {:induction false} TokensOfShow(slots: seq<Slot>)
    requires SlotsOk(slots)
    ensures Tokens(Show(slots)) == Flatten(LiveFields(slots))
  {
    hide Tokens, Piece, IsToken;
    if slots == [] {
      assert Tokens("") == [] by { NoTokens(); }
    } else {
      TokensOfShow(Front(slots));
      var first := |slots| == 1;
      if !first {
        PieceStarts(Last(slots));
      } else {
        assert Show(Front(slots)) == "";
      }
      TokensConcat(Show(Front(slots)), Piece(Last(slots), first));
      TokensOfPiece(Last(slots), first);
      if Last(slots).Live? {
        var ls := LiveFields(slots);
        assert Front(ls) == LiveFields(Front(slots));
      }
    }
  }

  lemma NoTokens()
    ensures Tokens("") == []
  {}

  lemma {:induction false} TokensOfSpaces(n: nat)
    ensures Tokens(Spaces(n)) == []
  {
    if n > 0 {
      TokensOfSpaces(n - 1);
      assert Front(Spaces(n)) == Spaces(n - 1);
    }
  }

  lemma TokensOfPiece(slot: Slot, first: bool)
    requires SlotOk(slot)
    ensures Tokens(Piece(slot, first)) == if slot.Live? then [slot.field.type_, slot.field.name] else []
  {
    hide Tokens, IsToken;
    match slot
    case Dead(n) => TokensOfSpaces(n);
    case Live(f) =>
      var comma := if first then "" else ",";
      NoTokens();
      NoToken(',');
      NoToken(' ');
      TokensOfToken(f.type_);
      TokensOfToken(f.name);
      TokensConcat(comma, f.type_);
      TokensConcat(comma + f.type_, " ");
      TokensConcat(comma + f.type_ + " ", f.name);
  }

  /**
   * Any deletes and one trim turn a specification into that of the fields whose names were not deleted, in their order,
   * and each delete reports whether its field was still there, as long as names come first.
   */
  lemma DeletesThenTrim(fs: seq<Field>, names: seq<string>)
    requires FieldsOk(fs) && NamesOk(names) && NamesComeFirst(fs, names)
    ensures forall i :: 0 <= i < |names| ==> names[i] != ""
    ensures var (found, left) := DeletedAll(Spec(fs), names);
            && Trimmed(left) == Spec(WithoutAll(fs, names)) && Tokens(left) == Flatten(WithoutAll(fs, names))
            && |found| == |names|
            && forall i :: 0 <= i < |names| ==>
                 (found[i] <==> exists f :: f in WithoutAll(fs, names[..i]) && f.name == names[i])
  {
    hide Trimmed, DeletedAll, NamesComeFirst, FieldsOk;
    var slots := DeleteMany(fs, names);
    TokensOfShow(slots);
    TrimmedPairs(Show(slots), WithoutAll(fs, names));
  }

  // the specification after each of the deletes would be trimmed to what is expected then
  ghost predicate RightThroughout(fs: seq<Field>, names: seq<string>)
    requires NamesOk(names)
  {
    NamesNotEmpty(names);
    forall j :: 0 <= j <= |names| ==> Trimmed(DeletedAll(Spec(fs), names[..j]).1) == Spec(WithoutAll(fs, names[..j]))
  }

  /**
   * When at some delete a type comes first, a trim right after it would give a wrong specification. For the one trim
   * after all deletes the condition is sufficient only, since later deletes may take the rest.
   */
  lemma {:induction false} DeletesExactly(fs: seq<Field>, names: seq<string>)
    requires FieldsOk(fs) && NamesOk(names)
    ensures RightThroughout(fs, names) <==> NamesComeFirst(fs, names)
  {
    hide IsToken, Trimmed, DeletedAll, Spec, WithoutAll, NameComesFirst, FieldsOk;
    NamesNotEmpty(names);
    if names == [] {
      DeletesThenTrim(fs, names);
      assert names[..0] == names;
    } else {
      var n := |names| - 1;
      var front := Front(names);
      assert names == front + [names[n]] && names[..n] == front && names[..|names|] == names;
      forall i | 0 <= i <= n
        ensures names[..i] == front[..i]
      {}
      DeletesExactly(fs, front);
      if NamesComeFirst(fs, front) {
        var slots := DeleteMany(fs, front);
        DeleteExactly(slots, names[n]);
        DeletedMore(Spec(fs), names);
        WithoutMore(fs, front, names[n]);
      }
    }
  }

  /** An instance: a type is taken for the field, the next delete takes its name, and what is left is right. */
  lemma LaterDeleteMayRepair(fs: seq<Field>, names: seq<string>)
    requires fs == [Field("a", "b"), Field("c", "d")] && names == ["a", "b"]
    ensures !NamesComeFirst(fs, names)
    ensures DeletedAll(Spec(fs), names) == ([true, true], "   ,c d")
    ensures Trimmed("   ,c d") == Spec(WithoutAll(fs, names)) == "c d"
  {
    TypeTakenFirst(fs, names);
    TwoDeletes(fs, names);
    WhatIsLeft(fs, names);
  }

  lemma TypeTakenFirst(fs: seq<Field>, names: seq<string>)
    requires fs == [Field("a", "b"), Field("c", "d")] && names == ["a", "b"]
    ensures !NamesComeFirst(fs, names)
  {
    assert Front(fs) == [fs[0]] && Front([fs[0]]) == [];
    assert Flatten([fs[0]]) == ["a", "b"];
    assert Flatten(fs) == ["a", "b", "c", "d"];
    WithoutNone(fs);
    assert names[..0] == [];
    assert FirstIndex(Flatten(fs), "a") == 0;
    assert !NameComesFirst(WithoutAll(fs, names[..0]), names[0]);
  }

  lemma SpecOfTwo(fs: seq<Field>)
    requires fs == [Field("a", "b"), Field("c", "d")]
    ensures Spec(fs) == "a b,c d"
  {
    assert Front(fs) == [fs[0]];
    assert Spec([fs[0]]) == "a b";
  }

  // a delete of the first token, at position p behind spaces only
  lemma FirstTokenTaken(s: string, p: nat, c: char)
    requires p < |s| && s[..p] == Spaces(p) && s[p] == c && !IsSeparator(c)
    requires p + 1 == |s| || IsSeparator(s[p + 1])
    ensures Deleted(s, [c]) == (true, Spaces(p + 1) + s[p + 1..])
  {
    forall q | 0 <= q < p
      ensures s[q] == ' '
    {
      assert s[q] == s[..p][q] == Spaces(p)[q];
    }
    FoundAfterSpaces(s, p, c);
    NoCommaBefore(s, p);
    assert |[c]| == 1 && Blanked(s, 0, p + 1) == Spaces(p + 1) + s[p + 1..];
  }

  lemma FoundAfterSpaces(s: string, p: nat, c: char)
    requires p < |s| && (forall q :: 0 <= q < p ==> s[q] == ' ') && s[p] == c && !IsSeparator(c)
    requires p + 1 == |s| || IsSeparator(s[p + 1])
    ensures FindField(s, 0, [c]) == p
  {
    hide FindField;
    FoundIsField(s, 0, [c]);
    assert s[p..p + 1] == [c];
    assert IsField(s, p, [c]);
    forall q | 0 <= q < p
      ensures !IsField(s, q, [c])
    {
      OtherCharacter(s, q, c);
    }
  }

  lemma OtherCharacter(s: string, q: nat, c: char)
    requires q < |s| && s[q] != c
    ensures !Occurs(s, q, [c])
  {
    assert s[q..q + 1][0] == s[q];
  }

  lemma {:induction false} NoCommaBefore(s: string, p: nat)
    requires p < |s| && forall q :: 0 <= q <= p ==> s[q] != ','
    ensures CommaBefore(s, p) == 0
  {
    if p > 0 {
      NoCommaBefore(s, p - 1);
    }
  }

  lemma TwoDeletes(fs: seq<Field>, names: seq<string>)
    requires fs == [Field("a", "b"), Field("c", "d")] && names == ["a", "b"]
    ensures DeletedAll(Spec(fs), names) == ([true, true], "   ,c d")
  {
    hide Deleted, Spec;
    SpecOfTwo(fs);
    FirstTokenTaken("a b,c d", 0, 'a');
    assert Spaces(1) + "a b,c d"[1..] == "  b,c d";
    FirstTokenTaken("  b,c d", 2, 'b');
    assert Spaces(3) + "  b,c d"[3..] == "   ,c d";
    assert Front(names) == ["a"] && Front(["a"]) == [];
    NothingDeleted(Spec(fs));
    DeletedMore(Spec(fs), ["a"]);
    assert [] + [true] == [true];
    assert DeletedAll(Spec(fs), ["a"]).0 == [true];
    assert DeletedAll(Spec(fs), ["a"]).1 == "  b,c d";
    DeletedMore(Spec(fs), names);
    assert [true] + [true] == [true, true];
  }

  lemma WhatIsLeft(fs: seq<Field>, names: seq<string>)
    requires fs == [Field("a", "b"), Field("c", "d")] && names == ["a", "b"]
    ensures Trimmed("   ,c d") == Spec(WithoutAll(fs, names)) == "c d"
  {
    hide Tokens, Trimmed;
    var f := fs[1];
    var p := (g: Field) => g.name !in names;
    assert fs[1..] == [f] && [f][1..] == [];
    assert !p(fs[0]) && p(f);
    assert Filter(p, [f]) == [f];
    assert Filter(p, fs) == [f];
    assert WithoutAll(fs, names) == [f];
    assert Front([f]) == [];
    assert Flatten([f]) == ["c", "d"];
    TokensOfSpaces(3);
    NoToken(',');
    NoToken(' ');
    TokensOfToken("c");
    TokensOfToken("d");
    TokensConcat(Spaces(3), ",");
    TokensConcat(Spaces(3) + ",", "c");
    TokensConcat(Spaces(3) + "," + "c", " ");
    TokensConcat(Spaces(3) + "," + "c" + " ", "d");
    assert Spaces(3) + "," + "c" + " " + "d" == "   ,c d";
    TrimmedPairs("   ,c d", [f]);
  }
}
