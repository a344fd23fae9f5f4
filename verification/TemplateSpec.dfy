/** luamodule/template.c on character arrays: strings end with a zero character and are changed in place. */
module TemplateSpec {
  import opened Filters
  import opened Template
  import opened TemplateDelete

  const NUL: char := '\0'

  // the string in an array
  function CString(a: seq<char>): (s: string)
    ensures |s| <= |a| && s == a[..|s|] && NUL !in s
    ensures NUL in a ==> |s| < |a| && a[|s|] == NUL
  {
    if a == [] || a[0] == NUL then "" else [a[0]] + CString(a[1..])
  }

  lemma {:induction false} CStringIs(a: seq<char>, s: string)
    requires |s| < |a| && a[..|s|] == s && a[|s|] == NUL && NUL !in s
    ensures CString(a) == s
  {
    if s != "" {
      assert a[0] == s[0] && s[0] in s;
      assert a[1..][..|s[1..]|] == s[1..];
      CStringIs(a[1..], s[1..]);
    }
  }

  method StrLen(spec: array<char>) returns (n: nat)
    requires NUL in spec[..]
    ensures n == |CString(spec[..])| && n < spec.Length && spec[n] == NUL
  {
    ghost var s := CString(spec[..]);
    forall k | 0 <= k < |s|
      ensures spec[k] != NUL
    {
      assert s[k] in s;
    }
    n := 0;
    while spec[n] != NUL
      invariant n <= |s|
      decreases |s| - n
    {
      n := n + 1;
    }
  }

  lemma {:induction false} RunWritesNoMore(start: State, s: string)
    ensures |Run(start, s).1| <= |s|
    ensures NUL !in s ==> NUL !in Run(start, s).1
  {
    if s != "" {
      RunWritesNoMore(start, Front(s));
      assert s == Front(s) + [Last(s)];
    }
  }

  lemma RunNext(start: State, s: string, i: nat)
    requires i < |s|
    ensures var (state, out) := Run(start, s[..i]);
            Run(start, s[..i + 1]) == (Step(state, s[i]).0, out + Step(state, s[i]).1)
  {
    assert Front(s[..i + 1]) == s[..i];
  }

  // what is written, less a comma at the end, is the clean form
  lemma RunTrims(start: State, s: string)
    requires Tokens(s) != [] && start == if IsAlnum(s[0]) then Type else SepType
    ensures var out := Run(start, s).1;
            out != "" && Trimmed(s) == if Last(out) == ',' then Front(out) else out
  {
    RunRenders(s);
    if start == Type {
      SameStart(s);
    }
    TokensAreTokens(s);
    RenderEnds(Tokens(s));
    hide Run, Tokens, Render, StateOf;
    TailEnds(Render(Tokens(s)), TailOf(Tokens(s), s));
  }

  lemma TailEnds(x: string, tail: string)
    requires x != "" && !IsSeparator(Last(x)) && |tail| <= 1
    ensures tail == "" ==> x + tail == x
    ensures tail != "" ==> Last(x + tail) == tail[0] && Front(x + tail) == x
  {}

  /** template_spec_trim: the clean form, in place. */
  method Trim(spec: array<char>)
    requires NUL in spec[..] && Tokens(CString(spec[..])) != []
    modifies spec
    ensures NUL in spec[..] && CString(spec[..]) == Trimmed(old(CString(spec[..])))
    ensures forall k :: old(|CString(spec[..])|) < k < spec.Length ==> spec[k] == old(spec[k])
  {
    hide Run, Step, Trimmed, Tokens, CString;
    var specLen := StrLen(spec);
    ghost var s := CString(spec[..]);
    assert s != "" by { NoTokensOfNothing(s); }
    var state := if IsAlnum(spec[0]) then Type else SepType;
    RunTrims(state, s);
    RunWritesNoMore(state, s);
    var j := TrimLoop(spec, specLen, state, s);
    Terminate(spec, j, Run(state, s).1);
  }

  // the loop, from the state that the first character gives
  method TrimLoop(spec: array<char>, specLen: nat, first: State, ghost s: string) returns (j: nat)
    requires |s| == specLen < spec.Length && spec[..specLen] == s
    modifies spec
    ensures j <= specLen && spec[..j] == Run(first, s).1
    ensures forall k :: specLen <= k < spec.Length ==> spec[k] == old(spec[k])
  {
    hide Run, Step;
    var state := first;
    RunNothing(first);
    var i := 0;
    j := 0;
    while i < specLen
      invariant 0 <= j <= i <= specLen == |s| < spec.Length
      invariant forall k :: i <= k < spec.Length ==> spec[k] == old(spec[k])
      invariant state == Run(first, s[..i]).0 && spec[..j] == Run(first, s[..i]).1
    {
      RunNext(first, s, i);
      j, state := TrimStep(spec, i, j, state);
      assert spec[i + 1..] == old(spec[i + 1..]);
      i := i + 1;
    }
    assert s[..i] == s;
  }

  // the end of the string goes over a comma at the end, or after the last character
  method Terminate(spec: array<char>, j: nat, ghost out: string)
    requires 0 < j == |out| < spec.Length && spec[..j] == out && NUL !in out
    modifies spec
    ensures NUL in spec[..] && CString(spec[..]) == if Last(out) == ',' then Front(out) else out
    ensures forall k :: j < k < spec.Length ==> spec[k] == old(spec[k])
  {
    assert spec[j - 1] == out[j - 1];
    if spec[j - 1] == ',' {
      spec[j - 1] := NUL;
      assert spec[..][j - 1] == NUL && spec[..j - 1] == Front(out);
      CStringIs(spec[..], Front(out));
    } else {
      spec[j] := NUL;
      assert spec[..][j] == NUL && spec[..j] == out;
      CStringIs(spec[..], out);
    }
  }

  // the body of the loop: a character that was read is never read again
  method TrimStep(spec: array<char>, i: nat, j: nat, state: State) returns (j': nat, state': State)
    requires j <= i < spec.Length
    modifies spec
    ensures state' == Step(state, old(spec[i])).0 && j <= j' <= i + 1
    ensures spec[..j'] == old(spec[..j]) + Step(state, old(spec[i])).1
    ensures forall k :: i < k < spec.Length ==> spec[k] == old(spec[k])
  {
    j', state' := j, state;
    var c := spec[i];
    match state
    case Type =>
      if !IsSpace(c) && c != ',' {
        spec[j] := c;
        j' := j + 1;
      } else {
        spec[j] := ' ';
        j' := j + 1;
        state' := SepName;
      }
    case Name =>
      if !IsSpace(c) && c != ',' {
        spec[j] := c;
        j' := j + 1;
      } else {
        spec[j] := ',';
        j' := j + 1;
        state' := SepType;
      }
    case SepType =>
      if !IsSpace(c) && c != ',' {
        spec[j] := c;
        j' := j + 1;
        state' := Type;
      }
    case SepName =>
      if !IsSpace(c) && c != ',' {
        spec[j] := c;
        j' := j + 1;
        state' := Name;
      }
  }

  lemma NoTokensOfNothing(s: string)
    requires Tokens(s) != []
    ensures s != ""
  {}

  lemma RunNothing(start: State)
    ensures Run(start, "") == (start, "")
  {}

  // strstr from a position on
  method StrStr(spec: array<char>, from: nat, field: string, ghost s: string) returns (p: int)
    requires NUL in spec[..] && s == CString(spec[..]) && from <= |s|
    ensures p < 0 ==> forall q: nat :: q >= from ==> !Occurs(s, q, field)
    ensures p >= 0 ==> p >= from && Occurs(s, p, field) && forall q: nat :: from <= q < p ==> !Occurs(s, q, field)
  {
    var len := StrLen(spec);
    p := from;
    while p + |field| <= len
      invariant p >= from && forall q: nat :: from <= q < p ==> !Occurs(s, q, field)
    {
      if spec[p..p + |field|] == field {
        return;
      }
      p := p + 1;
    }
    p := -1;
  }

  // the checks that an occurrence is neither the end nor the beginning of a longer name
  method IsWholeField(spec: array<char>, begin: nat, field: string, ghost s: string) returns (b: bool)
    requires NUL in spec[..] && s == CString(spec[..]) && Occurs(s, begin, field)
    ensures b <==> IsField(s, begin, field)
  {
    var end := begin + |field|;
    assert s == spec[..|s|] && spec[|s|] == NUL;
    assert end < |s| ==> s[end] in s;
    b := false;
    if begin == 0 || spec[begin - 1] == ',' || IsSpace(spec[begin - 1]) {
      if spec[end] == NUL || spec[end] == ',' || IsSpace(spec[end]) {
        b := true;
      }
    }
  }

  lemma FindFieldIs(s: string, p: int, field: string)
    requires p >= 0 ==> IsField(s, p, field)
    requires forall q: nat :: p < 0 || q < p ==> !IsField(s, q, field)
    ensures FindField(s, 0, field) == if p >= 0 then p else -1
  {
    hide IsField;
    FoundIsField(s, 0, field);
    var f := FindField(s, 0, field);
    if f >= 0 {
      assert IsField(s, f, field);
    }
    FindFieldMin(s, 0, field);
  }

  lemma {:induction false} FindFieldMin(s: string, from: nat, field: string)
    ensures FindField(s, from, field) >= -1
    decreases |s| - from
  {
    if from + |field| <= |s| && !IsField(s, from, field) {
      FindFieldMin(s, from + 1, field);
    }
  }

  lemma FieldOccurs(s: string, field: string)
    requires field != ""
    ensures forall q: nat :: IsField(s, q, field) ==> Occurs(s, q, field)
    ensures forall q: nat :: Occurs(s, q, field) ==> q < |s|
  {}

  // the search for the field itself, over all occurrences of its characters
  method SearchField(spec: array<char>, field: string) returns (begin: int)
    requires NUL in spec[..] && field != ""
    ensures var p := FindField(CString(spec[..]), 0, field);
            if begin >= 0 then begin == p else p < 0
  {
    hide IsField, Occurs, FindField, CString;
    ghost var s := CString(spec[..]);
    FieldOccurs(s, field);
    begin := StrStr(spec, 0, field, s);
    while begin >= 0
      invariant begin >= 0 ==> Occurs(s, begin, field)
      invariant forall q: nat :: begin < 0 || q < begin ==> !IsField(s, q, field)
      decreases if begin < 0 then 0 else |s| - begin + 1
    {
      var whole := IsWholeField(spec, begin, field, s);
      if whole {
        break;
      }
      begin := StrStr(spec, begin + 1, field, s);
    }
    FindFieldIs(s, begin, field);
  }

  /** template_spec_delete_field: 0 when the field was found, and then it is blanked with its type and its comma. */
  method DeleteField(spec: array<char>, field: string) returns (ret: int)
    requires NUL in spec[..] && field != "" && NUL !in field
    modifies spec
    ensures NUL in spec[..]
    ensures ret in {0, 1} && (ret == 0, CString(spec[..])) == Deleted(old(CString(spec[..])), field)
  {
    hide CommaBefore, FindField, CString, Blanked;
    FoundIsField(CString(spec[..]), 0, field);
    var begin := SearchField(spec, field);
    if begin < 0 {
      return 1;
    }
    begin := BlankBack(spec, begin, begin + |field|);
    ret := 0;
  }

  // from the name back to the comma before its type, and then on to the end of the name
  method BlankBack(spec: array<char>, at: nat, end: nat) returns (begin: nat)
    requires NUL in spec[..] && at < end <= |CString(spec[..])|
    modifies spec
    ensures NUL in spec[..]
    ensures var s := old(CString(spec[..]));
            CString(spec[..]) == Blanked(s, CommaBefore(s, at), end)
  {
    hide CString;
    ghost var s := CString(spec[..]);
    assert s == spec[..|s|] && spec[|s|] == NUL;
    begin := at;
    while begin > 0 && spec[begin] != ','
      invariant begin <= at && CommaBefore(s, begin) == CommaBefore(s, at)
    {
      assert s[begin] == spec[begin];
      begin := begin - 1;
    }
    assert s[begin] == spec[begin];
    ghost var from := begin;
    assert from == CommaBefore(s, at);
    while begin < end
      invariant from <= begin <= end
      invariant forall k :: 0 <= k < spec.Length ==> spec[k] == if from <= k < begin then ' ' else old(spec[k])
    {
      spec[begin] := ' ';
      begin := begin + 1;
    }
    assert spec[..|s|] == Blanked(s, from, end);
    NoNulBlanked(s, from, end);
    assert spec[|s|] == NUL;
    CStringIs(spec[..], Blanked(s, from, end));
  }

  lemma NoNulBlanked(s: string, from: nat, to: nat)
    requires from <= to <= |s| && NUL !in s
    ensures |Blanked(s, from, to)| == |s| && NUL !in Blanked(s, from, to)
  {}

  // ---- field_del of luafuncs.c ----

  datatype Option<T> = None | Some(value: T)

  // An id comes with the name of its field when the input template has this field.
  datatype Argument = ByName(name: string) | ById(known: Option<string>) | OtherType

  function NameOf(a: Argument): Option<string> {
    match a case ByName(name) => Some(name) case ById(known) => known case OtherType => None
  }

  // the names that are searched for
  function Wanted(args: seq<Argument>): seq<string> {
    if args == [] then []
    else
      var name := NameOf(Last(args));
      Wanted(Front(args)) + if name.Some? then [name.value] else []
  }

  // a result for each argument: false for the id of a field that is not there
  function Spread(args: seq<Argument>, found: seq<bool>): seq<bool>
    requires |found| == |Wanted(args)|
  {
    if args == [] then []
    else if NameOf(Last(args)).Some? then Spread(Front(args), Front(found)) + [Last(found)]
    else Spread(Front(args), found) + [false]
  }

  ghost predicate AllSearchable(names: seq<string>) {
    forall i :: 0 <= i < |names| ==> names[i] != "" && NUL !in names[i]
  }

  lemma {:induction false} CountFound(s: string, names: seq<string>)
    requires AllSearchable(names)
    ensures |DeletedAll(s, names).0| == |names|
  {
    hide Deleted;
    if names == [] {
      NothingDeleted(s);
    } else {
      DeletedMore(s, names);
      CountFound(s, Front(names));
    }
  }

  lemma {:induction false} WantedPrefix(args: seq<Argument>, n: nat)
    requires n <= |args|
    ensures Wanted(args[..n]) <= Wanted(args)
  {
    if n == |args| {
      assert args[..n] == args;
    } else {
      WantedPrefix(Front(args), n);
      assert Front(args)[..n] == args[..n];
    }
  }

  // what the arguments so far have given
  ghost predicate DeletedSoFar(s: string, args: seq<Argument>, results: seq<bool>, left: string) {
    AllSearchable(Wanted(args)) ==>
      var (found, rest) := DeletedAll(s, Wanted(args));
      |found| == |Wanted(args)| && results == Spread(args, found) && left == rest
  }

  lemma OneMoreArgument(s: string, args: seq<Argument>, results: seq<bool>, left: string)
    requires args != [] && AllSearchable(Wanted(args)) && DeletedSoFar(s, Front(args), results, left)
    ensures var name := NameOf(Last(args));
            if name.Some? then
              name.value != ""
              && DeletedSoFar(s, args, results + [Deleted(left, name.value).0], Deleted(left, name.value).1)
            else DeletedSoFar(s, args, results + [false], left)
  {
    hide Deleted, DeletedAll;
    var names := Wanted(args);
    CountFound(s, names);
    if names != Wanted(Front(args)) {
      assert Front(names) == Wanted(Front(args));
      DeletedMore(s, names);
    }
  }

  lemma NoArguments(s: string)
    ensures DeletedSoFar(s, [], [], s)
  {
    NothingDeleted(s);
  }

  /**
   * field_del: the deletes of all arguments, with a result for each, then one trim of what must not be empty; or an
   * error when an argument is neither a name nor an id.
   */
  method FieldDel(spec: array<char>, args: seq<Argument>) returns (ok: bool, results: seq<bool>)
    requires NUL in spec[..] && args != [] && AllSearchable(Wanted(args))
    requires Tokens(DeletedAll(CString(spec[..]), Wanted(args)).1) != []
    modifies spec
    ensures ok <==> OtherType !in args
    ensures ok ==> NUL in spec[..]
    ensures ok ==>
      var (found, left) := DeletedAll(old(CString(spec[..])), Wanted(args));
      |found| == |Wanted(args)| && results == Spread(args, found) && CString(spec[..]) == Trimmed(left)
  {
    hide CString, Tokens, Trimmed, Deleted, DeletedAll, DeletedSoFar, Wanted, Spread;
    ghost var s := CString(spec[..]);
    results := [];
    NoArguments(s);
    for i := 0 to |args|
      invariant NUL in spec[..] && OtherType !in args[..i]
      invariant DeletedSoFar(s, args[..i], results, CString(spec[..]))
    {
      ghost var sofar := args[..i + 1];
      assert Front(sofar) == args[..i] && Last(sofar) == args[i];
      WantedPrefix(args, i + 1);
      OneMoreArgument(s, sofar, results, CString(spec[..]));
      SearchableAt(sofar);
      match NameOf(args[i])
      case Some(name) =>
        var ret := DeleteField(spec, name);
        results := results + [ret == 0];
      case None =>
        if args[i].OtherType? {
          return false, [];
        }
        results := results + [false];
    }
    assert args[..|args|] == args;
    DeletedInTheEnd(s, args, results, CString(spec[..]));
    Trim(spec);
    ok := true;
  }

  lemma SearchableAt(args: seq<Argument>)
    requires args != [] && AllSearchable(Wanted(args))
    ensures var name := NameOf(Last(args)); name.Some? ==> name.value != "" && NUL !in name.value
  {
    var names := Wanted(args);
    assert names != [] ==> Last(names) == names[|names| - 1];
  }

  lemma DeletedInTheEnd(s: string, args: seq<Argument>, results: seq<bool>, left: string)
    requires AllSearchable(Wanted(args)) && DeletedSoFar(s, args, results, left)
    ensures var (found, rest) := DeletedAll(s, Wanted(args));
            |found| == |Wanted(args)| && results == Spread(args, found) && left == rest
  {}

  // ---- what the arguments delete ----

  // by its name, or by its id
  predicate IsFor(a: Argument, f: Field) {
    a == ByName(f.name) || a == ById(Some(f.name))
  }

  lemma {:induction false} WantedIs(args: seq<Argument>, name: string)
    ensures name in Wanted(args) <==> ByName(name) in args || ById(Some(name)) in args
  {
    if args != [] {
      WantedIs(Front(args), name);
      assert args == Front(args) + [Last(args)];
    }
  }

  // where the results of the deletes are
  lemma {:induction false} SpreadAt(args: seq<Argument>, found: seq<bool>, i: nat)
    requires |found| == |Wanted(args)| && i < |args|
    ensures |Spread(args, found)| == |args|
    ensures var m := |Wanted(args[..i])|;
            if NameOf(args[i]).Some? then
              && m < |found| && Wanted(args)[..m] == Wanted(args[..i]) && Wanted(args)[m] == NameOf(args[i]).value
              && Spread(args, found)[i] == found[m]
            else !Spread(args, found)[i]
  {
    var n := |args| - 1;
    SpreadLength(args, found);
    if i == n {
      assert args[..i] == Front(args);
    } else {
      var front := if NameOf(args[n]).Some? then Front(found) else found;
      SpreadAt(Front(args), front, i);
      assert Front(args)[..i] == args[..i];
      SpreadLength(Front(args), front);
    }
  }

  lemma {:induction false} SpreadLength(args: seq<Argument>, found: seq<bool>)
    requires |found| == |Wanted(args)|
    ensures |Spread(args, found)| == |args|
  {
    if args != [] {
      SpreadLength(Front(args), if NameOf(Last(args)).Some? then Front(found) else found);
    }
  }

  /**
   * The fields that an argument is for, by name or by id, are gone after all deletes and a trim, and no others; and an
   * argument is answered with true when it is for a field that no argument before it is for. This holds when at each
   * delete no type is found before the name.
   */
  lemma ArgumentsDelete(fs: seq<Field>, args: seq<Argument>)
    requires FieldsOk(fs) && NamesOk(Wanted(args)) && NamesComeFirst(fs, Wanted(args))
    ensures forall i :: 0 <= i < |Wanted(args)| ==> Wanted(args)[i] != ""
    ensures var (found, left) := DeletedAll(Spec(fs), Wanted(args));
            && |found| == |Wanted(args)| && |Spread(args, found)| == |args|
            && Trimmed(left) == Spec(Filter((f: Field) => forall a :: a in args ==> !IsFor(a, f), fs))
            && forall i :: 0 <= i < |args| ==>
                 (Spread(args, found)[i] <==>
                   exists f :: f in fs && IsFor(args[i], f) && forall j :: 0 <= j < i ==> !IsFor(args[j], f))
  {
    hide IsToken, Trimmed, Spec, Deleted, DeletedAll, NamesComeFirst, FieldsOk, Wanted, Spread;
    var names := Wanted(args);
    DeletesThenTrim(fs, names);
    var (found, left) := DeletedAll(Spec(fs), names);
    SpreadLength(args, found);
    forall f: Field
      ensures f.name !in names <==> forall a :: a in args ==> !IsFor(a, f)
    {
      WantedIs(args, f.name);
    }
    FilterSame((f: Field) => f.name !in names, (f: Field) => forall a :: a in args ==> !IsFor(a, f), fs);
    forall i | 0 <= i < |args|
      ensures Spread(args, found)[i] <==>
        exists f :: f in fs && IsFor(args[i], f) && forall j :: 0 <= j < i ==> !IsFor(args[j], f)
    {
      ResultIs(fs, args, found, i);
    }
  }

  lemma ResultIs(fs: seq<Field>, args: seq<Argument>, found: seq<bool>, i: nat)
    requires |found| == |Wanted(args)| && i < |args|
    requires forall m :: 0 <= m < |found| ==>
      (found[m] <==> exists f :: f in WithoutAll(fs, Wanted(args)[..m]) && f.name == Wanted(args)[m])
    ensures |Spread(args, found)| == |args|
    ensures Spread(args, found)[i] <==>
      exists f :: f in fs && IsFor(args[i], f) && forall j :: 0 <= j < i ==> !IsFor(args[j], f)
  {
    hide Wanted, Spread, Filter;
    SpreadAt(args, found, i);
    var before := Wanted(args[..i]);
    FilterHolds((f: Field) => f.name !in before, fs);
    forall f: Field
      ensures f.name !in before <==> forall j :: 0 <= j < i ==> !IsFor(args[j], f)
    {
      WantedIs(args[..i], f.name);
      NoneBefore(args, i, f);
    }
  }

  lemma NoneBefore(args: seq<Argument>, i: nat, f: Field)
    requires i <= |args|
    ensures (forall j :: 0 <= j < i ==> !IsFor(args[j], f))
            <==> ByName(f.name) !in args[..i] && ById(Some(f.name)) !in args[..i]
  {
    assert forall j :: 0 <= j < i ==> args[..i][j] == args[j];
  }
}
