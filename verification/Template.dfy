/** Template specifications of luamodule/template.c, "type name,type name,...", as strings and as lists of tokens. */
module Template {
  predicate IsSpace(c: char) {
    c == ' ' || '\t' <= c <= '\r'
  }

  predicate IsSeparator(c: char) {
    IsSpace(c) || c == ','
  }

  predicate IsAlnum(c: char) {
    'a' <= c <= 'z' || 'A' <= c <= 'Z' || '0' <= c <= '9'
  }

  predicate IsToken(t: string) {
    t != "" && forall c :: c in t ==> !IsSeparator(c)
  }

  function Last<T>(s: seq<T>): T
    requires s != []
  {
    s[|s| - 1]
  }

  function Front<T>(s: seq<T>): seq<T>
    requires s != []
  {
    s[..|s| - 1]
  }

  // the longest pieces without separators
  function Tokens(s: string): (ts: seq<string>)
    ensures s != "" && !IsSeparator(s[|s| - 1]) ==> ts != []
  {
    if s == "" then [] else Extended(Tokens(Front(s)), Front(s), Last(s))
  }

  // a separator ends a token, another character starts one or goes on with one
  function Extended(ts: seq<string>, s: string, c: char): seq<string>
    requires s != "" && !IsSeparator(Last(s)) ==> ts != []
  {
    if IsSeparator(c) then ts
    else if s == "" || IsSeparator(Last(s)) then ts + [[c]]
    else Front(ts) + [Last(ts) + [c]]
  }

  ghost predicate AllAreTokens(ts: seq<string>) {
    forall i :: 0 <= i < |ts| ==> IsToken(ts[i])
  }

  lemma {:induction false} TokensAreTokens(s: string)
    ensures AllAreTokens(Tokens(s))
  {
    if s != "" {
      TokensAreTokens(Front(s));
    }
  }

  // ---- the clean form ----

  function Between(m: nat): char {
    if m % 2 == 1 then ' ' else ','
  }

  // the tokens, with a space after each type and a comma after each name
  function Render(ts: seq<string>): string {
    if ts == [] then ""
    else if |ts| == 1 then ts[0]
    else Render(Front(ts)) + [Between(|ts| - 1)] + Last(ts)
  }

  // A type without a name keeps the space that follows it.
  function Trimmed(s: string): string {
    var ts := Tokens(s);
    if s != "" && IsSeparator(Last(s)) && |ts| % 2 == 1 then Render(ts) + " " else Render(ts)
  }

  // ---- the automaton of template_spec_trim ----

  datatype State = Type | Name | SepType | SepName

  // the next state, and what is written
  function Step(state: State, c: char): (State, string) {
    match state
    case Type => if !IsSeparator(c) then (Type, [c]) else (SepName, " ")
    case Name => if !IsSeparator(c) then (Name, [c]) else (SepType, ",")
    case SepType => if !IsSeparator(c) then (Type, [c]) else (SepType, "")
    case SepName => if !IsSeparator(c) then (Name, [c]) else (SepName, "")
  }

  function Run(start: State, s: string): (State, string) {
    if s == "" then (start, "")
    else
      var (state, out) := Run(start, Front(s));
      var (next, more) := Step(state, Last(s));
      (next, out + more)
  }

  // the separator after the last token
  function TailOf(ts: seq<string>, s: string): string {
    if s == "" || !IsSeparator(Last(s)) || ts == [] then "" else [Between(|ts|)]
  }

  function StateOf(ts: seq<string>, s: string): State {
    var n := |ts|;
    if n == 0 || s == "" then SepType
    else if IsSeparator(Last(s)) then (if n % 2 == 1 then SepName else SepType)
    else if n % 2 == 1 then Type else Name
  }

  lemma RenderAppend(ts: seq<string>, t: string)
    ensures Render(ts + [t]) == if ts == [] then t else Render(ts) + [Between(|ts|)] + t
  {
    assert Front(ts + [t]) == ts;
  }

  lemma RenderExtends(ts: seq<string>, c: char)
    requires ts != []
    ensures Render(Front(ts) + [Last(ts) + [c]]) == Render(ts) + [c]
  {
    hide Render, Between;
    var front, t := Front(ts), Last(ts);
    RenderAppend(front, t + [c]);
    RenderAppend(front, t);
    assert ts == front + [t];
    Associative(Render(front) + [Between(|front|)], t, [c]);
  }

  lemma Associative(x: string, y: string, z: string)
    ensures x + (y + z) == x + y + z
  {}

  lemma StepRenders(ts: seq<string>, s: string, c: char)
    requires s != "" && !IsSeparator(Last(s)) ==> ts != []
    requires s == "" ==> ts == []
    ensures var (state, more) := Step(StateOf(ts, s), c);
            && state == StateOf(Extended(ts, s, c), s + [c])
            && Render(ts) + TailOf(ts, s) + more == Render(Extended(ts, s, c)) + TailOf(Extended(ts, s, c), s + [c])
  {
    hide Render, Step, StateOf, TailOf, Between;
    if IsSeparator(c) {
      StepAtSeparator(ts, s, c);
      Associative(Render(ts), TailOf(ts, s), Step(StateOf(ts, s), c).1);
    } else if s == "" || IsSeparator(Last(s)) {
      StepStarts(ts, s, c);
      RenderAppend(ts, [c]);
      assert ts == [] ==> Render(ts) == "" by { NothingRendered(); }
    } else {
      StepGoesOn(ts, s, c);
      RenderExtends(ts, c);
      assert Render(ts) + "" + [c] == Render(ts) + [c] + "";
    }
  }

  lemma StepAtSeparator(ts: seq<string>, s: string, c: char)
    requires IsSeparator(c) && (s != "" && !IsSeparator(Last(s)) ==> ts != []) && (s == "" ==> ts == [])
    ensures var (state, more) := Step(StateOf(ts, s), c);
            state == StateOf(ts, s + [c]) && TailOf(ts, s) + more == TailOf(ts, s + [c])
  {}

  lemma StepStarts(ts: seq<string>, s: string, c: char)
    requires !IsSeparator(c) && (s == "" || IsSeparator(Last(s))) && (s == "" ==> ts == [])
    ensures var (state, more) := Step(StateOf(ts, s), c);
            && state == StateOf(ts + [[c]], s + [c]) && more == [c] && TailOf(ts + [[c]], s + [c]) == ""
            && TailOf(ts, s) == if ts == [] then "" else [Between(|ts|)]
  {}

  lemma StepGoesOn(ts: seq<string>, s: string, c: char)
    requires !IsSeparator(c) && s != "" && !IsSeparator(Last(s)) && ts != []
    ensures var (state, more) := Step(StateOf(ts, s), c);
            var us := Front(ts) + [Last(ts) + [c]];
            state == StateOf(us, s + [c]) && more == [c] && TailOf(us, s + [c]) == "" && TailOf(ts, s) == ""
  {}

  /** The automaton writes the clean form, and the separator that comes next. */
  lemma {:induction false} RunRenders(s: string)
    ensures Run(SepType, s) == (StateOf(Tokens(s), s), Render(Tokens(s)) + TailOf(Tokens(s), s))
  {
    hide Step, Render, Extended, StateOf, TailOf;
    if s == "" {
      NothingRendered();
    } else {
      RunRenders(Front(s));
      StepRenders(Tokens(Front(s)), Front(s), Last(s));
      assert s == Front(s) + [Last(s)];
    }
  }

  lemma NothingRendered()
    ensures StateOf([], "") == SepType && Render([]) == "" && Render([]) + TailOf([], "") == ""
  {}

  // It makes no difference that the code starts in another state when the first character is alphanumeric.
  lemma {:induction false} SameStart(s: string)
    requires s != "" && !IsSeparator(s[0])
    ensures Run(Type, s) == Run(SepType, s)
  {
    if |s| == 1 {
      assert Front(s) == "";
    } else {
      SameStart(Front(s));
    }
  }

  // ---- tokens of a concatenation ----

  lemma ExtendedConcat(x: seq<string>, y: seq<string>, a: string, b: string, c: char)
    requires if b == "" then y == [] && (a == "" || IsSeparator(Last(a)) || IsSeparator(c))
             else !IsSeparator(Last(b)) ==> y != []
    requires a != "" && !IsSeparator(Last(a)) ==> x != []
    ensures Extended(x + y, a + b, c) == x + Extended(y, b, c)
  {
    if b == "" {
      assert a + b == a && x + y == x;
    } else {
      assert Last(a + b) == Last(b);
      if !IsSeparator(c) && !IsSeparator(Last(b)) {
        assert Front(x + y) == x + Front(y) && Last(x + y) == Last(y);
      }
    }
  }

  lemma {:induction false} TokensConcat(a: string, b: string)
    requires a == "" || b == "" || IsSeparator(Last(a)) || IsSeparator(b[0])
    ensures Tokens(a + b) == Tokens(a) + Tokens(b)
  {
    hide Extended;
    if b == "" {
      assert a + b == a;
    } else {
      assert Front(a + b) == a + Front(b) && Last(a + b) == Last(b);
      TokensConcat(a, Front(b));
      ExtendedConcat(Tokens(a), Tokens(Front(b)), a, Front(b), Last(b));
    }
  }

  lemma {:induction false} TokensOfToken(t: string)
    requires IsToken(t)
    ensures Tokens(t) == [t]
  {
    assert t == Front(t) + [Last(t)] && Last(t) in t;
    if |t| > 1 {
      TokensOfToken(Front(t));
      assert Last(Front(t)) in t;
    }
  }

  lemma NoToken(c: char)
    requires IsSeparator(c)
    ensures Tokens([c]) == []
  {
    assert Front([c]) == "";
  }

  /** The clean form loses nothing: its tokens are those it was made of. */
  lemma {:induction false} TokensOfRender(ts: seq<string>)
    requires AllAreTokens(ts)
    ensures Tokens(Render(ts)) == ts
  {
    hide Tokens, IsToken, Render;
    if ts == [] {
      assert Tokens(Render([])) == [] by { RenderNothing(); }
    } else {
      var front, t := Front(ts), Last(ts);
      assert ts == front + [t];
      TokensOfRender(front);
      TokensOfToken(t);
      RenderAppend(front, t);
      if front != [] {
        var c := Between(|front|);
        NoToken(c);
        TokensConcat(Render(front), [c]);
        TokensConcat(Render(front) + [c], t);
        assert Render(front) + [c] + t == Render(ts);
      }
    }
  }

  lemma RenderNothing()
    ensures Tokens(Render([])) == []
  {}

  /** Trimming keeps the tokens, and trimming again changes nothing. */
  lemma TrimKeepsTokens(s: string)
    ensures Tokens(Trimmed(s)) == Tokens(s)
    ensures Tokens(s) != [] ==> Trimmed(Trimmed(s)) == Trimmed(s)
  {
    hide Tokens, Render;
    var ts := Tokens(s);
    TokensAreTokens(s);
    TokensOfRender(ts);
    TokensConcat(Render(ts), " ");
    NoToken(' ');
    if ts != [] {
      RenderEnds(ts);
    }
  }

  lemma RenderEnds(ts: seq<string>)
    requires ts != [] && AllAreTokens(ts)
    ensures Render(ts) != "" && !IsSeparator(Last(Render(ts)))
  {
    RenderAppend(Front(ts), Last(ts));
    assert ts == Front(ts) + [Last(ts)];
    assert IsToken(ts[|ts| - 1]);
    assert Last(Last(ts)) in Last(ts);
    assert Last(Render(ts)) == Last(Last(ts));
  }

  // ---- pairs ----

  datatype Field = Field(type_: string, name: string)

  function Flatten(fs: seq<Field>): seq<string> {
    if fs == [] then [] else Flatten(Front(fs)) + [Last(fs).type_, Last(fs).name]
  }

  // "type name,type name"
  function Spec(fs: seq<Field>): string {
    if fs == [] then ""
    else if |fs| == 1 then fs[0].type_ + " " + fs[0].name
    else Spec(Front(fs)) + "," + Last(fs).type_ + " " + Last(fs).name
  }

  lemma {:induction false} RenderPairs(fs: seq<Field>)
    ensures Render(Flatten(fs)) == Spec(fs) && |Flatten(fs)| == 2 * |fs|
  {
    hide Render;
    if fs == [] {
      assert Render([]) == "" by { RenderEmpty(); }
    } else {
      RenderPairs(Front(fs));
      var ts, f := Flatten(Front(fs)), Last(fs);
      RenderAppend(ts, f.type_);
      RenderAppend(ts + [f.type_], f.name);
      assert ts + [f.type_] + [f.name] == Flatten(fs);
      if |fs| == 1 {
        assert Front(fs) == [];
      } else {
        assert Between(|ts|) == ',' && Between(|ts| + 1) == ' ';
        assert Spec(fs) == Spec(Front(fs)) + [','] + f.type_ + [' '] + f.name;
      }
    }
  }

  lemma RenderEmpty()
    ensures Render([]) == ""
  {}

  /** A string whose tokens are pairs is trimmed to exactly the list of these pairs. */
  lemma TrimmedPairs(s: string, fs: seq<Field>)
    requires Tokens(s) == Flatten(fs)
    ensures Trimmed(s) == Spec(fs)
  {
    hide Tokens, Render, Spec, Flatten;
    RenderPairs(fs);
  }

  /** Any string with an even number of tokens is such a string. */
  lemma {:induction false} EvenTokensArePairs(ts: seq<string>) returns (fs: seq<Field>)
    requires |ts| % 2 == 0
    ensures ts == Flatten(fs)
  {
    if ts == [] {
      fs := [];
    } else {
      var n := |ts|;
      var rest := EvenTokensArePairs(ts[..n - 2]);
      fs := rest + [Field(ts[n - 2], ts[n - 1])];
      assert Front(fs) == rest;
      assert ts == ts[..n - 2] + [ts[n - 2], ts[n - 1]];
    }
  }

  // ---- appending fields ----

  // what template_spec_construct makes of a specification and its arguments, before it trims
  function Appended(spec: string, fields: seq<string>): string {
    if fields == [] then spec else Appended(spec, Front(fields)) + "," + Last(fields)
  }

  function AllTokens(fields: seq<string>): seq<string> {
    if fields == [] then [] else AllTokens(Front(fields)) + Tokens(Last(fields))
  }

  /** The specification that is constructed has the old tokens and then those of each argument. */
  lemma AppendedTokens(spec: string, fields: seq<string>)
    ensures Tokens(Trimmed(Appended(spec, fields))) == Tokens(spec) + AllTokens(fields)
  {
    TrimKeepsTokens(Appended(spec, fields));
    TokensOfAppended(spec, fields);
  }

  lemma {:induction false} TokensOfAppended(spec: string, fields: seq<string>)
    ensures Tokens(Appended(spec, fields)) == Tokens(spec) + AllTokens(fields)
  {
    hide Tokens;
    if fields != [] {
      TokensOfAppended(spec, Front(fields));
      var a := Appended(spec, Front(fields));
      NoToken(',');
      TokensConcat(a, ",");
      TokensConcat(a + ",", Last(fields));
      assert Tokens(Appended(spec, fields)) == Tokens(a) + Tokens(Last(fields));
      assert Tokens(spec) + AllTokens(Front(fields)) + Tokens(Last(fields))
             == Tokens(spec) + (AllTokens(Front(fields)) + Tokens(Last(fields)));
    }
  }

  // ---- tokens of a text of words ----

  // white space and commas only
  predicate IsGap(g: string) {
    forall c :: c in g ==> c in " ,\t\n\r" || c as int == 11 || c as int == 12
  }

  predicate IsWord(w: string) {
    w != "" && forall c :: c in w ==> c !in " ,\t\n\r" && c as int != 11 && c as int != 12
  }

  // words, each with the gap that follows it, after a first gap
  function Text(first: string, words: seq<(string, string)>): string {
    if words == [] then first
    else
      var n := |words| - 1;
      Text(first, words[..n]) + words[n].0 + words[n].1
  }

  function WordsOf(words: seq<(string, string)>): seq<string> {
    seq(|words|, i requires 0 <= i < |words| => words[i].0)
  }

  lemma {:induction false} TokensOfGap(g: string)
    requires IsGap(g)
    ensures Tokens(g) == []
  {
    if g != "" {
      assert Last(g) in g && g == Front(g) + [Last(g)];
      TokensOfGap(Front(g));
    }
  }

  lemma WordIsToken(w: string)
    requires IsWord(w)
    ensures IsToken(w)
  {}

  lemma GapEnds(g: string)
    requires IsGap(g) && g != ""
    ensures IsSeparator(g[0]) && IsSeparator(Last(g))
  {
    assert g[0] in g && Last(g) in g;
  }

  /** The tokens of any text are its words, whatever gaps there are between them. */
  lemma {:induction false} TokensOfText(first: string, words: seq<(string, string)>)
    requires IsGap(first)
    requires forall i :: 0 <= i < |words| ==> IsWord(words[i].0) && IsGap(words[i].1)
    requires forall i :: 0 <= i < |words| - 1 ==> words[i].1 != ""
    ensures Tokens(Text(first, words)) == WordsOf(words)
  {
    hide Tokens, IsGap, IsWord, IsToken;
    if words == [] {
      TokensOfGap(first);
    } else {
      var n := |words| - 1;
      var before, word, gap := Text(first, words[..n]), words[n].0, words[n].1;
      TokensOfText(first, words[..n]);
      EndsInGap(first, words[..n]);
      WordIsToken(word);
      TokensOfToken(word);
      TokensConcat(before, word);
      TokensOfGap(gap);
      if gap != "" {
        GapEnds(gap);
      }
      TokensConcat(before + word, gap);
      assert WordsOf(words) == WordsOf(words[..n]) + [word];
    }
  }

  lemma EndsInGap(first: string, words: seq<(string, string)>)
    requires IsGap(first) && forall i :: 0 <= i < |words| ==> IsGap(words[i].1) && words[i].1 != ""
    ensures Text(first, words) == "" || IsSeparator(Last(Text(first, words)))
  {
    hide IsGap;
    if words == [] {
      if first != "" {
        GapEnds(first);
      }
    } else {
      var gap := words[|words| - 1].1;
      GapEnds(gap);
      assert Last(Text(first, words)) == Last(gap);
    }
  }
}
