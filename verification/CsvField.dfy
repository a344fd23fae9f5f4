/** The field reader of logreplay/logreplay.cpp. */
module CsvField {
  const NO_CHAR: char := '\0'

  // a string stream: a line and the position of the next character
  class Stream {
    const line: string
    var pos: nat

    predicate Valid()
      reads this
    {
      pos <= |line|
    }

    constructor (line: string)
      ensures Valid() && this.line == line && pos == 0
    {
      this.line := line;
      pos := 0;
    }

    // get_next_field
    method GetNextField() returns (column: string)
      requires Valid()
      modifies `pos
      ensures Valid() && (column, pos) == NextField(line, old(pos))
    {
      if pos < |line| && line[pos] == '"' {
        pos := pos + 1;
        column := GetRest(1);
      } else {
        column := GetRest(0);
      }
    }

    // its loop, after so many quotes at the beginning
    method GetRest(firstQuotes: nat) returns (column: string)
      requires Valid()
      modifies `pos
      ensures Valid() && (column, pos) == Scan(line, old(pos), Reader(firstQuotes, 0, NO_CHAR))
    {
      hide Scan, Next;
      column := "";
      var quotes, inQuotes := firstQuotes, 0;
      var prev := NO_CHAR;
      var fin := false;
      ghost var (whole, end) := Scan(line, pos, Reader(quotes, inQuotes, prev));
      assert (whole, end) == Scan(line, pos, Reader(firstQuotes, 0, NO_CHAR));
      while !fin && pos < |line|
        invariant Valid()
        invariant fin ==> (whole, end) == (column, pos)
        invariant !fin ==>
          var (rest, last) := Scan(line, pos, Reader(quotes, inQuotes, prev));
          whole == column + rest && end == last
        decreases !fin, |line| - pos
      {
        ScanNext(line, pos, Reader(quotes, inQuotes, prev));
        var ch := line[pos];
        pos := pos + 1;
        ghost var was := column;
        column, fin, quotes, inQuotes := Take(ch, column, quotes, inQuotes, prev);
        prev := ch;
      }
      if !fin {
        ScanEnds(line, pos, Reader(quotes, inQuotes, prev));
        assert column + "" == column;
      }
    }

    // the body of the loop
    static method Take(ch: char, column: string, quotes: nat, inQuotes: nat, prev: char)
      returns (column': string, fin: bool, quotes': nat, inQuotes': nat)
      ensures var (done, out, r) := Next(Reader(quotes, inQuotes, prev), ch);
              fin == done && column' == column + out && r == Reader(quotes', inQuotes', ch)
    {
      column', fin, quotes', inQuotes' := column, false, quotes, inQuotes;
      if ch == '"' {
        if prev != '\\' {
          quotes' := quotes + 1;
          inQuotes' := inQuotes + 1;
        }
      } else if ch == ',' {
        if quotes' == 0 || (prev == '"' && quotes' % 2 == 0) {
          fin := true;
        }
      }
      if (ch != '"' || inQuotes' % 2 == 0) && !fin {
        column' := column + [ch];
      }
    }

    // one call for each field of the line
    method GetFields(n: nat) returns (columns: seq<string>)
      requires Valid()
      modifies `pos
      ensures Valid() && columns == NextFields(line, old(pos), n)
    {
      columns := [];
      ghost var start := pos;
      while |columns| < n
        invariant Valid() && |columns| <= n
        invariant columns + NextFields(line, pos, n - |columns|) == NextFields(line, start, n)
      {
        var column := GetNextField();
        columns := columns + [column];
      }
    }
  }

  // the counts of quotes, those within the field apart, and the character before
  datatype Reader = Reader(quotes: nat, inQuotes: nat, prev: char)

  // whether the field ends, what is added to it, and the counts then
  function Next(r: Reader, ch: char): (bool, string, Reader) {
    var counted := if ch == '"' && r.prev != '\\' then 1 else 0;
    var next := Reader(r.quotes + counted, r.inQuotes + counted, ch);
    var fin := ch == ',' && (r.quotes == 0 || (r.prev == '"' && r.quotes % 2 == 0));
    (fin, if (ch != '"' || next.inQuotes % 2 == 0) && !fin then [ch] else "", next)
  }

  // the rest of a field and the position after it
  function Scan(line: string, pos: nat, r: Reader): (result: (string, nat))
    requires pos <= |line|
    ensures pos <= result.1 <= |line|
    decreases |line| - pos
  {
    if pos == |line| then ("", pos)
    else
      var (fin, out, next) := Next(r, line[pos]);
      if fin then ("", pos + 1)
      else
        var (rest, end) := Scan(line, pos + 1, next);
        (out + rest, end)
  }

  lemma ScanNext(line: string, pos: nat, r: Reader)
    requires pos < |line|
    ensures var (fin, out, next) := Next(r, line[pos]);
            if fin then out == "" && Scan(line, pos, r) == ("", pos + 1)
            else Scan(line, pos, r) == (out + Scan(line, pos + 1, next).0, Scan(line, pos + 1, next).1)
  {}

  lemma ScanEnds(line: string, pos: nat, r: Reader)
    requires pos == |line|
    ensures Scan(line, pos, r) == ("", pos)
  {}

  function NextField(line: string, pos: nat): (r: (string, nat))
    requires pos <= |line|
    ensures pos <= r.1 <= |line|
  {
    if pos < |line| && line[pos] == '"' then Scan(line, pos + 1, Reader(1, 0, NO_CHAR))
    else Scan(line, pos, Reader(0, 0, NO_CHAR))
  }

  function NextFields(line: string, pos: nat, n: nat): seq<string>
    requires pos <= |line|
    decreases n
  {
    if n == 0 then []
    else
      var (column, next) := NextField(line, pos);
      [column] + NextFields(line, next, n - 1)
  }

  // ---- lines that are written field by field ----

  datatype Column = Bare(text: string) | Quoted(text: string)

  function Doubled(text: string): string {
    if text == "" then ""
    else if text[0] == '"' then ['"', '"'] + Doubled(text[1..])
    else [text[0]] + Doubled(text[1..])
  }

  function Encode(c: Column): string {
    match c
    case Bare(text) => text
    case Quoted(text) => ['"'] + Doubled(text) + ['"']
  }

  function Join(cs: seq<Column>): string {
    if cs == [] then ""
    else if |cs| == 1 then Encode(cs[0])
    else Encode(cs[0]) + [','] + Join(cs[1..])
  }

  function Texts(cs: seq<Column>): seq<string> {
    if cs == [] then [] else [cs[0].text] + Texts(cs[1..])
  }

  // the columns of section 2 of RFC 4180
  predicate Rfc4180(c: Column) {
    c.Bare? ==> forall i :: 0 <= i < |c.text| ==> c.text[i] != ',' && c.text[i] != '"'
  }

  // A walk over the text with a flag, which each quote directly after a backslash flips. No comma may follow a quote
  // while the flag is set, and at the end it must be set exactly after a backslash.
  predicate Walk(text: string, prev: char, flag: bool) {
    if text == "" then flag == (prev == '\\')
    else if text[0] == '"' then Walk(text[1..], '"', flag != (prev == '\\'))
    else if text[0] == ',' && prev == '"' && flag then false
    else Walk(text[1..], text[0], flag)
  }

  predicate Readable(c: Column) {
    c.Quoted? ==> Walk(c.text, NO_CHAR, false)
  }

  // no backslash at the end or directly before a quote
  predicate NoEscapes(text: string) {
    forall i :: 0 <= i < |text| && text[i] == '\\' ==> i + 1 < |text| && text[i + 1] != '"'
  }

  // what is left of the line at a position
  predicate Ahead(line: string, pos: nat, s: string) {
    pos <= |line| && line[pos..] == s
  }

  // after a field there is a comma, or the end
  predicate Follows(rest: string) {
    rest == "" || rest[0] == ','
  }

  function Past(rest: string): nat {
    if rest == "" then 0 else 1
  }

  lemma AheadMoves(line: string, pos: nat, c: char, s: string)
    requires Ahead(line, pos, [c] + s)
    ensures pos < |line| && line[pos] == c && Ahead(line, pos + 1, s)
  {
    assert line[pos] == ([c] + s)[0];
    assert line[pos + 1..] == line[pos..][1..];
  }

  lemma ScanPast(line: string, pos: nat, r: Reader, rest: string)
    requires Ahead(line, pos, rest) && Follows(rest)
    requires r.quotes == 0 || (r.prev == '"' && r.quotes % 2 == 0)
    ensures Scan(line, pos, r) == ("", pos + Past(rest))
  {
    if rest == "" {
      ScanEnds(line, pos, r);
    } else {
      assert rest == [','] + rest[1..];
      AheadMoves(line, pos, ',', rest[1..]);
      ScanNext(line, pos, r);
    }
  }

  lemma {:induction false} ScanBare(line: string, pos: nat, text: string, rest: string, prev: char)
    requires Rfc4180(Bare(text)) && Follows(rest) && Ahead(line, pos, text + rest)
    ensures Scan(line, pos, Reader(0, 0, prev)) == (text, pos + |text| + Past(rest))
    decreases |text|
  {
    hide Scan, Ahead;
    var r := Reader(0, 0, prev);
    if text == "" {
      assert text + rest == rest;
      ScanPast(line, pos, r, rest);
    } else {
      assert text + rest == [text[0]] + (text[1..] + rest);
      AheadMoves(line, pos, text[0], text[1..] + rest);
      ScanNext(line, pos, r);
      ScanBare(line, pos + 1, text[1..], rest, text[0]);
      assert text == [text[0]] + text[1..];
    }
  }

  // Within a quoted field one quote more has been counted than inner ones; the flag is set when their number is even.
  ghost predicate Inside(r: Reader, prev: char, flag: bool) {
    r.quotes == r.inQuotes + 1 && r.prev == prev && flag == (r.quotes % 2 == 0)
  }

  // what the closing quote does
  lemma ScanClosing(line: string, pos: nat, rest: string, r: Reader, flag: bool)
    requires Inside(r, r.prev, flag) && Follows(rest) && Ahead(line, pos, ['"'] + rest)
    ensures if Walk("", r.prev, flag) then Scan(line, pos, r) == ("", pos + 1 + Past(rest))
            else Scan(line, pos, r).0 != ""
  {
    hide Scan, Ahead, Follows, Past;
    AheadMoves(line, pos, '"', rest);
    ScanNext(line, pos, r);
    var next := Next(r, '"').2;
    if Walk("", r.prev, flag) {
      ScanPast(line, pos + 1, next, rest);
      assert Scan(line, pos, r).0 == "" + "" == "";
    } else {
      assert Scan(line, pos, r).0 == ['"'] + Scan(line, pos + 1, next).0;
    }
  }

  // the two quotes that stand for one are read as one, in any state, and flip the flag after a backslash
  lemma ScanDoubled(line: string, pos: nat, more: string, r: Reader, flag: bool) returns (next: Reader)
    requires Inside(r, r.prev, flag) && Ahead(line, pos, ['"', '"'] + more)
    ensures pos + 2 <= |line| && Ahead(line, pos + 2, more)
    ensures Inside(next, '"', flag != (r.prev == '\\'))
    ensures Scan(line, pos, r).0 == ['"'] + Scan(line, pos + 2, next).0
    ensures Scan(line, pos, r).1 == Scan(line, pos + 2, next).1
  {
    hide Scan, Ahead;
    assert ['"', '"'] + more == ['"'] + (['"'] + more);
    AheadMoves(line, pos, '"', ['"'] + more);
    AheadMoves(line, pos + 1, '"', more);
    ScanNext(line, pos, r);
    var first := Next(r, '"').2;
    ScanNext(line, pos + 1, first);
    next := Next(first, '"').2;
    assert Next(r, '"').1 + (Next(first, '"').1 + Scan(line, pos + 2, next).0) == ['"'] + Scan(line, pos + 2, next).0;
  }

  /** A quoted field is read back exactly when its text passes the walk; otherwise something else is read. */
  lemma {:induction false} ScanQuoted(line: string, pos: nat, text: string, rest: string, r: Reader, flag: bool)
    requires Inside(r, r.prev, flag) && Follows(rest) && Ahead(line, pos, Doubled(text) + ['"'] + rest)
    ensures if Walk(text, r.prev, flag) then Scan(line, pos, r) == (text, pos + |Doubled(text)| + 1 + Past(rest))
            else Scan(line, pos, r).0 != text
    decreases |text|
  {
    hide Scan, Ahead, Follows, Past;
    if text == "" {
      assert Doubled(text) + ['"'] + rest == ['"'] + rest;
      ScanClosing(line, pos, rest, r, flag);
    } else {
      var more := Doubled(text[1..]) + ['"'] + rest;
      assert text == [text[0]] + text[1..];
      if text[0] == '"' {
        assert Doubled(text) + ['"'] + rest == ['"', '"'] + more;
        var next := ScanDoubled(line, pos, more, r, flag);
        ScanQuoted(line, pos + 2, text[1..], rest, next, flag != (r.prev == '\\'));
        SameHead('"', Scan(line, pos + 2, next).0, text[1..]);
      } else {
        assert Doubled(text) + ['"'] + rest == [text[0]] + more;
        AheadMoves(line, pos, text[0], more);
        ScanNext(line, pos, r);
        var next := Next(r, text[0]).2;
        if !Next(r, text[0]).0 {
          ScanQuoted(line, pos + 1, text[1..], rest, next, flag);
          SameHead(text[0], Scan(line, pos + 1, next).0, text[1..]);
        }
      }
    }
  }

  lemma SameHead(c: char, s: string, t: string)
    ensures [c] + s == [c] + t <==> s == t
  {
    assert ([c] + s)[1..] == s && ([c] + t)[1..] == t;
  }

  // Without such backslashes the flag is never set.
  lemma {:induction false} NoEscapesWalk(text: string, prev: char)
    requires NoEscapes(text) && (prev == '\\' ==> text != "" && text[0] != '"')
    ensures Walk(text, prev, false)
    decreases |text|
  {
    hide NoEscapes;
    if text != "" {
      NoEscapesAfter(text);
      NoEscapesWalk(text[1..], text[0]);
    }
  }

  lemma NoEscapesAfter(text: string)
    requires NoEscapes(text) && text != ""
    ensures NoEscapes(text[1..]) && (text[0] == '\\' ==> text[1..] != "" && text[1..][0] != '"')
  {
    forall i | 0 <= i < |text[1..]| && text[1..][i] == '\\'
      ensures i + 1 < |text[1..]| && text[1..][i + 1] != '"'
    {
      assert text[i + 1] == '\\';
    }
  }

  lemma FieldIsRead(line: string, pos: nat, c: Column, rest: string)
    requires Rfc4180(c) && Follows(rest) && Ahead(line, pos, Encode(c) + rest)
    ensures if Readable(c) then NextField(line, pos) == (c.text, pos + |Encode(c)| + Past(rest))
            else NextField(line, pos).0 != c.text
  {
    hide Scan, Walk, Follows, Past;
    match c
    case Bare(text) => BareIsRead(line, pos, text, rest);
    case Quoted(text) =>
      assert Encode(c) + rest == ['"'] + (Doubled(text) + ['"'] + rest);
      AheadMoves(line, pos, '"', Doubled(text) + ['"'] + rest);
      ScanQuoted(line, pos + 1, text, rest, Reader(1, 0, NO_CHAR), false);
  }

  lemma BareIsRead(line: string, pos: nat, text: string, rest: string)
    requires Rfc4180(Bare(text)) && Follows(rest) && Ahead(line, pos, text + rest)
    ensures NextField(line, pos) == (text, pos + |text| + Past(rest))
  {
    hide Scan;
    assert pos < |line| ==> line[pos] == (text + rest)[0];
    ScanBare(line, pos, text, rest, NO_CHAR);
  }

  ghost predicate AllRfc4180(cs: seq<Column>) {
    forall i :: 0 <= i < |cs| ==> Rfc4180(cs[i])
  }

  ghost predicate AllReadable(cs: seq<Column>) {
    forall i :: 0 <= i < |cs| ==> Readable(cs[i])
  }

  lemma FirstAndRest(cs: seq<Column>)
    requires cs != []
    ensures AllRfc4180(cs) <==> Rfc4180(cs[0]) && AllRfc4180(cs[1..])
    ensures AllReadable(cs) <==> Readable(cs[0]) && AllReadable(cs[1..])
  {
    hide Rfc4180, Readable;
    assert cs == [cs[0]] + cs[1..];
  }

  /**
   * Reading as many fields as were joined yields their texts, if and only if the text of each quoted one passes the
   * walk.
   */
  lemma {:induction false} ReadingUndoesJoining(line: string, pos: nat, cs: seq<Column>)
    requires AllRfc4180(cs) && Ahead(line, pos, Join(cs))
    ensures NextFields(line, pos, |cs|) == Texts(cs) <==> AllReadable(cs)
    decreases |cs|
  {
    hide Rfc4180, Readable, Encode, Join, Texts, NextField, NextFields, Ahead, AllRfc4180, AllReadable, Past, Rest;
    if cs == [] {
      NothingToRead(line, pos, cs);
    } else {
      JoinSplits(line, pos, cs);
      FirstAndRest(cs);
      FieldIsRead(line, pos, cs[0], Rest(cs));
      FirstOf(line, pos, cs);
      if Readable(cs[0]) {
        ReadingUndoesJoining(line, pos + |Encode(cs[0])| + Past(Rest(cs)), cs[1..]);
      }
    }
  }

  lemma NothingToRead(line: string, pos: nat, cs: seq<Column>)
    requires cs == [] && Ahead(line, pos, Join(cs))
    ensures NextFields(line, pos, |cs|) == Texts(cs) && AllReadable(cs)
  {}

  // the comma and the fields after the first one
  function Rest(cs: seq<Column>): string
    requires cs != []
  {
    if |cs| == 1 then "" else [','] + Join(cs[1..])
  }

  lemma JoinSplits(line: string, pos: nat, cs: seq<Column>)
    requires cs != [] && Ahead(line, pos, Join(cs))
    ensures Follows(Rest(cs)) && Ahead(line, pos, Encode(cs[0]) + Rest(cs))
    ensures Ahead(line, pos + |Encode(cs[0])| + Past(Rest(cs)), Join(cs[1..]))
  {
    hide Encode, Ahead;
    var field := Encode(cs[0]);
    assert Join(cs) == field + Rest(cs);
    if |cs| == 1 {
      AheadPast(line, pos, field, "");
    } else {
      assert Join(cs) == field + [','] + Join(cs[1..]);
      AheadPast(line, pos, field + [','], Join(cs[1..]));
    }
  }

  /** Without a backslash at the end of a quoted text or directly before a quote in it, all is read back. */
  lemma ReadingWithoutEscapes(line: string, pos: nat, cs: seq<Column>)
    requires AllRfc4180(cs) && Ahead(line, pos, Join(cs))
    requires forall i :: 0 <= i < |cs| && cs[i].Quoted? ==> NoEscapes(cs[i].text)
    ensures NextFields(line, pos, |cs|) == Texts(cs)
  {
    hide Walk, NoEscapes, Ahead;
    forall i | 0 <= i < |cs| && cs[i].Quoted?
      ensures Walk(cs[i].text, NO_CHAR, false)
    {
      NoEscapesWalk(cs[i].text, NO_CHAR);
    }
    ReadingUndoesJoining(line, pos, cs);
  }

  lemma AheadPast(line: string, pos: nat, s: string, t: string)
    requires Ahead(line, pos, s + t)
    ensures Ahead(line, pos + |s|, t)
  {
    assert line[pos + |s|..] == line[pos..][|s|..];
  }

  lemma FirstOf(line: string, pos: nat, cs: seq<Column>)
    requires cs != [] && Ahead(line, pos, Join(cs))
    ensures var (column, next) := NextField(line, pos);
            NextFields(line, pos, |cs|) == Texts(cs) <==>
              column == cs[0].text && NextFields(line, next, |cs| - 1) == Texts(cs[1..])
  {
    hide NextField, Join;
    var (column, next) := NextField(line, pos);
    var s, t := NextFields(line, next, |cs| - 1), Texts(cs[1..]);
    assert ([column] + s)[0] == column && ([cs[0].text] + t)[0] == cs[0].text;
    assert ([column] + s)[1..] == s && ([cs[0].text] + t)[1..] == t;
  }

  // two instances: one backslash at the end hides the closing quote, another one before a quote makes up for it
  lemma EscapeFails(line: string, cs: seq<Column>)
    requires cs == [Quoted("\\"), Bare("x")] && line == Join(cs)
    ensures !Readable(cs[0]) && Readable(Quoted("\\\"\\"))
    ensures NextField(line, 0) == ("\\\",x", |line|)
  {
    EscapesCancel("\\\"\\");
    assert !Walk("\\"[1..], '\\', false);
    assert Doubled("\\") == "\\" by { assert "\\"[1..] == ""; }
    assert line == ['"', '\\', '"', ',', 'x'] by { assert Join(cs[1..]) == "x"; }
    hide Scan;
    ScanEnds(line, 5, Reader(1, 0, 'x'));
    ScanNext(line, 4, Reader(1, 0, ','));
    assert Scan(line, 4, Reader(1, 0, ',')).0 == "x";
    ScanNext(line, 3, Reader(1, 0, '"'));
    assert Scan(line, 3, Reader(1, 0, '"')).0 == ",x";
    ScanNext(line, 2, Reader(1, 0, '\\'));
    assert Scan(line, 2, Reader(1, 0, '\\')).0 == "\",x";
    ScanNext(line, 1, Reader(1, 0, NO_CHAR));
    assert Scan(line, 1, Reader(1, 0, NO_CHAR)).0 == "\\\",x";
  }

  lemma EscapesCancel(text: string)
    requires text == "\\\"\\"
    ensures Walk(text, NO_CHAR, false)
  {
    assert text[1..] == "\"\\" && text[1..][1..] == "\\" && text[1..][1..][1..] == "";
    assert Walk(text[1..][1..][1..], '\\', true);
    assert Walk(text[1..][1..], '"', true);
    assert Walk(text[1..], '\\', false);
  }
}
