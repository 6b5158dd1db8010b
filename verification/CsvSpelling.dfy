/** Every way to spell rows in CSV that the reader takes. */
module CsvSpelling {
  // Fields may be quoted or not, a quoted field may go on after its closing quote, and lines may end in any of the
  // line breaks of Python's `str.splitlines`, or with the text.

  import opened Text
  import opened Csv

  /** Where `str.splitlines` breaks a text. */
  const BREAKS: set<CodePoint> := {10, 11, 12, 13, 28, 29, 30, 0x85, 0x2028, 0x2029}

  predicate NoBreak(line: Str) {
    forall i | 0 <= i < |line| :: line[i] !in BREAKS
  }

  predicate IsBare(f: Str) {
    COMMA !in f && (f == [] || f[0] != QUOTE)
  }

  function Quoted(f: Str): Str {
    [QUOTE] + Doubled(f) + [QUOTE]
  }

  /** A field as it is, or its beginning in quotes and the rest after them. */
  ghost predicate SpellsField(x: Str, f: Str) {
    || (IsBare(f) && x == f)
    || exists a, b :: f == a + b && x == Quoted(a) + b && IsBare(b)
  }

  ghost predicate SpellsFields(line: Str, row: Fields)
    requires row != []
    decreases |row|
  {
    if |row| == 1 then SpellsField(line, row[0])
    else exists x, y :: line == x + ([COMMA] + y) && SpellsField(x, row[0]) && SpellsFields(y, row[1..])
  }

  /** An empty line is a row of no field, so that a lone empty field needs its quotes. */
  ghost predicate SpellsRow(line: Str, row: Fields) {
    if row == [] then line == [] else line != [] && SpellsFields(line, row)
  }

  predicate EndsLine(end: Str, line: Str, rest: Str) {
    || (|end| == 1 && end[0] in BREAKS && (end == [CR] ==> rest == [] || rest[0] != LF))
    || end == [CR, LF]
    || (end == [] && rest == [] && line != [])
  }

  ghost predicate SpellsRows(text: Str, rows: seq<Fields>)
    decreases |rows|
  {
    if rows == [] then text == []
    else
      exists line, end, rest ::
        && text == line + (end + rest) && NoBreak(line) && EndsLine(end, line, rest)
        && SpellsRow(line, rows[0]) && SpellsRows(rest, rows[1..])
  }

  // ---------------------------------------------------------------- fields

  /** The reader has the whole field once a comma or the end of the line comes. */
  predicate Holds(q: Reader, r: Reader, f: Str) {
    && q.Feed(COMMA) == Reader(StartField, [], r.fields + [f])
    && (q.mode != StartRecord ==> q.EndLine() == Reader(StartRecord, [], r.fields + [f]))
  }

  lemma BareRead(r: Reader, f: Str)
    requires AtField(r) && IsBare(f)
    ensures Holds(FeedAll(r, f), r, f) && (FeedAll(r, f).mode == StartRecord ==> f == [] && r.mode == StartRecord)
  {
    if f == [] {
      FeedNothing(r);
    } else {
      assert f[0] in f;
      FeedPlain([f[0]], r.fields, f[1..]);
      assert [] + [f[0]] == [f[0]] && [f[0]] + f[1..] == f;
    }
  }

  lemma QuotedThenBare(r: Reader, a: Str, b: Str)
    requires AtField(r) && IsBare(b)
    ensures var q := FeedAll(r, Quoted(a) + b); Holds(q, r, a + b) && q.mode != StartRecord && q.mode != InQuoted
  {
    hide Doubled;
    FeedConcat(r, Quoted(a), b);
    QuotedRead(r, a);
    var q := Reader(QuoteInQuoted, a, r.fields);
    if b == [] {
      FeedNothing(q);
      assert a + b == a;
    } else {
      assert b[0] in b;
      FeedPlain(a + [b[0]], r.fields, b[1..]);
      assert a + [b[0]] + b[1..] == a + b;
    }
  }

  lemma FieldTaken(r: Reader, x: Str, f: Str)
    requires AtField(r) && SpellsField(x, f)
    ensures Holds(FeedAll(r, x), r, f) && (FeedAll(r, x).mode == StartRecord ==> x == [] && r.mode == StartRecord)
  {
    hide FeedAll, Holds, Doubled, Quoted;
    if IsBare(f) && x == f {
      BareRead(r, f);
    } else {
      var a, b :| f == a + b && x == Quoted(a) + b && IsBare(b);
      QuotedThenBare(r, a, b);
    }
  }

  // ---------------------------------------------------------------- rows

  lemma {:induction false} FieldsTaken(r: Reader, line: Str, row: Fields)
    requires AtField(r) && row != [] && SpellsFields(line, row) && (line != [] || r.mode == StartField)
    ensures FeedAll(r, line).EndLine() == Reader(StartRecord, [], r.fields + row)
    decreases |row|
  {
    hide FeedAll, SpellsField;
    if |row| == 1 {
      FieldTaken(r, line, row[0]);
      assert row == [row[0]];
    } else {
      var x, y :| line == x + ([COMMA] + y) && SpellsField(x, row[0]) && SpellsFields(y, row[1..]);
      FieldTaken(r, x, row[0]);
      FeedConcat(r, x, [COMMA] + y);
      FeedConcat(FeedAll(r, x), [COMMA], y);
      FeedOne(FeedAll(r, x), COMMA);
      var q := Reader(StartField, [], r.fields + [row[0]]);
      FieldsTaken(q, y, row[1..]);
      assert r.fields + [row[0]] + row[1..] == r.fields + row;
    }
  }

  lemma RowTaken(line: Str, row: Fields)
    requires SpellsRow(line, row)
    ensures FeedAll(FRESH, line).EndLine() == Reader(StartRecord, [], row)
  {
    hide SpellsFields;
    if row == [] {
      FeedNothing(FRESH);
    } else {
      FieldsTaken(FRESH, line, row);
      assert FRESH.fields + row == row;
    }
  }

  // ---------------------------------------------------------------- lines

  lemma BreakExactly(line: Str)
    ensures NoBreak(line) <==> OneLine(line)
    ensures forall c: CodePoint :: c in BREAKS <==> IsBreak(c)
  {
  }

  lemma {:induction false} LineAlone(line: Str)
    requires OneLine(line)
    ensures LineEnd(line) == |line|
  {
    if line != [] { LineAlone(line[1..]); }
  }

  lemma BrokenLine(line: Str, c: CodePoint, rest: Str)
    requires OneLine(line) && IsBreak(c) && (c == CR ==> rest == [] || rest[0] != LF)
    ensures SplitLines(line + [c] + rest) == [line] + SplitLines(rest)
  {
    var s := line + [c] + rest;
    LineEndAt(line, c, rest);
    hide IsBreak, LineEnd;
    assert s[..|line|] == line && s[|line| + 1..] == rest && s[|line|] == c;
    assert rest != [] ==> s[|line| + 1] == rest[0];
  }

  lemma ReturnedLine(line: Str, rest: Str)
    requires OneLine(line)
    ensures SplitLines(line + [CR] + ([LF] + rest)) == [line] + SplitLines(rest)
  {
    var s := line + [CR] + ([LF] + rest);
    LineEndAt(line, CR, [LF] + rest);
    hide IsBreak, LineEnd;
    assert s[..|line|] == line && s[|line| + 2..] == rest && s[|line|] == CR && s[|line| + 1] == LF;
  }

  lemma LastLine(line: Str)
    requires OneLine(line) && line != []
    ensures SplitLines(line) == [line]
  {
    LineAlone(line);
  }

  lemma LineTaken(line: Str, end: Str, rest: Str)
    requires NoBreak(line) && EndsLine(end, line, rest)
    ensures SplitLines(line + (end + rest)) == [line] + SplitLines(rest)
  {
    BreakExactly(line);
    hide NoBreak, IsBreak, SplitLines, OneLine;
    if end == [] {
      LastLine(line);
      NoLines();
      assert line + (end + rest) == line;
    } else if |end| == 1 {
      BrokenLine(line, end[0], rest);
      assert line + (end + rest) == line + [end[0]] + rest;
    } else {
      ReturnedLine(line, rest);
      assert line + (end + rest) == line + [CR] + ([LF] + rest);
    }
  }

  lemma NoLines()
    ensures SplitLines([]) == []
  {
  }

  lemma RowsParts(text: Str, rows: seq<Fields>) returns (line: Str, end: Str, rest: Str)
    requires rows != [] && SpellsRows(text, rows)
    ensures text == line + (end + rest) && NoBreak(line) && EndsLine(end, line, rest)
    ensures SpellsRow(line, rows[0]) && SpellsRows(rest, rows[1..])
  {
    hide SpellsRow, NoBreak, EndsLine;
    var l, e, r :|
      && text == l + (e + r) && NoBreak(l) && EndsLine(e, l, r)
      && SpellsRow(l, rows[0]) && SpellsRows(r, rows[1..]);
    line, end, rest := l, e, r;
  }

  lemma ReadFirst(lines: seq<Str>, row: Fields)
    requires lines != [] && FeedAll(FRESH, lines[0]).EndLine() == Reader(StartRecord, [], row)
    ensures ReadFrom(FRESH, lines) == [row] + ReadFrom(FRESH, lines[1..])
  {
    hide FeedAll;
  }

  /** The reader takes every spelling of rows. */
  lemma {:induction false} SpelledRowsRead(text: Str, rows: seq<Fields>)
    requires SpellsRows(text, rows)
    ensures ReadRows(text) == rows
    decreases |rows|
  {
    if rows == [] {
      NoLines();
    } else {
      hide SpellsRows, SpellsRow, NoBreak, EndsLine, SplitLines, ReadFrom;
      var line, end, rest := RowsParts(text, rows);
      SpelledRowsRead(rest, rows[1..]);
      LineTaken(line, end, rest);
      RowTaken(line, rows[0]);
      var lines := SplitLines(text);
      assert lines[0] == line && lines[1..] == SplitLines(rest);
      ReadFirst(lines, rows[0]);
      assert rows == [rows[0]] + rows[1..];
    }
  }
}
