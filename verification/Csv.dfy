/** The CSV of RECORD files. */
module Csv {
  // The `csv` module's default dialect as RECORD files use it: rows of text separated by line feeds,
  // fields quoted when they must be (section 2 of RFC 4180). The reader is the module's own automaton.

  import opened Text

  const COMMA: CodePoint := 44
  const QUOTE: CodePoint := 34
  const LF: CodePoint := 10
  const CR: CodePoint := 13

  type Fields = seq<Str>

  // ---------------------------------------------------------------- lines

  /** The characters at which `str.splitlines` ends a line. */
  predicate IsBreak(c: CodePoint) {
    10 <= c <= 13 || 28 <= c <= 30 || c == 0x85 || c == 0x2028 || c == 0x2029
  }

  predicate OneLine(s: Str) {
    forall i | 0 <= i < |s| :: !IsBreak(s[i])
  }

  function LineEnd(s: Str): (n: nat)
    ensures n <= |s| && OneLine(s[..n]) && (n < |s| ==> IsBreak(s[n]))
  {
    if s == [] || IsBreak(s[0]) then 0
    else
      var n := LineEnd(s[1..]);
      assert s[..n + 1] == [s[0]] + s[1..][..n];
      n + 1
  }

  function SplitLines(s: Str): seq<Str>
    decreases |s|
  {
    if s == [] then []
    else
      var n := LineEnd(s);
      if n == |s| then [s]
      else
        var skip := if s[n] == CR && n + 1 < |s| && s[n + 1] == LF then 2 else 1;
        [s[..n]] + SplitLines(s[n + skip..])
  }

  // ---------------------------------------------------------------- the reader

  datatype Mode = StartRecord | StartField | InField | InQuoted | QuoteInQuoted

  datatype Reader = Reader(mode: Mode, field: Str, fields: Fields) {
    function Save(next: Mode): Reader {
      Reader(next, [], fields + [field])
    }

    function Add(c: CodePoint, next: Mode): Reader {
      Reader(next, field + [c], fields)
    }

    function Feed(c: CodePoint): Reader {
      match mode
      case InQuoted => if c == QUOTE then this.(mode := QuoteInQuoted) else Add(c, InQuoted)
      case QuoteInQuoted =>
        if c == QUOTE then Add(c, InQuoted) else if c == COMMA then Save(StartField) else Add(c, InField)
      case InField => if c == COMMA then Save(StartField) else Add(c, InField)
      case _ =>
        if c == QUOTE then this.(mode := InQuoted) else if c == COMMA then Save(StartField) else Add(c, InField)
    }

    /** The end of a line ends the record, unless a quoted field is open. */
    function EndLine(): Reader {
      if mode == InQuoted || mode == StartRecord then this else Save(StartRecord)
    }
  }

  const FRESH := Reader(StartRecord, [], [])

  function FeedAll(r: Reader, s: Str): Reader
    decreases |s|
  {
    if s == [] then r else FeedAll(r.Feed(s[0]), s[1..])
  }

  function ReadFrom(r: Reader, lines: seq<Str>): seq<Fields>
    decreases |lines|
  {
    if lines == [] then
      if r.mode == InQuoted then [r.Save(StartRecord).fields] else []
    else
      var next := FeedAll(r, lines[0]).EndLine();
      if next.mode == StartRecord then [next.fields] + ReadFrom(FRESH, lines[1..]) else ReadFrom(next, lines[1..])
  }

  function ReadRows(text: Str): seq<Fields> {
    ReadFrom(FRESH, SplitLines(text))
  }

  // ---------------------------------------------------------------- the writer

  predicate NeedsQuotes(f: Str) {
    exists i | 0 <= i < |f| :: f[i] == COMMA || f[i] == QUOTE || f[i] == LF || f[i] == CR
  }

  function Doubled(f: Str): Str {
    if f == [] then [] else (if f[0] == QUOTE then [QUOTE, QUOTE] else [f[0]]) + Doubled(f[1..])
  }

  function WriteField(f: Str): Str {
    if NeedsQuotes(f) then [QUOTE] + Doubled(f) + [QUOTE] else f
  }

  /** A lone empty field is written as `""` so that its row is not empty. */
  function WriteRow(row: Fields): Str {
    if row == [[]] then [QUOTE, QUOTE] else WriteFields(row)
  }

  function WriteFields(row: Fields): Str {
    if row == [] then []
    else if |row| == 1 then WriteField(row[0])
    else WriteField(row[0]) + [COMMA] + WriteFields(row[1..])
  }

  function WriteRows(rows: seq<Fields>): Str {
    if rows == [] then [] else WriteRow(rows[0]) + [LF] + WriteRows(rows[1..])
  }

  // ---------------------------------------------------------------- round trip

  lemma {:induction false} FeedConcat(r: Reader, a: Str, b: Str)
    ensures FeedAll(r, a + b) == FeedAll(FeedAll(r, a), b)
    decreases |a|
  {
    if a == [] { assert a + b == b; } else {
      assert (a + b)[0] == a[0] && (a + b)[1..] == a[1..] + b;
      FeedConcat(r.Feed(a[0]), a[1..], b);
    }
  }

  lemma {:induction false} FeedDoubled(field: Str, fields: Fields, f: Str)
    ensures FeedAll(Reader(InQuoted, field, fields), Doubled(f)) == Reader(InQuoted, field + f, fields)
    decreases |f|
  {
    var r := Reader(InQuoted, field, fields);
    if f == [] {
      assert field + f == field;
    } else {
      var head := if f[0] == QUOTE then [QUOTE, QUOTE] else [f[0]];
      FeedConcat(r, head, Doubled(f[1..]));
      assert FeedAll(r, head) == Reader(InQuoted, field + [f[0]], fields) by {
        if f[0] == QUOTE {
          assert [QUOTE, QUOTE][1..] == [QUOTE];
          FeedOne(r.Feed(QUOTE), QUOTE);
        } else {
          FeedOne(r, f[0]);
        }
      }
      FeedDoubled(field + [f[0]], fields, f[1..]);
      assert field + [f[0]] + f[1..] == field + f;
    }
  }

  lemma {:induction false} FeedPlain(field: Str, fields: Fields, f: Str)
    requires forall i | 0 <= i < |f| :: f[i] != COMMA
    ensures FeedAll(Reader(InField, field, fields), f) == Reader(InField, field + f, fields)
    decreases |f|
  {
    if f == [] {
      assert field + f == field;
    } else {
      FeedPlain(field + [f[0]], fields, f[1..]);
      assert field + [f[0]] + f[1..] == field + f;
    }
  }

  predicate AtField(r: Reader) {
    (r.mode == StartRecord || r.mode == StartField) && r.field == []
  }

  lemma QuotedRead(r: Reader, f: Str)
    requires AtField(r)
    ensures FeedAll(r, [QUOTE] + Doubled(f) + [QUOTE]) == Reader(QuoteInQuoted, f, r.fields)
  {
    var open := Reader(InQuoted, [], r.fields);
    FeedConcat(r, [QUOTE] + Doubled(f), [QUOTE]);
    FeedConcat(r, [QUOTE], Doubled(f));
    FeedOne(r, QUOTE);
    FeedDoubled([], r.fields, f);
    assert [] + f == f;
    FeedOne(Reader(InQuoted, f, r.fields), QUOTE);
  }

  lemma FeedOne(r: Reader, c: CodePoint)
    ensures FeedAll(r, [c]) == r.Feed(c)
  {
    assert [c][1..] == [];
  }

  lemma PlainRead(r: Reader, f: Str)
    requires AtField(r) && !NeedsQuotes(f) && f != []
    ensures FeedAll(r, f) == Reader(InField, f, r.fields)
  {
    assert f[0] != COMMA && f[0] != QUOTE;
    FeedPlain([f[0]], r.fields, f[1..]);
    assert [] + [f[0]] == [f[0]] && [f[0]] + f[1..] == f;
  }

  /** A written field is read back whether a comma or the end of the line follows. */
  lemma FieldRead(r: Reader, f: Str)
    requires AtField(r)
    ensures var q := FeedAll(r, WriteField(f));
      q.Feed(COMMA) == Reader(StartField, [], r.fields + [f])
      && (q.mode != StartRecord ==> q.EndLine() == Reader(StartRecord, [], r.fields + [f]))
      && (q.mode == StartRecord ==> f == [] && r.mode == StartRecord)
  {
    hide FeedAll, Doubled, NeedsQuotes;
    if NeedsQuotes(f) {
      QuotedRead(r, f);
    } else if f != [] {
      PlainRead(r, f);
    } else {
      assert FeedAll(r, []) == r by { FeedNothing(r); }
      EmptyIsPlain();
    }
  }

  lemma FeedNothing(r: Reader)
    ensures FeedAll(r, []) == r
  {
  }

  lemma EmptyIsPlain()
    ensures !NeedsQuotes([])
  {
  }

  lemma {:induction false} FieldsRead(r: Reader, row: Fields)
    requires AtField(r) && row != [] && (|row| > 1 || r.mode == StartField)
    ensures FeedAll(r, WriteFields(row)).EndLine() == Reader(StartRecord, [], r.fields + row)
    decreases |row|
  {
    hide WriteField;
    FieldRead(r, row[0]);
    if |row| == 1 {
      assert row == [row[0]];
    } else {
      var rest := WriteFields(row[1..]);
      FeedConcat(r, WriteField(row[0]) + [COMMA], rest);
      FeedConcat(r, WriteField(row[0]), [COMMA]);
      var q := Reader(StartField, [], r.fields + [row[0]]);
      FieldsRead(q, row[1..]);
      assert r.fields + [row[0]] + row[1..] == r.fields + row;
    }
  }

  /** A written row is read back: none, one empty, one or more fields. */
  lemma RowRead(row: Fields)
    ensures FeedAll(FRESH, WriteRow(row)).EndLine() == Reader(StartRecord, [], row)
  {
    hide FeedAll, WriteField, Doubled;
    if row == [] {
      FeedNothing(FRESH);
    } else if row == [[]] {
      assert Doubled([]) == [] && [QUOTE] + [] + [QUOTE] == [QUOTE, QUOTE] by { EmptyDoubled(); }
      QuotedRead(FRESH, []);
    } else if |row| == 1 {
      FieldRead(FRESH, row[0]);
      assert row == [row[0]] && [] + row == row;
    } else {
      FieldsRead(FRESH, row);
      assert FRESH.fields + row == row;
    }
  }

  lemma EmptyDoubled()
    ensures Doubled([]) == []
  {
  }

  lemma RowOneLine(row: Fields)
    requires Plain(row)
    ensures OneLine(WriteRow(row))
  {
    WrittenOneLine(row);
  }

  /** No field holds a line break. */
  predicate Plain(row: Fields) {
    forall i | 0 <= i < |row| :: OneLine(row[i])
  }

  lemma {:induction false} DoubledOneLine(f: Str)
    requires OneLine(f)
    ensures OneLine(Doubled(f))
  {
    if f != [] { DoubledOneLine(f[1..]); }
  }

  lemma {:induction false} WrittenOneLine(row: Fields)
    requires forall i | 0 <= i < |row| :: OneLine(row[i])
    ensures OneLine(WriteFields(row))
  {
    if row != [] {
      assert OneLine(row[0]);
      DoubledOneLine(row[0]);
      assert OneLine(WriteField(row[0]));
      WrittenOneLine(row[1..]);
    }
  }

  lemma {:induction false} LineEndAt(line: Str, c: CodePoint, rest: Str)
    requires OneLine(line) && IsBreak(c)
    ensures LineEnd(line + [c] + rest) == |line|
  {
    if line != [] {
      assert (line + [c] + rest)[1..] == line[1..] + [c] + rest;
      LineEndAt(line[1..], c, rest);
    }
  }

  lemma LineThenRest(line: Str, rest: Str)
    requires OneLine(line)
    ensures SplitLines(line + [LF] + rest) == [line] + SplitLines(rest)
  {
    var s := line + [LF] + rest;
    var n := |line|;
    LineEndAt(line, LF, rest);
    assert s[..n] == line && s[n + 1..] == rest;
  }

  /** Rows without line breaks in their fields, once written, are read back as they were. */
  lemma {:induction false} RowsRoundTrip(rows: seq<Fields>)
    requires forall i | 0 <= i < |rows| :: Plain(rows[i])
    ensures ReadRows(WriteRows(rows)) == rows
  {
    if rows != [] {
      assert Plain(rows[0]);
      var line, rest := WriteRow(rows[0]), WriteRows(rows[1..]);
      RowOneLine(rows[0]);
      LineThenRest(line, rest);
      RowRead(rows[0]);
      RowsRoundTrip(rows[1..]);
      var lines := SplitLines(WriteRows(rows));
      assert lines[0] == line && lines[1..] == SplitLines(rest);
      assert rows == [rows[0]] + rows[1..];
    }
  }
}
