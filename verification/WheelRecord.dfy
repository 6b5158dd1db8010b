/** A RECORD that is written reads back. */
module WheelRecord {
  // Rows that give each file its path, digest and size, and the RECORD itself, written as CSV in any order, say
  // those digests and sizes and nothing else.

  import opened Text
  import Json
  import JsonRoundTrip
  import Csv
  import opened ReleasePaths
  import opened WheelInstall

  // ---------------------------------------------------------------- the RECORD that is written

  /** The text of a content's digest in a RECORD: it reads back as the digest. */
  ghost predicate Spells(lib: Library, enc: Encoders, spell: Bytes -> Str) {
    forall b :: enc.digest(spell(b)) == Some(lib.sha256(b)) && Csv.OneLine(spell(b)) && Encodable(spell(b))
  }

  /** The row of a file: its path, its digest and its size. */
  function FileLine(spell: Bytes -> Str, path: Str, content: Bytes): Csv.Fields {
    [path, Lit("sha256=") + spell(content), Json.Digits(|content|)]
  }

  /** The row of the RECORD itself. */
  function SelfLine(recordPath: Str): Csv.Fields {
    [recordPath, [], []]
  }

  predicate RowIs(spell: Bytes -> Str, row: Csv.Fields, contents: map<Str, Bytes>, recordPath: Str) {
    |row| == 3
    && (row == SelfLine(recordPath) || (row[0] in contents && row == FileLine(spell, row[0], contents[row[0]])))
  }

  /** The rows are those of the files and of the RECORD, each once and in any order. */
  ghost predicate Lists(spell: Bytes -> Str, rows: seq<Csv.Fields>, contents: map<Str, Bytes>, recordPath: Str) {
    && recordPath !in contents && (forall i | 0 <= i < |rows| :: RowIs(spell, rows[i], contents, recordPath))
    && (forall i, j | 0 <= i < j < |rows| :: |rows[i]| == 3 && |rows[j]| == 3 && rows[i][0] != rows[j][0])
    && SelfLine(recordPath) in rows && forall p | p in contents :: FileLine(spell, p, contents[p]) in rows
  }

  /** A path that a RECORD can name. */
  predicate Nameable(lib: Library, path: Str) {
    Portable(lib, path) && Csv.OneLine(path) && Encodable(path)
  }

  ghost predicate Installable(lib: Library, contents: map<Str, Bytes>) {
    forall p | p in contents :: Nameable(lib, p) && |contents[p]| <= MAX_CANDIDATE_FILE_BYTES
  }

  /** What such a RECORD says. */
  function EntriesOf(lib: Library, contents: map<Str, Bytes>, recordPath: Str): Entries {
    map p | p in contents.Keys + {recordPath} ::
      if p in contents then Bound(lib.sha256(contents[p]), |contents[p]|) else Self
  }

  lemma SizeReadsBack(n: nat)
    requires n <= MAX_CANDIDATE_FILE_BYTES
    ensures ParseSize(Json.Digits(n)) == Some(n)
  {
    JsonRoundTrip.DigitsRead(n);
  }

  lemma PrefixDropped(s: Str)
    ensures HASH_PREFIX <= Lit("sha256=") + s && (Lit("sha256=") + s)[|HASH_PREFIX|..] == s
  {
  }

  /** The row of a file is read as its digest and size. */
  lemma FileLineReads(lib: Library, enc: Encoders, spell: Bytes -> Str, path: Str, content: Bytes, recordPath: Str)
    requires Spells(lib, enc, spell) && Portable(lib, path) && path != recordPath
    requires |content| <= MAX_CANDIDATE_FILE_BYTES
    ensures RowEntry(lib, enc, FileLine(spell, path, content), recordPath)
      == Some(Bound(lib.sha256(content), |content|))
  {
    hide Portable, ParseSize;
    PrefixDropped(spell(content));
    SizeReadsBack(|content|);
  }

  lemma SelfLineReads(lib: Library, enc: Encoders, recordPath: Str)
    requires Portable(lib, recordPath)
    ensures RowEntry(lib, enc, SelfLine(recordPath), recordPath) == Some(Self)
  {
    hide Portable;
  }

  lemma SizeExactly(s: Str, n: nat)
    ensures ParseSize(s) == Some(n) <==> n <= 2 * 1024 * 1024 * 1024 && s == Json.Digits(n)
  {
    if s == Json.Digits(n) { JsonRoundTrip.DigitsRead(n); }
  }

  /**
   What a row of a RECORD says, and when it says anything: the blank row of the RECORD itself, or the digest and the
   decimal size of another file.
   */
  lemma RowEntryExactly(lib: Library, enc: Encoders, row: Csv.Fields, recordPath: Str, e: Entry)
    ensures RowEntry(lib, enc, row, recordPath) == Some(e)
      <==> && |row| == 3 && Portable(lib, row[0])
           && match e
              case Self => row == SelfLine(recordPath)
              case Bound(hash, size) =>
                && row[0] != recordPath && size <= 2 * 1024 * 1024 * 1024 && row[2] == Json.Digits(size)
                && exists text :: row[1] == Lit("sha256=") + text && enc.digest(text) == Some(hash)
  {
    hide Portable, ParseSize;
    if |row| == 3 {
      if e.Bound? { SizeExactly(row[2], e.size); }
      if HASH_PREFIX <= row[1] { assert row[1] == Lit("sha256=") + row[1][|HASH_PREFIX|..]; }
      if text :| row[1] == Lit("sha256=") + text && e.Bound? && enc.digest(text) == Some(e.sha256) {
        PrefixDropped(text);
      }
    }
  }

  lemma ListedRowReads(lib: Library, enc: Encoders, spell: Bytes -> Str, row: Csv.Fields, contents: map<Str, Bytes>,
          recordPath: Str)
    requires Spells(lib, enc, spell) && RowIs(spell, row, contents, recordPath) && recordPath !in contents
    requires Installable(lib, contents) && Portable(lib, recordPath)
    ensures row[0] in EntriesOf(lib, contents, recordPath)
    ensures RowEntry(lib, enc, row, recordPath) == Some(EntriesOf(lib, contents, recordPath)[row[0]])
  {
    hide Portable, Spells, RowEntry;
    if row == SelfLine(recordPath) {
      SelfLineReads(lib, enc, recordPath);
    } else {
      FileLineReads(lib, enc, spell, row[0], contents[row[0]], recordPath);
    }
  }

  lemma ListedRowsSay(lib: Library, enc: Encoders, spell: Bytes -> Str, rows: seq<Csv.Fields>,
          contents: map<Str, Bytes>, recordPath: Str)
    requires Spells(lib, enc, spell) && Lists(spell, rows, contents, recordPath)
    requires Installable(lib, contents) && Portable(lib, recordPath)
    ensures Says(lib, enc, rows, recordPath, EntriesOf(lib, contents, recordPath))
  {
    hide Portable, Spells, Installable, RowEntry;
    var entries := EntriesOf(lib, contents, recordPath);
    forall i | 0 <= i < |rows|
      ensures |rows[i]| == 3 && rows[i][0] in entries
      ensures RowEntry(lib, enc, rows[i], recordPath) == Some(entries[rows[i][0]])
    {
      ListedRowReads(lib, enc, spell, rows[i], contents, recordPath);
    }
    forall p | p in entries ensures exists i | 0 <= i < |rows| :: |rows[i]| == 3 && rows[i][0] == p {
      var row := if p in contents then FileLine(spell, p, contents[p]) else SelfLine(recordPath);
      assert row in rows && |row| == 3 && row[0] == p;
    }
  }

  // ---------------------------------------------------------------- its octets

  predicate EncodableRow(row: Csv.Fields) {
    forall i | 0 <= i < |row| :: Encodable(row[i])
  }

  lemma {:induction false} DoubledEncodable(f: Str)
    requires Encodable(f)
    ensures Encodable(Csv.Doubled(f))
  {
    if f != [] {
      assert !IsSurrogate(f[0]);
      DoubledEncodable(f[1..]);
      EncodableConcat(if f[0] == Csv.QUOTE then [Csv.QUOTE, Csv.QUOTE] else [f[0]], Csv.Doubled(f[1..]));
    }
  }

  lemma FieldEncodable(f: Str)
    requires Encodable(f)
    ensures Encodable(Csv.WriteField(f))
  {
    DoubledEncodable(f);
  }

  lemma {:induction false} FieldsEncodable(row: Csv.Fields)
    requires EncodableRow(row)
    ensures Encodable(Csv.WriteFields(row))
  {
    hide Csv.WriteField;
    if row != [] {
      FieldEncodable(row[0]);
      if |row| > 1 {
        FieldsEncodable(row[1..]);
        EncodableConcat(Csv.WriteField(row[0]), [Csv.COMMA]);
        EncodableConcat(Csv.WriteField(row[0]) + [Csv.COMMA], Csv.WriteFields(row[1..]));
      }
    }
  }

  lemma {:induction false} RowsEncodable(rows: seq<Csv.Fields>)
    requires forall i | 0 <= i < |rows| :: EncodableRow(rows[i])
    ensures Encodable(Csv.WriteRows(rows))
  {
    if rows != [] {
      assert EncodableRow(rows[0]);
      FieldsEncodable(rows[0]);
      RowsEncodable(rows[1..]);
      hide Csv.WriteFields;
      EncodableConcat(Csv.WriteRow(rows[0]), [Csv.LF]);
      EncodableConcat(Csv.WriteRow(rows[0]) + [Csv.LF], Csv.WriteRows(rows[1..]));
    }
  }

  lemma HashWordPlain(s: Str)
    requires Csv.OneLine(s) && Encodable(s)
    ensures Csv.OneLine(Lit("sha256=") + s) && Encodable(Lit("sha256=") + s)
  {
    var word := Lit("sha256=");
    assert word == [115, 104, 97, 50, 53, 54, 61];
    assert Csv.OneLine(word) && Encodable(word);
    EncodableConcat(word, s);
  }

  lemma DigitsPlain(n: nat)
    ensures Csv.OneLine(Json.Digits(n)) && Encodable(Json.Digits(n))
  {
    var d := Json.Digits(n);
    forall i | 0 <= i < |d| ensures !Csv.IsBreak(d[i]) && !IsSurrogate(d[i]) { assert Json.IsDigit(d[i]); }
  }

  lemma ListedRowPlain(lib: Library, enc: Encoders, spell: Bytes -> Str, row: Csv.Fields, contents: map<Str, Bytes>,
          recordPath: Str)
    requires Spells(lib, enc, spell) && RowIs(spell, row, contents, recordPath)
    requires Installable(lib, contents) && Nameable(lib, recordPath)
    ensures Csv.Plain(row) && EncodableRow(row)
  {
    hide Portable, Csv.OneLine, Encodable;
    EmptyPlain();
    if row != SelfLine(recordPath) {
      assert Nameable(lib, row[0]);
      HashWordPlain(spell(contents[row[0]]));
      DigitsPlain(|contents[row[0]]|);
    }
  }

  lemma EmptyPlain()
    ensures Csv.OneLine([]) && Encodable([])
  {
  }

  /** The written RECORD of a set of files is a RECORD file that says their digests and sizes, and nothing else. */
  lemma WrittenRecordReads(lib: Library, enc: Encoders, spell: Bytes -> Str, rows: seq<Csv.Fields>,
          contents: map<Str, Bytes>, recordPath: Str, entries: Entries)
    requires Spells(lib, enc, spell) && Lists(spell, rows, contents, recordPath)
    requires Installable(lib, contents) && Nameable(lib, recordPath)
    ensures var octets := Utf8Encode(Csv.WriteRows(rows));
      octets.Some? && (IsRecord(lib, enc, octets.value, recordPath, entries)
        <==> entries == EntriesOf(lib, contents, recordPath))
  {
    forall i | 0 <= i < |rows| ensures Csv.Plain(rows[i]) && EncodableRow(rows[i]) {
      ListedRowPlain(lib, enc, spell, rows[i], contents, recordPath);
    }
    hide Csv.Plain, EncodableRow, Encodable;
    ListedRowsSay(lib, enc, spell, rows, contents, recordPath);
    hide Lists, Installable, Spells, Nameable, Says;
    Csv.RowsRoundTrip(rows);
    RowsEncodable(rows);
    Utf8RoundTrip(Csv.WriteRows(rows));
    hide Csv.WriteRows, Csv.ReadRows, Utf8Octets, Utf8Decode;
    if Says(lib, enc, rows, recordPath, entries) {
      SaysOneThing(lib, enc, rows, recordPath, entries, EntriesOf(lib, contents, recordPath));
    }
  }
}
