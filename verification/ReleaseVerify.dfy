/** The manifest as a canonical JSON file, and the verifier that reads it back. */
module ReleaseVerify {
  import opened Text
  import opened Json
  import opened JsonCanonical
  import opened JsonRoundTrip
  import opened Dictionary
  import opened ReleasePaths
  import opened ReleaseScan
  import opened ReleaseManifest

  const KEY_SCHEMA_VERSION: Str := Lit("schema_version")
  const KEY_HASH_ALGORITHM: Str := Lit("hash_algorithm")
  const KEY_SCOPE: Str := Lit("scope")
  const KEY_FILE_COUNT: Str := Lit("file_count")
  const KEY_FILES: Str := Lit("files")
  const KEY_PATH: Str := Lit("path")
  const KEY_BYTE_LENGTH: Str := Lit("byte_length")
  const KEY_SHA256: Str := Lit("sha256")
  const FILE_MANIFEST_SCOPE: Str := Lit("all ordinary files except release/file-manifest.json")

  // ---------------------------------------------------------------- what the assembler writes

  function RowFields(row: Row): seq<Field> {
    [Field(KEY_PATH, Text(row.path)), Field(KEY_BYTE_LENGTH, Int(row.byteLength)), Field(KEY_SHA256, Text(row.sha256))]
  }

  function RowsJson(rows: seq<Row>): (r: seq<Json>)
    ensures |r| == |rows| && forall i | 0 <= i < |r| :: r[i] == Obj(RowFields(rows[i]))
  {
    seq(|rows|, i requires 0 <= i < |rows| => Obj(RowFields(rows[i])))
  }

  /** `_file_manifest`. */
  function ManifestFields(rows: seq<Row>): seq<Field> {
    [Field(KEY_SCHEMA_VERSION, Int(1)), Field(KEY_HASH_ALGORITHM, Text(KEY_SHA256)),
      Field(KEY_SCOPE, Text(FILE_MANIFEST_SCOPE)),
     Field(KEY_FILE_COUNT, Int(|rows|)), Field(KEY_FILES, Arr(RowsJson(rows)))]
  }

  /** `_canonical_json`, with None for the errors it raises. */
  function CanonicalJson(v: Json): Option<Bytes> {
    match Dumps(v)
    case Err(_) => None
    case Ok(text) => Utf8Encode(text)
  }

  // ---------------------------------------------------------------- what the verifier reads

  /** `_read_candidate_control` of an ordinary file. */
  function ReadControl(content: Bytes): Option<seq<Field>> {
    if |content| > MAX_CANDIDATE_CONTROL_BYTES then None
    else
      match Utf8Decode(content)
      case None => None
      case Some(text) =>
        match Loads(text, STRICT)
        case Ok(Obj(f)) => if CanonicalJson(Obj(f)) == Some(content) then Some(f) else None
        case _ => None
  }

  function RowKeys(): set<Str> { {KEY_PATH, KEY_BYTE_LENGTH, KEY_SHA256} }

  function RowFromFields(f: seq<Field>): Option<Row>
    requires KeySet(f) == RowKeys()
  {
    var path, length, hash := Get(f, KEY_PATH), Get(f, KEY_BYTE_LENGTH), Get(f, KEY_SHA256);
    if path.Text? && length.Int? && 0 <= length.n <= MAX_CANDIDATE_FILE_BYTES && hash.Text? && IsSha256(hash.s) then
      Some(Row(path.s, length.n, hash.s))
    else None
  }

  function RowFromJson(v: Json): Option<Row> {
    if v.Obj? && KeySet(v.fields) == RowKeys() then RowFromFields(v.fields) else None
  }

  function HeaderKeys(): set<Str> { {KEY_SCHEMA_VERSION, KEY_HASH_ALGORITHM, KEY_SCOPE, KEY_FILE_COUNT, KEY_FILES} }

  predicate HeaderOk(f: seq<Field>) {
    KeySet(f) == HeaderKeys()
    && Get(f, KEY_SCHEMA_VERSION) == Int(1) && Get(f, KEY_HASH_ALGORITHM) == Text(KEY_SHA256)
    && Get(f, KEY_SCOPE) == Text(FILE_MANIFEST_SCOPE)
    && Get(f, KEY_FILES).Arr? && Get(f, KEY_FILE_COUNT) == Int(|Get(f, KEY_FILES).items|)
    && |Get(f, KEY_FILES).items| <= MAX_CANDIDATE_FILES
  }

  /** Portable paths other than the manifest's, in ascending order, no two the same up to case. */
  predicate InOrder(lib: Library, rows: seq<Row>) {
    (forall i | 0 <= i < |rows| :: Portable(lib, rows[i].path) && rows[i].path != FILE_MANIFEST_PATH)
    && (forall i, j | 0 <= i < j < |rows| :: lib.fold(rows[i].path) != lib.fold(rows[j].path))
    && forall i | 0 <= i < |rows| - 1 :: StrLess(rows[i].path, rows[i + 1].path)
  }

  predicate Describes(items: seq<Json>, rows: seq<Row>) {
    |rows| == |items| && forall i | 0 <= i < |items| :: RowFromJson(items[i]) == Some(rows[i])
  }

  /** The rows that a manifest describes in a form the verifier accepts. */
  ghost predicate AcceptedRows(lib: Library, f: seq<Field>, rows: seq<Row>) {
    HeaderOk(f) && Describes(Get(f, KEY_FILES).items, rows) && InOrder(lib, rows)
      && TotalBytes(rows) <= MAX_CANDIDATE_BYTES
  }

  lemma RowsAreDetermined(items: seq<Json>, a: seq<Row>, b: seq<Row>)
    requires Describes(items, a) && Describes(items, b)
    ensures a == b
  {
    hide RowFromJson;
    forall i | 0 <= i < |a| ensures a[i] == b[i] { assert RowFromJson(items[i]) == Some(a[i]); }
  }

  /** Rows that are described and in order begin with those read so far and go on with an acceptable one. */
  lemma NextRow(lib: Library, items: seq<Json>, rows: seq<Row>, i: nat, all: seq<Row>)
    requires i < |items| && Describes(items[..i], rows) && Describes(items, all) && InOrder(lib, all)
    ensures RowFromJson(items[i]).Some? && InOrder(lib, rows + [RowFromJson(items[i]).value])
  {
    assert RowFromJson(items[i]) == Some(all[i]);
    assert Describes(items[..i], all[..i]) by {
      hide RowFromJson, InOrder;
      forall k | 0 <= k < i
        ensures RowFromJson(items[..i][k]) == Some(all[..i][k])
      {
        assert RowFromJson(items[k]) == Some(all[k]);
      }
    }
    RowsAreDetermined(items[..i], rows, all[..i]);
    OrderPrefix(lib, all, i + 1);
    assert all[..i + 1] == all[..i] + [all[i]];
  }

  lemma OrderPrefix(lib: Library, rows: seq<Row>, n: nat)
    requires n <= |rows| && InOrder(lib, rows)
    ensures InOrder(lib, rows[..n])
  {
    hide Portable, StrLess;
    var front := rows[..n];
    assert forall i | 0 <= i < n :: front[i] == rows[i];
  }

  ghost predicate FoldedRows(lib: Library, rows: seq<Row>, seen: set<Str>) {
    forall x :: x in seen <==> exists i | 0 <= i < |rows| :: lib.fold(rows[i].path) == x
  }

  lemma FoldedRowsMore(lib: Library, rows: seq<Row>, seen: set<Str>, row: Row)
    requires FoldedRows(lib, rows, seen)
    ensures FoldedRows(lib, rows + [row], seen + {lib.fold(row.path)})
  {
    var more := rows + [row];
    forall x ensures x in seen + {lib.fold(row.path)} <==> exists i | 0 <= i < |more| :: lib.fold(more[i].path) == x {
      if x == lib.fold(row.path) { assert lib.fold(more[|rows|].path) == x; }
      else if x in seen {
        var i :| 0 <= i < |rows| && lib.fold(rows[i].path) == x;
        assert lib.fold(more[i].path) == x;
      }
    }
  }

  /** The next row keeps the order exactly when the checks of the loop pass. */
  lemma OrderMore(lib: Library, rows: seq<Row>, seen: set<Str>, previous: Str, row: Row)
    requires InOrder(lib, rows) && FoldedRows(lib, rows, seen)
    requires previous == if rows == [] then [] else rows[|rows| - 1].path
    ensures InOrder(lib, rows + [row]) <==>
      Portable(lib, row.path) && row.path != FILE_MANIFEST_PATH && lib.fold(row.path) !in seen
        && StrLess(previous, row.path)
  {
    var more, n := rows + [row], |rows|;
    hide Portable, StrLess;
    if InOrder(lib, more) {
      assert Portable(lib, more[n].path) && more[n].path != FILE_MANIFEST_PATH;
      forall i | 0 <= i < n ensures lib.fold(rows[i].path) != lib.fold(row.path) {
        assert lib.fold(more[i].path) != lib.fold(more[n].path);
      }
      if n > 0 { assert StrLess(more[n - 1].path, more[n - 1 + 1].path); } else { EmptyIsLess(lib, row.path); }
    }
    if Portable(lib, row.path) && row.path != FILE_MANIFEST_PATH && lib.fold(row.path) !in seen
      && StrLess(previous, row.path) {
      forall i, j | 0 <= i < j < |more| ensures lib.fold(more[i].path) != lib.fold(more[j].path) {
        if j == n { assert lib.fold(rows[i].path) in seen; }
      }
    }
  }

  lemma EmptyIsLess(lib: Library, path: Str)
    requires Portable(lib, path)
    ensures StrLess([], path)
  {
  }

  ghost predicate Readable(lib: Library, items: seq<Json>, rows: seq<Row>) {
    Describes(items, rows) && InOrder(lib, rows)
  }

  lemma DescribesMore(items: seq<Json>, rows: seq<Row>, i: nat, row: Row)
    requires i < |items| && Describes(items[..i], rows) && RowFromJson(items[i]) == Some(row)
    ensures Describes(items[..i + 1], rows + [row])
  {
    hide RowFromJson;
    assert items[..i + 1] == items[..i] + [items[i]];
  }

  /** The state of the loop after `i` items. */
  ghost predicate ReadUpTo(lib: Library, items: seq<Json>, i: nat, rows: seq<Row>, seen: set<Str>, previous: Str) {
    && i <= |items| && Describes(items[..i], rows) && InOrder(lib, rows) && FoldedRows(lib, rows, seen)
    && previous == if rows == [] then [] else rows[|rows| - 1].path
  }

  /** The checks of one round. */
  predicate Fits(lib: Library, row: Row, seen: set<Str>, previous: Str) {
    Portable(lib, row.path) && row.path != FILE_MANIFEST_PATH && lib.fold(row.path) !in seen
      && StrLess(previous, row.path)
  }

  lemma ReadOne(lib: Library, items: seq<Json>, i: nat, rows: seq<Row>, seen: set<Str>, previous: Str, row: Row)
    requires ReadUpTo(lib, items, i, rows, seen, previous) && i < |items| && RowFromJson(items[i]) == Some(row)
    requires Fits(lib, row, seen, previous)
    ensures ReadUpTo(lib, items, i + 1, rows + [row], seen + {lib.fold(row.path)}, row.path)
  {
    hide RowFromJson, InOrder, FoldedRows, Portable, StrLess, Describes;
    OrderMore(lib, rows, seen, previous, row);
    FoldedRowsMore(lib, rows, seen, row);
    DescribesMore(items, rows, i, row);
  }

  lemma CannotRead(lib: Library, items: seq<Json>, i: nat, rows: seq<Row>, seen: set<Str>, previous: Str, all: seq<Row>)
    requires ReadUpTo(lib, items, i, rows, seen, previous) && i < |items|
    requires RowFromJson(items[i]).Some? ==> !Fits(lib, RowFromJson(items[i]).value, seen, previous)
    ensures !Readable(lib, items, all)
  {
    hide RowFromJson, InOrder, FoldedRows, Portable, StrLess, Describes;
    if Readable(lib, items, all) {
      NextRow(lib, items, rows, i, all);
      OrderMore(lib, rows, seen, previous, RowFromJson(items[i]).value);
    }
  }

  lemma NothingRead(lib: Library, items: seq<Json>)
    ensures ReadUpTo(lib, items, 0, [], {}, [])
  {
  }

  lemma AllRead(lib: Library, items: seq<Json>, rows: seq<Row>, seen: set<Str>, previous: Str)
    requires ReadUpTo(lib, items, |items|, rows, seen, previous)
    ensures Readable(lib, items, rows)
  {
    hide Describes, InOrder, FoldedRows;
    assert items[..|items|] == items;
  }

  /** The loop of `_manifest_rows`. */
  method ReadItems(lib: Library, items: seq<Json>) returns (r: Option<seq<Row>>)
    ensures r.Some? ==> Readable(lib, items, r.value)
    ensures r.None? ==> forall all :: !Readable(lib, items, all)
  {
    hide RowFromJson, Portable, StrLess, ReadUpTo, Readable;
    var rows: seq<Row>, seen: set<Str>, previous: Str := [], {}, [];
    var i := 0;
    NothingRead(lib, items);
    while i < |items|
      invariant 0 <= i <= |items| && ReadUpTo(lib, items, i, rows, seen, previous)
    {
      var row := RowFromJson(items[i]);
      if row.None? || !Portable(lib, row.value.path) || row.value.path == FILE_MANIFEST_PATH
        || lib.fold(row.value.path) in seen || !StrLess(previous, row.value.path) {
        forall all ensures !Readable(lib, items, all) { CannotRead(lib, items, i, rows, seen, previous, all); }
        return None;
      }
      ReadOne(lib, items, i, rows, seen, previous, row.value);
      seen, previous, rows := seen + {lib.fold(row.value.path)}, row.value.path, rows + [row.value];
      i := i + 1;
    }
    AllRead(lib, items, rows, seen, previous);
    r := Some(rows);
  }

  /** `_manifest_rows`. */
  method ManifestRows(lib: Library, f: seq<Field>) returns (r: Option<seq<Row>>)
    ensures r.Some? ==> AcceptedRows(lib, f, r.value)
    ensures r.None? ==> forall all :: !AcceptedRows(lib, f, all)
  {
    if !HeaderOk(f) { return None; }
    r := ReadItems(lib, Get(f, KEY_FILES).items);
    hide HeaderOk, InOrder, Describes, KeySet, Get;
    if r.None? {
      forall all
        ensures !AcceptedRows(lib, f, all)
      {
        assert HeaderOk(f) && !Readable(lib, Get(f, KEY_FILES).items, all);
      }
      return;
    }
    if TotalBytes(r.value) > MAX_CANDIDATE_BYTES {
      forall all ensures !AcceptedRows(lib, f, all) {
        if Describes(Get(f, KEY_FILES).items, all) { RowsAreDetermined(Get(f, KEY_FILES).items, all, r.value); }
      }
      return None;
    }
  }

  // ---------------------------------------------------------------- sorting keeps the rows

  lemma {:induction false} TotalConcat(a: seq<Row>, b: seq<Row>)
    ensures TotalBytes(a + b) == TotalBytes(a) + TotalBytes(b)
    decreases |b|
  {
    if b == [] {
      assert a + b == a;
    } else {
      assert (a + b)[..|a + b| - 1] == a + b[..|b| - 1];
      TotalConcat(a, b[..|b| - 1]);
    }
  }

  lemma TotalOne(row: Row)
    ensures TotalBytes([row]) == row.byteLength
  {
    assert [row][..0] == [];
  }

  ghost predicate Ascending(rows: seq<Row>) {
    forall i, j | 0 <= i < j < |rows| :: StrLess(rows[i].path, rows[j].path)
  }

  ghost predicate DistinctPaths(rows: seq<Row>) {
    forall i, j | 0 <= i < j < |rows| :: rows[i].path != rows[j].path
  }

  lemma {:induction false} InsertKeeps(row: Row, rows: seq<Row>)
    requires Ascending(rows) && forall i | 0 <= i < |rows| :: rows[i].path != row.path
    ensures var r := InsertRow(row, rows);
      Ascending(r) && |r| == |rows| + 1 && (forall x :: x in r <==> x == row || x in rows)
      && TotalBytes(r) == row.byteLength + TotalBytes(rows)
  {
    hide StrLess;
    var r := InsertRow(row, rows);
    TotalOne(row);
    if rows == [] {
      assert [row] + rows == [row];
    } else {
      StrLessTotal(row.path, rows[0].path);
      if StrLess(row.path, rows[0].path) {
        TotalConcat([row], rows);
        forall j | 0 <= j < |rows| ensures StrLess(row.path, rows[j].path) {
          if j > 0 { StrLessTransitive(row.path, rows[0].path, rows[j].path); }
        }
      } else {
        var tail := InsertRow(row, rows[1..]);
        InsertKeeps(row, rows[1..]);
        TotalConcat([rows[0]], tail);
        TotalConcat([rows[0]], rows[1..]);
        assert [rows[0]] + rows[1..] == rows;
        forall j | 0 <= j < |tail| ensures StrLess(rows[0].path, tail[j].path) {
          assert tail[j] in tail;
          if tail[j] != row {
            var k :| 0 <= k < |rows[1..]| && rows[1..][k] == tail[j];
            assert rows[k + 1] == tail[j];
          }
        }
        assert forall x :: x in rows <==> x == rows[0] || x in rows[1..];
      }
    }
  }

  lemma {:induction false} SortKeeps(rows: seq<Row>)
    requires DistinctPaths(rows)
    ensures var r := SortRows(rows);
      Ascending(r) && |r| == |rows| && (forall x :: x in r <==> x in rows) && TotalBytes(r) == TotalBytes(rows)
    decreases |rows|
  {
    if rows != [] {
      var front, last := rows[..|rows| - 1], rows[|rows| - 1];
      SortKeeps(front);
      assert rows == front + [last];
      hide SortRows;
      assert forall x :: x in rows <==> x == last || x in front;
      SortedPathsDiffer(rows, SortRows(front));
      InsertKeeps(last, SortRows(front));
      assert SortRows(rows) == InsertRow(last, SortRows(front)) by { SortStep(rows); }
    }
  }

  lemma SortStep(rows: seq<Row>)
    requires rows != []
    ensures SortRows(rows) == InsertRow(rows[|rows| - 1], SortRows(rows[..|rows| - 1]))
  {
  }

  lemma SortedPathsDiffer(rows: seq<Row>, sorted: seq<Row>)
    requires rows != [] && DistinctPaths(rows) && forall x :: x in sorted <==> x in rows[..|rows| - 1]
    ensures forall i | 0 <= i < |sorted| :: sorted[i].path != rows[|rows| - 1].path
  {
    forall i | 0 <= i < |sorted| ensures sorted[i].path != rows[|rows| - 1].path {
      assert sorted[i] in sorted;
      assert sorted[i] in rows[..|rows| - 1];
    }
  }

  // ---------------------------------------------------------------- rows that were listed

  ghost predicate RowGood(lib: Library, row: Row) {
    Portable(lib, row.path) && row.path != FILE_MANIFEST_PATH && row.byteLength <= MAX_CANDIDATE_FILE_BYTES
      && IsSha256(row.sha256)
  }

  /** The rows of listed files, with where each came from. */
  ghost predicate FromFiles(files: seq<Listed>, rows: seq<Row>) {
    forall k | 0 <= k < |rows| :: exists i | 0 <= i < |files| :: files[i].path == rows[k].path
  }

  lemma FromFilesMore(files: seq<Listed>, rows: seq<Row>, f: Listed, row: Row)
    requires FromFiles(files, rows) && row.path == f.path
    ensures FromFiles(files + [f], rows) && FromFiles(files + [f], rows + [row])
  {
    var more, longer := files + [f], rows + [row];
    assert more[|files|].path == row.path;
    forall k | 0 <= k < |rows| ensures exists i | 0 <= i < |more| :: more[i].path == rows[k].path {
      var i :| 0 <= i < |files| && files[i].path == rows[k].path;
      assert more[i].path == rows[k].path;
    }
    forall k | 0 <= k < |longer| ensures exists i | 0 <= i < |more| :: more[i].path == longer[k].path {
      if k < |rows| { assert longer[k] == rows[k]; } else { assert more[|files|].path == longer[k].path; }
    }
  }

  lemma NewFold(lib: Library, files: seq<Listed>, rows: seq<Row>, f: Listed)
    requires NoCollision(lib, files + [f]) && FromFiles(files, rows)
    ensures forall k | 0 <= k < |rows| :: lib.fold(rows[k].path) != lib.fold(f.path)
  {
    forall k | 0 <= k < |rows| ensures lib.fold(rows[k].path) != lib.fold(f.path) {
      var i :| 0 <= i < |files| && files[i].path == rows[k].path;
      assert (files + [f])[i] == files[i] && (files + [f])[|files|] == f;
    }
  }

  lemma LastRowGood(lib: Library, f: Listed)
    requires FileOk(lib, f, true) && !Skipped(true, f) && HexDigests(lib)
    ensures RowGood(lib, RowOf(lib, f)) && RowOf(lib, f).path == f.path
  {
    hide Portable, IsSha256;
  }

  /** Rows that are good, of paths that no folding confuses, each the path of a file. */
  ghost predicate Listable(lib: Library, files: seq<Listed>, rows: seq<Row>) {
    && (forall k | 0 <= k < |rows| :: RowGood(lib, rows[k]))
    && (forall i, j | 0 <= i < j < |rows| :: lib.fold(rows[i].path) != lib.fold(rows[j].path))
    && FromFiles(files, rows) && |rows| <= |files|
  }

  lemma ListableMore(lib: Library, files: seq<Listed>, rows: seq<Row>, f: Listed, row: Row)
    requires Listable(lib, files, rows) && NoCollision(lib, files + [f]) && row.path == f.path
    ensures Listable(lib, files + [f], rows)
    ensures RowGood(lib, row) ==> Listable(lib, files + [f], rows + [row])
  {
    NewFold(lib, files, rows, f);
    FromFilesMore(files, rows, f, row);
    hide RowGood, FromFiles, NoCollision;
  }

  lemma AllOkFront(lib: Library, files: seq<Listed>)
    requires files != [] && AllOk(lib, files, true) && NoCollision(lib, files)
    ensures AllOk(lib, files[..|files| - 1], true) && NoCollision(lib, files[..|files| - 1])
    ensures FileOk(lib, files[|files| - 1], true)
  {
    hide FileOk;
  }

  lemma {:induction false} ListedRows(lib: Library, files: seq<Listed>)
    requires AllOk(lib, files, true) && NoCollision(lib, files) && HexDigests(lib)
    ensures Listable(lib, files, RowsOf(lib, files, true))
    decreases |files|
  {
    if files != [] {
      hide RowGood, FromFiles, FileOk, Skipped, RowOf, Listable, AllOk, NoCollision, HexDigests, RowsOf;
      var front, last := files[..|files| - 1], files[|files| - 1];
      assert files == front + [last];
      AllOkFront(lib, files);
      ListedRows(lib, front);
      RowsMore(lib, front, last, true);
      if Skipped(true, last) {
        ListableMore(lib, front, RowsOf(lib, front, true), last, Row(last.path, 0, []));
      } else {
        LastRowGood(lib, last);
        ListableMore(lib, front, RowsOf(lib, front, true), last, RowOf(lib, last));
      }
    }
  }
}
