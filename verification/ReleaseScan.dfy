/**
 Listing the files of a release candidate (backend/tools/runtime_windows_release.py): what a walk over
 its directories lists, when the listing is acceptable, and the rows that describe its files, sorted
 by path.
 */
module ReleaseScan {
  import opened Text
  import opened Json
  import opened ReleasePaths

  /** `Ordinary` is a regular, singly linked file that does not change while it is read. */
  datatype FileKind = Ordinary(content: Bytes) | Link | Irregular

  datatype FileEntry = FileEntry(name: Str, kind: FileKind)

  /** One step of `os.walk`: a directory's path with a final slash, its subdirectories and its files. */
  datatype Visit = Visit(prefix: Str, directories: seq<bool>, files: seq<FileEntry>)

  datatype Row = Row(path: Str, byteLength: nat, sha256: Str)

  datatype Listed = Listed(path: Str, kind: FileKind)

  // ---------------------------------------------------------------- what is listed

  function FilesOfVisit(v: Visit): (r: seq<Listed>)
    ensures |r| == |v.files| && forall i | 0 <= i < |r| :: r[i] == Listed(v.prefix + v.files[i].name, v.files[i].kind)
  {
    seq(|v.files|, i requires 0 <= i < |v.files| => Listed(v.prefix + v.files[i].name, v.files[i].kind))
  }

  function AllFiles(walk: seq<Visit>): seq<Listed> {
    if walk == [] then [] else AllFiles(walk[..|walk| - 1]) + FilesOfVisit(walk[|walk| - 1])
  }

  function EntryCount(walk: seq<Visit>): nat {
    if walk == [] then 0
    else EntryCount(walk[..|walk| - 1]) + |walk[|walk| - 1].directories| + |walk[|walk| - 1].files|
  }

  /** Whether each subdirectory is one and is not a link. */
  predicate PlainDirectories(walk: seq<Visit>) {
    forall i | 0 <= i < |walk| :: (forall j | 0 <= j < |walk[i].directories| :: walk[i].directories[j])
  }

  /** Links are refused while the directory is listed, other irregular files when they are read. */
  predicate Skipped(exclude: bool, f: Listed) {
    exclude && f.path == FILE_MANIFEST_PATH
  }

  predicate FileOk(lib: Library, f: Listed, exclude: bool) {
    f.kind != Link && Portable(lib, f.path)
    && (Skipped(exclude, f) || (f.kind.Ordinary? && |f.kind.content| <= MAX_CANDIDATE_FILE_BYTES))
  }

  /** No two files have the same path up to case. */
  predicate NoCollision(lib: Library, files: seq<Listed>) {
    forall i, j | 0 <= i < j < |files| :: lib.fold(files[i].path) != lib.fold(files[j].path)
  }

  function RowOf(lib: Library, f: Listed): Row
    requires f.kind.Ordinary?
  {
    Row(f.path, |f.kind.content|, lib.sha256(f.kind.content))
  }

  function RowsOf(lib: Library, files: seq<Listed>, exclude: bool): seq<Row>
    requires AllOk(lib, files, exclude)
  {
    if files == [] then []
    else
      assert FileOk(lib, files[|files| - 1], exclude);
      var front := RowsOf(lib, files[..|files| - 1], exclude);
      if Skipped(exclude, files[|files| - 1]) then front else front + [RowOf(lib, files[|files| - 1])]
  }

  function TotalBytes(rows: seq<Row>): nat {
    if rows == [] then 0 else TotalBytes(rows[..|rows| - 1]) + rows[|rows| - 1].byteLength
  }

  predicate AllOk(lib: Library, files: seq<Listed>, exclude: bool) {
    forall i | 0 <= i < |files| :: FileOk(lib, files[i], exclude)
  }

  /** What `_candidate_file_rows` accepts. */
  predicate Accepts(lib: Library, walk: seq<Visit>, exclude: bool) {
    PlainDirectories(walk) && EntryCount(walk) <= MAX_CANDIDATE_FILES
    && AllOk(lib, AllFiles(walk), exclude) && NoCollision(lib, AllFiles(walk))
    && TotalBytes(RowsOf(lib, AllFiles(walk), exclude)) <= MAX_CANDIDATE_BYTES
  }

  // ---------------------------------------------------------------- sorting by path

  function InsertRow(row: Row, rows: seq<Row>): seq<Row> {
    if rows == [] || StrLess(row.path, rows[0].path) then [row] + rows else [rows[0]] + InsertRow(row, rows[1..])
  }

  function SortRows(rows: seq<Row>): seq<Row> {
    if rows == [] then [] else InsertRow(rows[|rows| - 1], SortRows(rows[..|rows| - 1]))
  }

  // ---------------------------------------------------------------- the function

  lemma {:induction false} EntryCountGrows(walk: seq<Visit>, i: nat)
    requires i <= |walk|
    ensures EntryCount(walk[..i]) <= EntryCount(walk)
    decreases |walk|
  {
    if i < |walk| {
      assert walk[..|walk| - 1][..i] == walk[..i];
      EntryCountGrows(walk[..|walk| - 1], i);
    } else {
      assert walk[..i] == walk;
    }
  }

  lemma {:induction false} FilesPrefix(walk: seq<Visit>, i: nat)
    requires i <= |walk|
    ensures AllFiles(walk[..i]) <= AllFiles(walk)
    decreases |walk|
  {
    if i < |walk| {
      assert walk[..|walk| - 1][..i] == walk[..i];
      FilesPrefix(walk[..|walk| - 1], i);
    } else {
      assert walk[..i] == walk;
    }
  }

  lemma TotalMore(rows: seq<Row>, row: Row)
    ensures TotalBytes(rows + [row]) == TotalBytes(rows) + row.byteLength
  {
    assert (rows + [row])[..|rows|] == rows;
  }

  lemma {:induction false} RowsPrefix(lib: Library, files: seq<Listed>, n: nat, exclude: bool)
    requires n <= |files| && AllOk(lib, files, exclude)
    ensures AllOk(lib, files[..n], exclude)
    ensures TotalBytes(RowsOf(lib, files[..n], exclude)) <= TotalBytes(RowsOf(lib, files, exclude))
    decreases |files|
  {
    if n < |files| {
      var front := files[..|files| - 1];
      assert front[..n] == files[..n];
      RowsPrefix(lib, front, n, exclude);
      if !Skipped(exclude, files[|files| - 1]) {
        TotalMore(RowsOf(lib, front, exclude), RowOf(lib, files[|files| - 1])) by {
          assert FileOk(lib, files[|files| - 1], exclude);
        }
      }
    } else {
      assert files[..n] == files;
    }
  }

  /** What has been read of the walk: whole visits, then files of the next one. */
  function SoFar(walk: seq<Visit>, i: nat, j: nat): seq<Listed>
    requires i < |walk| && j <= |walk[i].files|
  {
    AllFiles(walk[..i]) + FilesOfVisit(walk[i])[..j]
  }

  lemma SoFarMore(walk: seq<Visit>, i: nat, j: nat)
    requires i < |walk| && j < |walk[i].files|
    ensures SoFar(walk, i, j + 1)
      == SoFar(walk, i, j) + [Listed(walk[i].prefix + walk[i].files[j].name, walk[i].files[j].kind)]
    ensures SoFar(walk, i, j + 1) <= AllFiles(walk)
  {
    var fs := FilesOfVisit(walk[i]);
    assert fs[..j + 1] == fs[..j] + [fs[j]];
    assert walk[..i + 1][..i] == walk[..i];
    assert AllFiles(walk[..i + 1]) == AllFiles(walk[..i]) + fs;
    FilesPrefix(walk, i + 1);
    assert AllFiles(walk[..i]) + fs[..j + 1] <= AllFiles(walk[..i]) + fs;
  }

  ghost predicate Folded(lib: Library, files: seq<Listed>, seen: set<Str>) {
    forall x :: x in seen <==> exists i | 0 <= i < |files| :: lib.fold(files[i].path) == x
  }

  /** The state of the loops after the files `files`. */
  ghost predicate Reading(lib: Library, files: seq<Listed>, exclude: bool, rows: seq<Row>, seen: set<Str>, total: nat) {
    AllOk(lib, files, exclude) && NoCollision(lib, files) && Folded(lib, files, seen)
    && rows == RowsOf(lib, files, exclude) && total == TotalBytes(rows) <= MAX_CANDIDATE_BYTES
  }

  lemma FoldedMore(lib: Library, files: seq<Listed>, f: Listed, seen: set<Str>)
    requires Folded(lib, files, seen)
    ensures Folded(lib, files + [f], seen + {lib.fold(f.path)})
    ensures NoCollision(lib, files) && lib.fold(f.path) !in seen ==> NoCollision(lib, files + [f])
    ensures lib.fold(f.path) in seen ==> !NoCollision(lib, files + [f])
  {
    var more := files + [f];
    forall x ensures x in seen + {lib.fold(f.path)} <==> exists i | 0 <= i < |more| :: lib.fold(more[i].path) == x {
      if x == lib.fold(f.path) { assert lib.fold(more[|files|].path) == x; }
      else if x in seen {
        var i :| 0 <= i < |files| && lib.fold(files[i].path) == x;
        assert lib.fold(more[i].path) == x;
      }
    }
    if lib.fold(f.path) in seen {
      var i :| 0 <= i < |files| && lib.fold(files[i].path) == lib.fold(f.path);
      assert lib.fold(more[i].path) == lib.fold(more[|files|].path);
    }
  }

  lemma RowsMore(lib: Library, files: seq<Listed>, f: Listed, exclude: bool)
    requires AllOk(lib, files, exclude) && FileOk(lib, f, exclude)
    ensures AllOk(lib, files + [f], exclude)
    ensures RowsOf(lib, files + [f], exclude)
      == if Skipped(exclude, f) then RowsOf(lib, files, exclude) else RowsOf(lib, files, exclude) + [RowOf(lib, f)]
  {
    var more := files + [f];
    assert more[..|more| - 1] == files && more[|more| - 1] == f;
    hide FileOk;
  }

  lemma ReadingMore(lib: Library, files: seq<Listed>, f: Listed, exclude: bool, rows: seq<Row>, seen: set<Str>,
          total: nat)
    requires Reading(lib, files, exclude, rows, seen, total) && FileOk(lib, f, exclude) && lib.fold(f.path) !in seen
    requires Skipped(exclude, f) || total + |f.kind.content| <= MAX_CANDIDATE_BYTES
    ensures Reading(lib, files + [f], exclude,
      if Skipped(exclude, f) then rows else rows + [RowOf(lib, f)], seen + {lib.fold(f.path)},
      if Skipped(exclude, f) then total else total + |f.kind.content|)
  {
    FoldedMore(lib, files, f, seen);
    RowsMore(lib, files, f, exclude);
    if !Skipped(exclude, f) { TotalMore(rows, RowOf(lib, f)); }
    hide FileOk, Folded, NoCollision, RowsOf, AllOk, TotalBytes;
  }

  /** A file that fails a check, or one that collides, is in the way of acceptance. */
  lemma RefusedFile(lib: Library, walk: seq<Visit>, exclude: bool, files: seq<Listed>, f: Listed, rows: seq<Row>,
          seen: set<Str>, total: nat)
    requires Reading(lib, files, exclude, rows, seen, total) && files + [f] <= AllFiles(walk)
    requires !FileOk(lib, f, exclude) || lib.fold(f.path) in seen
      || (!Skipped(exclude, f) && total + |f.kind.content| > MAX_CANDIDATE_BYTES)
    ensures !Accepts(lib, walk, exclude)
  {
    var all, more := AllFiles(walk), files + [f];
    assert more[|files|] == f;
    assert all[..|more|] == more;
    if Accepts(lib, walk, exclude) {
      assert all[|files|] == f;
      assert FileOk(lib, all[|files|], exclude);
      FoldedMore(lib, files, f, seen);
      assert NoCollision(lib, more) by { CollisionPrefix(lib, all, more); }
      RowsPrefix(lib, all, |more|, exclude);
      RowsMore(lib, files, f, exclude);
      TotalMore(rows, RowOf(lib, f));
      assert false;
    }
  }

  lemma CollisionPrefix(lib: Library, all: seq<Listed>, more: seq<Listed>)
    requires NoCollision(lib, all) && more <= all
    ensures NoCollision(lib, more)
  {
    forall i, j | 0 <= i < j < |more| ensures lib.fold(more[i].path) != lib.fold(more[j].path) {
      assert more[i] == all[i] && more[j] == all[j];
    }
  }
}
