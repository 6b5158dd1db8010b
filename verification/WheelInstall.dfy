/** One wheel against its installation. */
module WheelInstall {
  // (backend/tools/runtime_windows_release.py) What it means that the installed files are those of a locked wheel.

  import opened Text
  import Json
  import Csv
  import opened ReleasePaths
  import opened ReleaseScan
  import opened ReleaseManifest

  datatype WheelLock = WheelLock(filename: Str, byteLength: nat, sha256: Str)

  /** A wheel and what its archive holds, by path; None if the archive is refused. Directories are left out. */
  datatype Wheel = Wheel(bytes: Bytes, members: Option<map<Str, Bytes>>)

  /** Canonical JSON of the locks and of rows; the hexadecimal digest after `sha256=` in a RECORD row. */
  datatype Encoders = Encoders(locks: seq<WheelLock> -> Bytes, rows: seq<Row> -> Bytes, digest: Str -> Option<Str>)

  datatype Entry = Self | Bound(sha256: Str, size: nat)

  type Entries = map<Str, Entry>

  // ---------------------------------------------------------------- RECORD files

  const HASH_PREFIX: Str := Lit("sha256=")

  function ParseSize(s: Str): Option<nat> {
    if s != [] && (forall i | 0 <= i < |s| :: Json.IsDigit(s[i])) && Json.Digits(Json.DigitsValue(s)) == s
      && Json.DigitsValue(s) <= MAX_CANDIDATE_FILE_BYTES
    then Some(Json.DigitsValue(s)) else None
  }

  /** What one row says, if it is well formed. */
  function RowEntry(lib: Library, enc: Encoders, row: Csv.Fields, recordPath: Str): Option<Entry> {
    if |row| != 3 || !Portable(lib, row[0]) then None
    else if row[0] == recordPath then if row[1] == [] && row[2] == [] then Some(Self) else None
    else if !(HASH_PREFIX <= row[1]) then None
    else
      match (enc.digest(row[1][|HASH_PREFIX|..]), ParseSize(row[2]))
      case (Some(hash), Some(size)) => Some(Bound(hash, size))
      case _ => None
  }

  /** Every row is well formed, no path is repeated, and the entries are what the rows say. */
  ghost predicate Says(lib: Library, enc: Encoders, rows: seq<Csv.Fields>, recordPath: Str, entries: Entries) {
    (forall i | 0 <= i < |rows| ::
      RowEntry(lib, enc, rows[i], recordPath).Some? && |rows[i]| == 3 && rows[i][0] in entries
      && entries[rows[i][0]] == RowEntry(lib, enc, rows[i], recordPath).value)
    && (forall i, j | 0 <= i < j < |rows| :: |rows[i]| == 3 && |rows[j]| == 3 && rows[i][0] != rows[j][0])
    && forall p | p in entries :: exists i | 0 <= i < |rows| :: |rows[i]| == 3 && rows[i][0] == p
  }

  /** The octets are a RECORD file that says `entries`. */
  ghost predicate IsRecord(lib: Library, enc: Encoders, content: Bytes, recordPath: Str, entries: Entries) {
    Utf8Decode(content).Some? && Says(lib, enc, Csv.ReadRows(Utf8Decode(content).value), recordPath, entries)
  }

  /** A RECORD file says one thing only. */
  lemma SaysOneThing(lib: Library, enc: Encoders, rows: seq<Csv.Fields>, recordPath: Str, a: Entries, b: Entries)
    requires Says(lib, enc, rows, recordPath, a) && Says(lib, enc, rows, recordPath, b)
    ensures a == b
  {
    hide RowEntry;
    forall p | p in a ensures p in b && a[p] == b[p] {
      var i :| 0 <= i < |rows| && |rows[i]| == 3 && rows[i][0] == p;
    }
    forall p | p in b ensures p in a {
      var i :| 0 <= i < |rows| && |rows[i]| == 3 && rows[i][0] == p;
    }
  }

  lemma RepeatedPath(lib: Library, enc: Encoders, rows: seq<Csv.Fields>, recordPath: Str, i: nat, entries: Entries)
    requires i < |rows| && Says(lib, enc, rows[..i], recordPath, entries) && |rows[i]| == 3 && rows[i][0] in entries
    ensures forall all :: !Says(lib, enc, rows, recordPath, all)
  {
    hide RowEntry;
    var j :| 0 <= j < i && |rows[..i][j]| == 3 && rows[..i][j][0] == rows[i][0];
    forall all ensures !Says(lib, enc, rows, recordPath, all) {
      assert rows[j][0] == rows[i][0];
    }
  }

  /** `_record_entries`: it accepts exactly the RECORD files and returns what they say. */
  method RecordEntries(lib: Library, enc: Encoders, content: Bytes, recordPath: Str) returns (r: Option<Entries>)
    ensures r.Some? ==> IsRecord(lib, enc, content, recordPath, r.value)
    ensures r.None? ==> forall all :: !IsRecord(lib, enc, content, recordPath, all)
  {
    var text := Utf8Decode(content);
    if text.None? { return None; }
    var rows := Csv.ReadRows(text.value);
    var entries: Entries := map[];
    var i := 0;
    while i < |rows|
      invariant 0 <= i <= |rows| && Says(lib, enc, rows[..i], recordPath, entries)
    {
      hide RowEntry, Utf8Decode;
      var entry := RowEntry(lib, enc, rows[i], recordPath);
      if entry.None? { return None; }
      assert |rows[i]| == 3 by { EntryHasThree(lib, enc, rows[i], recordPath); }
      if rows[i][0] in entries {
        RepeatedPath(lib, enc, rows, recordPath, i, entries);
        return None;
      }
      SaysMore(lib, enc, rows[..i], recordPath, entries, rows[i]);
      assert rows[..i + 1] == rows[..i] + [rows[i]];
      entries := entries[rows[i][0] := entry.value];
      i := i + 1;
    }
    assert rows[..i] == rows;
    r := Some(entries);
  }

  lemma EntryHasThree(lib: Library, enc: Encoders, row: Csv.Fields, recordPath: Str)
    requires RowEntry(lib, enc, row, recordPath).Some?
    ensures |row| == 3
  {
  }

  lemma SaysMore(lib: Library, enc: Encoders, rows: seq<Csv.Fields>, recordPath: Str, entries: Entries, row: Csv.Fields)
    requires Says(lib, enc, rows, recordPath, entries) && |row| == 3 && row[0] !in entries
    requires RowEntry(lib, enc, row, recordPath).Some?
    ensures Says(lib, enc, rows + [row], recordPath, entries[row[0] := RowEntry(lib, enc, row, recordPath).value])
  {
    hide RowEntry;
    var more, next := rows + [row], entries[row[0] := RowEntry(lib, enc, row, recordPath).value];
    forall p | p in next ensures exists i | 0 <= i < |more| :: |more[i]| == 3 && more[i][0] == p {
      if p == row[0] {
        assert |more[|rows|]| == 3 && more[|rows|][0] == p;
      } else {
        var i :| 0 <= i < |rows| && |rows[i]| == 3 && rows[i][0] == p;
        assert |more[i]| == 3 && more[i][0] == p;
      }
    }
  }

  // ---------------------------------------------------------------- one wheel

  /** The file at a path below the installation root. */
  function Find(files: seq<Listed>, path: Str): Option<Bytes> {
    if files == [] then None
    else if files[|files| - 1].path == path && files[|files| - 1].kind.Ordinary? then
      Some(files[|files| - 1].kind.content)
    else Find(files[..|files| - 1], path)
  }

  /** Joining a relative path to the root drops empty and `.` components. */
  function Installed(files: seq<Listed>, relative: Str): Option<Bytes> {
    Find(files, Normal(relative))
  }

  const DIST_RECORD: Str := Lit(".dist-info/RECORD")
  const DATA: Str := Lit(".data/")
  const INSTALLER: Bytes := [112, 105, 112, 10]

  predicate EndsWith(s: Str, suffix: Str) {
    |suffix| <= |s| && s[|s| - |suffix|..] == suffix
  }

  predicate HasPart(s: Str, part: Str) {
    exists i | 0 <= i <= |s| :: part <= s[i..]
  }

  function CountSlashes(s: Str): nat {
    if s == [] then 0 else (if s[0] == SLASH then 1 else 0) + CountSlashes(s[1..])
  }

  predicate IsRecordPath(p: Str) {
    EndsWith(p, DIST_RECORD) && CountSlashes(p) == 1
  }

  function InstallerPath(recordPath: Str): Str
    requires |recordPath| >= 7
  {
    recordPath[..|recordPath| - 7] + Lit("/INSTALLER")
  }

  function RequestedPath(recordPath: Str): Str
    requires |recordPath| >= 7
  {
    recordPath[..|recordPath| - 7] + Lit("/REQUESTED")
  }

  lemma GeneratedDiffer(recordPath: Str)
    requires |recordPath| >= 7
    ensures InstallerPath(recordPath) != RequestedPath(recordPath)
    ensures recordPath != InstallerPath(recordPath) && recordPath != RequestedPath(recordPath)
  {
    var n := |recordPath| - 7;
    assert InstallerPath(recordPath)[n + 1] == 'I' as int && RequestedPath(recordPath)[n + 1] == 'R' as int;
    assert |InstallerPath(recordPath)| == n + 10 && |RequestedPath(recordPath)| == n + 10;
  }

  /** What is known of a verified wheel. */
  datatype Facts = Facts(
    recordPath: Str, members: map<Str, Bytes>, source: Entries, installed: Entries,
    sourceRecord: Bytes, installedRecord: Bytes, paths: set<Str>, rows: map<Str, Row>)

  function RowFor(lib: Library, path: Str, content: Bytes): Row {
    Row(path, |content|, lib.sha256(content))
  }

  /** The one RECORD of a dist-info directory at the top. */
  ghost predicate OnlyRecord(members: map<Str, Bytes>, p: Str) {
    p in members && IsRecordPath(p) && forall q | q in members && IsRecordPath(q) :: q == p
  }

  /** Every file but the RECORD is bound by its size and digest. */
  ghost predicate AllBound(lib: Library, members: map<Str, Bytes>, source: Entries, recordPath: Str)
    requires source.Keys == members.Keys
  {
    forall p | p in members && p != recordPath :: source[p] == Bound(lib.sha256(members[p]), |members[p]|)
  }

  /** The archive is the locked one and its RECORD binds exactly its files. */
  ghost predicate SourceOk(lib: Library, enc: Encoders, lock: WheelLock, wheel: Wheel, f: Facts) {
    && |wheel.bytes| == lock.byteLength && lib.sha256(wheel.bytes) == lock.sha256
    && wheel.members == Some(f.members)
    && OnlyRecord(f.members, f.recordPath) && |f.recordPath| >= 7 && (forall p | p in f.members :: !HasPart(p, DATA))
    && f.sourceRecord == f.members[f.recordPath] && IsRecord(lib, enc, f.sourceRecord, f.recordPath, f.source)
    && f.source.Keys == f.members.Keys && AllBound(lib, f.members, f.source, f.recordPath)
  }

  /** The installed RECORD names the archive's files and the two that pip generates, as the archive did. */
  ghost predicate RecordOk(lib: Library, enc: Encoders, files: seq<Listed>, f: Facts)
    requires |f.recordPath| >= 7
  {
    var i, r := InstallerPath(f.recordPath), RequestedPath(f.recordPath);
    && i !in f.members && r !in f.members && f.paths == f.members.Keys + {i, r}
    && Installed(files, f.recordPath) == Some(f.installedRecord)
    && IsRecord(lib, enc, f.installedRecord, f.recordPath, f.installed)
    && f.installed.Keys == f.paths
  }

  /** The installed file at `p` has the size and digest of `content`, and `row` says so. */
  ghost predicate Same(lib: Library, files: seq<Listed>, p: Str, content: Bytes, row: Row) {
    Installed(files, p).Some? && |Installed(files, p).value| == |content|
    && lib.sha256(Installed(files, p).value) == lib.sha256(content) && row == RowFor(lib, p, Installed(files, p).value)
  }

  /** The same without the row. */
  ghost predicate FileFits(lib: Library, files: seq<Listed>, f: Facts, p: Str) {
    p in f.members && p in f.installed && p in f.source && f.installed[p] == f.source[p]
    && Same(lib, files, p, f.members[p],
      RowFor(lib, p, if Installed(files, p).Some? then Installed(files, p).value else []))
  }

  /** An installed file is the archive's, by size and digest. */
  ghost predicate FileSame(lib: Library, files: seq<Listed>, f: Facts, p: Str)
    requires p in f.members
  {
    p in f.installed && p in f.source && f.installed[p] == f.source[p]
    && p in f.rows && Same(lib, files, p, f.members[p], f.rows[p])
  }

  ghost predicate GeneratedIs(lib: Library, files: seq<Listed>, f: Facts, p: Str, content: Bytes) {
    p in f.installed && Installed(files, p) == Some(content) && f.installed[p] == Bound(lib.sha256(content), |content|)
    && p in f.rows && f.rows[p] == RowFor(lib, p, content)
  }

  ghost predicate FilesOk(lib: Library, files: seq<Listed>, f: Facts)
    requires |f.recordPath| >= 7
  {
    && (forall p | p in f.members && p != f.recordPath :: FileSame(lib, files, f, p))
    && GeneratedIs(lib, files, f, InstallerPath(f.recordPath), INSTALLER)
    && GeneratedIs(lib, files, f, RequestedPath(f.recordPath), [])
    && f.recordPath in f.rows && f.rows[f.recordPath] == RowFor(lib, f.recordPath, f.installedRecord)
    && f.rows.Keys == f.paths
  }

  ghost predicate WheelOk(lib: Library, enc: Encoders, files: seq<Listed>, lock: WheelLock, wheel: Wheel, f: Facts) {
    SourceOk(lib, enc, lock, wheel, f) && RecordOk(lib, enc, files, f) && FilesOk(lib, files, f)
  }

  /** `g` knows of the archive what `f` does. */
  ghost predicate SameSource(f: Facts, g: Facts) {
    f.recordPath == g.recordPath && f.members == g.members && f.source == g.source && f.sourceRecord == g.sourceRecord
  }

  lemma SourceDetermined(lib: Library, enc: Encoders, lock: WheelLock, wheel: Wheel, f: Facts, g: Facts)
    requires SourceOk(lib, enc, lock, wheel, f) && SourceOk(lib, enc, lock, wheel, g)
    ensures SameSource(f, g)
  {
    hide Says, Utf8Decode, IsRecordPath, HasPart, AllBound;
    assert f.recordPath == g.recordPath;
    SaysOneThing(lib, enc, Csv.ReadRows(Utf8Decode(f.sourceRecord).value), f.recordPath, f.source, g.source);
  }

  lemma RecordDetermined(lib: Library, enc: Encoders, files: seq<Listed>, f: Facts, g: Facts)
    requires SameSource(f, g) && |f.recordPath| >= 7 && RecordOk(lib, enc, files, f) && RecordOk(lib, enc, files, g)
    ensures f.installed == g.installed && f.installedRecord == g.installedRecord && f.paths == g.paths
  {
    hide Says, Utf8Decode, Installed, InstallerPath, RequestedPath;
    SaysOneThing(lib, enc, Csv.ReadRows(Utf8Decode(f.installedRecord).value), f.recordPath, f.installed, g.installed);
  }

  lemma RowsDetermined(lib: Library, files: seq<Listed>, f: Facts, g: Facts)
    requires |f.recordPath| >= 7 && SameSource(f, g) && FilesOk(lib, files, f) && FilesOk(lib, files, g)
    requires f.installed == g.installed && f.installedRecord == g.installedRecord && f.paths == g.paths
    requires f.paths == f.members.Keys + {InstallerPath(f.recordPath), RequestedPath(f.recordPath)}
    ensures f.rows == g.rows
  {
    hide InstallerPath, RequestedPath, Installed;
    forall p | p in f.rows ensures p in g.rows && f.rows[p] == g.rows[p] {
      if p in f.members && p != f.recordPath { assert FileSame(lib, files, f, p) && FileSame(lib, files, g, p); }
    }
  }

  /** What is known of a wheel that verifies is determined by the wheel and the installation. */
  lemma WheelDetermined(lib: Library, enc: Encoders, files: seq<Listed>, lock: WheelLock, wheel: Wheel, f: Facts,
          g: Facts)
    requires WheelOk(lib, enc, files, lock, wheel, f) && WheelOk(lib, enc, files, lock, wheel, g)
    ensures f == g
  {
    assert |f.recordPath| >= 7
      && f.paths == f.members.Keys + {InstallerPath(f.recordPath), RequestedPath(f.recordPath)};
    hide SourceOk, RecordOk, FilesOk, InstallerPath, RequestedPath;
    SourceDetermined(lib, enc, lock, wheel, f, g);
    RecordDetermined(lib, enc, files, f, g);
    RowsDetermined(lib, files, f, g);
  }

  /** Everything whose digest the verification compares. */
  function Contents(files: seq<Listed>, members: map<Str, Bytes>): set<Bytes> {
    (set k | 0 <= k < |files| && files[k].kind.Ordinary? :: files[k].kind.content) + members.Values
  }

  lemma {:induction false} FoundThere(files: seq<Listed>, path: Str)
    requires Find(files, path).Some?
    ensures exists k :: 0 <= k < |files| && files[k].kind == Ordinary(Find(files, path).value)
    decreases |files|
  {
    var last := files[|files| - 1];
    if last.path == path && last.kind.Ordinary? {
      assert files[|files| - 1].kind == Ordinary(Find(files, path).value);
    } else {
      FoundThere(files[..|files| - 1], path);
      var k :| 0 <= k < |files| - 1 && files[..|files| - 1][k].kind == Ordinary(Find(files, path).value);
      assert files[k].kind == Ordinary(Find(files, path).value);
    }
  }

  /** Unless two of the contents collide, the installed files are the archive's files, byte for byte. */
  lemma InstalledAreTheArchives(lib: Library, enc: Encoders, files: seq<Listed>, lock: WheelLock, wheel: Wheel,
          f: Facts)
    requires CollisionFree(lib, Contents(files, f.members)) && WheelOk(lib, enc, files, lock, wheel, f)
    ensures forall p | p in f.members && p != f.recordPath :: Installed(files, p) == Some(f.members[p])
  {
    hide IsRecord, OnlyRecord, HasPart, AllBound, Find;
    forall p | p in f.members && p != f.recordPath ensures Installed(files, p) == Some(f.members[p]) {
      assert FileSame(lib, files, f, p);
      FoundThere(files, Normal(p));
      assert f.members[p] in f.members.Values;
      assert Installed(files, p).value in Contents(files, f.members);
    }
  }
}
