/** All wheels against an installation. */
module WheelVerify {
  // `_verify_wheel_install`: it succeeds exactly when every installed file is explained by exactly one wheel.

  import opened Text
  import Csv
  import opened ReleasePaths
  import opened ReleaseScan
  import opened ReleaseManifest
  import opened WheelInstall

  /** The archive's RECORD against the archive's bytes. */
  method CheckMembers(lib: Library, members: map<Str, Bytes>, source: Entries, recordPath: Str) returns (ok: bool)
    requires source.Keys == members.Keys
    ensures ok <==> AllBound(lib, members, source, recordPath)
  {
    var todo := members.Keys;
    while todo != {}
      invariant todo <= members.Keys
      invariant forall p | p in members && p !in todo && p != recordPath ::
          source[p] == Bound(lib.sha256(members[p]), |members[p]|)
      decreases |todo|
    {
      var p :| p in todo;
      if p != recordPath && source[p] != Bound(lib.sha256(members[p]), |members[p]|) { return false; }
      todo := todo - {p};
    }
    ok := true;
  }

  /** The one path that is a RECORD in a dist-info directory at the top, if it is the only one. */
  method FindRecord(members: map<Str, Bytes>) returns (r: Option<Str>)
    ensures r.Some? ==> OnlyRecord(members, r.value) && |r.value| >= 7
    ensures r.None? ==> forall p :: !OnlyRecord(members, p)
  {
    hide IsRecordPath;
    var todo := members.Keys;
    r := None;
    while todo != {}
      invariant todo <= members.Keys
      invariant r.None? ==> forall p | p in members && p !in todo :: !IsRecordPath(p)
      invariant r.Some? ==> r.value in members && IsRecordPath(r.value) && r.value !in todo
      invariant r.Some? ==> forall p | p in members && p !in todo :: IsRecordPath(p) ==> p == r.value
      decreases |todo|
    {
      var p :| p in todo;
      if IsRecordPath(p) {
        if r.Some? { return None; }
        r := Some(p);
      }
      todo := todo - {p};
    }
    if r.Some? { RecordPathLong(r.value); }
  }

  lemma RecordPathLong(p: Str)
    requires IsRecordPath(p)
    ensures |p| >= 7
  {
  }

  method CheckSource(lib: Library, enc: Encoders, lock: WheelLock, wheel: Wheel) returns (ok: bool, f: Facts)
    ensures ok ==> SourceOk(lib, enc, lock, wheel, f)
    ensures !ok ==> forall g :: !SourceOk(lib, enc, lock, wheel, g)
  {
    hide IsRecord, IsRecordPath, HasPart;
    f := Facts([], map[], map[], map[], [], [], {}, map[]);
    if |wheel.bytes| != lock.byteLength || lib.sha256(wheel.bytes) != lock.sha256 || wheel.members.None? {
      return false, f;
    }
    var members := wheel.members.value;
    var record := FindRecord(members);
    if record.None? || exists p | p in members :: HasPart(p, DATA) { return false, f; }
    RecordIs(lib, enc, lock, wheel, record.value);
    var source := RecordEntries(lib, enc, members[record.value], record.value);
    if source.None? { return false, f; }
    SourceIs(lib, enc, lock, wheel, record.value, source.value);
    if source.value.Keys != members.Keys { return false, f; }
    hide OnlyRecord, AllBound;
    ok := CheckMembers(lib, members, source.value, record.value);
    f := Facts(record.value, members, source.value, map[], members[record.value], [], {}, map[]);
  }

  lemma RecordIs(lib: Library, enc: Encoders, lock: WheelLock, wheel: Wheel, record: Str)
    requires wheel.members.Some? && OnlyRecord(wheel.members.value, record)
    ensures forall g | SourceOk(lib, enc, lock, wheel, g) ::
      g.recordPath == record && g.members == wheel.members.value && g.sourceRecord == wheel.members.value[record]
      && IsRecord(lib, enc, g.sourceRecord, record, g.source) && g.source.Keys == g.members.Keys
      && AllBound(lib, g.members, g.source, record)
  {
    hide IsRecord, IsRecordPath, HasPart, AllBound;
  }

  lemma SourceIs(lib: Library, enc: Encoders, lock: WheelLock, wheel: Wheel, record: Str, source: Entries)
    requires wheel.members.Some? && OnlyRecord(wheel.members.value, record)
    requires IsRecord(lib, enc, wheel.members.value[record], record, source)
    ensures forall g | SourceOk(lib, enc, lock, wheel, g) :: g.source == source
  {
    RecordIs(lib, enc, lock, wheel, record);
    hide Says, Utf8Decode, OnlyRecord, AllBound, SourceOk;
    forall g | SourceOk(lib, enc, lock, wheel, g) ensures g.source == source {
      SaysOneThing(lib, enc, Csv.ReadRows(Utf8Decode(g.sourceRecord).value), record, g.source, source);
    }
  }

  /** Source files on disk: their RECORD entry unchanged, their size and digest the archive's. */
  method CheckInstalledFiles(lib: Library, files: seq<Listed>, f: Facts) returns (ok: bool, rows: map<Str, Row>)
    requires f.source.Keys == f.members.Keys && f.members.Keys <= f.installed.Keys
    requires AllBound(lib, f.members, f.source, f.recordPath)
    ensures !ok ==> exists p :: p in f.members && p != f.recordPath && !FileFits(lib, files, f, p)
    ensures ok ==> rows.Keys == f.members.Keys - {f.recordPath}
    ensures ok ==> forall p | p in rows :: f.installed[p] == f.source[p] && Same(lib, files, p, f.members[p], rows[p])
  {
    hide Same, InstalledSame, Bindable, FileFits;
    rows := map[];
    var all := f.members.Keys - {f.recordPath};
    forall p | p in all ensures Bindable(lib, f, p) { SourceBindable(lib, f, p); }
    var todo := all;
    NoneInstalledYet(lib, files, f);
    while todo != {}
      invariant todo <= all && rows.Keys == all - todo && InstalledSame(lib, files, f, rows)
      decreases |todo|
    {
      var p :| p in todo;
      var ok, row := CheckInstalledFile(lib, files, f, p);
      if !ok { return false, rows; }
      OneMoreInstalled(lib, files, f, rows, p, row);
      KeysMore(rows, p, row, all, todo);
      rows := rows[p := row];
      todo := todo - {p};
    }
    ok := true;
    InstalledSameMeans(lib, files, f, rows);
  }

  /** A source file, in both RECORDs and bound by the archive's. */
  ghost predicate Bindable(lib: Library, f: Facts, p: Str) {
    p in f.members && p in f.installed && p in f.source
      && f.source[p] == Bound(lib.sha256(f.members[p]), |f.members[p]|)
  }

  lemma SourceBindable(lib: Library, f: Facts, p: Str)
    requires f.source.Keys == f.members.Keys && f.members.Keys <= f.installed.Keys && p in f.members
    requires f.source[p] == Bound(lib.sha256(f.members[p]), |f.members[p]|)
    ensures Bindable(lib, f, p)
  {
  }

  /** One source file: both entries, then the file. */
  method CheckInstalledFile(lib: Library, files: seq<Listed>, f: Facts, p: Str) returns (ok: bool, row: Row)
    requires Bindable(lib, f, p)
    ensures ok ==> InstalledSame(lib, files, f, map[p := row])
    ensures !ok ==> !FileFits(lib, files, f, p)
  {
    hide Same;
    if f.installed[p] != f.source[p] {
      row := RowFor(lib, p, []);
      return false, row;
    }
    ok, row := CheckFile(lib, files, p, f.members[p], f.source[p]);
  }

  ghost predicate InstalledSame(lib: Library, files: seq<Listed>, f: Facts, rows: map<Str, Row>) {
    forall p | p in rows ::
      p in f.installed && p in f.source && p in f.members
      && f.installed[p] == f.source[p] && Same(lib, files, p, f.members[p], rows[p])
  }

  lemma NoneInstalledYet(lib: Library, files: seq<Listed>, f: Facts)
    ensures InstalledSame(lib, files, f, map[])
  {
  }

  lemma InstalledSameMeans(lib: Library, files: seq<Listed>, f: Facts, rows: map<Str, Row>)
    requires InstalledSame(lib, files, f, rows)
    ensures forall p | p in rows ::
      p in f.installed && p in f.source && p in f.members
      && f.installed[p] == f.source[p] && Same(lib, files, p, f.members[p], rows[p])
  {
  }

  lemma OneMoreInstalled(lib: Library, files: seq<Listed>, f: Facts, rows: map<Str, Row>, p: Str, row: Row)
    requires InstalledSame(lib, files, f, rows) && InstalledSame(lib, files, f, map[p := row])
    ensures InstalledSame(lib, files, f, rows[p := row])
  {
    hide Same;
    assert p in map[p := row];
  }

  lemma KeysMore(rows: map<Str, Row>, p: Str, row: Row, all: set<Str>, todo: set<Str>)
    requires rows.Keys == all - todo && p in todo && todo <= all
    ensures rows[p := row].Keys == all - (todo - {p})
  {
  }

  /** One source file against its entry. */
  method CheckFile(lib: Library, files: seq<Listed>, p: Str, content: Bytes, entry: Entry) returns (ok: bool, row: Row)
    requires entry == Bound(lib.sha256(content), |content|)
    ensures row == RowFor(lib, p, if Installed(files, p).Some? then Installed(files, p).value else [])
    ensures ok <==> Same(lib, files, p, content, row)
  {
    hide Installed;
    var found := Installed(files, p);
    row := RowFor(lib, p, if found.Some? then found.value else []);
    ok := found.Some? && Bound(row.sha256, row.byteLength) == entry;
  }

  /** The two files that pip generates. */
  method CheckGenerated(lib: Library, files: seq<Listed>, f: Facts, path: Str, content: Bytes) returns (ok: bool)
    requires path in f.installed
    ensures ok
      <==> Installed(files, path) == Some(content) && f.installed[path] == Bound(lib.sha256(content), |content|)
  {
    hide Installed;
    var found := Installed(files, path);
    if found != Some(content) { return false; }
    var row := RowFor(lib, path, content);
    ok := f.installed[path] == Bound(row.sha256, row.byteLength);
  }

  /** The rows of a wheel's files, its two generated files and its RECORD. */
  function AllRows(lib: Library, rows: map<Str, Row>, recordPath: Str, installedRecord: Bytes): map<Str, Row>
    requires |recordPath| >= 7
  {
    rows[InstallerPath(recordPath) := RowFor(lib, InstallerPath(recordPath), INSTALLER)][
         RequestedPath(recordPath) := RowFor(lib, RequestedPath(recordPath), [])][
         recordPath := RowFor(lib, recordPath, installedRecord)]
  }

  lemma AllRowsOk(lib: Library, files: seq<Listed>, f: Facts, rows: map<Str, Row>)
    requires |f.recordPath| >= 7 && f.recordPath in f.members && f.source.Keys == f.members.Keys
    requires f.paths == f.members.Keys + {InstallerPath(f.recordPath), RequestedPath(f.recordPath)}
    requires f.installed.Keys == f.paths
    requires InstallerPath(f.recordPath) !in f.members && RequestedPath(f.recordPath) !in f.members
    requires rows.Keys == f.members.Keys - {f.recordPath}
    requires forall p | p in rows :: f.installed[p] == f.source[p] && Same(lib, files, p, f.members[p], rows[p])
    requires forall p | p in rows :: p in f.members
    requires Installed(files, InstallerPath(f.recordPath)) == Some(INSTALLER)
      && f.installed[InstallerPath(f.recordPath)] == Bound(lib.sha256(INSTALLER), |INSTALLER|)
    requires Installed(files, RequestedPath(f.recordPath)) == Some([])
      && f.installed[RequestedPath(f.recordPath)] == Bound(lib.sha256([]), 0)
    requires f.rows == AllRows(lib, rows, f.recordPath, f.installedRecord)
    ensures FilesOk(lib, files, f)
  {
    GeneratedDiffer(f.recordPath);
    hide Same, Installed, InstallerPath, RequestedPath, RowFor;
    assert f.rows.Keys == f.paths;
  }

  /** The installed RECORD and what it must name. */
  method CheckInstalledRecord(lib: Library, enc: Encoders, files: seq<Listed>, source: Facts)
    returns (ok: bool, f: Facts)
    requires |source.recordPath| >= 7
    ensures f == source.(installed := f.installed, installedRecord := f.installedRecord, paths := f.paths)
    ensures ok ==> RecordOk(lib, enc, files, f)
    ensures !ok ==> forall g | SameSource(source, g) :: !RecordOk(lib, enc, files, g)
  {
    hide Says, Utf8Decode, Installed, InstallerPath, RequestedPath;
    f := source;
    var installer, requested := InstallerPath(f.recordPath), RequestedPath(f.recordPath);
    if installer in f.members || requested in f.members { return false, f; }
    var record := Installed(files, f.recordPath);
    if record.None? { return false, f; }
    var installed := RecordEntries(lib, enc, record.value, f.recordPath);
    var paths := f.members.Keys + {installer, requested};
    if installed.None? { return false, f; }
    InstalledIs(lib, enc, files, source, record.value, installed.value);
    if installed.value.Keys != paths { return false, f; }
    f := f.(installed := installed.value, installedRecord := record.value, paths := paths);
    ok := true;
  }

  lemma InstalledIs(lib: Library, enc: Encoders, files: seq<Listed>, f: Facts, record: Bytes, installed: Entries)
    requires |f.recordPath| >= 7 && Installed(files, f.recordPath) == Some(record)
    requires IsRecord(lib, enc, record, f.recordPath, installed)
    ensures forall g | SameSource(f, g) && RecordOk(lib, enc, files, g) ::
      g.installed == installed
        && installed.Keys == f.members.Keys + {InstallerPath(f.recordPath), RequestedPath(f.recordPath)}
  {
    hide Says, Utf8Decode, Installed, InstallerPath, RequestedPath;
    forall g | SameSource(f, g) && RecordOk(lib, enc, files, g) ensures g.installed == installed {
      SaysOneThing(lib, enc, Csv.ReadRows(Utf8Decode(record).value), f.recordPath, g.installed, installed);
    }
  }

  /** If some source file does not fit, or a generated file is not as it should be, no wheel fits. */
  lemma NothingFits(lib: Library, enc: Encoders, files: seq<Listed>, lock: WheelLock, wheel: Wheel, f: Facts)
    requires SourceOk(lib, enc, lock, wheel, f) && RecordOk(lib, enc, files, f)
    requires var i, r := InstallerPath(f.recordPath), RequestedPath(f.recordPath);
      (exists p :: p in f.members && p != f.recordPath && !FileFits(lib, files, f, p))
      || !(i in f.installed && Installed(files, i) == Some(INSTALLER)
        && f.installed[i] == Bound(lib.sha256(INSTALLER), |INSTALLER|))
      || !(r in f.installed && Installed(files, r) == Some([]) && f.installed[r] == Bound(lib.sha256([]), 0))
    ensures forall g :: !WheelOk(lib, enc, files, lock, wheel, g)
  {
    hide SourceOk, RecordOk, FilesOk;
    forall g | WheelOk(lib, enc, files, lock, wheel, g) ensures false {
      SourceDetermined(lib, enc, lock, wheel, f, g);
      SourceLong(lib, enc, lock, wheel, f);
      RecordDetermined(lib, enc, files, f, g);
      FilesFit(lib, files, g);
      FitsToo(lib, files, f, g);
    }
  }

  lemma SourceLong(lib: Library, enc: Encoders, lock: WheelLock, wheel: Wheel, f: Facts)
    requires SourceOk(lib, enc, lock, wheel, f)
    ensures |f.recordPath| >= 7 && f.recordPath in f.members
  {
    hide IsRecord, IsRecordPath, AllBound, HasPart;
  }

  lemma FilesFit(lib: Library, files: seq<Listed>, f: Facts)
    requires |f.recordPath| >= 7 && FilesOk(lib, files, f)
    ensures forall p | p in f.members && p != f.recordPath :: FileFits(lib, files, f, p)
    ensures GeneratedIs(lib, files, f, InstallerPath(f.recordPath), INSTALLER)
    ensures GeneratedIs(lib, files, f, RequestedPath(f.recordPath), [])
  {
    hide Installed, GeneratedIs, InstallerPath, RequestedPath;
    forall p | p in f.members && p != f.recordPath
      ensures FileFits(lib, files, f, p)
    {
      assert FileSame(lib, files, f, p);
    }
  }

  lemma FitsToo(lib: Library, files: seq<Listed>, f: Facts, g: Facts)
    requires SameSource(f, g) && f.installed == g.installed
    ensures forall p :: FileFits(lib, files, f, p) <==> FileFits(lib, files, g, p)
  {
    hide Same, Installed;
  }

  /** One wheel of the loop. */
  method CheckWheel(lib: Library, enc: Encoders, files: seq<Listed>, lock: WheelLock, wheel: Wheel)
    returns (ok: bool, f: Facts)
    ensures ok ==> WheelOk(lib, enc, files, lock, wheel, f)
    ensures !ok ==> forall g :: !WheelOk(lib, enc, files, lock, wheel, g)
  {
    hide IsRecord, Installed, OnlyRecord, AllBound, HasPart, AllRows, Same, FilesOk, FileFits, InstallerPath,
      RequestedPath;
    ok, f := CheckSource(lib, enc, lock, wheel);
    if !ok { return; }
    ghost var source := f;
    ok, f := CheckInstalledRecord(lib, enc, files, f);
    if !ok {
      NoRecord(lib, enc, files, lock, wheel, source);
      return;
    }
    var rows;
    ok, rows := CheckInstalledFiles(lib, files, f);
    if ok { ok := CheckGenerated(lib, files, f, InstallerPath(f.recordPath), INSTALLER); }
    if ok { ok := CheckGenerated(lib, files, f, RequestedPath(f.recordPath), []); }
    if !ok {
      NothingFits(lib, enc, files, lock, wheel, f);
      return;
    }
    SourceLong(lib, enc, lock, wheel, f);
    f := f.(rows := AllRows(lib, rows, f.recordPath, f.installedRecord));
    AllRowsOk(lib, files, f, rows);
  }

  lemma NoRecord(lib: Library, enc: Encoders, files: seq<Listed>, lock: WheelLock, wheel: Wheel, f: Facts)
    requires SourceOk(lib, enc, lock, wheel, f) && |f.recordPath| >= 7
    requires forall g | SameSource(f, g) :: !RecordOk(lib, enc, files, g)
    ensures forall g :: !WheelOk(lib, enc, files, lock, wheel, g)
  {
    hide SourceOk, RecordOk, FilesOk, SameSource;
    forall g | WheelOk(lib, enc, files, lock, wheel, g) ensures false { SourceDetermined(lib, enc, lock, wheel, f, g); }
  }

  // ---------------------------------------------------------------- all wheels

  datatype WheelReport = WheelReport(
    filename: Str, archiveSha256: Str, sourceRecordSha256: Str, installedRecordSha256: Str, sourceFiles: nat,
      installedFiles: nat)

  datatype Report = Report(
    wheelCount: nat, sourceFiles: nat, installedFiles: nat, generatedFiles: nat, lockedWheelsSha256: Str,
    installedTreeSha256: Str, wheels: seq<WheelReport>)

  function ReportOf(lib: Library, lock: WheelLock, f: Facts): WheelReport
    requires |f.source| > 0
  {
    WheelReport(lock.filename, lock.sha256, lib.sha256(f.sourceRecord), lib.sha256(f.installedRecord), |f.source| - 1,
      |f.paths|)
  }

  /** No two installed paths, of one wheel or of two, are the same up to case. */
  ghost predicate FoldsApart(lib: Library, paths: set<Str>) {
    forall p, q | p in paths && q in paths && p != q :: lib.fold(p) != lib.fold(q)
  }

  /** The paths of the first wheels, all together. */
  function Union(facts: seq<Facts>): set<Str> {
    if facts == [] then {} else Union(facts[..|facts| - 1]) + facts[|facts| - 1].paths
  }

  function UnionRows(facts: seq<Facts>): map<Str, Row> {
    if facts == [] then map[] else UnionRows(facts[..|facts| - 1]) + facts[|facts| - 1].rows
  }

  function SourceFiles(reports: seq<WheelReport>): nat {
    if reports == [] then 0 else SourceFiles(reports[..|reports| - 1]) + reports[|reports| - 1].sourceFiles
  }

  function InstalledFiles(reports: seq<WheelReport>): nat {
    if reports == [] then 0 else InstalledFiles(reports[..|reports| - 1]) + reports[|reports| - 1].installedFiles
  }

  /** No path is installed by two wheels. */
  ghost predicate Disjoint(facts: seq<Facts>) {
    forall i, j | 0 <= i < j < |facts| :: facts[i].paths !! facts[j].paths
  }

  /** The wheels of the lock, verified one by one. */
  ghost predicate AllWheels(lib: Library, enc: Encoders, files: seq<Listed>, locks: seq<WheelLock>,
          wheelhouse: map<Str, Wheel>, facts: seq<Facts>) {
    |facts| == |locks|
    && forall i | 0 <= i < |locks| ::
      && locks[i].filename in wheelhouse
      && WheelOk(lib, enc, files, locks[i], wheelhouse[locks[i].filename], facts[i])
  }

  ghost predicate AllReports(lib: Library, locks: seq<WheelLock>, facts: seq<Facts>, reports: seq<WheelReport>) {
    |reports| == |facts| == |locks|
    && forall i | 0 <= i < |locks| :: |facts[i].source| > 0 && reports[i] == ReportOf(lib, locks[i], facts[i])
  }

  lemma PathCount(lib: Library, enc: Encoders, files: seq<Listed>, lock: WheelLock, wheel: Wheel, f: Facts)
    requires WheelOk(lib, enc, files, lock, wheel, f)
    ensures |f.paths| == |f.source| + 2 && |f.source| > 0 && f.rows.Keys == f.paths
  {
    hide Says, Utf8Decode, Installed;
    GeneratedDiffer(f.recordPath);
    assert |f.source| == |f.source.Keys| == |f.members.Keys|;
    assert f.recordPath in f.source;
  }

  /** `all` holds the case-folded paths. */
  ghost predicate FoldedPaths(lib: Library, paths: set<Str>, all: set<Str>) {
    (forall p | p in paths :: lib.fold(p) in all) && forall x | x in all :: exists p :: p in paths && lib.fold(p) == x
  }

  lemma FoldOneMore(lib: Library, paths: set<Str>, p: Str, all: set<Str>)
    requires FoldsApart(lib, paths) && FoldedPaths(lib, paths, all) && lib.fold(p) !in all
    ensures p !in paths && FoldsApart(lib, paths + {p}) && FoldedPaths(lib, paths + {p}, all + {lib.fold(p)})
  {
    forall q | q in paths ensures lib.fold(q) != lib.fold(p) { assert lib.fold(q) in all; }
    forall x | x in all + {lib.fold(p)} ensures exists q :: q in paths + {p} && lib.fold(q) == x {
      if x in all {
        var q :| q in paths && lib.fold(q) == x;
        assert q in paths + {p} && lib.fold(q) == x;
      } else {
        assert p in paths + {p} && lib.fold(p) == x;
      }
    }
  }

  /** The case-folded paths of one wheel, checked against all before: the loop over `installed_paths`. */
  method Collide(lib: Library, paths: set<Str>, seen: set<Str>, ghost before: set<Str>)
    returns (ok: bool, all: set<Str>)
    requires FoldsApart(lib, before) && FoldedPaths(lib, before, seen)
    ensures ok ==> FoldsApart(lib, before + paths) && before !! paths && FoldedPaths(lib, before + paths, all)
    ensures !ok ==> !(FoldsApart(lib, before + paths) && before !! paths)
  {
    hide FoldsApart, FoldedPaths;
    all := seen;
    var todo := paths;
    ghost var acc := before;
    while todo != {}
      invariant todo <= paths && acc == before + (paths - todo) && before !! (paths - todo)
      invariant FoldsApart(lib, acc) && FoldedPaths(lib, acc, all)
      decreases |todo|
    {
      var p :| p in todo;
      if lib.fold(p) in all {
        FoldSeen(lib, before, paths, acc, p, all);
        return false, all;
      }
      FoldOneMore(lib, acc, p, all);
      SetStep(before, paths, todo, p);
      all := all + {lib.fold(p)};
      acc := acc + {p};
      todo := todo - {p};
    }
    assert acc == before + paths && paths - todo == paths;
    ok := true;
  }

  lemma FoldSeen(lib: Library, before: set<Str>, paths: set<Str>, acc: set<Str>, p: Str, all: set<Str>)
    requires p in paths && acc <= before + paths && (p in acc ==> p in before) && FoldedPaths(lib, acc, all)
    requires lib.fold(p) in all
    ensures !(FoldsApart(lib, before + paths) && before !! paths)
  {
    var q :| q in acc && lib.fold(q) == lib.fold(p);
    if q != p { assert q in before + paths && p in before + paths; }
  }

  lemma SetStep(before: set<Str>, paths: set<Str>, todo: set<Str>, p: Str)
    requires todo <= paths && before !! (paths - todo) && p in todo && p !in before + (paths - todo)
    ensures before + (paths - (todo - {p})) == before + (paths - todo) + {p} && before !! (paths - (todo - {p}))
  {
    assert paths - (todo - {p}) == (paths - todo) + {p};
  }

  lemma {:induction false} InUnion(facts: seq<Facts>, i: nat)
    requires i < |facts|
    ensures facts[i].paths <= Union(facts)
    decreases |facts|
  {
    if i < |facts| - 1 { InUnion(facts[..|facts| - 1], i); }
  }

  /** The state of the loop over the wheels. */
  ghost predicate Progress(lib: Library, enc: Encoders, files: seq<Listed>, locks: seq<WheelLock>,
          wheelhouse: map<Str, Wheel>, facts: seq<Facts>, reports: seq<WheelReport>, expected: set<Str>,
          rows: map<Str, Row>, seen: set<Str>) {
    && AllWheels(lib, enc, files, locks, wheelhouse, facts) && AllReports(lib, locks, facts, reports)
    && expected == Union(facts) && rows == UnionRows(facts) && rows.Keys == expected
    && FoldsApart(lib, expected) && Disjoint(facts) && FoldedPaths(lib, expected, seen)
    && |expected| == InstalledFiles(reports) && InstalledFiles(reports) == SourceFiles(reports) + 3 * |reports|
  }

  lemma SumsMore(reports: seq<WheelReport>, r: WheelReport)
    ensures SourceFiles(reports + [r]) == SourceFiles(reports) + r.sourceFiles
    ensures InstalledFiles(reports + [r]) == InstalledFiles(reports) + r.installedFiles
  {
    assert (reports + [r])[..|reports|] == reports;
  }

  lemma UnionMore(facts: seq<Facts>, f: Facts)
    ensures Union(facts + [f]) == Union(facts) + f.paths && UnionRows(facts + [f]) == UnionRows(facts) + f.rows
  {
    assert (facts + [f])[..|facts|] == facts;
  }

  lemma DisjointMore(facts: seq<Facts>, f: Facts)
    requires Disjoint(facts) && Union(facts) !! f.paths
    ensures Disjoint(facts + [f])
  {
    var more := facts + [f];
    forall i, j | 0 <= i < j < |more| ensures more[i].paths !! more[j].paths {
      if j == |facts| { InUnion(facts, i); }
    }
  }

  lemma WheelsMore(lib: Library, enc: Encoders, files: seq<Listed>, locks: seq<WheelLock>, wheelhouse: map<Str, Wheel>,
          facts: seq<Facts>, reports: seq<WheelReport>, lock: WheelLock, f: Facts)
    requires AllWheels(lib, enc, files, locks, wheelhouse, facts) && AllReports(lib, locks, facts, reports)
    requires lock.filename in wheelhouse && WheelOk(lib, enc, files, lock, wheelhouse[lock.filename], f)
    requires |f.source| > 0
    ensures AllWheels(lib, enc, files, locks + [lock], wheelhouse, facts + [f])
    ensures AllReports(lib, locks + [lock], facts + [f], reports + [ReportOf(lib, lock, f)])
  {
    hide WheelOk;
  }

  lemma DisjointSizes(a: set<Str>, b: set<Str>)
    requires a !! b
    ensures |a + b| == |a| + |b|
  {
  }

  lemma KeysOfSum(a: map<Str, Row>, b: map<Str, Row>)
    ensures (a + b).Keys == a.Keys + b.Keys
  {
  }

  lemma ProgressMore(lib: Library, enc: Encoders, files: seq<Listed>, locks: seq<WheelLock>,
          wheelhouse: map<Str, Wheel>, facts: seq<Facts>, reports: seq<WheelReport>, expected: set<Str>,
          rows: map<Str, Row>, seen: set<Str>, lock: WheelLock, f: Facts, all: set<Str>)
    requires Progress(lib, enc, files, locks, wheelhouse, facts, reports, expected, rows, seen)
    requires lock.filename in wheelhouse && WheelOk(lib, enc, files, lock, wheelhouse[lock.filename], f)
    requires FoldsApart(lib, expected + f.paths) && expected !! f.paths && FoldedPaths(lib, expected + f.paths, all)
    ensures |f.source| > 0
    ensures Progress(lib, enc, files, locks + [lock], wheelhouse, facts + [f], reports + [ReportOf(lib, lock, f)],
                     expected + f.paths, rows + f.rows, all)
  {
    hide WheelOk, FoldsApart, FoldedPaths, Disjoint, Union, UnionRows, SourceFiles, InstalledFiles, AllWheels,
      AllReports;
    PathCount(lib, enc, files, lock, wheelhouse[lock.filename], f);
    WheelsMore(lib, enc, files, locks, wheelhouse, facts, reports, lock, f);
    var r := ReportOf(lib, lock, f);
    assert r.sourceFiles == |f.source| - 1 && r.installedFiles == |f.paths|;
    hide ReportOf;
    SumsMore(reports, r);
    UnionMore(facts, f);
    DisjointMore(facts, f);
    DisjointSizes(expected, f.paths);
    KeysOfSum(rows, f.rows);
  }

  /**
   `_verify_wheel_install`. It returns a report exactly if the wheels are the locked ones, the installed
   files are exactly the files of the wheels' RECORDs with INSTALLER and REQUESTED, each belongs to
   one wheel and no two agree up to case; then the counts add up.
   */
  method VerifyWheelInstall(lib: Library, enc: Encoders, walk: seq<Visit>, wheelhouse: map<Str, Wheel>,
          locks: seq<WheelLock>)
    returns (r: Option<Report>, ghost facts: seq<Facts>)
    ensures r.Some? ==> Explained(lib, enc, walk, wheelhouse, locks, facts)
    ensures r.Some? ==> AllReports(lib, locks, facts, r.value.wheels) && Counted(r.value, Union(facts))
    ensures r.Some? ==> Hashed(lib, enc, walk, locks, r.value)
    ensures r.None? ==> forall any :: !Explained(lib, enc, walk, wheelhouse, locks, any)
  {
    var files := AllFiles(walk);
    var ok, loop, sourceFiles;
    ok, loop, sourceFiles, facts := VerifyWheels(lib, enc, files, wheelhouse, locks);
    hide *;
    if !ok {
      NotFit(lib, enc, walk, wheelhouse, locks);
      return None, facts;
    }
    var actual := CandidateFileRows(lib, walk, false);
    if actual.None? || !SameListing(actual.value, loop.expected, loop.rows) {
      NotListed(lib, enc, walk, wheelhouse, locks, facts, loop);
      return None, facts;
    }
    var report := Report(|loop.reports|, sourceFiles, |loop.expected|, 2 * |locks|,
                         lib.sha256(enc.locks(locks)), lib.sha256(enc.rows(actual.value)), loop.reports);
    ProgressEnds(lib, enc, walk, wheelhouse, locks, facts, loop, actual.value, report);
    r := Some(report);
  }

  lemma NotFit(lib: Library, enc: Encoders, walk: seq<Visit>, wheelhouse: map<Str, Wheel>, locks: seq<WheelLock>)
    requires forall any :: !AllFit(lib, enc, AllFiles(walk), locks, wheelhouse, any)
    ensures forall any :: !Explained(lib, enc, walk, wheelhouse, locks, any)
  {
    hide AllWheels, Disjoint, FoldsApart, Scan, AllFiles, SameListing;
    forall any | Explained(lib, enc, walk, wheelhouse, locks, any) ensures false {
      assert AllFit(lib, enc, AllFiles(walk), locks, wheelhouse, any);
    }
  }

  lemma NotListed(lib: Library, enc: Encoders, walk: seq<Visit>, wheelhouse: map<Str, Wheel>, locks: seq<WheelLock>,
          facts: seq<Facts>, loop: Loop)
    requires Progress(lib, enc, AllFiles(walk), locks, wheelhouse, facts, loop.reports, loop.expected, loop.rows,
      loop.seen)
    requires Scan(lib, walk, false).None? || !SameListing(Scan(lib, walk, false).value, loop.expected, loop.rows)
    ensures forall any :: !Explained(lib, enc, walk, wheelhouse, locks, any)
  {
    hide WheelOk, Disjoint, FoldsApart, Scan, AllFiles, SameListing, FoldedPaths, Union, UnionRows;
    forall any | Explained(lib, enc, walk, wheelhouse, locks, any) ensures any == facts {
      forall k | 0 <= k < |locks| ensures any[k] == facts[k] {
        WheelDetermined(lib, enc, AllFiles(walk), locks[k], wheelhouse[locks[k].filename], any[k], facts[k]);
      }
    }
  }

  lemma ProgressEnds(lib: Library, enc: Encoders, walk: seq<Visit>, wheelhouse: map<Str, Wheel>, locks: seq<WheelLock>,
          facts: seq<Facts>, loop: Loop, actual: seq<Row>, r: Report)
    requires Progress(lib, enc, AllFiles(walk), locks, wheelhouse, facts, loop.reports, loop.expected, loop.rows,
      loop.seen)
    requires Scan(lib, walk, false) == Some(actual) && SameListing(actual, loop.expected, loop.rows)
    requires r == Report(|loop.reports|, SourceFiles(loop.reports), |loop.expected|, 2 * |locks|,
                         lib.sha256(enc.locks(locks)), lib.sha256(enc.rows(actual)), loop.reports)
    ensures Explained(lib, enc, walk, wheelhouse, locks, facts) && AllReports(lib, locks, facts, r.wheels)
    ensures Counted(r, Union(facts)) && Hashed(lib, enc, walk, locks, r)
  {
    hide Scan, AllFiles, FoldsApart, AllWheels, SourceFiles, InstalledFiles, Disjoint, SameListing, FoldedPaths, Union,
      UnionRows;
  }

  ghost predicate Hashed(lib: Library, enc: Encoders, walk: seq<Visit>, locks: seq<WheelLock>, r: Report) {
    r.lockedWheelsSha256 == lib.sha256(enc.locks(locks)) && Scan(lib, walk, false).Some?
    && r.installedTreeSha256 == lib.sha256(enc.rows(Scan(lib, walk, false).value))
  }

  /** What the loop keeps in its variables. */
  datatype Loop = Loop(expected: set<Str>, rows: map<Str, Row>, seen: set<Str>, reports: seq<WheelReport>)

  /** The next wheel verifies and its paths are new. */
  ghost predicate Fits(lib: Library, enc: Encoders, files: seq<Listed>, wheelhouse: map<Str, Wheel>, lock: WheelLock,
          expected: set<Str>, g: Facts) {
    lock.filename in wheelhouse && WheelOk(lib, enc, files, lock, wheelhouse[lock.filename], g)
    && FoldsApart(lib, expected + g.paths) && expected !! g.paths
  }

  /** One round of the loop. */
  method OneWheel(lib: Library, enc: Encoders, files: seq<Listed>, wheelhouse: map<Str, Wheel>, lock: WheelLock,
          was: Loop, ghost locks: seq<WheelLock>, ghost facts: seq<Facts>)
    returns (ok: bool, now: Loop, f: Facts)
    requires Progress(lib, enc, files, locks, wheelhouse, facts, was.reports, was.expected, was.rows, was.seen)
    ensures ok
      ==> Progress(lib, enc, files, locks + [lock], wheelhouse, facts + [f], now.reports, now.expected, now.rows,
        now.seen)
    ensures ok ==> |f.source| > 0 && now.reports == was.reports + [ReportOf(lib, lock, f)]
    ensures !ok ==> forall g :: !Fits(lib, enc, files, wheelhouse, lock, was.expected, g)
  {
    hide WheelOk, Progress, FoldsApart, FoldedPaths;
    now, f := was, Facts([], map[], map[], map[], [], [], {}, map[]);
    if lock.filename !in wheelhouse { return false, now, f; }
    ok, f := CheckWheel(lib, enc, files, lock, wheelhouse[lock.filename]);
    if !ok { return; }
    ProgressFolds(lib, enc, files, locks, wheelhouse, facts, was.reports, was.expected, was.rows, was.seen);
    var all;
    ok, all := Collide(lib, f.paths, was.seen, was.expected);
    if !ok {
      forall g | Fits(lib, enc, files, wheelhouse, lock, was.expected, g) ensures false {
        WheelDetermined(lib, enc, files, lock, wheelhouse[lock.filename], f, g);
      }
      return;
    }
    ProgressMore(lib, enc, files, locks, wheelhouse, facts, was.reports, was.expected, was.rows, was.seen, lock, f,
      all);
    now := Loop(was.expected + f.paths, was.rows + f.rows, all, was.reports + [ReportOf(lib, lock, f)]);
  }

  lemma ProgressStart(lib: Library, enc: Encoders, files: seq<Listed>, wheelhouse: map<Str, Wheel>)
    ensures Progress(lib, enc, files, [], wheelhouse, [], [], {}, map[], {})
  {
  }

  /** All wheels verify and no two paths agree up to case. */
  ghost predicate AllFit(lib: Library, enc: Encoders, files: seq<Listed>, locks: seq<WheelLock>,
          wheelhouse: map<Str, Wheel>, facts: seq<Facts>) {
    AllWheels(lib, enc, files, locks, wheelhouse, facts) && Disjoint(facts) && FoldsApart(lib, Union(facts))
  }

  lemma FrontDetermined(lib: Library, enc: Encoders, files: seq<Listed>, locks: seq<WheelLock>,
          wheelhouse: map<Str, Wheel>, facts: seq<Facts>, i: nat, any: seq<Facts>)
    requires i < |locks| && AllWheels(lib, enc, files, locks[..i], wheelhouse, facts)
    requires AllWheels(lib, enc, files, locks, wheelhouse, any)
    ensures any[..i] == facts
  {
    hide WheelOk;
    forall k | 0 <= k < i ensures any[k] == facts[k] {
      assert locks[..i][k] == locks[k];
      WheelDetermined(lib, enc, files, locks[k], wheelhouse[locks[k].filename], any[k], facts[k]);
    }
  }

  lemma {:induction false} UnionFront(facts: seq<Facts>, i: nat)
    requires i <= |facts|
    ensures Union(facts[..i]) <= Union(facts)
    decreases |facts|
  {
    if i < |facts| {
      UnionFront(facts[..|facts| - 1], i);
      assert facts[..|facts| - 1][..i] == facts[..i];
    } else {
      assert facts[..i] == facts;
    }
  }

  lemma {:induction false} UnionApart(facts: seq<Facts>, i: nat)
    requires i < |facts| && Disjoint(facts)
    ensures Union(facts[..i]) !! facts[i].paths
  {
    forall p | p in Union(facts[..i]) ensures p !in facts[i].paths { var k := UnionAt(facts[..i], p); }
  }

  lemma {:induction false} UnionAt(facts: seq<Facts>, p: Str) returns (i: nat)
    requires p in Union(facts)
    ensures i < |facts| && p in facts[i].paths
    decreases |facts|
  {
    if p in facts[|facts| - 1].paths {
      i := |facts| - 1;
    } else {
      i := UnionAt(facts[..|facts| - 1], p);
    }
  }

  /** If all wheels fit together, each fits after those before it. */
  lemma FitsNext(lib: Library, enc: Encoders, files: seq<Listed>, locks: seq<WheelLock>, wheelhouse: map<Str, Wheel>,
          facts: seq<Facts>, was: Loop, i: nat, any: seq<Facts>)
    requires i < |locks| && AllFit(lib, enc, files, locks, wheelhouse, any)
    requires Progress(lib, enc, files, locks[..i], wheelhouse, facts, was.reports, was.expected, was.rows, was.seen)
    ensures |any| == |locks| && Fits(lib, enc, files, wheelhouse, locks[i], was.expected, any[i])
  {
    hide WheelOk, Union, Disjoint, AllReports, FoldedPaths, UnionRows, SourceFiles, InstalledFiles;
    FrontDetermined(lib, enc, files, locks, wheelhouse, facts, i, any);
    UnionFront(any, i);
    InUnion(any, i);
    UnionApart(any, i);
  }

  /** The loop over the locked wheels. */
  method VerifyWheels(lib: Library, enc: Encoders, files: seq<Listed>, wheelhouse: map<Str, Wheel>,
          locks: seq<WheelLock>)
    returns (ok: bool, loop: Loop, sourceFiles: nat, ghost facts: seq<Facts>)
    ensures ok
      ==> Progress(lib, enc, files, locks, wheelhouse, facts, loop.reports, loop.expected, loop.rows, loop.seen)
    ensures ok ==> sourceFiles == SourceFiles(loop.reports)
    ensures !ok ==> forall any :: !AllFit(lib, enc, files, locks, wheelhouse, any)
  {
    hide Progress, AllFit, Fits;
    ok, loop, sourceFiles, facts := true, Loop({}, map[], {}, []), 0, [];
    ProgressStart(lib, enc, files, wheelhouse);
    assert locks[..0] == [];
    var i := 0;
    while i < |locks|
      invariant 0 <= i <= |locks| && sourceFiles == SourceFiles(loop.reports)
      invariant Progress(lib, enc, files, locks[..i], wheelhouse, facts, loop.reports, loop.expected, loop.rows,
        loop.seen)
    {
      ghost var was := loop;
      var f;
      ok, loop, f := OneWheel(lib, enc, files, wheelhouse, locks[i], loop, locks[..i], facts);
      if !ok {
        forall any | AllFit(lib, enc, files, locks, wheelhouse, any) ensures false {
          FitsNext(lib, enc, files, locks, wheelhouse, facts, was, i, any);
        }
        return;
      }
      SumsMore(was.reports, ReportOf(lib, locks[i], f));
      assert locks[..i + 1] == locks[..i] + [locks[i]];
      sourceFiles := sourceFiles + (|f.source| - 1);
      facts := facts + [f];
      i := i + 1;
    }
    assert locks[..i] == locks;
    ok := true;
  }

  lemma ProgressFolds(lib: Library, enc: Encoders, files: seq<Listed>, locks: seq<WheelLock>,
          wheelhouse: map<Str, Wheel>, facts: seq<Facts>, reports: seq<WheelReport>, expected: set<Str>,
          rows: map<Str, Row>, seen: set<Str>)
    requires Progress(lib, enc, files, locks, wheelhouse, facts, reports, expected, rows, seen)
    ensures FoldsApart(lib, expected) && FoldedPaths(lib, expected, seen)
  {
  }

  /** The listed rows are the expected ones, path by path. */
  predicate SameListing(actual: seq<Row>, expected: set<Str>, rows: map<Str, Row>) {
    (set i | 0 <= i < |actual| :: actual[i].path) == expected
    && forall i | 0 <= i < |actual| :: actual[i].path in rows && rows[actual[i].path] == actual[i]
  }

  ghost predicate Explained(lib: Library, enc: Encoders, walk: seq<Visit>, wheelhouse: map<Str, Wheel>,
          locks: seq<WheelLock>, facts: seq<Facts>) {
    && AllWheels(lib, enc, AllFiles(walk), locks, wheelhouse, facts)
    && Disjoint(facts) && FoldsApart(lib, Union(facts))
    && Scan(lib, walk, false).Some? && SameListing(Scan(lib, walk, false).value, Union(facts), UnionRows(facts))
  }

  /** Installed files are the source files and three more per wheel: RECORD, INSTALLER, REQUESTED. */
  ghost predicate Counted(r: Report, paths: set<Str>) {
    && r.wheelCount == |r.wheels| && r.sourceFiles == SourceFiles(r.wheels)
    && r.installedFiles == |paths| == InstalledFiles(r.wheels) && r.installedFiles == r.sourceFiles + 3 * r.wheelCount
    && r.generatedFiles == 2 * r.wheelCount
  }
}
