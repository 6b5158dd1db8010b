/**
 The file manifest of a release candidate: the walk that makes its rows, directory by directory and
 file by file, with the limits on entries and sizes and the refusal of links, of unsafe paths and of
 paths that agree up to case.
 */
module ReleaseManifest {
  import opened Text
  import opened Json
  import opened JsonCanonical
  import opened JsonRoundTrip
  import opened JsonEncodable
  import opened Dictionary
  import opened ReleasePaths
  import opened ReleaseScan

  function Scan(lib: Library, walk: seq<Visit>, exclude: bool): Option<seq<Row>> {
    if Accepts(lib, walk, exclude) then Some(SortRows(RowsOf(lib, AllFiles(walk), exclude))) else None
  }

  // ---------------------------------------------------------------- _candidate_file_rows

  predicate LinkFree(v: Visit) {
    (forall j | 0 <= j < |v.directories| :: v.directories[j])
      && forall j | 0 <= j < |v.files| :: v.files[j].kind != Link
  }

  /** Listing one directory: every entry counts towards the limit, links are refused. */
  method ListEntries(v: Visit, count: nat) returns (ok: bool, total: nat)
    requires count <= MAX_CANDIDATE_FILES
    ensures ok <==> LinkFree(v) && count + |v.directories| + |v.files| <= MAX_CANDIDATE_FILES
    ensures ok ==> total == count + |v.directories| + |v.files|
  {
    total := count;
    var j := 0;
    while j < |v.directories|
      invariant 0 <= j <= |v.directories| && total == count + j <= MAX_CANDIDATE_FILES
      invariant forall i | 0 <= i < j :: v.directories[i]
    {
      total := total + 1;
      if total > MAX_CANDIDATE_FILES || !v.directories[j] { return false, total; }
      j := j + 1;
    }
    j := 0;
    while j < |v.files|
      invariant 0 <= j <= |v.files| && total == count + |v.directories| + j <= MAX_CANDIDATE_FILES
      invariant forall i | 0 <= i < j :: v.files[i].kind != Link
    {
      total := total + 1;
      if total > MAX_CANDIDATE_FILES || v.files[j].kind == Link { return false, total; }
      j := j + 1;
    }
    ok := true;
  }

  lemma LinkMeansRefused(lib: Library, walk: seq<Visit>, exclude: bool, i: nat)
    requires i < |walk|
    requires (!LinkFree(walk[i])
      || EntryCount(walk[..i]) + |walk[i].directories| + |walk[i].files| > MAX_CANDIDATE_FILES)
    ensures !Accepts(lib, walk, exclude)
  {
    if Accepts(lib, walk, exclude) {
      EntryCountGrows(walk, i + 1);
      assert walk[..i + 1][..i] == walk[..i];
      FilesPrefix(walk, i + 1);
      var before := AllFiles(walk[..i]);
      forall j | 0 <= j < |walk[i].files| ensures walk[i].files[j].kind != Link {
        assert AllFiles(walk[..i + 1]) == before + FilesOfVisit(walk[i]);
        var f := AllFiles(walk)[|before| + j];
        assert f == FilesOfVisit(walk[i])[j];
        assert FileOk(lib, f, exclude);
      }
      assert false;
    }
  }

  /** The files of one directory, after its entries were listed. */
  method ReadFiles(lib: Library, walk: seq<Visit>, exclude: bool, i: nat, was: seq<Row>, wasSeen: set<Str>,
          wasTotal: nat)
    returns (ok: bool, rows: seq<Row>, seen: set<Str>, total: nat)
    requires i < |walk| && LinkFree(walk[i]) && Reading(lib, AllFiles(walk[..i]), exclude, was, wasSeen, wasTotal)
    ensures ok ==> Reading(lib, AllFiles(walk[..i + 1]), exclude, rows, seen, total)
    ensures !ok ==> !Accepts(lib, walk, exclude)
  {
    hide Reading, Accepts, Portable, FileOk, LinkFree;
    var v := walk[i];
    rows, seen, total := was, wasSeen, wasTotal;
    var j := 0;
    assert FilesOfVisit(v)[..0] == [] && AllFiles(walk[..i]) + [] == AllFiles(walk[..i]);
    while j < |v.files|
      invariant 0 <= j <= |v.files| && Reading(lib, SoFar(walk, i, j), exclude, rows, seen, total)
    {
      var f := Listed(v.prefix + v.files[j].name, v.files[j].kind);
      SoFarMore(walk, i, j);
      assert f.kind != Link by { NotLink(v, j); }
      if !Portable(lib, f.path) || lib.fold(f.path) in seen {
        NotPortable(lib, f, exclude);
        RefusedFile(lib, walk, exclude, SoFar(walk, i, j), f, rows, seen, total);
        return false, rows, seen, total;
      }
      if exclude && f.path == FILE_MANIFEST_PATH {
        SkippedOk(lib, f, exclude);
        ReadingMore(lib, SoFar(walk, i, j), f, exclude, rows, seen, total);
        seen := seen + {lib.fold(f.path)};
      } else if !f.kind.Ordinary? || |f.kind.content| > MAX_CANDIDATE_FILE_BYTES
        || total + |f.kind.content| > MAX_CANDIDATE_BYTES {
        NotPortable(lib, f, exclude);
        RefusedFile(lib, walk, exclude, SoFar(walk, i, j), f, rows, seen, total);
        return false, rows, seen, total;
      } else {
        SkippedOk(lib, f, exclude);
        ReadingMore(lib, SoFar(walk, i, j), f, exclude, rows, seen, total);
        rows, seen, total := rows + [RowOf(lib, f)], seen + {lib.fold(f.path)}, total + |f.kind.content|;
      }
      j := j + 1;
    }
    assert FilesOfVisit(v)[..|v.files|] == FilesOfVisit(v);
    assert walk[..i + 1][..i] == walk[..i];
    ok := true;
  }

  lemma NotLink(v: Visit, j: nat)
    requires LinkFree(v) && j < |v.files|
    ensures v.files[j].kind != Link
  {
  }

  lemma NotPortable(lib: Library, f: Listed, exclude: bool)
    ensures !Portable(lib, f.path) ==> !FileOk(lib, f, exclude)
    ensures !Skipped(exclude, f) && (!f.kind.Ordinary? || |f.kind.content| > MAX_CANDIDATE_FILE_BYTES)
      ==> !FileOk(lib, f, exclude)
  {
    hide Portable;
  }

  lemma SkippedOk(lib: Library, f: Listed, exclude: bool)
    requires Portable(lib, f.path) && f.kind != Link
    ensures FileOk(lib, f, exclude)
      <==> Skipped(exclude, f) || (f.kind.Ordinary? && |f.kind.content| <= MAX_CANDIDATE_FILE_BYTES)
  {
    hide Portable;
  }

  /** `_candidate_file_rows` over what `os.walk` lists. */
  method CandidateFileRows(lib: Library, walk: seq<Visit>, exclude: bool) returns (r: Option<seq<Row>>)
    ensures r == Scan(lib, walk, exclude)
  {
    hide Reading, Accepts, Portable, FileOk, RowsOf, PlainDirectories, AllFiles, EntryCount;
    var rows: seq<Row>, seen: set<Str>, total: nat, count: nat := [], {}, 0, 0;
    var i := 0;
    assert walk[..0] == [];
    NothingRead(lib, exclude);
    while i < |walk|
      invariant 0 <= i <= |walk| && count == EntryCount(walk[..i]) <= MAX_CANDIDATE_FILES
      invariant Reading(lib, AllFiles(walk[..i]), exclude, rows, seen, total) && PlainDirectories(walk[..i])
    {
      var ok;
      ok, count := ListEntries(walk[i], count);
      if !ok {
        LinkMeansRefused(lib, walk, exclude, i);
        return None;
      }
      ok, rows, seen, total := ReadFiles(lib, walk, exclude, i, rows, seen, total);
      if !ok { return None; }
      OneMoreListedThrough(walk, i);
      i := i + 1;
    }
    assert walk[..i] == walk;
    WholeRead(lib, walk, exclude, rows, seen, total);
    r := Some(SortRows(rows));
  }

  lemma NothingRead(lib: Library, exclude: bool)
    ensures AllFiles([]) == [] && EntryCount([]) == 0 && PlainDirectories([])
    ensures Reading(lib, [], exclude, [], {}, 0)
  {
  }

  lemma OneMoreListedThrough(walk: seq<Visit>, i: nat)
    requires i < |walk| && PlainDirectories(walk[..i]) && LinkFree(walk[i])
    ensures PlainDirectories(walk[..i + 1])
    ensures EntryCount(walk[..i + 1]) == EntryCount(walk[..i]) + |walk[i].directories| + |walk[i].files|
  {
    assert walk[..i + 1][..i] == walk[..i];
  }

  lemma WholeRead(lib: Library, walk: seq<Visit>, exclude: bool, rows: seq<Row>, seen: set<Str>, total: nat)
    requires Reading(lib, AllFiles(walk), exclude, rows, seen, total)
    requires PlainDirectories(walk) && EntryCount(walk) <= MAX_CANDIDATE_FILES
    ensures Scan(lib, walk, exclude) == Some(SortRows(rows))
  {
    hide FileOk, RowsOf, PlainDirectories, AllFiles, EntryCount;
  }
}
