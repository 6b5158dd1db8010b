/** What the assembler writes the verifier accepts: exactly when, for every tree of files. */
module ReleaseAgreement {
  import opened Text
  import opened Json
  import opened JsonCanonical
  import opened JsonRoundTrip
  import opened Dictionary
  import opened ReleasePaths
  import opened ReleaseScan
  import opened ReleaseManifest
  import opened ReleaseVerify

  // ---------------------------------------------------------------- a scan is in order

  lemma {:induction false} NoMoreFilesThanEntries(walk: seq<Visit>)
    ensures |AllFiles(walk)| <= EntryCount(walk)
    decreases |walk|
  {
    if walk != [] { NoMoreFilesThanEntries(walk[..|walk| - 1]); }
  }

  ghost predicate Good(lib: Library, rows: seq<Row>) {
    forall k | 0 <= k < |rows| :: RowGood(lib, rows[k])
  }

  lemma FoldsDiffer(lib: Library, rows: seq<Row>, sorted: seq<Row>)
    requires (forall x :: x in sorted <==> x in rows) && Ascending(sorted)
    requires forall i, j | 0 <= i < j < |rows| :: lib.fold(rows[i].path) != lib.fold(rows[j].path)
    ensures forall i, j | 0 <= i < j < |sorted| :: lib.fold(sorted[i].path) != lib.fold(sorted[j].path)
  {
    hide StrLess;
    forall i, j | 0 <= i < j < |sorted| ensures lib.fold(sorted[i].path) != lib.fold(sorted[j].path) {
      assert sorted[i] in sorted && sorted[j] in sorted;
      var a :| 0 <= a < |rows| && rows[a] == sorted[i];
      var b :| 0 <= b < |rows| && rows[b] == sorted[j];
      assert StrLess(sorted[i].path, sorted[j].path);
      if a == b { StrLessIrreflexive(sorted[i].path); }
    }
  }

  lemma {:induction false} StrLessIrreflexive(a: Str)
    ensures !StrLess(a, a)
  {
    if a != [] { StrLessIrreflexive(a[1..]); }
  }

  ghost predicate FoldsApart(lib: Library, rows: seq<Row>) {
    forall i, j | 0 <= i < j < |rows| :: lib.fold(rows[i].path) != lib.fold(rows[j].path)
  }

  lemma PathsApart(lib: Library, rows: seq<Row>)
    requires FoldsApart(lib, rows)
    ensures DistinctPaths(rows)
  {
    forall i, j | 0 <= i < j < |rows| ensures rows[i].path != rows[j].path {
      assert lib.fold(rows[i].path) != lib.fold(rows[j].path);
    }
  }

  lemma SortedGood(lib: Library, found: seq<Row>, sorted: seq<Row>)
    requires Good(lib, found) && FoldsApart(lib, found) && Ascending(sorted) && forall x :: x in sorted <==> x in found
    ensures Good(lib, sorted) && InOrder(lib, sorted)
  {
    hide StrLess, RowGood;
    FoldsDiffer(lib, found, sorted);
    forall k | 0 <= k < |sorted| ensures RowGood(lib, sorted[k]) {
      assert sorted[k] in sorted;
      var i :| 0 <= i < |found| && found[i] == sorted[k];
    }
    forall k | 0 <= k < |sorted| ensures Portable(lib, sorted[k].path) && sorted[k].path != FILE_MANIFEST_PATH {
      GoodPath(lib, sorted[k]);
    }
    hide Portable;
  }

  lemma GoodPath(lib: Library, row: Row)
    requires RowGood(lib, row)
    ensures Portable(lib, row.path) && row.path != FILE_MANIFEST_PATH
  {
  }

  lemma FoundRows(lib: Library, walk: seq<Visit>)
    requires HexDigests(lib) && Accepts(lib, walk, true)
    ensures var found := RowsOf(lib, AllFiles(walk), true);
      Good(lib, found) && FoldsApart(lib, found) && |found| <= MAX_CANDIDATE_FILES
        && TotalBytes(found) <= MAX_CANDIDATE_BYTES
  {
    NoMoreFilesThanEntries(walk);
    hide FileOk, RowsOf, TotalBytes, RowGood, HexDigests;
    ListedRows(lib, AllFiles(walk));
  }

  /** The rows of a scan satisfy every check of the manifest reader. */
  lemma ScanInOrder(lib: Library, walk: seq<Visit>, rows: seq<Row>)
    requires HexDigests(lib) && Scan(lib, walk, true) == Some(rows)
    ensures InOrder(lib, rows) && Good(lib, rows) && |rows| <= MAX_CANDIDATE_FILES
    ensures TotalBytes(rows) <= MAX_CANDIDATE_BYTES
  {
    FoundRows(lib, walk);
    var found := RowsOf(lib, AllFiles(walk), true);
    assert rows == SortRows(found);
    hide *;
    PathsApart(lib, found);
    SortKeeps(found);
    SortedGood(lib, found, rows);
  }

  // ---------------------------------------------------------------- the manifest file

  lemma SmallDigits(n: nat)
    requires n < 10_000_000_000
    ensures IntFits(n)
  {
    TenTens();
    FewDigits(n, 10);
  }

  function Tens(k: nat): nat {
    if k == 0 then 1 else 10 * Tens(k - 1)
  }

  lemma {:induction false} FewDigits(n: nat, k: nat)
    requires 0 < k && n < Tens(k)
    ensures |Digits(n)| <= k
  {
    if n >= 10 { FewDigits(n / 10, k - 1); }
  }

  lemma TenTens()
    ensures Tens(10) == 10_000_000_000
  {
    assert Tens(5) == 100_000;
  }

  lemma RowLookups(row: Row)
    ensures var f := RowFields(row);
      DistinctKeys(f) && KeySet(f) == RowKeys() && KeySet(Received(f)) == RowKeys()
      && Get(Received(f), KEY_PATH) == Text(row.path) && Get(Received(f), KEY_BYTE_LENGTH) == Int(row.byteLength)
      && Get(Received(f), KEY_SHA256) == Text(row.sha256)
  {
    var f := RowFields(row);
    assert |KEY_PATH| == 4 && |KEY_BYTE_LENGTH| == 11 && |KEY_SHA256| == 6;
    assert f[0].key == KEY_PATH && f[1].key == KEY_BYTE_LENGTH && f[2].key == KEY_SHA256;
    hide Received;
    ReceivedLookup(f);
    GetAt(f, 0);
    GetAt(f, 1);
    GetAt(f, 2);
  }

  lemma RowReceived(lib: Library, row: Row)
    requires RowGood(lib, row)
    ensures RowFromJson(Sorted(Obj(RowFields(row)))) == Some(row)
    ensures UniqueKeys(Obj(RowFields(row))) && Spellable(Obj(RowFields(row)))
  {
    RowLookups(row);
    RowPrints(lib, row);
    assert Sorted(Obj(RowFields(row))) == Obj(Received(RowFields(row)));
    hide Get, KeySet, IntFits, Portable, Sorted, Spellable, UniqueKeys, DistinctKeys, Lit;
  }

  lemma RowPrints(lib: Library, row: Row)
    requires RowGood(lib, row) && DistinctKeys(RowFields(row))
    ensures UniqueKeys(Obj(RowFields(row))) && Spellable(Obj(RowFields(row)))
  {
    SmallDigits(row.byteLength);
    hide DistinctKeys, IntFits, Portable, Lit;
  }

  lemma ItemsReceived(lib: Library, rows: seq<Row>)
    requires Good(lib, rows)
    ensures Describes(SortedItems(RowsJson(rows)), rows)
    ensures UniqueKeys(Arr(RowsJson(rows))) && Spellable(Arr(RowsJson(rows)))
  {
    hide RowFromJson, Sorted;
    var items := RowsJson(rows);
    forall i | 0 <= i < |rows|
      ensures RowFromJson(SortedItems(items)[i]) == Some(rows[i]) && UniqueKeys(items[i]) && Spellable(items[i])
    {
      SortedItemsAt(items, i);
      RowReceived(lib, rows[i]);
    }
  }

  lemma ManifestWellFormed(lib: Library, rows: seq<Row>)
    requires Good(lib, rows) && |rows| <= MAX_CANDIDATE_FILES
    ensures DistinctKeys(ManifestFields(rows))
    ensures UniqueKeys(Obj(ManifestFields(rows))) && Spellable(Obj(ManifestFields(rows)))
  {
    var f := ManifestFields(rows);
    ItemsReceived(lib, rows);
    SmallDigits(|rows|);
    SmallDigits(1);
    assert |KEY_SCHEMA_VERSION| == 14 && |KEY_HASH_ALGORITHM| == 14 && |KEY_SCOPE| == 5 && |KEY_FILE_COUNT| == 10
      && |KEY_FILES| == 5;
    assert KEY_SCHEMA_VERSION[0] == 's' as int && KEY_HASH_ALGORITHM[0] == 'h' as int && KEY_SCOPE[0] == 's' as int
      && KEY_FILES[0] == 'f' as int;
    hide Lit, IntFits, RowsJson;
    assert f[0].key == KEY_SCHEMA_VERSION && f[1].key == KEY_HASH_ALGORITHM && f[2].key == KEY_SCOPE
      && f[3].key == KEY_FILE_COUNT && f[4].key == KEY_FILES;
  }

  lemma HeaderReceived(lib: Library, rows: seq<Row>)
    requires Good(lib, rows) && |rows| <= MAX_CANDIDATE_FILES
    ensures var g := Received(ManifestFields(rows));
      HeaderOk(g) && Get(g, KEY_FILES) == Arr(SortedItems(RowsJson(rows)))
  {
    var f := ManifestFields(rows);
    ManifestWellFormed(lib, rows);
    hide Received, UniqueKeys, Spellable, Lit, RowsJson;
    ReceivedLookup(f);
    GetAt(f, 0);
    GetAt(f, 1);
    GetAt(f, 2);
    GetAt(f, 3);
    GetAt(f, 4);
    assert KeySet(f) == HeaderKeys() by { ManifestKeys(rows); }
    hide KeySet, Get;
  }

  lemma ManifestKeys(rows: seq<Row>)
    ensures KeySet(ManifestFields(rows)) == HeaderKeys()
  {
    hide Lit, RowsJson;
    var f := ManifestFields(rows);
    assert f[0].key == KEY_SCHEMA_VERSION && f[1].key == KEY_HASH_ALGORITHM && f[2].key == KEY_SCOPE
      && f[3].key == KEY_FILE_COUNT && f[4].key == KEY_FILES;
  }

  /** A canonical control file reads back, exactly when it is within the size limit. */
  lemma ControlReadsBack(f: seq<Field>, content: Bytes)
    requires UniqueKeys(Obj(f)) && Spellable(Obj(f)) && CanonicalJson(Obj(f)) == Some(content)
    ensures ReadControl(content) == if |content| <= MAX_CANDIDATE_CONTROL_BYTES then Some(Received(f)) else None
  {
    var v := Obj(f);
    var text := Dumps(v).value;
    hide Print, UniqueKeys, Spellable, SameValue;
    SortedKeeps(v);
    Utf8RoundTrip(text);
    LoadsDumped(v, [], STRICT);
    assert text + [] == text;
    CanonicalTextIdentifies(v, Sorted(v));
    assert Sorted(v) == Obj(Received(f));
  }

  // ---------------------------------------------------------------- the published tree

  /** The verifier's decision on a tree whose manifest file has this content. */
  ghost predicate Verified(lib: Library, walk: seq<Visit>, content: Bytes) {
    && ReadControl(content).Some?
    && exists rows ::
      AcceptedRows(lib, ReadControl(content).value, rows) && Scan(lib, walk, true) == Some(rows)
  }

  /**
   `later` lists what `walk` lists and, wherever the order of names puts it in one of its directories,
   one more file.
   */
  ghost predicate OneMoreFile(walk: seq<Visit>, later: seq<Visit>, k: nat, j: nat, file: FileEntry) {
    |walk| == |later| && k < |walk| && j <= |walk[k].files|
    && later == walk[k := walk[k].(files := walk[k].files[..j] + [file] + walk[k].files[j..])]
  }

  lemma InsertedListing(v: Visit, j: nat, file: FileEntry)
    requires j <= |v.files|
    ensures FilesOfVisit(v) == FilesOfVisit(v)[..j] + FilesOfVisit(v)[j..]
    ensures FilesOfVisit(v.(files := v.files[..j] + [file] + v.files[j..]))
      == FilesOfVisit(v)[..j] + [Listed(v.prefix + file.name, file.kind)] + FilesOfVisit(v)[j..]
  {
  }

  lemma {:induction false} OneMoreListed(walk: seq<Visit>, later: seq<Visit>, k: nat, j: nat, file: FileEntry)
    returns (x: seq<Listed>, y: seq<Listed>)
    requires OneMoreFile(walk, later, k, j, file)
    ensures AllFiles(walk) == x + y && AllFiles(later) == x + [Listed(walk[k].prefix + file.name, file.kind)] + y
    ensures EntryCount(later) == EntryCount(walk) + 1 && (PlainDirectories(later) <==> PlainDirectories(walk))
    decreases |walk|
  {
    var front, last := walk[..|walk| - 1], walk[|walk| - 1];
    if k < |front| {
      var longer := later[..|walk| - 1];
      assert longer == front[k := front[k].(files := front[k].files[..j] + [file] + front[k].files[j..])];
      x, y := OneMoreListed(front, longer, k, j, file);
      assert later[|walk| - 1] == last;
      assert x + (y + FilesOfVisit(last)) == AllFiles(walk);
      assert x + [Listed(walk[k].prefix + file.name, file.kind)] + (y + FilesOfVisit(last)) == AllFiles(later);
      y := y + FilesOfVisit(last);
    } else {
      assert later[..|walk| - 1] == front;
      var files, m := FilesOfVisit(last), Listed(last.prefix + file.name, file.kind);
      InsertedListing(last, j, file);
      x, y := AllFiles(front) + files[..j], files[j..];
      assert AllFiles(front) + (files[..j] + files[j..]) == x + y;
      assert AllFiles(front) + (files[..j] + [m] + files[j..]) == x + [m] + y;
    }
    assert PlainDirectories(later) <==> PlainDirectories(walk) by { SameDirectories(walk, later, k, j, file); }
  }

  lemma SameDirectories(walk: seq<Visit>, later: seq<Visit>, k: nat, j: nat, file: FileEntry)
    requires OneMoreFile(walk, later, k, j, file)
    ensures PlainDirectories(later) <==> PlainDirectories(walk)
  {
    assert forall i | 0 <= i < |walk| :: later[i].directories == walk[i].directories;
    if PlainDirectories(later) {
      forall i | 0 <= i < |walk| ensures forall j | 0 <= j < |walk[i].directories| :: walk[i].directories[j] {
        assert forall j | 0 <= j < |later[i].directories| :: later[i].directories[j];
      }
    }
  }

  /** The skipped manifest file adds no row. */
  lemma {:induction false} SkippedAddsNothing(lib: Library, x: seq<Listed>, m: Listed, y: seq<Listed>)
    requires Skipped(true, m) && AllOk(lib, x + y, true) && AllOk(lib, x + [m] + y, true)
    ensures RowsOf(lib, x + [m] + y, true) == RowsOf(lib, x + y, true)
    decreases |y|
  {
    hide FileOk;
    if y == [] {
      assert x + y == x && x + [m] + y == x + [m];
      assert (x + [m])[..|x|] == x;
    } else {
      var front, last := y[..|y| - 1], y[|y| - 1];
      assert (x + y)[..|x + y| - 1] == x + front && (x + [m] + y)[..|x + [m] + y| - 1] == x + [m] + front;
      assert AllOk(lib, x + front, true) by { OkPrefix(lib, x + y, |x + front|); }
      assert AllOk(lib, x + [m] + front, true) by { OkPrefix(lib, x + [m] + y, |x + [m] + front|); }
      SkippedAddsNothing(lib, x, m, front);
    }
  }

  lemma OkPrefix(lib: Library, files: seq<Listed>, n: nat)
    requires n <= |files| && AllOk(lib, files, true)
    ensures AllOk(lib, files[..n], true)
  {
    hide FileOk;
  }

  lemma OkInserted(lib: Library, x: seq<Listed>, m: Listed, y: seq<Listed>)
    ensures AllOk(lib, x + [m] + y, true) <==> AllOk(lib, x + y, true) && FileOk(lib, m, true)
  {
    hide FileOk;
    var all, some := x + [m] + y, x + y;
    if AllOk(lib, all, true) {
      forall i | 0 <= i < |some|
        ensures FileOk(lib, some[i], true)
      {
        assert FileOk(lib, all[if i < |x| then i else i + 1], true);
      }
      assert FileOk(lib, all[|x|], true);
    }
    if AllOk(lib, some, true) && FileOk(lib, m, true) {
      forall i | 0 <= i < |all| ensures FileOk(lib, all[i], true) {
        if i != |x| { assert FileOk(lib, some[if i < |x| then i else i - 1], true); }
      }
    }
  }

  /** No listed file has the manifest's path up to case. */
  ghost predicate PathFree(lib: Library, files: seq<Listed>, path: Str) {
    forall i | 0 <= i < |files| :: lib.fold(files[i].path) != lib.fold(path)
  }

  lemma CollisionInserted(lib: Library, x: seq<Listed>, m: Listed, y: seq<Listed>)
    ensures NoCollision(lib, x + [m] + y) <==> NoCollision(lib, x + y) && PathFree(lib, x + y, m.path)
  {
    var all, some := x + [m] + y, x + y;
    if NoCollision(lib, all) {
      forall i, j | 0 <= i < j < |some| ensures lib.fold(some[i].path) != lib.fold(some[j].path) {
        var a, b := if i < |x| then i else i + 1, if j < |x| then j else j + 1;
        assert lib.fold(all[a].path) != lib.fold(all[b].path);
      }
      forall i | 0 <= i < |some| ensures lib.fold(some[i].path) != lib.fold(m.path) {
        if i < |x| { assert lib.fold(all[i].path) != lib.fold(all[|x|].path); }
        else { assert lib.fold(all[|x|].path) != lib.fold(all[i + 1].path); }
      }
    }
    if NoCollision(lib, some) && PathFree(lib, some, m.path) {
      forall i, j | 0 <= i < j < |all| ensures lib.fold(all[i].path) != lib.fold(all[j].path) {
        if i == |x| { assert all[j] == some[j - 1]; }
        else if j == |x| { assert all[i] == some[i]; }
        else {
          var a, b := if i < |x| then i else i - 1, if j < |x| then j else j - 1;
          assert lib.fold(some[a].path) != lib.fold(some[b].path);
        }
      }
    }
  }

  lemma AcceptsInserted(lib: Library, walk: seq<Visit>, later: seq<Visit>, x: seq<Listed>, m: Listed, y: seq<Listed>)
    requires AllFiles(walk) == x + y && AllFiles(later) == x + [m] + y
    requires EntryCount(later) == EntryCount(walk) + 1 && (PlainDirectories(later) <==> PlainDirectories(walk))
    requires Accepts(lib, walk, true) && FileOk(lib, m, true) && Skipped(true, m)
    ensures Accepts(lib, later, true)
      <==> EntryCount(walk) < MAX_CANDIDATE_FILES && PathFree(lib, AllFiles(walk), m.path)
    ensures AllOk(lib, x + [m] + y, true) && RowsOf(lib, x + [m] + y, true) == RowsOf(lib, x + y, true)
  {
    OkInserted(lib, x, m, y);
    CollisionInserted(lib, x, m, y);
    SkippedAddsNothing(lib, x, m, y);
    hide FileOk, NoCollision, RowsOf, PathFree, AllOk, AllFiles, EntryCount, PlainDirectories, TotalBytes;
  }

  lemma ManifestPathIs()
    ensures Lit("release/") + Lit("file-manifest.json") == FILE_MANIFEST_PATH
  {
  }

  lemma ManifestOk(lib: Library, m: Listed)
    requires m.path == FILE_MANIFEST_PATH && m.kind.Ordinary? && Portable(lib, m.path)
    ensures FileOk(lib, m, true) && Skipped(true, m)
  {
    hide Portable;
  }

  /**
   Listing the tree again, with its manifest wherever it belongs in it, gives the same rows exactly when
   there is room for one more entry and no other file has the manifest's path up to case.
   */
  lemma Rescan(lib: Library, walk: seq<Visit>, later: seq<Visit>, k: nat, j: nat, content: Bytes, rows: seq<Row>)
    requires Scan(lib, walk, true) == Some(rows)
    requires OneMoreFile(walk, later, k, j, FileEntry(Lit("file-manifest.json"), Ordinary(content)))
    requires walk[k].prefix == Lit("release/") && lib.normal(FILE_MANIFEST_PATH)
    ensures Scan(lib, later, true)
      ==
      if EntryCount(walk) < MAX_CANDIDATE_FILES && PathFree(lib, AllFiles(walk), FILE_MANIFEST_PATH) then Some(rows)
      else None
  {
    hide Portable, NoCollision, RowsOf, PathFree, AllOk, AllFiles, SortRows, FileOk, EntryCount, PlainDirectories,
      Accepts, Lit, OneMoreFile;
    var file := FileEntry(Lit("file-manifest.json"), Ordinary(content));
    var x, y := OneMoreListed(walk, later, k, j, file);
    var m := Listed(Lit("release/") + file.name, file.kind);
    ManifestPathIs();
    ManifestIsPortable(lib);
    ManifestOk(lib, m);
    AcceptsInserted(lib, walk, later, x, m, y);
  }

  /**
   The assembler lists a tree, writes the manifest of the listing into it, and the verifier looks at
   the result: it accepts if and only if the manifest is at most 16 MiB, the tree with the manifest
   has at most 100 000 entries, and no other file has the manifest's path up to case.
   */
  lemma VerifierAcceptsExactly(lib: Library, walk: seq<Visit>, later: seq<Visit>, k: nat, j: nat, content: Bytes,
          rows: seq<Row>)
    requires HexDigests(lib) && Scan(lib, walk, true) == Some(rows)
    requires CanonicalJson(Obj(ManifestFields(rows))) == Some(content)
    requires OneMoreFile(walk, later, k, j, FileEntry(Lit("file-manifest.json"), Ordinary(content)))
    requires walk[k].prefix == Lit("release/") && lib.normal(FILE_MANIFEST_PATH)
    ensures Verified(lib, later, content) <==>
      |content| <= MAX_CANDIDATE_CONTROL_BYTES && EntryCount(walk) < MAX_CANDIDATE_FILES
      && PathFree(lib, AllFiles(walk), FILE_MANIFEST_PATH)
  {
    ScanInOrder(lib, walk, rows);
    ManifestWellFormed(lib, rows);
    ControlReadsBack(ManifestFields(rows), content);
    HeaderReceived(lib, rows);
    ItemsReceived(lib, rows);
    Rescan(lib, walk, later, k, j, content, rows);
    hide HexDigests, Scan, CanonicalJson, OneMoreFile, Portable, Lit, InOrder, Describes, HeaderOk, Good, PathFree,
      ReadControl, ManifestFields, Received;
    if |content| <= MAX_CANDIDATE_CONTROL_BYTES {
      assert AcceptedRows(lib, Received(ManifestFields(rows)), rows);
    }
  }

  const SHOUTED: Str := Lit("FILE-MANIFEST.JSON")

  lemma ShoutedWords()
    ensures SHOUTED == [70, 73, 76, 69, 45, 77, 65, 78, 73, 70, 69, 83, 84, 46, 74, 83, 79, 78]
    ensures Lit("release") == [114, 101, 108, 101, 97, 115, 101] && Lit("release/") == Lit("release") + [SLASH]
  {
  }

  lemma ShoutedIsPortable(lib: Library)
    requires lib.normal(Lit("release/") + SHOUTED)
    ensures Portable(lib, Lit("release/") + SHOUTED) && Lit("release/") + SHOUTED != FILE_MANIFEST_PATH
  {
    ShoutedWords();
    ManifestWords();
    assert (Lit("release/") + SHOUTED)[8] == 70 && FILE_MANIFEST_PATH[8] == 102;
    hide Lit, Portable;
    PortableJoin(lib, Lit("release"), SHOUTED);
  }

  /**
   A tree that the assembler lists and whose manifest the verifier refuses: it holds a file with the
   manifest's name in capitals.
   */
  lemma ShoutedManifestRefused(lib: Library, content: Bytes)
    requires HexDigests(lib) && lib.normal(FILE_MANIFEST_PATH) && lib.normal(Lit("release/") + SHOUTED)
    requires lib.fold(Lit("release/") + SHOUTED) == lib.fold(FILE_MANIFEST_PATH)
    ensures var walk := [Visit(Lit("release/"), [], [FileEntry(SHOUTED, Ordinary([]))])];
      var later :=
        [Visit(Lit("release/"), [],
          [FileEntry(SHOUTED, Ordinary([])), FileEntry(Lit("file-manifest.json"), Ordinary(content))])];
      Scan(lib, walk, true).Some?
        && (CanonicalJson(Obj(ManifestFields(Scan(lib, walk, true).value))) == Some(content)
          ==> !Verified(lib, later, content))
  {
    var a, m := FileEntry(SHOUTED, Ordinary([])), FileEntry(Lit("file-manifest.json"), Ordinary(content));
    var walk, later := [Visit(Lit("release/"), [], [a])], [Visit(Lit("release/"), [], [a, m])];
    ShoutedIsPortable(lib);
    OneFileListed(lib, walk, a);
    assert [a][..1] + [m] + [a][1..] == [a, m];
    assert OneMoreFile(walk, later, 0, 1, m);
    hide Scan, CanonicalJson, OneMoreFile, Portable, Lit, Verified, ManifestFields, HexDigests, AllFiles;
    if CanonicalJson(Obj(ManifestFields(Scan(lib, walk, true).value))) == Some(content) {
      VerifierAcceptsExactly(lib, walk, later, 0, 1, content, Scan(lib, walk, true).value);
      assert lib.fold(AllFiles(walk)[0].path) == lib.fold(FILE_MANIFEST_PATH);
    }
  }

  lemma OneVisit(walk: seq<Visit>, a: FileEntry, f: Listed)
    requires walk == [Visit(Lit("release/"), [], [a])] && f == Listed(Lit("release/") + a.name, a.kind)
    ensures AllFiles(walk) == [f] && EntryCount(walk) == 1 && PlainDirectories(walk)
  {
    hide Lit;
    assert walk[..0] == [] && AllFiles([]) == [] && EntryCount([]) == 0;
    assert FilesOfVisit(walk[0]) == [f];
    assert [] + [f] == [f];
  }

  lemma OneSmallFile(lib: Library, f: Listed)
    requires FileOk(lib, f, true) && f.kind == Ordinary([]) && !Skipped(true, f)
    ensures AllOk(lib, [f], true) && NoCollision(lib, [f]) && TotalBytes(RowsOf(lib, [f], true)) == 0
  {
    hide FileOk, Skipped;
    RowsMore(lib, [], f, true);
    assert [] + [f] == [f] && RowsOf(lib, [], true) == [];
    TotalMore([], RowOf(lib, f));
  }

  lemma OneFileListed(lib: Library, walk: seq<Visit>, a: FileEntry)
    requires walk == [Visit(Lit("release/"), [], [a])] && a.kind == Ordinary([])
    requires Portable(lib, Lit("release/") + a.name) && Lit("release/") + a.name != FILE_MANIFEST_PATH
    ensures Scan(lib, walk, true).Some? && AllFiles(walk) == [Listed(Lit("release/") + a.name, a.kind)]
  {
    hide Portable, Lit, AllFiles, EntryCount, PlainDirectories, AllOk, NoCollision, RowsOf, TotalBytes, SortRows;
    var f := Listed(Lit("release/") + a.name, a.kind);
    OneVisit(walk, a, f);
    OneSmallFile(lib, f);
  }
}
