/** Editing wheel RECORD files. */
module RecordEdit {
  // (backend/tools/runtime_windows_release.py) After an installation the rows of files that are deleted
  // are deleted too, and every file keeps its one row.

  import opened Text
  import opened Csv
  import opened ReleasePaths

  /** Files of site-packages by path, with their text. */
  type Files = map<Str, Str>

  function RecordPath(dist: Str): Str { dist + Lit("/RECORD") }

  function MetadataPath(dist: Str): Str { dist + Lit("/direct_url.json") }

  const TO_BIN: Str := Lit("../../bin/")

  /** The file that a row names: pip writes console scripts relative to the dist-info directory. */
  function Target(row: Fields): Str
    requires row != []
  {
    if TO_BIN <= row[0] then row[0][6..] else row[0]
  }

  // ---------------------------------------------------------------- reading gives single-line fields

  predicate OneLineAll(fs: Fields) {
    forall i | 0 <= i < |fs| :: OneLine(fs[i])
  }

  predicate Tidy(r: Reader) {
    OneLine(r.field) && OneLineAll(r.fields)
  }

  lemma {:induction false} FeedTidy(r: Reader, s: Str)
    requires Tidy(r) && OneLine(s)
    ensures Tidy(FeedAll(r, s))
    decreases |s|
  {
    if s != [] { FeedTidy(r.Feed(s[0]), s[1..]); }
  }

  lemma {:induction false} LinesAreSingle(s: Str)
    ensures forall i | 0 <= i < |SplitLines(s)| :: OneLine(SplitLines(s)[i])
    decreases |s|
  {
    if s != [] {
      var n := LineEnd(s);
      if n < |s| {
        var skip := if s[n] == CR && n + 1 < |s| && s[n + 1] == LF then 2 else 1;
        LinesAreSingle(s[n + skip..]);
      } else {
        assert s[..n] == s;
      }
    }
  }

  lemma {:induction false} ReadTidy(r: Reader, lines: seq<Str>)
    requires Tidy(r) && forall i | 0 <= i < |lines| :: OneLine(lines[i])
    ensures forall i | 0 <= i < |ReadFrom(r, lines)| :: OneLineAll(ReadFrom(r, lines)[i])
    decreases |lines|
  {
    if lines != [] {
      FeedTidy(r, lines[0]);
      var next := FeedAll(r, lines[0]).EndLine();
      hide FeedAll;
      if next.mode == StartRecord { ReadTidy(FRESH, lines[1..]); } else { ReadTidy(next, lines[1..]); }
    }
  }

  predicate Triples(rows: seq<Fields>) {
    forall i | 0 <= i < |rows| :: |rows[i]| == 3
  }

  /** No field that was read holds a line break, so a RECORD rewritten from its rows reads back as them. */
  lemma RewrittenReadsBack(text: Str, rows: seq<Fields>)
    requires Triples(ReadRows(text)) && forall i | 0 <= i < |rows| :: rows[i] in ReadRows(text)
    ensures ReadRows(WriteRows(rows)) == rows
  {
    LinesAreSingle(text);
    ReadTidy(FRESH, SplitLines(text));
    forall i | 0 <= i < |rows| ensures Plain(rows[i]) {
      assert rows[i] in ReadRows(text);
      var j :| 0 <= j < |ReadRows(text)| && ReadRows(text)[j] == rows[i];
      assert OneLineAll(ReadRows(text)[j]);
    }
    RowsRoundTrip(rows);
  }

  /** Written rows read back as they were if and only if no field holds a line break. */
  lemma RoundTripExactly(rows: seq<Fields>)
    ensures ReadRows(WriteRows(rows)) == rows <==> forall i | 0 <= i < |rows| :: Plain(rows[i])
  {
    if ReadRows(WriteRows(rows)) == rows {
      LinesAreSingle(WriteRows(rows));
      ReadTidy(FRESH, SplitLines(WriteRows(rows)));
      forall i | 0 <= i < |rows| ensures Plain(rows[i]) { assert OneLineAll(rows[i]); }
    }
    if forall i | 0 <= i < |rows| :: Plain(rows[i]) { RowsRoundTrip(rows); }
  }

  // ---------------------------------------------------------------- every file has one row

  function Naming(rows: seq<Fields>, p: Str): nat {
    if rows == [] then 0
    else (if rows[0] != [] && Target(rows[0]) == p then 1 else 0) + Naming(rows[1..], p)
  }

  function RowsOf(files: Files, dist: Str): seq<Fields> {
    if RecordPath(dist) in files then ReadRows(files[RecordPath(dist)]) else []
  }

  /** How many rows of the RECORDs of these distributions name `p`. */
  function Named(files: Files, dists: seq<Str>, p: Str): nat {
    if dists == [] then 0 else Naming(RowsOf(files, dists[0]), p) + Named(files, dists[1..], p)
  }

  /** Rows and files correspond one to one. */
  ghost predicate Bound(files: Files, dists: seq<Str>) {
    forall p :: Named(files, dists, p) == if p in files then 1 else 0
  }

  predicate Distinct(dists: seq<Str>) {
    forall i, j | 0 <= i < j < |dists| :: dists[i] != dists[j]
  }

  lemma RecordsDiffer(a: Str, b: Str)
    requires a != b
    ensures RecordPath(a) != RecordPath(b)
  {
    assert RecordPath(a)[..|a|] == a && RecordPath(b)[..|b|] == b;
    assert |RecordPath(a)| == |a| + 7 && |RecordPath(b)| == |b| + 7;
  }

  lemma {:induction false} NamedElsewhere(files: Files, later: Files, dists: seq<Str>, p: Str)
    requires forall i | 0 <= i < |dists| :: RowsOf(files, dists[i]) == RowsOf(later, dists[i])
    ensures Named(files, dists, p) == Named(later, dists, p)
  {
    if dists != [] {
      assert RowsOf(files, dists[0]) == RowsOf(later, dists[0]);
      NamedElsewhere(files, later, dists[1..], p);
    }
  }

  /** Rewriting one RECORD changes the count by that RECORD's difference. */
  lemma {:induction false} NamedChanged(files: Files, later: Files, dists: seq<Str>, k: nat, p: Str)
    requires k < |dists| && forall i | 0 <= i < |dists| && i != k :: RowsOf(files, dists[i]) == RowsOf(later, dists[i])
    ensures Named(later, dists, p) + Naming(RowsOf(files, dists[k]), p)
      == Named(files, dists, p) + Naming(RowsOf(later, dists[k]), p)
  {
    if k == 0 {
      forall i | 0 <= i < |dists[1..]| ensures RowsOf(files, dists[1..][i]) == RowsOf(later, dists[1..][i]) {
        assert dists[1..][i] == dists[i + 1];
      }
      NamedElsewhere(files, later, dists[1..], p);
    } else {
      assert RowsOf(files, dists[0]) == RowsOf(later, dists[0]);
      forall i | 0 <= i < |dists[1..]| && i != k - 1
        ensures RowsOf(files, dists[1..][i]) == RowsOf(later, dists[1..][i])
      {
        assert dists[1..][i] == dists[i + 1];
      }
      NamedChanged(files, later, dists[1..], k - 1, p);
    }
  }

  // ---------------------------------------------------------------- direct_url.json

  /** `[row for row in rows if row[0] != relative]`. */
  function Without(rows: seq<Fields>, relative: Str): (r: seq<Fields>)
    requires Triples(rows)
    ensures |r| <= |rows| && forall i | 0 <= i < |r| :: r[i] in rows && r[i][0] != relative
    ensures forall row | row in rows && row[0] != relative :: row in r
  {
    if rows == [] then [] else (if rows[0][0] != relative then [rows[0]] else []) + Without(rows[1..], relative)
  }

  /** One row fewer means: one row named it, and that one is gone. */
  lemma {:induction false} WithoutCounts(rows: seq<Fields>, relative: Str, p: Str)
    requires Triples(rows) && !(TO_BIN <= relative)
    ensures p != relative ==> Naming(Without(rows, relative), p) == Naming(rows, p)
    ensures |rows| - |Without(rows, relative)| + Naming(Without(rows, relative), relative) == Naming(rows, relative)
  {
    if rows != [] {
      hide Target;
      WithoutCounts(rows[1..], relative, p);
      PlainTarget(rows[0]);
      var rest := Without(rows[1..], relative);
      if rows[0][0] != relative {
        assert ([rows[0]] + rest)[1..] == rest;
      } else {
        assert [] + rest == rest;
      }
    }
  }

  lemma PlainTarget(row: Fields)
    requires row != []
    ensures !(TO_BIN <= row[0]) ==> Target(row) == row[0]
  {
  }

  class SitePackages {
    var files: Files

    constructor (files: Files)
      ensures this.files == files
    {
      this.files := files;
    }
  }

  /** What one round of the loop does to the files. */
  function Unlinked(files: Files, dist: Str): Files
    requires RecordPath(dist) in files && Triples(ReadRows(files[RecordPath(dist)]))
  {
    var rows := ReadRows(files[RecordPath(dist)]);
    (files - {MetadataPath(dist)})[RecordPath(dist) := WriteRows(Without(rows, MetadataPath(dist)))]
  }

  /** `dist` names a dist-info directory directly below site-packages. */
  predicate IsDist(dist: Str) {
    |dist| >= 10 && dist[|dist| - 10..] == Lit(".dist-info") && SLASH !in dist
  }

  /** What the pattern `*.dist-info` matches: any beginning, as long as it is one name. */
  lemma DistExactly(dist: Str)
    ensures IsDist(dist) <==> SLASH !in dist && exists name :: dist == name + Lit(".dist-info")
  {
    if IsDist(dist) {
      assert dist == dist[..|dist| - 10] + Lit(".dist-info");
    }
    if name :| dist == name + Lit(".dist-info") {
      assert |dist| == |name| + 10 && dist[|dist| - 10..] == Lit(".dist-info");
    }
  }

  lemma DistPaths(dist: Str)
    requires IsDist(dist)
    ensures MetadataPath(dist) != RecordPath(dist) && !(TO_BIN <= MetadataPath(dist)) && !(TO_BIN <= RecordPath(dist))
  {
    assert MetadataPath(dist)[2] == dist[2] && RecordPath(dist)[2] == dist[2] && TO_BIN[2] == SLASH;
    assert |MetadataPath(dist)| == |dist| + 16 && |RecordPath(dist)| == |dist| + 7;
  }

  lemma {:induction false} PathsOfDists(a: Str, b: Str)
    requires IsDist(a) && IsDist(b)
    ensures MetadataPath(a) != RecordPath(b)
    ensures MetadataPath(a) == MetadataPath(b) ==> a == b
  {
    assert MetadataPath(a)[|a|] == SLASH;
    assert |MetadataPath(a)| == |a| + 16 && |RecordPath(b)| == |b| + 7;
    assert |a| < |b| ==> RecordPath(b)[|a|] == b[|a|];
    assert MetadataPath(a)[..|a|] == a && MetadataPath(b)[..|b|] == b;
  }

  /** The rows of a RECORD and of the others after a round. */
  lemma UnlinkedRows(files: Files, dists: seq<Str>, k: nat)
    requires Distinct(dists) && k < |dists| && forall i | 0 <= i < |dists| :: IsDist(dists[i])
    requires RecordPath(dists[k]) in files && Triples(ReadRows(files[RecordPath(dists[k])]))
    ensures var later := Unlinked(files, dists[k]);
      && RowsOf(later, dists[k]) == Without(RowsOf(files, dists[k]), MetadataPath(dists[k]))
      && forall i | 0 <= i < |dists| && i != k :: RowsOf(later, dists[i]) == RowsOf(files, dists[i])
  {
    var dist := dists[k];
    assert IsDist(dist);
    RewrittenReadsBack(files[RecordPath(dist)], Without(ReadRows(files[RecordPath(dist)]), MetadataPath(dist)));
    hide ReadRows, WriteRows, Without, Triples;
    forall i | 0 <= i < |dists| && i != k ensures RowsOf(Unlinked(files, dist), dists[i]) == RowsOf(files, dists[i]) {
      RecordsDiffer(dists[i], dist);
      PathsOfDists(dist, dists[i]);
    }
  }

  lemma UnlinkedKeys(files: Files, dist: Str, p: Str)
    requires IsDist(dist) && RecordPath(dist) in files && Triples(ReadRows(files[RecordPath(dist)]))
    ensures p in Unlinked(files, dist) <==> p in files && p != MetadataPath(dist)
  {
    DistPaths(dist);
    hide ReadRows, WriteRows, Without, Triples, MetadataPath, RecordPath;
  }

  /** Deleting a metadata file with its one row keeps rows and files one to one. */
  lemma UnlinkedKeepsBound(files: Files, dists: seq<Str>, k: nat)
    requires Distinct(dists) && k < |dists| && (forall i | 0 <= i < |dists| :: IsDist(dists[i])) && Bound(files, dists)
    requires MetadataPath(dists[k]) in files && RecordPath(dists[k]) in files
    requires Triples(ReadRows(files[RecordPath(dists[k])]))
    requires |Without(ReadRows(files[RecordPath(dists[k])]), MetadataPath(dists[k]))|
      == |ReadRows(files[RecordPath(dists[k])])| - 1
    ensures Bound(Unlinked(files, dists[k]), dists)
    ensures RowsOf(Unlinked(files, dists[k]), dists[k]) == Without(RowsOf(files, dists[k]), MetadataPath(dists[k]))
  {
    hide Named, Unlinked, Triples, Distinct, Without, MetadataPath, RecordPath, IsDist, ReadRows, WriteRows;
    UnlinkedRows(files, dists, k);
    var dist := dists[k];
    var relative, rows := MetadataPath(dist), RowsOf(files, dist);
    assert rows == ReadRows(files[RecordPath(dist)]) && IsDist(dist);
    var later := Unlinked(files, dist);
    DistPaths(dist);
    hide RowsOf;
    forall p ensures Named(later, dists, p) == if p in later then 1 else 0 {
      NamedChanged(files, later, dists, k, p);
      UnlinkedKeys(files, dist, p);
      WithoutCounts(rows, relative, p);
      assert Named(files, dists, p) == if p in files then 1 else 0;
    }
  }

  /** One round of the loop, with None for the error the function raises. */
  function Edit(files: Files, dist: Str): Option<Files> {
    if RecordPath(dist) !in files || !Triples(ReadRows(files[RecordPath(dist)])) then None
    else
      var rows := ReadRows(files[RecordPath(dist)]);
      if |Without(rows, MetadataPath(dist))| != |rows| - 1 then None else Some(Unlinked(files, dist))
  }

  /** The rounds that the loop completes: up to the first that raises. */
  function Rounds(files: Files, found: seq<Str>): (n: nat)
    ensures n <= |found|
  {
    if found == [] then 0
    else
      match Edit(files, found[0])
      case None => 0
      case Some(later) => 1 + Rounds(later, found[1..])
  }

  /** The files after those rounds. */
  function Edited(files: Files, found: seq<Str>): Files {
    if found == [] then files
    else
      match Edit(files, found[0])
      case None => files
      case Some(later) => Edited(later, found[1..])
  }

  predicate DirectUrlRemains(files: Files) {
    exists p | p in files :: Name(p) == Lit("direct_url.json")
  }

  /** Metadata remains exactly if a file of that name is left in any directory. */
  lemma RemainsExactly(files: Files)
    requires forall p | p in files :: Normal(p) == p
    ensures DirectUrlRemains(files)
      <==> exists above :: SlashFree(above) && Join(above + [Lit("direct_url.json")]) in files
  {
    var n := Lit("direct_url.json");
    assert |n| == 15 && SLASH !in n;
    hide Normal, Name, Lit;
    if p :| p in files && Name(p) == n {
      var above := NormalIsJoined(p);
      assert SlashFree(above) && Join(above + [n]) in files;
    }
    if above :| SlashFree(above) && Join(above + [n]) in files {
      NameIsLast(above, n);
    }
  }

  predicate CleanEdit(files: Files, found: seq<Str>) {
    Rounds(files, found) == |found| && !DirectUrlRemains(Edited(files, found))
  }

  /**
   `_remove_direct_url_metadata`; `found` is the sorted listing of dist-info directories with the file.
   When it raises, the rounds before the one that failed have been done, and nothing else.
   */
  method RemoveDirectUrlMetadata(site: SitePackages, found: seq<Str>, expectedCount: nat) returns (ok: bool)
    requires Distinct(found) && forall i | 0 <= i < |found| :: IsDist(found[i])
    modifies site
    ensures ok <==> |found| == expectedCount && CleanEdit(old(site.files), found)
    ensures site.files == if |found| == expectedCount then Edited(old(site.files), found) else old(site.files)
  {
    if |found| != expectedCount { return false; }
    ghost var before := site.files;
    var i := 0;
    assert found[0..] == found;
    while i < |found|
      invariant 0 <= i <= |found| && Edited(before, found) == Edited(site.files, found[i..])
      invariant Rounds(before, found) == i + Rounds(site.files, found[i..])
    {
      var dist := found[i];
      assert found[i..][0] == dist && found[i..][1..] == found[i + 1..];
      if RecordPath(dist) !in site.files { return false; }
      var rows := ReadRows(site.files[RecordPath(dist)]);
      if !Triples(rows) { return false; }
      var retained := Without(rows, MetadataPath(dist));
      if |retained| != |rows| - 1 { return false; }
      site.files := site.files - {MetadataPath(dist)};
      site.files := site.files[RecordPath(dist) := WriteRows(retained)];
      i := i + 1;
    }
    assert found[i..] == [];
    ok := !DirectUrlRemains(site.files);
  }

  predicate Among(found: seq<Str>, dists: seq<Str>) {
    forall i | 0 <= i < |found| :: found[i] in dists
  }

  /** A round touches one metadata file and one RECORD. */
  lemma EditTouches(files: Files, dist: Str, p: Str)
    requires Edit(files, dist).Some? && p != RecordPath(dist) && p != MetadataPath(dist)
    ensures var later := Edit(files, dist).value;
      (p in files <==> p in later) && (p in files ==> files[p] == later[p])
  {
  }

  /** The rows of a RECORD once the loop is done: its own metadata row is gone if it was its turn. */
  function RowsAfter(files: Files, dist: Str, found: seq<Str>): seq<Fields> {
    if dist in found && Triples(RowsOf(files, dist)) then Without(RowsOf(files, dist), MetadataPath(dist))
    else RowsOf(files, dist)
  }

  predicate AllDists(dists: seq<Str>) {
    forall i | 0 <= i < |dists| :: IsDist(dists[i])
  }

  predicate AllThere(files: Files, found: seq<Str>) {
    forall i | 0 <= i < |found| :: MetadataPath(found[i]) in files
  }

  lemma OneRound(files: Files, dists: seq<Str>, found: seq<Str>)
    requires AllDists(dists) && Distinct(found) && Among(found, dists) && AllThere(files, found) && found != []
    requires Edit(files, found[0]).Some?
    ensures var next := Edit(files, found[0]).value;
      && Distinct(found[1..]) && Among(found[1..], dists) && AllThere(next, found[1..]) && found[0] !in found[1..]
      && forall d | d in dists && d != found[0] :: RowsOf(next, d) == RowsOf(files, d)
  {
    var dist := found[0];
    var next := Edit(files, dist).value;
    assert found[0] in dists;
    assert IsDist(dist);
    hide Without, ReadRows, WriteRows;
    forall i | 0 <= i < |found[1..]|
      ensures MetadataPath(found[1..][i]) in next && found[1..][i] != dist && found[1..][i] in dists
    {
      assert found[1..][i] == found[i + 1];
      assert found[i + 1] in dists;
      PathsOfDists(found[i + 1], dist);
    }
    forall d | d in dists && d != dist ensures RowsOf(next, d) == RowsOf(files, d) {
      RecordsDiffer(d, dist);
      PathsOfDists(dist, d);
      EditTouches(files, dist, RecordPath(d));
    }
  }

  /**
   The loop, wherever it stops: every deleted metadata file loses exactly its own row, all other rows
   stay in order, and rows and files stay one to one.
   */
  lemma {:induction false} EditedKeepsBound(files: Files, dists: seq<Str>, found: seq<Str>)
    requires Distinct(dists) && AllDists(dists) && Bound(files, dists)
    requires Distinct(found) && Among(found, dists) && AllThere(files, found)
    ensures var later, done := Edited(files, found), found[..Rounds(files, found)];
      Bound(later, dists)
      && (forall d | d in dists :: RowsOf(later, d) == RowsAfter(files, d, done))
      && (forall d | d in done :: MetadataPath(d) !in later)
    decreases |found|
  {
    hide *;
    if found != [] && Edit(files, found[0]).Some? {
      var next, dist := Edit(files, found[0]).value, found[0];
      OneRound(files, dists, found);
      RoundKeepsBound(files, dists, found);
      OwnRows(files, dist);
      RoundUnfolds(files, found);
      UnlinkedGone(files, dist);
      GoneStaysGone(next, found[1..], MetadataPath(dist));
      EditedKeepsBound(next, dists, found[1..]);
      var later, done := Edited(files, found), found[..Rounds(files, found)];
      forall d | d in dists
        ensures RowsOf(later, d) == RowsAfter(files, d, done)
      {
        RowsCarry(files, next, later, d, done);
      }
      forall d | d in done ensures MetadataPath(d) !in later { assert d == dist || d in done[1..]; }
    } else {
      NothingDone(files, dists, found);
    }
  }

  lemma NothingDone(files: Files, dists: seq<Str>, found: seq<Str>)
    requires found == [] || Edit(files, found[0]).None?
    ensures Edited(files, found) == files && Rounds(files, found) == 0
    ensures forall d | d in dists :: RowsOf(files, d) == RowsAfter(files, d, [])
  {
  }

  lemma RoundUnfolds(files: Files, found: seq<Str>)
    requires found != [] && Edit(files, found[0]).Some?
    ensures var next, done := Edit(files, found[0]).value, found[..Rounds(files, found)];
      && Edited(files, found) == Edited(next, found[1..]) && done != [] && done[0] == found[0]
      && done[1..] == found[1..][..Rounds(next, found[1..])]
  {
    hide Edit;
  }

  lemma RoundKeepsBound(files: Files, dists: seq<Str>, found: seq<Str>)
    requires Distinct(dists) && AllDists(dists) && Bound(files, dists)
    requires found != [] && Among(found, dists) && AllThere(files, found) && Edit(files, found[0]).Some?
    ensures Bound(Edit(files, found[0]).value, dists)
  {
    hide Bound, Unlinked, Distinct, IsDist;
    var dist := found[0];
    var k :| 0 <= k < |dists| && dists[k] == dist;
    UnlinkedKeepsBound(files, dists, k);
  }

  lemma RowsCarry(files: Files, next: Files, later: Files, d: Str, found: seq<Str>)
    requires found != [] && found[0] !in found[1..] && RowsOf(later, d) == RowsAfter(next, d, found[1..])
    requires d != found[0] ==> RowsOf(next, d) == RowsOf(files, d)
    requires d == found[0]
      ==> Triples(RowsOf(files, d)) && RowsOf(next, d) == Without(RowsOf(files, d), MetadataPath(d))
    ensures RowsOf(later, d) == RowsAfter(files, d, found)
  {
    hide RowsOf, Triples, Without, MetadataPath;
    assert d in found <==> d == found[0] || d in found[1..];
  }

  lemma UnlinkedGone(files: Files, dist: Str)
    requires Edit(files, dist).Some?
    ensures MetadataPath(dist) !in Edit(files, dist).value
  {
    assert |MetadataPath(dist)| == |dist| + 16 && |RecordPath(dist)| == |dist| + 7;
  }

  lemma OwnRows(files: Files, dist: Str)
    requires Edit(files, dist).Some?
    ensures Triples(RowsOf(files, dist))
    ensures RowsOf(Edit(files, dist).value, dist) == Without(RowsOf(files, dist), MetadataPath(dist))
  {
    RewrittenReadsBack(files[RecordPath(dist)], Without(ReadRows(files[RecordPath(dist)]), MetadataPath(dist)));
    hide ReadRows, WriteRows, Without;
  }

  lemma {:induction false} GoneStaysGone(files: Files, found: seq<Str>, p: Str)
    requires p !in files
    ensures p !in Edited(files, found)
    decreases |found|
  {
    if found != [] && Edit(files, found[0]).Some? { GoneStaysGone(Edit(files, found[0]).value, found[1..], p); }
  }
}
