/** Every installation that is made of the locked wheels is verified. */
module WheelComplete {
  // Archives and installation are described file by file: what the archives hold, the two files and the RECORD
  // that pip adds, and nothing else. The verification explains every such installation.

  import opened Text
  import Json
  import Csv
  import opened ReleasePaths
  import opened ReleaseScan
  import opened ReleaseManifest
  import opened WheelInstall
  import opened WheelVerify
  import opened WheelRecord

  // ---------------------------------------------------------------- one distribution

  /** A distribution: its name and version, its files but the RECORD, and the rows of both RECORDs. */
  datatype Dist = Dist(
    name: Str, files: map<Str, Bytes>, sourceRows: seq<Csv.Fields>, installedRows: seq<Csv.Fields>)

  function InfoPath(d: Dist, file: string): Str {
    d.name + (Lit(".dist-info/") + Lit(file))
  }

  /** What pip adds: who installed it, and that it was asked for. */
  function Generated(d: Dist): map<Str, Bytes> {
    map[InfoPath(d, "INSTALLER") := [112, 105, 112, 10], InfoPath(d, "REQUESTED") := []]
  }

  function Octets(rows: seq<Csv.Fields>): Bytes {
    Utf8Octets(Csv.WriteRows(rows))
  }

  /** All that is installed of a distribution. */
  function AllOf(d: Dist): map<Str, Bytes> {
    (d.files + Generated(d))[InfoPath(d, "RECORD") := Octets(d.installedRows)]
  }

  /** A RECORD of a dist-info directory at the top. */
  ghost predicate TopRecord(p: Str) {
    exists n: Str :: SLASH !in n && p == n + Lit(".dist-info/RECORD")
  }

  /** A path through a `.data` directory. */
  ghost predicate InData(p: Str) {
    exists a: Str, b: Str :: p == a + Lit(".data/") + b
  }

  /** The wheel is the locked one and its archive holds the distribution. */
  ghost predicate WheelHolds(lib: Library, enc: Encoders, spell: Bytes -> Str, lock: WheelLock, wheel: Wheel, d: Dist) {
    && |wheel.bytes| == lock.byteLength && lib.sha256(wheel.bytes) == lock.sha256
    && SLASH !in d.name && (forall p | p in d.files :: !TopRecord(p) && !InData(p))
    && Installable(lib, d.files) && Nameable(lib, InfoPath(d, "RECORD"))
    && Lists(spell, d.sourceRows, d.files, InfoPath(d, "RECORD"))
    && wheel.members == Some(d.files[InfoPath(d, "RECORD") := Octets(d.sourceRows)])
  }

  /** The files of the distribution are installed, with a RECORD of them. */
  ghost predicate Holds(lib: Library, spell: Bytes -> Str, files: seq<Listed>, d: Dist) {
    && d.files.Keys !! Generated(d).Keys && Installable(lib, Generated(d))
    && Lists(spell, d.installedRows, d.files + Generated(d), InfoPath(d, "RECORD"))
    && forall p | p in AllOf(d) :: Normal(p) == p && Listed(p, Ordinary(AllOf(d)[p])) in files
  }

  // ---------------------------------------------------------------- its paths

  lemma {:induction false} SlashesAdd(a: Str, b: Str)
    ensures CountSlashes(a + b) == CountSlashes(a) + CountSlashes(b)
  {
    if a == [] {
      assert a + b == b;
    } else {
      assert (a + b)[0] == a[0] && (a + b)[1..] == a[1..] + b;
      SlashesAdd(a[1..], b);
    }
  }

  lemma {:induction false} NoSlashes(s: Str)
    ensures CountSlashes(s) == 0 <==> SLASH !in s
  {
    if s != [] {
      NoSlashes(s[1..]);
      assert s == [s[0]] + s[1..];
    }
  }

  /** `.dist-info`, in code points. */
  const INFO: Str := [46, 100, 105, 115, 116, 45, 105, 110, 102, 111]
  const RECORD: Str := [82, 69, 67, 79, 82, 68]

  lemma InfoWord()
    ensures Lit(".dist-info/") == INFO + [SLASH]
  {
  }

  lemma FileWords()
    ensures Lit("RECORD") == RECORD && Lit("/INSTALLER") == [SLASH] + Lit("INSTALLER")
    ensures Lit("/REQUESTED") == [SLASH] + Lit("REQUESTED")
  {
  }

  lemma RecordWord()
    ensures DIST_RECORD == INFO + [SLASH] + RECORD
  {
  }

  lemma RecordSlashes()
    ensures CountSlashes(INFO + [SLASH] + RECORD) == 1
  {
    NoSlashes(INFO);
    NoSlashes(RECORD);
    SlashesAdd(INFO, [SLASH]);
    SlashesAdd(INFO + [SLASH], RECORD);
    OneSlash();
  }

  lemma OneSlash()
    ensures CountSlashes([SLASH]) == 1
  {
    assert [SLASH][1..] == [];
  }

  /** The loop's test for a RECORD is the meaning of one. */
  lemma TopRecordExactly(p: Str)
    ensures IsRecordPath(p) <==> TopRecord(p)
  {
    RecordWord();
    RecordSlashes();
    SuffixExactly(p, DIST_RECORD);
  }

  lemma SuffixExactly(p: Str, w: Str)
    requires CountSlashes(w) == 1
    ensures EndsWith(p, w) && CountSlashes(p) == 1 <==> exists n: Str :: SLASH !in n && p == n + w
  {
    hide CountSlashes;
    if EndsWith(p, w) {
      var n := p[..|p| - |w|];
      assert p == n + w;
      SlashesAdd(n, w);
      NoSlashes(n);
    }
    if n: Str :| SLASH !in n && p == n + w {
      assert p[|p| - |w|..] == w;
      SlashesAdd(n, w);
      NoSlashes(n);
    }
  }

  lemma InDataExactly(p: Str)
    ensures HasPart(p, DATA) <==> InData(p)
  {
    PartExactly(p, DATA);
  }

  lemma PartExactly(p: Str, w: Str)
    ensures HasPart(p, w) <==> exists a: Str, b: Str :: p == a + w + b
  {
    if i :| 0 <= i <= |p| && w <= p[i..] {
      assert p[i..][..|w|] == w;
      assert p == p[..i] + w + p[i + |w|..];
    }
    if a: Str, b: Str :| p == a + w + b {
      assert p[|a|..] == w + b;
      assert 0 <= |a| <= |p| && w <= p[|a|..];
    }
  }

  lemma DataWord()
    ensures DATA == [46, 100, 97, 116, 97, 47]
  {
  }

  lemma RecordNotInData(name: Str)
    requires SLASH !in name
    ensures !HasPart(name + (INFO + [SLASH] + RECORD), [46, 100, 97, 116, 97, 47])
  {
    var p := name + (INFO + [SLASH] + RECORD);
    forall i | 0 <= i <= |p| && 6 <= |p[i..]|
      ensures p[i..][5] != 47 || p[i..][4] != 97
    {
      SlashAt(name, i + 5);
      assert p[i..][5] == p[i + 5] && p[i..][4] == p[i + 4];
    }
  }

  /** The one slash of the path is the one after `.dist-info`. */
  lemma SlashAt(name: Str, k: nat)
    requires SLASH !in name && 0 < k < |name + (INFO + [SLASH] + RECORD)|
    ensures var p := name + (INFO + [SLASH] + RECORD); p[k] != SLASH || p[k - 1] == 111
  {
    var w := INFO + [SLASH] + RECORD;
    var p := name + w;
    if k < |name| {
      assert p[k] == name[k] && name[k] in name;
    } else {
      assert p[k] == w[k - |name|];
      assert k - |name| == 10 ==> p[k - 1] == w[9];
    }
  }

  lemma InfoPaths(d: Dist)
    ensures var r := InfoPath(d, "RECORD");
      && r == d.name + (INFO + [SLASH] + RECORD) && |r| >= 7
      && InstallerPath(r) == InfoPath(d, "INSTALLER") && RequestedPath(r) == InfoPath(d, "REQUESTED")
  {
    var r := InfoPath(d, "RECORD");
    InfoWord();
    FileWords();
    hide Lit;
    assert r[..|r| - 7] == d.name + INFO;
    Regrouped(d.name, INFO, [SLASH], Lit("INSTALLER"));
    Regrouped(d.name, INFO, [SLASH], Lit("REQUESTED"));
    Regrouped(d.name, INFO, [SLASH], RECORD);
  }

  lemma Regrouped(a: Str, b: Str, c: Str, e: Str)
    ensures (a + b) + (c + e) == a + ((b + c) + e)
  {
  }

  // ---------------------------------------------------------------- what the verification finds out

  /** What is to be known of the distribution. */
  function FactsOf(lib: Library, d: Dist): Facts {
    var r := InfoPath(d, "RECORD");
    Facts(r, d.files[r := Octets(d.sourceRows)], EntriesOf(lib, d.files, r), EntriesOf(lib, d.files + Generated(d), r),
      Octets(d.sourceRows), Octets(d.installedRows), AllOf(d).Keys,
      map p | p in AllOf(d) :: RowFor(lib, p, AllOf(d)[p]))
  }

  /** Two files of one path are one file. */
  ghost predicate OnePerPath(files: seq<Listed>) {
    forall i, j | 0 <= i < j < |files| :: files[i].path != files[j].path
  }

  lemma {:induction false} FindsListed(files: seq<Listed>, path: Str, content: Bytes)
    requires OnePerPath(files) && Listed(path, Ordinary(content)) in files
    ensures Find(files, path) == Some(content)
    decreases |files|
  {
    var k :| 0 <= k < |files| && files[k] == Listed(path, Ordinary(content));
    if k < |files| - 1 {
      assert files[..|files| - 1][k] == files[k];
      FindsListed(files[..|files| - 1], path, content);
    }
  }

  /** Spellings of one path, with empty steps or `.` in between, find the same file. */
  lemma SpellingsFindAlike(files: seq<Listed>, p: Str, q: Str)
    requires Parts(p) == Parts(q)
    ensures Installed(files, p) == Installed(files, q)
  {
    hide Find;
  }

  lemma InstalledOf(lib: Library, spell: Bytes -> Str, files: seq<Listed>, d: Dist, p: Str)
    requires OnePerPath(files) && Holds(lib, spell, files, d) && p in AllOf(d)
    ensures Installed(files, p) == Some(AllOf(d)[p])
  {
    hide Lists, Installable, AllOf, OnePerPath;
    FindsListed(files, p, AllOf(d)[p]);
  }

  lemma RecordsRead(lib: Library, enc: Encoders, spell: Bytes -> Str, rows: seq<Csv.Fields>,
          contents: map<Str, Bytes>, recordPath: Str)
    requires Spells(lib, enc, spell) && Lists(spell, rows, contents, recordPath)
    requires Installable(lib, contents) && Nameable(lib, recordPath)
    ensures IsRecord(lib, enc, Octets(rows), recordPath, EntriesOf(lib, contents, recordPath))
  {
    hide Lists, Installable, Spells, Nameable, IsRecord, EntriesOf;
    WrittenRecordReads(lib, enc, spell, rows, contents, recordPath, EntriesOf(lib, contents, recordPath));
  }

  lemma RecordIsTop(d: Dist)
    requires SLASH !in d.name
    ensures var r := InfoPath(d, "RECORD"); |r| >= 7 && IsRecordPath(r) && !HasPart(r, DATA)
  {
    var r := InfoPath(d, "RECORD");
    InfoPaths(d);
    RecordWord();
    DataWord();
    RecordNotInData(d.name);
    assert TopRecord(r) by { assert d.name + Lit(".dist-info/RECORD") == r; }
    hide IsRecordPath, HasPart, TopRecord, InfoPath;
    TopRecordExactly(r);
  }

  lemma OthersAreNot(d: Dist)
    requires forall p | p in d.files :: !TopRecord(p) && !InData(p)
    ensures forall p | p in d.files :: !IsRecordPath(p) && !HasPart(p, DATA)
  {
    hide IsRecordPath, HasPart, TopRecord, InData;
    forall p | p in d.files ensures !IsRecordPath(p) && !HasPart(p, DATA) {
      TopRecordExactly(p);
      InDataExactly(p);
    }
  }

  lemma SourceParts(lib: Library, d: Dist)
    requires InfoPath(d, "RECORD") !in d.files && IsRecordPath(InfoPath(d, "RECORD"))
    requires forall p | p in d.files :: !IsRecordPath(p)
    ensures var f, r := FactsOf(lib, d), InfoPath(d, "RECORD");
      && f.recordPath == r && f.members == d.files[r := Octets(d.sourceRows)] && f.sourceRecord == Octets(d.sourceRows)
      && f.source == EntriesOf(lib, d.files, r) && f.source.Keys == f.members.Keys == d.files.Keys + {r}
      && OnlyRecord(f.members, r) && AllBound(lib, f.members, f.source, r)
  {
    hide IsRecordPath, InfoPath, Octets, AllOf, Generated;
  }

  lemma SourceHolds(lib: Library, enc: Encoders, spell: Bytes -> Str, lock: WheelLock, wheel: Wheel, d: Dist)
    requires Spells(lib, enc, spell) && WheelHolds(lib, enc, spell, lock, wheel, d)
    ensures SourceOk(lib, enc, lock, wheel, FactsOf(lib, d))
  {
    hide IsRecordPath, HasPart, TopRecord, InData, IsRecord, Spells, Installable, Nameable, InfoPath, Octets, Lists,
      FactsOf, OnlyRecord, AllBound, EntriesOf;
    RecordIsTop(d);
    OthersAreNot(d);
    ListsApart(spell, d.sourceRows, d.files, InfoPath(d, "RECORD"));
    RecordsRead(lib, enc, spell, d.sourceRows, d.files, InfoPath(d, "RECORD"));
    SourceParts(lib, d);
  }

  /** What is installed, path by path. */
  lemma AllOfIs(d: Dist)
    requires d.files.Keys !! Generated(d).Keys && InfoPath(d, "RECORD") !in d.files + Generated(d)
    ensures var r := InfoPath(d, "RECORD");
      && |r| >= 7 && AllOf(d).Keys == d.files.Keys + {InstallerPath(r), RequestedPath(r), r}
      && AllOf(d)[r] == Octets(d.installedRows) && (forall p | p in d.files :: AllOf(d)[p] == d.files[p])
      && AllOf(d)[InstallerPath(r)] == INSTALLER && AllOf(d)[RequestedPath(r)] == []
      && InstallerPath(r) !in d.files && RequestedPath(r) !in d.files && r !in d.files
      && InstallerPath(r) != r && RequestedPath(r) != r
      && (d.files + Generated(d)).Keys == d.files.Keys + {InstallerPath(r), RequestedPath(r)}
      && (d.files + Generated(d))[InstallerPath(r)] == INSTALLER && (d.files + Generated(d))[RequestedPath(r)] == []
  {
    InfoPaths(d);
    GeneratedDiffer(InfoPath(d, "RECORD"));
    hide InfoPath, InstallerPath, RequestedPath, Octets;
  }

  lemma ListsApart(spell: Bytes -> Str, rows: seq<Csv.Fields>, contents: map<Str, Bytes>, recordPath: Str)
    requires Lists(spell, rows, contents, recordPath)
    ensures recordPath !in contents
  {
  }

  lemma InstallableSum(lib: Library, a: map<Str, Bytes>, b: map<Str, Bytes>)
    requires Installable(lib, a) && Installable(lib, b)
    ensures Installable(lib, a + b)
  {
    hide Nameable;
  }

  lemma HoldsParts(lib: Library, spell: Bytes -> Str, files: seq<Listed>, d: Dist)
    requires Holds(lib, spell, files, d)
    ensures d.files.Keys !! Generated(d).Keys && Installable(lib, Generated(d))
    ensures Lists(spell, d.installedRows, d.files + Generated(d), InfoPath(d, "RECORD"))
  {
    hide Generated, Installable, Lists, InfoPath, AllOf;
  }

  lemma RecordHolds(lib: Library, enc: Encoders, spell: Bytes -> Str, files: seq<Listed>, d: Dist)
    requires Spells(lib, enc, spell) && OnePerPath(files) && Holds(lib, spell, files, d)
    requires Installable(lib, d.files) && Nameable(lib, InfoPath(d, "RECORD"))
    ensures |FactsOf(lib, d).recordPath| >= 7 && RecordOk(lib, enc, files, FactsOf(lib, d))
  {
    hide *;
    var r := InfoPath(d, "RECORD");
    HoldsParts(lib, spell, files, d);
    InstallableSum(lib, d.files, Generated(d));
    ListsApart(spell, d.installedRows, d.files + Generated(d), r);
    AllOfIs(d);
    RecordsRead(lib, enc, spell, d.installedRows, d.files + Generated(d), r);
    InstalledOf(lib, spell, files, d, r);
    RecordParts(lib, d);
    RecordOkBy(lib, enc, files, FactsOf(lib, d));
  }

  lemma RecordOkBy(lib: Library, enc: Encoders, files: seq<Listed>, f: Facts)
    requires |f.recordPath| >= 7 && f.recordPath in f.members
    requires InstallerPath(f.recordPath) !in f.members && RequestedPath(f.recordPath) !in f.members
    requires f.paths == f.members.Keys + {InstallerPath(f.recordPath), RequestedPath(f.recordPath)}
    requires Installed(files, f.recordPath) == Some(f.installedRecord) && f.installed.Keys == f.paths
    requires IsRecord(lib, enc, f.installedRecord, f.recordPath, f.installed)
    ensures RecordOk(lib, enc, files, f)
  {
    hide InstallerPath, RequestedPath, Installed, IsRecord;
  }

  lemma RecordParts(lib: Library, d: Dist)
    ensures var f, r := FactsOf(lib, d), InfoPath(d, "RECORD");
      && f.recordPath == r && f.members.Keys == d.files.Keys + {r} && f.paths == AllOf(d).Keys
      && f.installedRecord == Octets(d.installedRows) && f.installed == EntriesOf(lib, d.files + Generated(d), r)
      && f.installed.Keys == (d.files + Generated(d)).Keys + {r}
  {
    hide InfoPath, Generated, Octets, AllOf;
  }

  lemma FilesHold(lib: Library, spell: Bytes -> Str, files: seq<Listed>, d: Dist)
    requires OnePerPath(files) && Holds(lib, spell, files, d)
    ensures |FactsOf(lib, d).recordPath| >= 7 && FilesOk(lib, files, FactsOf(lib, d))
  {
    hide InfoPath, InstallerPath, RequestedPath, Octets, Installed, Generated, AllOf, Lists, OnePerPath, Installable;
    var f, r := FactsOf(lib, d), InfoPath(d, "RECORD");
    ListsApart(spell, d.installedRows, d.files + Generated(d), r);
    AllOfIs(d);
    forall p | p in AllOf(d) ensures Installed(files, p) == Some(AllOf(d)[p]) { InstalledOf(lib, spell, files, d, p); }
    hide Holds, FactsOf, FileSame, GeneratedIs;
    forall p | p in d.files ensures p in f.members && FileSame(lib, files, f, p) { FileHolds(lib, files, d, p); }
    GeneratedHold(lib, files, d, InstallerPath(r), INSTALLER);
    GeneratedHold(lib, files, d, RequestedPath(r), []);
    FactsAre(lib, d);
  }

  lemma FactsAre(lib: Library, d: Dist)
    requires InfoPath(d, "RECORD") in AllOf(d) && AllOf(d)[InfoPath(d, "RECORD")] == Octets(d.installedRows)
    ensures var f, r := FactsOf(lib, d), InfoPath(d, "RECORD");
      && f.recordPath == r && f.members.Keys == d.files.Keys + {r} && f.rows.Keys == f.paths == AllOf(d).Keys
      && f.rows[r] == RowFor(lib, r, f.installedRecord)
  {
    hide InfoPath, Octets, AllOf;
  }

  lemma FileHolds(lib: Library, files: seq<Listed>, d: Dist, p: Str)
    requires p in d.files && p in AllOf(d) && AllOf(d)[p] == d.files[p] && Installed(files, p) == Some(d.files[p])
    requires InfoPath(d, "RECORD") !in d.files && p !in Generated(d)
    ensures p in FactsOf(lib, d).members && FileSame(lib, files, FactsOf(lib, d), p)
  {
    hide InfoPath, Octets, Installed, Generated, AllOf;
  }

  lemma GeneratedHold(lib: Library, files: seq<Listed>, d: Dist, p: Str, content: Bytes)
    requires p in d.files + Generated(d) && (d.files + Generated(d))[p] == content
    requires p in AllOf(d) && AllOf(d)[p] == content && Installed(files, p) == Some(content)
    ensures GeneratedIs(lib, files, FactsOf(lib, d), p, content)
  {
    hide InfoPath, Octets, Installed, Generated, AllOf;
  }

  // ---------------------------------------------------------------- the installation

  ghost predicate EachHolds(lib: Library, enc: Encoders, spell: Bytes -> Str, files: seq<Listed>,
          wheelhouse: map<Str, Wheel>, locks: seq<WheelLock>, ds: seq<Dist>) {
    |ds| == |locks|
    && forall i | 0 <= i < |ds| ::
      && locks[i].filename in wheelhouse
      && WheelHolds(lib, enc, spell, locks[i], wheelhouse[locks[i].filename], ds[i])
      && Holds(lib, spell, files, ds[i])
  }

  ghost predicate Apart(ds: seq<Dist>) {
    forall i, j | 0 <= i < j < |ds| :: AllOf(ds[i]).Keys !! AllOf(ds[j]).Keys
  }

  ghost predicate Owned(ds: seq<Dist>, path: Str) {
    exists i | 0 <= i < |ds| :: path in AllOf(ds[i])
  }

  /**
   The walk lists the files of the locked distributions and what pip adds to them, and nothing else; no path
   is in two distributions, and the paths and sizes are such as a candidate may have.
   */
  ghost predicate IsInstallation(lib: Library, enc: Encoders, spell: Bytes -> Str, walk: seq<Visit>,
          wheelhouse: map<Str, Wheel>, locks: seq<WheelLock>, ds: seq<Dist>) {
    && EachHolds(lib, enc, spell, AllFiles(walk), wheelhouse, locks, ds) && Apart(ds)
    && Scan(lib, walk, false).Some? && forall k | 0 <= k < |AllFiles(walk)| :: Owned(ds, AllFiles(walk)[k].path)
  }

  function AllFacts(lib: Library, ds: seq<Dist>): (r: seq<Facts>)
    ensures |r| == |ds| && forall i | 0 <= i < |ds| :: r[i] == FactsOf(lib, ds[i])
  {
    seq(|ds|, i requires 0 <= i < |ds| => FactsOf(lib, ds[i]))
  }

  lemma ScannedOnce(lib: Library, walk: seq<Visit>)
    requires Scan(lib, walk, false).Some?
    ensures OnePerPath(AllFiles(walk)) && NoCollision(lib, AllFiles(walk)) && AllOk(lib, AllFiles(walk), false)
  {
    hide FileOk, SortRows, RowsOf, EntryCount, AllFiles, PlainDirectories;
  }

  lemma WheelsOk(lib: Library, enc: Encoders, spell: Bytes -> Str, files: seq<Listed>, wheelhouse: map<Str, Wheel>,
          locks: seq<WheelLock>, ds: seq<Dist>)
    requires Spells(lib, enc, spell) && OnePerPath(files)
    requires EachHolds(lib, enc, spell, files, wheelhouse, locks, ds)
    ensures AllWheels(lib, enc, files, locks, wheelhouse, AllFacts(lib, ds))
  {
    hide SourceOk, RecordOk, FilesOk, Holds, FactsOf, Spells, OnePerPath, Installable, Nameable, Lists, InfoPath;
    forall i | 0 <= i < |ds|
      ensures WheelOk(lib, enc, files, locks[i], wheelhouse[locks[i].filename], FactsOf(lib, ds[i]))
    {
      SourceHolds(lib, enc, spell, locks[i], wheelhouse[locks[i].filename], ds[i]);
      RecordHolds(lib, enc, spell, files, ds[i]);
      FilesHold(lib, spell, files, ds[i]);
    }
  }

  lemma FactsPaths(lib: Library, ds: seq<Dist>, i: nat)
    requires i < |ds|
    ensures var f := AllFacts(lib, ds)[i];
      && f.paths == f.rows.Keys == AllOf(ds[i]).Keys
      && forall p | p in f.rows :: f.rows[p] == RowFor(lib, p, AllOf(ds[i])[p])
  {
    hide AllOf, InfoPath, Octets;
  }

  lemma FactsApart(lib: Library, ds: seq<Dist>)
    requires Apart(ds)
    ensures Disjoint(AllFacts(lib, ds))
  {
    hide AllOf;
    forall i, j | 0 <= i < j < |ds| ensures AllFacts(lib, ds)[i].paths !! AllFacts(lib, ds)[j].paths {
      FactsPaths(lib, ds, i);
      FactsPaths(lib, ds, j);
    }
  }

  /** Of disjoint facts each path has the row of its own. */
  lemma {:induction false} RowInUnion(facts: seq<Facts>, i: nat, p: Str)
    requires Disjoint(facts) && i < |facts| && p in facts[i].paths
    requires forall k | 0 <= k < |facts| :: facts[k].rows.Keys == facts[k].paths
    ensures p in Union(facts) && p in UnionRows(facts) && UnionRows(facts)[p] == facts[i].rows[p]
    decreases |facts|
  {
    if i < |facts| - 1 {
      assert facts[..|facts| - 1][i] == facts[i];
      RowInUnion(facts[..|facts| - 1], i, p);
      assert facts[i].paths !! facts[|facts| - 1].paths;
    }
  }

  /** A path of the union is a listed file of its distribution. */
  lemma UnionListed(lib: Library, enc: Encoders, spell: Bytes -> Str, files: seq<Listed>, wheelhouse: map<Str, Wheel>,
          locks: seq<WheelLock>, ds: seq<Dist>, p: Str) returns (i: nat, k: nat)
    requires EachHolds(lib, enc, spell, files, wheelhouse, locks, ds) && p in Union(AllFacts(lib, ds))
    ensures i < |ds| && p in AllOf(ds[i]) && k < |files| && files[k] == Listed(p, Ordinary(AllOf(ds[i])[p]))
  {
    hide AllOf, WheelHolds, FactsOf, Lists, Installable, Generated;
    i := UnionAt(AllFacts(lib, ds), p);
    FactsPaths(lib, ds, i);
    assert Holds(lib, spell, files, ds[i]);
    var at: nat :| at < |files| && files[at] == Listed(p, Ordinary(AllOf(ds[i])[p]));
    k := at;
  }

  lemma UnionFoldsApart(lib: Library, enc: Encoders, spell: Bytes -> Str, files: seq<Listed>,
          wheelhouse: map<Str, Wheel>, locks: seq<WheelLock>, ds: seq<Dist>)
    requires EachHolds(lib, enc, spell, files, wheelhouse, locks, ds) && NoCollision(lib, files)
    ensures FoldsApart(lib, Union(AllFacts(lib, ds)))
  {
    hide EachHolds, AllFacts;
    var paths := Union(AllFacts(lib, ds));
    forall p, q | p in paths && q in paths && p != q ensures lib.fold(p) != lib.fold(q) {
      var i, k := UnionListed(lib, enc, spell, files, wheelhouse, locks, ds, p);
      var j, l := UnionListed(lib, enc, spell, files, wheelhouse, locks, ds, q);
    }
  }

  // ---------------------------------------------------------------- the listing

  lemma {:induction false} InsertedRows(row: Row, rows: seq<Row>, x: Row)
    ensures x in InsertRow(row, rows) <==> x == row || x in rows
  {
    hide Json.StrLess;
    if rows != [] { InsertedRows(row, rows[1..], x); }
  }

  lemma {:induction false} SortedRows(rows: seq<Row>, x: Row)
    ensures x in SortRows(rows) <==> x in rows
    decreases |rows|
  {
    if rows != [] {
      SortedRows(rows[..|rows| - 1], x);
      InsertedRows(rows[|rows| - 1], SortRows(rows[..|rows| - 1]), x);
    }
  }

  lemma {:induction false} ListedRows(lib: Library, files: seq<Listed>, x: Row)
    requires AllOk(lib, files, false)
    ensures x in RowsOf(lib, files, false)
      <==> exists k | 0 <= k < |files| :: files[k].kind.Ordinary? && x == RowOf(lib, files[k])
    decreases |files|
  {
    hide Portable;
    if files != [] {
      var front, last := files[..|files| - 1], files[|files| - 1];
      assert FileOk(lib, last, false);
      ListedRows(lib, front, x);
      hide FileOk, AllOk;
      assert forall k | 0 <= k < |front| :: front[k] == files[k];
    }
  }

  /** The rows of the scan are those of the listed files. */
  lemma ScannedRows(lib: Library, walk: seq<Visit>, x: Row)
    requires Scan(lib, walk, false).Some?
    ensures x in Scan(lib, walk, false).value
      <==> exists k | 0 <= k < |AllFiles(walk)| ::
             AllFiles(walk)[k].kind.Ordinary? && x == RowOf(lib, AllFiles(walk)[k])
  {
    ScannedOnce(lib, walk);
    hide RowsOf, AllFiles, FileOk, SortRows;
    ListedRows(lib, AllFiles(walk), x);
    SortedRows(RowsOf(lib, AllFiles(walk), false), x);
  }

  lemma FileIsScanned(lib: Library, walk: seq<Visit>, k: nat)
    requires Scan(lib, walk, false).Some? && k < |AllFiles(walk)| && AllFiles(walk)[k].kind.Ordinary?
    ensures RowOf(lib, AllFiles(walk)[k]) in Scan(lib, walk, false).value
  {
    hide Scan, AllFiles;
    var files := AllFiles(walk);
    var x := RowOf(lib, files[k]);
    ScannedRows(lib, walk, x);
    assert exists i | 0 <= i < |files| :: files[i].kind.Ordinary? && x == RowOf(lib, files[i]) by {
      assert 0 <= k < |files| && files[k].kind.Ordinary? && x == RowOf(lib, files[k]);
    }
  }

  lemma OwnerRow(lib: Library, ds: seq<Dist>, i: nat, p: Str)
    requires Apart(ds) && i < |ds| && p in AllOf(ds[i])
    ensures var facts := AllFacts(lib, ds);
      p in Union(facts) && p in UnionRows(facts) && UnionRows(facts)[p] == RowFor(lib, p, AllOf(ds[i])[p])
  {
    hide AllOf, FactsOf, Union, UnionRows, Disjoint;
    FactsApart(lib, ds);
    forall m: nat | m < |ds| ensures AllFacts(lib, ds)[m].rows.Keys == AllFacts(lib, ds)[m].paths {
      FactsPaths(lib, ds, m);
    }
    FactsPaths(lib, ds, i);
    RowInUnion(AllFacts(lib, ds), i, p);
  }

  lemma SameFile(files: seq<Listed>, k: nat, content: Bytes)
    requires OnePerPath(files) && k < |files| && Listed(files[k].path, Ordinary(content)) in files
    ensures files[k] == Listed(files[k].path, Ordinary(content))
  {
    var at :| 0 <= at < |files| && files[at] == Listed(files[k].path, Ordinary(content));
  }

  lemma HoldsAt(lib: Library, enc: Encoders, spell: Bytes -> Str, files: seq<Listed>, wheelhouse: map<Str, Wheel>,
          locks: seq<WheelLock>, ds: seq<Dist>, i: nat, p: Str)
    requires EachHolds(lib, enc, spell, files, wheelhouse, locks, ds) && i < |ds| && p in AllOf(ds[i])
    ensures Listed(p, Ordinary(AllOf(ds[i])[p])) in files
  {
    hide AllOf, WheelHolds, Lists, Installable, Generated;
    assert Holds(lib, spell, files, ds[i]);
  }

  lemma ListedAgain(lib: Library, enc: Encoders, spell: Bytes -> Str, files: seq<Listed>, wheelhouse: map<Str, Wheel>,
          locks: seq<WheelLock>, ds: seq<Dist>, k: nat)
    requires EachHolds(lib, enc, spell, files, wheelhouse, locks, ds) && Apart(ds) && OnePerPath(files)
    requires k < |files| && files[k].kind.Ordinary? && Owned(ds, files[k].path)
    ensures var facts, row := AllFacts(lib, ds), RowOf(lib, files[k]);
      row.path in Union(facts) && row.path in UnionRows(facts) && UnionRows(facts)[row.path] == row
  {
    hide AllOf, Union, UnionRows, AllFacts, OnePerPath, EachHolds, Apart;
    var i :| 0 <= i < |ds| && files[k].path in AllOf(ds[i]);
    var p := files[k].path;
    OwnerRow(lib, ds, i, p);
    HoldsAt(lib, enc, spell, files, wheelhouse, locks, ds, i, p);
    SameFile(files, k, AllOf(ds[i])[p]);
  }

  /** Each scanned row is the row expected at its path. */
  lemma RowIsExpected(lib: Library, enc: Encoders, spell: Bytes -> Str, walk: seq<Visit>, wheelhouse: map<Str, Wheel>,
          locks: seq<WheelLock>, ds: seq<Dist>, x: Row)
    requires IsInstallation(lib, enc, spell, walk, wheelhouse, locks, ds) && OnePerPath(AllFiles(walk))
    requires x in Scan(lib, walk, false).value
    ensures var facts := AllFacts(lib, ds);
      x.path in Union(facts) && x.path in UnionRows(facts) && UnionRows(facts)[x.path] == x
  {
    hide EachHolds, OnePerPath, Scan, AllFiles, Union, UnionRows, AllFacts, AllOf, Apart, Owned;
    var files := AllFiles(walk);
    ScannedRows(lib, walk, x);
    var k :| 0 <= k < |files| && files[k].kind.Ordinary? && x == RowOf(lib, files[k]);
    assert Owned(ds, files[k].path);
    ListedAgain(lib, enc, spell, files, wheelhouse, locks, ds, k);
  }

  /** Each expected path has a scanned row. */
  lemma PathIsScanned(lib: Library, enc: Encoders, spell: Bytes -> Str, walk: seq<Visit>, wheelhouse: map<Str, Wheel>,
          locks: seq<WheelLock>, ds: seq<Dist>, p: Str) returns (n: nat)
    requires IsInstallation(lib, enc, spell, walk, wheelhouse, locks, ds) && p in Union(AllFacts(lib, ds))
    ensures n < |Scan(lib, walk, false).value| && Scan(lib, walk, false).value[n].path == p
  {
    hide EachHolds, Scan, AllFiles, Union, AllFacts, AllOf, Apart, Owned;
    var files, actual := AllFiles(walk), Scan(lib, walk, false).value;
    var i, k := UnionListed(lib, enc, spell, files, wheelhouse, locks, ds, p);
    FileIsScanned(lib, walk, k);
    var at: nat :| at < |actual| && actual[at] == RowOf(lib, files[k]);
    n := at;
  }

  lemma ListingSame(actual: seq<Row>, expected: set<Str>, rows: map<Str, Row>)
    requires forall i | 0 <= i < |actual| ::
      actual[i].path in expected && actual[i].path in rows && rows[actual[i].path] == actual[i]
    requires forall p | p in expected :: exists i | 0 <= i < |actual| :: actual[i].path == p
    ensures SameListing(actual, expected, rows)
  {
  }

  lemma ListingIsExplained(lib: Library, enc: Encoders, spell: Bytes -> Str, walk: seq<Visit>,
          wheelhouse: map<Str, Wheel>, locks: seq<WheelLock>, ds: seq<Dist>)
    requires IsInstallation(lib, enc, spell, walk, wheelhouse, locks, ds) && OnePerPath(AllFiles(walk))
    ensures var facts := AllFacts(lib, ds); SameListing(Scan(lib, walk, false).value, Union(facts), UnionRows(facts))
  {
    assert Scan(lib, walk, false).Some?;
    hide *;
    var facts, actual := AllFacts(lib, ds), Scan(lib, walk, false).value;
    forall i | 0 <= i < |actual|
      ensures actual[i].path in Union(facts) && actual[i].path in UnionRows(facts)
      ensures UnionRows(facts)[actual[i].path] == actual[i]
    {
      RowIsExpected(lib, enc, spell, walk, wheelhouse, locks, ds, actual[i]);
    }
    forall p | p in Union(facts) ensures exists i | 0 <= i < |actual| :: actual[i].path == p {
      var n := PathIsScanned(lib, enc, spell, walk, wheelhouse, locks, ds, p);
    }
    ListingSame(actual, Union(facts), UnionRows(facts));
  }

  /** The verification explains every installation of the locked wheels, whatever they hold. */
  lemma InstallationIsExplained(lib: Library, enc: Encoders, spell: Bytes -> Str, walk: seq<Visit>,
          wheelhouse: map<Str, Wheel>, locks: seq<WheelLock>, ds: seq<Dist>)
    requires Spells(lib, enc, spell) && IsInstallation(lib, enc, spell, walk, wheelhouse, locks, ds)
    ensures Explained(lib, enc, walk, wheelhouse, locks, AllFacts(lib, ds))
  {
    ScannedOnce(lib, walk);
    ListingIsExplained(lib, enc, spell, walk, wheelhouse, locks, ds);
    hide EachHolds, OnePerPath, Scan, AllFiles, Union, UnionRows, AllFacts, AllOf, NoCollision, AllOk, Apart,
      SameListing, AllWheels, Disjoint, FoldsApart, Spells;
    WheelsOk(lib, enc, spell, AllFiles(walk), wheelhouse, locks, ds);
    FactsApart(lib, ds);
    UnionFoldsApart(lib, enc, spell, AllFiles(walk), wheelhouse, locks, ds);
  }

  lemma FactsCounts(lib: Library, d: Dist)
    requires InfoPath(d, "RECORD") !in d.files + Generated(d) && d.files.Keys !! Generated(d).Keys
    ensures var f := FactsOf(lib, d);
      && f.sourceRecord == Octets(d.sourceRows) && f.installedRecord == Octets(d.installedRows)
      && |f.source| == |d.files| + 1 && |f.paths| == |d.files| + 3
  {
    var r := InfoPath(d, "RECORD");
    AllOfIs(d);
    SourceKeys(lib, d);
    hide InfoPath, InstallerPath, RequestedPath, Octets, Generated, AllOf, EntriesOf;
    GeneratedDiffer(r);
    KeysCount(FactsOf(lib, d).source);
    KeysCount(d.files);
    assert |d.files.Keys + {r}| == |d.files.Keys| + 1;
    FourApart(d.files.Keys, InstallerPath(r), RequestedPath(r), r);
  }

  lemma SourceKeys(lib: Library, d: Dist)
    ensures FactsOf(lib, d).source.Keys == d.files.Keys + {InfoPath(d, "RECORD")}
  {
    hide InfoPath, Octets, Generated, AllOf;
  }

  /** The line of a wheel in the report: the lock, the digests of the two RECORDs, and the files. */
  lemma ReportSays(lib: Library, locks: seq<WheelLock>, ds: seq<Dist>, reports: seq<WheelReport>, i: nat)
    requires AllReports(lib, locks, AllFacts(lib, ds), reports) && i < |ds|
    requires InfoPath(ds[i], "RECORD") !in ds[i].files + Generated(ds[i]) && ds[i].files.Keys !! Generated(ds[i]).Keys
    ensures |reports| == |locks| == |ds| && reports[i].filename == locks[i].filename
    ensures reports[i].archiveSha256 == locks[i].sha256
    ensures reports[i].sourceRecordSha256 == lib.sha256(Octets(ds[i].sourceRows))
    ensures reports[i].installedRecordSha256 == lib.sha256(Octets(ds[i].installedRows))
    ensures reports[i].sourceFiles == |ds[i].files| && reports[i].installedFiles == |ds[i].files| + 3
  {
    hide InfoPath, Octets, Generated, FactsOf;
    FactsCounts(lib, ds[i]);
  }

  lemma KeysCount<K, V>(m: map<K, V>)
    ensures |m| == |m.Keys|
  {
  }

  lemma FourApart(s: set<Str>, a: Str, b: Str, c: Str)
    requires a !in s && b !in s && c !in s && a != b && a != c && b != c
    ensures |s + {a, b, c}| == |s| + 3
  {
    assert s + {a, b, c} == s + {a} + {b} + {c};
  }
}
