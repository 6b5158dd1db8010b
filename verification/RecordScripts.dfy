/**
 Removing the console scripts that pip installs: their rows go from all RECORD files in one pass, and
 rows and files stay one to one.
 */
module RecordScripts {
  import opened Text
  import opened Csv
  import opened ReleasePaths
  import opened RecordEdit

  function BinPath(name: Str): Str { Lit("bin/") + name }

  /** `name in matched` and the row is spelled as pip spells a script. */
  predicate IsScriptRow(names: set<Str>, row: Fields) {
    row != [] && TO_BIN <= row[0] && Name(row[0]) in names
  }

  function Retained(names: set<Str>, rows: seq<Fields>): (r: seq<Fields>)
    ensures |r| <= |rows| && forall i | 0 <= i < |r| :: r[i] in rows
  {
    if rows == [] then [] else (if IsScriptRow(names, rows[0]) then [] else [rows[0]]) + Retained(names, rows[1..])
  }

  function Matches(names: set<Str>, rows: seq<Fields>, n: Str): nat {
    if rows == [] then 0
    else (if IsScriptRow(names, rows[0]) && Name(rows[0][0]) == n then 1 else 0) + Matches(names, rows[1..], n)
  }

  function AllMatches(files: Files, dists: seq<Str>, names: set<Str>, n: Str): nat {
    if dists == [] then 0 else Matches(names, RowsOf(files, dists[0]), n) + AllMatches(files, dists[1..], names, n)
  }

  predicate Readable(files: Files, dists: seq<Str>) {
    forall i | 0 <= i < |dists| :: RecordPath(dists[i]) in files && Triples(ReadRows(files[RecordPath(dists[i])]))
  }

  /** Every RECORD written again without the script rows of its original. */
  function Rewritten(files: Files, original: Files, dists: seq<Str>, names: set<Str>): Files {
    if dists == [] then files
    else
      Rewritten(files, original, dists[..|dists| - 1], names)[RecordPath(dists[|dists| - 1]) :=
        WriteRows(Retained(names, RowsOf(original, dists[|dists| - 1])))]
  }

  function BinPaths(names: set<Str>): set<Str> {
    set n | n in names :: BinPath(n)
  }

  predicate ScriptsBound(files: Files, dists: seq<Str>, names: set<Str>) {
    Readable(files, dists) && forall n | n in names :: AllMatches(files, dists, names, n) == 1
  }

  // ---------------------------------------------------------------- the function

  lemma {:induction false} MatchesConcat(names: set<Str>, a: seq<Fields>, b: seq<Fields>, n: Str)
    ensures Matches(names, a + b, n) == Matches(names, a, n) + Matches(names, b, n)
  {
    if a == [] { assert a + b == b; } else {
      assert (a + b)[0] == a[0] && (a + b)[1..] == a[1..] + b;
      MatchesConcat(names, a[1..], b, n);
    }
  }

  lemma {:induction false} RetainedConcat(names: set<Str>, a: seq<Fields>, b: seq<Fields>)
    ensures Retained(names, a + b) == Retained(names, a) + Retained(names, b)
  {
    if a == [] { assert a + b == b; } else {
      assert (a + b)[0] == a[0] && (a + b)[1..] == a[1..] + b;
      RetainedConcat(names, a[1..], b);
    }
  }

  lemma OneRow(names: set<Str>, row: Fields, n: Str)
    ensures Retained(names, [row]) == if IsScriptRow(names, row) then [] else [row]
    ensures Matches(names, [row], n) == if IsScriptRow(names, row) && Name(row[0]) == n then 1 else 0
  {
    assert [row][1..] == [];
  }

  ghost predicate Counted(matched: map<Str, nat>, start: map<Str, nat>, names: set<Str>, rows: seq<Fields>) {
    matched.Keys == names && start.Keys == names
      && forall n | n in names :: matched[n] == start[n] + Matches(names, rows, n)
  }

  lemma CountedMore(matched: map<Str, nat>, start: map<Str, nat>, names: set<Str>, rows: seq<Fields>, row: Fields)
    requires Counted(matched, start, names, rows) && row != []
    ensures var next := if IsScriptRow(names, row) then matched[Name(row[0]) := matched[Name(row[0])] + 1] else matched;
      Counted(next, start, names, rows + [row])
  {
    forall n | n in names
      ensures Matches(names, rows + [row], n) == Matches(names, rows, n) + Matches(names, [row], n)
    {
      MatchesConcat(names, rows, [row], n);
    }
    forall n | n in names
      ensures Matches(names, [row], n) == if IsScriptRow(names, row) && Name(row[0]) == n then 1 else 0
    {
      OneRow(names, row, n);
    }
    hide Matches, Name;
  }

  /** One RECORD: split its rows into those of scripts, which are counted, and those to keep. */
  method SplitRows(rows: seq<Fields>, names: set<Str>, start: map<Str, nat>)
    returns (retained: seq<Fields>, matched: map<Str, nat>)
    requires Triples(rows) && start.Keys == names
    ensures retained == Retained(names, rows) && Counted(matched, start, names, rows)
  {
    retained, matched := [], start;
    var i := 0;
    while i < |rows|
      invariant 0 <= i <= |rows| && retained == Retained(names, rows[..i]) && Counted(matched, start, names, rows[..i])
    {
      var row := rows[i];
      var name := Name(row[0]);
      assert rows[..i + 1] == rows[..i] + [row];
      CountedMore(matched, start, names, rows[..i], row);
      RetainedConcat(names, rows[..i], [row]);
      OneRow(names, row, name);
      if TO_BIN <= row[0] && name in matched {
        matched := matched[name := matched[name] + 1];
      } else {
        retained := retained + [row];
      }
      i := i + 1;
    }
    assert rows[..i] == rows;
  }

  lemma {:induction false} AllMatchesMore(files: Files, dists: seq<Str>, names: set<Str>, k: nat, n: Str)
    requires k < |dists|
    ensures AllMatches(files, dists[..k + 1], names, n)
      == AllMatches(files, dists[..k], names, n) + Matches(names, RowsOf(files, dists[k]), n)
    decreases k
  {
    if k > 0 {
      assert dists[..k + 1][1..] == dists[1..][..k] && dists[..k][1..] == dists[1..][..k - 1];
      AllMatchesMore(files, dists[1..], names, k - 1, n);
    } else {
      assert dists[..1][1..] == [];
    }
  }

  ghost predicate Totals(matched: map<Str, nat>, files: Files, dists: seq<Str>, names: set<Str>) {
    matched.Keys == names && forall n | n in names :: matched[n] == AllMatches(files, dists, names, n)
  }

  lemma TotalsMore(matched: map<Str, nat>, next: map<Str, nat>, files: Files, dists: seq<Str>, names: set<Str>, k: nat)
    requires k < |dists| && Totals(matched, files, dists[..k], names)
    requires Counted(next, matched, names, RowsOf(files, dists[k]))
    ensures Totals(next, files, dists[..k + 1], names)
  {
    forall n | n in names
      ensures next[n] == AllMatches(files, dists[..k + 1], names, n)
    {
      AllMatchesMore(files, dists, names, k, n);
    }
  }

  predicate Collected(kept: map<Str, seq<Fields>>, files: Files, dists: seq<Str>, names: set<Str>) {
    forall i | 0 <= i < |dists| :: dists[i] in kept && kept[dists[i]] == Retained(names, RowsOf(files, dists[i]))
  }

  /** First pass: read every RECORD, count the script rows, set the others aside. */
  method CollectRows(files: Files, dists: seq<Str>, names: set<Str>)
    returns (ok: bool, kept: map<Str, seq<Fields>>, matched: map<Str, nat>)
    requires Distinct(dists) && forall d | d in dists :: RecordPath(d) in files
    ensures ok <==> Readable(files, dists)
    ensures ok ==> Totals(matched, files, dists, names) && Collected(kept, files, dists, names)
  {
    kept, matched := map[], map n | n in names :: 0;
    var i := 0;
    while i < |dists|
      invariant 0 <= i <= |dists| && Readable(files, dists[..i])
      invariant Totals(matched, files, dists[..i], names) && Collected(kept, files, dists[..i], names)
    {
      hide Totals, Counted, Retained, ReadRows;
      var dist := dists[i];
      assert dist in dists;
      var rows := ReadRows(files[RecordPath(dist)]);
      if !Triples(rows) { return false, kept, matched; }
      TotalsKeys(matched, files, dists[..i], names);
      var retained, next := SplitRows(rows, names, matched);
      TotalsMore(matched, next, files, dists, names, i);
      matched := next;
      kept := kept[dist := retained];
      assert dists[..i + 1] == dists[..i] + [dist];
      i := i + 1;
    }
    assert dists[..i] == dists;
    ok := true;
  }

  /** Last pass: write every RECORD back. */
  method WriteBack(site: SitePackages, kept: map<Str, seq<Fields>>, dists: seq<Str>, ghost files: Files,
          ghost names: set<Str>)
    requires Collected(kept, files, dists, names)
    modifies site
    ensures site.files == Rewritten(old(site.files), files, dists, names)
  {
    hide Retained, WriteRows, RowsOf;
    ghost var start := site.files;
    var i := 0;
    while i < |dists|
      invariant 0 <= i <= |dists| && site.files == Rewritten(start, files, dists[..i], names)
    {
      assert dists[..i + 1][..i] == dists[..i];
      site.files := site.files[RecordPath(dists[i]) := WriteRows(kept[dists[i]])];
      i := i + 1;
    }
    assert dists[..i] == dists;
  }

  /**
   `_remove_pip_console_scripts`; `dists` is the sorted listing of RECORDs, `listing` that of `bin`.
   */
  method RemovePipConsoleScripts(site: SitePackages, dists: seq<Str>, listing: set<Str>, expected: set<Str>)
    returns (ok: bool)
    requires Distinct(dists) && forall d | d in dists :: RecordPath(d) in site.files
    modifies site
    ensures ok <==> listing == expected && ScriptsBound(old(site.files), dists, listing)
    ensures site.files
      == if ok then Rewritten(old(site.files) - BinPaths(listing), old(site.files), dists, listing) else old(site.files)
  {
    hide Rewritten, AllMatches, Readable, BinPaths;
    if listing != expected { return false; }
    ghost var files := site.files;
    var kept, matched;
    ok, kept, matched := CollectRows(site.files, dists, listing);
    if !ok { return; }
    if exists n | n in matched :: matched[n] != 1 {
      return false;
    }
    site.files := site.files - BinPaths(listing);
    WriteBack(site, kept, dists, files, listing);
  }

  lemma TotalsKeys(matched: map<Str, nat>, files: Files, dists: seq<Str>, names: set<Str>)
    requires Totals(matched, files, dists, names)
    ensures matched.Keys == names
  {
  }

  // ---------------------------------------------------------------- rows and files stay one to one

  /** How many script rows name the file `p`. */
  function ScriptNaming(names: set<Str>, rows: seq<Fields>, p: Str): nat {
    if rows == [] then 0
    else (if IsScriptRow(names, rows[0]) && Target(rows[0]) == p then 1 else 0) + ScriptNaming(names, rows[1..], p)
  }

  lemma {:induction false} RetainedCounts(names: set<Str>, rows: seq<Fields>, p: Str)
    ensures Naming(Retained(names, rows), p) + ScriptNaming(names, rows, p) == Naming(rows, p)
  {
    if rows != [] {
      RetainedCounts(names, rows[1..], p);
      var rest := Retained(names, rows[1..]);
      hide IsScriptRow, Target;
      if IsScriptRow(names, rows[0]) {
        assert [] + rest == rest;
        ScriptRowHasField(names, rows[0]);
      } else {
        assert ([rows[0]] + rest)[1..] == rest;
      }
    }
  }

  lemma ScriptRowHasField(names: set<Str>, row: Fields)
    requires IsScriptRow(names, row)
    ensures row != []
  {
  }

  /** A name is the whole last component of a script's path. */
  predicate IsName(n: Str) {
    n != [] && n != [DOT] && SLASH !in n
  }

  /** `PurePosixPath("../../bin/" + n).name` is `n`. */
  lemma ScriptName(n: Str)
    requires IsName(n)
    ensures Name(TO_BIN + n) == n
  {
    var up, bin := Lit(".."), Lit("bin");
    assert TO_BIN + n == up + [SLASH] + (up + [SLASH] + (bin + [SLASH] + n));
    assert IsPart(up) && IsPart(bin) && IsPart(n);
    assert SLASH !in up && SLASH !in bin;
    var one := [n];
    assert one[1..] == [];
    SplitName(n);
    assert KeepParts(one) == one;
    hide Lit, KeepParts, SplitPath, IsPart;
    FirstPart(bin, n, one);
    FirstPart(up, bin + [SLASH] + n, [bin] + one);
    FirstPart(up, up + [SLASH] + (bin + [SLASH] + n), [up] + ([bin] + one));
  }

  /** A first component is a component of its own. */
  lemma FirstPart(a: Str, b: Str, rest: seq<Str>)
    requires SLASH !in a && IsPart(a) && KeepParts(SplitPath(b)) == rest
    ensures KeepParts(SplitPath(a + [SLASH] + b)) == [a] + rest
  {
    SplitAfter(a, b);
    hide SplitPath;
    var ps := [a] + SplitPath(b);
    assert ps[0] == a && ps[1..] == SplitPath(b);
  }

  /** The directory `bin` holds exactly the listed scripts. */
  ghost predicate BinHolds(files: Files, names: set<Str>) {
    (forall n | n in names :: IsName(n) && BinPath(n) in files)
    && forall p | p in files && Lit("bin/") <= p :: exists n | n in names :: p == BinPath(n)
  }

  /** Every script row names a script that is there, by its name. */
  ghost predicate RowsNameScripts(names: set<Str>, rows: seq<Fields>) {
    forall i | 0 <= i < |rows| && IsScriptRow(names, rows[i]) :: Target(rows[i]) == BinPath(Name(rows[i][0]))
  }

  lemma {:induction false} NamedRow(rows: seq<Fields>, i: nat)
    requires i < |rows| && rows[i] != []
    ensures Naming(rows, Target(rows[i])) > 0
  {
    if i > 0 { NamedRow(rows[1..], i - 1); }
  }

  lemma {:induction false} NamedAtLeast(files: Files, dists: seq<Str>, k: nat, p: Str)
    requires k < |dists|
    ensures Named(files, dists, p) >= Naming(RowsOf(files, dists[k]), p)
  {
    if k > 0 { NamedAtLeast(files, dists[1..], k - 1, p); }
  }

  lemma BoundRowsNameScripts(files: Files, dists: seq<Str>, names: set<Str>, k: nat)
    requires Bound(files, dists) && BinHolds(files, names) && k < |dists|
    ensures RowsNameScripts(names, RowsOf(files, dists[k]))
  {
    var rows := RowsOf(files, dists[k]);
    forall i | 0 <= i < |rows| && IsScriptRow(names, rows[i]) ensures Target(rows[i]) == BinPath(Name(rows[i][0])) {
      NamedRow(rows, i);
      NamedAtLeast(files, dists, k, Target(rows[i]));
      assert Named(files, dists, Target(rows[i])) == if Target(rows[i]) in files then 1 else 0;
      hide Named, Naming, RowsOf;
      ScriptTarget(files, names, rows[i]);
    }
  }

  lemma ScriptTarget(files: Files, names: set<Str>, row: Fields)
    requires BinHolds(files, names) && IsScriptRow(names, row) && Target(row) in files
    ensures Target(row) == BinPath(Name(row[0]))
  {
    var p := Target(row);
    assert Lit("bin/") <= p by { assert p == row[0][6..] && TO_BIN[6..] == Lit("bin/"); }
    var n :| n in names && p == BinPath(n);
    assert row[0] == TO_BIN + n by { assert row[0] == row[0][..6] + p && TO_BIN[..6] == row[0][..6]; }
    ScriptName(n);
  }

  lemma {:induction false} ScriptNamingIs(names: set<Str>, rows: seq<Fields>, n: Str)
    requires RowsNameScripts(names, rows)
    ensures ScriptNaming(names, rows, BinPath(n)) == Matches(names, rows, n)
  {
    if rows != [] {
      assert RowsNameScripts(names, rows[1..]) by {
        forall i | 0 <= i < |rows[1..]| && IsScriptRow(names, rows[1..][i])
          ensures Target(rows[1..][i]) == BinPath(Name(rows[1..][i][0]))
        {
          assert rows[1..][i] == rows[i + 1];
        }
      }
      ScriptNamingIs(names, rows[1..], n);
      if IsScriptRow(names, rows[0]) { BinPathsDiffer(Name(rows[0][0]), n); }
      hide Name, Target, IsScriptRow;
    }
  }

  lemma BinPathsDiffer(a: Str, b: Str)
    ensures BinPath(a) == BinPath(b) <==> a == b
  {
    assert BinPath(a)[4..] == a && BinPath(b)[4..] == b;
  }

  lemma {:induction false} ScriptNamingNone(names: set<Str>, rows: seq<Fields>, p: Str)
    requires RowsNameScripts(names, rows) && p !in BinPaths(names)
    ensures ScriptNaming(names, rows, p) == 0
  {
    if rows != [] {
      assert RowsNameScripts(names, rows[1..]) by {
        forall i | 0 <= i < |rows[1..]| && IsScriptRow(names, rows[1..][i])
          ensures Target(rows[1..][i]) == BinPath(Name(rows[1..][i][0]))
        {
          assert rows[1..][i] == rows[i + 1];
        }
      }
      ScriptNamingNone(names, rows[1..], p);
    }
  }

  function AllScriptNaming(files: Files, dists: seq<Str>, names: set<Str>, p: Str): nat {
    if dists == [] then 0
    else ScriptNaming(names, RowsOf(files, dists[0]), p) + AllScriptNaming(files, dists[1..], names, p)
  }

  lemma {:induction false} NamedSplits(files: Files, later: Files, dists: seq<Str>, names: set<Str>, p: Str)
    requires forall i | 0 <= i < |dists| :: RowsOf(later, dists[i]) == Retained(names, RowsOf(files, dists[i]))
    ensures Named(later, dists, p) + AllScriptNaming(files, dists, names, p) == Named(files, dists, p)
  {
    if dists != [] {
      RetainedCounts(names, RowsOf(files, dists[0]), p);
      assert RowsOf(later, dists[0]) == Retained(names, RowsOf(files, dists[0]));
      forall i | 0 <= i < |dists[1..]|
        ensures RowsOf(later, dists[1..][i]) == Retained(names, RowsOf(files, dists[1..][i]))
      {
        assert dists[1..][i] == dists[i + 1];
      }
      NamedSplits(files, later, dists[1..], names, p);
    }
  }

  lemma {:induction false} AllScriptNamingIs(files: Files, dists: seq<Str>, names: set<Str>, p: Str)
    requires forall i | 0 <= i < |dists| :: RowsNameScripts(names, RowsOf(files, dists[i]))
    ensures p !in BinPaths(names) ==> AllScriptNaming(files, dists, names, p) == 0
    ensures forall n | n in names && p == BinPath(n) ::
        AllScriptNaming(files, dists, names, p) == AllMatches(files, dists, names, n)
  {
    if dists != [] {
      assert RowsNameScripts(names, RowsOf(files, dists[0]));
      forall i | 0 <= i < |dists[1..]| ensures RowsNameScripts(names, RowsOf(files, dists[1..][i])) {
        assert dists[1..][i] == dists[i + 1];
      }
      AllScriptNamingIs(files, dists[1..], names, p);
      hide BinPaths, RowsOf, RowsNameScripts;
      if p !in BinPaths(names) { ScriptNamingNone(names, RowsOf(files, dists[0]), p); }
      forall n | n in names && p == BinPath(n)
        ensures AllScriptNaming(files, dists, names, p) == AllMatches(files, dists, names, n)
      {
        ScriptNamingIs(names, RowsOf(files, dists[0]), n);
      }
    }
  }

  lemma {:induction false} RewrittenFiles(files: Files, original: Files, dists: seq<Str>, names: set<Str>, p: Str)
    requires forall i | 0 <= i < |dists| :: RecordPath(dists[i]) in files
    ensures p in Rewritten(files, original, dists, names) <==> p in files
    ensures p in files && (forall i | 0 <= i < |dists| :: RecordPath(dists[i]) != p)
      ==> Rewritten(files, original, dists, names)[p] == files[p]
    decreases |dists|
  {
    hide WriteRows, Retained, RowsOf;
    if dists != [] { RewrittenFiles(files, original, dists[..|dists| - 1], names, p); }
  }

  lemma {:induction false} RewrittenRecord(files: Files, original: Files, dists: seq<Str>, names: set<Str>, k: nat)
    requires k < |dists| && Distinct(dists)
    ensures RecordPath(dists[k]) in Rewritten(files, original, dists, names)
    ensures Rewritten(files, original, dists, names)[RecordPath(dists[k])]
      == WriteRows(Retained(names, RowsOf(original, dists[k])))
    decreases |dists|
  {
    hide WriteRows, Retained, RowsOf;
    var front := dists[..|dists| - 1];
    if k < |front| {
      RewrittenRecord(files, original, front, names, k);
      RecordsDiffer(dists[k], dists[|dists| - 1]);
    }
  }

  lemma RecordNotInBin(dist: Str, names: set<Str>)
    requires IsDist(dist)
    ensures RecordPath(dist) !in BinPaths(names)
  {
    forall n | n in names ensures RecordPath(dist) != BinPath(n) {
      assert BinPath(n)[3] == SLASH && RecordPath(dist)[3] == dist[3];
    }
  }

  /**
   When the function succeeds on rows and files that were one to one, the scripts and exactly their
   rows are gone, all other rows of every RECORD stay in order, no other file changes, and rows and
   files are one to one again.
   */
  lemma ScriptsRemovedKeepsBound(files: Files, dists: seq<Str>, names: set<Str>)
    requires Distinct(dists) && AllDists(dists) && Bound(files, dists) && BinHolds(files, names)
    requires ScriptsBound(files, dists, names)
    ensures var later := Rewritten(files - BinPaths(names), files, dists, names);
      Bound(later, dists)
      && (forall d | d in dists :: RowsOf(later, d) == Retained(names, RowsOf(files, d)))
      && (forall p :: p in later <==> p in files && p !in BinPaths(names))
      && (forall p | p in later && (forall i | 0 <= i < |dists| :: RecordPath(dists[i]) != p) :: later[p] == files[p])
  {
    var rest := files - BinPaths(names);
    var later := Rewritten(rest, files, dists, names);
    forall i | 0 <= i < |dists| ensures RecordPath(dists[i]) in rest {
      assert IsDist(dists[i]);
      RecordNotInBin(dists[i], names);
    }
    forall i | 0 <= i < |dists| ensures RowsOf(later, dists[i]) == Retained(names, RowsOf(files, dists[i])) {
      RewrittenRecord(rest, files, dists, names, i);
      RewrittenReadsBack(files[RecordPath(dists[i])], Retained(names, RowsOf(files, dists[i])));
    }
    forall i | 0 <= i < |dists|
      ensures RowsNameScripts(names, RowsOf(files, dists[i]))
    {
      BoundRowsNameScripts(files, dists, names, i);
    }
    forall p
      ensures p in later <==> p in files && p !in BinPaths(names)
      ensures p in later && (forall i | 0 <= i < |dists| :: RecordPath(dists[i]) != p) ==> later[p] == files[p]
    {
      RewrittenFiles(rest, files, dists, names, p);
    }
    hide RowsOf, Retained, Rewritten, BinPaths, RowsNameScripts;
    forall p ensures Named(later, dists, p) == if p in later then 1 else 0 {
      StrippedCount(files, later, dists, names, p);
    }
  }

  lemma StrippedCount(files: Files, later: Files, dists: seq<Str>, names: set<Str>, p: Str)
    requires Bound(files, dists) && BinHolds(files, names) && ScriptsBound(files, dists, names)
    requires forall i | 0 <= i < |dists| :: RowsOf(later, dists[i]) == Retained(names, RowsOf(files, dists[i]))
    requires forall i | 0 <= i < |dists| :: RowsNameScripts(names, RowsOf(files, dists[i]))
    requires p in later <==> p in files && p !in BinPaths(names)
    ensures Named(later, dists, p) == if p in later then 1 else 0
  {
    hide RowsOf, Retained, RowsNameScripts, Readable;
    NamedSplits(files, later, dists, names, p);
    AllScriptNamingIs(files, dists, names, p);
    assert Named(files, dists, p) == if p in files then 1 else 0;
    if p in BinPaths(names) {
      var n :| n in names && p == BinPath(n);
      assert AllMatches(files, dists, names, n) == 1;
    }
  }
}
