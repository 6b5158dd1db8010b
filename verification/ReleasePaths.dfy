/**
 Paths of a release candidate, and what the library supplies about text and content: components as
 `PurePosixPath` splits them, which drops empty and `.` components, the path check of the candidate
 verifier, and the path of the file manifest itself.
 */
module ReleasePaths {
  import opened Text

  const SLASH: CodePoint := 47
  const DOT: CodePoint := 46
  const BACKSLASH: CodePoint := 92
  const COLON: CodePoint := 58
  const SPACE: CodePoint := 32

  const MAX_CANDIDATE_FILES: nat := 100_000
  const MAX_CANDIDATE_FILE_BYTES: nat := 2 * 1024 * 1024 * 1024
  const MAX_CANDIDATE_BYTES: nat := 8 * 1024 * 1024 * 1024
  const MAX_CANDIDATE_CONTROL_BYTES: nat := 16 * 1024 * 1024
  const FILE_MANIFEST_PATH: Str := Lit("release/file-manifest.json")

  /** `str.casefold`, the test for Unicode normal form C, and SHA-256 as hexadecimal text. */
  datatype Library = Library(fold: Str -> Str, normal: Str -> bool, sha256: Bytes -> Str)

  predicate IsLowerHex(c: CodePoint) {
    48 <= c <= 57 || 97 <= c <= 102
  }

  predicate IsSha256(s: Str) {
    |s| == 64 && forall i | 0 <= i < 64 :: IsLowerHex(s[i])
  }

  /** The text of a digest is 64 lower-case hexadecimal digits. */
  ghost predicate HexDigests(lib: Library) {
    forall b: Bytes :: IsSha256(lib.sha256(b))
  }

  /** No two of these contents have the same digest. */
  ghost predicate CollisionFree(lib: Library, contents: set<Bytes>) {
    forall a, b | a in contents && b in contents && lib.sha256(a) == lib.sha256(b) :: a == b
  }

  /** `str.split("/")`. */
  function SplitPath(s: Str): (r: seq<Str>)
    ensures r != []
  {
    if s == [] then [[]]
    else
      var rest := SplitPath(s[1..]);
      if s[0] == SLASH then [[]] + rest else [[s[0]] + rest[0]] + rest[1..]
  }

  predicate IsPart(p: Str) {
    p != [] && p != [DOT]
  }

  function KeepParts(ps: seq<Str>): seq<Str> {
    if ps == [] then [] else (if IsPart(ps[0]) then [ps[0]] else []) + KeepParts(ps[1..])
  }

  /** `PurePosixPath(s).parts` of a relative path: empty and `.` components are dropped. */
  function Parts(s: Str): seq<Str> {
    KeepParts(SplitPath(s))
  }

  /** `PurePosixPath(s).name`. */
  function Name(s: Str): Str {
    var ps := Parts(s);
    if ps == [] then [] else ps[|ps| - 1]
  }

  function Join(ps: seq<Str>): Str {
    if ps == [] then [] else if |ps| == 1 then ps[0] else ps[0] + [SLASH] + Join(ps[1..])
  }

  /** Where a file is when a path is joined to its root component by component. */
  function Normal(s: Str): Str {
    Join(Parts(s))
  }

  predicate SafePart(p: Str) {
    p != [DOT, DOT] && (p == [] || (p[|p| - 1] != SPACE && p[|p| - 1] != DOT))
  }

  /** `_portable_candidate_path` accepts the path. */
  predicate Portable(lib: Library, s: Str) {
    s != [] && |s| <= 1024 && lib.normal(s) && s[0] != SLASH
    && BACKSLASH !in s && COLON !in s
    && forall i | 0 <= i < |Parts(s)| :: SafePart(Parts(s)[i])
  }

  lemma {:induction false} SplitName(n: Str)
    requires SLASH !in n
    ensures SplitPath(n) == [n]
  {
    if n != [] {
      SplitName(n[1..]);
      assert [n[0]] + n[1..] == n;
    }
  }

  lemma {:induction false} SplitAfter(a: Str, b: Str)
    requires SLASH !in a
    ensures SplitPath(a + [SLASH] + b) == [a] + SplitPath(b)
  {
    var s := a + [SLASH] + b;
    if a == [] {
      assert s[1..] == b;
    } else {
      SplitAfter(a[1..], b);
      assert s[1..] == a[1..] + [SLASH] + b;
      assert [a[0]] + a[1..] == a;
      assert SplitPath(s[1..])[0] == a[1..] && SplitPath(s[1..])[1..] == SplitPath(b);
    }
  }

  lemma ReleaseWord()
    ensures Lit("release") == [114, 101, 108, 101, 97, 115, 101]
  {
  }

  lemma FileWord()
    ensures Lit("file-manifest.json")
      == [102, 105, 108, 101, 45, 109, 97, 110, 105, 102, 101, 115, 116, 46, 106, 115, 111, 110]
  {
  }

  lemma PathWord()
    ensures FILE_MANIFEST_PATH == Lit("release") + [SLASH] + Lit("file-manifest.json")
  {
  }

  lemma ManifestWords()
    ensures Lit("release") == [114, 101, 108, 101, 97, 115, 101]
    ensures Lit("file-manifest.json")
      == [102, 105, 108, 101, 45, 109, 97, 110, 105, 102, 101, 115, 116, 46, 106, 115, 111, 110]
    ensures FILE_MANIFEST_PATH == Lit("release") + [SLASH] + Lit("file-manifest.json")
  {
    hide Lit;
    ReleaseWord();
    FileWord();
    PathWord();
  }

  lemma TwoParts(a: Str, b: Str)
    requires SLASH !in a && SLASH !in b && IsPart(a) && IsPart(b)
    ensures Parts(a + [SLASH] + b) == [a, b]
  {
    SplitAfter(a, b);
    SplitName(b);
    var ps, one := [a, b], [b];
    assert [a] + one == ps && ps[1..] == one && one[1..] == [];
    assert KeepParts(one) == one;
    assert KeepParts(ps) == ps;
  }

  lemma PortableJoin(lib: Library, a: Str, b: Str)
    requires SLASH !in a && SLASH !in b && IsPart(a) && IsPart(b) && SafePart(a) && SafePart(b)
    requires BACKSLASH !in a && BACKSLASH !in b && COLON !in a && COLON !in b && |a| + |b| < 1024
    requires lib.normal(a + [SLASH] + b)
    ensures Portable(lib, a + [SLASH] + b)
  {
    TwoParts(a, b);
    hide Parts, IsPart, SafePart;
    assert (a + [SLASH] + b)[0] == a[0] || a == [];
  }

  /** The manifest's own path is portable, since ASCII text is in normal form C. */
  lemma ManifestIsPortable(lib: Library)
    requires lib.normal(FILE_MANIFEST_PATH)
    ensures Portable(lib, FILE_MANIFEST_PATH)
  {
    ManifestWords();
    hide Lit, Portable;
    PortableJoin(lib, Lit("release"), Lit("file-manifest.json"));
  }

  // ---------------------------------------------------------------- the path check, piece by piece

  predicate SlashFree(ps: seq<Str>) {
    forall i | 0 <= i < |ps| :: SLASH !in ps[i]
  }

  lemma {:induction false} SplitJoins(s: Str)
    ensures SlashFree(SplitPath(s)) && Join(SplitPath(s)) == s
  {
    if s != [] {
      SplitJoins(s[1..]);
      var rest := SplitPath(s[1..]);
      var ps := SplitPath(s);
      assert s == [s[0]] + s[1..];
      if s[0] == SLASH {
        assert ps[1..] == rest;
      } else {
        assert ps[1..] == rest[1..];
        assert |rest| > 1 ==> Join(rest) == rest[0] + [SLASH] + Join(rest[1..]);
      }
    }
  }

  lemma {:induction false} JoinSplits(ps: seq<Str>)
    requires ps != [] && SlashFree(ps)
    ensures SplitPath(Join(ps)) == ps
  {
    if |ps| == 1 {
      SplitName(ps[0]);
    } else {
      JoinSplits(ps[1..]);
      assert Join(ps) == ps[0] + ([SLASH] + Join(ps[1..]));
      SplitAfter(ps[0], Join(ps[1..]));
    }
  }

  /** A path and its pieces between slashes determine each other. */
  lemma SplitExactly(s: Str, ps: seq<Str>)
    ensures SplitPath(s) == ps <==> ps != [] && SlashFree(ps) && Join(ps) == s
  {
    SplitJoins(s);
    if ps != [] && SlashFree(ps) { JoinSplits(ps); }
  }

  lemma {:induction false} KeptAll(ps: seq<Str>)
    ensures (forall i | 0 <= i < |KeepParts(ps)| :: IsPart(KeepParts(ps)[i]) && KeepParts(ps)[i] in ps)
    ensures (forall i | 0 <= i < |ps| :: IsPart(ps[i])) ==> KeepParts(ps) == ps
  {
    hide IsPart;
    if ps != [] {
      KeptAll(ps[1..]);
      assert ps == [ps[0]] + ps[1..];
    }
  }

  lemma {:induction false} KeptLast(ps: seq<Str>, n: Str)
    requires IsPart(n)
    ensures KeepParts(ps + [n]) == KeepParts(ps) + [n]
  {
    hide IsPart;
    if ps == [] {
      assert [n][1..] == [];
    } else {
      KeptLast(ps[1..], n);
      assert (ps + [n])[1..] == ps[1..] + [n];
    }
  }

  /** The name of a path is its last step, whatever comes before it. */
  lemma NameIsLast(above: seq<Str>, n: Str)
    requires SlashFree(above) && SLASH !in n && IsPart(n)
    ensures Name(Join(above + [n])) == n
  {
    SplitExactly(Join(above + [n]), above + [n]);
    KeptLast(above, n);
  }

  /** A path in normal form with a name is that name below the steps before it. */
  lemma NormalIsJoined(p: Str) returns (above: seq<Str>)
    requires Normal(p) == p && Name(p) != []
    ensures SlashFree(above) && p == Join(above + [Name(p)])
  {
    hide SplitPath, KeepParts, IsPart, Join;
    var ps := Parts(p);
    SplitJoins(p);
    KeptAll(SplitPath(p));
    above := ps[..|ps| - 1];
    assert ps == above + [Name(p)];
  }

  /** A piece that a portable path may have; nothing and `.` stand for no step. */
  predicate PieceOk(p: Str) {
    && BACKSLASH !in p && COLON !in p
    && (p == [] || p == [DOT] || (p != [DOT, DOT] && p[|p| - 1] !in {SPACE, DOT}))
  }

  lemma {:induction false} KeptOk(ps: seq<Str>)
    ensures (forall p | p in KeepParts(ps) :: SafePart(p)) <==> forall p | p in ps && IsPart(p) :: SafePart(p)
  {
    hide SafePart, IsPart;
    if ps != [] {
      KeptOk(ps[1..]);
      assert ps == [ps[0]] + ps[1..];
    }
  }

  lemma {:induction false} JoinHas(ps: seq<Str>, c: CodePoint)
    requires c != SLASH
    ensures c in Join(ps) <==> exists i | 0 <= i < |ps| :: c in ps[i]
  {
    if |ps| > 1 {
      JoinHas(ps[1..], c);
      assert Join(ps) == ps[0] + [SLASH] + Join(ps[1..]);
      if i :| 0 <= i < |ps| && c in ps[i] { assert i > 0 ==> ps[1..][i - 1] == ps[i]; }
      if i :| 0 <= i < |ps[1..]| && c in ps[1..][i] { assert ps[i + 1] == ps[1..][i]; }
    }
  }

  /**
   The path check, for a path given by its pieces: not empty, not too long, normalised, not absolute, and of
   pieces that are each in order.
   */
  lemma PortableExactly(lib: Library, ps: seq<Str>)
    requires ps != [] && SlashFree(ps)
    ensures Portable(lib, Join(ps))
      <==> && 1 <= |Join(ps)| <= 1024 && lib.normal(Join(ps)) && ps[0] != []
           && forall i | 0 <= i < |ps| :: PieceOk(ps[i])
  {
    var s := Join(ps);
    JoinSplits(ps);
    KeptOk(ps);
    JoinHas(ps, BACKSLASH);
    JoinHas(ps, COLON);
    if s != [] { FirstSlash(ps); }
    hide Join, KeepParts, SplitPath;
    assert (forall i | 0 <= i < |Parts(s)| :: SafePart(Parts(s)[i])) <==> forall p | p in Parts(s) :: SafePart(p);
    assert (forall p | p in ps && IsPart(p) :: SafePart(p))
      <==> forall i | 0 <= i < |ps| && IsPart(ps[i]) :: SafePart(ps[i]);
  }

  lemma FirstSlash(ps: seq<Str>)
    requires ps != [] && SlashFree(ps) && Join(ps) != []
    ensures Join(ps)[0] == SLASH <==> ps[0] == []
  {
    if ps[0] != [] { assert Join(ps)[0] == ps[0][0] && ps[0][0] in ps[0]; }
  }
}
