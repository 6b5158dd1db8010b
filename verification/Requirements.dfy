/** Identities of wheel requirements (backend/tools/runtime_wheelhouse_release.py). */
module Requirements {
  import opened Text
  import Json
  import JsonCanonical

  const COMMA: CodePoint := 44
  const HYPHEN: CodePoint := 45

  predicate IsAlnum(c: CodePoint) {
    48 <= c <= 57 || 65 <= c <= 90 || 97 <= c <= 122
  }

  /** `-`, `_` and `.`. */
  predicate IsSeparator(c: CodePoint) {
    c == 45 || c == 95 || c == 46
  }

  predicate IsNameChar(c: CodePoint) {
    IsAlnum(c) || IsSeparator(c)
  }

  function Lower(c: CodePoint): CodePoint {
    if 65 <= c <= 90 then c + 32 else c
  }

  // ---------------------------------------------------------------- names

  function SkipSeparators(s: Str): (r: Str)
    ensures |r| <= |s|
  {
    if s != [] && IsSeparator(s[0]) then SkipSeparators(s[1..]) else s
  }

  /** PEP 503: runs of separators become one hyphen, letters lower case. */
  function Canonical(s: Str): Str
    decreases |s|
  {
    if s == [] then []
    else if IsSeparator(s[0]) then [HYPHEN] + Canonical(SkipSeparators(s[1..]))
    else [Lower(s[0])] + Canonical(s[1..])
  }

  predicate IsDistribution(s: Str) {
    s != [] && IsAlnum(s[0]) && forall i | 0 <= i < |s| :: IsNameChar(s[i])
  }

  /** `_canonical_distribution`. */
  function CanonicalDistribution(s: Str): Str {
    if IsDistribution(s) then Canonical(s) else []
  }

  // ---------------------------------------------------------------- specifiers

  function NameLength(s: Str): (n: nat)
    ensures n <= |s| && (forall i | 0 <= i < n :: IsNameChar(s[i])) && (n < |s| ==> !IsNameChar(s[n]))
  {
    if s != [] && IsNameChar(s[0]) then 1 + NameLength(s[1..]) else 0
  }

  /** The operators, longest first where one begins another. */
  function OperatorLength(s: Str): nat {
    if Begins(s, "===") then 3
    else if Begins(s, "==") || Begins(s, "~=") || Begins(s, "!=") || Begins(s, "<=") || Begins(s, ">=") then 2
    else if Begins(s, "<") || Begins(s, ">") then 1
    else 0
  }

  predicate Begins(s: Str, word: string) {
    |word| <= |s| && forall i | 0 <= i < |word| :: s[i] == word[i] as int
  }

  /** `.`, `*`, `+`, `!`, `_`, `-` and alphanumerics. */
  predicate IsVersionChar(c: CodePoint) {
    IsAlnum(c) || c == 46 || c == 42 || c == 43 || c == 33 || c == 95 || c == 45
  }

  predicate IsSpecifier(s: Str) {
    var n := OperatorLength(s);
    0 < n < |s| && IsAlnum(s[n]) && forall i | n < i < |s| :: IsVersionChar(s[i])
  }

  /** `str.split(",")`. */
  function SplitCommas(s: Str): (r: seq<Str>)
    ensures r != []
  {
    if s == [] then [[]]
    else
      var rest := SplitCommas(s[1..]);
      if s[0] == COMMA then [[]] + rest else [[s[0]] + rest[0]] + rest[1..]
  }

  function Joined(parts: seq<Str>): Str {
    if parts == [] then [] else if |parts| == 1 then parts[0] else parts[0] + [COMMA] + Joined(parts[1..])
  }

  // ---------------------------------------------------------------- sorting

  function Insert(x: Str, s: seq<Str>): seq<Str> {
    if s == [] || !Json.StrLess(s[0], x) then [x] + s else [s[0]] + Insert(x, s[1..])
  }

  function Sort(s: seq<Str>): seq<Str> {
    if s == [] then [] else Insert(s[0], Sort(s[1..]))
  }

  predicate AtMost(a: Str, b: Str) {
    !Json.StrLess(b, a)
  }

  ghost predicate Ascending(s: seq<Str>) {
    forall i, j | 0 <= i < j < |s| :: AtMost(s[i], s[j])
  }

  // ---------------------------------------------------------------- identities

  /** `isSpace` is the white space at which `str.split` cuts. */
  function Compact(isSpace: CodePoint -> bool, s: Str): Str {
    if s == [] then [] else (if isSpace(s[0]) then [] else [s[0]]) + Compact(isSpace, s[1..])
  }

  datatype Requirement = Requirement(name: Str, specifiers: seq<Str>)

  predicate AllSpecifiers(specifiers: seq<Str>) {
    forall i | 0 <= i < |specifiers| :: IsSpecifier(specifiers[i])
  }

  function Parse(compact: Str): Option<Requirement> {
    var n := NameLength(compact);
    if n == 0 || !IsAlnum(compact[0]) then None
    else
      var specifiers := if n == |compact| then [] else SplitCommas(compact[n..]);
      if AllSpecifiers(specifiers) then Some(Requirement(compact[..n], specifiers)) else None
  }

  function IdentityOf(r: Requirement): (Str, Str) {
    var name := CanonicalDistribution(r.name);
    (name, name + Joined(Sort(r.specifiers)))
  }

  /** `_requirement_identity`. */
  function RequirementIdentity(isSpace: CodePoint -> bool, requirement: Str): Option<(Str, Str)> {
    match Parse(Compact(isSpace, requirement))
    case None => None
    case Some(r) => Some(IdentityOf(r))
  }

  // ---------------------------------------------------------------- sorting depends on the multiset only

  lemma AtMostTransitive(a: Str, b: Str, c: Str)
    requires AtMost(a, b) && AtMost(b, c)
    ensures AtMost(a, c)
  {
    JsonCanonical.StrLessTotal(a, b);
    JsonCanonical.StrLessTotal(b, c);
    if Json.StrLess(a, b) && Json.StrLess(b, c) {
      JsonCanonical.StrLessTransitive(a, b, c);
      NotBoth(a, c);
    }
  }

  lemma {:induction false} NotBoth(a: Str, b: Str)
    requires Json.StrLess(a, b)
    ensures !Json.StrLess(b, a)
  {
    if a != [] && a[0] == b[0] { NotBoth(a[1..], b[1..]); }
  }

  lemma LessIsAtMost(a: Str, b: Str)
    ensures Json.StrLess(a, b) ==> AtMost(a, b)
  {
    if Json.StrLess(a, b) { NotBoth(a, b); }
  }

  lemma {:induction false} InsertFacts(x: Str, s: seq<Str>)
    requires Ascending(s)
    ensures Ascending(Insert(x, s)) && multiset(Insert(x, s)) == multiset(s) + multiset{x}
  {
    hide Json.StrLess, AtMost;
    if s != [] {
      assert s == [s[0]] + s[1..];
      if Json.StrLess(s[0], x) {
        InsertFacts(x, s[1..]);
        LessIsAtMost(s[0], x);
        InsertedAfter(s[0], x, s[1..]);
      } else {
        NotLess(s[0], x);
        forall i | 0 <= i < |s| ensures AtMost(x, s[i]) { if i > 0 { AtMostTransitive(x, s[0], s[i]); } }
      }
    }
  }

  lemma InsertedAfter(first: Str, x: Str, s: seq<Str>)
    requires AtMost(first, x) && (forall i | 0 <= i < |s| :: AtMost(first, s[i]))
    requires multiset(Insert(x, s)) == multiset(s) + multiset{x}
    ensures forall i | 0 <= i < |Insert(x, s)| :: AtMost(first, Insert(x, s)[i])
  {
    hide AtMost, Insert;
    var tail := Insert(x, s);
    forall i | 0 <= i < |tail| ensures AtMost(first, tail[i]) {
      assert tail[i] in multiset(tail);
      if tail[i] != x { assert tail[i] in s; }
    }
  }

  lemma NotLess(a: Str, b: Str)
    ensures !Json.StrLess(a, b) <==> AtMost(b, a)
  {
  }

  lemma {:induction false} SortFacts(s: seq<Str>)
    ensures Ascending(Sort(s)) && multiset(Sort(s)) == multiset(s)
  {
    if s != [] {
      SortFacts(s[1..]);
      InsertFacts(s[0], Sort(s[1..]));
      assert s == [s[0]] + s[1..];
    }
  }

  lemma SameHead(a: seq<Str>, b: seq<Str>)
    requires Ascending(a) && Ascending(b) && multiset(a) == multiset(b) && a != [] && b != []
    ensures a[0] == b[0]
  {
    assert a[0] in multiset(a) && b[0] in multiset(b);
    assert a[0] in b && b[0] in a;
    hide Json.StrLess;
    FirstIsLeast(b, a[0]);
    FirstIsLeast(a, b[0]);
    JsonCanonical.StrLessTotal(a[0], b[0]);
  }

  lemma SameTail(a: seq<Str>, b: seq<Str>)
    requires multiset(a) == multiset(b) && a != [] && b != [] && a[0] == b[0]
    ensures multiset(a[1..]) == multiset(b[1..])
  {
    assert a == [a[0]] + a[1..] && b == [b[0]] + b[1..];
    assert multiset(a[1..]) == multiset(a) - multiset{a[0]};
    assert multiset(b[1..]) == multiset(b) - multiset{b[0]};
  }

  lemma {:induction false} AscendingDetermined(a: seq<Str>, b: seq<Str>)
    requires Ascending(a) && Ascending(b) && multiset(a) == multiset(b)
    ensures a == b
  {
    assert |a| == |multiset(a)| && |b| == |multiset(b)|;
    if a != [] {
      SameHead(a, b);
      SameTail(a, b);
      hide AtMost;
      AscendingDetermined(a[1..], b[1..]);
      assert a == [a[0]] + a[1..] && b == [b[0]] + b[1..];
    }
  }

  lemma FirstIsLeast(s: seq<Str>, x: Str)
    requires Ascending(s) && x in s
    ensures AtMost(s[0], x)
  {
    var i :| 0 <= i < |s| && s[i] == x;
    if i == 0 { Irreflexive(x); }
  }

  lemma {:induction false} Irreflexive(a: Str)
    ensures AtMost(a, a)
  {
    if a != [] { Irreflexive(a[1..]); }
  }

  // ---------------------------------------------------------------- identities are faithful

  predicate CommaFree(s: Str) {
    forall i | 0 <= i < |s| :: s[i] != COMMA
  }

  function CommaAt(s: Str): (n: nat)
    ensures n <= |s|
  {
    if s == [] || s[0] == COMMA then 0 else 1 + CommaAt(s[1..])
  }

  lemma {:induction false} CommaAfter(a: Str, rest: Str)
    requires CommaFree(a) && (rest == [] || rest[0] == COMMA)
    ensures CommaAt(a + rest) == |a|
  {
    if a == [] {
      assert a + rest == rest;
    } else {
      assert (a + rest)[1..] == a[1..] + rest;
      CommaAfter(a[1..], rest);
    }
  }

  lemma JoinedParts(a: seq<Str>)
    requires a != [] && CommaFree(a[0])
    ensures CommaAt(Joined(a)) == |a[0]| && Joined(a)[..|a[0]|] == a[0]
    ensures |a| == 1 <==> |Joined(a)| == |a[0]|
    ensures |a| > 1 ==> Joined(a)[|a[0]| + 1..] == Joined(a[1..])
  {
    if |a| == 1 {
      CommaAfter(a[0], []);
      assert a[0] + [] == a[0];
    } else {
      CommaAfter(a[0], [COMMA] + Joined(a[1..]));
      assert a[0] + ([COMMA] + Joined(a[1..])) == Joined(a);
    }
  }

  predicate Separable(s: seq<Str>) {
    forall i | 0 <= i < |s| :: s[i] != [] && CommaFree(s[i])
  }

  lemma {:induction false} JoinedApart(a: seq<Str>, b: seq<Str>)
    requires Separable(a) && Separable(b) && Joined(a) == Joined(b)
    ensures a == b
  {
    hide CommaFree;
    if a != [] { JoinedParts(a); }
    if b != [] { JoinedParts(b); }
    if a != [] && b != [] {
      assert a[0] == b[0];
      assert a == [a[0]] + a[1..] && b == [b[0]] + b[1..];
      if |a| > 1 { JoinedApart(a[1..], b[1..]); }
    }
  }

  predicate IsCanonicalChar(c: CodePoint) {
    48 <= c <= 57 || 97 <= c <= 122 || c == HYPHEN
  }

  predicate CanonicalText(s: Str) {
    forall i | 0 <= i < |s| :: IsCanonicalChar(s[i])
  }

  lemma {:induction false} CanonicalChars(s: Str)
    requires forall i | 0 <= i < |s| :: IsNameChar(s[i])
    ensures CanonicalText(Canonical(s))
    decreases |s|
  {
    if s != [] {
      if IsSeparator(s[0]) {
        SkippedChars(s[1..]);
        CanonicalChars(SkipSeparators(s[1..]));
      } else {
        CanonicalChars(s[1..]);
      }
    }
  }

  lemma {:induction false} SkippedChars(s: Str)
    requires forall i | 0 <= i < |s| :: IsNameChar(s[i])
    ensures forall i | 0 <= i < |SkipSeparators(s)| :: IsNameChar(SkipSeparators(s)[i])
  {
    if s != [] && IsSeparator(s[0]) { SkippedChars(s[1..]); }
  }

  /** A requirement as `Parse` returns it. */
  predicate WellFormed(r: Requirement) {
    IsDistribution(r.name) && AllSpecifiers(r.specifiers)
  }

  lemma ParsedWellFormed(compact: Str)
    requires Parse(compact).Some?
    ensures WellFormed(Parse(compact).value)
  {
    var n := NameLength(compact);
    var specifiers := if n == |compact| then [] else SplitCommas(compact[n..]);
    assert Parse(compact) == Some(Requirement(compact[..n], specifiers));
  }

  lemma SpecifierFacts(s: Str)
    requires IsSpecifier(s)
    ensures s != [] && CommaFree(s) && !IsCanonicalChar(s[0])
  {
  }

  lemma SortedSpecifiers(s: seq<Str>)
    requires AllSpecifiers(s)
    ensures Separable(Sort(s)) && forall i | 0 <= i < |Sort(s)| :: !IsCanonicalChar(Sort(s)[i][0])
  {
    SortFacts(s);
    forall i | 0 <= i < |Sort(s)| ensures Sort(s)[i] != [] && CommaFree(Sort(s)[i]) && !IsCanonicalChar(Sort(s)[i][0]) {
      assert Sort(s)[i] in multiset(Sort(s));
      var j :| 0 <= j < |s| && s[j] == Sort(s)[i];
      SpecifierFacts(s[j]);
    }
  }

  /** Where the name ends is determined: no specifier begins with a character of a canonical name. */
  lemma {:induction false} NameDetermined(n: Str, x: Str, m: Str, y: Str)
    requires n + x == m + y && CanonicalText(n) && CanonicalText(m)
    requires (x != [] ==> !IsCanonicalChar(x[0])) && (y != [] ==> !IsCanonicalChar(y[0]))
    ensures n == m && x == y
  {
    hide IsCanonicalChar;
    var s := n + x;
    assert n == [] ==> n + x == x;
    assert m == [] ==> m + y == y;
    if n != [] && m != [] {
      assert s[0] == n[0] == m[0] && s[1..] == n[1..] + x == m[1..] + y;
      NameDetermined(n[1..], x, m[1..], y);
      assert n == [n[0]] + n[1..] && m == [m[0]] + m[1..];
    }
  }

  lemma JoinedHead(parts: seq<Str>)
    requires forall i | 0 <= i < |parts| :: parts[i] != []
    ensures parts != [] ==> Joined(parts) != [] && Joined(parts)[0] == parts[0][0]
  {
  }

  /**
   Two requirements have the same identity text if and only if their names agree after PEP 503
   normalisation and they have the same specifiers, each as often, in whatever order.
   */
  lemma IdentityExactly(a: Requirement, b: Requirement)
    requires WellFormed(a) && WellFormed(b)
    ensures IdentityOf(a).1 == IdentityOf(b).1
      <==> Canonical(a.name) == Canonical(b.name) && multiset(a.specifiers) == multiset(b.specifiers)
    ensures IdentityOf(a) == IdentityOf(b) <==> IdentityOf(a).1 == IdentityOf(b).1
  {
    CanonicalChars(a.name);
    CanonicalChars(b.name);
    SortedSpecifiers(a.specifiers);
    SortedSpecifiers(b.specifiers);
    SortFacts(a.specifiers);
    SortFacts(b.specifiers);
    JoinedHead(Sort(a.specifiers));
    JoinedHead(Sort(b.specifiers));
    hide Canonical, IsSpecifier, Sort, Joined, IsCanonicalChar, CommaFree, Ascending;
    if IdentityOf(a).1 == IdentityOf(b).1 {
      NameDetermined(Canonical(a.name), Joined(Sort(a.specifiers)), Canonical(b.name), Joined(Sort(b.specifiers))) by {
        JoinedOfNothing(Sort(a.specifiers));
        JoinedOfNothing(Sort(b.specifiers));
      }
      JoinedApart(Sort(a.specifiers), Sort(b.specifiers));
    }
    if multiset(a.specifiers) == multiset(b.specifiers) {
      AscendingDetermined(Sort(a.specifiers), Sort(b.specifiers));
    }
  }

  lemma JoinedOfNothing(parts: seq<Str>)
    ensures parts == [] ==> Joined(parts) == []
  {
  }

  // ---------------------------------------------------------------- the dictionaries

  /** The identity of an accepted requirement. */
  ghost predicate Names(isSpace: CodePoint -> bool, s: Str, name: Str, identity: Str) {
    RequirementIdentity(isSpace, s) == Some((name, identity))
  }

  ghost predicate Accepted(isSpace: CodePoint -> bool, requirements: seq<Str>) {
    forall i | 0 <= i < |requirements| :: RequirementIdentity(isSpace, requirements[i]).Some?
  }

  /** No two requirements have the same name. */
  ghost predicate NamesDiffer(isSpace: CodePoint -> bool, requirements: seq<Str>) {
    forall i, j, name, x, y | 0 <= i < j < |requirements| ::
      !(Names(isSpace, requirements[i], name, x) && Names(isSpace, requirements[j], name, y))
  }

  ghost predicate Occurs(isSpace: CodePoint -> bool, requirements: seq<Str>, name: Str, identity: Str) {
    exists i :: 0 <= i < |requirements| && Names(isSpace, requirements[i], name, identity)
  }

  ghost predicate Entry(d: map<Str, Str>, name: Str, identity: Str) {
    name in d && d[name] == identity
  }

  /** The dictionary holds the identities of the requirements and nothing else. */
  ghost predicate Holds(isSpace: CodePoint -> bool, requirements: seq<Str>, d: map<Str, Str>) {
    forall name, identity :: Entry(d, name, identity) <==> Occurs(isSpace, requirements, name, identity)
  }

  lemma OccursMore(isSpace: CodePoint -> bool, requirements: seq<Str>, s: Str, name: Str, identity: Str)
    ensures Occurs(isSpace, requirements + [s], name, identity)
      <==> Occurs(isSpace, requirements, name, identity) || Names(isSpace, s, name, identity)
  {
    hide RequirementIdentity;
    var more := requirements + [s];
    if Occurs(isSpace, requirements, name, identity) {
      var i :| 0 <= i < |requirements| && Names(isSpace, requirements[i], name, identity);
      assert Names(isSpace, more[i], name, identity);
    }
    if Names(isSpace, s, name, identity) { assert Names(isSpace, more[|requirements|], name, identity); }
  }

  lemma HoldsMore(isSpace: CodePoint -> bool, requirements: seq<Str>, d: map<Str, Str>, s: Str, name: Str,
          identity: Str)
    requires Holds(isSpace, requirements, d) && Names(isSpace, s, name, identity) && name !in d
    ensures Holds(isSpace, requirements + [s], d[name := identity])
  {
    var more, e := requirements + [s], d[name := identity];
    forall n, x ensures Entry(e, n, x) <==> Occurs(isSpace, more, n, x) {
      OccursMore(isSpace, requirements, s, n, x);
      hide Occurs;
      assert Entry(d, n, x) <==> Occurs(isSpace, requirements, n, x);
      if Names(isSpace, s, n, x) { SameName(isSpace, s, n, x, name, identity); }
      hide Names;
    }
  }

  lemma HoldsAt(isSpace: CodePoint -> bool, requirements: seq<Str>, d: map<Str, Str>, name: Str, identity: Str)
    requires Holds(isSpace, requirements, d)
    ensures Entry(d, name, identity) <==> Occurs(isSpace, requirements, name, identity)
  {
    hide Occurs;
  }

  /** `_dependency_identities` and `_project_dependency_identities` of a list of requirement texts. */
  method DependencyIdentities(isSpace: CodePoint -> bool, requirements: seq<Str>) returns (r: Option<map<Str, Str>>)
    ensures r.Some? <==> Accepted(isSpace, requirements) && NamesDiffer(isSpace, requirements)
    ensures r.Some? ==> Holds(isSpace, requirements, r.value)
  {
    var d: map<Str, Str> := map[];
    var i := 0;
    assert Holds(isSpace, requirements[..0], d);
    assert NamesDiffer(isSpace, requirements[..0]);
    while i < |requirements|
      invariant 0 <= i <= |requirements| && Accepted(isSpace, requirements[..i])
      invariant NamesDiffer(isSpace, requirements[..i])
      invariant Holds(isSpace, requirements[..i], d)
    {
      hide RequirementIdentity, Holds, NamesDiffer;
      var identity := RequirementIdentity(isSpace, requirements[i]);
      if identity.None? { return None; }
      var (name, text) := identity.value;
      NextName(isSpace, requirements, i, d, name, text);
      if name in d { return None; }
      HoldsMore(isSpace, requirements[..i], d, requirements[i], name, text);
      assert requirements[..i + 1] == requirements[..i] + [requirements[i]];
      d := d[name := text];
      i := i + 1;
    }
    assert requirements[..i] == requirements;
    hide Holds, NamesDiffer;
    r := Some(d);
  }

  lemma NextName(isSpace: CodePoint -> bool, requirements: seq<Str>, i: nat, d: map<Str, Str>, name: Str, identity: Str)
    requires i < |requirements| && Holds(isSpace, requirements[..i], d) && NamesDiffer(isSpace, requirements[..i])
    requires Names(isSpace, requirements[i], name, identity)
    ensures name !in d ==> NamesDiffer(isSpace, requirements[..i + 1])
    ensures name in d ==> !NamesDiffer(isSpace, requirements)
  {
    hide RequirementIdentity, Holds;
    var front, more := requirements[..i], requirements[..i + 1];
    if name in d {
      HoldsAt(isSpace, front, d, name, d[name]);
      var k :| 0 <= k < |front| && Names(isSpace, front[k], name, d[name]);
      assert Names(isSpace, requirements[k], name, d[name]) && Names(isSpace, requirements[i], name, identity);
    } else {
      forall k, j, n, x, y | 0 <= k < j < |more|
        ensures !(Names(isSpace, more[k], n, x) && Names(isSpace, more[j], n, y))
      {
        assert more[k] == front[k];
        if j < i {
          assert more[j] == front[j];
        } else if Names(isSpace, more[k], n, x) && Names(isSpace, more[j], n, y) {
          SameName(isSpace, requirements[i], n, y, name, identity);
          assert Occurs(isSpace, front, n, x);
          HoldsAt(isSpace, front, d, n, x);
        }
      }
    }
  }

  lemma SameName(isSpace: CodePoint -> bool, s: Str, a: Str, x: Str, b: Str, y: Str)
    requires Names(isSpace, s, a, x) && Names(isSpace, s, b, y)
    ensures a == b && x == y
  {
  }

  /** What a requirement means: its normalised name and its specifiers without their order. */
  ghost predicate SameMeaning(isSpace: CodePoint -> bool, s: Str, t: Str) {
    var a, b := Parse(Compact(isSpace, s)), Parse(Compact(isSpace, t));
    a.Some? && b.Some? && Canonical(a.value.name) == Canonical(b.value.name)
    && multiset(a.value.specifiers) == multiset(b.value.specifiers)
  }

  lemma SameMeaningExactly(isSpace: CodePoint -> bool, s: Str, t: Str)
    requires RequirementIdentity(isSpace, s).Some? && RequirementIdentity(isSpace, t).Some?
    ensures SameMeaning(isSpace, s, t) <==> RequirementIdentity(isSpace, s) == RequirementIdentity(isSpace, t)
  {
    var a, b := Parse(Compact(isSpace, s)), Parse(Compact(isSpace, t));
    ParsedWellFormed(Compact(isSpace, s));
    ParsedWellFormed(Compact(isSpace, t));
    IdentityExactly(a.value, b.value);
    hide IdentityOf, WellFormed, Parse, Compact, Canonical;
  }

  /** Every requirement of the first list has one of the same meaning in the second. */
  ghost predicate Covered(isSpace: CodePoint -> bool, a: seq<Str>, b: seq<Str>) {
    forall i | 0 <= i < |a| :: HasMatch(isSpace, a[i], b)
  }

  ghost predicate HasMatch(isSpace: CodePoint -> bool, s: Str, b: seq<Str>) {
    exists j :: 0 <= j < |b| && SameMeaning(isSpace, s, b[j])
  }

  ghost predicate Within(d: map<Str, Str>, e: map<Str, Str>) {
    forall name | name in d :: Entry(e, name, d[name])
  }

  lemma MatchOf(isSpace: CodePoint -> bool, a: seq<Str>, b: seq<Str>, d: map<Str, Str>, e: map<Str, Str>, i: nat)
    requires Accepted(isSpace, a) && Accepted(isSpace, b) && Holds(isSpace, a, d) && Holds(isSpace, b, e)
    requires Within(d, e) && i < |a|
    ensures HasMatch(isSpace, a[i], b)
  {
    hide RequirementIdentity, Holds, SameMeaning;
    var (name, identity) := RequirementIdentity(isSpace, a[i]).value;
    assert Names(isSpace, a[i], name, identity);
    HoldsAt(isSpace, a, d, name, identity);
    assert Entry(e, name, d[name]);
    HoldsAt(isSpace, b, e, name, identity);
    var j :| 0 <= j < |b| && Names(isSpace, b[j], name, identity);
    SameMeaningExactly(isSpace, a[i], b[j]);
  }

  lemma CoveredIsWithin(isSpace: CodePoint -> bool, a: seq<Str>, b: seq<Str>, d: map<Str, Str>, e: map<Str, Str>)
    requires Accepted(isSpace, a) && Accepted(isSpace, b) && Holds(isSpace, a, d) && Holds(isSpace, b, e)
    ensures Covered(isSpace, a, b) <==> Within(d, e)
  {
    hide RequirementIdentity, Holds, SameMeaning;
    if Covered(isSpace, a, b) {
      forall name | name in d ensures Entry(e, name, d[name]) {
        HoldsAt(isSpace, a, d, name, d[name]);
        var i :| 0 <= i < |a| && Names(isSpace, a[i], name, d[name]);
        assert HasMatch(isSpace, a[i], b);
        var j :| 0 <= j < |b| && SameMeaning(isSpace, a[i], b[j]);
        SameMeaningExactly(isSpace, a[i], b[j]);
        assert Names(isSpace, b[j], name, d[name]);
        HoldsAt(isSpace, b, e, name, d[name]);
      }
    }
    if Within(d, e) {
      forall i | 0 <= i < |a| ensures HasMatch(isSpace, a[i], b) { MatchOf(isSpace, a, b, d, e, i); }
    }
  }

  lemma WithinBothWays(d: map<Str, Str>, e: map<Str, Str>)
    ensures d == e <==> Within(d, e) && Within(e, d)
  {
    if Within(d, e) && Within(e, d) {
      assert forall name :: name in d <==> name in e;
    }
  }

  /**
   Two accepted lists of requirements give equal dictionaries if and only if each requirement of one
   has its match in the other: white space, spelling of names and order of lists and specifiers are
   all that may differ.
   */
  lemma DictionariesExactly(isSpace: CodePoint -> bool, a: seq<Str>, b: seq<Str>, d: map<Str, Str>, e: map<Str, Str>)
    requires Accepted(isSpace, a) && Accepted(isSpace, b) && Holds(isSpace, a, d) && Holds(isSpace, b, e)
    ensures d == e <==> Covered(isSpace, a, b) && Covered(isSpace, b, a)
  {
    hide RequirementIdentity, Holds, SameMeaning, Covered, Accepted, Within;
    CoveredIsWithin(isSpace, a, b, d, e);
    CoveredIsWithin(isSpace, b, a, e, d);
    WithinBothWays(d, e);
  }
}
