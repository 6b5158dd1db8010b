/** Which requirement texts parse, and what normalisation does to a name. */
module RequirementSyntax {
  import opened Text
  import opened Requirements

  // ---------------------------------------------------------------- specifiers

  /** The comparison operators of PEP 440. */
  const OPERATORS: set<Str> :=
    {Lit("==="), Lit("=="), Lit("~="), Lit("!="), Lit("<="), Lit(">="), Lit("<"), Lit(">")}


  /** `[A-Za-z0-9][A-Za-z0-9.*+!_-]*` */
  predicate IsVersion(v: Str) {
    v != [] && IsAlnum(v[0]) && forall i | 0 <= i < |v| :: IsAlnum(v[i]) || v[i] in {46, 42, 43, 33, 95, 45}
  }

  /** An operator and a version. */
  ghost predicate Specifies(s: Str) {
    exists op, v :: op in OPERATORS && IsVersion(v) && s == op + v
  }

  lemma OperatorChars()
    ensures OPERATORS
      == {[61, 61, 61], [61, 61], [126, 61], [33, 61], [60, 61], [62, 61], [60], [62]}
  {
    assert Lit("===") == [61, 61, 61] && Lit("==") == [61, 61] && Lit("~=") == [126, 61] && Lit("!=") == [33, 61];
    assert Lit("<=") == [60, 61] && Lit(">=") == [62, 61] && Lit("<") == [60] && Lit(">") == [62];
  }

  lemma OperatorTaken(op: Str, v: Str)
    requires op in OPERATORS && IsVersion(v)
    ensures OperatorLength(op + v) == |op|
  {
    OperatorChars();
    var s := op + v;
    assert v == s[|op|..] && s[|op|] == v[0];
  }

  lemma OperatorFound(s: Str)
    ensures var n := OperatorLength(s); n > 0 ==> n <= |s| && s[..n] in OPERATORS
  {
    OperatorChars();
    var n := OperatorLength(s);
    if n == 3 { assert s[..3] == [61, 61, 61]; }
    if n == 2 { assert s[..2] == [s[0], s[1]]; }
    if n == 1 { assert s[..1] == [s[0]]; }
  }

  /** The check of a specifier accepts the eight operators, each before any version, and nothing else. */
  lemma SpecifierExactly(s: Str)
    ensures IsSpecifier(s) <==> Specifies(s)
  {
    var n := OperatorLength(s);
    if IsSpecifier(s) {
      OperatorFound(s);
      assert IsVersion(s[n..]) && s == s[..n] + s[n..];
    }
    hide OPERATORS;
    if op, v :| op in OPERATORS && IsVersion(v) && s == op + v {
      OperatorTaken(op, v);
      OperatorLong(op);
      forall i | n < i < |s| ensures IsVersionChar(s[i]) { assert s[i] == v[i - n]; }
      assert s[n] == v[0];
    }
  }

  lemma OperatorLong(op: Str)
    requires op in OPERATORS
    ensures |op| > 0
  {
    OperatorChars();
  }

  // ---------------------------------------------------------------- requirements

  lemma {:induction false} NameEnds(name: Str, rest: Str)
    requires (forall i | 0 <= i < |name| :: IsNameChar(name[i])) && (rest != [] ==> !IsNameChar(rest[0]))
    ensures NameLength(name + rest) == |name|
  {
    if name == [] {
      assert name + rest == rest;
    } else {
      assert (name + rest)[1..] == name[1..] + rest;
      NameEnds(name[1..], rest);
    }
  }

  lemma {:induction false} SplitPart(a: Str)
    requires CommaFree(a)
    ensures SplitCommas(a) == [a]
  {
    if a != [] {
      SplitPart(a[1..]);
      assert a == [a[0]] + a[1..];
    }
  }

  lemma {:induction false} SplitOne(a: Str, rest: Str)
    requires CommaFree(a)
    ensures SplitCommas(a + ([COMMA] + rest)) == [a] + SplitCommas(rest)
  {
    var s := a + ([COMMA] + rest);
    if a == [] {
      assert s == [COMMA] + rest && s[1..] == rest;
    } else {
      assert s[1..] == a[1..] + ([COMMA] + rest) && s[0] == a[0] && a[0] != COMMA;
      SplitOne(a[1..], rest);
      assert a == [a[0]] + a[1..];
    }
  }

  lemma {:induction false} SplitJoined(parts: seq<Str>)
    requires parts != [] && forall i | 0 <= i < |parts| :: CommaFree(parts[i])
    ensures SplitCommas(Joined(parts)) == parts
  {
    if |parts| == 1 {
      SplitPart(parts[0]);
    } else {
      assert Joined(parts) == parts[0] + ([COMMA] + Joined(parts[1..]));
      SplitOne(parts[0], Joined(parts[1..]));
      SplitJoined(parts[1..]);
    }
  }

  lemma {:induction false} JoinedSplit(s: Str)
    ensures Joined(SplitCommas(s)) == s
  {
    if s != [] {
      JoinedSplit(s[1..]);
      var rest := SplitCommas(s[1..]);
      assert s == [s[0]] + s[1..];
      if s[0] == COMMA {
        assert ([[]] + rest)[1..] == rest;
      } else {
        var first := [s[0]] + rest[0];
        assert ([first] + rest[1..])[1..] == rest[1..];
        if |rest| > 1 { assert rest[0] + [COMMA] + Joined(rest[1..]) == Joined(rest); }
      }
    }
  }

  lemma SpecifierHead(s: Str)
    requires IsSpecifier(s)
    ensures s != [] && CommaFree(s) && !IsNameChar(s[0])
  {
  }

  /** A name and, separated by commas, specifiers. */
  ghost predicate Spelled(compact: Str, r: Requirement) {
    && r.name != [] && IsAlnum(r.name[0])
    && (forall i | 0 <= i < |r.name| :: IsAlnum(r.name[i]) || r.name[i] in {45, 95, 46})
    && (forall i | 0 <= i < |r.specifiers| :: Specifies(r.specifiers[i]))
    && compact == r.name + Joined(r.specifiers)
  }

  lemma SpelledSpecifiers(r: Requirement)
    ensures AllSpecifiers(r.specifiers) <==> forall i | 0 <= i < |r.specifiers| :: Specifies(r.specifiers[i])
  {
    hide IsSpecifier, Specifies;
    forall i | 0 <= i < |r.specifiers| ensures IsSpecifier(r.specifiers[i]) <==> Specifies(r.specifiers[i]) {
      SpecifierExactly(r.specifiers[i]);
    }
  }

  lemma ParsedParts(compact: Str, r: Requirement)
    requires Parse(compact) == Some(r)
    ensures var n := NameLength(compact);
      && n > 0 && IsAlnum(compact[0]) && r.name == compact[..n] && AllSpecifiers(r.specifiers)
      && r.specifiers == if n == |compact| then [] else SplitCommas(compact[n..])
  {
    hide AllSpecifiers, SplitCommas, NameLength, IsAlnum;
  }

  lemma ParsedIsSpelled(compact: Str, r: Requirement)
    requires Parse(compact) == Some(r)
    ensures Spelled(compact, r)
  {
    ParsedParts(compact, r);
    SpelledSpecifiers(r);
    hide Parse, AllSpecifiers, Specifies, SplitCommas;
    var n := NameLength(compact);
    if n < |compact| { JoinedSplit(compact[n..]); }
    assert compact == compact[..n] + compact[n..];
  }

  lemma SpelledIsParsed(compact: Str, r: Requirement)
    requires Spelled(compact, r)
    ensures Parse(compact) == Some(r)
  {
    SpelledSpecifiers(r);
    hide Specifies;
    var rest := Joined(r.specifiers);
    forall i | 0 <= i < |r.specifiers|
      ensures r.specifiers[i] != [] && CommaFree(r.specifiers[i]) && !IsNameChar(r.specifiers[i][0])
    {
      SpecifierHead(r.specifiers[i]);
    }
    hide CommaFree, IsSpecifier;
    JoinedHead(r.specifiers);
    NameEnds(r.name, rest);
    assert compact[..|r.name|] == r.name && compact[|r.name|..] == rest;
    if r.specifiers != [] { SplitJoined(r.specifiers); }
  }

  /** A requirement is parsed from its one spelling, and from no other text: name, then specifiers. */
  lemma ParsesExactly(compact: Str, r: Requirement)
    ensures Parse(compact) == Some(r) <==> Spelled(compact, r)
  {
    hide Parse, Spelled;
    if Parse(compact) == Some(r) { ParsedIsSpelled(compact, r); }
    if Spelled(compact, r) { SpelledIsParsed(compact, r); }
  }

  // ---------------------------------------------------------------- PEP 503

  /** Letters and digits. */
  predicate IsWord(w: Str) {
    w != [] && forall i | 0 <= i < |w| :: 65 <= w[i] <= 90 || 97 <= w[i] <= 122 || 48 <= w[i] <= 57
  }

  /** Any run of `-`, `_` and `.`. */
  predicate IsRun(s: Str) {
    s != [] && forall i | 0 <= i < |s| :: s[i] in {45, 95, 46}
  }

  function LowerWord(w: Str): (r: Str)
    ensures |r| == |w|
    ensures forall i | 0 <= i < |w| :: r[i] == if 65 <= w[i] <= 90 then w[i] + 32 else w[i]
  {
    seq(|w|, i requires 0 <= i < |w| => if 65 <= w[i] <= 90 then w[i] + 32 else w[i])
  }

  lemma {:induction false} CanonicalWord(w: Str, rest: Str)
    requires forall i | 0 <= i < |w| :: 65 <= w[i] <= 90 || 97 <= w[i] <= 122 || 48 <= w[i] <= 57
    ensures Canonical(w + rest) == LowerWord(w) + Canonical(rest)
  {
    if w == [] {
      assert w + rest == rest;
    } else {
      hide Canonical, LowerWord;
      assert (w + rest)[1..] == w[1..] + rest && (w + rest)[0] == w[0];
      CanonicalStep(w + rest);
      CanonicalWord(w[1..], rest);
      LowerStep(w);
    }
  }

  lemma CanonicalStep(s: Str)
    requires s != [] && !IsSeparator(s[0])
    ensures Canonical(s) == [Lower(s[0])] + Canonical(s[1..])
  {
  }

  lemma LowerStep(w: Str)
    requires w != []
    ensures LowerWord(w) == [Lower(w[0])] + LowerWord(w[1..])
  {
  }

  lemma {:induction false} RunSkipped(s: Str, rest: Str)
    requires (forall i | 0 <= i < |s| :: s[i] in {45, 95, 46}) && (rest != [] ==> !IsSeparator(rest[0]))
    ensures SkipSeparators(s + rest) == rest
  {
    if s == [] {
      assert s + rest == rest;
    } else {
      assert (s + rest)[1..] == s[1..] + rest;
      RunSkipped(s[1..], rest);
    }
  }

  /** Words with runs of separators between them and, if `last` is one, after them. */
  predicate IsSpelling(ws: seq<Str>, runs: seq<Str>, last: Str) {
    ws != [] && |runs| == |ws| - 1 && (forall i | 0 <= i < |ws| :: IsWord(ws[i]))
    && (forall i | 0 <= i < |runs| :: IsRun(runs[i])) && (last == [] || IsRun(last))
  }

  function Name(ws: seq<Str>, runs: seq<Str>, last: Str): Str
    requires ws != [] && |runs| == |ws| - 1
  {
    if |ws| == 1 then ws[0] + last else ws[0] + (runs[0] + Name(ws[1..], runs[1..], last))
  }

  /** The words in lower case with one hyphen for each run. */
  function Hyphenated(ws: seq<Str>, last: bool): Str {
    if ws == [] then []
    else if |ws| == 1 then LowerWord(ws[0]) + (if last then [45] else [])
    else LowerWord(ws[0]) + ([45] + Hyphenated(ws[1..], last))
  }

  lemma RunThenWord(run: Str, rest: Str)
    requires IsRun(run) && (rest != [] ==> !IsSeparator(rest[0]))
    ensures Canonical(run + rest) == [45] + Canonical(rest)
  {
    assert (run + rest)[1..] == run[1..] + rest;
    RunSkipped(run[1..], rest);
  }

  /** PEP 503: the case of letters and the choice of separators disappear, and the words stay. */
  lemma {:induction false} CanonicalOfWords(ws: seq<Str>, runs: seq<Str>, last: Str)
    requires IsSpelling(ws, runs, last)
    ensures Canonical(Name(ws, runs, last)) == Hyphenated(ws, last != [])
    ensures Name(ws, runs, last) != [] && !IsSeparator(Name(ws, runs, last)[0])
  {
    assert IsWord(ws[0]);
    if |ws| == 1 {
      CanonicalWord(ws[0], last);
      if last != [] {
        assert last + [] == last;
        RunThenWord(last, []);
      }
    } else {
      assert forall i | 0 <= i < |ws[1..]| :: ws[1..][i] == ws[i + 1];
      assert IsSpelling(ws[1..], runs[1..], last);
      CanonicalOfWords(ws[1..], runs[1..], last);
      var rest := Name(ws[1..], runs[1..], last);
      assert IsRun(runs[0]);
      RunThenWord(runs[0], rest);
      CanonicalWord(ws[0], runs[0] + rest);
    }
  }

  function HyphenAt(s: Str): nat {
    if s == [] || s[0] == 45 then 0 else 1 + HyphenAt(s[1..])
  }

  lemma {:induction false} HyphenAfter(v: Str, x: Str)
    requires 45 !in v && (x == [] || x[0] == 45)
    ensures HyphenAt(v + x) == |v|
  {
    if v == [] {
      assert v + x == x;
    } else {
      assert (v + x)[1..] == v[1..] + x && (v + x)[0] == v[0];
      HyphenAfter(v[1..], x);
    }
  }

  lemma WordEnds(v: Str, x: Str, w: Str, y: Str)
    requires v + x == w + y && 45 !in v && 45 !in w && (x == [] || x[0] == 45) && (y == [] || y[0] == 45)
    ensures v == w && x == y
  {
    HyphenAfter(v, x);
    HyphenAfter(w, y);
    assert v == (v + x)[..|v|] && x == (v + x)[|v|..];
  }

  lemma LowerHasNoHyphen(w: Str)
    requires IsWord(w)
    ensures 45 !in LowerWord(w)
  {
  }

  /** The same words but for the case of letters. */
  predicate SameWords(ws: seq<Str>, vs: seq<Str>) {
    |ws| == |vs| && forall i | 0 <= i < |ws| :: LowerWord(ws[i]) == LowerWord(vs[i])
  }

  lemma {:induction false} HyphenatedApart(ws: seq<Str>, vs: seq<Str>, a: bool, b: bool)
    requires ws != [] && vs != []
    requires (forall i | 0 <= i < |ws| :: IsWord(ws[i])) && (forall i | 0 <= i < |vs| :: IsWord(vs[i]))
    ensures Hyphenated(ws, a) == Hyphenated(vs, b) <==> SameWords(ws, vs) && a == b
  {
    var x := if |ws| == 1 then if a then [45] else [] else [45] + Hyphenated(ws[1..], a);
    var y := if |vs| == 1 then if b then [45] else [] else [45] + Hyphenated(vs[1..], b);
    LowerHasNoHyphen(ws[0]);
    LowerHasNoHyphen(vs[0]);
    if |ws| > 1 && |vs| > 1 { HyphenatedApart(ws[1..], vs[1..], a, b); }
    if |ws| > 1 { HyphenatedHead(ws[1..], a); }
    if |vs| > 1 { HyphenatedHead(vs[1..], b); }
    hide Hyphenated, LowerWord, IsWord;
    TailsApart(ws, vs, a, b, x, y);
  }

  lemma HyphenatedHead(ws: seq<Str>, last: bool)
    requires ws != [] && IsWord(ws[0])
    ensures Hyphenated(ws, last) != []
  {
  }

  lemma TailsApart(ws: seq<Str>, vs: seq<Str>, a: bool, b: bool, x: Str, y: Str)
    requires ws != [] && vs != [] && 45 !in LowerWord(ws[0]) && 45 !in LowerWord(vs[0])
    requires x == if |ws| == 1 then if a then [45] else [] else [45] + Hyphenated(ws[1..], a)
    requires y == if |vs| == 1 then if b then [45] else [] else [45] + Hyphenated(vs[1..], b)
    requires |ws| > 1 ==> Hyphenated(ws[1..], a) != []
    requires |vs| > 1 ==> Hyphenated(vs[1..], b) != []
    requires |ws| > 1 && |vs| > 1
      ==> (Hyphenated(ws[1..], a) == Hyphenated(vs[1..], b) <==> SameWords(ws[1..], vs[1..]) && a == b)
    ensures LowerWord(ws[0]) + x == LowerWord(vs[0]) + y <==> SameWords(ws, vs) && a == b
  {
    hide Hyphenated, LowerWord;
    assert x == y <==> |ws| == |vs| && SameWords(ws[1..], vs[1..]) && a == b by {
      if |ws| > 1 && |vs| > 1 {
        assert x[1..] == Hyphenated(ws[1..], a) && y[1..] == Hyphenated(vs[1..], b);
      }
    }
    if LowerWord(ws[0]) + x == LowerWord(vs[0]) + y { WordEnds(LowerWord(ws[0]), x, LowerWord(vs[0]), y); }
    if |ws| == |vs| {
      assert SameWords(ws, vs) <==> LowerWord(ws[0]) == LowerWord(vs[0]) && SameWords(ws[1..], vs[1..]) by {
        assert forall i | 0 < i < |ws| :: ws[i] == ws[1..][i - 1] && vs[i] == vs[1..][i - 1];
      }
    }
  }

  /** Two names are one distribution exactly if they have the same words, whatever the case and the separators. */
  lemma SameNameExactly(ws: seq<Str>, runs: seq<Str>, last: Str, vs: seq<Str>, others: seq<Str>, end: Str)
    requires IsSpelling(ws, runs, last) && IsSpelling(vs, others, end)
    ensures Canonical(Name(ws, runs, last)) == Canonical(Name(vs, others, end))
      <==> SameWords(ws, vs) && (last == [] <==> end == [])
  {
    CanonicalOfWords(ws, runs, last);
    CanonicalOfWords(vs, others, end);
    HyphenatedApart(ws, vs, last != [], end != []);
  }
}
