/** One list of words, spelled in snake, kebab, shouting, Pascal or camel case, reads back as that list. */
module IdentifierSpellings {
  import opened Text
  import opened Regex
  import opened Identifiers

  predicate IsWord(w: Str) {
    w != [] && forall i | 0 <= i < |w| :: In(Lower, w[i])
  }

  predicate AreWords(ws: seq<Str>) {
    forall i | 0 <= i < |ws| :: IsWord(ws[i])
  }

  /** Identifiers are cut into segments at every other character, in ASCII or not. */
  predicate IsSeparator(c: CodePoint) {
    !In(Alnum, c)
  }

  /** Normalising an identifier leaves nothing of the character. */
  predicate Dropped(u: Unicode, c: CodePoint) {
    KeepAlnum(u, u.fold(c)) == []
  }

  function ToUpper(c: CodePoint): CodePoint {
    if In(Lower, c) then c - 32 else c
  }

  function Shout(w: Str): (r: Str)
    ensures |r| == |w| && forall i | 0 <= i < |w| :: r[i] == ToUpper(w[i])
  {
    seq(|w|, i requires 0 <= i < |w| => ToUpper(w[i]))
  }

  function Capital(w: Str): (r: Str)
    requires w != []
    ensures |r| == |w| && r[0] == ToUpper(w[0]) && r[1..] == w[1..]
  {
    [ToUpper(w[0])] + w[1..]
  }

  function Joined(ws: seq<Str>, separator: CodePoint): Str {
    if ws == [] then []
    else if |ws| == 1 then ws[0]
    else ws[0] + [separator] + Joined(ws[1..], separator)
  }

  function Pascal(ws: seq<Str>): (r: Str)
    requires AreWords(ws)
    ensures ws != [] ==> r != [] && r[0] == ToUpper(ws[0][0])
  {
    if ws == [] then [] else Capital(ws[0]) + Pascal(ws[1..])
  }

  function Camel(ws: seq<Str>): Str
    requires AreWords(ws)
  {
    if ws == [] then [] else ws[0] + Pascal(ws[1..])
  }

  /** No one-letter word directly after another: `aB` and `AB` would run together. */
  predicate NoTwoSingles(ws: seq<Str>) {
    forall i | 0 <= i < |ws| - 1 :: |ws[i]| != 1 || |ws[i + 1]| != 1
  }

  // ---------------------------------------------------------------- segments

  lemma RunEndIs(k: Class, s: Str, i: nat, e: nat)
    requires i <= e <= |s|
    requires forall j | i <= j < e :: In(k, s[j])
    requires e < |s| ==> !In(k, s[e])
    ensures RunEnd(k, s, i) == e
  {
    hide In;
  }

  function Segments(s: Str): seq<Str> {
    if s == [] then []
    else if In(Alnum, s[0]) then [s[..RunEnd(Alnum, s, 0)]] + Segments(s[RunEnd(Alnum, s, 0)..])
    else Segments(s[1..])
  }

  lemma {:induction false} SegmentsFound(s: Str, i: nat)
    requires i <= |s|
    ensures FindAll(SEGMENT, s, i) == Segments(s[i..])
    decreases |s| - i
  {
    if i < |s| {
      ManyGivesBack(Alnum, s, i);
      var t := s[i..];
      if In(Alnum, s[i]) {
        var e := RunEnd(Alnum, s, i);
        RunEndIs(Alnum, t, 0, e - i);
        SegmentsFound(s, e);
        assert t[..e - i] == s[i..e] && t[e - i..] == s[e..];
      } else {
        SegmentsFound(s, i + 1);
        assert t[1..] == s[i + 1..];
      }
    }
  }

  lemma SegmentAlone(s: Str)
    requires s != [] && AlnumText(s)
    ensures FindAll(SEGMENT, s, 0) == [s]
  {
    SegmentsFound(s, 0);
    assert s[0..] == s;
    RunEndIs(Alnum, s, 0, |s|);
    assert s[..|s|] == s && s[|s|..] == [];
  }

  lemma SegmentThenRest(w: Str, separator: CodePoint, rest: Str)
    requires w != [] && AlnumText(w) && IsSeparator(separator)
    ensures FindAll(SEGMENT, w + [separator] + rest, 0) == [w] + FindAll(SEGMENT, rest, 0)
  {
    var s := w + [separator] + rest;
    SegmentsFound(s, 0);
    SegmentsFound(rest, 0);
    assert s[0..] == s && rest[0..] == rest;
    RunEndIs(Alnum, s, 0, |w|);
    assert s[..|w|] == w && s[|w|..] == [separator] + rest;
    assert ([separator] + rest)[1..] == rest;
  }

  // ---------------------------------------------------------------- words joined by a separator

  predicate All(k: Class, s: Str) {
    forall i | 0 <= i < |s| :: In(k, s[i])
  }

  lemma OneCase(w: Str)
    requires w != [] && (All(Lower, w) || All(Upper, w))
    ensures AlnumText(w) && FindAll(TOKEN, w, 0) == [w]
  {
    assert AlnumText(w);
    LexerIsScanner(w, 0);
    assert w[0..] == w;
    TokenEndIs(w, 0, |w|);
    assert w[..|w|] == w && w[|w|..] == [];
  }

  /** `w` is `word` in lower or in upper case. */
  predicate Spells(w: Str, word: Str) {
    IsWord(word) && (w == word || w == Shout(word))
  }

  lemma SpelledWord(w: Str, word: Str)
    requires Spells(w, word)
    ensures w != [] && AlnumText(w) && LowerAll(FindAll(TOKEN, w, 0)) == [word]
  {
    OneCase(w);
    assert LowerText(w) == word;
  }

  lemma TokensOfSegment(s: Str)
    requires s != [] && AlnumText(s)
    ensures TokensOfSegments([s]) == LowerAll(FindAll(TOKEN, s, 0))
  {
    hide FindAll;
    assert [s][1..] == [];
    assert TokensOfSegments([s][1..]) == [];
  }

  lemma TokensCons(s: Str, segments: seq<Str>)
    ensures TokensOfSegments([s] + segments) == LowerAll(FindAll(TOKEN, s, 0)) + TokensOfSegments(segments)
  {
    hide FindAll;
    assert ([s] + segments)[1..] == segments;
  }

  /** Words joined by a character that is not alphanumeric, in either case, read back as the words. */
  lemma {:induction false} JoinedTokens(parts: seq<Str>, ws: seq<Str>, separator: CodePoint)
    requires |parts| == |ws| && (forall i | 0 <= i < |ws| :: Spells(parts[i], ws[i])) && IsSeparator(separator)
    ensures IdentifierTokens(Joined(parts, separator)) == ws
  {
    if ws != [] {
      SpelledWord(parts[0], ws[0]);
      hide FindAll, Spells;
      if |ws| == 1 {
        SegmentAlone(parts[0]);
        TokensOfSegment(parts[0]);
      } else {
        var rest := Joined(parts[1..], separator);
        SegmentThenRest(parts[0], separator, rest);
        TokensCons(parts[0], FindAll(SEGMENT, rest, 0));
        JoinedTokens(parts[1..], ws[1..], separator);
        assert ws == [ws[0]] + ws[1..];
      }
    }
  }

  // ---------------------------------------------------------------- words run together with capitals

  lemma {:induction false} PascalIsAlnum(ws: seq<Str>)
    requires AreWords(ws)
    ensures AlnumText(Pascal(ws))
    ensures ws != [] ==> In(Upper, Pascal(ws)[0])
    ensures ws != [] && |Pascal(ws)| > 1 ==> (In(Lower, Pascal(ws)[1]) <==> |ws[0]| > 1)
  {
    if ws != [] {
      PascalIsAlnum(ws[1..]);
      var w := Capital(ws[0]);
      assert IsWord(ws[0]);
      forall i | 0 <= i < |w| ensures In(Alnum, w[i]) { if i > 0 { assert w[i] == w[1..][i - 1] == ws[0][i]; } }
      if |w| > 1 { assert Pascal(ws)[1] == w[1] == w[1..][0] == ws[0][1]; }
    }
  }

  /** A capitalised word is cut off exactly when it and its successor are not both single letters. */
  lemma CutAfterCapital(w: Str, ws: seq<Str>)
    requires IsWord(w) && AreWords(ws)
    ensures var s := Capital(w) + Pascal(ws);
      if ws == [] || |w| != 1 || |ws[0]| != 1 then TokenEnd(s, 0) == |w| else TokenEnd(s, 0) > |w|
  {
    PascalIsAlnum(ws);
    var s := Capital(w) + Pascal(ws);
    forall j | 0 < j < |w| ensures In(Lower, s[j]) { assert s[j] == Capital(w)[1..][j - 1] == w[j]; }
    assert In(Upper, s[0]);
    if ws == [] {
      TokenEndIs(s, 0, |w|);
    } else {
      assert s[|w|] == Pascal(ws)[0];
      if |w| + 1 < |s| { assert s[|w| + 1] == Pascal(ws)[1]; }
      if |w| != 1 || |ws[0]| != 1 {
        if |w| == 1 { assert |Pascal(ws)| > 1; }
        TokenEndIs(s, 0, |w|);
      } else {
        assert !Boundary(s, |w|);
      }
    }
  }

  lemma SplitCut(w: Str, rest: Str)
    requires w != [] && TokenEnd(w + rest, 0) == |w|
    ensures Split(w + rest) == [w] + Split(rest)
  {
    var s := w + rest;
    assert s[..|w|] == w && s[|w|..] == rest;
  }

  lemma LowerCapital(w: Str)
    requires IsWord(w)
    ensures LowerText(Capital(w)) == w
  {
    forall i | 0 <= i < |w| ensures ToLower(Capital(w)[i]) == w[i] {
      if i > 0 { assert Capital(w)[i] == Capital(w)[1..][i - 1]; }
    }
  }

  lemma LowerAllCons(w: Str, rest: seq<Str>)
    ensures LowerAll([w] + rest) == [LowerText(w)] + LowerAll(rest)
  {
  }

  /** Pascal case reads back as its words if and only if no two single letters are neighbours. */
  lemma {:induction false} PascalSplit(ws: seq<Str>)
    requires AreWords(ws)
    ensures LowerAll(Split(Pascal(ws))) == ws <==> NoTwoSingles(ws)
  {
    if ws != [] {
      var w, rest := ws[0], ws[1..];
      CutAfterCapital(w, rest);
      var s := Pascal(ws);
      if rest == [] || |w| != 1 || |rest[0]| != 1 {
        SplitCut(Capital(w), Pascal(rest));
        LowerAllCons(Capital(w), Split(Pascal(rest)));
        LowerCapital(w);
        PascalSplit(rest);
        assert LowerAll(Split(s)) == [w] + LowerAll(Split(Pascal(rest)));
        assert ws == [w] + rest;
        assert LowerAll(Split(s))[1..] == LowerAll(Split(Pascal(rest)));
        NoTwoSinglesTail(ws);
      } else {
        assert |LowerAll(Split(s))[0]| == TokenEnd(s, 0) > |ws[0]|;
        assert |ws[0]| == 1 && |ws[0 + 1]| == 1;
      }
    }
  }

  lemma NoTwoSinglesTail(ws: seq<Str>)
    requires ws != []
    ensures NoTwoSingles(ws) <==> NoTwoSingles(ws[1..]) && (|ws| == 1 || |ws[0]| != 1 || |ws[1]| != 1)
  {
    var rest := ws[1..];
    if NoTwoSingles(ws) {
      forall i | 0 <= i < |rest| - 1
        ensures |rest[i]| != 1 || |rest[i + 1]| != 1
      {
        assert |ws[i + 1]| != 1 || |ws[i + 1 + 1]| != 1;
      }
      if |ws| > 1 { assert |ws[0]| != 1 || |ws[0 + 1]| != 1; }
    }
    if NoTwoSingles(rest) && (|ws| == 1 || |ws[0]| != 1 || |ws[1]| != 1) {
      forall i | 0 <= i < |ws| - 1 ensures |ws[i]| != 1 || |ws[i + 1]| != 1 {
        if i > 0 { assert |rest[i - 1]| != 1 || |rest[i - 1 + 1]| != 1; }
      }
    }
  }

  lemma TokensOfOneSegment(s: Str)
    requires AlnumText(s)
    ensures IdentifierTokens(s) == LowerAll(Split(s))
  {
    if s != [] {
      SegmentAlone(s);
      LexerIsScanner(s, 0);
      TokensOfSegment(s);
      hide FindAll, Split, TokensOfSegments;
      assert s[0..] == s;
    }
  }

  lemma PascalTokens(ws: seq<Str>)
    requires AreWords(ws)
    ensures IdentifierTokens(Pascal(ws)) == ws <==> NoTwoSingles(ws)
  {
    PascalIsAlnum(ws);
    TokensOfOneSegment(Pascal(ws));
    PascalSplit(ws);
  }

  lemma LowerBeforeCapital(w: Str, ws: seq<Str>)
    requires IsWord(w) && AreWords(ws)
    ensures TokenEnd(w + Pascal(ws), 0) == |w| && AlnumText(w + Pascal(ws))
  {
    PascalIsAlnum(ws);
    var s := w + Pascal(ws);
    if ws != [] { assert s[|w|] == Pascal(ws)[0] && In(Lower, s[|w| - 1]); }
    TokenEndIs(s, 0, |w|);
    forall i | 0 <= i < |s| ensures In(Alnum, s[i]) { if i < |w| { assert In(Lower, s[i]); } }
  }

  lemma CamelTokens(ws: seq<Str>)
    requires AreWords(ws) && ws != []
    ensures IdentifierTokens(Camel(ws)) == ws <==> NoTwoSingles(ws[1..])
  {
    var w, rest := ws[0], ws[1..];
    LowerBeforeCapital(w, rest);
    TokensOfOneSegment(Camel(ws));
    SplitCut(w, Pascal(rest));
    LowerAllCons(w, Split(Pascal(rest)));
    PascalSplit(rest);
    assert LowerText(w) == w by { assert IsWord(w); }
    assert ws == [w] + rest;
    assert ([w] + LowerAll(Split(Pascal(rest))))[1..] == LowerAll(Split(Pascal(rest)));
  }

  // ---------------------------------------------------------------- the verdict does not depend on the spelling

  lemma {:induction false} FoldConcat(u: Unicode, a: Str, b: Str)
    ensures FoldAll(u, a + b) == FoldAll(u, a) + FoldAll(u, b)
  {
    if a == [] { assert a + b == b; } else {
      assert (a + b)[1..] == a[1..] + b;
      FoldConcat(u, a[1..], b);
    }
  }

  lemma {:induction false} KeepConcat(u: Unicode, a: Str, b: Str)
    ensures KeepAlnum(u, a + b) == KeepAlnum(u, a) + KeepAlnum(u, b)
  {
    if a == [] { assert a + b == b; } else {
      assert (a + b)[1..] == a[1..] + b;
      KeepConcat(u, a[1..], b);
    }
  }

  lemma NormalizedConcat(u: Unicode, a: Str, b: Str)
    ensures Normalized(u, a + b) == Normalized(u, a) + Normalized(u, b)
  {
    FoldConcat(u, a, b);
    KeepConcat(u, FoldAll(u, a), FoldAll(u, b));
  }

  /** ASCII letters and digits are kept in lower case. */
  lemma {:induction false} NormalizedAlnum(u: Unicode, s: Str)
    requires AsciiAgrees(u) && AlnumText(s)
    ensures Normalized(u, s) == LowerText(s)
  {
    hide *;
    if s == [] {
      NormalizedNothing(u);
    } else {
      var rest := s[1..];
      AlnumTail(s);
      NormalizedOne(u, s[0]);
      NormalizedConcat(u, [s[0]], rest);
      NormalizedAlnum(u, rest);
      LowerTail(s);
      assert s == [s[0]] + rest;
    }
  }

  lemma NormalizedNothing(u: Unicode)
    ensures Normalized(u, []) == LowerText([])
  {
    assert FoldAll(u, []) == [];
  }

  lemma AlnumTail(s: Str)
    requires s != [] && AlnumText(s)
    ensures In(Alnum, s[0]) && AlnumText(s[1..])
  {
    forall i | 0 <= i < |s[1..]| ensures In(Alnum, s[1..][i]) { assert s[1..][i] == s[i + 1]; }
  }

  lemma LowerTail(s: Str)
    requires s != []
    ensures LowerText(s) == [ToLower(s[0])] + LowerText(s[1..])
  {
  }

  lemma NormalizedOne(u: Unicode, c: CodePoint)
    requires AsciiAgrees(u) && In(Alnum, c)
    ensures Normalized(u, [c]) == [ToLower(c)]
  {
    assert [c][1..] == [] && [ToLower(c)][1..] == [];
    assert FoldAll(u, [c]) == u.fold(c) + FoldAll(u, []) == [ToLower(c)];
    assert KeepAlnum(u, [ToLower(c)]) == [ToLower(c)] + KeepAlnum(u, []);
  }

  /** All separators in ASCII are dropped, `_`, `-` and the space among them. */
  lemma AsciiDropped(u: Unicode, c: CodePoint)
    requires AsciiAgrees(u) && IsSeparator(c) && c < 128
    ensures Dropped(u, c)
  {
    assert u.fold(c) == [c] && !u.alnum(c);
    assert [c][1..] == [];
    assert KeepAlnum(u, [c]) == KeepAlnum(u, [c][1..]);
  }

  lemma NormalizedSeparator(u: Unicode, c: CodePoint)
    requires Dropped(u, c)
    ensures Normalized(u, [c]) == []
  {
    assert [c][1..] == [];
    assert FoldAll(u, [c]) == u.fold(c) + FoldAll(u, []);
    assert FoldAll(u, [c]) == u.fold(c);
  }

  lemma NormalizedSpelled(u: Unicode, part: Str, word: Str)
    requires AsciiAgrees(u) && Spells(part, word)
    ensures Normalized(u, part) == word
  {
    SpelledWord(part, word);
    NormalizedAlnum(u, part);
    hide Normalized, FindAll;
    assert LowerText(part) == word;
  }

  lemma NormalizedThenRest(u: Unicode, part: Str, word: Str, separator: CodePoint, rest: Str)
    requires AsciiAgrees(u) && Spells(part, word) && Dropped(u, separator)
    ensures Normalized(u, part + [separator] + rest) == word + Normalized(u, rest)
  {
    NormalizedSpelled(u, part, word);
    NormalizedSeparator(u, separator);
    hide *;
    NormalizedConcat(u, part + [separator], rest);
    NormalizedConcat(u, part, [separator]);
  }

  lemma {:induction false} NormalizedJoined(u: Unicode, parts: seq<Str>, ws: seq<Str>, separator: CodePoint)
    requires AsciiAgrees(u) && Dropped(u, separator)
    requires |parts| == |ws| && forall i | 0 <= i < |ws| :: Spells(parts[i], ws[i])
    ensures Normalized(u, Joined(parts, separator)) == Concat(ws)
  {
    if ws != [] {
      hide Normalized, Spells, AsciiAgrees, Dropped;
      if |ws| == 1 {
        NormalizedSpelled(u, parts[0], ws[0]);
        assert ws[1..] == [];
      } else {
        NormalizedThenRest(u, parts[0], ws[0], separator, Joined(parts[1..], separator));
        NormalizedJoined(u, parts[1..], ws[1..], separator);
      }
    }
  }

  lemma {:induction false} LowerPascal(ws: seq<Str>)
    requires AreWords(ws)
    ensures LowerText(Pascal(ws)) == Concat(ws)
  {
    if ws != [] {
      LowerPascal(ws[1..]);
      LowerCapital(ws[0]);
      LowerTextConcat(Capital(ws[0]), Pascal(ws[1..]));
    }
  }

  lemma LowerTextConcat(a: Str, b: Str)
    ensures LowerText(a + b) == LowerText(a) + LowerText(b)
  {
  }

  lemma SameVerdict(u: Unicode, a: Str, b: Str)
    requires Normalized(u, a) == Normalized(u, b) && IdentifierTokens(a) == IdentifierTokens(b)
    ensures IsSensitive(u, a) == IsSensitive(u, b)
  {
    hide FieldNames, SensitiveTokens, KeyQualifiers, IdentifierTokens, Normalized;
  }

  /** Words that name secret material: run together, one by one, or a key with what it is for. */
  ghost predicate NamesSecret(ws: seq<Str>) {
    || Concat(ws) in FieldNames()
    || (exists i | 0 <= i < |ws| :: ws[i] in SensitiveTokens())
    || exists i, j | 0 <= i < |ws| && 0 <= j < |ws| :: ws[i] == Lit("key") && ws[j] in KeyQualifiers()
  }

  lemma VerdictOnWords(u: Unicode, identifier: Str, ws: seq<Str>)
    requires Normalized(u, identifier) == Concat(ws) && IdentifierTokens(identifier) == ws
    ensures IsSensitive(u, identifier) <==> NamesSecret(ws)
  {
    hide FieldNames, SensitiveTokens, KeyQualifiers, IdentifierTokens, Normalized, Lit, Concat;
    var tokens := TokenSet(identifier);
    assert forall t :: t in tokens <==> t in ws;
    forall k: set<Str>
      ensures tokens * k != {} <==> exists i | 0 <= i < |ws| :: ws[i] in k
    {
      if i :| 0 <= i < |ws| && ws[i] in k { assert ws[i] in tokens * k; }
      if t :| t in tokens * k { assert t in ws; }
    }
  }

  /**
   Whether an identifier names secret material depends on its words only, not on whether they are
   joined by `_`, `-` or any other separator that normalising drops, in either case, or by capitals: it does
   exactly if the words name a secret.
   */
  lemma SpellingsAgree(u: Unicode, ws: seq<Str>, parts: seq<Str>, separator: CodePoint)
    requires AsciiAgrees(u) && AreWords(ws) && ws != [] && NoTwoSingles(ws)
    requires IsSeparator(separator) && Dropped(u, separator)
    requires |parts| == |ws| && forall i | 0 <= i < |ws| :: Spells(parts[i], ws[i])
    ensures IsSensitive(u, Joined(parts, separator)) == IsSensitive(u, Pascal(ws)) == IsSensitive(u, Camel(ws))
    ensures IsSensitive(u, Joined(parts, separator)) <==> NamesSecret(ws)
  {
    hide IsSensitive, Normalized, IdentifierTokens, Dropped, NamesSecret;
    JoinedTokens(parts, ws, separator);
    NormalizedJoined(u, parts, ws, separator);
    PascalTokens(ws);
    PascalIsAlnum(ws);
    NormalizedAlnum(u, Pascal(ws));
    LowerPascal(ws);
    NoTwoSinglesTail(ws);
    CamelTokens(ws);
    LowerBeforeCapital(ws[0], ws[1..]);
    NormalizedAlnum(u, Camel(ws));
    LowerTextConcat(ws[0], Pascal(ws[1..]));
    LowerPascal(ws[1..]);
    assert LowerText(ws[0]) == ws[0] by { assert IsWord(ws[0]); }
    VerdictOnWords(u, Joined(parts, separator), ws);
    SameVerdict(u, Joined(parts, separator), Pascal(ws));
    SameVerdict(u, Pascal(ws), Camel(ws));
  }
}
