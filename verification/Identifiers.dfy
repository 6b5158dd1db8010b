/** The identifier lexer. */
module Identifiers {
  // (backend/app/core/sensitive_identifiers.py) Splitting identifiers into words and recognising those
  // that name secret material.

  import opened Text
  import opened Regex

  const SEGMENT := Many(Char(Alnum))

  const PAIR := Then(Char(Upper), Char(Lower))

  const LOOK := Ahead(Or(Or(PAIR, Char(Digit)), End))

  /** An upper-case run that ends before a capitalised word, a digit or the end. */
  const ACRONYM := Then(Many(Char(Upper)), LOOK)

  const WORD := Then(Maybe(Char(Upper)), Many(Char(Lower)))

  const NUMBER := Many(Char(Digit))

  const TOKEN := Or(Or(ACRONYM, WORD), NUMBER)

  function ToLower(c: CodePoint): CodePoint {
    if In(Upper, c) then c + 32 else c
  }

  function LowerText(s: Str): (r: Str)
    ensures |r| == |s|
    ensures forall i | 0 <= i < |s| :: r[i] == ToLower(s[i])
  {
    seq(|s|, i requires 0 <= i < |s| => ToLower(s[i]))
  }

  function LowerAll(tokens: seq<Str>): (r: seq<Str>)
    ensures |r| == |tokens|
    ensures forall i | 0 <= i < |tokens| :: r[i] == LowerText(tokens[i])
  {
    seq(|tokens|, i requires 0 <= i < |tokens| => LowerText(tokens[i]))
  }

  function TokensOfSegments(segments: seq<Str>): seq<Str> {
    if segments == [] then []
    else LowerAll(FindAll(TOKEN, segments[0], 0)) + TokensOfSegments(segments[1..])
  }

  function IdentifierTokens(identifier: Str): seq<Str> {
    TokensOfSegments(FindAll(SEGMENT, identifier, 0))
  }

  // ---------------------------------------------------------------- sensitive names

  /** `str.casefold` and `str.isalnum` of one character, which agree with ASCII below 128. */
  datatype Unicode = Unicode(fold: CodePoint -> Str, alnum: CodePoint -> bool)

  ghost predicate AsciiAgrees(u: Unicode) {
    forall c: CodePoint | c < 128 :: u.fold(c) == [ToLower(c)] && (u.alnum(c) <==> In(Alnum, c))
  }

  function FoldAll(u: Unicode, s: Str): Str {
    if s == [] then [] else u.fold(s[0]) + FoldAll(u, s[1..])
  }

  function KeepAlnum(u: Unicode, s: Str): Str {
    if s == [] then [] else (if u.alnum(s[0]) then [s[0]] else []) + KeepAlnum(u, s[1..])
  }

  function Normalized(u: Unicode, identifier: Str): Str {
    KeepAlnum(u, FoldAll(u, identifier))
  }

  function FieldNames(): set<Str> {
    {Lit("accesstoken"), Lit("apikey"), Lit("authtoken"), Lit("authorization"), Lit("cookie"), Lit("password"),
     Lit("refreshtoken"), Lit("secret"), Lit("setcookie"), Lit("token"), Lit("xapikey")}
  }

  function SensitiveTokens(): set<Str> {
    {Lit("authorization"), Lit("bearer"), Lit("cookie"), Lit("passwd"), Lit("password"), Lit("secret"), Lit("token")}
  }

  function KeyQualifiers(): set<Str> {
    {Lit("access"), Lit("api"), Lit("client"), Lit("encryption"), Lit("private"), Lit("signing")}
  }

  function TokenSet(identifier: Str): set<Str> {
    set t | t in IdentifierTokens(identifier)
  }

  predicate IsSensitive(u: Unicode, identifier: Str) {
    Normalized(u, identifier) in FieldNames()
    || TokenSet(identifier) * SensitiveTokens() != {}
    || (Lit("key") in TokenSet(identifier) && TokenSet(identifier) * KeyQualifiers() != {})
  }

  // ---------------------------------------------------------------- the one-pass scanner

  predicate AlnumText(s: Str) {
    forall i | 0 <= i < |s| :: In(Alnum, s[i])
  }

  /** Looking one character ahead: a token starts at `j`. */
  predicate Boundary(s: Str, j: nat)
    requires 0 < j < |s|
  {
    if In(Lower, s[j]) then In(Digit, s[j - 1])
    else if In(Digit, s[j]) then !In(Digit, s[j - 1])
    else !In(Upper, s[j - 1]) || (j + 1 < |s| && In(Lower, s[j + 1]))
  }

  function TokenEnd(s: Str, i: nat): (e: nat)
    requires i < |s|
    ensures i < e <= |s|
    ensures forall j | i < j < e :: !Boundary(s, j)
    ensures e < |s| ==> Boundary(s, e)
    decreases |s| - i
  {
    if i + 1 == |s| || Boundary(s, i + 1) then i + 1 else TokenEnd(s, i + 1)
  }

  /** The scanner: cut at every boundary. */
  function Split(s: Str): seq<Str> {
    if s == [] then [] else [s[..TokenEnd(s, 0)]] + Split(s[TokenEnd(s, 0)..])
  }

  /** An end is the scanner's when no boundary comes before it and one is there. */
  lemma TokenEndIs(s: Str, i: nat, e: nat)
    requires i < e <= |s|
    requires forall j | i < j < e :: !Boundary(s, j)
    requires e < |s| ==> Boundary(s, e)
    ensures TokenEnd(s, i) == e
  {
    hide Boundary;
  }

  // ---------------------------------------------------------------- the backtracking lexer is the scanner

  lemma PairAt(s: Str, k: nat)
    requires k <= |s|
    ensures Ends(PAIR, s, k) == if k + 1 < |s| && In(Upper, s[k]) && In(Lower, s[k + 1]) then [k + 2] else []
  {
    if k < |s| && In(Upper, s[k]) {
      var one := [k + 1];
      assert Ends(Char(Upper), s, k) == one && one[1..] == [];
      assert After(Char(Lower), s, k, one) == Ends(Char(Lower), s, k + 1) + After(Char(Lower), s, k, one[1..]);
    }
  }

  /** The lookahead holds before a capitalised word, before a digit and at the end. */
  predicate LookHolds(s: Str, k: nat)
    requires k <= |s|
  {
    k == |s| || In(Digit, s[k]) || (k + 1 < |s| && In(Upper, s[k]) && In(Lower, s[k + 1]))
  }

  lemma LookAt(s: Str, k: nat)
    requires k <= |s| && AlnumText(s)
    ensures Ends(LOOK, s, k) == if LookHolds(s, k) then [k] else []
  {
    PairAt(s, k);
    assert k < |s| ==> In(Alnum, s[k]);
    assert Ends(Or(PAIR, Char(Digit)), s, k) == Ends(PAIR, s, k) + Ends(Char(Digit), s, k);
    var all := Or(Or(PAIR, Char(Digit)), End);
    assert Ends(all, s, k) == Ends(Or(PAIR, Char(Digit)), s, k) + Ends(End, s, k);
    assert Ends(LOOK, s, k) == if Ends(all, s, k) != [] then [k] else [];
  }

  lemma AcronymEnds(s: Str, i: nat)
    requires i < |s| && AlnumText(s) && In(Upper, s[i])
    ensures var u := RunEnd(Upper, s, i);
      && (LookHolds(s, u) ==> Ends(ACRONYM, s, i) != [] && Ends(ACRONYM, s, i)[0] == u)
      && (!LookHolds(s, u) && u > i + 1 ==> Ends(ACRONYM, s, i) != [] && Ends(ACRONYM, s, i)[0] == u - 1)
      && (!LookHolds(s, u) && u == i + 1 ==> Ends(ACRONYM, s, i) == [])
  {
    var u := RunEnd(Upper, s, i);
    ManyGivesBack(Upper, s, i);
    var starts := Down(u, i);
    assert starts[0] == u && starts[1..] == Down(u - 1, i);
    assert Ends(ACRONYM, s, i) == After(LOOK, s, i, starts);
    LookAt(s, u);
    if !LookHolds(s, u) {
      assert In(Alnum, s[u]);
      AfterFails(s, i, u);
    }
  }

  /** Where the lookahead fails after the whole run, giving back one character makes it hold. */
  lemma AfterFails(s: Str, i: nat, u: nat)
    requires i < u <= |s| && AlnumText(s) && !LookHolds(s, u)
    requires In(Upper, s[u - 1]) && !In(Upper, s[u])
    ensures Within(Down(u, i), i, |s|)
    ensures var ends := After(LOOK, s, i, Down(u, i)); if u > i + 1 then ends != [] && ends[0] == u - 1 else ends == []
  {
    DownWithin(u, i, |s|);
    assert In(Alnum, s[u]);
    LookAt(s, u);
    if u > i + 1 { LookBefore(s, u); }
    AfterGivesBack(s, i, u);
  }

  lemma LookBefore(s: Str, u: nat)
    requires 0 < u < |s| && AlnumText(s) && In(Upper, s[u - 1]) && In(Lower, s[u])
    ensures Ends(LOOK, s, u - 1) == [u - 1]
  {
    LookAt(s, u - 1);
  }

  lemma AfterStep(r: Regex, s: Str, i: nat, starts: seq<nat>)
    requires i <= |s| && starts != [] && Within(starts, i, |s|) && Within(starts[1..], i, |s|)
    ensures After(r, s, i, starts) == Ends(r, s, starts[0]) + After(r, s, i, starts[1..])
  {
    hide Ends, Within;
  }

  lemma DownStep(e: nat, i: nat)
    ensures e > i ==> Down(e, i) != [] && Down(e, i)[0] == e && Down(e, i)[1..] == Down(e - 1, i)
    ensures e <= i ==> Down(e, i) == []
  {
  }

  lemma AfterGivesBack(s: Str, i: nat, u: nat)
    requires i < u <= |s| && Within(Down(u, i), i, |s|) && Ends(LOOK, s, u) == []
    requires u > i + 1 ==> Ends(LOOK, s, u - 1) == [u - 1]
    ensures var ends := After(LOOK, s, i, Down(u, i)); if u > i + 1 then ends != [] && ends[0] == u - 1 else ends == []
  {
    DownWithin(u - 1, i, |s|);
    DownStep(u, i);
    DownStep(u - 1, i);
    if u > i + 1 { DownWithin(u - 2, i, |s|); }
    hide *;
    AfterStep(LOOK, s, i, Down(u, i));
    if u > i + 1 {
      AfterStep(LOOK, s, i, Down(u - 1, i));
    } else {
      AfterNone(LOOK, s, i);
    }
  }

  lemma AfterNone(r: Regex, s: Str, i: nat)
    requires i <= |s| && Within([], i, |s|)
    ensures After(r, s, i, []) == []
  {
  }

  lemma {:induction false} DownWithin(e: nat, i: nat, n: nat)
    requires e <= n
    ensures Within(Down(e, i), i, n)
  {
    if e > i { DownWithin(e - 1, i, n); }
  }

  lemma MaybeUpper(s: Str, i: nat)
    requires i < |s|
    ensures Ends(Maybe(Char(Upper)), s, i) == if In(Upper, s[i]) then [i + 1, i] else [i]
  {
    assert Ends(Maybe(Char(Upper)), s, i) == Ends(Char(Upper), s, i) + [i];
  }

  lemma AfterTwo(r: Regex, s: Str, i: nat)
    requires i < |s|
    ensures Within([i + 1, i], i, |s|) && After(r, s, i, [i + 1, i]) == Ends(r, s, i + 1) + Ends(r, s, i)
    ensures Within([i], i, |s|) && After(r, s, i, [i]) == Ends(r, s, i)
  {
    hide Ends;
    AfterNone(r, s, i);
    assert [i + 1, i][1..] == [i] && [i][1..] == [];
    AfterStep(r, s, i, [i + 1, i]);
    AfterStep(r, s, i, [i]);
  }

  lemma WordIs(s: Str, i: nat)
    requires i < |s|
    ensures var lower := Many(Char(Lower));
      Ends(WORD, s, i) == if In(Upper, s[i]) then Ends(lower, s, i + 1) + Ends(lower, s, i) else Ends(lower, s, i)
  {
    var lower := Many(Char(Lower));
    assert Ends(WORD, s, i) == After(lower, s, i, Ends(Maybe(Char(Upper)), s, i));
    MaybeUpper(s, i);
    hide Ends;
    AfterTwo(lower, s, i);
  }

  lemma WordEnds(s: Str, i: nat)
    requires i < |s|
    ensures In(Lower, s[i]) ==> Ends(WORD, s, i) != [] && Ends(WORD, s, i)[0] == RunEnd(Lower, s, i)
    ensures In(Upper, s[i]) && i + 1 < |s| && In(Lower, s[i + 1]) ==>
      Ends(WORD, s, i) != [] && Ends(WORD, s, i)[0] == RunEnd(Lower, s, i + 1)
    ensures In(Digit, s[i]) ==> Ends(WORD, s, i) == []
  {
    hide Ends;
    WordIs(s, i);
    ManyGivesBack(Lower, s, i);
    ManyGivesBack(Lower, s, i + 1);
    DownStep(RunEnd(Lower, s, i), i);
    DownStep(RunEnd(Lower, s, i + 1), i + 1);
  }

  lemma TokenAlternatives(s: Str, i: nat)
    requires i <= |s|
    ensures Ends(TOKEN, s, i) == Ends(ACRONYM, s, i) + Ends(WORD, s, i) + Ends(NUMBER, s, i)
  {
    assert Ends(Or(ACRONYM, WORD), s, i) == Ends(ACRONYM, s, i) + Ends(WORD, s, i);
  }

  lemma FirstFromUpper(s: Str, i: nat)
    requires i < |s| && AlnumText(s) && In(Upper, s[i])
    ensures Ends(TOKEN, s, i) != [] && Ends(TOKEN, s, i)[0] == TokenEnd(s, i)
  {
    var u := RunEnd(Upper, s, i);
    assert u < |s| ==> In(Alnum, s[u]);
    if !LookHolds(s, u) && u == i + 1 {
      FirstCapital(s, i);
    } else {
      TokenAlternatives(s, i);
      AcronymEnds(s, i);
      hide Ends;
      TokenEndIs(s, i, if LookHolds(s, u) then u else u - 1);
    }
  }

  /** A capital before a lower-case letter begins a word. */
  lemma FirstCapital(s: Str, i: nat)
    requires i + 1 < |s| && AlnumText(s) && In(Upper, s[i]) && In(Lower, s[i + 1])
    ensures Ends(TOKEN, s, i) != [] && Ends(TOKEN, s, i)[0] == TokenEnd(s, i)
  {
    TokenAlternatives(s, i);
    AcronymEnds(s, i);
    WordEnds(s, i);
    hide Ends;
    LowerTail(s, i + 1);
    TokenEndIs(s, i, RunEnd(Lower, s, i + 1));
  }

  lemma FirstFromOther(s: Str, i: nat)
    requires i < |s| && AlnumText(s) && !In(Upper, s[i])
    ensures Ends(TOKEN, s, i) != [] && Ends(TOKEN, s, i)[0] == TokenEnd(s, i)
  {
    assert In(Alnum, s[i]);
    TokenAlternatives(s, i);
    WordEnds(s, i);
    ManyGivesBack(Upper, s, i);
    assert Ends(ACRONYM, s, i) == [];
    if In(Lower, s[i]) {
      hide Ends;
      LowerTail(s, i);
      TokenEndIs(s, i, RunEnd(Lower, s, i));
    } else {
      ManyGivesBack(Digit, s, i);
      hide Ends;
      var e := RunEnd(Digit, s, i);
      if e < |s| { assert In(Alnum, s[e]); }
      TokenEndIs(s, i, e);
    }
  }

  /** The lexer's preferred match from any position ends at the next boundary. */
  lemma FirstMatch(s: Str, i: nat)
    requires i < |s| && AlnumText(s)
    ensures Ends(TOKEN, s, i) != [] && Ends(TOKEN, s, i)[0] == TokenEnd(s, i)
  {
    hide Ends;
    if In(Upper, s[i]) { FirstFromUpper(s, i); } else { FirstFromOther(s, i); }
  }

  lemma LowerTail(s: Str, i: nat)
    requires i < |s| && AlnumText(s) && In(Lower, s[i])
    ensures var e := RunEnd(Lower, s, i); e > i && (e < |s| ==> Boundary(s, e))
    ensures forall j | i < j < RunEnd(Lower, s, i) :: !Boundary(s, j)
  {
    var e := RunEnd(Lower, s, i);
    if e < |s| { assert In(Alnum, s[e]); assert In(Lower, s[e - 1]); }
  }

  lemma TokenEndShifts(s: Str, i: nat)
    requires i < |s|
    ensures TokenEnd(s, i) == i + TokenEnd(s[i..], 0)
  {
    var t := s[i..];
    var e := TokenEnd(t, 0);
    forall j | i < j < i + e ensures !Boundary(s, j) { assert !Boundary(t, j - i); }
    if i + e < |s| { assert Boundary(t, e); }
    TokenEndIs(s, i, i + e);
  }

  lemma SplitStep(s: Str)
    requires s != []
    ensures TokenEnd(s, 0) > 0 && Split(s) == [s[..TokenEnd(s, 0)]] + Split(s[TokenEnd(s, 0)..])
  {
  }

  lemma FindStep(s: Str, i: nat)
    requires i < |s| && Ends(TOKEN, s, i) != [] && Ends(TOKEN, s, i)[0] == TokenEnd(s, i) > i
    ensures FindAll(TOKEN, s, i) == [s[i..TokenEnd(s, i)]] + FindAll(TOKEN, s, TokenEnd(s, i))
  {
    hide Ends, TokenEnd;
  }

  lemma ScannerStep(s: Str, i: nat)
    requires i < |s|
    ensures i < TokenEnd(s, i) <= |s| && Split(s[i..]) == [s[i..TokenEnd(s, i)]] + Split(s[TokenEnd(s, i)..])
  {
    hide Split, TokenEnd;
    TokenEndShifts(s, i);
    SplitStep(s[i..]);
    SlicesOfSlice(s, i, TokenEnd(s[i..], 0));
  }

  lemma SlicesOfSlice(s: Str, i: nat, n: nat)
    requires i + n <= |s|
    ensures s[i..][..n] == s[i..i + n] && s[i..][n..] == s[i + n..]
  {
  }

  /** On every alphanumeric segment the backtracking lexer gives what the scanner gives. */
  lemma {:induction false} LexerIsScanner(s: Str, i: nat)
    requires i <= |s| && AlnumText(s)
    ensures FindAll(TOKEN, s, i) == Split(s[i..])
    decreases |s| - i
  {
    if i < |s| {
      hide *;
      FirstMatch(s, i);
      ScannerStep(s, i);
      FindStep(s, i);
      LexerIsScanner(s, TokenEnd(s, i));
    }
  }

  function Concat(parts: seq<Str>): Str {
    if parts == [] then [] else parts[0] + Concat(parts[1..])
  }

  lemma ConcatStep(head: Str, parts: seq<Str>)
    ensures Concat([head] + parts) == head + Concat(parts)
  {
    assert ([head] + parts)[1..] == parts;
  }

  /** Cutting any text at the boundaries loses nothing and leaves no empty piece. */
  lemma {:induction false} SplitLossless(s: Str)
    ensures Concat(Split(s)) == s && forall t | t in Split(s) :: t != []
    decreases |s|
  {
    if s != [] {
      SplitStep(s);
      hide Split, TokenEnd;
      var e := TokenEnd(s, 0);
      SplitLossless(s[e..]);
      ConcatStep(s[..e], Split(s[e..]));
      assert s == s[..e] + s[e..];
    }
  }

  /** The lexer loses nothing: its tokens are not empty and put together give the segment. */
  lemma LexerLossless(s: Str)
    requires AlnumText(s)
    ensures Concat(FindAll(TOKEN, s, 0)) == s
    ensures forall t | t in FindAll(TOKEN, s, 0) :: t != []
  {
    hide *;
    LexerIsScanner(s, 0);
    assert s[0..] == s;
    SplitLossless(s);
  }
}
