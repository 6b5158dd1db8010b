/** The texts of RFC 8259, and their scanner. */
module JsonTexts {
  // Section 7 of RFC 8259 with Python's treatment of surrogates: two escapes that make up a pair are one
  // character, and a lone one is kept. The scanner accepts exactly the spellings of a text.

  import opened Text
  import opened Json

  const LOWER_HEX: Str := [48, 49, 50, 51, 52, 53, 54, 55, 56, 57, 97, 98, 99, 100, 101, 102]
  const UPPER_HEX: Str := [48, 49, 50, 51, 52, 53, 54, 55, 56, 57, 65, 66, 67, 68, 69, 70]

  /** The letters of the two-character escapes and what they stand for. */
  const ESCAPES: map<CodePoint, CodePoint> :=
    map[34 := 34, 92 := 92, 47 := 47, 98 := 8, 102 := 12, 110 := 10, 114 := 13, 116 := 9]

  predicate IsHexOf(c: CodePoint, n: nat) {
    n < 16 && (c == LOWER_HEX[n] || c == UPPER_HEX[n])
  }

  predicate HexParts(h: Str, a: nat, b: nat, c: nat, d: nat) {
    |h| == 4 && IsHexOf(h[0], a) && IsHexOf(h[1], b) && IsHexOf(h[2], c) && IsHexOf(h[3], d)
  }

  /** Four hexadecimal digits in either case. */
  ghost predicate SpellsHex(h: Str, n: nat) {
    exists a: nat, b: nat, c: nat, d: nat :: HexParts(h, a, b, c, d) && n == a * 4096 + b * 256 + c * 16 + d
  }

  lemma HexValueExactly(c: CodePoint, n: nat)
    ensures HexValue(c) == Some(n) <==> IsHexOf(c, n)
  {
  }

  lemma HexQuadExactly(s: Str, n: nat)
    ensures HexQuad(s) == Some(n) <==> |s| >= 4 && SpellsHex(s[..4], n)
  {
    hide IsHexOf, HexValue;
    if |s| >= 4 {
      var h := s[..4];
      forall i, k: nat | 0 <= i < 4 ensures HexValue(h[i]) == Some(k) <==> IsHexOf(h[i], k) {
        HexValueExactly(h[i], k);
      }
      if HexQuad(s) == Some(n) {
        var a, b, c, d := HexValue(s[0]).value, HexValue(s[1]).value, HexValue(s[2]).value, HexValue(s[3]).value;
        assert HexParts(h, a, b, c, d);
      }
      if SpellsHex(h, n) {
        var a: nat, b: nat, c: nat, d: nat :|
          HexParts(h, a, b, c, d) && n == a * 4096 + b * 256 + c * 16 + d;
        assert HexValue(h[0]) == Some(a) && HexValue(h[1]) == Some(b);
        assert HexValue(h[2]) == Some(c) && HexValue(h[3]) == Some(d);
      }
    }
  }

  // ---------------------------------------------------------------- characters

  /** `\u` and four hexadecimal digits. */
  ghost predicate IsHexEscape(x: Str, n: nat) {
    |x| == 6 && x[0] == 92 && x[1] == 117 && SpellsHex(x[2..], n)
  }

  ghost predicate IsPair(x: Str, h: nat, l: nat, c: CodePoint) {
    && |x| == 12 && IsHexEscape(x[..6], h) && IsHexEscape(x[6..], l)
    && 0xD800 <= h < 0xDC00 && 0xDC00 <= l < 0xE000 && c == 0x10000 + (h - 0xD800) * 1024 + (l - 0xDC00)
  }

  /** One character, raw or escaped. */
  ghost predicate SpellsChar(x: Str, c: CodePoint) {
    || (x == [c] && c >= 0x20 && c != 34 && c != 92)
    || (|x| == 2 && x[0] == 92 && x[1] in ESCAPES && ESCAPES[x[1]] == c)
    || IsHexEscape(x, c)
    || exists h: nat, l: nat :: IsPair(x, h, l, c)
  }

  /** `rest` begins with the escape of a low surrogate. */
  ghost predicate BeginsLow(rest: Str) {
    |rest| >= 6 && exists l: nat :: IsHexEscape(rest[..6], l) && 0xDC00 <= l < 0xE000
  }

  /** `x` is the escape of a high surrogate and the escape of a low one follows: these are one character. */
  ghost predicate Splits(x: Str, rest: Str) {
    BeginsLow(rest) && exists h: nat :: IsHexEscape(x, h) && 0xD800 <= h < 0xDC00
  }

  /** A text, character by character. */
  ghost predicate SpellsText(b: Str, t: Str)
    decreases |t|
  {
    if t == [] then b == [] else exists n | 0 < n <= |b| :: TakesChar(b, t, n) && SpellsText(b[n..], t[1..])
  }

  ghost predicate TakesChar(b: Str, t: Str, n: nat)
    requires n <= |b| && t != []
  {
    SpellsChar(b[..n], t[0]) && !Splits(b[..n], b[n..])
  }

  // ---------------------------------------------------------------- what the scanner accepts is spelled so

  lemma HexDetermined(x: Str, m: nat, n: nat)
    requires IsHexEscape(x, m) && IsHexEscape(x, n)
    ensures m == n
  {
    HexQuadExactly(x[2..], m);
    HexQuadExactly(x[2..], n);
    assert x[2..][..4] == x[2..];
  }

  lemma HexEscapeAt(s: Str, n: nat)
    requires |s| >= 2 && s[0] == 92 && s[1] == 117
    ensures HexQuad(s[2..]) == Some(n) <==> |s| >= 6 && IsHexEscape(s[..6], n)
  {
    HexQuadExactly(s[2..], n);
    if |s| >= 6 { assert s[..6][2..] == s[2..][..4]; }
    hide SpellsHex, HexQuad;
  }

  /** An escape that is taken: one of the eight letters, four digits, or a pair. */
  lemma EscapeFound(s: Str)
    requires s != [] && s[0] == 92 && Unescape(s[1..]).Some?
    ensures var (c, n) := Unescape(s[1..]).value; SpellsChar(s[..1 + n], c) && !Splits(s[..1 + n], s[1 + n..])
  {
    var t := s[1..];
    var (c, n) := Unescape(t).value;
    if t[0] != 117 {
      assert c == ESCAPES[t[0]];
      hide IsHexEscape, IsPair;
      NotSix(s[..1 + n]);
    } else {
      HexFound(s, c, n);
    }
  }

  lemma NotSix(x: Str)
    requires |x| == 2
    ensures forall rest :: !Splits(x, rest)
  {
  }

  lemma HexFound(s: Str, c: CodePoint, n: nat)
    requires |s| >= 2 && s[0] == 92 && s[1] == 117 && Unescape(s[1..]) == Some((c, n))
    ensures SpellsChar(s[..1 + n], c) && !Splits(s[..1 + n], s[1 + n..])
  {
    var t := s[1..];
    assert t[1..] == s[2..];
    var high := HexQuad(s[2..]).value;
    HexEscapeAt(s, high);
    var more := s[6..];
    if n == 11 {
      assert t[7..] == s[8..] == more[2..] && more[0] == t[5] && more[1] == t[6];
      var low := HexQuad(t[7..]).value;
      HexEscapeAt(more, low);
      assert s[..12][6..] == more[..6] && s[..12][..6] == s[..6];
      hide IsHexEscape, Unescape;
      assert IsPair(s[..12], high, low, c);
      NotLong(s[..12]);
    } else {
      hide SpellsHex;
      SingleFound(s, c);
    }
  }

  lemma NotLong(x: Str)
    requires |x| == 12
    ensures forall rest :: !Splits(x, rest)
  {
  }

  lemma SingleFound(s: Str, c: CodePoint)
    requires |s| >= 6 && s[0] == 92 && s[1] == 117 && Unescape(s[1..]) == Some((c, 5)) && IsHexEscape(s[..6], c)
    ensures !Splits(s[..6], s[6..])
  {
    var t, more := s[1..], s[6..];
    assert t[1..] == s[2..];
    HexEscapeAt(s, c);
    hide IsHexEscape, HexQuad;
    if Splits(s[..6], more) {
      var h: nat :| IsHexEscape(s[..6], h) && 0xD800 <= h < 0xDC00;
      HexDetermined(s[..6], h, c);
      var l: nat :| IsHexEscape(more[..6], l) && 0xDC00 <= l < 0xE000;
      EscapeHead(more[..6], l);
      assert t[7..] == more[2..] && t[5] == more[0] && t[6] == more[1];
      HexEscapeAt(more, l);
      assert false;
    }
  }

  lemma EscapeHead(x: Str, n: nat)
    requires IsHexEscape(x, n)
    ensures |x| == 6 && x[0] == 92 && x[1] == 117
  {
  }

  /** A text at the front of `s`, its closing quote, and what is after that. */
  ghost predicate TextThen(s: Str, t: Str, rest: Str) {
    |rest| < |s| && s[|s| - |rest| - 1] == 34 && s[|s| - |rest|..] == rest && SpellsText(s[..|s| - |rest| - 1], t)
  }

  lemma {:induction false} TextFound(s: Str)
    requires ParseChars(s).Ok?
    ensures TextThen(s, ParseChars(s).value.0, ParseChars(s).value.1)
    decreases |s|
  {
    var (t, rest) := ParseChars(s).value;
    if s[0] == QUOTE {
      assert s[..0] == [];
    } else if s[0] == BACKSLASH {
      var (c, k) := Unescape(s[1..]).value;
      EscapeFound(s);
      assert s[1..][k..] == s[1 + k..];
      TextFound(s[1 + k..]);
      hide Unescape, SpellsChar, Splits;
      TextLonger(s, 1 + k, c, t[1..], rest);
      assert t == [c] + t[1..];
    } else {
      TextFound(s[1..]);
      assert s[..1] == [s[0]] && SpellsChar(s[..1], s[0]) && !Splits(s[..1], s[1..]);
      hide SpellsChar, Splits;
      TextLonger(s, 1, s[0], t[1..], rest);
      assert t == [s[0]] + t[1..];
    }
  }

  lemma TextLonger(s: Str, n: nat, c: CodePoint, t: Str, rest: Str)
    requires 0 < n <= |s| && SpellsChar(s[..n], c) && !Splits(s[..n], s[n..]) && TextThen(s[n..], t, rest)
    ensures TextThen(s, [c] + t, rest)
  {
    hide SpellsChar;
    var k := |s| - |rest| - 1;
    var b, more := s[..k], s[n..];
    assert more[..k - n] == b[n..] && b[..n] == s[..n];
    assert s[k] == more[k - n] && s[k + 1..] == more[k + 1 - n..];
    if Splits(b[..n], b[n..]) { SplitsLonger(b[..n], b[n..], s[n..]); }
    hide Splits;
    assert ([c] + t)[0] == c && ([c] + t)[1..] == t;
    assert TakesChar(b, [c] + t, n) && SpellsText(b[n..], ([c] + t)[1..]);
  }

  lemma SplitsLonger(x: Str, a: Str, b: Str)
    requires Splits(x, a) && a <= b
    ensures Splits(x, b)
  {
    assert a[..6] == b[..6];
  }

  // ---------------------------------------------------------------- what is spelled so is accepted

  /** What follows the escape of a high surrogate does not make up a pair with it and can be read. */
  ghost predicate KeepsAlone(more: Str) {
    |more| >= 2 && more[0] == 92 && more[1] == 117
    ==> |more| >= 6 && exists l: nat :: IsHexEscape(more[..6], l) && !(0xDC00 <= l < 0xE000)
  }

  lemma HexTaken(x: Str, c: CodePoint, more: Str)
    requires IsHexEscape(x, c) && (0xD800 <= c < 0xDC00 ==> KeepsAlone(more))
    ensures Unescape((x + more)[1..]) == Some((c, 5))
  {
    var s := x + more;
    assert s[..6] == x && s[6..] == more;
    HexEscapeAt(s, c);
    var t := s[1..];
    assert t[1..] == s[2..] && t[0] == 117;
    hide HexQuad, IsHexEscape;
    if 0xD800 <= c < 0xDC00 && |more| >= 2 && more[0] == 92 && more[1] == 117 {
      var l: nat :| IsHexEscape(more[..6], l) && !(0xDC00 <= l < 0xE000);
      HexEscapeAt(more, l);
      assert t[5] == more[0] && t[6] == more[1] && t[7..] == more[2..];
    } else if |t| >= 7 {
      assert t[5] == more[0] && t[6] == more[1];
    }
  }

  lemma PairTaken(x: Str, h: nat, l: nat, c: CodePoint, more: Str)
    requires IsPair(x, h, l, c)
    ensures Unescape((x + more)[1..]) == Some((c, 11))
  {
    var s := x + more;
    EscapeHead(x[..6], h);
    EscapeHead(x[6..], l);
    PairParts(x, more);
    hide SpellsHex;
    HexEscapeAt(s, h);
    HexEscapeAt(s[6..], l);
    hide HexQuad, IsHexEscape;
    PairRead(s, h, l, c);
  }

  lemma PairParts(x: Str, more: Str)
    requires |x| == 12
    ensures var s := x + more;
      && |s| >= 12 && s[..6] == x[..6] && s[6..][..6] == x[6..] && s[0] == x[..6][0] && s[1] == x[..6][1]
      && s[6] == x[6..][0] && s[7] == x[6..][1]
  {
    var s := x + more;
    assert s[6..][..6] == x[6..];
    assert s[..6] == x[..6];
  }

  lemma PairRead(s: Str, h: nat, l: nat, c: CodePoint)
    requires |s| >= 12 && s[1] == 117 && s[6] == 92 && s[7] == 117
    requires HexQuad(s[2..]) == Some(h) && HexQuad(s[6..][2..]) == Some(l)
    requires 0xD800 <= h < 0xDC00 && 0xDC00 <= l < 0xE000 && c == 0x10000 + (h - 0xD800) * 1024 + (l - 0xDC00)
    ensures Unescape(s[1..]) == Some((c, 11))
  {
    hide HexQuad;
    var t := s[1..];
    assert t[1..] == s[2..] && t[7..] == s[6..][2..];
  }

  lemma LetterTaken(x: Str, c: CodePoint, more: Str)
    requires |x| == 2 && x[0] == 92 && x[1] in ESCAPES && ESCAPES[x[1]] == c
    ensures Unescape((x + more)[1..]) == Some((c, 1))
  {
    assert (x + more)[1..][0] == x[1];
  }

  /** Escapes are taken as long as they are. */
  lemma EscapeTaken(x: Str, c: CodePoint, more: Str)
    requires SpellsChar(x, c) && x[0] == 92
    requires IsHexEscape(x, c) && 0xD800 <= c < 0xDC00 ==> KeepsAlone(more)
    ensures |x| > 1 && Unescape((x + more)[1..]) == Some((c, |x| - 1))
  {
    hide IsHexEscape, Unescape, ESCAPES, KeepsAlone;
    if IsHexEscape(x, c) {
      EscapeHead(x, c);
      HexTaken(x, c, more);
    } else if h: nat, l: nat :| IsPair(x, h, l, c) {
      PairTaken(x, h, l, c, more);
    } else {
      LetterTaken(x, c, more);
    }
  }

  lemma CharHead(x: Str, c: CodePoint)
    requires SpellsChar(x, c)
    ensures x != [] && x[0] != 34 && x[0] >= 0x20
    ensures x[0] != 92 ==> x == [c]
    ensures |x| > 1 ==> x[0] == 92
  {
    if |x| == 12 && x != [c] && (exists h: nat, l: nat :: IsPair(x, h, l, c)) {
      var h: nat, l: nat :| IsPair(x, h, l, c);
      EscapeHead(x[..6], h);
    }
  }

  /** A character that begins with `\u` is a hexadecimal escape there. */
  lemma UnicodeHead(x: Str, c: CodePoint)
    requires SpellsChar(x, c) && |x| >= 2 && x[1] == 117
    ensures |x| >= 6 && exists l: nat :: IsHexEscape(x[..6], l)
  {
    hide SpellsHex;
    if IsHexEscape(x, c) {
      assert x[..6] == x;
    } else {
      var h: nat, l: nat :| IsPair(x, h, l, c);
    }
  }

  /** After a character that is not split from its pair, the rest of the text can be read. */
  lemma RestKeepsAlone(b: Str, t: Str, rest: Str)
    requires SpellsText(b, t) && !BeginsLow(b)
    ensures KeepsAlone(b + [QUOTE] + rest)
  {
    var more := b + [QUOTE] + rest;
    if |more| >= 2 && more[0] == 92 && more[1] == 117 {
      assert more[0] == if b == [] then QUOTE else b[0];
      assert t != [];
      var n :| 0 < n <= |b| && TakesChar(b, t, n) && SpellsText(b[n..], t[1..]);
      var x := b[..n];
      CharHead(x, t[0]);
      assert x[0] == b[0] == more[0];
      EscapeIsLong(x, t[0]);
      assert x[1] == b[1] == more[1];
      UnicodeHead(x, t[0]);
      assert x[..6] == b[..6] == more[..6];
    }
  }

  lemma EscapeIsLong(x: Str, c: CodePoint)
    requires SpellsChar(x, c) && x[0] == 92
    ensures |x| >= 2
  {
  }

  lemma EscapeStep(x: Str, c: CodePoint, more: Str, t: Str, rest: Str)
    requires |x| > 1 && x[0] == BACKSLASH && Unescape((x + more)[1..]) == Some((c, |x| - 1))
    requires ParseChars(more) == Ok((t, rest))
    ensures ParseChars(x + more) == Ok(([c] + t, rest))
  {
    hide Unescape;
    var s := x + more;
    assert s[0] == x[0] && s[1 + (|x| - 1)..] == more;
  }

  lemma RawStep(c: CodePoint, more: Str, t: Str, rest: Str)
    requires c >= 0x20 && c != QUOTE && c != BACKSLASH && ParseChars(more) == Ok((t, rest))
    ensures ParseChars([c] + more) == Ok(([c] + t, rest))
  {
    assert ([c] + more)[1..] == more;
  }

  /** One character and what is read after it. */
  lemma CharStep(x: Str, c: CodePoint, more: Str, t: Str, rest: Str)
    requires SpellsChar(x, c) && ParseChars(more) == Ok((t, rest))
    requires IsHexEscape(x, c) && 0xD800 <= c < 0xDC00 ==> KeepsAlone(more)
    ensures ParseChars(x + more) == Ok(([c] + t, rest))
  {
    hide IsHexEscape, KeepsAlone, ParseChars, Unescape;
    CharHead(x, c);
    if x[0] == 92 {
      EscapeTaken(x, c, more);
      EscapeStep(x, c, more, t, rest);
    } else {
      RawStep(c, more, t, rest);
    }
  }

  lemma AloneAfter(x: Str, c: CodePoint, b: Str, t: Str, rest: Str)
    requires !Splits(x, b) && SpellsText(b, t) && IsHexEscape(x, c) && 0xD800 <= c < 0xDC00
    ensures KeepsAlone(b + [QUOTE] + rest)
  {
    hide IsHexEscape, SpellsText, KeepsAlone;
    RestKeepsAlone(b, t, rest);
  }

  /** The scanner takes every spelling of a text, up to its closing quote. */
  lemma {:induction false} TextTaken(b: Str, t: Str, rest: Str)
    requires SpellsText(b, t)
    ensures ParseChars(b + [QUOTE] + rest) == Ok((t, rest))
    decreases |t|
  {
    hide SpellsChar, Splits, IsHexEscape, KeepsAlone;
    if t == [] {
      NothingTaken(rest);
    } else {
      var n :| 0 < n <= |b| && TakesChar(b, t, n) && SpellsText(b[n..], t[1..]);
      var x, c := b[..n], t[0];
      TextTaken(b[n..], t[1..], rest);
      hide ParseChars, SpellsText;
      if IsHexEscape(x, c) && 0xD800 <= c < 0xDC00 { AloneAfter(x, c, b[n..], t[1..], rest); }
      CharStep(x, c, b[n..] + [QUOTE] + rest, t[1..], rest);
      assert b + [QUOTE] + rest == x + (b[n..] + [QUOTE] + rest) && t == [c] + t[1..];
    }
  }

  lemma NothingTaken(rest: Str)
    ensures ParseChars([] + [QUOTE] + rest) == Ok(([], rest))
  {
    assert ([] + [QUOTE] + rest)[1..] == rest;
  }

  // ---------------------------------------------------------------- what the encoder writes

  /** Escapes with small hexadecimal digits only. */
  predicate SmallDigits(x: Str) {
    |x| == 6 ==> forall i | 2 <= i < 6 :: x[i] in LOWER_HEX
  }

  lemma ShortEscapes(c: CodePoint)
    requires c in {8, 9, 10, 12, 13, 34, 92}
    ensures |EscapeChar(c)| == 2 && EscapeChar(c)[0] == 92
    ensures EscapeChar(c)[1] in ESCAPES && ESCAPES[EscapeChar(c)[1]] == c
  {
  }

  lemma LetterDetermined(x: CodePoint, y: CodePoint)
    requires x in ESCAPES && y in ESCAPES && ESCAPES[x] == ESCAPES[y]
    ensures x == y
  {
  }

  lemma DigitsDetermined(a: nat, b: nat, c: nat, d: nat, p: nat, q: nat, r: nat, t: nat)
    requires a < 16 && b < 16 && c < 16 && d < 16 && p < 16 && q < 16 && r < 16 && t < 16
    requires a * 4096 + b * 256 + c * 16 + d == p * 4096 + q * 256 + r * 16 + t
    ensures a == p && b == q && c == r && d == t
  {
  }

  lemma PartsOf(h: Str, n: nat) returns (a: nat, b: nat, c: nat, d: nat)
    requires SpellsHex(h, n)
    ensures HexParts(h, a, b, c, d) && n == a * 4096 + b * 256 + c * 16 + d
  {
    var p: nat, q: nat, r: nat, t: nat :| HexParts(h, p, q, r, t) && n == p * 4096 + q * 256 + r * 16 + t;
    a, b, c, d := p, q, r, t;
  }

  lemma SameSmall(g: Str, h: Str, a: nat, b: nat, c: nat, d: nat)
    requires HexParts(g, a, b, c, d) && HexParts(h, a, b, c, d)
    requires forall i | 0 <= i < 4 :: g[i] in LOWER_HEX && h[i] in LOWER_HEX
    ensures g == h
  {
    hide IsHexOf;
    SmallDigit(g[0], h[0], a);
    SmallDigit(g[1], h[1], b);
    SmallDigit(g[2], h[2], c);
    SmallDigit(g[3], h[3], d);
  }

  /** Small digits spell a number in one way. */
  lemma SmallDetermined(x: Str, y: Str, n: nat)
    requires IsHexEscape(x, n) && IsHexEscape(y, n) && SmallDigits(x) && SmallDigits(y)
    ensures x == y
  {
    hide HexParts, SpellsHex;
    var a, b, c, d := PartsOf(x[2..], n);
    var p, q, r, t := PartsOf(y[2..], n);
    SmallParts(x[2..], a, b, c, d);
    SmallParts(y[2..], p, q, r, t);
    DigitsDetermined(a, b, c, d, p, q, r, t);
    SameSmall(x[2..], y[2..], a, b, c, d);
    assert x == [x[0], x[1]] + x[2..] && y == [y[0], y[1]] + y[2..];
  }

  lemma SmallParts(h: Str, a: nat, b: nat, c: nat, d: nat)
    requires HexParts(h, a, b, c, d)
    ensures |h| == 4 && a < 16 && b < 16 && c < 16 && d < 16
  {
  }

  lemma SmallDigit(x: CodePoint, y: CodePoint, n: nat)
    requires IsHexOf(x, n) && IsHexOf(y, n) && x in LOWER_HEX && y in LOWER_HEX
    ensures x == y
  {
  }

  lemma ControlEscape(c: CodePoint)
    requires c < 0x20 && c !in {8, 9, 10, 12, 13}
    ensures IsHexEscape(EscapeChar(c), c) && SmallDigits(EscapeChar(c))
  {
    var x := EscapeChar(c);
    var u := Lit("\\u00");
    assert u == [92, 117, 48, 48];
    assert x == u + [HexDigit(c / 16), HexDigit(c % 16)];
    assert x[2..] == [48, 48, HexDigit(c / 16), HexDigit(c % 16)];
    assert HexParts(x[2..], 0, 0, c / 16, c % 16);
  }

  lemma PlainEscape(c: CodePoint)
    requires c >= 0x20 && c != 34 && c != 92
    ensures EscapeChar(c) == [c]
  {
  }

  /** A spelling has one, two, six or twelve characters. */
  lemma SpellingLengths(x: Str, c: CodePoint)
    ensures SpellsChar(x, c) ==> |x| == 1 || |x| == 2 || |x| == 6 || |x| == 12
    ensures |x| <= 1 ==> (SpellsChar(x, c) <==> x == [c] && c >= 0x20 && c != 34 && c != 92)
    ensures |x| == 2 ==> (SpellsChar(x, c) <==> x[0] == 92 && x[1] in ESCAPES && ESCAPES[x[1]] == c)
    ensures |x| == 6 ==> (SpellsChar(x, c) <==> IsHexEscape(x, c))
  {
    hide SpellsHex;
  }

  lemma EscapedShort(x: Str, c: CodePoint)
    requires c in {8, 9, 10, 12, 13, 34, 92}
    ensures x == EscapeChar(c) <==> SpellsChar(x, c) && |x| <= |EscapeChar(c)|
  {
    ShortEscapes(c);
    SpellingLengths(x, c);
    var e := EscapeChar(c);
    hide EscapeChar, SpellsChar, IsHexEscape;
    if |x| == 2 && x[0] == 92 && x[1] in ESCAPES && ESCAPES[x[1]] == c {
      LetterDetermined(x[1], e[1]);
      assert x == [x[0], x[1]] && e == [e[0], e[1]];
    }
  }

  lemma EscapedControl(x: Str, c: CodePoint)
    requires c < 0x20 && c !in {8, 9, 10, 12, 13}
    ensures x == EscapeChar(c) <==> SpellsChar(x, c) && |x| <= 6 && SmallDigits(x)
  {
    ControlEscape(c);
    SpellingLengths(x, c);
    SpellingLengths(EscapeChar(c), c);
    assert |EscapeChar(c)| == 6 by { assert IsHexEscape(EscapeChar(c), c); }
    hide EscapeChar, SpellsChar, SpellsHex;
    if |x| == 2 { LettersAre(x[1]); }
    if IsHexEscape(x, c) && SmallDigits(x) { SmallDetermined(x, EscapeChar(c), c); }
  }

  lemma LettersAre(x: CodePoint)
    ensures x in ESCAPES ==> ESCAPES[x] in {8, 9, 10, 12, 13, 34, 92, 47}
  {
  }

  /** The encoder writes each character in its shortest spelling, with small hexadecimal digits, and only so. */
  lemma EscapedExactly(x: Str, c: CodePoint)
    ensures x == EscapeChar(c) <==> SpellsChar(x, c) && |x| <= |EscapeChar(c)| && SmallDigits(x)
  {
    hide EscapeChar, SpellsChar, IsHexEscape;
    if c < 0x20 && c !in {8, 9, 10, 12, 13} {
      ControlEscape(c);
      EscapedControl(x, c);
      EscapedControl(EscapeChar(c), c);
      HexEscapeLong(EscapeChar(c), c);
    } else if c in {8, 9, 10, 12, 13, 34, 92} {
      EscapedShort(x, c);
      ShortEscapes(c);
    } else {
      PlainEscape(c);
      SpellingLengths(x, c);
    }
  }

  lemma HexEscapeLong(x: Str, n: nat)
    requires IsHexEscape(x, n)
    ensures |x| == 6
  {
  }
}
