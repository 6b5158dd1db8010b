/** What is printed is read back. */
module JsonRoundTrip {
  // The scanner returns exactly the printed value and leaves exactly the text that followed it.

  import opened Text
  import opened Json

  /** True when the text after a number cannot continue it. */
  predicate Stops(rest: Str) {
    rest == [] || !(IsDigit(rest[0]) || rest[0] in [POINT, 'e' as int, 'E' as int, PLUS, MINUS])
  }

  // ---------------------------------------------------------------- numbers

  lemma {:induction false} DigitsRead(n: nat)
    ensures DigitsValue(Digits(n)) == n
    ensures n > 0 ==> Digits(n)[0] != ZERO
    ensures n == 0 ==> Digits(n) == [ZERO]
  {
    var d := Digits(n);
    if n < 10 {
      assert d[..0] == [];
      assert DigitsValue(d) == DigitsValue(d[..0]) * 10 + n;
    } else {
      DigitsRead(n / 10);
      assert d[..|d| - 1] == Digits(n / 10);
    }
  }

  lemma {:induction false} DigitRunStops(a: Str, b: Str)
    requires Stops(b)
    ensures DigitRun(a + b) == DigitRun(a)
  {
    if a == [] {
      assert a + b == b;
    } else {
      assert (a + b)[0] == a[0] && (a + b)[1..] == a[1..] + b;
      DigitRunStops(a[1..], b);
    }
  }

  lemma {:induction false} DigitRunAll(a: Str)
    requires forall i | 0 <= i < |a| :: IsDigit(a[i])
    ensures DigitRun(a) == |a|
  {
    if a != [] { DigitRunAll(a[1..]); }
  }

  lemma PartsStop(a: Str, b: Str)
    requires Stops(b)
    ensures IntegerLength(a + b) == IntegerLength(a)
    ensures FractionLength(a + b) == FractionLength(a)
    ensures ExponentLength(a + b) == ExponentLength(a)
  {
    if a == [] {
      assert a + b == b;
      NoParts(b);
    } else {
      hide DigitRun, Stops;
      FirstTwoStop(a, b);
      IntegerStops(a, b);
      ExponentStops(a, b);
    }
  }

  lemma NoParts(b: Str)
    requires Stops(b)
    ensures IntegerLength(b) == 0 && FractionLength(b) == 0 && ExponentLength(b) == 0
    ensures IntegerLength([]) == 0 && FractionLength([]) == 0 && ExponentLength([]) == 0
  {
  }

  /** The digits after the first and the second character. */
  lemma FirstTwoStop(a: Str, b: Str)
    requires Stops(b) && a != []
    ensures (a + b)[0] == a[0] && DigitRun(a + b) == DigitRun(a) && DigitRun((a + b)[1..]) == DigitRun(a[1..])
    ensures |a| > 1 ==> (a + b)[1] == a[1] && DigitRun((a + b)[2..]) == DigitRun(a[2..])
    ensures |a| == 1 && b != [] ==> (a + b)[1] == b[0] && b[0] != PLUS && b[0] != MINUS && !IsDigit(b[0])
  {
    hide DigitRun;
    DigitRunStops(a, b);
    assert (a + b)[1..] == a[1..] + b;
    DigitRunStops(a[1..], b);
    if |a| > 1 {
      assert (a + b)[2..] == a[2..] + b;
      DigitRunStops(a[2..], b);
    }
  }

  lemma IntegerStops(a: Str, b: Str)
    requires a != [] && (a + b)[0] == a[0] && DigitRun(a + b) == DigitRun(a)
    requires DigitRun((a + b)[1..]) == DigitRun(a[1..])
    ensures IntegerLength(a + b) == IntegerLength(a) && FractionLength(a + b) == FractionLength(a)
  {
    hide DigitRun;
  }

  lemma ExponentStops(a: Str, b: Str)
    requires a != [] && (a + b)[0] == a[0] && DigitRun((a + b)[1..]) == DigitRun(a[1..])
    requires |a| > 1 ==> (a + b)[1] == a[1] && DigitRun((a + b)[2..]) == DigitRun(a[2..])
    requires |a| == 1 && b != [] ==> (a + b)[1] == b[0] && b[0] != PLUS && b[0] != MINUS && !IsDigit(b[0])
    ensures ExponentLength(a + b) == ExponentLength(a)
  {
    hide DigitRun;
    assert |a + b| == |a| + |b|;
  }

  lemma DropConcat(a: Str, b: Str, k: nat)
    requires k <= |a|
    ensures (a + b)[k..] == a[k..] + b
  {
  }

  lemma TailStops(a: Str, b: Str)
    requires Stops(b)
    ensures TailLength(a + b) == TailLength(a)
  {
    hide FractionLength, ExponentLength;
    PartsStop(a, b);
    var frac := FractionLength(a);
    DropConcat(a, b, frac);
    PartsStop(a[frac..], b);
  }

  /** A number is scanned the same whatever follows it, as long as that cannot continue it. */
  lemma ScanStops(a: Str, b: Str)
    requires Stops(b) && a != []
    ensures ScanNumber(a + b) == ScanNumber(a)
  {
    hide IntegerLength, TailLength;
    var m := ScanNumber(a);
    DropConcat(a, b, m.sign);
    PartsStop(a[m.sign..], b);
    DropConcat(a[m.sign..], b, m.whole);
    TailStops(a[m.sign..][m.whole..], b);
  }

  lemma ScanInt(n: int)
    ensures var p := PrintInt(n); var sign := if n < 0 then 1 else 0;
      ScanNumber(p) == Numeral(sign, |p| - sign, 0) && DigitsValue(p[sign..]) == (if n < 0 then -n else n)
  {
    var p := PrintInt(n);
    var sign := if n < 0 then 1 else 0;
    var d := Digits(if n < 0 then -n else n);
    assert p[sign..] == d;
    DigitsRead(if n < 0 then -n else n);
    DigitRunAll(d);
    assert p[|p|..] == [];
  }

  lemma ParseIntPrinted(n: int, rest: Str, constants: bool)
    requires IntFits(n) && Stops(rest)
    ensures ParseNumber(PrintInt(n) + rest, constants) == Ok((Int(n), rest))
  {
    var p := PrintInt(n);
    NumberIsNoConstant(p + rest, if n < 0 then 1 else 0);
    ScanInt(n);
    ScanStops(p, rest);
    var m := ScanNumber(p);
    assert (p + rest)[m.sign..][..m.whole] == p[m.sign..];
    assert (p + rest)[m.Length()..] == rest;
  }

  /** What begins with a digit, or with a minus sign and a digit, is not a constant. */
  lemma NumberIsNoConstant(s: Str, sign: nat)
    requires sign < |s| && IsDigit(s[sign]) && (sign == 0 || (sign == 1 && s[0] == MINUS))
    ensures ConstantLength(s) == 0
  {
    BeginsAt(s, "NaN", 0);
    BeginsAt(s, "Infinity", 0);
    BeginsAt(s, "-Infinity", 0);
    BeginsAt(s, "-Infinity", 1);
    hide Begins;
  }

  lemma BeginsAt(s: Str, word: string, k: nat)
    requires k < |word|
    ensures Begins(s, word) ==> k < |s| && s[k] == word[k] as int
  {
    if Begins(s, word) { assert s[..|word|][k] == s[k] && Lit(word)[k] == word[k] as int; }
  }

  lemma ConstantFirst(s: Str)
    requires ConstantLength(s) > 0
    ensures s != [] && (s[0] == 78 || s[0] == 73 || s[0] == MINUS)
  {
    BeginsAt(s, "NaN", 0);
    BeginsAt(s, "Infinity", 0);
    BeginsAt(s, "-Infinity", 0);
    hide Begins;
  }

  lemma ParseFloatPrinted(f: Str, rest: Str, constants: bool)
    requires IsFloatSpelling(f) && Stops(rest)
    ensures ParseNumber(f + rest, constants) == Ok((Float(f), rest))
  {
    ScanStops(f, rest);
    var m := ScanNumber(f);
    assert f[m.sign..][0] == f[m.sign] == (f + rest)[m.sign];
    NumberIsNoConstant(f + rest, m.sign);
    assert (f + rest)[..|f|] == f && (f + rest)[|f|..] == rest;
  }

  // ---------------------------------------------------------------- strings

  lemma UnescapePrinted(c: CodePoint, rest: Str)
    requires EscapeChar(c)[0] == BACKSLASH
    ensures Unescape((EscapeChar(c) + rest)[1..]) == Some((c, |EscapeChar(c)| - 1))
  {
    var e := EscapeChar(c);
    var t := (e + rest)[1..];
    assert forall i | 0 <= i < |e| - 1 :: t[i] == e[i + 1];
    if c < 0x20 && |e| == 6 {
      assert e[1] == 'u' as int && e[2] == ZERO && e[3] == ZERO;
      assert t[1..][0] == e[2] && t[1..][1] == e[3] && t[1..][2] == e[4] && t[1..][3] == e[5];
      assert HexQuad(t[1..]) == Some(c / 16 * 16 + c % 16);
    }
  }

  lemma ParseCharsStep(c: CodePoint, more: Str, cs: Str, rest: Str)
    requires ParseChars(more) == Ok((cs, rest))
    ensures ParseChars(EscapeChar(c) + more) == Ok(([c] + cs, rest))
  {
    var e := EscapeChar(c);
    var s := e + more;
    assert s[0] == e[0] && s[|e|..] == more;
    if e[0] == BACKSLASH {
      UnescapePrinted(c, more);
    }
  }

  lemma {:induction false} ParseCharsPrinted(s: Str, rest: Str)
    ensures ParseChars(EscapeChars(s) + [QUOTE] + rest) == Ok((s, rest))
  {
    if s == [] {
      var all := EscapeChars(s) + [QUOTE] + rest;
      assert all[0] == QUOTE && all[1..] == rest;
    } else {
      var more := EscapeChars(s[1..]) + [QUOTE] + rest;
      ParseCharsPrinted(s[1..], rest);
      ParseCharsStep(s[0], more, s[1..], rest);
      assert EscapeChars(s) + [QUOTE] + rest == EscapeChar(s[0]) + more;
      assert [s[0]] + s[1..] == s;
    }
  }

  // ---------------------------------------------------------------- values

  /** The first character of a printed value; it decides the branch of the scanner. */
  lemma PrintHead(v: Json, constants: bool)
    requires Readable(v, constants)
    ensures Print(v) != []
    ensures var h := Print(v)[0]; !IsSpace(h) && h != 0xFEFF && h != RBRACKET && h != RBRACE
    ensures v.Int? || (v.Float? && IsFloatSpelling(v.spelling)) ==> Print(v)[0] == MINUS || IsDigit(Print(v)[0])
  {
    match v
    case Float(f) =>
      var m := ScanNumber(f);
      if IsFloatSpelling(f) {
        if m.sign == 0 { assert f[m.sign..][0] == f[0]; }
      } else {
        ConstantFirst(f);
      }
    case _ =>
  }

  /** Without the constants the two notions are one. */
  lemma {:induction false} SpellableIsReadable(v: Json)
    ensures Readable(v, false) <==> Spellable(v)
    ensures Spellable(v) ==> Readable(v, true)
    decreases v
  {
    match v
    case Arr(items) =>
      forall i | 0 <= i < |items|
        ensures (Readable(items[i], false) <==> Spellable(items[i]))
        ensures (Spellable(items[i]) ==> Readable(items[i], true))
      {
        SpellableIsReadable(items[i]);
      }
    case Obj(fields) =>
      forall i | 0 <= i < |fields|
        ensures Readable(fields[i].value, false) <==> Spellable(fields[i].value)
        ensures Spellable(fields[i].value) ==> Readable(fields[i].value, true)
      {
        SpellableIsReadable(fields[i].value);
      }
    case _ =>
  }

  predicate NeedsStop(v: Json) {
    v.Int? || v.Float?
  }

  lemma BeginsHead(s: Str, word: string)
    requires s != [] && word != "" && s[0] != word[0] as int
    ensures !Begins(s, word)
  {
    if |word| <= |s| {
      assert s[..|word|][0] == s[0] && Lit(word)[0] == word[0] as int;
    }
  }

  lemma NumberBranch(s: Str, d: Dialect)
    requires s != [] && (s[0] == MINUS || IsDigit(s[0]))
    ensures ParseValue(s, d) == ParseNumber(s, d.constants)
  {
    BeginsHead(s, "null");
    BeginsHead(s, "true");
    BeginsHead(s, "false");
  }

  lemma KeywordBranch(v: Json, rest: Str, d: Dialect)
    requires v.Null? || v.Bool?
    ensures ParseValue(Print(v) + rest, d) == Ok((v, rest))
  {
    var p := Print(v);
    var s := p + rest;
    assert s[..|p|] == p && s[|p|..] == rest;
    assert s[0] == p[0];
    if v == Bool(true) {
      BeginsHead(s, "null");
    } else if v == Bool(false) {
      BeginsHead(s, "null");
      BeginsHead(s, "true");
    }
  }

  lemma ConstantBranch(f: Str, rest: Str, d: Dialect)
    requires IsConstant(f) && d.constants
    ensures ParseValue(f + rest, d) == Ok((Float(f), rest))
  {
    ConstantFirst(f);
    var s := f + rest;
    assert s[0] == f[0] && s[..|f|] == f && s[|f|..] == rest && f[..|f|] == f;
    BeginsHead(s, "null");
    BeginsHead(s, "true");
    BeginsHead(s, "false");
    ConstantStays(f, rest);
  }

  lemma ConstantStays(f: Str, rest: Str)
    requires ConstantLength(f) > 0
    ensures ConstantLength(f + rest) == ConstantLength(f)
  {
    var s := f + rest;
    BeginsStays(f, rest, "NaN");
    BeginsStays(f, rest, "Infinity");
    BeginsStays(f, rest, "-Infinity");
    BeginsAt(f, "Infinity", 0);
    BeginsAt(f, "-Infinity", 0);
    BeginsAt(s, "NaN", 0);
    BeginsAt(s, "Infinity", 0);
    assert s[0] == f[0];
    hide Begins;
  }

  lemma BeginsStays(f: Str, rest: Str, word: string)
    ensures Begins(f, word) ==> Begins(f + rest, word)
  {
    if Begins(f, word) { assert (f + rest)[..|word|] == f[..|word|]; }
  }

  lemma TextBranch(t: Str, rest: Str, d: Dialect)
    ensures ParseValue(PrintText(t) + rest, d) == Ok((Text(t), rest))
  {
    var s := PrintText(t) + rest;
    assert s[0] == QUOTE && s[1..] == EscapeChars(t) + [QUOTE] + rest;
    ParseCharsPrinted(t, rest);
  }

  lemma ItemsLast(s: Str, v: Json, after: Str, rest: Str, d: Dialect)
    requires after == [RBRACKET] + rest
    requires ParseValue(s, d) == Ok((v, after))
    ensures ParseItems(s, d) == Ok(([v], rest))
  {
    assert after[1..] == rest;
  }

  lemma ItemsMore(s: Str, v: Json, after: Str, more: Str, items: seq<Json>, rest: Str, d: Dialect)
    requires after == [COMMA] + more && SkipSpace(more) == more
    requires ParseValue(s, d) == Ok((v, after))
    requires ParseItems(more, d) == Ok((items, rest))
    ensures ParseItems(s, d) == Ok(([v] + items, rest))
  {
    assert after[1..] == more;
  }

  /** The key, the colon and the value of one entry, up to what follows the value. */
  lemma FieldHead(s: Str, f: Field, value: Str)
    requires s == PrintText(f.key) + ([COLON] + value)
    ensures s != [] && SkipSpace(s) == s && s[0] == QUOTE
    ensures ParseChars(s[1..]) == Ok((f.key, [COLON] + value))
    ensures SkipSpace([COLON] + value) == [COLON] + value && ([COLON] + value)[1..] == value
  {
    ParseCharsPrinted(f.key, [COLON] + value);
    assert s[1..] == EscapeChars(f.key) + [QUOTE] + ([COLON] + value);
  }

  lemma FieldParts(s: Str, f: Field, after: Str)
    requires s == PrintField(f) + after
    ensures s == PrintText(f.key) + ([COLON] + (Print(f.value) + after))
  {
  }

  lemma FieldsLast(s: Str, f: Field, after: Str, rest: Str, d: Dialect)
    requires s == PrintField(f) + after && after == [RBRACE] + rest
    requires SkipSpace(Print(f.value) + after) == Print(f.value) + after
    requires ParseValue(Print(f.value) + after, d) == Ok((f.value, after))
    ensures s != [] && SkipSpace(s) == s && s[0] != RBRACE && ParseFields(s, d) == Ok(([f], rest))
  {
    hide Print, PrintField, PrintText, ParseValue, ParseChars;
    FieldParts(s, f, after);
    FieldHead(s, f, Print(f.value) + after);
    assert after[1..] == rest;
  }

  lemma FieldsMore(s: Str, f: Field, after: Str, more: Str, fields: seq<Field>, rest: Str, d: Dialect)
    requires s == PrintField(f) + after && after == [COMMA] + more && SkipSpace(more) == more
    requires SkipSpace(Print(f.value) + after) == Print(f.value) + after
    requires ParseValue(Print(f.value) + after, d) == Ok((f.value, after))
    requires ParseFields(more, d) == Ok((fields, rest))
    ensures s != [] && SkipSpace(s) == s && s[0] != RBRACE && ParseFields(s, d) == Ok(([f] + fields, rest))
  {
    hide Print, PrintField, PrintText, ParseValue, ParseChars;
    FieldParts(s, f, after);
    FieldHead(s, f, Print(f.value) + after);
    assert after[1..] == more;
  }

  lemma ArrayBranch(inner: Str, items: seq<Json>, rest: Str, d: Dialect)
    requires SkipSpace(inner) == inner && inner != []
    requires if items == [] then inner == [RBRACKET] + rest
             else inner[0] != RBRACKET && ParseItems(inner, d) == Ok((items, rest))
    ensures ParseValue([LBRACKET] + inner, d) == Ok((Arr(items), rest))
  {
    var s := [LBRACKET] + inner;
    assert s[0] == LBRACKET && s[1..] == inner;
    if items == [] { assert inner[1..] == rest; }
  }

  lemma ObjectBranch(inner: Str, fields: seq<Field>, rest: Str, d: Dialect)
    requires SkipSpace(inner) == inner && inner != []
    requires DistinctKeys(fields)
    requires if fields == [] then inner == [RBRACE] + rest
             else inner[0] != RBRACE && ParseFields(inner, d) == Ok((fields, rest))
    ensures ParseValue([LBRACE] + inner, d) == Ok((Obj(fields), rest))
  {
    var s := [LBRACE] + inner;
    assert s[0] == LBRACE && s[1..] == inner;
    if fields == [] { assert inner[1..] == rest; }
  }

  lemma NumberPrinted(v: Json, rest: Str, d: Dialect)
    requires NeedsStop(v) && Readable(v, d.constants) && Stops(rest)
    ensures ParseValue(Print(v) + rest, d) == Ok((v, rest))
  {
    hide ParseValue, ParseNumber, ScanNumber, Stops, ConstantLength, Digits;
    PrintHead(v, d.constants);
    assert (Print(v) + rest)[0] == Print(v)[0];
    match v
    case Int(n) =>
      NumberBranch(Print(v) + rest, d);
      ParseIntPrinted(n, rest, d.constants);
    case Float(f) =>
      if IsFloatSpelling(f) {
        NumberBranch(f + rest, d);
        ParseFloatPrinted(f, rest, d.constants);
      } else {
        ConstantBranch(f, rest, d);
      }
  }

  /**
   The main round trip, over arbitrary trees and in every dialect: scanning a printed value followed by
   anything gives that value and leaves that text.
   */
  lemma {:induction false} ParsePrinted(v: Json, rest: Str, d: Dialect)
    requires UniqueKeys(v) && Readable(v, d.constants)
    requires NeedsStop(v) ==> Stops(rest)
    ensures ParseValue(Print(v) + rest, d) == Ok((v, rest))
    decreases v, 1
  {
    hide ParseValue, Stops;
    match v
    case Null => KeywordBranch(v, rest, d);
    case Bool(_) => KeywordBranch(v, rest, d);
    case Int(_) => NumberPrinted(v, rest, d);
    case Float(_) => NumberPrinted(v, rest, d);
    case Text(t) => TextBranch(t, rest, d);
    case Arr(items) =>
      var inner := PrintItems(items) + [RBRACKET] + rest;
      assert Print(v) + rest == [LBRACKET] + inner;
      if items == [] {
        assert inner == [RBRACKET] + rest;
      } else {
        ParseItemsPrinted(items, rest, d);
      }
      ArrayBranch(inner, items, rest, d);
    case Obj(fields) =>
      var inner := PrintFields(fields) + [RBRACE] + rest;
      assert Print(v) + rest == [LBRACE] + inner;
      if fields == [] {
        assert inner == [RBRACE] + rest;
      } else {
        ParseFieldsPrinted(fields, rest, d);
      }
      ObjectBranch(inner, fields, rest, d);
  }

  lemma HeadOfPrinted(v: Json, after: Str, constants: bool)
    requires Readable(v, constants)
    ensures var s := Print(v) + after; s != [] && SkipSpace(s) == s && s[0] == Print(v)[0]
    ensures Print(v)[0] != RBRACKET && Print(v)[0] != RBRACE
  {
    PrintHead(v, constants);
  }

  lemma Regroup(head: Str, sep: CodePoint, tail: Str, close: CodePoint, rest: Str)
    ensures head + [sep] + tail + [close] + rest == head + ([sep] + (tail + [close] + rest))
    ensures head + [close] + rest == head + ([close] + rest)
  {
  }

  lemma PrintItemsParts(items: seq<Json>, rest: Str)
    requires items != []
    ensures |items| == 1 ==>
      items == [items[0]] && PrintItems(items) + [RBRACKET] + rest == Print(items[0]) + ([RBRACKET] + rest)
    ensures |items| > 1 ==>
      PrintItems(items) + [RBRACKET] + rest
        == Print(items[0]) + ([COMMA] + (PrintItems(items[1..]) + [RBRACKET] + rest))
  {
    hide Print;
    Regroup(Print(items[0]), COMMA, PrintItems(items[1..]), RBRACKET, rest);
  }

  lemma PrintFieldsParts(fields: seq<Field>, rest: Str)
    requires fields != []
    ensures |fields| == 1 ==>
      fields == [fields[0]] && PrintFields(fields) + [RBRACE] + rest == PrintField(fields[0]) + ([RBRACE] + rest)
    ensures |fields| > 1 ==>
      PrintFields(fields) + [RBRACE] + rest
        == PrintField(fields[0]) + ([COMMA] + (PrintFields(fields[1..]) + [RBRACE] + rest))
  {
    hide PrintField;
    Regroup(PrintField(fields[0]), COMMA, PrintFields(fields[1..]), RBRACE, rest);
  }

  lemma {:induction false} ParseItemsPrinted(items: seq<Json>, rest: Str, d: Dialect)
    requires items != [] && forall i | 0 <= i < |items| :: UniqueKeys(items[i]) && Readable(items[i], d.constants)
    ensures var s := PrintItems(items) + [RBRACKET] + rest;
      s != [] && SkipSpace(s) == s && s[0] != RBRACKET && ParseItems(s, d) == Ok((items, rest))
    decreases items, 0
  {
    hide *;
    var head, s := items[0], PrintItems(items) + [RBRACKET] + rest;
    PrintItemsParts(items, rest);
    if |items| == 1 {
      var after := [RBRACKET] + rest;
      HeadOfPrinted(head, after, d.constants);
      StopsAt(RBRACKET, rest);
      ParsePrinted(head, after, d);
      ItemsLast(s, head, after, rest, d);
    } else {
      var more := PrintItems(items[1..]) + [RBRACKET] + rest;
      var after := [COMMA] + more;
      HeadOfPrinted(head, after, d.constants);
      StopsAt(COMMA, more);
      ParsePrinted(head, after, d);
      ParseItemsPrinted(items[1..], rest, d);
      ItemsMore(s, head, after, more, items[1..], rest, d);
      assert [head] + items[1..] == items;
    }
  }

  lemma StopsAt(c: CodePoint, rest: Str)
    requires c == COMMA || c == RBRACE || c == RBRACKET
    ensures Stops([c] + rest)
  {
  }

  lemma {:induction false} ParseFieldsPrinted(fields: seq<Field>, rest: Str, d: Dialect)
    requires fields != []
    requires forall i | 0 <= i < |fields| :: UniqueKeys(fields[i].value) && Readable(fields[i].value, d.constants)
    ensures var s := PrintFields(fields) + [RBRACE] + rest;
      s != [] && SkipSpace(s) == s && s[0] != RBRACE && ParseFields(s, d) == Ok((fields, rest))
    decreases fields, 0
  {
    hide *;
    var head, s := fields[0], PrintFields(fields) + [RBRACE] + rest;
    PrintFieldsParts(fields, rest);
    if |fields| == 1 {
      var after := [RBRACE] + rest;
      HeadOfPrinted(head.value, after, d.constants);
      StopsAt(RBRACE, rest);
      ParsePrinted(head.value, after, d);
      FieldsLast(s, head, after, rest, d);
    } else {
      var more := PrintFields(fields[1..]) + [RBRACE] + rest;
      var after := [COMMA] + more;
      HeadOfPrinted(head.value, after, d.constants);
      StopsAt(COMMA, more);
      ParsePrinted(head.value, after, d);
      ParseFieldsPrinted(fields[1..], rest, d);
      FieldsMore(s, head, after, more, fields[1..], rest, d);
      assert [head] + fields[1..] == fields;
    }
  }

  /** Decoding the printed form of a value, with any trailing white space, gives the value. */
  lemma LoadsPrinted(v: Json, space: Str, d: Dialect)
    requires UniqueKeys(v) && Readable(v, d.constants)
    requires SkipSpace(space) == []
    ensures Loads(Print(v) + space, d) == Ok(v)
  {
    PrintHead(v, d.constants);
    assert (Print(v) + space)[0] == Print(v)[0];
    ParsePrinted(v, space, d);
  }
}
