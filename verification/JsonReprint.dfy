/** Whatever the decoder accepts can be printed again, and printing makes it canonical. */
module JsonReprint {
  import opened Text
  import opened Json
  import opened JsonRoundTrip
  import opened JsonCanonical

  // ---------------------------------------------------------------- numbers, cut out of their text

  lemma {:induction false} RunCut(s: Str, k: nat)
    requires DigitRun(s) <= k <= |s|
    ensures DigitRun(s[..k]) == DigitRun(s)
  {
    if s != [] && IsDigit(s[0]) {
      RunCut(s[1..], k - 1);
      assert s[..k][1..] == s[1..][..k - 1];
    }
  }

  lemma PartsCut(s: Str, k: nat)
    requires k <= |s|
    ensures IntegerLength(s) <= k ==> IntegerLength(s[..k]) == IntegerLength(s)
    ensures FractionLength(s) <= k ==> FractionLength(s[..k]) == FractionLength(s)
    ensures ExponentLength(s) <= k ==> ExponentLength(s[..k]) == ExponentLength(s)
  {
    if DigitRun(s) <= k { RunCut(s, k); }
    if k > 0 {
      assert s[..k][1..] == s[1..][..k - 1];
      if DigitRun(s[1..]) <= k - 1 { RunCut(s[1..], k - 1); }
      if k > 1 {
        assert s[..k][2..] == s[2..][..k - 2];
        if DigitRun(s[2..]) <= k - 2 { RunCut(s[2..], k - 2); }
      }
    }
  }

  lemma TailCut(s: Str)
    ensures TailLength(s[..TailLength(s)]) == TailLength(s)
  {
    var frac := FractionLength(s);
    var k := TailLength(s);
    PartsCut(s, k);
    assert s[..k][frac..] == s[frac..][..k - frac];
    PartsCut(s[frac..], k - frac);
  }

  lemma ScanCut(s: Str)
    requires ScanNumber(s).whole > 0
    ensures ScanNumber(s[..ScanNumber(s).Length()]) == ScanNumber(s)
  {
    hide TailLength, IntegerLength;
    var m := ScanNumber(s);
    var t := s[..m.Length()];
    var u := s[m.sign..];
    assert t[m.sign..] == u[..m.whole + m.tail];
    PartsCut(u, m.whole + m.tail);
    assert u[..m.whole + m.tail][m.whole..] == u[m.whole..][..m.tail];
    TailCut(u[m.whole..]);
    assert t[0] == s[0];
  }

  lemma {:induction false} DigitsNoLonger(d: Str)
    requires d != [] && forall i | 0 <= i < |d| :: IsDigit(d[i])
    ensures |Digits(DigitsValue(d))| <= |d|
  {
    var v := DigitsValue(d);
    if v >= 10 {
      var front := d[..|d| - 1];
      assert IsDigit(d[|d| - 1]);
      assert v == DigitsValue(front) * 10 + ((d[|d| - 1] as int) - ZERO);
      assert v / 10 == DigitsValue(front);
      DigitsNoLonger(front);
    }
  }

  lemma NumberReadable(s: Str, constants: bool)
    requires ParseNumber(s, constants).Ok?
    ensures Readable(ParseNumber(s, constants).value.0, constants)
  {
    if constants && ConstantLength(s) > 0 {
      hide ScanNumber, DigitsValue;
      ConstantAlone(s);
    } else {
      FiniteReadable(s, constants);
    }
  }

  lemma FiniteReadable(s: Str, constants: bool)
    requires ParseNumber(s, constants).Ok? && !(constants && ConstantLength(s) > 0)
    ensures Readable(ParseNumber(s, constants).value.0, constants)
  {
    hide ConstantLength, IsConstant;
    var m := ScanNumber(s);
    if m.tail > 0 {
      ScanCut(s);
    } else {
      DigitsNoLonger(s[m.sign..][..m.whole]);
    }
    hide ScanNumber, Digits, DigitsValue;
  }

  lemma ConstantAlone(s: Str)
    requires ConstantLength(s) > 0
    ensures IsConstant(s[..ConstantLength(s)])
  {
    var f := s[..ConstantLength(s)];
    assert f[..|f|] == f && f[0] == s[0];
    BeginsAt(f, "NaN", 0);
    BeginsAt(f, "Infinity", 0);
    BeginsAt(s, "Infinity", 0);
    BeginsAt(s, "-Infinity", 0);
  }

  // ---------------------------------------------------------------- whole values

  predicate ReadableItems(items: seq<Json>, constants: bool) {
    forall i | 0 <= i < |items| :: Readable(items[i], constants)
  }

  predicate ReadableEntries(fields: seq<Field>, constants: bool) {
    forall i | 0 <= i < |fields| :: Readable(fields[i].value, constants)
  }

  /** Integers that were accepted are within the limit, floats are spelled as floats or are constants. */
  lemma {:induction false} ParsedReadable(s: Str, d: Dialect)
    requires ParseValue(s, d).Ok?
    ensures Readable(ParseValue(s, d).value.0, d.constants)
    decreases |s|, 0
  {
    hide DigitRun, ScanNumber, Begins, ParseChars, ParseNumber;
    if s[0] == QUOTE {
    } else if s[0] == LBRACE {
      var body := SkipSpace(s[1..]);
      if body != [] && body[0] != RBRACE { ParsedFieldsReadable(body, d); }
    } else if s[0] == LBRACKET {
      var body := SkipSpace(s[1..]);
      if body != [] && body[0] != RBRACKET { ParsedItemsReadable(body, d); }
    } else if !Begins(s, "null") && !Begins(s, "true") && !Begins(s, "false") {
      NumberReadable(s, d.constants);
    }
  }

  lemma {:induction false} ParsedItemsReadable(s: Str, d: Dialect)
    requires ParseItems(s, d).Ok?
    ensures ReadableItems(ParseItems(s, d).value.0, d.constants)
    decreases |s|, 1
  {
    hide DigitRun, ScanNumber, Begins, ParseChars, ParseNumber, Readable;
    ParsedReadable(s, d);
    var next := SkipSpace(ParseValue(s, d).value.1);
    if next[0] == COMMA { ParsedItemsReadable(SkipSpace(next[1..]), d); }
  }

  lemma {:induction false} ParsedFieldsReadable(s: Str, d: Dialect)
    requires ParseFields(s, d).Ok?
    ensures ReadableEntries(ParseFields(s, d).value.0, d.constants)
    decreases |s|
  {
    hide DigitRun, ScanNumber, Begins, ParseChars, ParseNumber, Readable;
    var colon := SkipSpace(ParseChars(s[1..]).value.1);
    var at := SkipSpace(colon[1..]);
    ParsedReadable(at, d);
    var next := SkipSpace(ParseValue(at, d).value.1);
    if next[0] == COMMA { ParsedFieldsReadable(SkipSpace(next[1..]), d); }
  }
}
