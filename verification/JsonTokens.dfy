/** The numbers and texts of RFC 8259, and their scanners. */
module JsonTokens {
  // Sections 6 and 7 of RFC 8259, written as ways to take a spelling apart; the scanners accept exactly these
  // spellings and give them their value.

  import opened Text
  import opened Json
  import opened JsonRoundTrip

  // ---------------------------------------------------------------- numbers

  predicate AllDigits(s: Str) {
    s != [] && forall i | 0 <= i < |s| :: 48 <= s[i] <= 57
  }

  /** `0`, or digits that do not begin with it. */
  predicate IsWhole(s: Str) {
    AllDigits(s) && (s[0] == 48 ==> |s| == 1)
  }

  predicate IsSign(s: Str) {
    s == [] || s == [45]
  }

  /** A point and digits, or nothing. */
  predicate IsFraction(s: Str) {
    s == [] || (s[0] == 46 && AllDigits(s[1..]))
  }

  /** `e` or `E`, a sign if any, and digits; or nothing. */
  predicate IsExponent(s: Str) {
    s == [] || (s[0] in {69, 101} && (AllDigits(s[1..]) || (|s| > 1 && s[1] in {43, 45} && AllDigits(s[2..]))))
  }

  /** An integer within Python's limit of digits, spelled with a minus sign or without. */
  ghost predicate SpellsInt(s: Str, n: int) {
    exists sign, whole | IsSign(sign) && IsWhole(whole) :: IsInt(s, sign, whole, n)
  }

  predicate IsInt(s: Str, sign: Str, whole: Str, n: int)
    requires IsSign(sign) && IsWhole(whole)
  {
    s == sign + whole && |whole| <= 4300
    && n == Signed(sign, DigitsValue(whole))
  }

  function Signed(sign: Str, n: int): int {
    if sign == [] then n else -n
  }

  /** A number with a fraction or an exponent. */
  ghost predicate SpellsFloat(s: Str) {
    exists sign, whole, fraction, exponent :: IsFloat(s, sign, whole, fraction, exponent)
  }

  predicate IsFloat(s: Str, sign: Str, whole: Str, fraction: Str, exponent: Str) {
    && IsSign(sign) && IsWhole(whole) && IsFraction(fraction) && IsExponent(exponent)
    && (fraction != [] || exponent != []) && s == sign + (whole + (fraction + exponent))
  }

  lemma {:induction false} DigitsThen(a: Str, b: Str)
    requires (forall i | 0 <= i < |a| :: IsDigit(a[i])) && (b == [] || !IsDigit(b[0]))
    ensures DigitRun(a + b) == |a|
  {
    if a == [] {
      assert a + b == b;
    } else {
      assert (a + b)[1..] == a[1..] + b;
      DigitsThen(a[1..], b);
    }
  }

  lemma WholeThen(whole: Str, rest: Str)
    requires IsWhole(whole) && (rest == [] || !IsDigit(rest[0]))
    ensures IntegerLength(whole + rest) == |whole|
  {
    DigitsThen(whole, rest);
  }

  lemma FractionThen(fraction: Str, rest: Str)
    requires IsFraction(fraction) && (rest == [] || (!IsDigit(rest[0]) && rest[0] != POINT))
    ensures FractionLength(fraction + rest) == |fraction|
  {
    if fraction == [] {
      assert fraction + rest == rest;
    } else {
      assert (fraction + rest)[1..] == fraction[1..] + rest;
      DigitsThen(fraction[1..], rest);
    }
  }

  lemma ExponentAlone(exponent: Str)
    requires IsExponent(exponent)
    ensures ExponentLength(exponent) == |exponent|
  {
    if exponent != [] {
      var sign := if |exponent| > 1 && (exponent[1] == PLUS || exponent[1] == MINUS) then 1 else 0;
      assert exponent[1 + sign..] + [] == exponent[1 + sign..];
      DigitsThen(exponent[1 + sign..], []);
    }
  }

  lemma WholeFound(s: Str)
    ensures IntegerLength(s) > 0 ==> IsWhole(s[..IntegerLength(s)])
  {
    RunFound(s);
  }

  lemma RunFound(s: Str)
    ensures DigitRun(s) > 0 ==> AllDigits(s[..DigitRun(s)])
  {
  }

  lemma FractionFound(s: Str)
    ensures IsFraction(s[..FractionLength(s)])
  {
    if FractionLength(s) > 0 {
      RunFound(s[1..]);
      assert s[..FractionLength(s)][1..] == s[1..][..DigitRun(s[1..])];
    }
  }

  lemma ExponentFound(s: Str)
    ensures IsExponent(s[..ExponentLength(s)])
  {
    var n := ExponentLength(s);
    if n > 0 {
      var sign := if |s| > 1 && (s[1] == PLUS || s[1] == MINUS) then 1 else 0;
      RunFound(s[1 + sign..]);
      assert s[..n][1 + sign..] == s[1 + sign..][..DigitRun(s[1 + sign..])];
    }
  }

  lemma TailFound(tail: Str)
    ensures var frac := FractionLength(tail);
      var fraction, exponent := tail[..frac], tail[frac..][..ExponentLength(tail[frac..])];
      && IsFraction(fraction) && IsExponent(exponent) && tail[..TailLength(tail)] == fraction + exponent
      && (TailLength(tail) > 0 ==> fraction != [] || exponent != [])
  {
    var frac := FractionLength(tail);
    FractionFound(tail);
    ExponentFound(tail[frac..]);
    hide FractionLength, ExponentLength, IsFraction, IsExponent;
  }

  /** What the number scanner finds: the parts of a number of the grammar. */
  lemma ScanFound(s: Str)
    requires ScanNumber(s).whole > 0
    ensures var m := ScanNumber(s);
      var sign, whole := s[..m.sign], s[m.sign..][..m.whole];
      && IsSign(sign) && IsWhole(whole) && s[..m.sign + m.whole] == sign + whole
      && (m.tail > 0 ==> SpellsFloat(s[..m.Length()]))
  {
    var m := ScanNumber(s);
    var after := s[m.sign..];
    WholeFound(after);
    var tail := after[m.whole..];
    TailFound(tail);
    assert m.tail == TailLength(tail);
    hide IntegerLength, TailLength, IsFraction, IsExponent, IsWhole, SpellsFloat;
    PartsJoin(s, m.sign, m.whole, m.tail);
    if m.tail > 0 {
      var frac := FractionLength(tail);
      var fraction, exponent := tail[..frac], tail[frac..][..ExponentLength(tail[frac..])];
      PartsSpell(s[..m.Length()], s[..m.sign], after[..m.whole], fraction, exponent);
    }
  }

  lemma PartsJoin(s: Str, a: nat, b: nat, c: nat)
    requires a + b + c <= |s|
    ensures s[..a + b] == s[..a] + s[a..][..b]
    ensures s[..a + b + c] == s[..a] + (s[a..][..b] + s[a..][b..][..c])
  {
    assert s[a..][b..] == s[a + b..];
  }

  lemma PartsSpell(s: Str, sign: Str, whole: Str, fraction: Str, exponent: Str)
    requires IsFloat(s, sign, whole, fraction, exponent)
    ensures SpellsFloat(s)
  {
  }

  lemma SignSkipped(sign: Str, whole: Str, rest: Str)
    requires IsSign(sign) && IsWhole(whole)
    ensures var s := sign + (whole + rest);
      s != [] && s[|sign|..] == whole + rest && (s[0] == MINUS <==> |sign| == 1)
  {
    var s := sign + (whole + rest);
    assert s[|sign|..] == whole + rest;
    assert sign == [] ==> s[0] == whole[0];
  }

  /** A float of the grammar is what the scanner takes for one. */
  lemma FloatExactly(s: Str)
    ensures IsFloatSpelling(s) <==> SpellsFloat(s)
  {
    if IsFloatSpelling(s) {
      ScanFound(s);
      assert s[..ScanNumber(s).Length()] == s;
    }
    if sign, whole, fraction, exponent :| IsFloat(s, sign, whole, fraction, exponent) {
      FloatScanned(s, sign, whole, fraction, exponent);
    }
  }

  lemma TailAlone(fraction: Str, exponent: Str)
    requires IsFraction(fraction) && IsExponent(exponent) && (fraction != [] || exponent != [])
    ensures TailLength(fraction + exponent) == |fraction + exponent| > 0 && !IsDigit((fraction + exponent)[0])
  {
    var tail := fraction + exponent;
    assert fraction == [] ==> tail == exponent;
    FractionThen(fraction, exponent);
    assert tail[|fraction|..] == exponent;
    ExponentAlone(exponent);
  }

  lemma FloatScanned(s: Str, sign: Str, whole: Str, fraction: Str, exponent: Str)
    requires IsFloat(s, sign, whole, fraction, exponent)
    ensures IsFloatSpelling(s)
  {
    var tail := fraction + exponent;
    TailAlone(fraction, exponent);
    SignSkipped(sign, whole, tail);
    WholeThen(whole, tail);
    hide IsFraction, IsExponent, IsWhole, TailLength, IntegerLength;
    assert (whole + tail)[|whole|..] == tail;
  }

  /** An integer of the grammar is what the scanner takes for one. */
  lemma IntScanned(sign: Str, whole: Str)
    requires IsSign(sign) && IsWhole(whole)
    ensures ScanNumber(sign + whole) == Numeral(|sign|, |whole|, 0)
  {
    assert sign + whole == sign + (whole + []) && whole + [] == whole;
    SignSkipped(sign, whole, []);
    WholeThen(whole, []);
    assert whole[|whole|..] == [];
  }

  predicate IsConstantWord(s: Str) {
    s == Lit("NaN") || s == Lit("Infinity") || s == Lit("-Infinity")
  }

  lemma ConstantExactly(s: Str)
    ensures IsConstant(s) <==> IsConstantWord(s)
    ensures ConstantLength(s) > 0 ==> IsConstantWord(s[..ConstantLength(s)])
  {
    assert s[..|s|] == s;
    if s == Lit("Infinity") { assert !Begins(s, "NaN") by { BeginsAt(s, "NaN", 0); } }
    if s == Lit("-Infinity") {
      assert !Begins(s, "NaN") && !Begins(s, "Infinity") by {
        BeginsAt(s, "NaN", 0);
        BeginsAt(s, "Infinity", 0);
      }
    }
  }

  /** What the grammar gives for a number. */
  ghost predicate SpellsNumber(s: Str, v: Json, constants: bool) {
    match v
    case Int(n) => SpellsInt(s, n)
    case Float(f) => s == f && (SpellsFloat(s) || (constants && IsConstantWord(s)))
    case _ => false
  }

  lemma IntSpells(s: Str, sign: Str, whole: Str, n: int)
    requires IsSign(sign) && IsWhole(whole) && IsInt(s, sign, whole, n)
    ensures SpellsInt(s, n)
  {
  }

  lemma IntFound(s: Str, m: Numeral)
    requires m == ScanNumber(s) && 0 < m.whole <= 4300 && m.tail == 0
    ensures SpellsInt(s[..m.Length()], Signed(s[..m.sign], DigitsValue(s[m.sign..][..m.whole])))
  {
    ScanFound(s);
    hide ScanNumber, SpellsFloat, SpellsInt, DigitsValue;
    var sign, whole := s[..m.sign], s[m.sign..][..m.whole];
    hide IsWhole, IsSign;
    IntSpells(s[..m.Length()], sign, whole, Signed(sign, DigitsValue(whole)));
  }

  /** How the number scanner comes to what it returns. */
  lemma NumberCases(s: Str, constants: bool)
    requires ParseNumber(s, constants).Ok?
    ensures var m, k, r := ScanNumber(s), ConstantLength(s), ParseNumber(s, constants).value;
      || (constants && k > 0 && r == (Float(s[..k]), s[k..]))
      || (m.whole > 0 && m.tail > 0 && r == (Float(s[..m.Length()]), s[m.Length()..]))
      || (0 < m.whole <= 4300 && m.tail == 0
          && r == (Int(Signed(s[..m.sign], DigitsValue(s[m.sign..][..m.whole]))), s[m.Length()..]))
  {
    hide ScanNumber, ConstantLength, DigitsValue;
  }

  /** A number at the front of `s` and what is after it. */
  ghost predicate NumberThen(s: Str, v: Json, rest: Str, constants: bool) {
    |rest| < |s| && s[|s| - |rest|..] == rest && SpellsNumber(s[..|s| - |rest|], v, constants)
  }

  lemma NumberAt(s: Str, n: nat, v: Json, constants: bool)
    requires 0 < n <= |s| && SpellsNumber(s[..n], v, constants)
    ensures NumberThen(s, v, s[n..], constants)
  {
    hide SpellsNumber;
  }

  lemma NumberFound(s: Str, constants: bool)
    requires ParseNumber(s, constants).Ok?
    ensures NumberThen(s, ParseNumber(s, constants).value.0, ParseNumber(s, constants).value.1, constants)
  {
    NumberCases(s, constants);
    var m, k, r := ScanNumber(s), ConstantLength(s), ParseNumber(s, constants).value;
    hide ParseNumber, ScanNumber, ConstantLength, NumberThen, SpellsInt, SpellsFloat, IsConstantWord, DigitsValue;
    if constants && k > 0 && r == (Float(s[..k]), s[k..]) {
      ConstantExactly(s);
      NumberAt(s, k, r.0, constants);
    } else if m.tail > 0 {
      ScanFound(s);
      NumberAt(s, m.Length(), r.0, constants);
    } else {
      IntFound(s, m);
      NumberAt(s, m.Length(), r.0, constants);
    }
  }

  lemma NumberTaken(e: Str, v: Json, rest: Str, constants: bool)
    requires SpellsNumber(e, v, constants) && Stops(rest)
    ensures ParseNumber(e + rest, constants) == Ok((v, rest))
  {
    match v
    case Int(n) =>
      var sign, whole :| IsSign(sign) && IsWhole(whole) && IsInt(e, sign, whole, n);
      IntTaken(sign, whole, rest, constants);
    case Float(f) =>
      if SpellsFloat(e) {
        FloatExactly(e);
        ParseFloatPrinted(e, rest, constants);
      } else {
        ConstantExactly(e);
        ConstantTaken(e, rest);
      }
  }

  lemma ConstantTaken(f: Str, rest: Str)
    requires IsConstant(f)
    ensures ParseNumber(f + rest, true) == Ok((Float(f), rest))
  {
    ConstantStays(f, rest);
    var s := f + rest;
    hide ConstantLength;
    assert s[..|f|] == f && s[|f|..] == rest;
  }

  lemma IntTaken(sign: Str, whole: Str, rest: Str, constants: bool)
    requires IsSign(sign) && IsWhole(whole) && |whole| <= 4300 && Stops(rest)
    ensures ParseNumber(sign + whole + rest, constants)
      == Ok((Int(Signed(sign, DigitsValue(whole))), rest))
  {
    var e := sign + whole;
    var s := e + rest;
    IntScanned(sign, whole);
    ScanStops(e, rest);
    IntParts(sign, whole, rest);
    hide ScanNumber, IsWhole, ConstantLength;
    NumberIsNoConstant(s, |sign|);
    hide DigitsValue, Stops;
    IntResult(s, sign, whole, rest, constants);
  }

  lemma IntResult(s: Str, sign: Str, whole: Str, rest: Str, constants: bool)
    requires IsSign(sign) && IsWhole(whole) && |whole| <= 4300 && |sign| + |whole| <= |s| && ConstantLength(s) == 0
    requires ScanNumber(s) == Numeral(|sign|, |whole|, 0)
    requires s[|sign|..][..|whole|] == whole && s[|sign| + |whole|..] == rest
    ensures ParseNumber(s, constants) == Ok((Int(Signed(sign, DigitsValue(whole))), rest))
  {
    hide ScanNumber, ConstantLength, DigitsValue;
  }

  lemma IntParts(sign: Str, whole: Str, rest: Str)
    requires IsSign(sign) && IsWhole(whole)
    ensures var s := sign + whole + rest;
      && |sign| < |s| && IsDigit(s[|sign|]) && (sign == [] || s[0] == MINUS)
      && s[|sign|..][..|whole|] == whole && s[|sign| + |whole|..] == rest
  {
    var s := sign + whole + rest;
    assert s[|sign|] == whole[0];
    assert sign != [] ==> s[0] == sign[0];
  }
}
