/**
 Text that is cut short: a value that was accepted is found again when more text follows it, so that
 no proper prefix of a printed object can be accepted.
 */
module JsonPrefix {
  import opened Text
  import opened Json
  import opened JsonRoundTrip
  import opened JsonReprint

  /** After a number inside an array or object comes white space, a comma or a closing bracket. */
  predicate Closes(rest: Str) {
    rest != [] && (IsSpace(rest[0]) || rest[0] == COMMA || rest[0] == RBRACE || rest[0] == RBRACKET || rest[0] == COLON)
  }

  lemma ClosesStops(rest: Str, t: Str)
    requires Closes(rest)
    ensures Stops(rest) && Stops(rest + t)
  {
    assert (rest + t)[0] == rest[0];
  }

  lemma {:induction false} SpaceExtends(s: Str, t: Str)
    requires SkipSpace(s) != []
    ensures SkipSpace(s + t) == SkipSpace(s) + t
  {
    if s != [] && IsSpace(s[0]) {
      assert (s + t)[1..] == s[1..] + t;
      SpaceExtends(s[1..], t);
    }
  }

  lemma {:induction false} CharsExtend(s: Str, t: Str)
    requires ParseChars(s).Ok?
    ensures ParseChars(s + t) == Ok((ParseChars(s).value.0, ParseChars(s).value.1 + t))
  {
    var u := s + t;
    assert u[0] == s[0] && u[1..] == s[1..] + t;
    if s[0] == QUOTE {
    } else if s[0] == BACKSLASH {
      UnescapeExtends(s[1..], t);
      var n := Unescape(s[1..]).value.1;
      assert u[1 + n..] == s[1 + n..] + t;
      CharsExtend(s[1 + n..], t);
    } else {
      CharsExtend(s[1..], t);
    }
  }

  lemma QuadExtends(s: Str, t: Str)
    requires HexQuad(s).Some?
    ensures HexQuad(s + t) == HexQuad(s)
  {
  }

  /** An escape that is followed by the rest of a string does not change when more text follows. */
  lemma UnescapeExtends(s: Str, t: Str)
    requires Unescape(s).Some? && ParseChars(s[Unescape(s).value.1..]).Ok?
    ensures Unescape(s + t) == Unescape(s)
  {
    var u := s + t;
    assert forall i | 0 <= i < |s| :: u[i] == s[i];
    if s[0] == 'u' as int {
      assert u[1..] == s[1..] + t;
      QuadExtends(s[1..], t);
      if |s| >= 7 {
        assert u[7..] == s[7..] + t;
        if HexQuad(s[7..]).Some? { QuadExtends(s[7..], t); }
      } else {
        NoLoneBackslash(s[5..]);
      }
    }
  }

  lemma NoLoneBackslash(s: Str)
    requires ParseChars(s).Ok?
    ensures s != [] && s != [BACKSLASH]
  {
    assert |s| == 1 ==> s[1..] == [];
  }

  lemma TokenParts(s: Str, t: Str, sign: nat, whole: nat, n: nat)
    requires sign + whole <= n <= |s|
    ensures (s + t)[..n] == s[..n] && (s + t)[n..] == s[n..] + t && (s + t)[sign..][..whole] == s[sign..][..whole]
    ensures s == s[..n] + s[n..] && s + t == s[..n] + (s[n..] + t)
  {
  }

  lemma NumberExtends(s: Str, t: Str, constants: bool)
    requires ParseNumber(s, constants).Ok? && Closes(ParseNumber(s, constants).value.1)
    ensures ParseNumber(s + t, constants)
      == Ok((ParseNumber(s, constants).value.0, ParseNumber(s, constants).value.1 + t))
  {
    if constants && ConstantLength(s) > 0 {
      hide ScanNumber, Closes;
      ConstantStays(s, t);
      hide ConstantLength;
      TokenParts(s, t, 0, 0, ConstantLength(s));
    } else {
      NumberNoConstant(s, t);
      hide ConstantLength;
      FiniteExtends(s, t, constants);
    }
  }

  lemma NumberNoConstant(s: Str, t: Str)
    requires ScanNumber(s).whole > 0
    ensures ConstantLength(s) == 0 && ConstantLength(s + t) == 0
  {
    var m := ScanNumber(s);
    assert s[m.sign..][0] == s[m.sign] == (s + t)[m.sign] && s[0] == (s + t)[0];
    NumberIsNoConstant(s, m.sign);
    NumberIsNoConstant(s + t, m.sign);
  }

  lemma FiniteExtends(s: Str, t: Str, constants: bool)
    requires ParseNumber(s, constants).Ok? && Closes(ParseNumber(s, constants).value.1)
    requires ConstantLength(s) == 0 && ConstantLength(s + t) == 0
    ensures ParseNumber(s + t, constants)
      == Ok((ParseNumber(s, constants).value.0, ParseNumber(s, constants).value.1 + t))
  {
    hide ConstantLength;
    var m := ScanNumber(s);
    var n := m.Length();
    ScanCut(s);
    ClosesStops(s[n..], t);
    hide ScanNumber, Stops, Closes;
    TokenParts(s, t, m.sign, m.whole, n);
    ScanStops(s[..n], s[n..] + t);
    assert ScanNumber(s + t) == m;
  }

  // ---------------------------------------------------------------- values that end by themselves

  /** The value does not end where its text happens to stop. */
  predicate SelfDelimited(v: Json) {
    !v.Int? && !v.Float?
  }

  lemma BeginsExtends(s: Str, t: Str, word: string)
    requires Begins(s, word)
    ensures Begins(s + t, word) && (s + t)[|word|..] == s[|word|..] + t
  {
    assert (s + t)[..|word|] == s[..|word|];
  }

  /** A keyword cannot begin with a digit or a minus sign. */
  lemma NumberIsNoKeyword(s: Str)
    requires s != [] && (IsDigit(s[0]) || s[0] == MINUS || s[0] == 78 || s[0] == 73)
    ensures !Begins(s, "null") && !Begins(s, "true") && !Begins(s, "false")
  {
    NotBegins(s, "null");
    NotBegins(s, "true");
    NotBegins(s, "false");
  }

  lemma NumberStart(s: Str, constants: bool)
    requires ParseNumber(s, constants).Ok?
    ensures s != [] && (IsDigit(s[0]) || s[0] == MINUS || s[0] == 78 || s[0] == 73)
  {
    if constants && ConstantLength(s) > 0 {
      ConstantFirst(s);
    } else {
      hide ConstantLength;
      var m := ScanNumber(s);
      assert s[m.sign..][0] == s[m.sign];
    }
  }

  /** An accepted value is found again when more text follows, if it ends by itself or something closes it. */
  lemma {:induction false} ValueExtends(s: Str, t: Str, d: Dialect)
    requires ParseValue(s, d).Ok?
    requires SelfDelimited(ParseValue(s, d).value.0) || Closes(ParseValue(s, d).value.1)
    ensures ParseValue(s + t, d) == Ok((ParseValue(s, d).value.0, ParseValue(s, d).value.1 + t))
    decreases |s|, 0
  {
    hide DigitRun, ScanNumber, Begins, ParseChars, ParseNumber, SkipSpace, Closes;
    var u := s + t;
    assert s != [] && u[0] == s[0] && u[1..] == s[1..] + t;
    if s[0] == QUOTE {
      CharsExtend(s[1..], t);
    } else if s[0] == LBRACE {
      var body := SkipSpace(s[1..]);
      BodyNotEmpty(s, d);
      SpaceExtends(s[1..], t);
      assert (body + t)[0] == body[0] && (body + t)[1..] == body[1..] + t;
      if body[0] != RBRACE { FieldsExtend(body, t, d); }
    } else if s[0] == LBRACKET {
      var body := SkipSpace(s[1..]);
      BodyNotEmpty(s, d);
      SpaceExtends(s[1..], t);
      assert (body + t)[0] == body[0] && (body + t)[1..] == body[1..] + t;
      if body[0] != RBRACKET { ItemsExtend(body, t, d); }
    } else {
      ScalarExtends(s, t, d);
    }
  }

  lemma BodyNotEmpty(s: Str, d: Dialect)
    requires s != [] && (s[0] == LBRACE || s[0] == LBRACKET) && ParseValue(s, d).Ok?
    ensures SkipSpace(s[1..]) != []
  {
    hide SkipSpace, DigitRun, ScanNumber, Begins, ParseChars, ParseNumber;
  }

  lemma ScalarExtends(s: Str, t: Str, d: Dialect)
    requires s != [] && s[0] != QUOTE && s[0] != LBRACE && s[0] != LBRACKET && ParseValue(s, d).Ok?
    requires SelfDelimited(ParseValue(s, d).value.0) || Closes(ParseValue(s, d).value.1)
    ensures ParseValue(s + t, d) == Ok((ParseValue(s, d).value.0, ParseValue(s, d).value.1 + t))
  {
    var u := s + t;
    assert u[0] == s[0];
    hide ParseNumber, Closes;
    if Begins(s, "null") {
      BeginsExtends(s, t, "null");
    } else if Begins(s, "true") {
      BeginsExtends(s, t, "true");
      NotBegins(u, "null");
    } else if Begins(s, "false") {
      BeginsExtends(s, t, "false");
      NotBegins(u, "null");
      NotBegins(u, "true");
    } else {
      NumberIsDelimited(s, d.constants);
      NumberValueExtends(s, t, d);
    }
  }

  lemma NumberValueExtends(s: Str, t: Str, d: Dialect)
    requires s != [] && s[0] != QUOTE && s[0] != LBRACE && s[0] != LBRACKET
    requires !Begins(s, "null") && !Begins(s, "true") && !Begins(s, "false") && ParseValue(s, d).Ok?
    requires Closes(ParseValue(s, d).value.1)
    ensures ParseValue(s + t, d) == Ok((ParseValue(s, d).value.0, ParseValue(s, d).value.1 + t))
  {
    var u := s + t;
    assert u[0] == s[0];
    NumberStart(s, d.constants);
    NumberIsNoKeyword(u);
    hide ParseNumber, Begins, Closes;
    NumberExtends(s, t, d.constants);
  }

  lemma NumberIsDelimited(s: Str, constants: bool)
    requires ParseNumber(s, constants).Ok?
    ensures !SelfDelimited(ParseNumber(s, constants).value.0)
  {
    hide ScanNumber, DigitsValue, ConstantLength;
  }

  lemma NotBegins(s: Str, word: string)
    requires s != [] && word != [] && s[0] != word[0] as int
    ensures !Begins(s, word)
  {
    assert |word| <= |s| ==> s[..|word|][0] == s[0];
  }

  lemma {:induction false} ItemsExtend(s: Str, t: Str, d: Dialect)
    requires ParseItems(s, d).Ok?
    ensures ParseItems(s + t, d) == Ok((ParseItems(s, d).value.0, ParseItems(s, d).value.1 + t))
    decreases |s|, 1
  {
    hide DigitRun, ScanNumber, Begins, ParseChars, ParseNumber;
    var after := ParseValue(s, d).value.1;
    var next := SkipSpace(after);
    NextCloses(after);
    ValueExtends(s, t, d);
    SpaceExtends(after, t);
    assert (next + t)[0] == next[0] && (next + t)[1..] == next[1..] + t;
    if next[0] == COMMA {
      hide SkipSpace;
      ItemsNotEmpty(next[1..], d);
      SpaceExtends(next[1..], t);
      ItemsExtend(SkipSpace(next[1..]), t, d);
    }
  }

  lemma ItemsNotEmpty(s: Str, d: Dialect)
    requires ParseItems(SkipSpace(s), d).Ok?
    ensures SkipSpace(s) != []
  {
  }

  lemma FieldsNotEmpty(s: Str, d: Dialect)
    requires ParseFields(SkipSpace(s), d).Ok?
    ensures SkipSpace(s) != []
  {
  }

  /** What closes an item or an entry, seen from the end of its value. */
  lemma NextCloses(after: Str)
    requires SkipSpace(after) != []
    requires (SkipSpace(after)[0] == COMMA || SkipSpace(after)[0] == RBRACE || SkipSpace(after)[0] == RBRACKET)
    ensures Closes(after)
  {
  }

  lemma {:induction false} FieldsExtend(s: Str, t: Str, d: Dialect)
    requires ParseFields(s, d).Ok?
    ensures ParseFields(s + t, d) == Ok((ParseFields(s, d).value.0, ParseFields(s, d).value.1 + t))
    decreases |s|
  {
    hide DigitRun, ScanNumber, Begins, ParseChars, ParseNumber, ParseValue, SkipSpace;
    var u := s + t;
    assert u[0] == s[0] && u[1..] == s[1..] + t;
    CharsExtend(s[1..], t);
    var afterKey := ParseChars(s[1..]).value.1;
    var colon := SkipSpace(afterKey);
    SpaceExtends(afterKey, t);
    assert (colon + t)[0] == colon[0] && (colon + t)[1..] == colon[1..] + t;
    var at := SkipSpace(colon[1..]);
    ValueNotEmpty(at, d);
    SpaceExtends(colon[1..], t);
    var after := ParseValue(at, d).value.1;
    var next := SkipSpace(after);
    NextCloses(after);
    ValueExtends(at, t, d);
    SpaceExtends(after, t);
    assert (next + t)[0] == next[0] && (next + t)[1..] == next[1..] + t;
    if next[0] == COMMA {
      FieldsNotEmpty(next[1..], d);
      SpaceExtends(next[1..], t);
      FieldsExtend(SkipSpace(next[1..]), t, d);
    }
  }

  lemma ValueNotEmpty(s: Str, d: Dialect)
    requires ParseValue(s, d).Ok?
    ensures s != []
  {
  }

  // ---------------------------------------------------------------- truncation

  lemma {:induction false} AllSpaceExtends(s: Str)
    requires SkipSpace(s) == []
    ensures forall i | 0 <= i < |s| :: IsSpace(s[i])
  {
    if s != [] { AllSpaceExtends(s[1..]); }
  }

  /** No proper prefix of a printed object is accepted, whichever way repeated keys are treated. */
  lemma TruncatedObjectRefused(v: Json, n: nat, d: Dialect)
    requires v.Obj? && UniqueKeys(v) && Spellable(v) && n < |Print(v)|
    ensures Loads(Print(v)[..n], d).Err?
  {
    var text, cut := Print(v), Print(v)[..n];
    PrintedObjectStart(v);
    if Loads(cut, d).Ok? {
      assert cut != [] by { EmptyRefused(d); }
      assert cut[0] == LBRACE && SkipSpace(cut) == cut;
      var r := ParseValue(cut, d).value;
      BraceIsObject(cut, d);
      ValueExtends(cut, text[n..], d);
      assert cut + text[n..] == text && text + [] == text;
      SpellableIsReadable(v);
      ParsePrinted(v, [], d);
    }
  }

  lemma PrintedObjectStart(v: Json)
    requires v.Obj?
    ensures Print(v) != [] && Print(v)[0] == LBRACE
  {
  }

  lemma EmptyRefused(d: Dialect)
    ensures Loads([], d).Err?
  {
  }

  lemma BraceIsObject(s: Str, d: Dialect)
    requires s != [] && s[0] == LBRACE && ParseValue(s, d).Ok?
    ensures ParseValue(s, d).value.0.Obj?
  {
    hide SkipSpace, ParseFields;
  }
}
