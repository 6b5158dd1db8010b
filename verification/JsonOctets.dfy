/**
 `json.loads` of octets, as the cache calls it: the encoding is guessed from the first octets, lone
 surrogates pass the decoder, constants that are not numbers are read, a later entry of an object
 replaces an earlier one with its key, and a float is kept by the spelling Python prints it with.
 */
module JsonOctets {
  import opened Text
  import opened Json
  import opened JsonRoundTrip
  import opened JsonCanonical
  import opened JsonReprint
  import opened JsonEncodable
  import opened Dictionary

  /**
   `sha256_digest`; the decoders for UTF-16, UTF-32 and UTF-8 after a byte order mark; and the text
   that `repr` gives for the float that a spelling denotes.
   */
  datatype Library = Library(digest: Bytes -> Str, wide: Bytes -> Option<Str>, repr: Str -> Str)

  /** A numeral beyond the largest float. */
  const HUGE: Str := Lit("1e999")

  /**
   Digests are plain text, `repr` spells the float it was given, no constant is a finite number, and
   neither is a numeral beyond the largest float.
   */
  ghost predicate Faithful(lib: Library) {
    && (forall b :: Encodable(lib.digest(b)))
    && (forall s :: lib.repr(lib.repr(s)) == lib.repr(s))
    && (forall s | IsConstant(s) :: !IsFloatSpelling(lib.repr(s)))
    && !IsFloatSpelling(lib.repr(HUGE))
  }

  // ---------------------------------------------------------------- octets to text

  /** One step of the UTF-8 decoder that lets surrogates pass. */
  function PassStep(b: Bytes): (r: Option<(CodePoint, nat)>)
    requires b != []
    ensures r.Some? ==> 1 <= r.value.1 <= |b|
  {
    if
      && 0xE0 <= b[0] < 0xF0 && |b| >= 3 && Continuation(b[1]) && Continuation(b[2])
      && Join3(b[0], b[1], b[2]) >= 0x800
    then
      Some((Join3(b[0], b[1], b[2]), 3))
    else Utf8Step(b)
  }

  function PassDecode(b: Bytes): Option<Str> {
    if b == [] then Some([])
    else
      match PassStep(b)
      case None => None
      case Some((c, n)) =>
        match PassDecode(b[n..])
        case None => None
        case Some(rest) => Some([c] + rest)
  }

  /** The octets begin with this mark. */
  predicate Marked(b: Bytes, mark: Bytes) {
    |mark| <= |b| && b[..|mark|] == mark
  }

  /** What is taken to be UTF-8: no byte order mark, and no zero among the first two octets. */
  predicate GuessedUtf8(b: Bytes) {
    && !Marked(b, [0xFE, 0xFF]) && !Marked(b, [0xFF, 0xFE]) && !Marked(b, [0xEF, 0xBB, 0xBF])
    && !Marked(b, [0, 0, 0xFE, 0xFF])
    && (|b| >= 4 || |b| == 2 ==> b[0] != 0 && b[1] != 0)
  }

  function Decoded(lib: Library, b: Bytes): Option<Str> {
    if GuessedUtf8(b) then PassDecode(b) else lib.wide(b)
  }

  // ---------------------------------------------------------------- text to a value

  /** The value Python builds for a text: dictionaries for objects and numbers for floats. */
  function Loaded(lib: Library, v: Json): Json
    decreases v
  {
    match v
    case Float(f) => Float(lib.repr(f))
    case Arr(items) => Arr(seq(|items|, i requires 0 <= i < |items| => Loaded(lib, items[i])))
    case Obj(fields) => Obj(LastEntries(LoadedEntries(lib, fields)))
    case _ => v
  }

  function LoadedEntries(lib: Library, fields: seq<Field>): (r: seq<Field>)
    ensures |r| == |fields|
    ensures forall i | 0 <= i < |fields| :: r[i] == Field(fields[i].key, Loaded(lib, fields[i].value))
    decreases fields, 0
  {
    seq(|fields|, i requires 0 <= i < |fields| => Field(fields[i].key, Loaded(lib, fields[i].value)))
  }

  /** `json.loads`; None where it raises. */
  function LoadOctets(lib: Library, b: Bytes): Option<Json> {
    match Decoded(lib, b)
    case None => None
    case Some(s) =>
      match Loads(s, PYTHON)
      case Err(_) => None
      case Ok(v) => Some(Loaded(lib, v))
  }

  /** Every float is spelled the way Python spells it: the value is one that Python has. */
  predicate Proper(lib: Library, v: Json)
    decreases v
  {
    match v
    case Float(f) => lib.repr(f) == f
    case Arr(items) => forall i | 0 <= i < |items| :: Proper(lib, items[i])
    case Obj(fields) => forall i | 0 <= i < |fields| :: Proper(lib, fields[i].value)
    case _ => true
  }

  /** Every float is a finite number. */
  predicate Finite(v: Json)
    decreases v
  {
    match v
    case Float(f) => IsFloatSpelling(f)
    case Arr(items) => forall i | 0 <= i < |items| :: Finite(items[i])
    case Obj(fields) => forall i | 0 <= i < |fields| :: Finite(fields[i].value)
    case _ => true
  }

  /** Every integer can be converted to text. */
  predicate IntsFit(v: Json)
    decreases v
  {
    match v
    case Int(n) => IntFits(n)
    case Arr(items) => forall i | 0 <= i < |items| :: IntsFit(items[i])
    case Obj(fields) => forall i | 0 <= i < |fields| :: IntsFit(fields[i].value)
    case _ => true
  }

  lemma {:induction false} SpellableParts(v: Json)
    ensures Spellable(v) <==> IntsFit(v) && Finite(v)
  {
    match v
    case Arr(items) =>
      forall i | 0 <= i < |items| ensures Spellable(items[i]) <==> IntsFit(items[i]) && Finite(items[i]) {
        SpellableParts(items[i]);
      }
    case Obj(fields) =>
      forall i | 0 <= i < |fields|
        ensures Spellable(fields[i].value) <==> IntsFit(fields[i].value) && Finite(fields[i].value)
      {
        SpellableParts(fields[i].value);
      }
    case _ =>
  }

  // ---------------------------------------------------------------- what is known of every value that is read

  lemma {:induction false} LoadedUnique(lib: Library, v: Json)
    ensures UniqueKeys(Loaded(lib, v))
  {
    match v
    case Arr(items) =>
      forall i | 0 <= i < |items| ensures UniqueKeys(Loaded(lib, items[i])) { LoadedUnique(lib, items[i]); }
    case Obj(fields) =>
      var all := LoadedEntries(lib, fields);
      LastDistinct(all);
      forall x | x in all ensures UniqueKeys(x.value) {
        var i :| 0 <= i < |all| && all[i] == x;
        LoadedUnique(lib, fields[i].value);
      }
    case _ =>
  }

  lemma {:induction false} LoadedProper(lib: Library, v: Json)
    requires Faithful(lib)
    ensures Proper(lib, Loaded(lib, v))
  {
    match v
    case Arr(items) =>
      forall i | 0 <= i < |items| ensures Proper(lib, Loaded(lib, items[i])) { LoadedProper(lib, items[i]); }
    case Obj(fields) =>
      var all := LoadedEntries(lib, fields);
      forall x | x in all ensures Proper(lib, x.value) {
        var i :| 0 <= i < |all| && all[i] == x;
        LoadedProper(lib, fields[i].value);
      }
    case _ =>
  }

  lemma {:induction false} LoadedInts(lib: Library, v: Json)
    requires Readable(v, true)
    ensures IntsFit(Loaded(lib, v))
  {
    match v
    case Arr(items) =>
      forall i | 0 <= i < |items| ensures IntsFit(Loaded(lib, items[i])) { LoadedInts(lib, items[i]); }
    case Obj(fields) =>
      var all := LoadedEntries(lib, fields);
      forall x | x in all ensures IntsFit(x.value) {
        var i :| 0 <= i < |all| && all[i] == x;
        LoadedInts(lib, fields[i].value);
      }
    case _ =>
  }

  /** Nothing happens to a value that Python could have. */
  lemma {:induction false} LoadedKeeps(lib: Library, v: Json)
    requires UniqueKeys(v) && Proper(lib, v)
    ensures Loaded(lib, v) == v
  {
    match v
    case Arr(items) =>
      forall i | 0 <= i < |items| ensures Loaded(lib, items[i]) == items[i] { LoadedKeeps(lib, items[i]); }
    case Obj(fields) =>
      forall i | 0 <= i < |fields| ensures Loaded(lib, fields[i].value) == fields[i].value {
        LoadedKeeps(lib, fields[i].value);
      }
      assert LoadedEntries(lib, fields) == fields;
      LastDistinct(fields);
    case _ =>
  }

  lemma {:induction false} SortedProper(lib: Library, v: Json)
    requires UniqueKeys(v) && Proper(lib, v)
    ensures Proper(lib, Sorted(v))
  {
    match v
    case Arr(items) =>
      forall i | 0 <= i < |items| ensures SortedItems(items)[i] == Sorted(items[i]) && Proper(lib, Sorted(items[i])) {
        SortedItemsAt(items, i);
        SortedProper(lib, items[i]);
      }
    case Obj(fields) =>
      forall i | 0 <= i < |fields| ensures Proper(lib, Sorted(fields[i].value)) {
        SortedProper(lib, fields[i].value);
      }
      SortedEntries(fields);
      var r := SortFields(SortedValues(fields));
      forall x | x in r ensures Proper(lib, x.value) {
        var i :| 0 <= i < |fields| && x == Field(fields[i].key, Sorted(fields[i].value));
      }
    case _ =>
  }

  /** Whatever octets are read: no key twice, floats spelled Python's way, no integer too long. */
  lemma LoadOctetsFacts(lib: Library, b: Bytes)
    requires Faithful(lib) && LoadOctets(lib, b).Some?
    ensures var v := LoadOctets(lib, b).value; UniqueKeys(v) && Proper(lib, v) && IntsFit(v)
  {
    hide Loaded, Proper, UniqueKeys, IntsFit, Readable, ParseValue, Faithful, Decoded;
    var s := Decoded(lib, b).value;
    var v := Loads(s, PYTHON).value;
    ParsedReadable(SkipSpace(s), PYTHON);
    LoadedUnique(lib, v);
    LoadedProper(lib, v);
    LoadedInts(lib, v);
  }

  // ---------------------------------------------------------------- the octets of a text

  lemma PassStepOfChar(c: CodePoint, rest: Bytes)
    ensures PassStep(Utf8Char(c) + rest) == Some((c, |Utf8Char(c)|))
  {
    if IsSurrogate(c) {
      var u := Utf8Char(c);
      assert forall i | 0 <= i < |u| :: (u + rest)[i] == u[i];
      assert c / 64 == c / 4096 * 64 + c / 64 % 64;
      assert Join3(u[0], u[1], u[2]) == c;
    } else {
      Utf8StepOfChar(c, rest);
    }
  }

  /** Every text, surrogates included, is what its octets decode to. */
  lemma {:induction false} PassRoundTrip(s: Str)
    ensures PassDecode(Utf8Octets(s)) == Some(s)
  {
    if s != [] {
      hide PassStep, Utf8Char;
      var b, rest := Utf8Octets(s), Utf8Octets(s[1..]);
      PassStepOfChar(s[0], rest);
      assert b == Utf8Char(s[0]) + rest && b[|Utf8Char(s[0])|..] == rest;
      PassRoundTrip(s[1..]);
      assert [s[0]] + s[1..] == s;
    }
  }

  /** The first octets of a character: a zero for the null character, the mark for U+FEFF only. */
  lemma FirstOctets(c: CodePoint)
    ensures var u := Utf8Char(c);
      && u[0] < 0xF8 && (u[0] == 0 <==> c == 0) && (|u| > 1 ==> u[0] != 0 && u[1] != 0)
      && (c == 0xFEFF <==> u == [0xEF, 0xBB, 0xBF]) && (u[0] == 0xEF ==> |u| == 3) && (c < 0x80 <==> |u| == 1)
  {
    if 0x800 <= c < 0x10000 {
      assert c == c / 4096 * 4096 + c / 64 % 64 * 64 + c % 64;
    }
  }

  lemma StartsAlike(u: Bytes, rest: Bytes)
    requires u != [] && (u[0] == 0xEF ==> |u| == 3)
    ensures Marked(u + rest, [0xEF, 0xBB, 0xBF]) <==> u == [0xEF, 0xBB, 0xBF]
    ensures |u| > 1 ==> (u + rest)[1] == u[1]
    ensures |u| == 1 && rest != [] ==> (u + rest)[1] == rest[0]
  {
    if |u| == 3 { assert (u + rest)[..3] == u; }
    if Marked(u + rest, [0xEF, 0xBB, 0xBF]) { assert (u + rest)[0] == 0xEF == u[0]; }
  }

  lemma FirstOfText(s: Str)
    requires s != []
    ensures var b := Utf8Octets(s);
      && b[0] < 0xF8 && (b[0] == 0 <==> s[0] == 0) && (Marked(b, [0xEF, 0xBB, 0xBF]) <==> s[0] == 0xFEFF)
      && (|b| >= 2 ==> (b[1] == 0 <==> s[0] < 0x80 && |s| > 1 && s[1] == 0))
  {
    hide Utf8Char;
    FirstOctets(s[0]);
    var u, rest := Utf8Char(s[0]), Utf8Octets(s[1..]);
    assert Utf8Octets(s) == u + rest;
    StartsAlike(u, rest);
    if |s| > 1 {
      FirstOctets(s[1]);
      assert Utf8Octets(s[1..]) == Utf8Char(s[1..][0]) + Utf8Octets(s[1..][1..]);
    }
  }

  lemma GuessedBy(b: Bytes)
    requires b != [] ==> b[0] < 0xF8
    ensures GuessedUtf8(b)
      <==> !Marked(b, [0xEF, 0xBB, 0xBF]) && (|b| >= 4 || |b| == 2 ==> b[0] != 0 && b[1] != 0)
  {
  }

  /** Whether the octets of a text are taken to be UTF-8: no mark in front, and no null where one would be noticed. */
  lemma TextGuessed(s: Str)
    ensures GuessedUtf8(Utf8Octets(s))
      <==> && (s != [] ==> s[0] != 0xFEFF)
           && (|Utf8Octets(s)| >= 4 || |Utf8Octets(s)| == 2
               ==> s != [] && s[0] != 0 && (s[0] < 0x80 && |s| > 1 ==> s[1] != 0))
  {
    assert s == [] ==> Utf8Octets(s) == [];
    hide Utf8Octets, GuessedUtf8, Marked;
    if s != [] { FirstOfText(s); }
    GuessedBy(Utf8Octets(s));
    NotMarked([]);
  }

  lemma NotMarked(b: Bytes)
    requires |b| < 3
    ensures !Marked(b, [0xEF, 0xBB, 0xBF])
  {
  }

  lemma ShortStep(c: CodePoint, n: nat)
    requires 0 < n < |Utf8Char(c)|
    ensures PassStep(Utf8Char(c)[..n]).None?
  {
  }

  /** The octets are not text, or the first `k` characters of `s` for some `k` that has `n` octets. */
  ghost predicate CutIsText(b: Bytes, s: Str, n: nat) {
    PassDecode(b).None? || exists k :: 0 <= k <= |s| && PassDecode(b) == Some(s[..k]) && |Utf8Octets(s[..k])| == n
  }

  lemma CutMore(c: CodePoint, s: Str, cut: Bytes, n: nat)
    requires CutIsText(cut, s, n)
    ensures CutIsText(Utf8Char(c) + cut, [c] + s, |Utf8Char(c)| + n)
  {
    hide PassStep, Utf8Char;
    var b := Utf8Char(c) + cut;
    PassStepOfChar(c, cut);
    assert b[|Utf8Char(c)|..] == cut;
    if PassDecode(cut).Some? {
      var k :| 0 <= k <= |s| && PassDecode(cut) == Some(s[..k]) && |Utf8Octets(s[..k])| == n;
      var t := ([c] + s)[..k + 1];
      assert t == [c] + s[..k] && t[0] == c && t[1..] == s[..k];
      assert PassDecode(b) == Some(t) && |Utf8Octets(t)| == |Utf8Char(c)| + n;
    }
  }

  /** Cutting the octets of a text cuts the text or leaves something that is not text. */
  lemma {:induction false} CutDecodes(s: Str, n: nat)
    requires n <= |Utf8Octets(s)|
    ensures CutIsText(Utf8Octets(s)[..n], s, n)
  {
    if n == 0 {
      CutToNothing(s);
    } else {
      hide PassDecode, Utf8Char, PassStep, CutIsText;
      var c, rest := s[0], Utf8Octets(s[1..]);
      var m := |Utf8Char(c)|;
      if n < m {
        assert Utf8Octets(s)[..n] == Utf8Char(c)[..n];
        ShortIsNoText(c, n, s);
      } else {
        CutDecodes(s[1..], n - m);
        CutMore(c, s[1..], rest[..n - m], n - m);
        assert Utf8Octets(s)[..n] == Utf8Char(c) + rest[..n - m] && [c] + s[1..] == s;
      }
    }
  }

  lemma CutToNothing(s: Str)
    ensures CutIsText(Utf8Octets(s)[..0], s, 0)
  {
    assert s[..0] == [] && PassDecode([]) == Some(s[..0]);
  }

  lemma ShortIsNoText(c: CodePoint, n: nat, s: Str)
    requires 0 < n < |Utf8Char(c)|
    ensures CutIsText(Utf8Char(c)[..n], s, n)
  {
    ShortStep(c, n);
  }

  /** The octets of an object that holds something begin with a brace and a quote. */
  lemma ObjectOctets(fields: seq<Field>, space: Str)
    requires fields != []
    ensures var b := Utf8Octets(Print(Obj(fields)) + space); |b| >= 2 && b[0] == 0x7B && b[1] == 0x22
  {
    var s := Print(Obj(fields)) + space;
    assert PrintText(fields[0].key)[0] == QUOTE;
    assert PrintField(fields[0])[0] == QUOTE;
    assert PrintFields(fields)[0] == QUOTE;
    assert s[0] == LBRACE && s[1] == QUOTE;
    assert Utf8Octets(s) == Utf8Char(s[0]) + Utf8Octets(s[1..]);
    assert Utf8Octets(s[1..]) == Utf8Char(s[1]) + Utf8Octets(s[1..][1..]);
  }

  lemma ObjectGuessed(b: Bytes, n: nat)
    requires |b| >= 2 && b[0] == 0x7B && b[1] == 0x22 && n <= |b|
    ensures GuessedUtf8(b[..n])
  {
  }

  /** Reading the octets of a printed object gives the dictionary Python makes of it. */
  lemma PrintedLoads(lib: Library, fields: seq<Field>, space: Str)
    requires fields != [] && UniqueKeys(Obj(fields)) && Readable(Obj(fields), true) && SkipSpace(space) == []
    ensures LoadOctets(lib, Utf8Octets(Print(Obj(fields)) + space)) == Some(Loaded(lib, Obj(fields)))
  {
    hide Print, UniqueKeys, Readable, Loaded, Loads, SkipSpace, Utf8Octets, PassDecode, GuessedUtf8;
    var text := Print(Obj(fields)) + space;
    var b := Utf8Octets(text);
    ObjectOctets(fields, space);
    ObjectGuessed(b, |b|);
    assert b[..|b|] == b;
    PassRoundTrip(text);
    LoadsPrinted(Obj(fields), space, PYTHON);
  }

  // ---------------------------------------------------------------- reading and printing again

  /** The value that Python builds for an accepted text without repeated keys. */
  function Built(lib: Library, s: Str): Json
    requires Loads(s, STRICT).Ok?
  {
    Loaded(lib, Loads(s, STRICT).value)
  }

  lemma BuiltFacts(lib: Library, s: Str)
    requires Faithful(lib) && Loads(s, STRICT).Ok?
    ensures var v := Built(lib, s); UniqueKeys(v) && Proper(lib, v) && (Spellable(v) <==> Finite(v))
  {
    hide Loaded, Proper, UniqueKeys, IntsFit, Finite, Spellable, Readable, ParseValue, Faithful;
    var v := Loads(s, STRICT).value;
    ParsedReadable(SkipSpace(s), STRICT);
    SpellableIsReadable(v);
    LoadedUnique(lib, v);
    LoadedProper(lib, v);
    LoadedInts(lib, v);
    SpellableParts(Loaded(lib, v));
  }

  /**
   Canonicalising an accepted text succeeds if and only if the value Python builds for it has no float
   that is not finite and no text with a surrogate. Then it keeps the value and does nothing the second
   time: the canonical text is read as the same dictionary and prints as itself.
   */
  lemma CanonicalIsFixed(lib: Library, s: Str)
    requires Faithful(lib) && Loads(s, STRICT).Ok?
    ensures var v := Built(lib, s);
      && (Dumps(v).Ok? && Encodable(Dumps(v).value) <==> Finite(v) && Encodes(v))
      && (Dumps(v).Ok? ==>
            && Loads(Dumps(v).value, STRICT) == Ok(Sorted(v)) && Built(lib, Dumps(v).value) == Sorted(v)
            && SameValue(v, Sorted(v)) && Dumps(Sorted(v)) == Dumps(v))
  {
    var v := Built(lib, s);
    BuiltFacts(lib, s);
    hide Built, Loaded, Proper, UniqueKeys, Finite, Spellable, Encodes, Encodable, Print, Sorted, SameValue, Faithful;
    if Spellable(v) {
      DumpEncodable(v);
      LoadsDumped(v, [], STRICT);
      assert Dumps(v).value + [] == Dumps(v).value;
      SortedKeeps(v);
      CanonicalTextIdentifies(v, Sorted(v));
      SortedProper(lib, v);
      LoadedKeeps(lib, Sorted(v));
      BuiltIs(lib, Dumps(v).value, Sorted(v));
    }
  }

  lemma BuiltIs(lib: Library, s: Str, v: Json)
    requires Loads(s, STRICT) == Ok(v)
    ensures Built(lib, s) == Loaded(lib, v)
  {
  }

  lemma HugeIsNumeral()
    ensures IsFloatSpelling(HUGE)
  {
    var s := HUGE;
    assert s == [49, 101, 57, 57, 57];
    ThreeNines();
    var tail := s[1..];
    assert tail == [101, 57, 57, 57] && tail[0..] == tail && tail[1..] == [57, 57, 57] && s[0..] == s;
    hide DigitRun;
    assert FractionLength(tail) == 0 && ExponentLength(tail) == 4;
    assert IntegerLength(s) == 1 by { OneDigit(s); }
  }

  lemma OneDigit(s: Str)
    requires |s| > 1 && s[0] == 49 && s[1] == 101
    ensures IntegerLength(s) == 1
  {
    assert DigitRun(s[1..]) == 0;
  }

  lemma ThreeNines()
    ensures DigitRun([57, 57, 57]) == 3
  {
    assert [57, 57, 57][1..] == [57, 57] && [57, 57][1..] == [57] && [57][1..] == [];
    assert DigitRun([57]) == 1;
    assert DigitRun([57, 57]) == 2;
  }

  lemma HugeObject(lib: Library, k: Str)
    requires Faithful(lib)
    ensures var v := Obj([Field(k, Float(HUGE))]);
      UniqueKeys(v) && Readable(v, false) && !Spellable(Loaded(lib, v))
  {
    HugeIsNumeral();
    hide IsFloatSpelling;
    var fields := [Field(k, Float(HUGE))];
    assert DistinctKeys(fields) && UniqueKeys(Float(HUGE)) && Readable(Float(HUGE), false);
    LastDistinct(LoadedEntries(lib, fields));
    assert Loaded(lib, Obj(fields)) == Obj(LoadedEntries(lib, fields));
    assert Loaded(lib, Float(HUGE)) == Float(lib.repr(HUGE)) && !Spellable(Float(lib.repr(HUGE)));
  }

  /** The decoder accepts the text `{"a":1e999}` as an infinity, which the printer then refuses. */
  lemma HugeNumberRefused(lib: Library)
    requires Faithful(lib)
    ensures var s := Print(Obj([Field(Lit("a"), Float(HUGE))])); Loads(s, STRICT).Ok? && Dumps(Built(lib, s)).Err?
  {
    var v := Obj([Field(Lit("a"), Float(HUGE))]);
    HugeObject(lib, Lit("a"));
    hide UniqueKeys, Readable, Print, Loads, Spellable, Loaded, Faithful;
    LoadsPrinted(v, [], STRICT);
    assert Print(v) + [] == Print(v);
    BuiltIs(lib, Print(v), v);
  }
}
