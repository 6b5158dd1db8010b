/** The decoder accepts exactly the texts of RFC 8259. */
module JsonDecides {
  // Every spelling of a value is decoded to it, so that decoding decides the grammar.

  import opened Text
  import opened Json
  import opened JsonRoundTrip
  import opened JsonCanonical
  import opened JsonTokens
  import opened JsonTexts
  import opened JsonGrammar

  lemma WordHeads()
    ensures Lit("null")[0] == 110 && Lit("true")[0] == 116 && Lit("false")[0] == 102
    ensures Lit("NaN")[0] == 78 && Lit("Infinity")[0] == 73 && Lit("-Infinity")[0] == 45
  {
  }

  lemma IntHead(e: Str, n: int)
    requires SpellsInt(e, n)
    ensures e != [] && (e[0] == 45 || 48 <= e[0] <= 57)
  {
    var sign, whole :| IsSign(sign) && IsWhole(whole) && IsInt(e, sign, whole, n);
    assert e[0] == if sign == [] then whole[0] else sign[0];
  }

  lemma FloatHead(e: Str)
    requires SpellsFloat(e)
    ensures e != [] && (e[0] == 45 || 48 <= e[0] <= 57)
  {
    var sign, whole, fraction, exponent :| IsFloat(e, sign, whole, fraction, exponent);
    assert e[0] == if sign == [] then whole[0] else sign[0];
  }

  lemma NumberHead(e: Str, v: Json, constants: bool)
    requires SpellsNumber(e, v, constants)
    ensures e != [] && (e[0] == 45 || 48 <= e[0] <= 57 || e[0] == 78 || e[0] == 73)
  {
    WordHeads();
    hide SpellsInt, SpellsFloat, Lit;
    match v
    case Int(n) => IntHead(e, n);
    case Float(f) => if SpellsFloat(e) { FloatHead(e); }
  }

  /** How a spelling begins. */
  lemma Head(e: Str, v: Json, constants: bool)
    requires Spells(e, v, constants)
    ensures e != [] && !IsSpace(e[0]) && e[0] != 0xFEFF && e[0] != RBRACKET && e[0] != RBRACE
  {
    WordHeads();
    hide SpellsItems, SpellsFields, SpellsText, SpellsNumber, Lit;
    if v.Int? || v.Float? { NumberHead(e, v, constants); }
  }

  lemma NumberParsed(e: Str, v: Json, rest: Str, d: Dialect)
    requires SpellsNumber(e, v, d.constants) && Stops(rest)
    ensures ParseValue(e + rest, d) == Ok((v, rest))
  {
    assert e != [] ==> (e + rest)[0] == e[0];
    if v.Int? || SpellsFloat(e) {
      NumberTaken(e, v, rest, d.constants);
      if v.Int? { IntHead(e, v.n); } else { FloatHead(e); }
      hide SpellsNumber, SpellsInt, SpellsFloat;
      NumberBranch(e + rest, d);
    } else {
      ConstantExactly(e);
      ConstantBranch(e, rest, d);
    }
  }

  lemma KeywordParsed(e: Str, v: Json, rest: Str, d: Dialect)
    requires (v.Null? || v.Bool?) && Spells(e, v, d.constants)
    ensures ParseValue(e + rest, d) == Ok((v, rest))
  {
    KeywordBranch(v, rest, d);
  }

  lemma TextParsed(e: Str, t: Str, rest: Str, d: Dialect)
    requires SpellsString(e, t)
    ensures ParseValue(e + rest, d) == Ok((Text(t), rest))
  {
    StringScanned(e, t, rest);
    hide ParseChars, SpellsString, SpellsText;
  }

  lemma StringScanned(e: Str, t: Str, rest: Str)
    requires SpellsString(e, t)
    ensures var s := e + rest; s != [] && s[0] == 34 && ParseChars(s[1..]) == Ok((t, rest))
  {
    var s := e + rest;
    assert s[1..] == Inner(e) + [QUOTE] + rest;
    hide SpellsText;
    TextTaken(Inner(e), t, rest);
  }

  /** What may follow a value. */
  predicate Ends(after: Str) {
    after == [] || after[0] in {44, 93, 125}
  }

  lemma SpacesStop(c: Str, after: Str)
    requires IsSpaces(c) && Ends(after)
    ensures Stops(c + after) && SkipSpace(c + after) == after
  {
    SkipTaken(c, after);
    assert c + after != [] ==> (c + after)[0] == if c == [] then after[0] else c[0];
  }

  /** `s` is a value and then, after white space, `after`. */
  predicate Reads(s: Str, v: Json, after: Str, d: Dialect) {
    && s != [] && s[0] != RBRACKET && s[0] != RBRACE && s[0] != 0xFEFF && SkipSpace(s) == s
    && ParseValue(s, d).Ok? && ParseValue(s, d).value.0 == v && SkipSpace(ParseValue(s, d).value.1) == after
  }

  lemma ItemParts(x: Str, v: Json, constants: bool) returns (a: Str, e: Str, c: Str)
    requires SpellsItem(x, v, constants)
    ensures x == a + (e + c) && IsSpaces(a) && IsSpaces(c) && Spells(e, v, constants)
  {
    hide Spells;
    var p, q, r :| x == p + (q + r) && IsSpaces(p) && IsSpaces(r) && Spells(q, v, constants);
    a, e, c := p, q, r;
  }

  lemma {:induction false} ItemTaken(x: Str, v: Json, after: Str, d: Dialect)
    requires SpellsItem(x, v, d.constants) && Ends(after) && (d.strict ==> UniqueKeys(v))
    ensures Reads(SkipSpace(x + after), v, after, d)
    decreases v, 1
  {
    hide *;
    var a, e, c := ItemParts(x, v, d.constants);
    Head(e, v, d.constants);
    SpacesStop(c, after);
    ValueTaken(e, v, c + after, d);
    assert x + after == a + (e + (c + after));
    ItemRead(a, e, c, v, after, d);
  }

  lemma ItemRead(a: Str, e: Str, c: Str, v: Json, after: Str, d: Dialect)
    requires e != [] && !IsSpace(e[0]) && e[0] != 0xFEFF && e[0] != RBRACKET && e[0] != RBRACE && IsSpaces(a)
    requires ParseValue(e + (c + after), d) == Ok((v, c + after)) && SkipSpace(c + after) == after
    ensures Reads(SkipSpace(a + (e + (c + after))), v, after, d)
  {
    hide ParseValue, SkipSpace, IsSpaces;
    var s := e + (c + after);
    SkipTaken(a, s);
    SkipTaken([], s) by { EmptySpaces(); }
    assert [] + s == s;
  }

  lemma {:induction false} ValueTaken(e: Str, v: Json, rest: Str, d: Dialect)
    requires Spells(e, v, d.constants) && Stops(rest) && (d.strict ==> UniqueKeys(v))
    ensures ParseValue(e + rest, d) == Ok((v, rest))
    decreases v, 0
  {
    hide ParseValue, Stops;
    match v
    case Text(t) => TextParsed(e, t, rest, d);
    case Arr(items) =>
      if items == [] {
        EmptyTaken(e, v, rest, d);
      } else {
        hide SpellsItems;
        ItemsTaken(Inner(e), items, rest, d);
        ArrayTaken(e, items, rest, d);
      }
    case Obj(fields) =>
      if fields == [] {
        EmptyTaken(e, v, rest, d);
      } else {
        hide SpellsFields;
        FieldsTaken(Inner(e), fields, rest, d);
        ObjectTaken(e, fields, rest, d);
      }
    case Null => KeywordParsed(e, v, rest, d);
    case Bool(_) => KeywordParsed(e, v, rest, d);
    case _ => NumberParsed(e, v, rest, d);
  }

  lemma Bracketed(e: Str, rest: Str, open: CodePoint, close: CodePoint)
    requires Encloses(e, open, close)
    ensures var s := e + rest; s != [] && s[0] == open && s[1..] == Inner(e) + ([close] + rest)
  {
  }

  lemma EmptyTaken(e: Str, v: Json, rest: Str, d: Dialect)
    requires (v == Arr([]) || v == Obj([])) && Spells(e, v, d.constants)
    ensures ParseValue(e + rest, d) == Ok((v, rest))
  {
    var close := if v.Arr? then 93 else 125;
    Bracketed(e, rest, if v.Arr? then 91 else 123, close);
    SkipTaken(Inner(e), [close] + rest);
    hide SkipSpace;
    assert ([close] + rest)[1..] == rest;
  }

  /** The items after the opening bracket and white space. */
  predicate ReadsItems(s: Str, items: seq<Json>, rest: Str, d: Dialect) {
    s != [] && s[0] != RBRACKET && ParseItems(s, d) == Ok((items, rest))
  }

  predicate ReadsFields(s: Str, fields: seq<Field>, rest: Str, d: Dialect) {
    s != [] && s[0] != RBRACE && ParseFields(s, d) == Ok((fields, rest))
  }

  lemma ArrayTaken(e: Str, items: seq<Json>, rest: Str, d: Dialect)
    requires Encloses(e, 91, 93) && ReadsItems(SkipSpace(Inner(e) + ([93] + rest)), items, rest, d)
    ensures ParseValue(e + rest, d) == Ok((Arr(items), rest))
  {
    Bracketed(e, rest, 91, 93);
    hide SkipSpace, ParseItems;
  }

  lemma ObjectTaken(e: Str, fields: seq<Field>, rest: Str, d: Dialect)
    requires Encloses(e, 123, 125) && ReadsFields(SkipSpace(Inner(e) + ([125] + rest)), fields, rest, d)
    requires d.strict ==> DistinctKeys(fields)
    ensures ParseValue(e + rest, d) == Ok((Obj(fields), rest))
  {
    Bracketed(e, rest, 123, 125);
    hide SkipSpace, ParseFields;
  }

  lemma ItemsParts(b: Str, items: seq<Json>, constants: bool) returns (x: Str, y: Str)
    requires |items| > 1 && SpellsItems(b, items, constants)
    ensures b == x + ([44] + y) && SpellsItem(x, items[0], constants) && SpellsItems(y, items[1..], constants)
  {
    hide SpellsItem;
    var p, q :| b == p + ([44] + q) && SpellsItem(p, items[0], constants) && SpellsItems(q, items[1..], constants);
    x, y := p, q;
  }

  lemma FieldsParts(b: Str, fields: seq<Field>, constants: bool) returns (x: Str, y: Str)
    requires |fields| > 1 && SpellsFields(b, fields, constants)
    ensures b == x + ([44] + y) && SpellsEntry(x, fields[0], constants) && SpellsFields(y, fields[1..], constants)
  {
    hide SpellsEntry;
    var p, q :|
      b == p + ([44] + q) && SpellsEntry(p, fields[0], constants) && SpellsFields(q, fields[1..], constants);
    x, y := p, q;
  }

  lemma {:induction false} ItemsTaken(b: Str, items: seq<Json>, rest: Str, d: Dialect)
    requires items != [] && SpellsItems(b, items, d.constants)
    requires d.strict ==> forall i | 0 <= i < |items| :: UniqueKeys(items[i])
    ensures ReadsItems(SkipSpace(b + ([93] + rest)), items, rest, d)
    decreases items, 2
  {
    hide ParseValue, ParseItems, SpellsItem, UniqueKeys, SkipSpace, Reads, ReadsItems;
    if |items| == 1 {
      ItemTaken(b, items[0], [93] + rest, d);
      LastRead(SkipSpace(b + ([93] + rest)), items[0], rest, d);
      assert items == [items[0]];
    } else {
      var x, y := ItemsParts(b, items, d.constants);
      hide SpellsItems;
      var more := y + ([93] + rest);
      ItemTaken(x, items[0], [44] + more, d);
      ItemsTaken(y, items[1..], rest, d);
      assert b + ([93] + rest) == x + ([44] + more);
      NextRead(SkipSpace(x + ([44] + more)), items[0], more, items[1..], rest, d);
      assert items == [items[0]] + items[1..];
    }
  }

  lemma LastRead(s: Str, v: Json, rest: Str, d: Dialect)
    requires Reads(s, v, [93] + rest, d)
    ensures ReadsItems(s, [v], rest, d)
  {
    hide ParseValue, SkipSpace;
    assert ([93] + rest)[1..] == rest;
  }

  lemma NextRead(s: Str, v: Json, more: Str, items: seq<Json>, rest: Str, d: Dialect)
    requires Reads(s, v, [44] + more, d) && ReadsItems(SkipSpace(more), items, rest, d)
    ensures ReadsItems(s, [v] + items, rest, d)
  {
    NextItems(s, v, more, items, rest, d);
  }

  lemma NextItems(s: Str, v: Json, more: Str, items: seq<Json>, rest: Str, d: Dialect)
    requires ParseValue(s, d).Ok? && ParseValue(s, d).value.0 == v
    requires SkipSpace(ParseValue(s, d).value.1) == [44] + more && ParseItems(SkipSpace(more), d) == Ok((items, rest))
    ensures ParseItems(s, d) == Ok(([v] + items, rest))
  {
    hide ParseValue, SkipSpace;
    assert ([44] + more)[1..] == more;
  }

  /** `s` is an entry and then, after white space, `after`. */
  predicate ReadsEntry(s: Str, f: Field, after: Str, d: Dialect) {
    && s != [] && s[0] == QUOTE && ParseChars(s[1..]).Ok? && ParseChars(s[1..]).value.0 == f.key
    && var colon := SkipSpace(ParseChars(s[1..]).value.1);
       colon != [] && colon[0] == COLON && Reads(SkipSpace(colon[1..]), f.value, after, d)
  }

  lemma {:induction false} EntryTaken(x: Str, f: Field, after: Str, d: Dialect)
    requires SpellsEntry(x, f, d.constants) && Ends(after) && (d.strict ==> UniqueKeys(f.value))
    ensures ReadsEntry(SkipSpace(x + after), f, after, d)
    decreases f, 2
  {
    hide *;
    var a, key, c, y := EntryParts(x, f, d.constants);
    ItemTaken(y, f.value, after, d);
    assert x + after == a + (key + (c + ([58] + (y + after))));
    EntryRead(a, key, c, y + after, f, after, d);
  }

  lemma EntryParts(x: Str, f: Field, constants: bool) returns (a: Str, key: Str, c: Str, y: Str)
    requires SpellsEntry(x, f, constants)
    ensures x == a + (key + (c + ([58] + y))) && IsSpaces(a) && IsSpaces(c) && SpellsString(key, f.key)
    ensures SpellsItem(y, f.value, constants)
  {
    hide SpellsString, SpellsItem;
    var p, q, r, t :|
      x == p + (q + (r + ([58] + t))) && IsSpaces(p) && IsSpaces(r) && SpellsString(q, f.key)
      && SpellsItem(t, f.value, constants);
    a, key, c, y := p, q, r, t;
  }

  lemma EntryRead(a: Str, key: Str, c: Str, more: Str, f: Field, after: Str, d: Dialect)
    requires IsSpaces(a) && IsSpaces(c) && SpellsString(key, f.key) && Reads(SkipSpace(more), f.value, after, d)
    ensures ReadsEntry(SkipSpace(a + (key + (c + ([58] + more)))), f, after, d)
  {
    hide ParseChars, SpellsString, Reads, SkipSpace;
    var colon := [58] + more;
    StringScanned(key, f.key, c + colon);
    SkipTaken(c, colon);
    SkipTaken(a, key + (c + colon));
    assert colon[1..] == more;
  }

  lemma {:induction false} FieldsTaken(b: Str, fields: seq<Field>, rest: Str, d: Dialect)
    requires fields != [] && SpellsFields(b, fields, d.constants)
    requires d.strict ==> forall i | 0 <= i < |fields| :: UniqueKeys(fields[i].value)
    ensures ReadsFields(SkipSpace(b + ([125] + rest)), fields, rest, d)
    decreases fields, 3
  {
    hide ParseValue, ParseFields, SpellsEntry, UniqueKeys, SkipSpace, ReadsEntry, ReadsFields;
    if |fields| == 1 {
      EntryTaken(b, fields[0], [125] + rest, d);
      LastEntryRead(SkipSpace(b + ([125] + rest)), fields[0], rest, d);
      assert fields == [fields[0]];
    } else {
      var x, y := FieldsParts(b, fields, d.constants);
      hide SpellsFields;
      var more := y + ([125] + rest);
      EntryTaken(x, fields[0], [44] + more, d);
      FieldsTaken(y, fields[1..], rest, d);
      assert b + ([125] + rest) == x + ([44] + more);
      NextEntryRead(SkipSpace(x + ([44] + more)), fields[0], more, fields[1..], rest, d);
      assert fields == [fields[0]] + fields[1..];
    }
  }

  lemma LastEntryRead(s: Str, f: Field, rest: Str, d: Dialect)
    requires ReadsEntry(s, f, [125] + rest, d)
    ensures ReadsFields(s, [f], rest, d)
  {
    hide ParseValue, ParseChars, SkipSpace;
    assert ([125] + rest)[1..] == rest;
  }

  lemma NextEntryRead(s: Str, f: Field, more: Str, fields: seq<Field>, rest: Str, d: Dialect)
    requires ReadsEntry(s, f, [44] + more, d) && ReadsFields(SkipSpace(more), fields, rest, d)
    ensures ReadsFields(s, [f] + fields, rest, d)
  {
    hide ParseValue, ParseChars, SkipSpace;
    assert ([44] + more)[1..] == more;
  }

  // ---------------------------------------------------------------- documents

  lemma DocumentFound(s: Str, d: Dialect, v: Json)
    requires Loads(s, d) == Ok(v)
    ensures IsDocument(s, v, d.constants)
  {
    hide ParseValue, Spells, SpellsItem, SkipSpace;
    var a := SkipFound(s);
    var (_, rest) := ParseValue(SkipSpace(s), d).value;
    ValueFound(SkipSpace(s), d);
    var c := SkipFound(rest);
    var e :| SkipSpace(s) == e + rest && e != [] && Spells(e, v, d.constants);
    MakeItem(a, e, c, v, d.constants);
    assert s == a + (e + c) by { assert rest == c + []; assert c + [] == c; }
  }

  lemma DocumentTaken(s: Str, d: Dialect, v: Json)
    requires IsDocument(s, v, d.constants) && (d.strict ==> UniqueKeys(v))
    ensures Loads(s, d) == Ok(v)
  {
    hide ParseValue, SpellsItem, UniqueKeys, SkipSpace;
    ItemTaken(s, v, [], d);
    assert s + [] == s;
    NoMark(s, v, d.constants);
  }

  lemma NoMark(s: Str, v: Json, constants: bool)
    requires SpellsItem(s, v, constants)
    ensures s != [] && s[0] != 0xFEFF
  {
    hide Spells;
    var a, e, c :| s == a + (e + c) && IsSpaces(a) && IsSpaces(c) && Spells(e, v, constants);
    Head(e, v, constants);
    assert s[0] == if a == [] then e[0] else a[0];
  }

  lemma StrictIsUnique(s: Str, d: Dialect)
    requires d.strict && Loads(s, d).Ok?
    ensures UniqueKeys(Loads(s, d).value)
  {
    hide Loads, UniqueKeys;
    LoadsExactlyUnique(s, d.constants);
    assert d == Dialect(true, d.constants);
  }

  /**
   A text is decoded to a value if and only if it is a spelling of the value with white space around it and,
   where repeated keys are refused, the value has none.
   */
  lemma DecodesExactly(s: Str, d: Dialect, v: Json)
    ensures Loads(s, d) == Ok(v) <==> IsDocument(s, v, d.constants) && (d.strict ==> UniqueKeys(v))
  {
    hide Loads, IsDocument, UniqueKeys;
    if Loads(s, d) == Ok(v) {
      DocumentFound(s, d, v);
      if d.strict { StrictIsUnique(s, d); }
    }
    if IsDocument(s, v, d.constants) && (d.strict ==> UniqueKeys(v)) { DocumentTaken(s, d, v); }
  }
}
