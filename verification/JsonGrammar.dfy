/** Sections 2 to 7 of RFC 8259 as a relation between texts and values. */
module JsonGrammar {
  // What is a spelling of a value, with white space wherever the grammar allows it; and that whatever the scanner
  // accepts is a spelling of what it returns.

  import opened Text
  import opened Json
  import opened JsonRoundTrip
  import opened JsonCanonical
  import opened JsonTokens
  import opened JsonTexts

  /** Space, tab, line feed and carriage return. */
  predicate IsSpaces(s: Str) {
    forall i | 0 <= i < |s| :: s[i] in {32, 9, 10, 13}
  }

  /** `open`, a body, `close`. */
  predicate Encloses(e: Str, open: CodePoint, close: CodePoint) {
    |e| >= 2 && e[0] == open && e[|e| - 1] == close
  }

  function Inner(e: Str): Str
    requires |e| >= 2
  {
    e[1..|e| - 1]
  }

  ghost predicate SpellsString(e: Str, t: Str) {
    Encloses(e, 34, 34) && SpellsText(Inner(e), t)
  }

  /** A spelling of a value, without white space around it. */
  ghost predicate Spells(e: Str, v: Json, constants: bool)
    decreases v, 0
  {
    match v
    case Null => e == Lit("null")
    case Bool(b) => e == if b then Lit("true") else Lit("false")
    case Text(t) => SpellsString(e, t)
    case Arr(items) =>
      Encloses(e, 91, 93) && if items == [] then IsSpaces(Inner(e)) else SpellsItems(Inner(e), items, constants)
    case Obj(fields) =>
      Encloses(e, 123, 125) && if fields == [] then IsSpaces(Inner(e)) else SpellsFields(Inner(e), fields, constants)
    case _ => SpellsNumber(e, v, constants)
  }

  /** A value with white space around it. */
  ghost predicate SpellsItem(x: Str, v: Json, constants: bool)
    decreases v, 1
  {
    exists a, e, c :: x == a + (e + c) && IsSpaces(a) && IsSpaces(c) && Spells(e, v, constants)
  }

  /** Items separated by commas. */
  ghost predicate SpellsItems(b: Str, items: seq<Json>, constants: bool)
    requires items != []
    decreases items, 1
  {
    if |items| == 1 then SpellsItem(b, items[0], constants)
    else
      exists x, y ::
        b == x + ([44] + y) && SpellsItem(x, items[0], constants) && SpellsItems(y, items[1..], constants)
  }

  /** A key, a colon and a value, with white space around each. */
  ghost predicate SpellsEntry(x: Str, f: Field, constants: bool)
    decreases f, 0
  {
    exists a, key, c, y ::
      x == a + (key + (c + ([58] + y))) && IsSpaces(a) && IsSpaces(c) && SpellsString(key, f.key)
      && SpellsItem(y, f.value, constants)
  }

  /** Entries separated by commas. */
  ghost predicate SpellsFields(b: Str, fields: seq<Field>, constants: bool)
    requires fields != []
    decreases fields, 1
  {
    if |fields| == 1 then SpellsEntry(b, fields[0], constants)
    else
      exists x, y ::
        b == x + ([44] + y) && SpellsEntry(x, fields[0], constants) && SpellsFields(y, fields[1..], constants)
  }

  /** A document: one value with white space around it. */
  ghost predicate IsDocument(s: Str, v: Json, constants: bool) {
    SpellsItem(s, v, constants)
  }

  // ---------------------------------------------------------------- white space

  lemma SpaceExactly(c: CodePoint)
    ensures IsSpace(c) <==> c in {32, 9, 10, 13}
  {
  }

  lemma {:induction false} SkipFound(s: Str) returns (w: Str)
    ensures IsSpaces(w) && s == w + SkipSpace(s)
  {
    if s != [] && IsSpace(s[0]) {
      SpaceExactly(s[0]);
      var more := SkipFound(s[1..]);
      w := [s[0]] + more;
      assert s == [s[0]] + s[1..];
    } else {
      w := [];
    }
  }

  lemma {:induction false} SkipTaken(w: Str, s: Str)
    requires IsSpaces(w) && (s == [] || !IsSpace(s[0]))
    ensures SkipSpace(w + s) == s
  {
    if w == [] {
      assert w + s == s;
    } else {
      assert (w + s)[1..] == w[1..] + s;
      SpaceExactly(w[0]);
      SkipTaken(w[1..], s);
    }
  }

  lemma SpacesJoin(a: Str, b: Str)
    requires IsSpaces(a) && IsSpaces(b)
    ensures IsSpaces(a + b)
  {
  }

  // ---------------------------------------------------------------- making spellings

  lemma MakeItem(a: Str, e: Str, c: Str, v: Json, constants: bool)
    requires IsSpaces(a) && IsSpaces(c) && Spells(e, v, constants)
    ensures SpellsItem(a + (e + c), v, constants)
  {
    hide Spells;
  }

  lemma MakeEntry(a: Str, key: Str, c: Str, y: Str, f: Field, constants: bool)
    requires IsSpaces(a) && IsSpaces(c) && SpellsString(key, f.key) && SpellsItem(y, f.value, constants)
    ensures SpellsEntry(a + (key + (c + ([58] + y))), f, constants)
  {
    hide SpellsString, SpellsItem;
  }

  lemma MakeItems(x: Str, y: Str, v: Json, items: seq<Json>, constants: bool)
    requires items != [] && SpellsItem(x, v, constants) && SpellsItems(y, items, constants)
    ensures SpellsItems(x + ([44] + y), [v] + items, constants)
  {
    hide SpellsItem;
    var all := [v] + items;
    assert all[0] == v && all[1..] == items && |all| > 1;
  }

  lemma MakeFields(x: Str, y: Str, f: Field, fields: seq<Field>, constants: bool)
    requires fields != [] && SpellsEntry(x, f, constants) && SpellsFields(y, fields, constants)
    ensures SpellsFields(x + ([44] + y), [f] + fields, constants)
  {
    hide SpellsEntry;
    var all := [f] + fields;
    assert all[0] == f && all[1..] == fields && |all| > 1;
  }

  /** White space may be put in front. */
  lemma SpacedItem(w: Str, x: Str, v: Json, constants: bool)
    requires IsSpaces(w) && SpellsItem(x, v, constants)
    ensures SpellsItem(w + x, v, constants)
  {
    hide Spells;
    var a, e, c :| x == a + (e + c) && IsSpaces(a) && IsSpaces(c) && Spells(e, v, constants);
    SpacesJoin(w, a);
    assert w + x == (w + a) + (e + c);
    MakeItem(w + a, e, c, v, constants);
  }

  lemma SpacedItems(w: Str, b: Str, items: seq<Json>, constants: bool)
    requires items != [] && IsSpaces(w) && SpellsItems(b, items, constants)
    ensures SpellsItems(w + b, items, constants)
  {
    hide SpellsItem;
    if |items| == 1 {
      SpacedItem(w, b, items[0], constants);
    } else {
      var x, y :|
        b == x + ([44] + y) && SpellsItem(x, items[0], constants) && SpellsItems(y, items[1..], constants);
      SpacedItem(w, x, items[0], constants);
      assert w + b == (w + x) + ([44] + y) && items == [items[0]] + items[1..];
      MakeItems(w + x, y, items[0], items[1..], constants);
    }
  }

  lemma SpacedEntry(w: Str, x: Str, f: Field, constants: bool)
    requires IsSpaces(w) && SpellsEntry(x, f, constants)
    ensures SpellsEntry(w + x, f, constants)
  {
    hide SpellsItem, SpellsString;
    var a, key, c, y :|
      x == a + (key + (c + ([58] + y))) && IsSpaces(a) && IsSpaces(c) && SpellsString(key, f.key)
      && SpellsItem(y, f.value, constants);
    SpacesJoin(w, a);
    assert w + x == (w + a) + (key + (c + ([58] + y)));
    MakeEntry(w + a, key, c, y, f, constants);
  }

  lemma SpacedFields(w: Str, b: Str, fields: seq<Field>, constants: bool)
    requires fields != [] && IsSpaces(w) && SpellsFields(b, fields, constants)
    ensures SpellsFields(w + b, fields, constants)
  {
    hide SpellsEntry;
    if |fields| == 1 {
      SpacedEntry(w, b, fields[0], constants);
    } else {
      var x, y :|
        b == x + ([44] + y) && SpellsEntry(x, fields[0], constants) && SpellsFields(y, fields[1..], constants);
      SpacedEntry(w, x, fields[0], constants);
      assert w + b == (w + x) + ([44] + y) && fields == [fields[0]] + fields[1..];
      MakeFields(w + x, y, fields[0], fields[1..], constants);
    }
  }

  // ---------------------------------------------------------------- what is accepted is a spelling

  /** `s` is a spelling of the value and then `rest`. */
  ghost predicate ValueThen(s: Str, v: Json, rest: Str, constants: bool) {
    exists e :: s == e + rest && e != [] && Spells(e, v, constants)
  }

  /** `s` is the items up to the closing bracket and then `rest`. */
  ghost predicate ItemsThen(s: Str, items: seq<Json>, rest: Str, constants: bool) {
    items != [] && exists b :: s == b + ([93] + rest) && SpellsItems(b, items, constants)
  }

  ghost predicate FieldsThen(s: Str, fields: seq<Field>, rest: Str, constants: bool) {
    fields != [] && exists b :: s == b + ([125] + rest) && SpellsFields(b, fields, constants)
  }

  lemma StringThen(s: Str, t: Str, rest: Str) returns (e: Str)
    requires s != [] && s[0] == 34 && TextThen(s[1..], t, rest)
    ensures s == e + rest && e != [] && SpellsString(e, t)
  {
    var more := s[1..];
    var k := |more| - |rest| - 1;
    e := s[..k + 2];
    assert Inner(e) == more[..k];
    assert s == e + rest by { assert more[k + 1..] == rest; assert s[k + 2..] == rest; }
    hide SpellsText;
  }

  lemma KeywordThen(s: Str, word: string, v: Json, constants: bool)
    requires Begins(s, word) && |word| > 0 && Spells(Lit(word), v, constants)
    ensures ValueThen(s, v, s[|word|..], constants)
  {
    hide Spells;
    assert s == Lit(word) + s[|word|..];
  }

  lemma NumberIsValue(s: Str, v: Json, rest: Str, constants: bool)
    requires NumberThen(s, v, rest, constants)
    ensures ValueThen(s, v, rest, constants)
  {
    hide SpellsNumber;
    var e := s[..|s| - |rest|];
    assert s == e + rest;
    NumberSpells(e, v, constants);
  }

  lemma NumberSpells(e: Str, v: Json, constants: bool)
    requires SpellsNumber(e, v, constants)
    ensures Spells(e, v, constants)
  {
    hide SpellsInt, SpellsFloat;
  }

  lemma EmptyThen(s: Str, w: Str, open: CodePoint, close: CodePoint, rest: Str) returns (e: Str)
    requires s != [] && s[0] == open && s[1..] == w + ([close] + rest) && IsSpaces(w)
    ensures s == e + rest && Encloses(e, open, close) && IsSpaces(Inner(e))
  {
    e := [open] + w + [close];
    assert Inner(e) == w;
    assert s == [s[0]] + s[1..];
  }

  /** A body between its brackets. */
  lemma EnclosedThen(s: Str, b: Str, open: CodePoint, close: CodePoint, rest: Str) returns (e: Str)
    requires s != [] && s[0] == open && s[1..] == b + ([close] + rest)
    ensures s == e + rest && Encloses(e, open, close) && Inner(e) == b
  {
    e := [open] + b + [close];
    assert Inner(e) == b;
    assert s == [s[0]] + s[1..];
  }

  lemma {:induction false} ValueFound(s: Str, d: Dialect)
    requires ParseValue(s, d).Ok?
    ensures ValueThen(s, ParseValue(s, d).value.0, ParseValue(s, d).value.1, d.constants)
    decreases |s|, 0
  {
    hide ValueThen, ItemsThen, FieldsThen, SkipSpace, ParseNumber, ParseChars;
    var (v, rest) := ParseValue(s, d).value;
    if s[0] == QUOTE {
      TextFound(s[1..]);
      StringIsValue(s, v.s, rest, d.constants);
    } else if s[0] == LBRACE {
      var w := SkipFound(s[1..]);
      var body := SkipSpace(s[1..]);
      if body != [] && body[0] == RBRACE {
        EmptyIsValue(s, w, body, v, rest, d.constants);
      } else {
        FieldsFound(body, d);
        FieldsAreValue(s, w, body, v.fields, rest, d.constants);
      }
    } else if s[0] == LBRACKET {
      var w := SkipFound(s[1..]);
      var body := SkipSpace(s[1..]);
      if body != [] && body[0] == RBRACKET {
        EmptyIsValue(s, w, body, v, rest, d.constants);
      } else {
        ItemsFound(body, d);
        ItemsAreValue(s, w, body, v.items, rest, d.constants);
      }
    } else if Begins(s, "null") {
      KeywordThen(s, "null", Null, d.constants);
    } else if Begins(s, "true") {
      KeywordThen(s, "true", Bool(true), d.constants);
    } else if Begins(s, "false") {
      KeywordThen(s, "false", Bool(false), d.constants);
    } else {
      NumberFound(s, d.constants);
      NumberIsValue(s, v, rest, d.constants);
    }
  }

  lemma StringIsValue(s: Str, t: Str, rest: Str, constants: bool)
    requires s != [] && s[0] == 34 && TextThen(s[1..], t, rest)
    ensures ValueThen(s, Text(t), rest, constants)
  {
    hide TextThen, SpellsString;
    var e := StringThen(s, t, rest);
  }

  lemma EmptyIsValue(s: Str, w: Str, body: Str, v: Json, rest: Str, constants: bool)
    requires s != [] && s[1..] == w + body && IsSpaces(w) && body != [] && rest == body[1..]
    requires (v == Arr([]) && s[0] == 91 && body[0] == 93) || (v == Obj([]) && s[0] == 123 && body[0] == 125)
    ensures ValueThen(s, v, rest, constants)
  {
    assert body == [body[0]] + rest;
    var e := EmptyThen(s, w, s[0], body[0], rest);
  }

  lemma ItemsAreValue(s: Str, w: Str, body: Str, items: seq<Json>, rest: Str, constants: bool)
    requires s != [] && s[0] == 91 && s[1..] == w + body && IsSpaces(w) && ItemsThen(body, items, rest, constants)
    ensures ValueThen(s, Arr(items), rest, constants)
  {
    hide SpellsItems, IsSpaces;
    var b :| body == b + ([93] + rest) && SpellsItems(b, items, constants);
    SpacedItems(w, b, items, constants);
    assert s[1..] == (w + b) + ([93] + rest);
    var e := EnclosedThen(s, w + b, 91, 93, rest);
  }

  lemma FieldsAreValue(s: Str, w: Str, body: Str, fields: seq<Field>, rest: Str, constants: bool)
    requires s != [] && s[0] == 123 && s[1..] == w + body && IsSpaces(w) && FieldsThen(body, fields, rest, constants)
    ensures ValueThen(s, Obj(fields), rest, constants)
  {
    hide SpellsFields, IsSpaces;
    var b :| body == b + ([125] + rest) && SpellsFields(b, fields, constants);
    SpacedFields(w, b, fields, constants);
    assert s[1..] == (w + b) + ([125] + rest);
    var e := EnclosedThen(s, w + b, 123, 125, rest);
  }

  lemma {:induction false} ItemsFound(s: Str, d: Dialect)
    requires ParseItems(s, d).Ok?
    ensures ItemsThen(s, ParseItems(s, d).value.0, ParseItems(s, d).value.1, d.constants)
    decreases |s|, 1
  {
    hide ValueThen, ItemsThen, SkipSpace, ParseValue;
    var (items, rest) := ParseItems(s, d).value;
    var (value, afterValue) := ParseValue(s, d).value;
    ValueFound(s, d);
    var c := SkipFound(afterValue);
    var next := SkipSpace(afterValue);
    if next[0] == RBRACKET {
      LastItem(s, value, afterValue, c, next, d.constants);
    } else {
      var w := SkipFound(next[1..]);
      var more := SkipSpace(next[1..]);
      ItemsFound(more, d);
      NextItem(s, value, afterValue, c, next, w, more, items[1..], rest, d.constants);
      assert items == [value] + items[1..];
    }
  }

  lemma LastItem(s: Str, v: Json, after: Str, c: Str, next: Str, constants: bool)
    requires ValueThen(s, v, after, constants) && after == c + next && IsSpaces(c) && next != [] && next[0] == 93
    ensures ItemsThen(s, [v], next[1..], constants)
  {
    hide Spells, IsSpaces;
    var e :| s == e + after && e != [] && Spells(e, v, constants);
    assert IsSpaces([]) by { EmptySpaces(); }
    MakeItem([], e, c, v, constants);
    assert [] + (e + c) == e + c;
    assert s == (e + c) + ([93] + next[1..]) by { assert next == [93] + next[1..]; }
    hide SpellsItem;
    assert SpellsItems(e + c, [v], constants);
  }

  lemma EmptySpaces()
    ensures IsSpaces([])
  {
  }

  lemma NextItem(s: Str, v: Json, after: Str, c: Str, next: Str, w: Str, more: Str, items: seq<Json>, rest: Str,
          constants: bool)
    requires ValueThen(s, v, after, constants) && after == c + next && IsSpaces(c) && next != [] && next[0] == 44
    requires next[1..] == w + more && IsSpaces(w) && ItemsThen(more, items, rest, constants)
    ensures ItemsThen(s, [v] + items, rest, constants)
  {
    hide Spells, IsSpaces, SpellsItem, SpellsItems;
    var e :| s == e + after && e != [] && Spells(e, v, constants);
    var b :| more == b + ([93] + rest) && SpellsItems(b, items, constants);
    EmptySpaces();
    MakeItem([], e, c, v, constants);
    SpacedItems(w, b, items, constants);
    assert [] + (e + c) == e + c;
    MakeItems(e + c, w + b, v, items, constants);
    assert next == [44] + next[1..];
    assert s == ((e + c) + ([44] + (w + b))) + ([93] + rest);
  }

  /** An entry up to what follows it. */
  ghost predicate EntryThen(s: Str, f: Field, next: Str, constants: bool) {
    exists x :: s == x + next && SpellsEntry(x, f, constants)
  }

  lemma EntryFound(s: Str, key: Str, afterKey: Str, c: Str, colon: Str, w: Str, from: Str, v: Json, after: Str,
          g: Str, next: Str, constants: bool)
    requires s != [] && s[0] == 34 && TextThen(s[1..], key, afterKey)
    requires afterKey == c + colon && IsSpaces(c) && colon != [] && colon[0] == 58
    requires colon[1..] == w + from && IsSpaces(w) && ValueThen(from, v, after, constants)
    requires after == g + next && IsSpaces(g)
    ensures EntryThen(s, Field(key, v), next, constants)
  {
    hide Spells, IsSpaces, SpellsString, SpellsItem, TextThen, SpellsEntry;
    var k := StringThen(s, key, afterKey);
    var e :| from == e + after && e != [] && Spells(e, v, constants);
    MakeItem(w, e, g, v, constants);
    EmptySpaces();
    MakeEntry([], k, c, w + (e + g), Field(key, v), constants);
    var x := k + (c + ([58] + (w + (e + g))));
    assert [] + x == x;
    assert colon == [58] + colon[1..];
    assert s == x + next;
  }

  lemma {:induction false} FieldsFound(s: Str, d: Dialect)
    requires ParseFields(s, d).Ok?
    ensures FieldsThen(s, ParseFields(s, d).value.0, ParseFields(s, d).value.1, d.constants)
    decreases |s|
  {
    hide ValueThen, FieldsThen, SkipSpace, ParseValue, ParseChars, EntryThen, TextThen;
    var (fields, rest) := ParseFields(s, d).value;
    var (key, afterKey) := ParseChars(s[1..]).value;
    TextFound(s[1..]);
    var colon := SkipSpace(afterKey);
    var c := SkipFound(afterKey);
    var from := SkipSpace(colon[1..]);
    var w := SkipFound(colon[1..]);
    var (value, after) := ParseValue(from, d).value;
    ValueFound(from, d);
    var next := SkipSpace(after);
    var g := SkipFound(after);
    EntryFound(s, key, afterKey, c, colon, w, from, value, after, g, next, d.constants);
    if next[0] == RBRACE {
      LastEntry(s, Field(key, value), next, d.constants);
    } else {
      var space := SkipFound(next[1..]);
      var more := SkipSpace(next[1..]);
      FieldsFound(more, d);
      NextEntry(s, Field(key, value), next, space, more, fields[1..], rest, d.constants);
      assert fields == [Field(key, value)] + fields[1..];
    }
  }

  lemma LastEntry(s: Str, f: Field, next: Str, constants: bool)
    requires EntryThen(s, f, next, constants) && next != [] && next[0] == 125
    ensures FieldsThen(s, [f], next[1..], constants)
  {
    hide SpellsEntry;
    var x :| s == x + next && SpellsEntry(x, f, constants);
    assert next == [125] + next[1..];
    assert s == x + ([125] + next[1..]) && SpellsFields(x, [f], constants);
  }

  lemma NextEntry(s: Str, f: Field, next: Str, w: Str, more: Str, fields: seq<Field>, rest: Str, constants: bool)
    requires EntryThen(s, f, next, constants) && next != [] && next[0] == 44
    requires next[1..] == w + more && IsSpaces(w) && FieldsThen(more, fields, rest, constants)
    ensures FieldsThen(s, [f] + fields, rest, constants)
  {
    hide SpellsEntry, SpellsFields, IsSpaces;
    var x :| s == x + next && SpellsEntry(x, f, constants);
    var b :| more == b + ([125] + rest) && SpellsFields(b, fields, constants);
    SpacedFields(w, b, fields, constants);
    MakeFields(x, w + b, f, fields, constants);
    assert next == [44] + next[1..];
    assert s == (x + ([44] + (w + b))) + ([125] + rest);
  }
}
