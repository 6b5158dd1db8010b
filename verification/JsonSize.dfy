/**
 How many octets a value prints to: a count over the value that key order does not change,
 bounded by six octets a character.
 */
module JsonSize {
  import opened Text
  import opened Json

  /** The number of octets a value prints to. */
  function Size(v: Json): nat
    decreases v, 0
  {
    match v
    case Arr(items) => 2 + (if items == [] then 0 else SizeItems(items) - 1)
    case Obj(fields) => 2 + (if fields == [] then 0 else SizeFields(fields) - 1)
    case _ => |Utf8Octets(Print(v))|
  }

  /** Each item with the separator or the bracket after it. */
  function SizeItems(items: seq<Json>): (r: nat)
    ensures |items| <= r
    decreases items, 1
  {
    if items == [] then 0 else Size(items[0]) + 1 + SizeItems(items[1..])
  }

  function SizeFields(fields: seq<Field>): (r: nat)
    ensures |fields| <= r
    decreases fields, 1
  {
    if fields == [] then 0
    else |Utf8Octets(PrintText(fields[0].key))| + 1 + Size(fields[0].value) + 1 + SizeFields(fields[1..])
  }

  lemma {:induction false} PrintedSize(v: Json)
    ensures |Utf8Octets(Print(v))| == Size(v)
    decreases v, 0
  {
    match v
    case Arr(items) =>
      PrintedItemsSize(items);
      Enclosed(LBRACKET, PrintItems(items), RBRACKET);
    case Obj(fields) =>
      PrintedFieldsSize(fields);
      Enclosed(LBRACE, PrintFields(fields), RBRACE);
    case _ =>
  }

  lemma AsciiOctet(c: CodePoint)
    requires c < 0x80
    ensures Utf8Octets([c]) == [c]
  {
    assert [c][1..] == [];
  }

  lemma Enclosed(open: CodePoint, s: Str, close: CodePoint)
    requires open < 0x80 && close < 0x80
    ensures |Utf8Octets([open] + s + [close])| == |Utf8Octets(s)| + 2
  {
    AsciiOctet(open);
    AsciiOctet(close);
    Utf8OctetsConcat([open] + s, [close]);
    Utf8OctetsConcat([open], s);
  }

  lemma Separated(a: Str, c: CodePoint, b: Str)
    requires c < 0x80
    ensures |Utf8Octets(a + [c] + b)| == |Utf8Octets(a)| + 1 + |Utf8Octets(b)|
  {
    AsciiOctet(c);
    Utf8OctetsConcat(a + [c], b);
    Utf8OctetsConcat(a, [c]);
  }

  lemma {:induction false} PrintedItemsSize(items: seq<Json>)
    ensures |Utf8Octets(PrintItems(items))| == (if items == [] then 0 else SizeItems(items) - 1)
    decreases items, 1
  {
    hide Utf8Octets, Print, Size;
    if items == [] {
      NoOctets();
    } else {
      PrintedSize(items[0]);
      PrintedItemsSize(items[1..]);
      Separated(Print(items[0]), COMMA, PrintItems(items[1..]));
    }
  }

  lemma NoOctets()
    ensures Utf8Octets([]) == []
  {
  }

  lemma {:induction false} PrintedFieldsSize(fields: seq<Field>)
    ensures |Utf8Octets(PrintFields(fields))| == (if fields == [] then 0 else SizeFields(fields) - 1)
    decreases fields, 1
  {
    hide Utf8Octets, Print, PrintText, Size;
    if fields == [] {
      NoOctets();
    } else {
      PrintedSize(fields[0].value);
      Separated(PrintText(fields[0].key), COLON, Print(fields[0].value));
      PrintedFieldsSize(fields[1..]);
      Separated(PrintField(fields[0]), COMMA, PrintFields(fields[1..]));
    }
  }

  /** The weight of one entry: its key, the colon, its value and the separator after it. */
  function EntrySize(f: Field): nat {
    |Utf8Octets(PrintText(f.key))| + 1 + Size(f.value) + 1
  }

  lemma {:induction false} InsertSize(f: Field, fields: seq<Field>)
    ensures SizeFields(InsertField(f, fields)) == EntrySize(f) + SizeFields(fields)
  {
    hide Utf8Octets, PrintText, Size, StrLess;
    var r := InsertField(f, fields);
    if fields == [] || StrLess(f.key, fields[0].key) {
      assert r[0] == f && r[1..] == fields;
    } else {
      InsertSize(f, fields[1..]);
      assert r[0] == fields[0] && r[1..] == InsertField(f, fields[1..]);
    }
  }

  lemma {:induction false} SortSize(fields: seq<Field>)
    ensures SizeFields(SortFields(fields)) == SizeFields(fields) && |SortFields(fields)| == |fields|
  {
    hide Utf8Octets, PrintText, Size, InsertField;
    if fields != [] {
      SortSize(fields[1..]);
      InsertSize(fields[0], SortFields(fields[1..]));
      InsertLength(fields[0], SortFields(fields[1..]));
    }
  }

  lemma {:induction false} InsertLength(f: Field, fields: seq<Field>)
    ensures |InsertField(f, fields)| == |fields| + 1
  {
    hide StrLess;
    if fields != [] && !StrLess(f.key, fields[0].key) { InsertLength(f, fields[1..]); }
  }

  /** Sorting keys does not change how many octets a value takes. */
  lemma {:induction false} SortedSize(v: Json)
    ensures Size(Sorted(v)) == Size(v)
    decreases v, 0
  {
    hide Utf8Octets, Print;
    match v
    case Arr(items) => SortedItemsSize(items);
    case Obj(fields) =>
      SortedValuesSize(fields);
      SortSize(SortedValues(fields));
    case _ =>
  }

  lemma {:induction false} SortedItemsSize(items: seq<Json>)
    ensures SizeItems(SortedItems(items)) == SizeItems(items)
    decreases items, 1
  {
    hide Sorted, Size;
    if items != [] {
      SortedSize(items[0]);
      SortedItemsSize(items[1..]);
      assert SortedItems(items)[1..] == SortedItems(items[1..]);
    }
  }

  lemma {:induction false} SortedValuesSize(fields: seq<Field>)
    ensures SizeFields(SortedValues(fields)) == SizeFields(fields)
    decreases fields, 1
  {
    hide Sorted, Size, Utf8Octets, PrintText;
    if fields != [] {
      SortedSize(fields[0].value);
      SortedValuesSize(fields[1..]);
      assert SortedValues(fields)[1..] == SortedValues(fields[1..]);
    }
  }

  /** At most six octets for a character: an escape is ASCII, a plain one takes up to four. */
  lemma {:induction false} TextSize(s: Str)
    ensures |Utf8Octets(PrintText(s))| <= 6 * |s| + 2
  {
    EscapedSize(s);
    Enclosed(QUOTE, EscapeChars(s), QUOTE);
  }

  lemma {:induction false} EscapedSize(s: Str)
    ensures |Utf8Octets(EscapeChars(s))| <= 6 * |s|
  {
    if s != [] {
      EscapeSize(s[0]);
      EscapedSize(s[1..]);
      Utf8OctetsConcat(EscapeChar(s[0]), EscapeChars(s[1..]));
    }
  }

  lemma EscapeSize(c: CodePoint)
    ensures |Utf8Octets(EscapeChar(c))| <= 6
  {
    var e := EscapeChar(c);
    if c < 0x20 || c == QUOTE || c == BACKSLASH {
      assert forall i | 0 <= i < |e| :: e[i] < 0x80;
      Utf8OctetsAscii(e);
    } else {
      assert e == [c] && e[1..] == [];
    }
  }

  lemma IntSize(n: int)
    requires IntFits(n)
    ensures Size(Int(n)) <= MAX_INT_DIGITS + 1
  {
    var p := PrintInt(n);
    assert forall i | 0 <= i < |p| :: p[i] < 0x80;
    Utf8OctetsAscii(p);
  }

  lemma SmallIntSize(n: int)
    requires 0 <= n < 10
    ensures Size(Int(n)) == 1
  {
    assert PrintInt(n) == [ZERO + n];
    AsciiOctet(ZERO + n);
  }

  lemma TextEntrySize(f: Field, characters: nat)
    requires f.value.Text? && |f.key| + |f.value.s| <= characters
    ensures EntrySize(f) <= 6 * characters + 6
  {
    TextSize(f.key);
    TextSize(f.value.s);
  }

  lemma IntEntrySize(f: Field)
    requires f.value.Int? && IntFits(f.value.n)
    ensures EntrySize(f) <= 6 * |f.key| + MAX_INT_DIGITS + 5
  {
    TextSize(f.key);
    IntSize(f.value.n);
  }

  lemma SmallIntEntrySize(f: Field)
    requires f.value.Int? && 0 <= f.value.n < 10
    ensures EntrySize(f) <= 6 * |f.key| + 5
  {
    TextSize(f.key);
    SmallIntSize(f.value.n);
  }

  lemma SizeStep(fields: seq<Field>, i: nat)
    requires i < |fields|
    ensures SizeFields(fields[i..]) == EntrySize(fields[i]) + SizeFields(fields[i + 1..])
  {
    assert fields[i..][1..] == fields[i + 1..];
  }
}
