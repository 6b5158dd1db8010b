/** Which values can be encoded. */
module JsonEncodable {
  // Exactly those of which no key or string holds a surrogate; everything else the printer writes is ASCII.

  import opened Text
  import opened Json
  import opened JsonRoundTrip
  import opened JsonCanonical

  /** Every key and every string of the value can be encoded. */
  predicate Encodes(v: Json)
    decreases v
  {
    match v
    case Text(s) => Encodable(s)
    case Arr(items) => forall i | 0 <= i < |items| :: Encodes(items[i])
    case Obj(fields) => forall i | 0 <= i < |fields| :: Encodable(fields[i].key) && Encodes(fields[i].value)
    case _ => true
  }

  lemma {:induction false} EscapedEncodable(s: Str)
    ensures Encodable(EscapeChars(s)) <==> Encodable(s)
  {
    if s != [] {
      EscapeEncodable(s[0]);
      EscapedEncodable(s[1..]);
      EncodableConcat(EscapeChar(s[0]), EscapeChars(s[1..]));
      assert s == [s[0]] + s[1..];
      EncodableConcat([s[0]], s[1..]);
    }
  }

  lemma EscapeEncodable(c: CodePoint)
    ensures Encodable(EscapeChar(c)) <==> Encodable([c])
  {
    var e := EscapeChar(c);
    if c < 0x20 || c == QUOTE || c == BACKSLASH {
      assert forall i | 0 <= i < |e| :: e[i] < 0x80;
      assert !IsSurrogate([c][0]);
    } else {
      assert e == [c];
    }
  }

  lemma EnclosedEncodable(open: CodePoint, s: Str, close: CodePoint)
    requires open < 0x80 && close < 0x80
    ensures Encodable([open] + s + [close]) <==> Encodable(s)
  {
    EncodableConcat([open] + s, [close]);
    EncodableConcat([open], s);
  }

  lemma SeparatedEncodable(a: Str, c: CodePoint, b: Str)
    requires c < 0x80
    ensures Encodable(a + [c] + b) <==> Encodable(a) && Encodable(b)
  {
    EncodableConcat(a + [c], b);
    EncodableConcat(a, [c]);
  }

  /** The spelling of a float is ASCII. */
  lemma FloatEncodable(f: Str)
    requires IsFloatSpelling(f)
    ensures Encodable(f)
  {
    var m := ScanNumber(f);
    var whole := f[m.sign..];
    var tail := whole[m.whole..];
    TailAscii(tail);
    forall i | 0 <= i < |f| ensures f[i] < 0x80 {
      if i >= m.sign + m.whole {
        assert f[i] == tail[i - m.sign - m.whole];
      } else if i >= m.sign {
        assert f[i] == whole[i - m.sign];
      }
    }
  }

  lemma TailAscii(s: Str)
    requires TailLength(s) == |s|
    ensures forall i | 0 <= i < |s| :: s[i] < 0x80
  {
    var frac := FractionLength(s);
    var rest := s[frac..];
    forall i | 0 <= i < |s| ensures s[i] < 0x80 {
      if 0 < i < frac {
        assert s[i] == s[1..][i - 1];
      } else if i >= frac {
        assert s[i] == rest[i - frac];
        var sign := if |rest| > 1 && (rest[1] == PLUS || rest[1] == MINUS) then 1 else 0;
        if i - frac > sign { assert rest[i - frac] == rest[1 + sign..][i - frac - 1 - sign]; }
      }
    }
  }

  lemma {:induction false} PrintedEncodable(v: Json)
    requires Spellable(v)
    ensures Encodable(Print(v)) <==> Encodes(v)
    decreases v, 0
  {
    match v
    case Float(f) => FloatEncodable(f);
    case Text(s) =>
      EscapedEncodable(s);
      EnclosedEncodable(QUOTE, EscapeChars(s), QUOTE);
    case Arr(items) =>
      PrintedItemsEncodable(items);
      EnclosedEncodable(LBRACKET, PrintItems(items), RBRACKET);
    case Obj(fields) =>
      PrintedFieldsEncodable(fields);
      EnclosedEncodable(LBRACE, PrintFields(fields), RBRACE);
    case _ => assert forall i | 0 <= i < |Print(v)| :: Print(v)[i] < 0x80;
  }

  lemma {:induction false} PrintedItemsEncodable(items: seq<Json>)
    requires forall i | 0 <= i < |items| :: Spellable(items[i])
    ensures Encodable(PrintItems(items)) <==> forall i | 0 <= i < |items| :: Encodes(items[i])
    decreases items, 1
  {
    hide Print, Encodes, Spellable;
    if items != [] {
      PrintedEncodable(items[0]);
      PrintedItemsEncodable(items[1..]);
      SeparatedEncodable(Print(items[0]), COMMA, PrintItems(items[1..]));
      assert forall i | 0 < i < |items| :: items[i] == items[1..][i - 1];
    }
  }

  lemma {:induction false} PrintedFieldsEncodable(fields: seq<Field>)
    requires forall i | 0 <= i < |fields| :: Spellable(fields[i].value)
    ensures Encodable(PrintFields(fields))
      <==> forall i | 0 <= i < |fields| :: Encodable(fields[i].key) && Encodes(fields[i].value)
    decreases fields, 1
  {
    hide Print, Encodes, Spellable, EscapeChars, Encodable;
    if fields == [] {
      NothingEncodable();
    } else {
      var f := fields[0];
      PrintedEncodable(f.value);
      EscapedEncodable(f.key);
      EnclosedEncodable(QUOTE, EscapeChars(f.key), QUOTE);
      SeparatedEncodable(PrintText(f.key), COLON, Print(f.value));
      PrintedFieldsEncodable(fields[1..]);
      SeparatedEncodable(PrintField(f), COMMA, PrintFields(fields[1..]));
      assert forall i | 0 < i < |fields| :: fields[i] == fields[1..][i - 1];
    }
  }

  lemma NothingEncodable()
    ensures Encodable([])
  {
  }

  lemma {:induction false} SortedEncodes(v: Json)
    requires UniqueKeys(v)
    ensures Encodes(Sorted(v)) <==> Encodes(v)
  {
    match v
    case Arr(items) =>
      forall i | 0 <= i < |items|
        ensures SortedItems(items)[i] == Sorted(items[i]) && (Encodes(Sorted(items[i])) <==> Encodes(items[i]))
      {
        SortedItemsAt(items, i);
        SortedEncodes(items[i]);
      }
    case Obj(fields) =>
      forall i | 0 <= i < |fields| ensures Encodes(Sorted(fields[i].value)) <==> Encodes(fields[i].value) {
        SortedEncodes(fields[i].value);
      }
      SortedEntries(fields);
      SortedObjectEncodes(fields, SortFields(SortedValues(fields)));
    case _ =>
  }

  lemma SortedObjectEncodes(fields: seq<Field>, r: seq<Field>)
    requires forall i | 0 <= i < |fields| :: Field(fields[i].key, Sorted(fields[i].value)) in r
    requires forall x | x in r :: exists i | 0 <= i < |fields| :: x == Field(fields[i].key, Sorted(fields[i].value))
    requires forall i | 0 <= i < |fields| :: Encodes(Sorted(fields[i].value)) <==> Encodes(fields[i].value)
    ensures Encodes(Obj(r)) <==> Encodes(Obj(fields))
  {
    hide Sorted, Encodable;
    forall i | 0 <= i < |fields|
      ensures Encodes(Obj(r)) ==> Encodable(fields[i].key) && Encodes(fields[i].value)
    {
      var j :| 0 <= j < |r| && r[j] == Field(fields[i].key, Sorted(fields[i].value));
    }
    forall j | 0 <= j < |r|
      ensures Encodes(Obj(fields)) ==> Encodable(r[j].key) && Encodes(r[j].value)
    {
      assert r[j] in r;
      var i :| 0 <= i < |fields| && r[j] == Field(fields[i].key, Sorted(fields[i].value));
    }
  }

  /** A dictionary prints to encodable text exactly when its own texts are encodable. */
  lemma DumpEncodable(v: Json)
    requires UniqueKeys(v) && Spellable(v)
    ensures Encodable(Dumps(v).value) <==> Encodes(v)
  {
    SortedKeeps(v);
    PrintedEncodable(Sorted(v));
    SortedEncodes(v);
  }
}
