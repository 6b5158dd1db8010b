/** Repeated keys and canonical text. */
module JsonCanonical {
  // The strict scanner accepts exactly the texts whose objects never repeat a key, and canonical text
  // identifies a value up to dictionary order.

  import opened Text
  import opened Json
  import opened JsonRoundTrip

  // ---------------------------------------------------------------- repeated keys

  /**
   The duplicate-rejecting hook is exact at every depth: strict scanning succeeds if and only
   if plain scanning succeeds and no object of the result, however deep, repeats a key.
   */
  lemma {:induction false} StrictExactlyUnique(s: Str, constants: bool)
    ensures ParseValue(s, Dialect(true, constants)).Ok?
      <==> ParseValue(s, Dialect(false, constants)).Ok? && UniqueKeys(ParseValue(s, Dialect(false, constants)).value.0)
    ensures ParseValue(s, Dialect(true, constants)).Ok?
      ==> ParseValue(s, Dialect(true, constants)) == ParseValue(s, Dialect(false, constants))
    decreases |s|, 0
  {
    hide DigitRun, ScanNumber, Begins, ParseChars, ParseNumber;
    if s == [] || s[0] == QUOTE {
    } else if s[0] == LBRACE {
      var body := SkipSpace(s[1..]);
      if body != [] && body[0] != RBRACE { StrictFields(body, constants); }
    } else if s[0] == LBRACKET {
      var body := SkipSpace(s[1..]);
      if body != [] && body[0] != RBRACKET { StrictItems(body, constants); }
    } else {
      NumberHasNoKeys(s, constants);
    }
  }

  lemma NumberHasNoKeys(s: Str, constants: bool)
    ensures ParseNumber(s, constants).Ok? ==> UniqueKeys(ParseNumber(s, constants).value.0)
  {
  }

  ghost predicate UniqueItems(items: seq<Json>) {
    forall i | 0 <= i < |items| :: UniqueKeys(items[i])
  }

  ghost predicate UniqueEntries(fields: seq<Field>) {
    forall i | 0 <= i < |fields| :: UniqueKeys(fields[i].value)
  }

  lemma UniqueCons(v: Json, items: seq<Json>)
    ensures UniqueItems([v] + items) <==> UniqueKeys(v) && UniqueItems(items)
  {
    var all := [v] + items;
    assert all[0] == v && all[1..] == items;
    if UniqueItems(all) {
      forall i | 0 <= i < |items| ensures UniqueKeys(items[i]) { assert items[i] == all[i + 1]; }
    }
  }

  lemma UniqueFieldCons(f: Field, fields: seq<Field>)
    ensures UniqueEntries([f] + fields) <==> UniqueKeys(f.value) && UniqueEntries(fields)
  {
    var all := [f] + fields;
    assert all[0] == f && all[1..] == fields;
    if UniqueEntries(all) {
      forall i | 0 <= i < |fields| ensures UniqueKeys(fields[i].value) { assert fields[i] == all[i + 1]; }
    }
  }

  lemma {:induction false} StrictFields(s: Str, constants: bool)
    ensures ParseFields(s, Dialect(true, constants)).Ok?
      <==>
      ParseFields(s, Dialect(false, constants)).Ok?
      && UniqueEntries(ParseFields(s, Dialect(false, constants)).value.0)
    ensures ParseFields(s, Dialect(true, constants)).Ok?
      ==> ParseFields(s, Dialect(true, constants)) == ParseFields(s, Dialect(false, constants))
    decreases |s|, 1
  {
    hide ParseChars, ParseValue, UniqueKeys, UniqueEntries;
    if s != [] && s[0] == QUOTE && ParseChars(s[1..]).Ok? {
      var colon := SkipSpace(ParseChars(s[1..]).value.1);
      if colon != [] && colon[0] == COLON {
        var at := SkipSpace(colon[1..]);
        StrictExactlyUnique(at, constants);
        if ParseValue(at, Dialect(false, constants)).Ok? {
          var f := Field(ParseChars(s[1..]).value.0, ParseValue(at, Dialect(false, constants)).value.0);
          UniqueFieldCons(f, []);
          assert [f] + [] == [f];
          NoEntries();
          var next := SkipSpace(ParseValue(at, Dialect(false, constants)).value.1);
          if next != [] && next[0] == COMMA {
            var more := SkipSpace(next[1..]);
            StrictFields(more, constants);
            if ParseFields(more, Dialect(false, constants)).Ok? {
              UniqueFieldCons(f, ParseFields(more, Dialect(false, constants)).value.0);
            }
          }
        }
      }
    }
  }

  lemma NoEntries()
    ensures UniqueEntries([]) && UniqueItems([])
  {
  }

  lemma {:induction false} StrictItems(s: Str, constants: bool)
    ensures ParseItems(s, Dialect(true, constants)).Ok?
      <==> ParseItems(s, Dialect(false, constants)).Ok? && UniqueItems(ParseItems(s, Dialect(false, constants)).value.0)
    ensures ParseItems(s, Dialect(true, constants)).Ok?
      ==> ParseItems(s, Dialect(true, constants)) == ParseItems(s, Dialect(false, constants))
    decreases |s|, 1
  {
    hide ParseValue, UniqueKeys, UniqueItems;
    StrictExactlyUnique(s, constants);
    if ParseValue(s, Dialect(false, constants)).Ok? {
      var v := ParseValue(s, Dialect(false, constants)).value.0;
      UniqueCons(v, []);
      assert [v] + [] == [v];
      NoEntries();
      var next := SkipSpace(ParseValue(s, Dialect(false, constants)).value.1);
      if next != [] && next[0] == COMMA {
        var more := SkipSpace(next[1..]);
        StrictItems(more, constants);
        if ParseItems(more, Dialect(false, constants)).Ok? {
          UniqueCons(v, ParseItems(more, Dialect(false, constants)).value.0);
        }
      }
    }
  }

  /** The same for a whole text: refused, for a repeated key, exactly when one is there. */
  lemma LoadsExactlyUnique(s: Str, constants: bool)
    ensures Loads(s, Dialect(true, constants)).Ok?
      <==> Loads(s, Dialect(false, constants)).Ok? && UniqueKeys(Loads(s, Dialect(false, constants)).value)
    ensures Loads(s, Dialect(true, constants)).Ok?
      ==> Loads(s, Dialect(true, constants)) == Loads(s, Dialect(false, constants))
  {
    hide ParseValue, UniqueKeys;
    StrictExactlyUnique(SkipSpace(s), constants);
  }

  // ---------------------------------------------------------------- key order

  lemma {:induction false} StrLessTotal(a: Str, b: Str)
    ensures StrLess(a, b) || a == b || StrLess(b, a)
    ensures !StrLess(a, a)
  {
    if a != [] {
      StrLessTotal(a[1..], if b == [] then [] else b[1..]);
      if b != [] && a[0] == b[0] && a[1..] == b[1..] {
        assert a == [a[0]] + a[1..] && b == [b[0]] + b[1..];
      }
    }
  }

  lemma {:induction false} StrLessTransitive(a: Str, b: Str, c: Str)
    requires StrLess(a, b) && StrLess(b, c)
    ensures StrLess(a, c)
  {
    if a != [] && a[0] == b[0] && b[0] == c[0] {
      StrLessTransitive(a[1..], b[1..], c[1..]);
    }
  }

  predicate KeySorted(fields: seq<Field>) {
    forall i, j | 0 <= i < j < |fields| :: StrLess(fields[i].key, fields[j].key)
  }

  lemma {:induction false} InsertFacts(f: Field, fields: seq<Field>)
    requires KeySorted(fields) && forall i | 0 <= i < |fields| :: fields[i].key != f.key
    ensures var r := InsertField(f, fields);
      KeySorted(r) && |r| == |fields| + 1 && forall x :: x in r <==> x == f || x in fields
  {
    hide StrLess;
    var r := InsertField(f, fields);
    if fields != [] {
      StrLessTotal(f.key, fields[0].key);
      if StrLess(f.key, fields[0].key) {
        forall j | 0 <= j < |fields| ensures StrLess(f.key, fields[j].key) {
          if j > 0 { StrLessTransitive(f.key, fields[0].key, fields[j].key); }
        }
      } else {
        var tail := InsertField(f, fields[1..]);
        InsertFacts(f, fields[1..]);
        forall j | 0 <= j < |tail| ensures StrLess(fields[0].key, tail[j].key) {
          assert tail[j] in tail;
          if tail[j] != f {
            var k :| 0 <= k < |fields[1..]| && fields[1..][k] == tail[j];
            assert fields[k + 1] == tail[j];
          }
        }
        assert forall x :: x in fields <==> x == fields[0] || x in fields[1..];
      }
    }
  }

  lemma {:induction false} SortFacts(fields: seq<Field>)
    requires DistinctKeys(fields)
    ensures var r := SortFields(fields);
      KeySorted(r) && |r| == |fields| && forall x :: x in r <==> x in fields
  {
    hide StrLess, InsertField;
    if fields != [] {
      var tail := SortFields(fields[1..]);
      SortFacts(fields[1..]);
      forall i | 0 <= i < |tail| ensures tail[i].key != fields[0].key {
        assert tail[i] in fields[1..];
      }
      InsertFacts(fields[0], tail);
      assert forall x :: x in fields <==> x == fields[0] || x in fields[1..];
    }
  }

  lemma KeySortedDistinct(fields: seq<Field>)
    requires KeySorted(fields)
    ensures DistinctKeys(fields)
  {
    forall i, j | 0 <= i < j < |fields| ensures fields[i].key != fields[j].key {
      StrLessTotal(fields[i].key, fields[j].key);
    }
  }

  /** Key-sorted sequences with the same entries are the same sequence. */
  lemma {:induction false} SortedUnique(a: seq<Field>, b: seq<Field>)
    requires KeySorted(a) && KeySorted(b) && |a| == |b|
    requires forall x :: x in a <==> x in b
    ensures a == b
  {
    hide StrLess;
    if a != [] {
      assert a[0] in b && b[0] in a;
      var k :| 0 <= k < |b| && b[k] == a[0];
      var m :| 0 <= m < |a| && a[m] == b[0];
      if k > 0 && m > 0 {
        StrLessTransitive(b[0].key, a[0].key, a[m].key);
        StrLessTotal(b[0].key, b[0].key);
      }
      forall x ensures x in a[1..] <==> x in b[1..] {
        TailEntries(a, x);
        TailEntries(b, x);
      }
      SortedUnique(a[1..], b[1..]);
      assert a == [a[0]] + a[1..] && b == [b[0]] + b[1..];
    }
  }

  lemma TailEntries(a: seq<Field>, x: Field)
    requires a != [] && KeySorted(a)
    ensures x in a[1..] <==> x in a && x != a[0]
  {
    KeySortedDistinct(a);
    if x in a[1..] {
      var k :| 0 <= k < |a[1..]| && a[1..][k] == x;
      assert a[k + 1] == x;
    }
    if x in a && x != a[0] {
      var k :| 0 <= k < |a| && a[k] == x;
      assert a[1..][k - 1] == x;
    }
  }

  // ---------------------------------------------------------------- equality of dictionaries

  /**
   Equal as Python values whose dictionaries have distinct keys: the order of a dictionary does not
   count. Unlike Python's `==` it also tells the types apart: `1`, `1.0` and `True` differ.
   */
  ghost predicate SameValue(v: Json, w: Json)
    decreases v
  {
    match (v, w)
    case (Arr(a), Arr(b)) => |a| == |b| && forall i | 0 <= i < |a| :: SameValue(a[i], b[i])
    case (Obj(f), Obj(g)) => |f| == |g| && forall i | 0 <= i < |f| :: HasSame(g, f[i])
    case _ => v == w
  }

  /** Some entry of `g` has the key and the value of `x`. */
  ghost predicate HasSame(g: seq<Field>, x: Field)
    decreases x
  {
    exists j | 0 <= j < |g| :: x.key == g[j].key && SameValue(x.value, g[j].value)
  }

  lemma {:induction false} SortedItemsAt(items: seq<Json>, i: nat)
    requires i < |items|
    ensures SortedItems(items)[i] == Sorted(items[i])
  {
    hide Sorted;
    if i > 0 { SortedItemsAt(items[1..], i - 1); }
  }

  lemma {:induction false} SortedValuesAt(fields: seq<Field>, i: nat)
    requires i < |fields|
    ensures SortedValues(fields)[i] == Field(fields[i].key, Sorted(fields[i].value))
  {
    hide Sorted;
    if i > 0 { SortedValuesAt(fields[1..], i - 1); }
  }

  /** The entries of a sorted object are the sorted entries of the object. */
  lemma SortedEntries(fields: seq<Field>)
    requires DistinctKeys(fields)
    ensures var r := SortFields(SortedValues(fields));
      KeySorted(r) && |r| == |fields|
      && (forall i | 0 <= i < |fields| :: Field(fields[i].key, Sorted(fields[i].value)) in r)
      && (forall x | x in r :: exists i | 0 <= i < |fields| :: x == Field(fields[i].key, Sorted(fields[i].value)))
  {
    hide Sorted, SortFields, SortedValues;
    var inner := SortedValues(fields);
    assert DistinctKeys(inner);
    SortFacts(inner);
    forall i | 0 <= i < |fields| ensures inner[i] == Field(fields[i].key, Sorted(fields[i].value)) {
      SortedValuesAt(fields, i);
    }
    assert forall i | 0 <= i < |fields| :: inner[i] in inner;
  }

  /** Sorting keeps the value printable, its keys distinct, and its meaning as a dictionary. */
  lemma {:induction false} SortedKeeps(v: Json)
    requires UniqueKeys(v)
    ensures UniqueKeys(Sorted(v))
    ensures Spellable(Sorted(v)) <==> Spellable(v)
    ensures SameValue(v, Sorted(v))
  {
    match v
    case Arr(items) =>
      forall i | 0 <= i < |items|
        ensures SortedItems(items)[i] == Sorted(items[i]) && UniqueKeys(Sorted(items[i]))
        ensures Spellable(Sorted(items[i])) <==> Spellable(items[i])
        ensures SameValue(items[i], Sorted(items[i]))
      {
        SortedItemsAt(items, i);
        SortedKeeps(items[i]);
      }
    case Obj(fields) =>
      forall i | 0 <= i < |fields|
        ensures UniqueKeys(Sorted(fields[i].value))
        ensures Spellable(Sorted(fields[i].value)) <==> Spellable(fields[i].value)
        ensures SameValue(fields[i].value, Sorted(fields[i].value))
      {
        SortedKeeps(fields[i].value);
      }
      SortedEntries(fields);
      SortedObjectKeeps(fields, SortFields(SortedValues(fields)));
    case _ =>
  }

  lemma SortedObjectKeeps(fields: seq<Field>, r: seq<Field>)
    requires KeySorted(r) && |r| == |fields|
    requires forall i | 0 <= i < |fields| :: Field(fields[i].key, Sorted(fields[i].value)) in r
    requires forall x | x in r :: exists i | 0 <= i < |fields| :: x == Field(fields[i].key, Sorted(fields[i].value))
    requires forall i | 0 <= i < |fields| :: UniqueKeys(Sorted(fields[i].value))
    requires forall i | 0 <= i < |fields| :: Spellable(Sorted(fields[i].value)) <==> Spellable(fields[i].value)
    requires forall i | 0 <= i < |fields| :: SameValue(fields[i].value, Sorted(fields[i].value))
    ensures UniqueKeys(Obj(r))
    ensures Spellable(Obj(r)) <==> Spellable(Obj(fields))
    ensures SameValue(Obj(fields), Obj(r))
  {
    hide Sorted;
    KeySortedDistinct(r);
    forall i | 0 <= i < |fields|
      ensures HasSame(r, fields[i])
      ensures Spellable(Obj(r)) ==> Spellable(fields[i].value)
    {
      var j :| 0 <= j < |r| && r[j] == Field(fields[i].key, Sorted(fields[i].value));
    }
    forall j | 0 <= j < |r|
      ensures UniqueKeys(r[j].value) && (Spellable(Obj(fields)) ==> Spellable(r[j].value))
    {
      assert r[j] in r;
      var i :| 0 <= i < |fields| && r[j] == Field(fields[i].key, Sorted(fields[i].value));
    }
  }

  /** Equal up to dictionary order, if and only if equal once sorted. */
  lemma {:induction false} SameExactlySorted(v: Json, w: Json)
    requires UniqueKeys(v) && UniqueKeys(w)
    ensures SameValue(v, w) <==> Sorted(v) == Sorted(w)
    decreases v, 1
  {
    match (v, w)
    case (Arr(a), Arr(b)) =>
      if |a| == |b| {
        forall i | 0 <= i < |a|
          ensures SortedItems(a)[i] == Sorted(a[i]) && SortedItems(b)[i] == Sorted(b[i])
          ensures SameValue(a[i], b[i]) <==> Sorted(a[i]) == Sorted(b[i])
        {
          SortedItemsAt(a, i);
          SortedItemsAt(b, i);
          SameExactlySorted(a[i], b[i]);
        }
        if Sorted(v) == Sorted(w) {
          assert SortedItems(a) == SortedItems(b);
        } else {
          var i :| 0 <= i < |a| && SortedItems(a)[i] != SortedItems(b)[i];
        }
      } else {
        assert |SortedItems(a)| != |SortedItems(b)|;
      }
    case (Obj(f), Obj(g)) =>
      forall i, j | 0 <= i < |f| && 0 <= j < |g|
        ensures SameValue(f[i].value, g[j].value) <==> Sorted(f[i].value) == Sorted(g[j].value)
      {
        SameExactlySorted(f[i].value, g[j].value);
      }
      SameMatched(f, g);
      SortedEntries(f);
      SortedEntries(g);
      SameObjects(f, g, SortFields(SortedValues(f)), SortFields(SortedValues(g)));
    case _ =>
  }

  lemma SameMatched(f: seq<Field>, g: seq<Field>)
    requires forall i, j | 0 <= i < |f| && 0 <= j < |g| ::
      SameValue(f[i].value, g[j].value) <==> Sorted(f[i].value) == Sorted(g[j].value)
    ensures SameValue(Obj(f), Obj(g)) <==> MatchedEntries(f, g)
  {
    hide Sorted;
    forall i | 0 <= i < |f|
      ensures HasSame(g, f[i]) <==> HasEntry(g, f[i])
    {
    }
  }

  lemma SameObjects(f: seq<Field>, g: seq<Field>, rf: seq<Field>, rg: seq<Field>)
    requires KeySorted(rf) && |rf| == |f| && KeySorted(rg) && |rg| == |g|
    requires forall i | 0 <= i < |f| :: Field(f[i].key, Sorted(f[i].value)) in rf
    requires forall x | x in rf :: exists i | 0 <= i < |f| :: x == Field(f[i].key, Sorted(f[i].value))
    requires forall j | 0 <= j < |g| :: Field(g[j].key, Sorted(g[j].value)) in rg
    requires forall x | x in rg :: exists j | 0 <= j < |g| :: x == Field(g[j].key, Sorted(g[j].value))
    ensures MatchedEntries(f, g) <==> rf == rg
  {
    hide Sorted, KeySorted;
    if MatchedEntries(f, g) {
      EntriesIncluded(f, g, rf, rg);
      SameSize(rf, rg);
      SortedUnique(rf, rg);
    }
    if rf == rg {
      forall i | 0 <= i < |f| ensures HasEntry(g, f[i]) {
        assert Field(f[i].key, Sorted(f[i].value)) in rg;
      }
      assert |f| == |g|;
    }
  }

  /** Some entry of `g` has the key of `x` and, once sorted, its value. */
  ghost predicate HasEntry(g: seq<Field>, x: Field) {
    exists j | 0 <= j < |g| :: x.key == g[j].key && Sorted(x.value) == Sorted(g[j].value)
  }

  ghost predicate MatchedEntries(f: seq<Field>, g: seq<Field>) {
    |f| == |g| && forall i | 0 <= i < |f| :: HasEntry(g, f[i])
  }

  lemma EntriesIncluded(f: seq<Field>, g: seq<Field>, rf: seq<Field>, rg: seq<Field>)
    requires MatchedEntries(f, g)
    requires forall x | x in rf :: exists i | 0 <= i < |f| :: x == Field(f[i].key, Sorted(f[i].value))
    requires forall j | 0 <= j < |g| :: Field(g[j].key, Sorted(g[j].value)) in rg
    ensures forall x | x in rf :: x in rg
  {
    hide Sorted;
    forall x | x in rf ensures x in rg {
      var i :| 0 <= i < |f| && x == Field(f[i].key, Sorted(f[i].value));
      assert HasEntry(g, f[i]);
      var j :| 0 <= j < |g| && f[i].key == g[j].key && Sorted(f[i].value) == Sorted(g[j].value);
    }
  }

  ghost function Entries(a: seq<Field>): set<Field> {
    set x | x in a
  }

  lemma {:induction false} EntriesCount(a: seq<Field>)
    requires KeySorted(a)
    ensures |Entries(a)| == |a|
  {
    if a != [] {
      EntriesCount(a[1..]);
      forall x ensures x in Entries(a) <==> x in Entries(a[1..]) + {a[0]} {
        TailEntries(a, x);
      }
      assert Entries(a) == Entries(a[1..]) + {a[0]};
      TailEntries(a, a[0]);
    }
  }

  /** Same number of entries and inclusion one way is inclusion both ways. */
  lemma SameSize(a: seq<Field>, b: seq<Field>)
    requires KeySorted(a) && KeySorted(b) && |a| == |b|
    requires forall x | x in a :: x in b
    ensures forall x :: x in a <==> x in b
  {
    EntriesCount(a);
    EntriesCount(b);
    assert Entries(a) <= Entries(b);
    SubsetSameSize(Entries(a), Entries(b));
    forall x ensures x in a <==> x in b {
      assert x in a <==> x in Entries(a);
      assert x in b <==> x in Entries(b);
    }
  }

  lemma SubsetSameSize<T>(a: set<T>, b: set<T>)
    requires a <= b && |a| == |b|
    ensures a == b
  {
    assert b == a + (b - a);
    assert |b| == |a| + |b - a|;
  }

  /**
   Canonical text is canonical: two values print to the same text if and only if they are
   equal as Python values, dictionary order aside.
   */
  lemma CanonicalTextIdentifies(v: Json, w: Json)
    requires UniqueKeys(v) && UniqueKeys(w) && Spellable(v) && Spellable(w)
    ensures Dumps(v) == Dumps(w) <==> SameValue(v, w)
  {
    hide Print, Sorted, SameValue;
    SameExactlySorted(v, w);
    SortedKeeps(v);
    SortedKeeps(w);
    SpellableIsReadable(Sorted(v));
    SpellableIsReadable(Sorted(w));
    hide Spellable, Readable;
    LoadsPrinted(Sorted(v), [], STRICT);
    LoadsPrinted(Sorted(w), [], STRICT);
  }

  /** Decoding a dump gives the same dictionary back, whatever white space follows. */
  lemma LoadsDumped(v: Json, space: Str, d: Dialect)
    requires UniqueKeys(v) && Spellable(v) && SkipSpace(space) == []
    ensures Loads(Dumps(v).value + space, d) == Ok(Sorted(v))
    ensures SameValue(v, Sorted(v))
  {
    hide Print, Sorted, SameValue;
    SortedKeeps(v);
    SpellableIsReadable(Sorted(v));
    hide Spellable, Readable;
    LoadsPrinted(Sorted(v), space, d);
  }
}
