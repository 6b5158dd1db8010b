/** Canonical text lists keys in Python's order of texts. */
module JsonOrder {
  import opened Text
  import opened Json
  import opened JsonCanonical
  import opened JsonRoundTrip

  /** Python's `a < b`: at the first difference `a` ends or has the smaller code point. */
  ghost predicate Before(a: Str, b: Str) {
    exists k: nat :: DiffersAt(a, b, k)
  }

  predicate DiffersAt(a: Str, b: Str, k: nat) {
    k <= |a| && k < |b| && a[..k] == b[..k] && (k == |a| || a[k] < b[k])
  }

  /** The recursion that the encoders sort by is Python's order of texts. */
  lemma {:induction false} OrderIsPythons(a: Str, b: Str)
    ensures StrLess(a, b) <==> Before(a, b)
  {
    if b == [] {
      assert forall k: nat :: !DiffersAt(a, b, k);
    } else if a == [] {
      assert DiffersAt(a, b, 0);
    } else {
      OrderIsPythons(a[1..], b[1..]);
      if a[0] < b[0] { assert DiffersAt(a, b, 0); }
      if a[0] == b[0] { SameFirst(a, b); }
      if Before(a, b) {
        var k: nat :| DiffersAt(a, b, k);
        if k > 0 { assert a[0] == a[..k][0] == b[..k][0] == b[0]; }
      }
    }
  }

  lemma SameFirst(a: Str, b: Str)
    requires a != [] && b != [] && a[0] == b[0]
    ensures Before(a[1..], b[1..]) <==> Before(a, b)
  {
    if Before(a[1..], b[1..]) {
      var k: nat :| DiffersAt(a[1..], b[1..], k);
      assert a[..k + 1] == [a[0]] + a[1..][..k] && b[..k + 1] == [b[0]] + b[1..][..k];
      assert DiffersAt(a, b, k + 1);
    }
    if Before(a, b) {
      var k: nat :| DiffersAt(a, b, k);
      assert k > 0;
      assert a[1..][..k - 1] == a[..k][1..] && b[1..][..k - 1] == b[..k][1..];
      assert DiffersAt(a[1..], b[1..], k - 1);
    }
  }

  /** At every depth the keys of each object ascend. */
  ghost predicate InKeyOrder(v: Json)
    decreases v
  {
    match v
    case Arr(items) => forall i | 0 <= i < |items| :: InKeyOrder(items[i])
    case Obj(fields) => KeysAscend(fields) && forall i | 0 <= i < |fields| :: InKeyOrder(fields[i].value)
    case _ => true
  }

  ghost predicate KeysAscend(fields: seq<Field>) {
    forall i, j | 0 <= i < j < |fields| :: Before(fields[i].key, fields[j].key)
  }

  lemma KeysAscendExactly(fields: seq<Field>)
    ensures KeysAscend(fields) <==> KeySorted(fields)
  {
    hide Before, StrLess;
    forall i, j | 0 <= i < j < |fields|
      ensures Before(fields[i].key, fields[j].key) <==> StrLess(fields[i].key, fields[j].key)
    {
      OrderIsPythons(fields[i].key, fields[j].key);
    }
  }

  /** Sorting orders the keys at every depth, and leaves alone what is in order. */
  lemma {:induction false} SortedExactly(v: Json)
    requires UniqueKeys(v)
    ensures InKeyOrder(Sorted(v))
    ensures InKeyOrder(v) ==> Sorted(v) == v
  {
    match v
    case Arr(items) =>
      forall i | 0 <= i < |items|
        ensures SortedItems(items)[i] == Sorted(items[i]) && InKeyOrder(Sorted(items[i]))
        ensures InKeyOrder(items[i]) ==> Sorted(items[i]) == items[i]
      {
        SortedItemsAt(items, i);
        SortedExactly(items[i]);
      }
      if InKeyOrder(v) { assert SortedItems(items) == items; }
    case Obj(fields) =>
      forall i | 0 <= i < |fields|
        ensures InKeyOrder(Sorted(fields[i].value))
        ensures InKeyOrder(fields[i].value) ==> Sorted(fields[i].value) == fields[i].value
      {
        SortedExactly(fields[i].value);
      }
      SortedEntries(fields);
      ObjectSortedExactly(fields, SortFields(SortedValues(fields)));
    case _ =>
  }

  lemma ObjectSortedExactly(fields: seq<Field>, r: seq<Field>)
    requires KeySorted(r) && |r| == |fields|
    requires forall i | 0 <= i < |fields| :: Field(fields[i].key, Sorted(fields[i].value)) in r
    requires forall x | x in r :: exists i | 0 <= i < |fields| :: x == Field(fields[i].key, Sorted(fields[i].value))
    requires forall i | 0 <= i < |fields| :: InKeyOrder(Sorted(fields[i].value))
    requires forall i | 0 <= i < |fields| ::
      InKeyOrder(fields[i].value) ==> Sorted(fields[i].value) == fields[i].value
    ensures InKeyOrder(Obj(r))
    ensures InKeyOrder(Obj(fields)) ==> r == fields
  {
    hide Sorted, KeySorted, KeysAscend;
    KeysAscendExactly(r);
    KeysAscendExactly(fields);
    forall j | 0 <= j < |r| ensures InKeyOrder(r[j].value) {
      assert r[j] in r;
      var i :| 0 <= i < |fields| && r[j] == Field(fields[i].key, Sorted(fields[i].value));
    }
    if InKeyOrder(Obj(fields)) {
      forall x ensures x in fields <==> x in r {
        if x in fields {
          var i :| 0 <= i < |fields| && fields[i] == x;
          assert Field(fields[i].key, Sorted(fields[i].value)) == x;
        }
        if x in r {
          var i :| 0 <= i < |fields| && x == Field(fields[i].key, Sorted(fields[i].value));
          assert x == fields[i];
        }
      }
      SortedUnique(r, fields);
    }
  }

  /**
   A dump is the print of the one reordering of the value whose keys ascend at every depth, and decoding
   it gives that reordering.
   */
  lemma DumpIsInOrder(v: Json, w: Json)
    requires UniqueKeys(v) && UniqueKeys(w) && SameValue(v, w) && Spellable(v)
    ensures Dumps(v) == Ok(Print(w)) <==> InKeyOrder(w)
    ensures InKeyOrder(w) ==> Loads(Dumps(v).value, STRICT) == Ok(w)
  {
    SortedExactly(v);
    SortedExactly(w);
    SameExactlySorted(v, w);
    hide SameValue, InKeyOrder, Print;
    LoadsDumped(v, [], STRICT);
    assert Dumps(v).value + [] == Dumps(v).value;
    if Dumps(v) == Ok(Print(w)) { PrintedAlike(v, w); }
  }

  lemma PrintedAlike(v: Json, w: Json)
    requires UniqueKeys(v) && UniqueKeys(w) && Spellable(v) && Print(Sorted(v)) == Print(w) && Sorted(v) == Sorted(w)
    ensures Sorted(v) == w
  {
    hide Print, SameValue;
    SortedKeeps(v);
    SortedKeeps(w);
    SpellableIsReadable(Sorted(v));
    SpellableIsReadable(w);
    hide Spellable, Readable, Sorted;
    LoadsPrinted(Sorted(v), [], STRICT);
    LoadsPrinted(w, [], STRICT);
  }
}
