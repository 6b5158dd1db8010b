/**
 Python dictionaries as lists of entries: their keys, looking a key up, and what a round trip through
 canonical text keeps of them, which is everything but the order of their entries.
 */
module Dictionary {
  import opened Text
  import opened Json
  import opened JsonCanonical

  function KeySet(fields: seq<Field>): set<Str> {
    set i | 0 <= i < |fields| :: fields[i].key
  }

  /** The value of a key, as subscripting a dictionary gives it. */
  function Get(fields: seq<Field>, key: Str): (r: Json)
    requires key in KeySet(fields)
    ensures exists i | 0 <= i < |fields| :: fields[i].key == key && fields[i].value == r
  {
    if fields[0].key == key then fields[0].value
    else
      assert exists i | 0 <= i < |fields| :: fields[i].key == key;
      assert key in KeySet(fields[1..]) by {
        var i :| 0 <= i < |fields| && fields[i].key == key;
        assert fields[1..][i - 1].key == key;
      }
      Get(fields[1..], key)
  }

  /** What decoding makes of a dictionary that was encoded: its entries in key order. */
  function Received(fields: seq<Field>): seq<Field> {
    SortFields(SortedValues(fields))
  }

  lemma {:induction false} GetAt(fields: seq<Field>, i: nat)
    requires DistinctKeys(fields) && i < |fields|
    ensures fields[i].key in KeySet(fields) && Get(fields, fields[i].key) == fields[i].value
  {
    var j :| 0 <= j < |fields| && fields[j].key == fields[i].key && fields[j].value == Get(fields, fields[i].key);
  }

  /** A received dictionary has the same keys, and each value in key order. */
  lemma ReceivedLookup(fields: seq<Field>)
    requires DistinctKeys(fields)
    ensures KeySet(Received(fields)) == KeySet(fields)
    ensures forall k | k in KeySet(fields) :: Get(Received(fields), k) == Sorted(Get(fields, k))
  {
    hide Sorted, SortFields, SortedValues;
    var r := Received(fields);
    SortedEntries(fields);
    KeySortedDistinct(r);
    forall k | k in KeySet(fields)
      ensures k in KeySet(r) && Get(r, k) == Sorted(Get(fields, k))
    {
      var i :| 0 <= i < |fields| && fields[i].key == k && fields[i].value == Get(fields, k);
      var j :| 0 <= j < |r| && r[j] == Field(k, Sorted(fields[i].value));
      GetAt(r, j);
    }
    forall k | k in KeySet(r) ensures k in KeySet(fields) {
      var j :| 0 <= j < |r| && r[j].key == k;
      assert r[j] in r;
    }
  }

  lemma {:induction false} KeyCount(fields: seq<Field>)
    requires DistinctKeys(fields)
    ensures |KeySet(fields)| == |fields|
  {
    if fields != [] {
      KeyCount(fields[1..]);
      forall k ensures k in KeySet(fields) <==> k in KeySet(fields[1..]) + {fields[0].key} {
        if k in KeySet(fields) {
          var i :| 0 <= i < |fields| && fields[i].key == k;
          assert i > 0 ==> fields[1..][i - 1].key == k;
        }
        if k in KeySet(fields[1..]) {
          var i :| 0 <= i < |fields[1..]| && fields[1..][i].key == k;
          assert fields[i + 1].key == k;
        }
      }
      assert KeySet(fields) == KeySet(fields[1..]) + {fields[0].key};
      assert fields[0].key !in KeySet(fields[1..]);
    }
  }

  ghost predicate SameLookups(f: seq<Field>, g: seq<Field>) {
    KeySet(f) == KeySet(g) && forall k | k in KeySet(f) :: SameValue(Get(f, k), Get(g, k))
  }

  /** Dictionaries are equal, order aside, exactly if they have the same keys and give equal values. */
  lemma SameByLookup(f: seq<Field>, g: seq<Field>)
    requires DistinctKeys(f) && DistinctKeys(g)
    ensures SameValue(Obj(f), Obj(g)) <==> SameLookups(f, g)
  {
    KeyCount(f);
    KeyCount(g);
    if SameValue(Obj(f), Obj(g)) { SameGivesLookups(f, g); }
    if SameLookups(f, g) { LookupsGiveSame(f, g); }
  }

  lemma SameGivesLookups(f: seq<Field>, g: seq<Field>)
    requires DistinctKeys(f) && DistinctKeys(g) && |KeySet(f)| == |f| && |KeySet(g)| == |g| && SameValue(Obj(f), Obj(g))
    ensures SameLookups(f, g)
  {
    forall k | k in KeySet(f) ensures k in KeySet(g) && SameValue(Get(f, k), Get(g, k)) {
      var i :| 0 <= i < |f| && f[i].key == k;
      assert HasSame(g, f[i]);
      var j :| 0 <= j < |g| && f[i].key == g[j].key && SameValue(f[i].value, g[j].value);
      GetAt(f, i);
      GetAt(g, j);
    }
    SubsetSameSize(KeySet(f), KeySet(g));
  }

  lemma LookupsGiveSame(f: seq<Field>, g: seq<Field>)
    requires DistinctKeys(f) && DistinctKeys(g) && |KeySet(f)| == |f| && |KeySet(g)| == |g| && SameLookups(f, g)
    ensures SameValue(Obj(f), Obj(g))
  {
    forall i | 0 <= i < |f| ensures HasSame(g, f[i]) {
      GetAt(f, i);
      var j :| 0 <= j < |g| && g[j].key == f[i].key && g[j].value == Get(g, f[i].key);
    }
  }

  /** A dictionary built from entries: a later entry replaces an earlier one with its key. */
  function LastEntries(fields: seq<Field>): (r: seq<Field>)
    ensures forall i | 0 <= i < |r| :: r[i] in fields
  {
    if fields == [] then []
    else if fields[0].key in KeySet(fields[1..]) then LastEntries(fields[1..])
    else [fields[0]] + LastEntries(fields[1..])
  }

  lemma {:induction false} LastDistinct(fields: seq<Field>)
    ensures DistinctKeys(LastEntries(fields))
    ensures DistinctKeys(fields) ==> LastEntries(fields) == fields
  {
    if fields != [] {
      LastDistinct(fields[1..]);
      hide DistinctKeys, KeySet;
      var rest := LastEntries(fields[1..]);
      if fields[0].key in KeySet(fields[1..]) {
        KeyAfter(fields);
      } else {
        FreshFirst(fields[0], rest, fields[1..]);
        DistinctTail(fields);
        assert fields == [fields[0]] + fields[1..];
      }
    }
  }

  /** The value of a key is that of its last entry. */
  lemma {:induction false} LastEntryWins(fields: seq<Field>, k: Str)
    ensures KeySet(LastEntries(fields)) == KeySet(fields)
    ensures k in KeySet(fields) ==> exists i ::
      && 0 <= i < |fields| && fields[i].key == k && fields[i].value == Get(LastEntries(fields), k)
      && forall j | i < j < |fields| :: fields[j].key != k
  {
    if fields != [] {
      var more := fields[1..];
      var rest := LastEntries(more);
      LastEntryWins(more, k);
      KeysStep(fields);
      var all := LastEntries(fields);
      assert all == if fields[0].key in KeySet(more) then rest else [fields[0]] + rest;
      hide KeySet, LastEntries;
      if k in KeySet(more) {
        GetRest(fields[0], rest, k);
        var i :|
          && 0 <= i < |more| && more[i].key == k && more[i].value == Get(rest, k)
          && forall j | i < j < |more| :: more[j].key != k;
        assert fields[i + 1] == more[i];
        forall j | i + 1 < j < |fields| ensures fields[j].key != k { assert fields[j] == more[j - 1]; }
      } else if k in KeySet(fields) {
        forall j | 0 < j < |fields| ensures fields[j].key != k { NotAmong(more, k, j - 1); }
      }
    }
  }

  lemma NotAmong(fields: seq<Field>, k: Str, i: nat)
    requires k !in KeySet(fields) && i < |fields|
    ensures fields[i].key != k
  {
  }

  lemma KeysStep(fields: seq<Field>)
    requires fields != []
    ensures KeySet(fields) == {fields[0].key} + KeySet(fields[1..])
    ensures var rest := LastEntries(fields[1..]); KeySet([fields[0]] + rest) == {fields[0].key} + KeySet(rest)
  {
    ConsKeys(fields[0], fields[1..]);
    assert [fields[0]] + fields[1..] == fields;
    ConsKeys(fields[0], LastEntries(fields[1..]));
  }

  lemma ConsKeys(f: Field, fields: seq<Field>)
    ensures KeySet([f] + fields) == {f.key} + KeySet(fields)
  {
    var all := [f] + fields;
    forall k | k in {f.key} + KeySet(fields) ensures k in KeySet(all) {
      if k == f.key {
        assert all[0].key == k;
      } else {
        var i :| 0 <= i < |fields| && fields[i].key == k;
        assert all[i + 1].key == k;
      }
    }
  }

  lemma GetRest(f: Field, rest: seq<Field>, k: Str)
    requires k in KeySet(rest)
    ensures f.key != k ==> k in KeySet([f] + rest) && Get([f] + rest, k) == Get(rest, k)
  {
    ConsKeys(f, rest);
    assert ([f] + rest)[1..] == rest;
  }

  lemma DistinctTail(fields: seq<Field>)
    requires fields != []
    ensures DistinctKeys(fields) ==> DistinctKeys(fields[1..])
  {
  }

  lemma KeyAfter(fields: seq<Field>)
    requires fields != [] && fields[0].key in KeySet(fields[1..])
    ensures !DistinctKeys(fields)
  {
    var i :| 0 <= i < |fields[1..]| && fields[1..][i].key == fields[0].key;
    assert fields[i + 1].key == fields[0].key;
  }

  lemma FreshFirst(f: Field, rest: seq<Field>, from: seq<Field>)
    requires DistinctKeys(rest) && f.key !in KeySet(from) && forall i | 0 <= i < |rest| :: rest[i] in from
    ensures DistinctKeys([f] + rest)
  {
    forall i | 0 <= i < |rest| ensures rest[i].key in KeySet(from) {
      assert rest[i] in from;
    }
  }
}
