/** The digest of a schema set. */
module SchemaSet {
  // (backend/tools/runtime_wheelhouse_release.py) What the digest is fed determines the schemas.

  import opened Text

  /** Big-endian octets of `n` in exactly `k` places: `int.to_bytes`. */
  function BigEndian(n: nat, k: nat): (r: Bytes)
    ensures |r| == k
  {
    if k == 0 then [] else BigEndian(n / 256, k - 1) + [n % 256]
  }

  function Power(k: nat): nat {
    if k == 0 then 1 else 256 * Power(k - 1)
  }

  lemma {:induction false} BigEndianDetermines(n: nat, m: nat, k: nat)
    requires n < Power(k) && m < Power(k) && BigEndian(n, k) == BigEndian(m, k)
    ensures n == m
  {
    if k > 0 {
      var a, b := BigEndian(n, k), BigEndian(m, k);
      assert a[k - 1] == n % 256 && b[k - 1] == m % 256;
      assert a[..k - 1] == BigEndian(n / 256, k - 1) && b[..k - 1] == BigEndian(m / 256, k - 1);
      BigEndianDetermines(n / 256, m / 256, k - 1);
    }
  }

  /** The number that octets spell, the most significant first. */
  function Spelled(b: Bytes): nat {
    if b == [] then 0 else b[0] * Power(|b| - 1) + Spelled(b[1..])
  }

  lemma {:induction false} SpelledLast(a: Bytes, x: Octet)
    ensures Spelled(a + [x]) == 256 * Spelled(a) + x
  {
    if a == [] {
      assert [] + [x] == [x] && [x][1..] == [];
    } else {
      assert (a + [x])[1..] == a[1..] + [x] && (a + [x])[0] == a[0];
      SpelledLast(a[1..], x);
      Carried(a[0], Power(|a| - 1));
    }
  }

  lemma Carried(d: nat, p: nat)
    ensures d * (256 * p) == 256 * (d * p)
  {
  }

  /** A length field spells the length, the most significant octet first. */
  lemma {:induction false} BigEndianSpells(n: nat, k: nat)
    requires n < Power(k)
    ensures Spelled(BigEndian(n, k)) == n
  {
    if k > 0 {
      BigEndianSpells(n / 256, k - 1);
      SpelledLast(BigEndian(n / 256, k - 1), n % 256);
    }
  }

  /** A schema's name and content. */
  datatype Schema = Schema(name: Str, content: Bytes)

  /** The lengths fit their fields and the name can be encoded; otherwise the encoding raises. */
  predicate Framable(s: Schema) {
    Encodable(s.name) && |Utf8Octets(s.name)| < Power(4) && |s.content| < Power(8)
  }

  predicate AllFramable(schemas: seq<Schema>) {
    forall i | 0 <= i < |schemas| :: Framable(schemas[i])
  }

  /** A length and that many octets. */
  function Field(b: Bytes, k: nat): Bytes {
    BigEndian(|b|, k) + b
  }

  function Frame(s: Schema): Bytes {
    Field(Utf8Octets(s.name), 4) + Field(s.content, 8)
  }

  /** All that is fed to the digest. */
  function Preimage(schemas: seq<Schema>): Bytes {
    if schemas == [] then [] else Frame(schemas[0]) + Preimage(schemas[1..])
  }

  /** What comes after a length-prefixed field, and the field, are determined. */
  lemma FieldDetermines(a: Bytes, x: Bytes, b: Bytes, y: Bytes, k: nat)
    requires |a| < Power(k) && |b| < Power(k) && Field(a, k) + x == Field(b, k) + y
    ensures a == b && x == y
  {
    var s := Field(a, k) + x;
    assert s[..k] == BigEndian(|a|, k) && (Field(b, k) + y)[..k] == BigEndian(|b|, k);
    BigEndianDetermines(|a|, |b|, k);
    assert a == s[k..k + |a|] && b == (Field(b, k) + y)[k..k + |b|];
    assert x == s[k + |a|..] && y == (Field(b, k) + y)[k + |b|..];
  }

  lemma FrameDetermines(s: Schema, x: Bytes, t: Schema, y: Bytes)
    requires Framable(s) && Framable(t) && Frame(s) + x == Frame(t) + y
    ensures s == t && x == y
  {
    var a, b := Utf8Octets(s.name), Utf8Octets(t.name);
    hide Field, Utf8Octets, Power;
    assert Frame(s) + x == Field(a, 4) + (Field(s.content, 8) + x);
    assert Frame(t) + y == Field(b, 4) + (Field(t.content, 8) + y);
    FieldDetermines(a, Field(s.content, 8) + x, b, Field(t.content, 8) + y, 4);
    FieldDetermines(s.content, x, t.content, y, 8);
    Utf8RoundTrip(s.name);
    Utf8RoundTrip(t.name);
  }

  lemma FrameNotEmpty(s: Schema)
    ensures Frame(s) != []
  {
    assert |Field(Utf8Octets(s.name), 4)| >= 4;
  }

  /** The pre-image determines every name and every content, in order. */
  lemma {:induction false} PreimageDetermines(a: seq<Schema>, b: seq<Schema>)
    requires AllFramable(a) && AllFramable(b) && Preimage(a) == Preimage(b)
    ensures a == b
  {
    if a != [] { FrameNotEmpty(a[0]); }
    if b != [] { FrameNotEmpty(b[0]); }
    if a != [] && b != [] {
      assert Framable(a[0]) && Framable(b[0]);
      hide Frame, Framable;
      FrameDetermines(a[0], Preimage(a[1..]), b[0], Preimage(b[1..]));
      PreimageDetermines(a[1..], b[1..]);
      assert a == [a[0]] + a[1..] && b == [b[0]] + b[1..];
    }
  }

  // ---------------------------------------------------------------- the function

  /** The schemas that a catalog names, or None if one is missing. */
  function Schemas(names: seq<Str>, entries: map<Str, Bytes>): Option<seq<Schema>> {
    if names == [] then Some([])
    else if names[0] !in entries then None
    else
      match Schemas(names[1..], entries)
      case None => None
      case Some(rest) => Some([Schema(names[0], entries[names[0]])] + rest)
  }

  lemma {:induction false} PreimageMore(schemas: seq<Schema>, s: Schema)
    ensures Preimage(schemas + [s]) == Preimage(schemas) + Frame(s)
  {
    hide Frame;
    if schemas == [] {
      assert [s][1..] == [] && Frame(s) + [] == Frame(s) && [] + Frame(s) == Frame(s);
      assert schemas + [s] == [s];
    } else {
      PreimageMore(schemas[1..], s);
      var first, rest := Frame(schemas[0]), Preimage(schemas[1..]);
      assert (schemas + [s])[0] == schemas[0] && (schemas + [s])[1..] == schemas[1..] + [s];
      assert first + (rest + Frame(s)) == (first + rest) + Frame(s);
    }
  }

  lemma {:induction false} SchemasMore(names: seq<Str>, name: Str, entries: map<Str, Bytes>)
    ensures Schemas(names + [name], entries)
      == if Schemas(names, entries).None? || name !in entries then None
         else Some(Schemas(names, entries).value + [Schema(name, entries[name])])
  {
    if names == [] {
      assert names + [name] == [name] && [name][1..] == names;
      if name in entries {
        var last, none := [Schema(name, entries[name])], Schemas(names, entries).value;
        assert last + none == last == none + last;
      }
    } else {
      SchemasMore(names[1..], name, entries);
      assert (names + [name])[0] == names[0] && (names + [name])[1..] == names[1..] + [name];
      if Schemas(names, entries).Some? && name in entries {
        var first, rest, last :=
          Schema(names[0], entries[names[0]]), Schemas(names[1..], entries).value, Schema(name, entries[name]);
        assert [first] + (rest + [last]) == ([first] + rest) + [last];
      }
    }
  }

  lemma {:induction false} SchemasPrefix(names: seq<Str>, i: nat, entries: map<Str, Bytes>)
    requires i <= |names| && Schemas(names[..i], entries).None?
    ensures Schemas(names, entries).None?
    decreases |names| - i
  {
    if i < |names| {
      assert names[..i + 1] == names[..i] + [names[i]];
      SchemasMore(names[..i], names[i], entries);
      SchemasPrefix(names, i + 1, entries);
    } else {
      assert names[..i] == names;
    }
  }

  /** The loop of `_schema_set_sha256`: what the digest has been fed when it ends, or None for an error. */
  method Feed(names: seq<Str>, entries: map<Str, Bytes>) returns (fed: Option<Bytes>)
    ensures fed.Some? ==> Schemas(names, entries).Some? && AllFramable(Schemas(names, entries).value)
    ensures fed.Some? ==> fed.value == Preimage(Schemas(names, entries).value)
    ensures fed.None? ==> Schemas(names, entries).None? || !AllFramable(Schemas(names, entries).value)
  {
    var digest: Bytes := [];
    var i := 0;
    while i < |names|
      invariant 0 <= i <= |names| && Schemas(names[..i], entries).Some?
      invariant AllFramable(Schemas(names[..i], entries).value)
      invariant digest == Preimage(Schemas(names[..i], entries).value)
    {
      hide Schemas, Preimage, Frame, Framable;
      assert names[..i + 1] == names[..i] + [names[i]];
      SchemasMore(names[..i], names[i], entries);
      if names[i] !in entries {
        SchemasPrefix(names, i + 1, entries);
        return None;
      }
      var schema := Schema(names[i], entries[names[i]]);
      if !Framable(schema) {
        Unframable(names, i, entries);
        return None;
      }
      PreimageMore(Schemas(names[..i], entries).value, schema);
      digest := digest + Frame(schema);
      i := i + 1;
    }
    assert names[..i] == names;
    fed := Some(digest);
  }

  lemma {:induction false} SchemaAt(names: seq<Str>, i: nat, entries: map<Str, Bytes>)
    requires i < |names| && Schemas(names, entries).Some?
    ensures |Schemas(names, entries).value| == |names| && names[i] in entries
    ensures Schemas(names, entries).value[i] == Schema(names[i], entries[names[i]])
  {
    if i > 0 { SchemaAt(names[1..], i - 1, entries); }
    else if |names| > 1 { SchemaAt(names[1..], 0, entries); }
  }

  lemma Unframable(names: seq<Str>, i: nat, entries: map<Str, Bytes>)
    requires i < |names| && names[i] in entries && !Framable(Schema(names[i], entries[names[i]]))
    ensures Schemas(names, entries).None? || !AllFramable(Schemas(names, entries).value)
  {
    hide Framable;
    if Schemas(names, entries).Some? { SchemaAt(names, i, entries); }
  }

  /**
   Two canonical schema sets feed the digest the same octets if and only if they name the same
   schemas with the same contents.
   */
  lemma DigestExactly(a: seq<Str>, x: map<Str, Bytes>, b: seq<Str>, y: map<Str, Bytes>)
    requires Schemas(a, x).Some? && Schemas(b, y).Some? && AllFramable(Schemas(a, x).value)
    requires AllFramable(Schemas(b, y).value)
    ensures Preimage(Schemas(a, x).value) == Preimage(Schemas(b, y).value)
      <==> a == b && forall i | 0 <= i < |a| :: a[i] in x && a[i] in y && x[a[i]] == y[a[i]]
  {
    hide Preimage, Framable;
    var s, t := Schemas(a, x).value, Schemas(b, y).value;
    SchemaLengths(a, x);
    SchemaLengths(b, y);
    forall i | 0 <= i < |a| ensures a[i] in x && s[i] == Schema(a[i], x[a[i]]) { SchemaAt(a, i, x); }
    forall i | 0 <= i < |b| ensures b[i] in y && t[i] == Schema(b[i], y[b[i]]) { SchemaAt(b, i, y); }
    hide Schemas;
    if Preimage(s) == Preimage(t) {
      PreimageDetermines(s, t);
      forall i | 0 <= i < |a| ensures a[i] == b[i] && x[a[i]] == y[b[i]] { assert s[i] == t[i]; }
    }
    if a == b && forall i | 0 <= i < |a| :: a[i] in x && a[i] in y && x[a[i]] == y[a[i]] {
      assert s == t;
    }
  }

  lemma {:induction false} SchemaLengths(names: seq<Str>, entries: map<Str, Bytes>)
    requires Schemas(names, entries).Some?
    ensures |Schemas(names, entries).value| == |names|
  {
    if names != [] { SchemaLengths(names[1..], entries); }
  }
}
