/** The content-keyed cache of JSON values (backend/app/adapters/verified_json_cache.py). */
module VerifiedCache {
  import opened Text
  import opened Json
  import opened JsonCanonical
  import opened JsonRoundTrip
  import opened JsonEncodable
  import opened JsonPrefix
  import opened JsonOctets
  import opened JsonSize
  import opened JsonTexts
  import opened Dictionary

  const LIMIT: nat := 32 * 1024 * 1024
  const NEWLINE: Octet := 10
  const KEY_PAYLOAD: Str := Lit("payload")
  const KEY_SHA256: Str := Lit("sha256")
  const KEY_KEY: Str := Lit("key")
  const KEY_VALUE: Str := Lit("value")

  /** `"sha256:"` and 64 lower-case hexadecimal digits: what `_target` accepts. */
  predicate IsKey(key: Str) {
    |key| == 71 && key[..7] == Lit("sha256:") && forall i | 7 <= i < 71 :: 48 <= key[i] <= 57 || 97 <= key[i] <= 102
  }

  /** `encode_json`: canonical JSON and a line feed; None where it raises. */
  function EncodeJson(v: Json): Option<Bytes> {
    match Dumps(v)
    case Err(_) => None
    case Ok(text) =>
      match Utf8Encode(text)
      case None => None
      case Some(octets) => Some(octets + [NEWLINE])
  }

  function Payload(key: Str, value: seq<Field>): seq<Field> {
    [Field(KEY_KEY, Text(key)), Field(KEY_VALUE, Obj(value))]
  }

  function Envelope(payload: Json, digest: Str): seq<Field> {
    [Field(KEY_PAYLOAD, payload), Field(KEY_SHA256, Text(digest))]
  }

  /** The dictionary that `save` encodes; None where the digest of its payload cannot be taken. */
  function SealedEnvelope(lib: Library, key: Str, value: seq<Field>): Option<Json> {
    var payload := Obj(Payload(key, value));
    match EncodeJson(payload)
    case None => None
    case Some(inner) => Some(Obj(Envelope(payload, lib.digest(inner))))
  }

  /** What `save` makes of a value: an error that it does not catch, more than it may write, or octets. */
  datatype Sealing = Unencodable | TooLong | Octets(octets: Bytes)

  function Sealed(lib: Library, key: Str, value: seq<Field>): Sealing {
    match SealedEnvelope(lib, key, value)
    case None => Unencodable
    case Some(env) =>
      match EncodeJson(env)
      case None => Unencodable
      case Some(b) => if |b| > LIMIT then TooLong else Octets(b)
  }

  /** `load` returns None or a dictionary, or `encode_json` raises an error that it does not catch. */
  datatype Outcome = Miss | Hit(value: seq<Field>) | Raises

  /** The shape that `load` demands of an envelope: a payload for this key that holds a dictionary. */
  predicate Addressed(v: Json, key: Str) {
    && v.Obj? && KeySet(v.fields) == {KEY_PAYLOAD, KEY_SHA256} && Get(v.fields, KEY_PAYLOAD).Obj?
    && var payload := Get(v.fields, KEY_PAYLOAD).fields;
       KeySet(payload) == {KEY_KEY, KEY_VALUE} && Get(payload, KEY_KEY) == Text(key) && Get(payload, KEY_VALUE).Obj?
  }

  function PayloadOf(v: Json): seq<Field>
    requires v.Obj? && KEY_PAYLOAD in KeySet(v.fields) && Get(v.fields, KEY_PAYLOAD).Obj?
  {
    Get(v.fields, KEY_PAYLOAD).fields
  }

  function ValueOf(v: Json, key: Str): seq<Field>
    requires Addressed(v, key)
  {
    Get(PayloadOf(v), KEY_VALUE).fields
  }

  /** What `load` makes of the octets it read. */
  function Open(lib: Library, key: Str, raw: Bytes): Outcome {
    if |raw| > LIMIT then Miss
    else
      match LoadOctets(lib, raw)
      case None => Miss
      case Some(v) =>
        if !Addressed(v, key) then Miss
        else
          match EncodeJson(Obj(PayloadOf(v)))
          case None => Raises
          case Some(inner) =>
            if Text(lib.digest(inner)) == Get(v.fields, KEY_SHA256) then Hit(ValueOf(v, key)) else Miss
  }

  // ---------------------------------------------------------------- the encoder

  lemma EncodesExactly(v: Json)
    requires UniqueKeys(v)
    ensures EncodeJson(v).Some? <==> Spellable(v) && Encodes(v)
  {
    hide UniqueKeys, Print, Sorted, Spellable, Encodes, Encodable;
    if Spellable(v) { DumpEncodable(v); }
  }

  /** Encoding does not depend on the order of a dictionary. */
  lemma SameEncode(v: Json, w: Json)
    requires UniqueKeys(v) && UniqueKeys(w) && SameValue(v, w)
    ensures EncodeJson(v) == EncodeJson(w)
  {
    hide UniqueKeys, Print, Sorted, SameValue, Spellable;
    SortedKeeps(v);
    SortedKeeps(w);
    SameExactlySorted(v, w);
  }

  lemma SameCarries(v: Json, w: Json, x: Json)
    requires UniqueKeys(v) && UniqueKeys(w) && UniqueKeys(x) && SameValue(v, w)
    ensures SameValue(w, v)
    ensures SameValue(w, x) ==> SameValue(v, x)
  {
    hide UniqueKeys, Sorted, SameValue;
    SameExactlySorted(v, w);
    SameExactlySorted(w, v);
    SameExactlySorted(w, x);
    SameExactlySorted(v, x);
  }

  lemma SameItself(v: Json)
    requires UniqueKeys(v)
    ensures SameValue(v, v)
  {
    hide UniqueKeys, Sorted, SameValue;
    SameExactlySorted(v, v);
  }

  // ---------------------------------------------------------------- envelopes

  lemma PayloadLookups(key: Str, value: seq<Field>)
    ensures var f := Payload(key, value);
      DistinctKeys(f) && KeySet(f) == {KEY_KEY, KEY_VALUE} && Get(f, KEY_KEY) == Text(key)
        && Get(f, KEY_VALUE) == Obj(value)
  {
    var f := Payload(key, value);
    assert |KEY_KEY| == 3 && |KEY_VALUE| == 5;
    assert f[0].key == KEY_KEY && f[1].key == KEY_VALUE;
    GetAt(f, 0);
    GetAt(f, 1);
  }

  lemma EnvelopeLookups(payload: Json, digest: Str)
    ensures var f := Envelope(payload, digest);
      DistinctKeys(f) && KeySet(f) == {KEY_PAYLOAD, KEY_SHA256} && Get(f, KEY_PAYLOAD) == payload
        && Get(f, KEY_SHA256) == Text(digest)
  {
    var f := Envelope(payload, digest);
    assert |KEY_PAYLOAD| == 7 && |KEY_SHA256| == 6;
    assert f[0].key == KEY_PAYLOAD && f[1].key == KEY_SHA256;
    GetAt(f, 0);
    GetAt(f, 1);
  }

  lemma EnvelopeUnique(key: Str, value: seq<Field>, digest: Str)
    requires UniqueKeys(Obj(value))
    ensures UniqueKeys(Obj(Payload(key, value))) && UniqueKeys(Obj(Envelope(Obj(Payload(key, value)), digest)))
  {
    PayloadLookups(key, value);
    EnvelopeLookups(Obj(Payload(key, value)), digest);
    hide KeySet, Get, DistinctKeys;
    var p := Obj(Payload(key, value));
    assert forall i | 0 <= i < |p.fields| :: UniqueKeys(p.fields[i].value);
  }

  lemma EnvelopeProper(lib: Library, key: Str, value: seq<Field>, digest: Str)
    requires Proper(lib, Obj(value))
    ensures Proper(lib, Obj(Envelope(Obj(Payload(key, value)), digest)))
  {
    var p := Obj(Payload(key, value));
    assert forall i | 0 <= i < |p.fields| :: Proper(lib, p.fields[i].value);
  }

  lemma UniqueEntry(fields: seq<Field>, k: Str)
    requires UniqueKeys(Obj(fields)) && k in KeySet(fields)
    ensures DistinctKeys(fields) && UniqueKeys(Get(fields, k))
  {
  }

  /** The parts of an addressed envelope are dictionaries too. */
  lemma PartsUnique(v: Json, key: Str)
    requires Addressed(v, key) && UniqueKeys(v)
    ensures DistinctKeys(v.fields) && UniqueKeys(Obj(PayloadOf(v))) && DistinctKeys(PayloadOf(v))
    ensures UniqueKeys(Obj(ValueOf(v, key)))
  {
    hide UniqueKeys, DistinctKeys, Lit;
    UniqueEntry(v.fields, KEY_PAYLOAD);
    UniqueEntry(PayloadOf(v), KEY_VALUE);
  }

  // ---------------------------------------------------------------- when the encoder raises

  /** The entries of a dictionary with two keys are those of the two. */
  ghost predicate IsPair(fields: seq<Field>, a: Str, b: Str, v: Json, w: Json) {
    && (forall i | 0 <= i < |fields| :: fields[i] == Field(a, v) || fields[i] == Field(b, w))
    && Field(a, v) in fields && Field(b, w) in fields
  }

  lemma PairEntries(fields: seq<Field>, a: Str, b: Str)
    requires DistinctKeys(fields) && KeySet(fields) == {a, b}
    ensures a in KeySet(fields) && b in KeySet(fields) && IsPair(fields, a, b, Get(fields, a), Get(fields, b))
  {
    assert a in KeySet(fields) && b in KeySet(fields);
    forall i | 0 <= i < |fields|
      ensures fields[i] == Field(a, Get(fields, a)) || fields[i] == Field(b, Get(fields, b))
    {
      GetAt(fields, i);
      assert fields[i].key in KeySet(fields);
    }
    var i :| 0 <= i < |fields| && fields[i].key == a && fields[i].value == Get(fields, a);
    var j :| 0 <= j < |fields| && fields[j].key == b && fields[j].value == Get(fields, b);
    assert fields[i] == Field(a, Get(fields, a)) && fields[j] == Field(b, Get(fields, b));
  }

  lemma PairNumbers(fields: seq<Field>, a: Str, b: Str, v: Json, w: Json)
    requires IsPair(fields, a, b, v, w)
    ensures IntsFit(Obj(fields)) <==> IntsFit(v) && IntsFit(w)
    ensures Finite(Obj(fields)) <==> Finite(v) && Finite(w)
  {
    var i, j :| 0 <= i < |fields| && 0 <= j < |fields| && fields[i] == Field(a, v) && fields[j] == Field(b, w);
  }

  lemma PairTexts(fields: seq<Field>, a: Str, b: Str, v: Json, w: Json)
    requires IsPair(fields, a, b, v, w)
    ensures Encodes(Obj(fields)) <==> Encodable(a) && Encodable(b) && Encodes(v) && Encodes(w)
  {
    hide Encodable;
    var i, j :| 0 <= i < |fields| && 0 <= j < |fields| && fields[i] == Field(a, v) && fields[j] == Field(b, w);
  }

  /** What is said of all values of a dictionary with two keys is said of the two. */
  lemma PairParts(fields: seq<Field>, a: Str, b: Str)
    requires DistinctKeys(fields) && KeySet(fields) == {a, b}
    ensures IntsFit(Obj(fields)) <==> IntsFit(Get(fields, a)) && IntsFit(Get(fields, b))
    ensures Finite(Obj(fields)) <==> Finite(Get(fields, a)) && Finite(Get(fields, b))
    ensures Encodes(Obj(fields)) <==> Encodable(a) && Encodable(b) && Encodes(Get(fields, a)) && Encodes(Get(fields, b))
  {
    hide IntsFit, Finite, Encodes, Encodable, Get, DistinctKeys, IsPair;
    PairEntries(fields, a, b);
    PairNumbers(fields, a, b, Get(fields, a), Get(fields, b));
    PairTexts(fields, a, b, Get(fields, a), Get(fields, b));
  }

  lemma KeysAreText(key: Str)
    requires IsKey(key)
    ensures Encodable(key) && Encodable(KEY_KEY) && Encodable(KEY_VALUE)
  {
    forall i | 0 <= i < 71 ensures !IsSurrogate(key[i]) { assert i < 7 ==> key[i] == key[..7][i]; }
  }

  /** An envelope for the key with a lone surrogate or a number that is not finite in its value. */
  predicate Poisoned(lib: Library, key: Str, raw: Bytes) {
    && |raw| <= LIMIT && LoadOctets(lib, raw).Some? && Addressed(LoadOctets(lib, raw).value, key)
    && var value := Obj(ValueOf(LoadOctets(lib, raw).value, key)); !(Finite(value) && Encodes(value))
  }

  /**
   `load` raises exactly on a file within the limit whose envelope has the right shape and the key, and
   whose value holds a lone surrogate or a number that is not finite: whatever its digest says.
   */
  lemma LoadRaisesExactly(lib: Library, key: Str, raw: Bytes)
    requires Faithful(lib) && IsKey(key)
    ensures Open(lib, key, raw) == Raises <==> Poisoned(lib, key, raw)
  {
    hide LoadOctets, EncodeJson, Lit, Encodable;
    if LoadOctets(lib, raw).Some? && Addressed(LoadOctets(lib, raw).value, key) {
      var v := LoadOctets(lib, raw).value;
      LoadOctetsFacts(lib, raw);
      PartsUnique(v, key);
      PayloadEncodes(v, key);
    }
  }

  lemma PayloadEncodes(v: Json, key: Str)
    requires Addressed(v, key) && IsKey(key) && UniqueKeys(v) && IntsFit(v)
    requires DistinctKeys(v.fields) && UniqueKeys(Obj(PayloadOf(v))) && DistinctKeys(PayloadOf(v))
    ensures EncodeJson(Obj(PayloadOf(v))).Some? <==> Finite(Obj(ValueOf(v, key))) && Encodes(Obj(ValueOf(v, key)))
  {
    var p := PayloadOf(v);
    assert IntsFit(Obj(p)) by { PairParts(v.fields, KEY_PAYLOAD, KEY_SHA256); }
    PairParts(p, KEY_KEY, KEY_VALUE);
    KeysAreText(key);
    SpellableParts(Obj(p));
    assert Finite(Text(key)) && (Encodes(Text(key)) <==> Encodable(key));
    hide *;
    EncodesExactly(Obj(p));
  }

  /** A file that `load` raises on: an envelope for the key whose value cannot be encoded. */
  lemma FileThatRaises(lib: Library, key: Str, value: seq<Field>) returns (raw: Bytes)
    requires Faithful(lib) && IsKey(key) && UniqueKeys(Obj(value)) && Readable(Obj(value), true)
    requires Size(Obj(value)) <= 1000
    requires !(Finite(Loaded(lib, Obj(value))) && Encodes(Loaded(lib, Obj(value))))
    ensures Open(lib, key, raw) == Raises
  {
    var payload := Payload(key, value);
    var env := Envelope(Obj(payload), []);
    raw := Utf8Octets(Print(Obj(env)));
    EnvelopeUnique(key, value, []);
    EnvelopeReadable(key, value);
    EnvelopeSize(key, value);
    EnvelopeLoaded(lib, key, value);
    hide LoadOctets, Utf8Octets, Print, UniqueKeys, Readable, Loaded, Finite, Encodes, Open, Lit, IsKey, Addressed,
      Size, Faithful;
    assert Print(Obj(env)) + [] == Print(Obj(env)) && SkipSpace([]) == [];
    PrintedLoads(lib, env, []);
    LoadRaisesExactly(lib, key, raw);
  }

  lemma EnvelopeReadable(key: Str, value: seq<Field>)
    requires Readable(Obj(value), true)
    ensures Readable(Obj(Envelope(Obj(Payload(key, value)), [])), true)
  {
    var p := Obj(Payload(key, value));
    assert forall i | 0 <= i < |p.fields| :: Readable(p.fields[i].value, true);
  }

  lemma EnvelopeSize(key: Str, value: seq<Field>)
    requires IsKey(key) && Size(Obj(value)) <= 1000
    ensures |Utf8Octets(Print(Obj(Envelope(Obj(Payload(key, value)), []))))| <= LIMIT
  {
    var p := Payload(key, value);
    var env := Envelope(Obj(p), []);
    hide Utf8Octets, PrintText, Print, Lit;
    PrintedSize(Obj(env));
    TextSize(key);
    TextSize([]);
    TextSize(KEY_KEY);
    TextSize(KEY_VALUE);
    TextSize(KEY_PAYLOAD);
    TextSize(KEY_SHA256);
    SizeOfTwo(p);
    SizeOfTwo(env);
    SizeOfText(key);
    SizeOfText([]);
  }

  lemma SizeOfTwo(fields: seq<Field>)
    requires |fields| == 2
    ensures Size(Obj(fields)) == |Utf8Octets(PrintText(fields[0].key))| + Size(fields[0].value)
        + |Utf8Octets(PrintText(fields[1].key))| + Size(fields[1].value) + 5
  {
    SizeStep(fields, 0);
    SizeStep(fields, 1);
    assert fields[0..] == fields && SizeFields(fields[2..]) == 0;
    hide Utf8Octets, PrintText, Print;
  }

  lemma SizeOfText(s: Str)
    ensures Size(Text(s)) == |Utf8Octets(PrintText(s))|
  {
  }

  /** What Python makes of such an envelope. */
  lemma EnvelopeLoaded(lib: Library, key: Str, value: seq<Field>)
    requires UniqueKeys(Obj(value))
    ensures var v := Loaded(lib, Obj(Envelope(Obj(Payload(key, value)), [])));
      Addressed(v, key) && Obj(ValueOf(v, key)) == Loaded(lib, Obj(value))
  {
    var p := Payload(key, value);
    var env := Envelope(Obj(p), []);
    PayloadLookups(key, value);
    EnvelopeLookups(Obj(p), []);
    LoadedObject(lib, p);
    LoadedObject(lib, env);
    assert Loaded(lib, Obj(value)).Obj?;
    var v := Loaded(lib, Obj(env));
    assert Get(v.fields, KEY_PAYLOAD) == Loaded(lib, Obj(p)) by { assert KEY_PAYLOAD in KeySet(env); }
    assert Get(PayloadOf(v), KEY_VALUE) == Loaded(lib, Obj(value)) by { assert KEY_VALUE in KeySet(p); }
    assert Get(PayloadOf(v), KEY_KEY) == Loaded(lib, Text(key)) by { assert KEY_KEY in KeySet(p); }
  }

  /** A dictionary with distinct keys keeps them; each value becomes Python's. */
  lemma LoadedObject(lib: Library, fields: seq<Field>)
    requires DistinctKeys(fields)
    ensures var v := Loaded(lib, Obj(fields));
      v.Obj? && KeySet(v.fields) == KeySet(fields)
        && forall k | k in KeySet(fields) :: Get(v.fields, k) == Loaded(lib, Get(fields, k))
  {
    var all := LoadedEntries(lib, fields);
    LastDistinct(all);
    assert DistinctKeys(all) && Loaded(lib, Obj(fields)) == Obj(all);
    hide Loaded, LoadedEntries;
    forall k | k in KeySet(fields) ensures k in KeySet(all) && Get(all, k) == Loaded(lib, Get(fields, k)) {
      var i :| 0 <= i < |fields| && fields[i].key == k && fields[i].value == Get(fields, k);
      assert all[i].key == k;
      GetAt(all, i);
    }
    forall k | k in KeySet(all) ensures k in KeySet(fields) {
      var i :| 0 <= i < |all| && all[i].key == k;
      assert fields[i].key == k;
    }
  }

  const SURROGATE: Json := Text([0xD800])
  const NOT_A_NUMBER: Json := Float(Lit("NaN"))

  /**
   The module promises that invalid entries are misses. For every key there is a file on which `load`
   raises instead: one whose value holds a lone surrogate, and one whose value holds `NaN`.
   */
  lemma InvalidEntryRaises(lib: Library, key: Str, bad: Json) returns (raw: Bytes)
    requires Faithful(lib) && IsKey(key) && (bad == SURROGATE || bad == NOT_A_NUMBER)
    ensures Open(lib, key, raw) == Raises
  {
    var value := [Field(Lit("a"), bad)];
    BadValue(lib, bad);
    hide *;
    raw := FileThatRaises(lib, key, value);
  }

  lemma BadValue(lib: Library, bad: Json)
    requires Faithful(lib) && (bad == SURROGATE || bad == NOT_A_NUMBER)
    ensures var v := Obj([Field(Lit("a"), bad)]);
      && UniqueKeys(v) && Readable(v, true) && Size(v) <= 1000
      && !(Finite(Loaded(lib, v)) && Encodes(Loaded(lib, v)))
  {
    NanIsConstant();
    BadSize(bad);
    BadReadable(bad);
    BadLeaf(lib, Loaded(lib, bad), bad);
    BadLoaded(lib, Lit("a"), bad);
  }

  lemma NanIsConstant()
    ensures IsConstant(Lit("NaN"))
  {
    assert Lit("NaN")[..3] == Lit("NaN");
  }

  lemma BadReadable(bad: Json)
    requires (bad == SURROGATE || bad == NOT_A_NUMBER) && IsConstant(Lit("NaN"))
    ensures UniqueKeys(Obj([Field(Lit("a"), bad)])) && Readable(Obj([Field(Lit("a"), bad)]), true)
  {
    hide IsConstant, IsFloatSpelling, Lit;
    assert UniqueKeys(bad) && Readable(bad, true);
  }

  lemma BadLoaded(lib: Library, k: Str, bad: Json)
    requires !(Finite(Loaded(lib, bad)) && Encodes(Loaded(lib, bad)))
    ensures var v := Loaded(lib, Obj([Field(k, bad)])); !(Finite(v) && Encodes(v))
  {
    var fields := [Field(k, bad)];
    hide Loaded, Finite, Encodes;
    LoadedObject(lib, fields);
    GetAt(fields, 0);
    BadInside(Loaded(lib, Obj(fields)).fields, k);
  }

  lemma BadLeaf(lib: Library, v: Json, bad: Json)
    requires Faithful(lib) && (bad == SURROGATE || bad == NOT_A_NUMBER) && IsConstant(Lit("NaN"))
    requires v == Loaded(lib, bad)
    ensures !(Finite(v) && Encodes(v))
  {
    if bad == SURROGATE { assert IsSurrogate(bad.s[0]); }
  }

  lemma BadInside(fields: seq<Field>, k: Str)
    requires k in KeySet(fields) && !(Finite(Get(fields, k)) && Encodes(Get(fields, k)))
    ensures !(Finite(Obj(fields)) && Encodes(Obj(fields)))
  {
  }

  lemma BadSize(bad: Json)
    requires bad == SURROGATE || bad == NOT_A_NUMBER
    ensures Size(Obj([Field(Lit("a"), bad)])) <= 1000
  {
    var fields := [Field(Lit("a"), bad)];
    TextSize(Lit("a"));
    assert Size(bad) <= 8 by {
      if bad == SURROGATE {
        TextSize([0xD800]);
        SizeOfText([0xD800]);
      } else {
        Utf8OctetsAscii(Lit("NaN"));
      }
    }
    hide Utf8Octets, PrintText, Print;
    SizeStep(fields, 0);
    assert fields[0..] == fields && SizeFields(fields[1..]) == 0;
  }

  // ---------------------------------------------------------------- when a file is a hit

  /** Within the limit, the octets decode to the envelope that `save` builds for the value, order aside. */
  ghost predicate Seals(lib: Library, key: Str, value: seq<Field>, raw: Bytes) {
    && |raw| <= LIMIT && LoadOctets(lib, raw).Some? && SealedEnvelope(lib, key, value).Some?
    && SameValue(LoadOctets(lib, raw).value, SealedEnvelope(lib, key, value).value)
  }

  /**
   A file is a hit with a value, order aside, if and only if it is within the limit and decodes to the
   envelope that `save` builds for the key and the value.
   */
  lemma HitExactly(lib: Library, key: Str, value: seq<Field>, raw: Bytes)
    requires Faithful(lib) && UniqueKeys(Obj(value))
    ensures Open(lib, key, raw).Hit? && SameValue(Obj(value), Obj(Open(lib, key, raw).value))
      <==> Seals(lib, key, value, raw)
  {
    hide LoadOctets, EncodeJson, UniqueKeys, Faithful, SameValue, Lit;
    if |raw| <= LIMIT && LoadOctets(lib, raw).Some? {
      LoadOctetsFacts(lib, raw);
      EnvelopeMatches(lib, key, value, LoadOctets(lib, raw).value);
      assert Open(lib, key, raw).Hit? && SameValue(Obj(value), Obj(Open(lib, key, raw).value))
        <==> Carries(lib, key, value, LoadOctets(lib, raw).value);
    }
  }

  /** A decoded envelope is addressed to the key, holds the value, and has the digest of its payload. */
  ghost predicate Carries(lib: Library, key: Str, value: seq<Field>, v: Json) {
    && Addressed(v, key) && EncodeJson(Obj(PayloadOf(v))).Some?
    && Get(v.fields, KEY_SHA256) == Text(lib.digest(EncodeJson(Obj(PayloadOf(v))).value))
    && SameValue(Obj(value), Obj(ValueOf(v, key)))
  }

  lemma EnvelopeMatches(lib: Library, key: Str, value: seq<Field>, v: Json)
    requires UniqueKeys(v) && UniqueKeys(Obj(value))
    ensures Carries(lib, key, value, v)
      <==> SealedEnvelope(lib, key, value).Some? && SameValue(v, SealedEnvelope(lib, key, value).value)
  {
    hide EncodeJson, UniqueKeys, SameValue, Lit;
    var payload := Obj(Payload(key, value));
    EnvelopeUnique(key, value, []);
    if Addressed(v, key) {
      PartsUnique(v, key);
      PayloadMatches(key, value, PayloadOf(v));
      if SameValue(Obj(PayloadOf(v)), payload) { SameEncode(Obj(PayloadOf(v)), payload); }
      SameBothWays(Obj(value), Obj(ValueOf(v, key)));
    }
    if EncodeJson(payload).Some? {
      var digest := lib.digest(EncodeJson(payload).value);
      EnvelopeUnique(key, value, digest);
      SealedMatches(key, value, digest, v);
    }
  }

  lemma SameBothWays(v: Json, w: Json)
    requires UniqueKeys(v) && UniqueKeys(w)
    ensures SameValue(v, w) <==> SameValue(w, v)
  {
    hide UniqueKeys, Sorted, SameValue;
    SameExactlySorted(v, w);
    SameExactlySorted(w, v);
  }

  /** A payload equals the one built for a key and a value exactly if it has that key and that value. */
  lemma PayloadMatches(key: Str, value: seq<Field>, p: seq<Field>)
    requires DistinctKeys(p) && KeySet(p) == {KEY_KEY, KEY_VALUE}
    ensures SameValue(Obj(p), Obj(Payload(key, value)))
      <==> Get(p, KEY_KEY) == Text(key) && SameValue(Get(p, KEY_VALUE), Obj(value))
  {
    PayloadLookups(key, value);
    hide KeySet, Get, Lit, Payload;
    SameByLookup(p, Payload(key, value));
    SameText(Get(p, KEY_KEY), key);
    hide SameValue;
  }

  lemma SameText(v: Json, s: Str)
    ensures SameValue(v, Text(s)) <==> v == Text(s)
  {
  }

  /** The same for an envelope: shape, payload and digest. */
  lemma SealedMatches(key: Str, value: seq<Field>, digest: Str, v: Json)
    requires UniqueKeys(v)
    ensures var payload := Obj(Payload(key, value));
      SameValue(v, Obj(Envelope(payload, digest)))
      <==> Addressed(v, key) && SameValue(Obj(PayloadOf(v)), payload) && Get(v.fields, KEY_SHA256) == Text(digest)
  {
    var payload := Obj(Payload(key, value));
    var env := Envelope(payload, digest);
    EnvelopeLookups(payload, digest);
    if v.Obj? {
      assert DistinctKeys(v.fields);
      SameByLookup(v.fields, env);
      if KeySet(v.fields) == {KEY_PAYLOAD, KEY_SHA256} {
        SameText(Get(v.fields, KEY_SHA256), digest);
        var p := Get(v.fields, KEY_PAYLOAD);
        UniqueEntry(v.fields, KEY_PAYLOAD);
        if SameValue(p, payload) { PayloadShape(key, value, p); }
        hide KeySet, Get, Lit, Payload, Envelope, SameValue, UniqueKeys;
      }
    }
  }

  /** What equals a payload for the key has its shape. */
  lemma PayloadShape(key: Str, value: seq<Field>, p: Json)
    requires UniqueKeys(p) && SameValue(p, Obj(Payload(key, value)))
    ensures p.Obj? && KeySet(p.fields) == {KEY_KEY, KEY_VALUE} && Get(p.fields, KEY_KEY) == Text(key)
    ensures Get(p.fields, KEY_VALUE).Obj?
  {
    PayloadLookups(key, value);
    SameByLookup(p.fields, Payload(key, value));
    SameText(Get(p.fields, KEY_KEY), key);
    SameObject(Get(p.fields, KEY_VALUE), value);
  }

  lemma SameObject(v: Json, fields: seq<Field>)
    requires SameValue(v, Obj(fields))
    ensures v.Obj?
  {
  }

  /** A key is `sha256:` and 64 lower-case hexadecimal digits. */
  lemma KeyExactly(key: Str)
    ensures IsKey(key) <==> exists hex: Str ::
      |hex| == 64 && (forall i | 0 <= i < 64 :: hex[i] in LOWER_HEX) && key == Lit("sha256:") + hex
  {
    if IsKey(key) {
      assert key == key[..7] + key[7..];
    }
  }

  predicate PlainAscii(s: Str) {
    forall i | 0 <= i < |s| :: 0x20 <= s[i] < 0x80 && s[i] != QUOTE && s[i] != BACKSLASH
  }

  lemma {:induction false} PlainEscaped(s: Str)
    requires PlainAscii(s)
    ensures EscapeChars(s) == s
  {
    if s != [] {
      PlainEscaped(s[1..]);
      assert EscapeChar(s[0]) == [s[0]] && s == [s[0]] + s[1..];
    }
  }

  lemma PlainSize(s: Str)
    requires PlainAscii(s)
    ensures |Utf8Octets(PrintText(s))| == |s| + 2
  {
    PlainEscaped(s);
    hide EscapeChars;
    Utf8OctetsAscii(PrintText(s));
  }

  lemma KeySize(key: Str)
    requires IsKey(key)
    ensures |Utf8Octets(PrintText(key))| == 73
  {
    forall i | 0 <= i < |key| ensures 0x20 <= key[i] < 0x80 && key[i] != QUOTE && key[i] != BACKSLASH {
      if i < 7 { assert key[i] == key[..7][i] == Lit("sha256:")[i] == "sha256:"[i] as int; }
    }
    PlainSize(key);
  }

  lemma WordSizes()
    ensures |Utf8Octets(PrintText(KEY_PAYLOAD))| == 9 && |Utf8Octets(PrintText(KEY_SHA256))| == 8
    ensures |Utf8Octets(PrintText(KEY_KEY))| == 5 && |Utf8Octets(PrintText(KEY_VALUE))| == 7
  {
    PlainSize(KEY_PAYLOAD);
    PlainSize(KEY_SHA256);
    PlainSize(KEY_KEY);
    PlainSize(KEY_VALUE);
  }

  /** `{"payload":{"key":"`, a key, `","value":`, the value, `},"sha256":`, the digest, `}` and a line feed. */
  lemma SealedSize(key: Str, value: seq<Field>, digest: Str)
    requires IsKey(key)
    ensures |Utf8Octets(Print(Obj(Envelope(Obj(Payload(key, value)), digest))))| + 1
      == 113 + Size(Obj(value)) + |Utf8Octets(PrintText(digest))|
  {
    var p := Payload(key, value);
    var env := Envelope(Obj(p), digest);
    KeySize(key);
    WordSizes();
    hide Utf8Octets, PrintText, Print, Lit, IsKey;
    PrintedSize(Obj(env));
    SizeOfTwo(p);
    SizeOfTwo(env);
    SizeOfText(key);
    SizeOfText(digest);
  }

  /** A value that can be encoded is refused for its length exactly if the whole file passes 32 MiB. */
  lemma TooLongExactly(lib: Library, key: Str, value: seq<Field>)
    requires Faithful(lib) && IsKey(key) && UniqueKeys(Obj(value)) && Sealed(lib, key, value) != Unencodable
    ensures var digest := lib.digest(EncodeJson(Obj(Payload(key, value))).value);
      Sealed(lib, key, value) == TooLong
      <==> 113 + Size(Obj(value)) + |Utf8Octets(PrintText(digest))| > 32 * 1024 * 1024
  {
    var payload := Obj(Payload(key, value));
    var digest := lib.digest(EncodeJson(payload).value);
    var env := Obj(Envelope(payload, digest));
    SealedSize(key, value, digest);
    PrintedSize(env);
    PrintedSize(Sorted(env));
    SortedSize(env);
    hide Size, PrintText, Print, Utf8Octets, IsKey, UniqueKeys, Lit, Sorted;
  }

  // ---------------------------------------------------------------- what was saved is loaded

  /** `save` raises exactly for a value that holds a surrogate, a number not finite or an integer too long. */
  lemma SaveRaisesExactly(lib: Library, key: Str, value: seq<Field>)
    requires Faithful(lib) && IsKey(key) && UniqueKeys(Obj(value))
    ensures Sealed(lib, key, value) == Unencodable <==> !(Spellable(Obj(value)) && Encodes(Obj(value)))
  {
    var payload := Obj(Payload(key, value));
    EnvelopeUnique(key, value, []);
    PayloadLookups(key, value);
    BuiltParts(key, value);
    EncodesExactly(payload);
    if EncodeJson(payload).Some? {
      var digest := lib.digest(EncodeJson(payload).value);
      var env := Envelope(payload, digest);
      EnvelopeUnique(key, value, digest);
      EnvelopeParts(payload, digest);
      EncodesExactly(Obj(env));
      hide EncodeJson, Spellable, Encodes, UniqueKeys, Encodable, Lit, IsKey;
    }
  }

  lemma BuiltParts(key: Str, value: seq<Field>)
    requires IsKey(key)
    ensures var payload := Obj(Payload(key, value));
      && (Spellable(payload) <==> Spellable(Obj(value))) && (Encodes(payload) <==> Encodes(Obj(value)))
  {
    var p := Payload(key, value);
    KeysAreText(key);
    assert p[1].value == Obj(value) && p[0].value == Text(key);
  }

  lemma EnvelopeParts(payload: Json, digest: Str)
    requires Spellable(payload) && Encodes(payload) && Encodable(digest)
    ensures Spellable(Obj(Envelope(payload, digest))) && Encodes(Obj(Envelope(payload, digest)))
  {
    assert Encodable(KEY_PAYLOAD) && Encodable(KEY_SHA256);
    hide Encodable;
    assert Encodes(Text(digest)) && Spellable(Text(digest));
  }

  /** The octets of an encoded object: its text in key order and a line feed. */
  lemma EncodedText(v: Json)
    requires v.Obj? && UniqueKeys(v) && EncodeJson(v).Some?
    ensures Spellable(v) && Sorted(v).Obj? && UniqueKeys(Sorted(v)) && Readable(Sorted(v), true)
    ensures EncodeJson(v).value == Utf8Octets(Print(Sorted(v)) + [10]) == Utf8Octets(Print(Sorted(v))) + [10]
  {
    var text := Print(Sorted(v));
    assert Sorted(v).Obj?;
    hide UniqueKeys, Print, Sorted, SameValue, Spellable, Readable;
    Utf8OctetsConcat(text, [10]);
    assert [10][1..] == [] && Utf8Octets([10]) == [10];
    SortedKeeps(v);
    SpellableIsReadable(Sorted(v));
  }

  lemma SortedNotEmpty(fields: seq<Field>)
    requires fields != []
    ensures Sorted(Obj(fields)).Obj? && Sorted(Obj(fields)).fields != []
  {
    var g := SortedValues(fields);
    assert SortFields(g) == InsertField(g[0], SortFields(g[1..]));
  }

  lemma EncodedLoads(lib: Library, fields: seq<Field>)
    requires fields != [] && UniqueKeys(Obj(fields)) && Proper(lib, Obj(fields)) && EncodeJson(Obj(fields)).Some?
    ensures LoadOctets(lib, EncodeJson(Obj(fields)).value) == Some(Sorted(Obj(fields)))
  {
    var v := Obj(fields);
    EncodedText(v);
    SortedNotEmpty(fields);
    SortedProper(lib, v);
    LineFeedIsSpace();
    hide UniqueKeys, Print, Sorted, Spellable, Readable, Utf8Octets, LoadOctets, EncodeJson, Proper, Loaded;
    LoadedKeeps(lib, Sorted(v));
    PrintedLoads(lib, Sorted(v).fields, [10]);
  }

  lemma LineFeedIsSpace()
    ensures SkipSpace([10]) == []
  {
    assert [10][1..] == [];
  }

  lemma SealedParts(lib: Library, key: Str, value: seq<Field>)
    requires Sealed(lib, key, value).Octets?
    ensures SealedEnvelope(lib, key, value).Some? && EncodeJson(Obj(Payload(key, value))).Some?
    ensures var payload := Obj(Payload(key, value));
      var env := Envelope(payload, lib.digest(EncodeJson(payload).value));
      && SealedEnvelope(lib, key, value) == Some(Obj(env))
        && EncodeJson(Obj(env)) == Some(Sealed(lib, key, value).octets)
      && |Sealed(lib, key, value).octets| <= LIMIT
  {
    hide EncodeJson;
  }

  /** The sealed octets are within the limit and decode to the envelope in key order. */
  lemma SealedDecodes(lib: Library, key: Str, value: seq<Field>)
    requires UniqueKeys(Obj(value)) && Proper(lib, Obj(value)) && Sealed(lib, key, value).Octets?
    ensures SealedEnvelope(lib, key, value).Some? && UniqueKeys(SealedEnvelope(lib, key, value).value)
    ensures LoadOctets(lib, Sealed(lib, key, value).octets) == Some(Sorted(SealedEnvelope(lib, key, value).value))
    ensures Seals(lib, key, value, Sealed(lib, key, value).octets)
  {
    SealedParts(lib, key, value);
    var payload := Obj(Payload(key, value));
    var digest := lib.digest(EncodeJson(payload).value);
    var env := Envelope(payload, digest);
    EnvelopeUnique(key, value, digest);
    EnvelopeProper(lib, key, value, digest);
    hide UniqueKeys, Proper, Sorted, EncodeJson, Sealed, SealedEnvelope, LoadOctets, SameValue, Payload, Lit;
    EncodedLoads(lib, env);
    SortedKeeps(Obj(env));
    SameBothWays(Obj(env), Sorted(Obj(env)));
  }

  lemma SortedObject(fields: seq<Field>)
    ensures Sorted(Obj(fields)) == Obj(Received(fields))
    ensures forall s :: Sorted(Text(s)) == Text(s)
  {
  }

  /** The value that is loaded is the saved dictionary, its order aside. */
  lemma LoadedIsSame(value: seq<Field>)
    requires UniqueKeys(Obj(value))
    ensures SameValue(Obj(value), Obj(Received(value)))
  {
    SortedKeeps(Obj(value));
    SortedObject(value);
    hide SameValue, Sorted, UniqueKeys;
  }

  /** The value of an envelope in key order is the value in key order. */
  lemma SortedValue(key: Str, value: seq<Field>, digest: Str)
    requires UniqueKeys(Obj(value))
    ensures var v := Sorted(Obj(Envelope(Obj(Payload(key, value)), digest)));
      Addressed(v, key) ==> ValueOf(v, key) == Received(value)
  {
    var p := Payload(key, value);
    PayloadLookups(key, value);
    EnvelopeLookups(Obj(p), digest);
    SortedObject(Envelope(Obj(p), digest));
    SortedObject(p);
    SortedObject(value);
    hide UniqueKeys, KeySet, Get, Lit, Received, Sorted;
    ReceivedLookup(Envelope(Obj(p), digest));
    ReceivedLookup(p);
  }

  /** A value that was sealed for a key is what opening the octets for that key gives, in key order. */
  lemma SealedOpens(lib: Library, key: Str, value: seq<Field>)
    requires Faithful(lib) && UniqueKeys(Obj(value)) && Proper(lib, Obj(value)) && Sealed(lib, key, value).Octets?
    ensures Open(lib, key, Sealed(lib, key, value).octets) == Hit(Received(value))
  {
    var raw := Sealed(lib, key, value).octets;
    SealedParts(lib, key, value);
    SealedDecodes(lib, key, value);
    var payload := Obj(Payload(key, value));
    SortedValue(key, value, lib.digest(EncodeJson(payload).value));
    hide UniqueKeys, Proper, Sorted, EncodeJson, Sealed, SealedEnvelope, LoadOctets, SameValue, Payload, Received,
      Faithful, Addressed;
    HitExactly(lib, key, value, raw);
  }

  // ---------------------------------------------------------------- truncated files are misses

  lemma CutRefused(lib: Library, v: Json, n: nat)
    requires v.Obj? && v.fields != [] && UniqueKeys(v) && EncodeJson(v).Some? && n < |EncodeJson(v).value| - 1
    ensures LoadOctets(lib, EncodeJson(v).value[..n]).None?
  {
    EncodedText(v);
    SortedNotEmpty(v.fields);
    SortedKeeps(v);
    hide *;
    CutTextRefused(lib, Sorted(v), n);
  }

  /** The octets of a printed object and a line feed, cut before the object is complete. */
  lemma CutTextRefused(lib: Library, v: Json, n: nat)
    requires v.Obj? && v.fields != [] && UniqueKeys(v) && Spellable(v) && n < |Utf8Octets(Print(v))|
    requires Utf8Octets(Print(v) + [10]) == Utf8Octets(Print(v)) + [10]
    ensures LoadOctets(lib, Utf8Octets(Print(v) + [10])[..n]).None?
  {
    var text := Print(v);
    var b := Utf8Octets(text + [10])[..n];
    assert b == Utf8Octets(text)[..n];
    ObjectOctets(v.fields, [10]);
    ObjectGuessed(Utf8Octets(text + [10]), n);
    CutDecodes(text, n);
    hide UniqueKeys, Print, Spellable, Utf8Octets, Loads, PassDecode, GuessedUtf8;
    if PassDecode(b).Some? {
      var k :| 0 <= k <= |text| && PassDecode(b) == Some(text[..k]) && |Utf8Octets(text[..k])| == n;
      assert k < |text| by { assert text[..|text|] == text; }
      TruncatedObjectRefused(v, k, PYTHON);
    }
  }

  /** A file cut short anywhere but at its final line feed is a miss, for every key. */
  lemma TruncationMisses(lib: Library, key: Str, value: seq<Field>, n: nat, other: Str)
    requires UniqueKeys(Obj(value)) && Sealed(lib, key, value).Octets? && n < |Sealed(lib, key, value).octets| - 1
    ensures Open(lib, other, Sealed(lib, key, value).octets[..n]) == Miss
  {
    SealedParts(lib, key, value);
    var payload := Obj(Payload(key, value));
    var env := Envelope(payload, lib.digest(EncodeJson(payload).value));
    EnvelopeUnique(key, value, lib.digest(EncodeJson(payload).value));
    hide UniqueKeys, EncodeJson, Lit, Sealed, LoadOctets, SealedEnvelope, Addressed;
    CutRefused(lib, Obj(env), n);
  }
}
