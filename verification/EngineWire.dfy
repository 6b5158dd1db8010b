/** Round trips of the engine's descriptor. */
module EngineWire {
  // What decoding makes of encoded dictionaries and descriptors, and how large a descriptor can get.

  import opened Text
  import opened Json
  import opened Dictionary
  import opened JsonRoundTrip
  import opened JsonCanonical
  import opened JsonSize
  import opened EngineContracts

  // ---------------------------------------------------------------- dictionaries through the wire

  /** Encoding a dictionary and decoding the bytes gives that dictionary. */
  lemma DecodeCanonical(fields: seq<Field>, newline: bool, maximum: nat)
    requires UniqueKeys(Obj(fields))
    requires CanonicalBytes(fields, newline).Ok? && |CanonicalBytes(fields, newline).value| <= maximum
    ensures DecodeJson(CanonicalBytes(fields, newline).value, maximum) == Ok(Received(fields))
  {
    var text := Dumps(Obj(fields)).value;
    var tail: Str := if newline then [10] else [];
    var b := CanonicalBytes(fields, newline).value;
    Utf8OctetsConcat(text, tail);
    assert Utf8Octets(tail) == (if newline then [NEWLINE] else []) by {
      if newline { assert tail[1..] == []; assert Utf8Char(10) == [10]; }
    }
    EncodableConcat(text, tail);
    Utf8RoundTrip(text + tail);
    assert SkipSpace(tail) == [] by { if newline { assert tail[1..] == []; } }
    LoadsDumped(Obj(fields), tail, STRICT);
    PrintNotEmpty(Obj(fields));
    assert b == Utf8Octets(text + tail);
  }

  lemma PrintNotEmpty(v: Json)
    requires v.Obj?
    ensures Print(Sorted(v)) != []
  {
  }

  // ---------------------------------------------------------------- engine descriptor

  lemma DescriptorEntries(d: EngineDescriptor)
    ensures DistinctKeys(DescriptorPayload(d)) && KeySet(DescriptorPayload(d)) == DescriptorKeys()
    ensures |DescriptorPayload(d)| == 11
    ensures forall i | 0 <= i < 11 :: var v := DescriptorPayload(d)[i].value; !v.Arr? && !v.Obj?
  {
    var f := DescriptorPayload(d);
    assert KEY_RUNTIME_MAJOR[0] != KEY_ENDPOINT_KIND[0] && KEY_RUNTIME_MAJOR[0] != KEY_ENDPOINT_NAME[0];
    assert KEY_ENDPOINT_KIND[9] != KEY_ENDPOINT_NAME[9];
    assert |f[0].key| == 18 && |f[1].key| == 23 && |f[2].key| == 13 && |f[3].key| == 8;
    assert |f[4].key| == 9 && |f[5].key| == 3 && |f[6].key| == 22 && |f[7].key| == 13;
    assert |f[8].key| == 13 && |f[9].key| == 5 && |f[10].key| == 10;
  }

  lemma DescriptorValues(d: EngineDescriptor)
    ensures KeySet(DescriptorPayload(d)) == DescriptorKeys()
    ensures var f := DescriptorPayload(d);
      Get(f, KEY_DESCRIPTOR_VERSION) == Int(1) && Get(f, KEY_ENGINE_PROTOCOL_VERSION) == Int(2)
      && Get(f, KEY_RUNTIME_MAJOR) == Int(0) && Get(f, KEY_SCOPE_ID) == Text(d.scopeId)
      && Get(f, KEY_ENGINE_ID) == Text(d.engineId) && Get(f, KEY_PID) == Int(d.pid)
      && Get(f, KEY_PROCESS_START_IDENTITY) == Text(d.processStartIdentity)
      && Get(f, KEY_ENDPOINT_KIND) == Text(d.endpointKind) && Get(f, KEY_ENDPOINT_NAME) == Text(d.endpointName)
      && Get(f, KEY_NONCE) == Text(d.nonce) && Get(f, KEY_STARTED_AT) == Text(d.startedAt)
  {
    hide Get, KeySet, DistinctKeys, Lit;
    var f := DescriptorPayload(d);
    DescriptorEntries(d);
    GetAt(f, 0); GetAt(f, 1); GetAt(f, 2); GetAt(f, 3); GetAt(f, 4); GetAt(f, 5);
    GetAt(f, 6); GetAt(f, 7); GetAt(f, 8); GetAt(f, 9); GetAt(f, 10);
  }

  lemma ConstructorIdempotent(lib: Library, v0: Json, v1: Json, v2: Json, v3: Json, v4: Json, v5: Json, v6: Json,
          v7: Json, v8: Json, v9: Json, v10: Json, d: EngineDescriptor)
    requires NewDescriptor(lib, v0, v1, v2, v3, v4, v5, v6, v7, v8, v9, v10) == Ok(d)
    ensures NewDescriptor(lib, Int(1), Int(2), Int(0), Text(d.scopeId), Text(d.engineId), Int(d.pid),
                          Text(d.processStartIdentity), Text(d.endpointKind), Text(d.endpointName),
                          Text(d.nonce), Text(d.startedAt)) == Ok(d)
  {
    hide IsHexText, IsNonceText, Base64Decode, Lit;
  }

  /** The payload of a constructed descriptor passes the constructor's checks again. */
  lemma DescriptorPayloadAccepted(lib: Library, v0: Json, v1: Json, v2: Json, v3: Json, v4: Json, v5: Json, v6: Json,
          v7: Json, v8: Json, v9: Json, v10: Json, d: EngineDescriptor)
    requires NewDescriptor(lib, v0, v1, v2, v3, v4, v5, v6, v7, v8, v9, v10) == Ok(d)
    ensures DescriptorFromFields(lib, DescriptorPayload(d)) == Ok(d)
  {
    hide NewDescriptor, Get, KeySet, DescriptorKeys, DescriptorPayload, Lit;
    DescriptorValues(d);
    ConstructorIdempotent(lib, v0, v1, v2, v3, v4, v5, v6, v7, v8, v9, v10, d);
  }

  /** The length of an encoded dictionary is its size in whatever order the entries come. */
  lemma CanonicalSize(fields: seq<Field>, newline: bool)
    requires CanonicalBytes(fields, newline).Ok?
    ensures |CanonicalBytes(fields, newline).value| == Size(Obj(fields)) + (if newline then 1 else 0)
  {
    hide Print, Sorted, Size, Utf8Octets;
    PrintedSize(Sorted(Obj(fields)));
    SortedSize(Obj(fields));
  }

  lemma DescriptorBounds(lib: Library, v0: Json, v1: Json, v2: Json, v3: Json, v4: Json, v5: Json, v6: Json, v7: Json,
          v8: Json, v9: Json, v10: Json, d: EngineDescriptor)
    requires NewDescriptor(lib, v0, v1, v2, v3, v4, v5, v6, v7, v8, v9, v10) == Ok(d)
    ensures |d.scopeId| == 64 && |d.engineId| <= 64 && |d.processStartIdentity| <= 128
    ensures |d.endpointKind| <= 18 && |d.endpointName| <= 512 && |d.nonce| == 43 && |d.startedAt| <= 64
  {
  }

  lemma DescriptorEntrySizes(d: EngineDescriptor)
    requires |d.scopeId| == 64 && |d.engineId| <= 64 && |d.processStartIdentity| <= 128
    requires |d.endpointKind| <= 18 && |d.endpointName| <= 512 && |d.nonce| == 43 && |d.startedAt| <= 64
    requires IntFits(d.pid)
    ensures var f := DescriptorPayload(d);
      EntrySize(f[0]) <= 113 && EntrySize(f[1]) <= 143 && EntrySize(f[2]) <= 83 && EntrySize(f[3]) <= 438
      && EntrySize(f[4]) <= 444 && EntrySize(f[5]) <= 4323 && EntrySize(f[6]) <= 906 && EntrySize(f[7]) <= 192
      && EntrySize(f[8]) <= 3156 && EntrySize(f[9]) <= 294 && EntrySize(f[10]) <= 450
  {
    hide EntrySize, Lit, IntFits;
    SmallIntEntrySize(Field(KEY_DESCRIPTOR_VERSION, Int(1)));
    SmallIntEntrySize(Field(KEY_ENGINE_PROTOCOL_VERSION, Int(2)));
    SmallIntEntrySize(Field(KEY_RUNTIME_MAJOR, Int(0)));
    TextEntrySize(Field(KEY_SCOPE_ID, Text(d.scopeId)), 72);
    TextEntrySize(Field(KEY_ENGINE_ID, Text(d.engineId)), 73);
    IntEntrySize(Field(KEY_PID, Int(d.pid)));
    TextEntrySize(Field(KEY_PROCESS_START_IDENTITY, Text(d.processStartIdentity)), 150);
    TextEntrySize(Field(KEY_ENDPOINT_KIND, Text(d.endpointKind)), 31);
    TextEntrySize(Field(KEY_ENDPOINT_NAME, Text(d.endpointName)), 525);
    TextEntrySize(Field(KEY_NONCE, Text(d.nonce)), 48);
    TextEntrySize(Field(KEY_STARTED_AT, Text(d.startedAt)), 74);
  }

  /** An encoded descriptor is below the read limit, whatever its process identifier is. */
  lemma DescriptorFits(d: EngineDescriptor)
    requires |d.scopeId| == 64 && |d.engineId| <= 64 && |d.processStartIdentity| <= 128
    requires |d.endpointKind| <= 18 && |d.endpointName| <= 512 && |d.nonce| == 43 && |d.startedAt| <= 64
    requires DescriptorToBytes(d).Ok?
    ensures |DescriptorToBytes(d).value| <= MAX_DESCRIPTOR_BYTES
  {
    var f := DescriptorPayload(d);
    CanonicalSize(f, true);
    assert f[5].value == Int(d.pid) && Spellable(f[5].value);
    assert |f| == 11;
    hide CanonicalBytes, EntrySize, SizeFields, DescriptorPayload, Spellable, IntFits;
    DescriptorEntrySizes(d);
    DescriptorSum(f);
  }

  lemma DescriptorSum(f: seq<Field>)
    requires |f| == 11
    ensures SizeFields(f) == EntrySize(f[0]) + EntrySize(f[1]) + EntrySize(f[2]) + EntrySize(f[3]) + EntrySize(f[4])
      + EntrySize(f[5]) + EntrySize(f[6]) + EntrySize(f[7]) + EntrySize(f[8]) + EntrySize(f[9]) + EntrySize(f[10])
  {
    hide EntrySize, SizeFields;
    assert f == f[0..];
    SizeStep(f, 0); SizeStep(f, 1); SizeStep(f, 2); SizeStep(f, 3); SizeStep(f, 4);
    LastSum(f);
  }

  lemma LastSum(f: seq<Field>)
    requires |f| == 11
    ensures SizeFields(f[5..])
      == EntrySize(f[5]) + EntrySize(f[6]) + EntrySize(f[7]) + EntrySize(f[8]) + EntrySize(f[9]) + EntrySize(f[10])
  {
    assert SizeFields(f[11..]) == 0;
    hide EntrySize, SizeFields;
    SizeStep(f, 5); SizeStep(f, 6); SizeStep(f, 7); SizeStep(f, 8); SizeStep(f, 9); SizeStep(f, 10);
  }

  /** A dictionary of scalars is received with the same values. */
  lemma ReceivedScalars(f: seq<Field>)
    requires DistinctKeys(f) && forall i | 0 <= i < |f| :: !f[i].value.Arr? && !f[i].value.Obj?
    ensures UniqueKeys(Obj(f))
    ensures KeySet(Received(f)) == KeySet(f)
    ensures forall k | k in KeySet(f) :: Get(Received(f), k) == Get(f, k)
  {
    hide Received;
    ReceivedLookup(f);
    forall k | k in KeySet(f) ensures Sorted(Get(f, k)) == Get(f, k) {
      var i :| 0 <= i < |f| && f[i].key == k && f[i].value == Get(f, k);
    }
  }

  lemma DescriptorLookupsDecide(lib: Library, f: seq<Field>, g: seq<Field>)
    requires KeySet(f) == KeySet(g)
    requires forall k | k in KeySet(f) :: Get(f, k) == Get(g, k)
    ensures DescriptorFromFields(lib, f) == DescriptorFromFields(lib, g)
  {
    hide NewDescriptor, Get, KeySet, Lit;
  }

  /**
   Whatever the library predicates are: every descriptor the constructor returns, once encoded,
   fits the size that readers accept and decodes to itself.
   */
  lemma DescriptorRoundTrip(lib: Library, v0: Json, v1: Json, v2: Json, v3: Json, v4: Json, v5: Json, v6: Json,
          v7: Json, v8: Json, v9: Json, v10: Json, d: EngineDescriptor)
    requires NewDescriptor(lib, v0, v1, v2, v3, v4, v5, v6, v7, v8, v9, v10) == Ok(d)
    requires DescriptorToBytes(d).Ok?
    ensures |DescriptorToBytes(d).value| <= MAX_DESCRIPTOR_BYTES
    ensures DescriptorFromBytes(lib, DescriptorToBytes(d).value) == Ok(d)
  {
    var f := DescriptorPayload(d);
    hide NewDescriptor, CanonicalBytes, DecodeJson, Received, DescriptorPayload, KeySet, Get, DescriptorFromFields;
    DescriptorPayloadAccepted(lib, v0, v1, v2, v3, v4, v5, v6, v7, v8, v9, v10, d);
    DescriptorEntries(d);
    ReceivedScalars(f);
    DescriptorBounds(lib, v0, v1, v2, v3, v4, v5, v6, v7, v8, v9, v10, d);
    DescriptorFits(d);
    DecodeCanonical(f, true, MAX_DESCRIPTOR_BYTES);
    DescriptorLookupsDecide(lib, Received(f), f);
  }
}
