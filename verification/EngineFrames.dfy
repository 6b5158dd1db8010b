/** Request and response frames. */
module EngineFrames {
  // When encoding succeeds, that its size checks never fire for a request, and that decoding returns
  // what was encoded.

  import opened Text
  import opened Json
  import opened Dictionary
  import opened JsonCanonical
  import opened JsonSize
  import opened JsonEncodable
  import opened EngineContracts
  import opened EngineWire

  /** Encoding a dictionary fails only on a surrogate or on a value without a spelling. */
  lemma CanonicalExactly(fields: seq<Field>, newline: bool)
    requires UniqueKeys(Obj(fields))
    ensures CanonicalBytes(fields, newline).Ok? <==> Spellable(Obj(fields)) && Encodes(Obj(fields))
  {
    hide Print, Sorted;
    if Spellable(Obj(fields)) { DumpEncodable(Obj(fields)); }
  }

  /** A text of ASCII characters can be encoded. */
  lemma AsciiEncodable(s: Str)
    requires forall i | 0 <= i < |s| :: s[i] < 0x80
    ensures Encodable(s)
  {
  }

  // ---------------------------------------------------------------- descriptor

  /** A constructed descriptor can be written exactly when these hold of its fields. */
  lemma DescriptorEncodesExactly(d: EngineDescriptor)
    ensures DescriptorToBytes(d).Ok?
      <==> IntFits(d.pid) && Encodable(d.scopeId) && Encodable(d.engineId) && Encodable(d.processStartIdentity)
           && Encodable(d.endpointKind) && Encodable(d.endpointName) && Encodable(d.nonce) && Encodable(d.startedAt)
  {
    var f := DescriptorPayload(d);
    DescriptorEntries(d);
    ReceivedScalars(f);
    CanonicalExactly(f, true);
    DescriptorKeysEncodable(d);
    SmallIntsFit();
    hide CanonicalBytes, IntFits, Lit, Encodable, UniqueKeys, DistinctKeys, KeySet;
    DescriptorParts(d);
  }

  lemma DescriptorKeysEncodable(d: EngineDescriptor)
    ensures forall i | 0 <= i < 11 :: Encodable(DescriptorPayload(d)[i].key)
  {
    VersionKeysEncodable();
    NameKeysEncodable();
    hide Encodable, Lit;
  }

  lemma VersionKeysEncodable()
    ensures Encodable(KEY_DESCRIPTOR_VERSION) && Encodable(KEY_ENGINE_PROTOCOL_VERSION) && Encodable(KEY_RUNTIME_MAJOR)
    ensures Encodable(KEY_SCOPE_ID) && Encodable(KEY_ENGINE_ID) && Encodable(KEY_PID)
  {
  }

  lemma NameKeysEncodable()
    ensures Encodable(KEY_PROCESS_START_IDENTITY) && Encodable(KEY_ENDPOINT_KIND) && Encodable(KEY_ENDPOINT_NAME)
    ensures Encodable(KEY_NONCE) && Encodable(KEY_STARTED_AT)
  {
  }

  lemma DescriptorParts(d: EngineDescriptor)
    requires IntFits(0) && IntFits(1) && IntFits(2)
    requires forall i | 0 <= i < 11 :: Encodable(DescriptorPayload(d)[i].key)
    ensures Spellable(Obj(DescriptorPayload(d))) <==> IntFits(d.pid)
    ensures Encodes(Obj(DescriptorPayload(d)))
      <==> Encodable(d.scopeId) && Encodable(d.engineId) && Encodable(d.processStartIdentity)
           && Encodable(d.endpointKind) && Encodable(d.endpointName) && Encodable(d.nonce) && Encodable(d.startedAt)
  {
    DescriptorSpells(d);
    hide IntFits, Lit, Encodable, Spellable;
    var f := DescriptorPayload(d);
    if Encodes(Obj(f)) {
      assert Encodes(f[3].value) && Encodes(f[4].value) && Encodes(f[6].value) && Encodes(f[7].value);
      assert Encodes(f[8].value) && Encodes(f[9].value) && Encodes(f[10].value);
    }
  }

  lemma DescriptorSpells(d: EngineDescriptor)
    requires IntFits(0) && IntFits(1) && IntFits(2)
    ensures Spellable(Obj(DescriptorPayload(d))) <==> IntFits(d.pid)
  {
    hide IntFits, Lit;
    var f := DescriptorPayload(d);
    if Spellable(Obj(f)) { assert Spellable(f[5].value); }
  }

  lemma SmallIntsFit()
    ensures IntFits(0) && IntFits(1) && IntFits(2)
  {
  }

  // ---------------------------------------------------------------- job reference

  lemma ReferenceEntries(r: JobReference)
    ensures var f := ReferencePayload(r);
      DistinctKeys(f) && KeySet(f) == ReferenceKeys() && |f| == 2
      && Get(f, KEY_WORKSPACE_INSTANCE_ID) == Text(r.workspaceInstanceId) && Get(f, KEY_JOB_ID) == Text(r.jobId)
  {
    var f := ReferencePayload(r);
    assert |f[0].key| == 21 && |f[1].key| == 6;
    GetAt(f, 0);
    GetAt(f, 1);
  }

  /** The received form of a reference holds the same two values. */
  lemma ReferenceReceived(r: JobReference)
    ensures var g := Received(ReferencePayload(r));
      KeySet(g) == ReferenceKeys()
      && Get(g, KEY_WORKSPACE_INSTANCE_ID) == Text(r.workspaceInstanceId) && Get(g, KEY_JOB_ID) == Text(r.jobId)
  {
    hide Get, KeySet, Received;
    ReferenceEntries(r);
    ReceivedScalars(ReferencePayload(r));
  }

  /** What a constructed reference is made of. */
  lemma ReferenceFacts(w: Json, j: Json, r: JobReference)
    requires NewReference(w, j) == Ok(r)
    ensures NewReference(Text(r.workspaceInstanceId), Text(r.jobId)) == Ok(r)
    ensures |r.workspaceInstanceId| == 32 && |r.jobId| == 40
    ensures Encodable(r.workspaceInstanceId) && Encodable(r.jobId)
  {
    AsciiEncodable(r.workspaceInstanceId);
    forall i | 0 <= i < 40 ensures r.jobId[i] < 0x80 {
      if i < 4 { assert r.jobId[i] == Lit("job_")[i]; } else { assert r.jobId[i] == r.jobId[4..][i - 4]; }
    }
    AsciiEncodable(r.jobId);
  }

  // ---------------------------------------------------------------- requests

  lemma MethodRead(m: Method)
    ensures MethodNamed(MethodName(m)) == Some(m) && |MethodName(m)| <= 10 && Encodable(MethodName(m))
  {
  }

  lemma RequestEntries(r: EngineRequest)
    ensures var f := RequestPayload(r);
      DistinctKeys(f) && KeySet(f) == RequestKeys() && |f| == 5
      && Get(f, KEY_ENGINE_PROTOCOL_VERSION) == Int(2) && Get(f, KEY_REQUEST_ID) == Text(r.requestId)
      && Get(f, KEY_METHOD) == Text(MethodName(r.verb)) && Get(f, KEY_NONCE) == Text(r.nonce)
      && Get(f, KEY_PARAMS) == Obj(RequestParams(r))
  {
    var f := RequestPayload(r);
    assert KEY_METHOD[0] != KEY_PARAMS[0];
    assert |f[0].key| == 23 && |f[1].key| == 10 && |f[2].key| == 6 && |f[3].key| == 5 && |f[4].key| == 6;
    hide Get, KeySet, Lit;
    GetAt(f, 0); GetAt(f, 1); GetAt(f, 2); GetAt(f, 3); GetAt(f, 4);
    RequestKeysAre(f);
  }

  lemma RequestKeysAre(f: seq<Field>)
    requires |f| == 5 && f[0].key == KEY_ENGINE_PROTOCOL_VERSION && f[1].key == KEY_REQUEST_ID
    requires f[2].key == KEY_METHOD && f[3].key == KEY_NONCE && f[4].key == KEY_PARAMS
    ensures KeySet(f) == RequestKeys()
  {
    hide Lit;
  }

  /** A constructed request, handed its own fields, is constructed again, parameters received or not. */
  lemma RequestConstructedAgain(v: Json, id: Json, verb: Json, nonce: Json, params: Json, r: EngineRequest,
          p: seq<Field>)
    requires NewRequest(v, id, verb, nonce, params) == Ok(r)
    requires p == RequestParams(r) || p == Received(RequestParams(r))
    ensures NewRequest(Int(2), Text(r.requestId), Text(MethodName(r.verb)), Text(r.nonce), Obj(p)) == Ok(r)
  {
    MethodRead(r.verb);
    hide IsNonceText, Base64Decode, KeySet, Get, Lit, MethodName, MethodNamed, NewReference, ReferencePayload;
    if r.reference.Some? {
      var ref := r.reference.value;
      ReferenceFacts(Get(params.fields, KEY_WORKSPACE_INSTANCE_ID), Get(params.fields, KEY_JOB_ID), ref);
      ReferenceEntries(ref);
      ReferenceReceived(ref);
    }
  }

  lemma RequestFacts(v: Json, id: Json, verb: Json, nonce: Json, params: Json, r: EngineRequest)
    requires NewRequest(v, id, verb, nonce, params) == Ok(r)
    ensures |r.requestId| <= 128 && |r.nonce| == 43 && Encodable(r.nonce) && id == Text(r.requestId)
    ensures r.reference.Some? ==>
      |r.reference.value.workspaceInstanceId| == 32 && |r.reference.value.jobId| == 40
      && Encodable(r.reference.value.workspaceInstanceId) && Encodable(r.reference.value.jobId)
  {
    hide Base64Decode, KeySet, Get, Lit, MethodName, MethodNamed, NewReference;
    AsciiEncodable(r.nonce);
    if r.reference.Some? {
      ReferenceFacts(Get(params.fields, KEY_WORKSPACE_INSTANCE_ID), Get(params.fields, KEY_JOB_ID), r.reference.value);
    }
  }

  lemma ParamsUnique(r: EngineRequest)
    ensures UniqueKeys(Obj(RequestParams(r)))
  {
    NoKeys();
    if r.reference.Some? {
      hide Lit, DistinctKeys;
      ReferenceEntries(r.reference.value);
    }
  }

  /** Distinct keys, and nothing but unique values. */
  lemma UniqueObject(f: seq<Field>)
    requires DistinctKeys(f) && forall i | 0 <= i < |f| :: UniqueKeys(f[i].value)
    ensures UniqueKeys(Obj(f))
  {
    hide DistinctKeys;
  }

  lemma RequestUnique(r: EngineRequest)
    ensures UniqueKeys(Obj(RequestPayload(r)))
  {
    RequestEntries(r);
    ParamsUnique(r);
    hide DistinctKeys, Lit, Get, KeySet, RequestParams, MethodName;
    UniqueObject(RequestPayload(r));
  }

  lemma NoKeys()
    ensures DistinctKeys([])
  {
  }

  lemma ReferenceEncodes(r: JobReference)
    ensures Spellable(Obj(ReferencePayload(r)))
    ensures Encodes(Obj(ReferencePayload(r))) <==> Encodable(r.workspaceInstanceId) && Encodable(r.jobId)
  {
    AsciiEncodable(KEY_WORKSPACE_INSTANCE_ID);
    AsciiEncodable(KEY_JOB_ID);
    hide Encodable, Lit;
    var f := ReferencePayload(r);
    if Encodes(Obj(f)) { assert Encodes(f[0].value) && Encodes(f[1].value); }
  }

  /** The parameters: nothing, or a reference. */
  lemma ParamsEncode(r: EngineRequest)
    requires r.reference.Some?
      ==> Encodable(r.reference.value.workspaceInstanceId) && Encodable(r.reference.value.jobId)
    ensures Spellable(Obj(RequestParams(r))) && Encodes(Obj(RequestParams(r)))
  {
    match r.reference
    case None =>
    case Some(reference) =>
      ReferenceEncodes(reference);
      hide Encodable, Spellable, Encodes, ReferencePayload;
  }

  lemma RequestKeysEncodable(r: EngineRequest)
    ensures forall i | 0 <= i < 5 :: Encodable(RequestPayload(r)[i].key)
  {
    AsciiEncodable(KEY_ENGINE_PROTOCOL_VERSION);
    AsciiEncodable(KEY_REQUEST_ID);
    AsciiEncodable(KEY_METHOD);
    AsciiEncodable(KEY_NONCE);
    AsciiEncodable(KEY_PARAMS);
    hide Encodable, Lit, RequestParams, MethodName;
  }

  lemma RequestEncodes(r: EngineRequest)
    requires Encodable(r.nonce)
    requires r.reference.Some?
      ==> Encodable(r.reference.value.workspaceInstanceId) && Encodable(r.reference.value.jobId)
    ensures Spellable(Obj(RequestPayload(r)))
    ensures Encodes(Obj(RequestPayload(r))) <==> Encodable(r.requestId)
  {
    SmallIntsFit();
    MethodRead(r.verb);
    ParamsEncode(r);
    RequestKeysEncodable(r);
    hide IntFits, Encodable, Lit, MethodName, RequestParams;
    RequestParts(r, Obj(RequestParams(r)));
  }

  lemma RequestParts(r: EngineRequest, p: Json)
    requires IntFits(ENGINE_PROTOCOL_VERSION) && Encodable(r.nonce) && Encodable(MethodName(r.verb))
    requires p == Obj(RequestParams(r)) && Spellable(p) && Encodes(p)
    requires forall i | 0 <= i < 5 :: Encodable(RequestPayload(r)[i].key)
    ensures Spellable(Obj(RequestPayload(r)))
    ensures Encodes(Obj(RequestPayload(r))) <==> Encodable(r.requestId)
  {
    hide IntFits, Encodable, Lit, MethodName, RequestParams;
    var f := RequestPayload(r);
    if Encodes(Obj(f)) { assert Encodes(f[1].value); }
  }

  lemma ReferenceSize(r: JobReference)
    requires |r.workspaceInstanceId| == 32 && |r.jobId| == 40
    ensures Size(Obj(ReferencePayload(r))) <= 610
  {
    var f := ReferencePayload(r);
    hide EntrySize, Lit;
    TextEntrySize(f[0], 53);
    TextEntrySize(f[1], 46);
    assert f == f[0..];
    SizeStep(f, 0);
    SizeStep(f, 1);
    assert f[2..] == [];
  }

  lemma ParamsEntrySize(f: Field)
    requires f.key == KEY_PARAMS
    ensures EntrySize(f) <= 40 + Size(f.value)
  {
    TextSize(f.key);
  }

  lemma ParamsSize(r: EngineRequest)
    requires r.reference.Some? ==> |r.reference.value.workspaceInstanceId| == 32 && |r.reference.value.jobId| == 40
    ensures Size(Obj(RequestParams(r))) <= 610
  {
    assert Size(Obj([])) == 2;
    if r.reference.Some? {
      ReferenceSize(r.reference.value);
    } else {
      assert RequestParams(r) == [];
    }
  }

  lemma RequestEntrySizes(r: EngineRequest)
    requires |r.requestId| <= 128 && |r.nonce| == 43
    requires r.reference.Some? ==> |r.reference.value.workspaceInstanceId| == 32 && |r.reference.value.jobId| == 40
    ensures var f := RequestPayload(r);
      EntrySize(f[0]) <= 143 && EntrySize(f[1]) <= 834 && EntrySize(f[2]) <= 102 && EntrySize(f[3]) <= 294
      && EntrySize(f[4]) <= 650
  {
    hide EntrySize, Lit, Size, MethodName;
    MethodRead(r.verb);
    ParamsSize(r);
    SmallIntEntrySize(Field(KEY_ENGINE_PROTOCOL_VERSION, Int(2)));
    TextEntrySize(Field(KEY_REQUEST_ID, Text(r.requestId)), 138);
    TextEntrySize(Field(KEY_METHOD, Text(MethodName(r.verb))), 16);
    TextEntrySize(Field(KEY_NONCE, Text(r.nonce)), 48);
    ParamsEntrySize(Field(KEY_PARAMS, Obj(RequestParams(r))));
  }

  lemma RequestSum(f: seq<Field>)
    requires |f| == 5
    ensures SizeFields(f) == EntrySize(f[0]) + EntrySize(f[1]) + EntrySize(f[2]) + EntrySize(f[3]) + EntrySize(f[4])
  {
    assert f == f[0..];
    SizeStep(f, 0); SizeStep(f, 1); SizeStep(f, 2); SizeStep(f, 3); SizeStep(f, 4);
    assert f[5..] == [];
  }

  /** Every encoded request is far below both size limits: those checks cannot fire. */
  lemma RequestFits(r: EngineRequest)
    requires |r.requestId| <= 128 && |r.nonce| == 43
    requires r.reference.Some? ==> |r.reference.value.workspaceInstanceId| == 32 && |r.reference.value.jobId| == 40
    requires CanonicalBytes(RequestPayload(r), false).Ok?
    ensures |CanonicalBytes(RequestPayload(r), false).value| <= 2048
  {
    var f := RequestPayload(r);
    assert |f| == 5;
    hide *;
    FrameSize(f, 2023);
    RequestEntrySizes(r);
    RequestSum(f);
  }

  lemma FrameSize(f: seq<Field>, total: nat)
    requires CanonicalBytes(f, false).Ok?
    ensures SizeFields(f) <= total ==> |CanonicalBytes(f, false).value| <= total + 2
  {
    hide CanonicalBytes, SizeFields;
    CanonicalSize(f, false);
  }

  lemma RequestLookupsDecide(f: seq<Field>, r: EngineRequest, p: seq<Field>)
    requires KeySet(f) == RequestKeys()
    requires Get(f, KEY_ENGINE_PROTOCOL_VERSION) == Int(2) && Get(f, KEY_REQUEST_ID) == Text(r.requestId)
    requires Get(f, KEY_METHOD) == Text(MethodName(r.verb)) && Get(f, KEY_NONCE) == Text(r.nonce)
    requires Get(f, KEY_PARAMS) == Obj(p)
    ensures RequestFromFields(f)
      == NewRequest(Int(2), Text(r.requestId), Text(MethodName(r.verb)), Text(r.nonce), Obj(p))
  {
    hide NewRequest, Get, KeySet, Lit, MethodName;
  }

  lemma RequestReceived(r: EngineRequest)
    ensures var g := Received(RequestPayload(r));
      KeySet(g) == RequestKeys()
      && Get(g, KEY_ENGINE_PROTOCOL_VERSION) == Int(2) && Get(g, KEY_REQUEST_ID) == Text(r.requestId)
      && Get(g, KEY_METHOD) == Text(MethodName(r.verb)) && Get(g, KEY_NONCE) == Text(r.nonce)
      && Get(g, KEY_PARAMS) == Obj(Received(RequestParams(r)))
  {
    RequestEntries(r);
    ReceivedLookup(RequestPayload(r));
    hide Get, KeySet, Lit, MethodName, RequestPayload, SortFields, SortedValues, DistinctKeys;
  }

  /**
   The request frame, completely: encoding succeeds exactly when the request is valid and its
   identifier has no surrogate; the frame is then within every limit, and decoding it returns
   the request that was built.
   */
  lemma RequestRoundTrip(requestId: Str, verb: Str, nonce: Str, params: seq<Field>)
    ensures var built :=
      NewRequest(Int(ENGINE_PROTOCOL_VERSION), Text(requestId), Text(verb), Text(nonce), Obj(params));
      var frame := EncodeRequest(requestId, verb, nonce, params);
      && (frame.Ok? <==> built.Ok? && Encodable(requestId))
      && (frame.Ok? ==> |frame.value| <= 2048 && DecodeRequest(frame.value) == built)
  {
    hide NewRequest, RequestPayload, CanonicalBytes, DecodeJson, Received, Get, KeySet, Encodable, RequestParams,
      RequestFromFields;
    var built := NewRequest(Int(ENGINE_PROTOCOL_VERSION), Text(requestId), Text(verb), Text(nonce), Obj(params));
    if built.Ok? {
      var r := built.value;
      RequestFacts(Int(2), Text(requestId), Text(verb), Text(nonce), Obj(params), r);
      RequestConstructedAgain(Int(2), Text(requestId), Text(verb), Text(nonce), Obj(params), r,
        Received(RequestParams(r)));
      RequestUnique(r);
      CanonicalExactly(RequestPayload(r), false);
      RequestEncodes(r);
      if Encodable(requestId) {
        RequestFits(r);
        DecodeCanonical(RequestPayload(r), false, MAX_FRAME_BYTES);
        RequestReceived(r);
        RequestLookupsDecide(Received(RequestPayload(r)), r, Received(RequestParams(r)));
      }
    }
  }

  // ---------------------------------------------------------------- responses

  function OptionalObject(fields: Option<seq<Field>>): Json {
    if fields.Some? then Obj(fields.value) else Null
  }

  lemma ResponseEntries(id: Str, data: Option<seq<Field>>, error: Option<seq<Field>>)
    ensures var f := ResponsePayload(id, data, error);
      DistinctKeys(f) && KeySet(f) == ResponseKeys() && |f| == 5
      && Get(f, KEY_ENGINE_PROTOCOL_VERSION) == Int(2) && Get(f, KEY_REQUEST_ID) == Text(id)
      && Get(f, KEY_OK) == Bool(error.None?) && Get(f, KEY_DATA) == OptionalObject(data)
      && Get(f, KEY_ERROR) == OptionalObject(error)
  {
    var f := ResponsePayload(id, data, error);
    assert |f[0].key| == 23 && |f[1].key| == 10 && |f[2].key| == 2 && |f[3].key| == 4 && |f[4].key| == 5;
    hide Get, KeySet, Lit;
    GetAt(f, 0); GetAt(f, 1); GetAt(f, 2); GetAt(f, 3); GetAt(f, 4);
    ResponseKeysAre(f);
  }

  lemma ResponseKeysAre(f: seq<Field>)
    requires |f| == 5 && f[0].key == KEY_ENGINE_PROTOCOL_VERSION && f[1].key == KEY_REQUEST_ID
    requires f[2].key == KEY_OK && f[3].key == KEY_DATA && f[4].key == KEY_ERROR
    ensures KeySet(f) == ResponseKeys()
  {
    hide Lit;
  }

  lemma ResponseUnique(id: Str, data: Option<seq<Field>>, error: Option<seq<Field>>)
    requires UniqueKeys(OptionalObject(data)) && UniqueKeys(OptionalObject(error))
    ensures UniqueKeys(Obj(ResponsePayload(id, data, error)))
  {
    ResponseEntries(id, data, error);
    hide DistinctKeys, Lit, Get, KeySet, OptionalObject;
    UniqueObject(ResponsePayload(id, data, error));
  }

  lemma ResponseReceived(id: Str, data: Option<seq<Field>>, error: Option<seq<Field>>)
    ensures var g := Received(ResponsePayload(id, data, error));
      KeySet(g) == ResponseKeys()
      && Get(g, KEY_ENGINE_PROTOCOL_VERSION) == Int(2) && Get(g, KEY_REQUEST_ID) == Text(id)
      && Get(g, KEY_OK) == Bool(error.None?) && Get(g, KEY_DATA) == Sorted(OptionalObject(data))
      && Get(g, KEY_ERROR) == Sorted(OptionalObject(error))
  {
    ResponseEntries(id, data, error);
    ReceivedLookup(ResponsePayload(id, data, error));
    hide Get, KeySet, Lit, ResponsePayload, SortFields, SortedValues, DistinctKeys;
  }

  /** A received error object still holds exactly its code. */
  lemma ErrorReceived(e: seq<Field>)
    requires UniqueKeys(Obj(e)) && KeySet(e) == {KEY_CODE} && Get(e, KEY_CODE).Text?
    ensures KeySet(Received(e)) == {KEY_CODE} && Get(Received(e), KEY_CODE) == Get(e, KEY_CODE)
  {
    hide Get, KeySet, Received;
    ReceivedLookup(e);
  }

  /**
   The response frame: whatever dictionary is sent as data, or as error, comes back as the same
   dictionary under the same request identifier, and no other request accepts the frame.
   */
  lemma ResponseRoundTrip(id: Str, data: Option<seq<Field>>, error: Option<seq<Field>>, other: Str)
    requires UniqueKeys(OptionalObject(data)) && UniqueKeys(OptionalObject(error))
    requires EncodeResponse(id, data, error).Ok?
    ensures var frame := EncodeResponse(id, data, error).value;
      DecodeResponse(frame, id).Ok?
      && var g := DecodeResponse(frame, id).value;
      && KeySet(g) == ResponseKeys()
      && Get(g, KEY_OK) == Bool(error.None?)
      && SameValue(OptionalObject(data), Get(g, KEY_DATA))
      && SameValue(OptionalObject(error), Get(g, KEY_ERROR))
    ensures other != id ==> DecodeResponse(EncodeResponse(id, data, error).value, other) == Err(Invalid)
  {
    var f := ResponsePayload(id, data, error);
    ResponseReceived(id, data, error);
    ResponseUnique(id, data, error);
    DecodeCanonical(f, false, MAX_FRAME_BYTES);
    SortedKeeps(OptionalObject(data));
    SortedKeeps(OptionalObject(error));
    if error.Some? { ErrorReceived(error.value); }
    hide DecodeJson, CanonicalBytes, Get, KeySet, Lit, SameValue, ResponsePayload, SortFields, SortedValues, UniqueKeys;
  }
}
