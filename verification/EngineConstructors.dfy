/** Which descriptors, requests and launches the validating constructors build. */
module EngineConstructors {
  // (backend/app/engine/contracts.py) Each constructor succeeds exactly for the values written out here, and each
  // refusal of a request has its cause.

  import opened Text
  import opened Json
  import opened JsonCanonical
  import opened JsonTexts
  import opened JsonGrammar
  import opened JsonDecides
  import opened Dictionary
  import opened EngineContracts
  import opened EngineNonce
  import opened EngineLaunch

  // ---------------------------------------------------------------- the parts

  /** That many digits of `0123456789abcdef`. */
  predicate SmallHex(s: Str, n: nat) {
    |s| == n && forall i | 0 <= i < |s| :: s[i] in LOWER_HEX
  }

  /** 43 characters of `A-Za-z0-9_-`. */
  predicate NonceText(s: Str) {
    |s| == 43
    && forall i | 0 <= i < 43 :: 48 <= s[i] <= 57 || 65 <= s[i] <= 90 || 97 <= s[i] <= 122 || s[i] in {45, 95}
  }

  /** Eight, four, four, four and twelve small digits with hyphens between; version 7 and the RFC 9562 variant. */
  ghost predicate Uuid7(s: Str) {
    exists a, b, c, d, e :: Uuid7Parts(s, a, b, c, d, e)
  }

  predicate Uuid7Parts(s: Str, a: Str, b: Str, c: Str, d: Str, e: Str) {
    && SmallHex(a, 8) && SmallHex(b, 4) && SmallHex(c, 4) && SmallHex(d, 4) && SmallHex(e, 12)
    && c[0] == 55 && d[0] in {56, 57, 97, 98} && s == a + ([45] + (b + ([45] + (c + ([45] + (d + ([45] + e)))))))
  }

  ghost predicate JobIdText(s: Str) {
    exists u :: Uuid7(u) && s == Lit("job_") + u
  }

  predicate Bounded(s: Str, maximum: nat) {
    1 <= |s| <= maximum
  }

  lemma SmallHexExactly(s: Str, n: nat)
    ensures IsHexText(s, n) <==> SmallHex(s, n)
  {
  }

  lemma NonceTextExactly(s: Str)
    ensures IsNonceText(s) <==> NonceText(s)
  {
  }

  lemma NonceIs(v: Json, s: Str)
    ensures Nonce(v) == Ok(s) <==> v == Text(s) && NonceText(s)
  {
    NonceTextExactly(s);
    hide NonceText, Base64Decode;
    if v.Text? && IsNonceText(v.s) {
      NonceTextExactly(v.s);
      NonceExactly(v);
    }
  }

  lemma HexAt(s: Str, i: nat, n: nat)
    requires i + n <= |s|
    ensures SmallHex(s[i..i + n], n) <==> forall k | i <= k < i + n :: IsLowerHex(s[k])
  {
    var part := s[i..i + n];
    forall k | 0 <= k < n ensures IsLowerHex(s[i + k]) <==> part[k] in LOWER_HEX { assert part[k] == s[i + k]; }
    if SmallHex(part, n) {
      forall k | i <= k < i + n ensures IsLowerHex(s[k]) { assert part[k - i] == s[k]; }
    }
  }

  lemma UuidCut(s: Str)
    requires |s| == 36
    ensures s == s[..8] + ([s[8]] + (s[9..13] + ([s[13]]
      + (s[14..18] + ([s[18]] + (s[19..23] + ([s[23]] + s[24..])))))))
  {
  }

  lemma UuidPartsAt(s: Str, a: Str, b: Str, c: Str, d: Str, e: Str)
    requires |a| == 8 && |b| == |c| == |d| == 4 && |e| == 12
    requires s == a + ([45] + (b + ([45] + (c + ([45] + (d + ([45] + e)))))))
    ensures |s| == 36 && s[8] == s[13] == s[18] == s[23] == 45
    ensures s[0..8] == a && s[9..13] == b && s[14..18] == c && s[19..23] == d && s[24..36] == e
  {
  }

  /** The pattern of a UUID text, group by group. */
  lemma Uuid7Exactly(s: Str)
    ensures IsUuid7Text(s) <==> Uuid7(s)
  {
    hide SmallHex, IsLowerHex;
    if |s| == 36 {
      HexAt(s, 0, 8);
      HexAt(s, 9, 4);
      HexAt(s, 14, 4);
      HexAt(s, 19, 4);
      HexAt(s, 24, 12);
    }
    if IsUuid7Text(s) {
      UuidCut(s);
      assert s[..8] == s[0..8] && s[24..] == s[24..36] && s[14..18][0] == s[14] && s[19..23][0] == s[19];
      assert SmallHex(s[14..18], 4) && SmallHex(s[19..23], 4);
      SmallHexLong(s[14..18], 4);
      SmallHexLong(s[19..23], 4);
      assert Uuid7Parts(s, s[..8], s[9..13], s[14..18], s[19..23], s[24..]);
    }
    if a, b, c, d, e :| Uuid7Parts(s, a, b, c, d, e) {
      SmallHexLong(a, 8);
      SmallHexLong(b, 4);
      SmallHexLong(c, 4);
      SmallHexLong(d, 4);
      SmallHexLong(e, 12);
      UuidPartsAt(s, a, b, c, d, e);
      assert s[14] == s[14..18][0] && s[19] == s[19..23][0];
    }
  }

  lemma SmallHexLong(s: Str, n: nat)
    ensures SmallHex(s, n) ==> |s| == n
  {
  }

  lemma JobIdExactly(s: Str)
    ensures IsJobId(s) <==> JobIdText(s)
  {
    hide IsUuid7Text, Uuid7;
    if IsJobId(s) {
      Uuid7Exactly(s[4..]);
      assert s == Lit("job_") + s[4..];
    }
    if u :| Uuid7(u) && s == Lit("job_") + u {
      Uuid7Exactly(u);
      UuidLong(u);
      assert s[4..] == u && s[..4] == Lit("job_");
    }
  }

  lemma UuidLong(s: Str)
    ensures IsUuid7Text(s) ==> |s| == 36
  {
  }

  // ---------------------------------------------------------------- descriptors

  predicate ValidDescriptor(lib: Library, d: EngineDescriptor) {
    && SmallHex(d.scopeId, 64) && Bounded(d.engineId, 64) && lib.uuid(d.engineId) && d.pid >= 1
    && Bounded(d.processStartIdentity, 128)
    && d.endpointKind in {Lit("windows-named-pipe"), Lit("unix-domain-socket")}
    && Bounded(d.endpointName, 512) && NonceText(d.nonce) && Bounded(d.startedAt, 64) && lib.zonedTime(d.startedAt)
  }

  lemma BoundedIs(v: Json, maximum: nat)
    ensures BoundedText(v, maximum) == if v.Text? && Bounded(v.s, maximum) then Ok(v.s) else Err(Invalid)
  {
  }

  lemma NonceGives(v: Json)
    ensures Nonce(v) == if v.Text? && NonceText(v.s) then Ok(v.s) else Err(Invalid)
  {
    NonceExactly(v);
    if v.Text? { NonceTextExactly(v.s); }
  }

  lemma DescriptorBuilt(lib: Library, v: Json, protocol: Json, major: Json, scopeId: Json, engineId: Json, pid: Json,
          start: Json, kind: Json, name: Json, nonce: Json, startedAt: Json, d: EngineDescriptor)
    requires NewDescriptor(lib, v, protocol, major, scopeId, engineId, pid, start, kind, name, nonce, startedAt)
      == Ok(d)
    ensures && ValidDescriptor(lib, d) && v == Int(1) && protocol == Int(2) && major == Int(0)
      && scopeId == Text(d.scopeId) && engineId == Text(d.engineId) && pid == Int(d.pid)
      && start == Text(d.processStartIdentity) && kind == Text(d.endpointKind) && name == Text(d.endpointName)
      && nonce == Text(d.nonce) && startedAt == Text(d.startedAt)
  {
    if scopeId.Text? { SmallHexExactly(scopeId.s, 64); }
    BoundedIs(engineId, 64);
    BoundedIs(start, 128);
    BoundedIs(name, 512);
    NonceGives(nonce);
    BoundedIs(startedAt, 64);
    hide SmallHex, IsHexText, NonceText, Nonce, Lit, Bounded, BoundedText;
  }

  lemma DescriptorBuilds(lib: Library, v: Json, protocol: Json, major: Json, scopeId: Json, engineId: Json, pid: Json,
          start: Json, kind: Json, name: Json, nonce: Json, startedAt: Json, d: EngineDescriptor)
    requires && ValidDescriptor(lib, d) && v == Int(1) && protocol == Int(2) && major == Int(0)
      && scopeId == Text(d.scopeId) && engineId == Text(d.engineId) && pid == Int(d.pid)
      && start == Text(d.processStartIdentity) && kind == Text(d.endpointKind) && name == Text(d.endpointName)
      && nonce == Text(d.nonce) && startedAt == Text(d.startedAt)
    ensures NewDescriptor(lib, v, protocol, major, scopeId, engineId, pid, start, kind, name, nonce, startedAt) == Ok(d)
  {
    SmallHexExactly(d.scopeId, 64);
    BoundedIs(engineId, 64);
    BoundedIs(start, 128);
    BoundedIs(name, 512);
    NonceGives(nonce);
    BoundedIs(startedAt, 64);
    hide SmallHex, IsHexText, NonceText, Nonce, Lit, Bounded, BoundedText;
  }

  /** A descriptor is built from its own fields and the three versions, exactly if it is valid. */
  lemma DescriptorExactly(lib: Library, v: Json, protocol: Json, major: Json, scopeId: Json, engineId: Json, pid: Json,
          start: Json, kind: Json, name: Json, nonce: Json, startedAt: Json, d: EngineDescriptor)
    ensures NewDescriptor(lib, v, protocol, major, scopeId, engineId, pid, start, kind, name, nonce, startedAt) == Ok(d)
      <==> && ValidDescriptor(lib, d) && v == Int(1) && protocol == Int(2) && major == Int(0)
           && scopeId == Text(d.scopeId) && engineId == Text(d.engineId) && pid == Int(d.pid)
           && start == Text(d.processStartIdentity) && kind == Text(d.endpointKind) && name == Text(d.endpointName)
           && nonce == Text(d.nonce) && startedAt == Text(d.startedAt)
  {
    hide NewDescriptor, ValidDescriptor;
    if NewDescriptor(lib, v, protocol, major, scopeId, engineId, pid, start, kind, name, nonce, startedAt) == Ok(d) {
      DescriptorBuilt(lib, v, protocol, major, scopeId, engineId, pid, start, kind, name, nonce, startedAt, d);
    } else if ValidDescriptor(lib, d) && v == Int(1) && protocol == Int(2) && major == Int(0)
      && scopeId == Text(d.scopeId) && engineId == Text(d.engineId) && pid == Int(d.pid)
      && start == Text(d.processStartIdentity) && kind == Text(d.endpointKind) && name == Text(d.endpointName)
      && nonce == Text(d.nonce) && startedAt == Text(d.startedAt) {
      DescriptorBuilds(lib, v, protocol, major, scopeId, engineId, pid, start, kind, name, nonce, startedAt, d);
    }
  }

  /** The dictionary of a descriptor: eleven keys, each with its field. */
  ghost predicate HoldsDescriptor(f: seq<Field>, d: EngineDescriptor) {
    && KeySet(f) == DescriptorKeys() && Get(f, KEY_DESCRIPTOR_VERSION) == Int(1)
    && Get(f, KEY_ENGINE_PROTOCOL_VERSION) == Int(2) && Get(f, KEY_RUNTIME_MAJOR) == Int(0)
    && Get(f, KEY_SCOPE_ID) == Text(d.scopeId) && Get(f, KEY_ENGINE_ID) == Text(d.engineId)
    && Get(f, KEY_PID) == Int(d.pid) && Get(f, KEY_PROCESS_START_IDENTITY) == Text(d.processStartIdentity)
    && Get(f, KEY_ENDPOINT_KIND) == Text(d.endpointKind) && Get(f, KEY_ENDPOINT_NAME) == Text(d.endpointName)
    && Get(f, KEY_NONCE) == Text(d.nonce) && Get(f, KEY_STARTED_AT) == Text(d.startedAt)
  }

  /** A descriptor file is read as a descriptor exactly if it decodes to the dictionary of a valid one. */
  lemma DescriptorReadExactly(lib: Library, payload: Bytes, d: EngineDescriptor)
    ensures DescriptorFromBytes(lib, payload) == Ok(d)
      <==> && ValidDescriptor(lib, d) && DecodeJson(payload, 16384).Ok?
           && HoldsDescriptor(DecodeJson(payload, 16384).value, d)
  {
    hide DecodeJson, NewDescriptor, ValidDescriptor, Get, KeySet, DescriptorKeys, Lit;
    if DecodeJson(payload, 16384).Ok? {
      var f := DecodeJson(payload, 16384).value;
      if KeySet(f) == DescriptorKeys() {
        DescriptorKeysThere(f);
        DescriptorExactly(lib, Get(f, KEY_DESCRIPTOR_VERSION), Get(f, KEY_ENGINE_PROTOCOL_VERSION),
          Get(f, KEY_RUNTIME_MAJOR), Get(f, KEY_SCOPE_ID), Get(f, KEY_ENGINE_ID), Get(f, KEY_PID),
          Get(f, KEY_PROCESS_START_IDENTITY), Get(f, KEY_ENDPOINT_KIND), Get(f, KEY_ENDPOINT_NAME),
          Get(f, KEY_NONCE), Get(f, KEY_STARTED_AT), d);
      }
    }
  }

  lemma DescriptorKeysThere(f: seq<Field>)
    requires KeySet(f) == DescriptorKeys()
    ensures KEY_DESCRIPTOR_VERSION in KeySet(f) && KEY_ENGINE_PROTOCOL_VERSION in KeySet(f)
    ensures KEY_RUNTIME_MAJOR in KeySet(f) && KEY_SCOPE_ID in KeySet(f) && KEY_ENGINE_ID in KeySet(f)
    ensures KEY_PID in KeySet(f) && KEY_PROCESS_START_IDENTITY in KeySet(f) && KEY_ENDPOINT_KIND in KeySet(f)
    ensures KEY_ENDPOINT_NAME in KeySet(f) && KEY_NONCE in KeySet(f) && KEY_STARTED_AT in KeySet(f)
  {
    hide KeySet, Lit;
  }

  // ---------------------------------------------------------------- launches

  /** The white space of Python's `str.isspace`. */
  const SPACES: set<CodePoint> :=
    {9, 10, 11, 12, 13, 28, 29, 30, 31, 32, 0x85, 0xA0, 0x1680, 0x2000, 0x2001, 0x2002, 0x2003, 0x2004, 0x2005,
     0x2006, 0x2007, 0x2008, 0x2009, 0x200A, 0x2028, 0x2029, 0x202F, 0x205F, 0x3000}

  /** Some character that `str.strip` keeps. */
  predicate Visible(s: Str) {
    exists i | 0 <= i < |s| :: s[i] !in SPACES
  }

  lemma SpacesExactly(c: CodePoint)
    ensures IsPythonSpace(c) <==> c in SPACES
  {
  }

  lemma VisibleExactly(v: Json)
    ensures IsNonBlank(v) <==> v.Text? && Visible(v.s)
  {
    hide IsPythonSpace;
    if v.Text? {
      forall i | 0 <= i < |v.s| ensures IsPythonSpace(v.s[i]) <==> v.s[i] in SPACES { SpacesExactly(v.s[i]); }
    }
  }

  lemma VisibleAlways()
    ensures forall v: Json :: IsNonBlank(v) <==> v.Text? && Visible(v.s)
    ensures !Visible([])
  {
    assert !Visible([]);
    hide IsNonBlank, Visible;
    forall v: Json ensures IsNonBlank(v) <==> v.Text? && Visible(v.s) { VisibleExactly(v); }
  }

  ghost predicate ValidReference(r: JobReference) {
    SmallHex(r.workspaceInstanceId, 32) && JobIdText(r.jobId)
  }

  ghost predicate ValidLaunch(lib: Library, l: WorkerLaunch) {
    var h, o, a := l.handoff, l.handoff.owner, l.authority;
    && ValidReference(l.reference)
    && Visible(o.workspaceIdentity) && Visible(o.processInstanceId) && (o.processId.Some? ==> o.processId.value >= 1)
    && Visible(h.resourceName) && h.fencingToken >= 1 && h.expiresAtMs >= 0 && NonceText(h.nonce)
    && Visible(a.ownerId) && !(forall i | 0 <= i < |a.ownerId| :: lib.decimal(a.ownerId[i])) && a.fencingToken >= 1
    && Visible(a.jobId)
    && a.jobId == l.reference.jobId && a.ownerId == o.processInstanceId
  }

  lemma ReferenceExactly(w: Json, j: Json, r: JobReference)
    ensures NewReference(w, j) == Ok(r)
      <==> ValidReference(r) && w == Text(r.workspaceInstanceId) && j == Text(r.jobId)
  {
    hide IsHexText, SmallHex, IsJobId, JobIdText;
    if w.Text? { SmallHexExactly(w.s, 32); }
    if j.Text? { JobIdExactly(j.s); }
  }

  lemma HandoffExactly(v: Json, n: Json, o: ResourceOwner, t: Json, e: Json, s: Json, h: ResourceHandoff)
    ensures NewHandoff(v, n, o, t, e, s) == Ok(h)
      <==> && v == Int(1) && n == Text(h.resourceName) && t == Int(h.fencingToken) && e == Int(h.expiresAtMs)
           && s == Text(h.nonce) && h.owner == o
           && Visible(h.resourceName) && h.fencingToken >= 1 && h.expiresAtMs >= 0 && NonceText(h.nonce)
  {
    hide Base64Decode, NonceText, IsNonBlank, Visible;
    VisibleExactly(n);
    if s.Text? {
      NonceTextExactly(s.s);
      NonceExactly(s);
    }
  }

  /** The launches that the constructors build are the valid ones. */
  lemma LaunchExactly(lib: Library, l: WorkerLaunch)
    ensures Constructed(lib, l) <==> ValidLaunch(lib, l)
  {
    hide Constructed, ValidLaunch;
    if Constructed(lib, l) { ConstructedIsValid(lib, l); }
    if ValidLaunch(lib, l) { ValidIsConstructed(lib, l); }
  }

  lemma ConstructedIsValid(lib: Library, l: WorkerLaunch)
    requires Constructed(lib, l)
    ensures ValidLaunch(lib, l)
  {
    hide IsNonBlank, Visible, ValidReference, NonceText;
    VisibleAlways();
    var w, j :| NewReference(w, j) == Ok(l.reference);
    ReferenceExactly(w, j, l.reference);
    var v, n, t, e, s :| NewHandoff(v, n, l.handoff.owner, t, e, s) == Ok(l.handoff);
    HandoffExactly(v, n, l.handoff.owner, t, e, s, l.handoff);
    hide NewReference, NewHandoff;
  }

  lemma ValidIsConstructed(lib: Library, l: WorkerLaunch)
    requires ValidLaunch(lib, l)
    ensures Constructed(lib, l)
  {
    hide IsNonBlank, Visible, ValidReference, NonceText;
    VisibleAlways();
    var h, o, a := l.handoff, l.handoff.owner, l.authority;
    var w, j := Text(l.reference.workspaceInstanceId), Text(l.reference.jobId);
    ReferenceExactly(w, j, l.reference);
    assert NewReference(w, j) == Ok(l.reference);
    var p := if o.processId.None? then Null else Int(o.processId.value);
    assert NewOwner(Text(o.workspaceIdentity), Text(o.processInstanceId), p) == Ok(o);
    HandoffExactly(Int(1), Text(h.resourceName), o, Int(h.fencingToken), Int(h.expiresAtMs), Text(h.nonce), h);
    assert NewHandoff(Int(1), Text(h.resourceName), o, Int(h.fencingToken), Int(h.expiresAtMs), Text(h.nonce)) == Ok(h);
    assert NewAuthority(lib, Text(a.jobId), Text(a.ownerId), Int(a.fencingToken)) == Ok(a);
    assert NewLaunch(Int(1), l.reference, h, a) == Ok(l);
  }

  // ---------------------------------------------------------------- requests

  ghost predicate ValidRequest(r: EngineRequest) {
    Bounded(r.requestId, 128) && NonceText(r.nonce) && (r.verb == JobNotify <==> r.reference.Some?)
    && (r.reference.Some? ==> ValidReference(r.reference.value))
  }

  /** The parameters of a request: none, or the two identifiers of a job. */
  ghost predicate HoldsParams(params: Json, r: EngineRequest) {
    && params.Obj?
    && if r.reference.None? then params.fields == []
       else && KeySet(params.fields) == {KEY_WORKSPACE_INSTANCE_ID, KEY_JOB_ID}
            && Get(params.fields, KEY_WORKSPACE_INSTANCE_ID) == Text(r.reference.value.workspaceInstanceId)
            && Get(params.fields, KEY_JOB_ID) == Text(r.reference.value.jobId)
  }

  lemma ParamsExactly(params: Json, x: JobReference)
    requires params.Obj? && KeySet(params.fields) == ReferenceKeys()
    ensures NewReference(Get(params.fields, KEY_WORKSPACE_INSTANCE_ID), Get(params.fields, KEY_JOB_ID)) == Ok(x)
      <==> && ValidReference(x) && Get(params.fields, KEY_WORKSPACE_INSTANCE_ID) == Text(x.workspaceInstanceId)
           && Get(params.fields, KEY_JOB_ID) == Text(x.jobId)
  {
    hide ValidReference, NewReference, KeySet, Get, Lit;
    ReferenceExactly(Get(params.fields, KEY_WORKSPACE_INSTANCE_ID), Get(params.fields, KEY_JOB_ID), x);
  }

  lemma RequestBuilt(version: Json, id: Json, verb: Json, nonce: Json, params: Json, r: EngineRequest)
    requires NewRequest(version, id, verb, nonce, params) == Ok(r)
    ensures ValidRequest(r) && version == Int(2) && id == Text(r.requestId) && verb.Text?
    ensures MethodNamed(verb.s) == Some(r.verb) && nonce == Text(r.nonce) && HoldsParams(params, r)
  {
    BoundedIs(id, 128);
    NonceGives(nonce);
    if params.Obj? && KeySet(params.fields) == ReferenceKeys() && r.reference.Some? {
      ParamsExactly(params, r.reference.value);
    }
    hide Nonce, NonceText, ValidReference, MethodNamed, KeySet, Get, NewReference, Lit, Bounded, BoundedText;
  }

  lemma RequestBuilds(version: Json, id: Json, verb: Json, nonce: Json, params: Json, r: EngineRequest)
    requires ValidRequest(r) && version == Int(2) && id == Text(r.requestId) && verb.Text?
    requires MethodNamed(verb.s) == Some(r.verb) && nonce == Text(r.nonce) && HoldsParams(params, r)
    ensures NewRequest(version, id, verb, nonce, params) == Ok(r)
  {
    BoundedIs(id, 128);
    NonceGives(nonce);
    if r.reference.Some? { ParamsExactly(params, r.reference.value); }
    hide Nonce, NonceText, ValidReference, MethodNamed, KeySet, Get, NewReference, Lit, Bounded, BoundedText;
  }

  /** A request is built from its own fields and the version, exactly if it is valid. */
  lemma RequestExactly(version: Json, id: Json, verb: Json, nonce: Json, params: Json, r: EngineRequest)
    ensures NewRequest(version, id, verb, nonce, params) == Ok(r)
      <==> && ValidRequest(r) && version == Int(2) && id == Text(r.requestId) && verb.Text?
           && MethodNamed(verb.s) == Some(r.verb) && nonce == Text(r.nonce) && HoldsParams(params, r)
  {
    hide NewRequest, ValidRequest, HoldsParams, MethodNamed;
    if NewRequest(version, id, verb, nonce, params) == Ok(r) {
      RequestBuilt(version, id, verb, nonce, params, r);
    } else if ValidRequest(r) && version == Int(2) && id == Text(r.requestId) && verb.Text?
      && MethodNamed(verb.s) == Some(r.verb) && nonce == Text(r.nonce) && HoldsParams(params, r) {
      RequestBuilds(version, id, verb, nonce, params, r);
    }
  }

  /** The four methods by their names. */
  lemma MethodExactly(s: Str, m: Method)
    ensures MethodNamed(s) == Some(m) <==> s == MethodName(m)
  {
    MethodLengths();
    hide Lit;
  }

  lemma MethodLengths()
    ensures |Lit("hello")| == 5 && |Lit("health")| == 6 && |Lit("shutdown")| == 8 && |Lit("job.notify")| == 10
  {
  }

  /** Why a request is refused: another version, an unknown method, or a reference that is not one. */
  lemma RequestRefusals(version: Json, id: Json, verb: Json, nonce: Json, params: Json)
    ensures var r := NewRequest(version, id, verb, nonce, params);
      && (r == Err(Incompatible) <==> version != Int(2))
      && (r == Err(MethodUnsupported)
          <==> && version == Int(2) && id.Text? && Bounded(id.s, 128) && !verb.Arr? && !verb.Obj?
               && (verb.Text? ==> MethodNamed(verb.s).None?))
      && (r == Err(JobReferenceInvalid)
          <==> && version == Int(2) && id.Text? && Bounded(id.s, 128) && verb == Text(MethodName(JobNotify))
               && nonce.Text? && NonceText(nonce.s) && params.Obj?
               && !exists x :: HoldsParams(params, x) && ValidRequest(x) && x.verb == JobNotify)
  {
    if verb.Text? { MethodExactly(verb.s, JobNotify); }
    if nonce.Text? { NonceIs(nonce, nonce.s); }
    if Nonce(nonce).Ok? { NonceIs(nonce, Nonce(nonce).value); }
    if id.Text? && nonce.Text? && params.Obj? && Bounded(id.s, 128) && NonceText(nonce.s) {
      ReferenceRefused(id, nonce, params);
    }
    hide Nonce, NonceText, MethodNamed, MethodName, KeySet, Get, NewReference, ValidRequest, HoldsParams;
  }

  lemma ReferenceRefused(id: Json, nonce: Json, params: Json)
    requires id.Text? && nonce.Text?
    requires params.Obj? && Bounded(id.s, 128) && NonceText(nonce.s)
    ensures (exists x :: HoldsParams(params, x) && ValidRequest(x) && x.verb == JobNotify)
      <==> && KeySet(params.fields) == ReferenceKeys()
           && NewReference(Get(params.fields, KEY_WORKSPACE_INSTANCE_ID), Get(params.fields, KEY_JOB_ID)).Ok?
  {
    hide NonceText, ValidReference, NewReference, KeySet, Get, Lit;
    if KeySet(params.fields) == ReferenceKeys() {
      var w, j := Get(params.fields, KEY_WORKSPACE_INSTANCE_ID), Get(params.fields, KEY_JOB_ID);
      if NewReference(w, j).Ok? {
        var r := NewReference(w, j).value;
        ReferenceExactly(w, j, r);
        var x := EngineRequest(id.s, JobNotify, nonce.s, Some(r));
        assert HoldsParams(params, x) && ValidRequest(x) && x.verb == JobNotify;
      }
      if x :| HoldsParams(params, x) && ValidRequest(x) && x.verb == JobNotify {
        ReferenceExactly(w, j, x.reference.value);
      }
    }
  }

  // ---------------------------------------------------------------- the decoder

  /**
   The strict decoder accepts octets within the limit that are the UTF-8 of a spelling of a dictionary without
   repeated keys, and nothing else.
   */
  lemma DecodeExactly(payload: Bytes, maximum: nat, fields: seq<Field>)
    ensures DecodeJson(payload, maximum) == Ok(fields)
      <==> && 0 < |payload| <= maximum && UniqueKeys(Obj(fields))
           && exists text :: Utf8Encode(text) == Some(payload) && IsDocument(text, Obj(fields), false)
  {
    hide IsDocument, UniqueKeys, Loads, Utf8Octets;
    if DecodeJson(payload, maximum) == Ok(fields) {
      var text := Utf8Decode(payload).value;
      Utf8DecodeExact(payload);
      DecodesExactly(text, STRICT, Obj(fields));
      assert Utf8Encode(text) == Some(payload);
    }
    if text :| Utf8Encode(text) == Some(payload) && IsDocument(text, Obj(fields), false) {
      Utf8RoundTrip(text);
      DecodesExactly(text, STRICT, Obj(fields));
    }
  }
}
