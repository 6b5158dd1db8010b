/**
 The engine's wire contracts: the nonce, the descriptor file, the worker launch message and
 the request and response frames, each with its validating constructor, encoder and decoder.
 */
module EngineContracts {
  import opened Text
  import opened Json
  import opened Dictionary

  /** Error codes of EngineProtocolError; `IntegerConversion` is a ValueError that escapes it. */
  datatype ProtocolError =
    | Invalid
    | Incompatible
    | MethodUnsupported
    | JobReferenceInvalid
    | WorkerLaunchInvalid
    | IntegerConversion

  /** Library predicates the contracts call: UUID syntax, zoned ISO time, decimal digits. */
  datatype Library = Library(uuid: Str -> bool, zonedTime: Str -> bool, decimal: CodePoint -> bool)

  const ENGINE_PROTOCOL_VERSION := 2
  const MAX_DESCRIPTOR_BYTES := 16 * 1024
  const MAX_FRAME_BYTES := 1024 * 1024
  const MAX_JOB_NOTIFY_BYTES := 4 * 1024
  const MAX_WORKER_LAUNCH_BYTES := 4 * 1024

  // The keys of every message.
  const KEY_DESCRIPTOR_VERSION: Str := Lit("descriptor_version")
  const KEY_ENGINE_PROTOCOL_VERSION: Str := Lit("engine_protocol_version")
  const KEY_RUNTIME_MAJOR: Str := Lit("runtime_major")
  const KEY_SCOPE_ID: Str := Lit("scope_id")
  const KEY_ENGINE_ID: Str := Lit("engine_id")
  const KEY_PID: Str := Lit("pid")
  const KEY_PROCESS_START_IDENTITY: Str := Lit("process_start_identity")
  const KEY_ENDPOINT_KIND: Str := Lit("endpoint_kind")
  const KEY_ENDPOINT_NAME: Str := Lit("endpoint_name")
  const KEY_NONCE: Str := Lit("nonce")
  const KEY_STARTED_AT: Str := Lit("started_at")
  const KEY_REQUEST_ID: Str := Lit("request_id")
  const KEY_METHOD: Str := Lit("method")
  const KEY_PARAMS: Str := Lit("params")
  const KEY_WORKSPACE_INSTANCE_ID: Str := Lit("workspace_instance_id")
  const KEY_JOB_ID: Str := Lit("job_id")
  const KEY_OK: Str := Lit("ok")
  const KEY_DATA: Str := Lit("data")
  const KEY_ERROR: Str := Lit("error")
  const KEY_CODE: Str := Lit("code")
  const KEY_LAUNCH_VERSION: Str := Lit("launch_version")
  const KEY_REFERENCE: Str := Lit("reference")
  const KEY_RESOURCE_HANDOFF: Str := Lit("resource_handoff")
  const KEY_JOB_AUTHORITY: Str := Lit("job_authority")
  const KEY_HANDOFF_VERSION: Str := Lit("handoff_version")
  const KEY_RESOURCE_NAME: Str := Lit("resource_name")
  const KEY_OWNER: Str := Lit("owner")
  const KEY_FENCING_TOKEN: Str := Lit("fencing_token")
  const KEY_EXPIRES_AT_MS: Str := Lit("expires_at_ms")
  const KEY_WORKSPACE_IDENTITY: Str := Lit("workspace_identity")
  const KEY_PROCESS_INSTANCE_ID: Str := Lit("process_instance_id")
  const KEY_PROCESS_ID: Str := Lit("process_id")
  const KEY_OWNER_ID: Str := Lit("owner_id")

  // ---------------------------------------------------------------- bytes to dictionary and back

  function DecodeJson(payload: Bytes, maximum: nat): Result<seq<Field>, ProtocolError> {
    if payload == [] || |payload| > maximum then Err(Invalid)
    else
      match Utf8Decode(payload)
      case None => Err(Invalid)
      case Some(text) =>
        match Loads(text, STRICT)
        case Err(Malformed) => Err(Invalid)
        case Err(DigitLimit) => Err(IntegerConversion)
        case Ok(value) => if value.Obj? then Ok(value.fields) else Err(Invalid)
  }

  const NEWLINE: Octet := 10

  function CanonicalBytes(fields: seq<Field>, newline: bool): Result<Bytes, ProtocolError> {
    match Dumps(Obj(fields))
    case Err(_) => Err(Invalid)
    case Ok(text) =>
      match Utf8Encode(text)
      case None => Err(Invalid)
      case Some(octets) => Ok(octets + (if newline then [NEWLINE] else []))
  }

  // ---------------------------------------------------------------- scalar checks

  /** A non-empty string of at most `maximum` code points. */
  function BoundedText(v: Json, maximum: nat): Result<Str, ProtocolError> {
    if v.Text? && v.s != [] && |v.s| <= maximum then Ok(v.s) else Err(Invalid)
  }

  predicate IsLowerHex(c: CodePoint) {
    IsDigit(c) || 'a' as int <= c <= 'f' as int
  }

  predicate IsHexText(s: Str, length: nat) {
    |s| == length && forall i | 0 <= i < |s| :: IsLowerHex(s[i])
  }

  /** The value of a character of the URL-safe alphabet (section 5 of RFC 4648). */
  function Base64Value(c: CodePoint): (r: Option<nat>)
    ensures r.Some? ==> r.value < 64
  {
    if 'A' as int <= c <= 'Z' as int then Some(c - 'A' as int)
    else if 'a' as int <= c <= 'z' as int then Some(c - 'a' as int + 26)
    else if IsDigit(c) then Some(c - ZERO + 52)
    else if c == '-' as int then Some(62)
    else if c == '_' as int then Some(63)
    else None
  }

  function Base64Char(n: nat): (r: CodePoint)
    requires n < 64
    ensures Base64Value(r) == Some(n)
  {
    if n < 26 then 'A' as int + n
    else if n < 52 then 'a' as int + (n - 26)
    else if n < 62 then ZERO + (n - 52)
    else if n == 62 then '-' as int
    else '_' as int
  }

  predicate IsBase64Text(s: Str) {
    forall i | 0 <= i < |s| :: Base64Value(s[i]).Some?
  }

  predicate IsNonceText(s: Str) {
    |s| == 43 && IsBase64Text(s)
  }

  /** Decoding of unpadded text: each character carries six bits, spare bits are dropped. */
  function Base64Decode(s: Str): Bytes
    requires IsBase64Text(s)
  {
    if |s| < 2 then []
    else
      var a, b := Base64Value(s[0]).value, Base64Value(s[1]).value;
      var first: Octet := a * 4 + b / 16;
      if |s| == 2 then [first]
      else
        var c := Base64Value(s[2]).value;
        var second: Octet := b % 16 * 16 + c / 4;
        if |s| == 3 then [first, second]
        else
          var third: Octet := c % 4 * 64 + Base64Value(s[3]).value;
          [first, second, third] + Base64Decode(s[4..])
  }

  /** Encoding without padding, the inverse direction used to make a nonce. */
  function Base64Encode(b: Bytes): (r: Str)
    ensures IsBase64Text(r)
  {
    if b == [] then []
    else if |b| == 1 then [Base64Char(b[0] / 4), Base64Char(b[0] % 4 * 16)]
    else if |b| == 2 then
      [Base64Char(b[0] / 4), Base64Char(b[0] % 4 * 16 + b[1] / 16), Base64Char(b[1] % 16 * 4)]
    else
      [Base64Char(b[0] / 4), Base64Char(b[0] % 4 * 16 + b[1] / 16),
       Base64Char(b[1] % 16 * 4 + b[2] / 64), Base64Char(b[2] % 64)] + Base64Encode(b[3..])
  }

  function Nonce(v: Json): Result<Str, ProtocolError> {
    var text :- BoundedText(v, 43);
    if !IsNonceText(text) then Err(Invalid)
    else if |Base64Decode(text)| != 32 then Err(Invalid)
    else Ok(text)
  }

  // ---------------------------------------------------------------- engine descriptor

  datatype EngineDescriptor = EngineDescriptor(
    scopeId: Str,
    engineId: Str,
    pid: int,
    processStartIdentity: Str,
    endpointKind: Str,
    endpointName: Str,
    nonce: Str,
    startedAt: Str
  )

  function DescriptorKeys(): set<Str> {
    {KEY_DESCRIPTOR_VERSION, KEY_ENGINE_PROTOCOL_VERSION, KEY_RUNTIME_MAJOR, KEY_SCOPE_ID,
     KEY_ENGINE_ID, KEY_PID, KEY_PROCESS_START_IDENTITY, KEY_ENDPOINT_KIND,
     KEY_ENDPOINT_NAME, KEY_NONCE, KEY_STARTED_AT}
  }

  /** The validating constructor, in the order of its checks; the three versions are fixed by it. */
  function NewDescriptor(lib: Library, descriptorVersion: Json, protocolVersion: Json, runtimeMajor: Json,
          scopeId: Json, engineId: Json, pid: Json, startIdentity: Json, endpointKind: Json, endpointName: Json,
          nonce: Json, startedAt: Json): Result<EngineDescriptor, ProtocolError>
  {
    if descriptorVersion != Int(1) then Err(Invalid)
    else if protocolVersion != Int(ENGINE_PROTOCOL_VERSION) then Err(Incompatible)
    else if runtimeMajor != Int(0) then Err(Incompatible)
    else if !scopeId.Text? || !IsHexText(scopeId.s, 64) then Err(Invalid)
    else
      var engine :- BoundedText(engineId, 64);
      if !lib.uuid(engine) then Err(Invalid)
      else if !pid.Int? || pid.n <= 0 then Err(Invalid)
      else
        var start :- BoundedText(startIdentity, 128);
        if endpointKind != Text(Lit("windows-named-pipe")) && endpointKind != Text(Lit("unix-domain-socket"))
        then Err(Invalid)
        else
          var name :- BoundedText(endpointName, 512);
          var secret :- Nonce(nonce);
          var started :- BoundedText(startedAt, 64);
          if !lib.zonedTime(started) then Err(Invalid)
          else Ok(EngineDescriptor(scopeId.s, engine, pid.n, start, endpointKind.s, name, secret, started))
  }

  function DescriptorPayload(d: EngineDescriptor): seq<Field> {
    [Field(KEY_DESCRIPTOR_VERSION, Int(1)),
     Field(KEY_ENGINE_PROTOCOL_VERSION, Int(ENGINE_PROTOCOL_VERSION)),
     Field(KEY_RUNTIME_MAJOR, Int(0)),
     Field(KEY_SCOPE_ID, Text(d.scopeId)),
     Field(KEY_ENGINE_ID, Text(d.engineId)),
     Field(KEY_PID, Int(d.pid)),
     Field(KEY_PROCESS_START_IDENTITY, Text(d.processStartIdentity)),
     Field(KEY_ENDPOINT_KIND, Text(d.endpointKind)),
     Field(KEY_ENDPOINT_NAME, Text(d.endpointName)),
     Field(KEY_NONCE, Text(d.nonce)),
     Field(KEY_STARTED_AT, Text(d.startedAt))]
  }

  function DescriptorToBytes(d: EngineDescriptor): Result<Bytes, ProtocolError> {
    CanonicalBytes(DescriptorPayload(d), true)
  }

  function DescriptorFromFields(lib: Library, f: seq<Field>): Result<EngineDescriptor, ProtocolError> {
    if KeySet(f) != DescriptorKeys() then Err(Invalid)
    else NewDescriptor(
      lib, Get(f, KEY_DESCRIPTOR_VERSION), Get(f, KEY_ENGINE_PROTOCOL_VERSION),
      Get(f, KEY_RUNTIME_MAJOR), Get(f, KEY_SCOPE_ID), Get(f, KEY_ENGINE_ID),
      Get(f, KEY_PID), Get(f, KEY_PROCESS_START_IDENTITY), Get(f, KEY_ENDPOINT_KIND),
      Get(f, KEY_ENDPOINT_NAME), Get(f, KEY_NONCE), Get(f, KEY_STARTED_AT))
  }

  function DescriptorFromBytes(lib: Library, payload: Bytes): Result<EngineDescriptor, ProtocolError> {
    var fields :- DecodeJson(payload, MAX_DESCRIPTOR_BYTES);
    DescriptorFromFields(lib, fields)
  }

  // ---------------------------------------------------------------- job reference

  datatype JobReference = JobReference(workspaceInstanceId: Str, jobId: Str)

  /**
   The spellings `s` with `str(UUID(s)) == s`, version 7 and the RFC variant
   (section 5.7 of RFC 9562): lower-case groups of 8, 4, 4, 4 and 12 hexadecimal digits.
   */
  predicate IsUuid7Text(s: Str) {
    |s| == 36
    && s[8] == MINUS && s[13] == MINUS && s[18] == MINUS && s[23] == MINUS
    && (forall i | 0 <= i < 36 && i != 8 && i != 13 && i != 18 && i != 23 :: IsLowerHex(s[i]))
    && s[14] == '7' as int
    && s[19] in ['8' as int, '9' as int, 'a' as int, 'b' as int]
  }

  predicate IsJobId(s: Str) {
    |s| == 40 && s[..4] == Lit("job_") && IsUuid7Text(s[4..])
  }

  function NewReference(workspaceInstanceId: Json, jobId: Json): Result<JobReference, ProtocolError> {
    if workspaceInstanceId.Text? && IsHexText(workspaceInstanceId.s, 32) && jobId.Text? && IsJobId(jobId.s)
    then Ok(JobReference(workspaceInstanceId.s, jobId.s))
    else Err(JobReferenceInvalid)
  }

  function ReferenceKeys(): set<Str> {
    {KEY_WORKSPACE_INSTANCE_ID, KEY_JOB_ID}
  }

  function ReferencePayload(r: JobReference): seq<Field> {
    [Field(KEY_WORKSPACE_INSTANCE_ID, Text(r.workspaceInstanceId)), Field(KEY_JOB_ID, Text(r.jobId))]
  }

  // ---------------------------------------------------------------- worker launch

  datatype ResourceOwner = ResourceOwner(workspaceIdentity: Str, processInstanceId: Str, processId: Option<int>)

  datatype ResourceHandoff = ResourceHandoff(
    resourceName: Str, owner: ResourceOwner, fencingToken: int, expiresAtMs: int, nonce: Str)

  datatype JobAuthority = JobAuthority(jobId: Str, ownerId: Str, fencingToken: int)

  datatype WorkerLaunch = WorkerLaunch(reference: JobReference, handoff: ResourceHandoff, authority: JobAuthority)

  /** Python's white space: what `str.strip` removes. */
  predicate IsPythonSpace(c: CodePoint) {
    9 <= c <= 13 || 28 <= c <= 32 || c == 0x85 || c == 0xA0 || c == 0x1680 || 0x2000 <= c <= 0x200A
    || c == 0x2028 || c == 0x2029 || c == 0x202F || c == 0x205F || c == 0x3000
  }

  predicate IsNonBlank(v: Json) {
    v.Text? && exists i | 0 <= i < |v.s| :: !IsPythonSpace(v.s[i])
  }

  predicate IsDecimalText(lib: Library, s: Str) {
    s != [] && forall i | 0 <= i < |s| :: lib.decimal(s[i])
  }

  function NewOwner(workspaceIdentity: Json, processInstanceId: Json,
          processId: Json): Result<ResourceOwner, ProtocolError> {
    if !IsNonBlank(workspaceIdentity) || !IsNonBlank(processInstanceId) then Err(WorkerLaunchInvalid)
    else if processId.Null? then Ok(ResourceOwner(workspaceIdentity.s, processInstanceId.s, None))
    else if !processId.Int? || processId.n < 1 then Err(WorkerLaunchInvalid)
    else Ok(ResourceOwner(workspaceIdentity.s, processInstanceId.s, Some(processId.n)))
  }

  function NewHandoff(version: Json, resourceName: Json, owner: ResourceOwner, fencingToken: Json, expiresAtMs: Json,
          nonce: Json): Result<ResourceHandoff, ProtocolError>
  {
    if version != Int(1) || !IsNonBlank(resourceName) || !fencingToken.Int? || fencingToken.n < 1
       || !expiresAtMs.Int? || expiresAtMs.n < 0 || !nonce.Text? || !IsNonceText(nonce.s)
    then Err(WorkerLaunchInvalid)
    else if |Base64Decode(nonce.s)| != 32 then Err(WorkerLaunchInvalid)
    else Ok(ResourceHandoff(resourceName.s, owner, fencingToken.n, expiresAtMs.n, nonce.s))
  }

  function NewAuthority(lib: Library, jobId: Json, ownerId: Json,
          fencingToken: Json): Result<JobAuthority, ProtocolError> {
    if !IsNonBlank(ownerId) || IsDecimalText(lib, ownerId.s) || !fencingToken.Int? || fencingToken.n < 1
       || !IsNonBlank(jobId)
    then Err(WorkerLaunchInvalid)
    else Ok(JobAuthority(jobId.s, ownerId.s, fencingToken.n))
  }

  function NewLaunch(version: Json, reference: JobReference, handoff: ResourceHandoff,
          authority: JobAuthority): Result<WorkerLaunch, ProtocolError>
  {
    if version != Int(1) || authority.jobId != reference.jobId
       || authority.ownerId != handoff.owner.processInstanceId
    then Err(WorkerLaunchInvalid)
    else Ok(WorkerLaunch(reference, handoff, authority))
  }

  function LaunchKeys(): set<Str> {
    {KEY_LAUNCH_VERSION, KEY_REFERENCE, KEY_RESOURCE_HANDOFF, KEY_JOB_AUTHORITY}
  }

  function HandoffKeys(): set<Str> {
    {KEY_HANDOFF_VERSION, KEY_RESOURCE_NAME, KEY_OWNER, KEY_FENCING_TOKEN,
     KEY_EXPIRES_AT_MS, KEY_NONCE}
  }

  function OwnerKeys(): set<Str> {
    {KEY_WORKSPACE_IDENTITY, KEY_PROCESS_INSTANCE_ID, KEY_PROCESS_ID}
  }

  function AuthorityKeys(): set<Str> {
    {KEY_JOB_ID, KEY_OWNER_ID, KEY_FENCING_TOKEN}
  }

  function OwnerPayload(o: ResourceOwner): seq<Field> {
    [Field(KEY_WORKSPACE_IDENTITY, Text(o.workspaceIdentity)),
     Field(KEY_PROCESS_INSTANCE_ID, Text(o.processInstanceId)),
     Field(KEY_PROCESS_ID, if o.processId.None? then Null else Int(o.processId.value))]
  }

  function HandoffPayload(h: ResourceHandoff): seq<Field> {
    [Field(KEY_HANDOFF_VERSION, Int(1)),
     Field(KEY_RESOURCE_NAME, Text(h.resourceName)),
     Field(KEY_OWNER, Obj(OwnerPayload(h.owner))),
     Field(KEY_FENCING_TOKEN, Int(h.fencingToken)),
     Field(KEY_EXPIRES_AT_MS, Int(h.expiresAtMs)),
     Field(KEY_NONCE, Text(h.nonce))]
  }

  function AuthorityPayload(a: JobAuthority): seq<Field> {
    [Field(KEY_JOB_ID, Text(a.jobId)),
     Field(KEY_OWNER_ID, Text(a.ownerId)),
     Field(KEY_FENCING_TOKEN, Int(a.fencingToken))]
  }

  function LaunchPayload(l: WorkerLaunch): seq<Field> {
    [Field(KEY_LAUNCH_VERSION, Int(1)),
     Field(KEY_REFERENCE, Obj(ReferencePayload(l.reference))),
     Field(KEY_RESOURCE_HANDOFF, Obj(HandoffPayload(l.handoff))),
     Field(KEY_JOB_AUTHORITY, Obj(AuthorityPayload(l.authority)))]
  }

  function LaunchToBytes(l: WorkerLaunch): Result<Bytes, ProtocolError> {
    var payload :- CanonicalBytes(LaunchPayload(l), true);
    if |payload| > MAX_WORKER_LAUNCH_BYTES then Err(WorkerLaunchInvalid) else Ok(payload)
  }

  function HandoffFromFields(f: seq<Field>): Result<ResourceHandoff, ProtocolError>
    requires KeySet(f) == HandoffKeys()
    requires Get(f, KEY_OWNER).Obj? && KeySet(Get(f, KEY_OWNER).fields) == OwnerKeys()
  {
    var o := Get(f, KEY_OWNER).fields;
    var owner :- NewOwner(Get(o, KEY_WORKSPACE_IDENTITY), Get(o, KEY_PROCESS_INSTANCE_ID), Get(o, KEY_PROCESS_ID));
    NewHandoff(Get(f, KEY_HANDOFF_VERSION), Get(f, KEY_RESOURCE_NAME), owner,
               Get(f, KEY_FENCING_TOKEN), Get(f, KEY_EXPIRES_AT_MS), Get(f, KEY_NONCE))
  }

  /** The launch a decoded dictionary describes, before the comparison with the received bytes. */
  function LaunchFromFields(lib: Library, f: seq<Field>): Result<WorkerLaunch, ProtocolError> {
    if KeySet(f) != LaunchKeys() then Err(WorkerLaunchInvalid)
    else
      var reference, handoff, authority :=
        Get(f, KEY_REFERENCE), Get(f, KEY_RESOURCE_HANDOFF), Get(f, KEY_JOB_AUTHORITY);
      if !reference.Obj? || KeySet(reference.fields) != ReferenceKeys()
         || !handoff.Obj? || KeySet(handoff.fields) != HandoffKeys()
         || !authority.Obj? || KeySet(authority.fields) != AuthorityKeys()
         || !Get(handoff.fields, KEY_OWNER).Obj?
         || KeySet(Get(handoff.fields, KEY_OWNER).fields) != OwnerKeys()
      then Err(WorkerLaunchInvalid)
      else
        var r :- NewReference(Get(reference.fields, KEY_WORKSPACE_INSTANCE_ID), Get(reference.fields, KEY_JOB_ID));
        var h :- HandoffFromFields(handoff.fields);
        var a :- NewAuthority(lib, Get(authority.fields, KEY_JOB_ID), Get(authority.fields, KEY_OWNER_ID),
                              Get(authority.fields, KEY_FENCING_TOKEN));
        NewLaunch(Get(f, KEY_LAUNCH_VERSION), r, h, a)
  }

  function LaunchFromBytes(lib: Library, payload: Bytes): Result<WorkerLaunch, ProtocolError> {
    var fields :- DecodeJson(payload, MAX_WORKER_LAUNCH_BYTES);
    var launch :- LaunchFromFields(lib, fields);
    var again :- LaunchToBytes(launch);
    if again != payload then Err(WorkerLaunchInvalid) else Ok(launch)
  }

  // ---------------------------------------------------------------- requests

  datatype Method = Hello | Health | Shutdown | JobNotify

  function MethodName(m: Method): Str {
    match m
    case Hello => Lit("hello")
    case Health => Lit("health")
    case Shutdown => Lit("shutdown")
    case JobNotify => Lit("job.notify")
  }

  function MethodNamed(s: Str): Option<Method> {
    if s == Lit("hello") then Some(Hello)
    else if s == Lit("health") then Some(Health)
    else if s == Lit("shutdown") then Some(Shutdown)
    else if s == Lit("job.notify") then Some(JobNotify)
    else None
  }

  /** A validated request; its parameters are empty except for the reference of a notification. */
  datatype EngineRequest = EngineRequest(requestId: Str, verb: Method, nonce: Str, reference: Option<JobReference>)

  function NewRequest(version: Json, requestId: Json, verb: Json, nonce: Json,
          params: Json): Result<EngineRequest, ProtocolError> {
    if version != Int(ENGINE_PROTOCOL_VERSION) then Err(Incompatible)
    else
      var id :- BoundedText(requestId, 128);
      if verb.Arr? || verb.Obj? then Err(Invalid)
      else if !verb.Text? || MethodNamed(verb.s).None? then Err(MethodUnsupported)
      else
        var m := MethodNamed(verb.s).value;
        var secret :- Nonce(nonce);
        if !params.Obj? then Err(Invalid)
        else if m != JobNotify then
          if params.fields != [] then Err(Invalid) else Ok(EngineRequest(id, m, secret, None))
        else if KeySet(params.fields) != ReferenceKeys() then Err(JobReferenceInvalid)
        else
          var r :- NewReference(Get(params.fields, KEY_WORKSPACE_INSTANCE_ID), Get(params.fields, KEY_JOB_ID));
          Ok(EngineRequest(id, m, secret, Some(r)))
  }

  function RequestKeys(): set<Str> {
    {KEY_ENGINE_PROTOCOL_VERSION, KEY_REQUEST_ID, KEY_METHOD, KEY_NONCE, KEY_PARAMS}
  }

  function RequestParams(r: EngineRequest): seq<Field> {
    if r.reference.Some? then ReferencePayload(r.reference.value) else []
  }

  function RequestPayload(r: EngineRequest): seq<Field> {
    [Field(KEY_ENGINE_PROTOCOL_VERSION, Int(ENGINE_PROTOCOL_VERSION)),
     Field(KEY_REQUEST_ID, Text(r.requestId)),
     Field(KEY_METHOD, Text(MethodName(r.verb))),
     Field(KEY_NONCE, Text(r.nonce)),
     Field(KEY_PARAMS, Obj(RequestParams(r)))]
  }

  function EncodeRequest(requestId: Str, verb: Str, nonce: Str, params: seq<Field>): Result<Bytes, ProtocolError> {
    var request :- NewRequest(Int(ENGINE_PROTOCOL_VERSION), Text(requestId), Text(verb), Text(nonce), Obj(params));
    var payload :- CanonicalBytes(RequestPayload(request), false);
    if |payload| > MAX_FRAME_BYTES then Err(Invalid)
    else if request.verb == JobNotify && |payload| > MAX_JOB_NOTIFY_BYTES then Err(Invalid)
    else Ok(payload)
  }

  function RequestFromFields(f: seq<Field>): Result<EngineRequest, ProtocolError> {
    if KeySet(f) != RequestKeys() then Err(Invalid)
    else NewRequest(Get(f, KEY_ENGINE_PROTOCOL_VERSION), Get(f, KEY_REQUEST_ID), Get(f, KEY_METHOD),
                    Get(f, KEY_NONCE), Get(f, KEY_PARAMS))
  }

  function DecodeRequest(payload: Bytes): Result<EngineRequest, ProtocolError> {
    var fields :- DecodeJson(payload, MAX_FRAME_BYTES);
    var request :- RequestFromFields(fields);
    if request.verb == JobNotify && |payload| > MAX_JOB_NOTIFY_BYTES then Err(Invalid) else Ok(request)
  }

  // ---------------------------------------------------------------- responses

  function ResponseKeys(): set<Str> {
    {KEY_ENGINE_PROTOCOL_VERSION, KEY_REQUEST_ID, KEY_OK, KEY_DATA, KEY_ERROR}
  }

  function ResponsePayload(requestId: Str, data: Option<seq<Field>>, error: Option<seq<Field>>): seq<Field> {
    [Field(KEY_ENGINE_PROTOCOL_VERSION, Int(ENGINE_PROTOCOL_VERSION)),
     Field(KEY_REQUEST_ID, Text(requestId)),
     Field(KEY_OK, Bool(error.None?)),
     Field(KEY_DATA, if data.Some? then Obj(data.value) else Null),
     Field(KEY_ERROR, if error.Some? then Obj(error.value) else Null)]
  }

  function EncodeResponse(requestId: Str, data: Option<seq<Field>>,
          error: Option<seq<Field>>): Result<Bytes, ProtocolError> {
    var _ :- BoundedText(Text(requestId), 128);
    if data.None? == error.None? then Err(Invalid)
    else if error.Some? && KeySet(error.value) != {KEY_CODE} then Err(Invalid)
    else
      var _ :- if error.Some? then BoundedText(Get(error.value, KEY_CODE), 128) else Ok([]);
      var payload :- CanonicalBytes(ResponsePayload(requestId, data, error), false);
      if |payload| > MAX_FRAME_BYTES then Err(Invalid) else Ok(payload)
  }

  /** The dictionary a received response decodes to, once every check has passed. */
  function CheckResponse(f: seq<Field>, requestId: Str): Result<seq<Field>, ProtocolError> {
    if KeySet(f) != ResponseKeys() then Err(Invalid)
    else if Get(f, KEY_ENGINE_PROTOCOL_VERSION) != Int(ENGINE_PROTOCOL_VERSION) then Err(Incompatible)
    else if Get(f, KEY_REQUEST_ID) != Text(requestId) || !Get(f, KEY_OK).Bool? then Err(Invalid)
    else if Get(f, KEY_OK).b then
      if !Get(f, KEY_DATA).Obj? || !Get(f, KEY_ERROR).Null? then Err(Invalid) else Ok(f)
    else
      var error := Get(f, KEY_ERROR);
      if !error.Obj? || KeySet(error.fields) != {KEY_CODE} then Err(Invalid)
      else
        var code := Get(error.fields, KEY_CODE);
        if !code.Text? || code.s == [] || |code.s| > 128 || !Get(f, KEY_DATA).Null? then Err(Invalid)
        else Ok(f)
  }

  function DecodeResponse(payload: Bytes, requestId: Str): Result<seq<Field>, ProtocolError> {
    var fields :- DecodeJson(payload, MAX_FRAME_BYTES);
    CheckResponse(fields, requestId)
  }
}
