/**
 Retrying a durable job (backend/app/job_runtime.py): a new job that takes over the frozen Pack,
 Document-input and Video-input snapshots of the one it retries.
 */
module JobRetry {
  import opened Text
  import opened Json
  import opened Dictionary
  import opened JobStates

  datatype Kind = ConfigSnapshot | PackEnvironment | DocumentInput | VideoInput | StateChange | Other(name: Str)

  datatype Event = Event(kind: Kind, payload: Str)

  datatype RetryError =
    | PackInvalid
    | PackMissing
    | DocumentInvalid
    | VideoInvalid
    | ExecutorUnavailable
    | NotTerminal
    | StateConflict
    | RequestIdInvalid
    | RequestIdReused
    | OperationsInvalid
    | OperationsUnconfirmed
    | IdempotencyConflict

  const KEY_SCHEMA_VERSION: Str := Lit("schema_version")
  const KEY_PACKS: Str := Lit("packs")
  const KEY_PACK_ID: Str := Lit("pack_id")
  const KEY_PACK_VERSION: Str := Lit("pack_version")
  const KEY_PLATFORM: Str := Lit("platform")
  const KEY_MANIFEST_SHA256: Str := Lit("manifest_sha256")
  const KEY_SHA256: Str := Lit("sha256")
  const KEY_BYTE_LENGTH: Str := Lit("byte_length")

  /** `"sha256:"` and 64 lower-case hexadecimal digits. */
  predicate IsDigest(s: Str) {
    |s| == 71 && s[..7] == Lit("sha256:") && forall i | 7 <= i < 71 :: IsLowerHex(s[i])
  }

  predicate IsLowerHex(c: CodePoint) {
    48 <= c <= 57 || 97 <= c <= 102
  }

  // ---------------------------------------------------------------- the Pack environment

  /** `blank` tells whether `str.strip` leaves nothing. */
  type Blank = Str -> bool

  datatype Pack = Pack(id: Str, version: Str, platform: Str, manifest: Str)

  predicate ValidPack(blank: Blank, p: Pack) {
    !blank(p.id) && !blank(p.version) && !blank(p.platform) && IsDigest(p.manifest)
  }

  predicate ValidPacks(blank: Blank, packs: seq<Pack>) {
    packs != []
    && (forall i | 0 <= i < |packs| :: ValidPack(blank, packs[i]))
    && forall i, j | 0 <= i < j < |packs| :: packs[i].id != packs[j].id
  }

  function PackKeys(): set<Str> { {KEY_PACK_ID, KEY_PACK_VERSION, KEY_PLATFORM, KEY_MANIFEST_SHA256} }

  function PackFields(p: Pack): seq<Field> {
    [Field(KEY_PACK_ID, Text(p.id)), Field(KEY_PACK_VERSION, Text(p.version)),
     Field(KEY_PLATFORM, Text(p.platform)), Field(KEY_MANIFEST_SHA256, Text(p.manifest))]
  }

  function PacksJson(packs: seq<Pack>): (r: seq<Json>)
    ensures |r| == |packs| && forall i | 0 <= i < |packs| :: r[i] == Obj(PackFields(packs[i]))
  {
    seq(|packs|, i requires 0 <= i < |packs| => Obj(PackFields(packs[i])))
  }

  function EnvironmentFields(packs: seq<Pack>): seq<Field> {
    [Field(KEY_SCHEMA_VERSION, Int(1)), Field(KEY_PACKS, Arr(PacksJson(packs)))]
  }

  function PackFromJson(v: Json): Option<Pack> {
    if v.Obj? && KeySet(v.fields) == PackKeys() then
      var f := v.fields;
      var id, version := Get(f, KEY_PACK_ID), Get(f, KEY_PACK_VERSION);
      var platform, manifest := Get(f, KEY_PLATFORM), Get(f, KEY_MANIFEST_SHA256);
      if id.Text? && version.Text? && platform.Text? && manifest.Text? then
        Some(Pack(id.s, version.s, platform.s, manifest.s))
      else None
    else None
  }

  function PacksFromJson(items: seq<Json>): Option<seq<Pack>> {
    if items == [] then Some([])
    else
      match (PackFromJson(items[0]), PacksFromJson(items[1..]))
      case (Some(p), Some(ps)) => Some([p] + ps)
      case _ => None
  }

  function EnvironmentFromFields(blank: Blank, f: seq<Field>): Option<seq<Pack>> {
    if
      && KeySet(f) == {KEY_SCHEMA_VERSION, KEY_PACKS}
      && Get(f, KEY_PACKS).Arr?
      && Get(f, KEY_SCHEMA_VERSION) == Int(1)
    then
      match PacksFromJson(Get(f, KEY_PACKS).items)
      case None => None
      case Some(packs) => if ValidPacks(blank, packs) then Some(packs) else None
    else None
  }

  /** `parse_job_pack_environment_payload`, with every exception as None. */
  function ParseEnvironment(blank: Blank, payload: Str): Option<seq<Pack>> {
    match Loads(payload, UNIQUE)
    case Ok(Obj(f)) => EnvironmentFromFields(blank, f)
    case _ => None
  }

  // ---------------------------------------------------------------- input snapshots

  datatype InputSnapshot = InputSnapshot(schemaVersion: int, sha256: Str, byteLength: int)

  function InputKeys(): set<Str> { {KEY_SCHEMA_VERSION, KEY_SHA256, KEY_BYTE_LENGTH} }

  function InputFields(x: InputSnapshot): seq<Field> {
    [Field(KEY_SCHEMA_VERSION, Int(x.schemaVersion)), Field(KEY_SHA256, Text(x.sha256)),
     Field(KEY_BYTE_LENGTH, Int(x.byteLength))]
  }

  function InputFromFields(f: seq<Field>): Option<InputSnapshot> {
    if
      && KeySet(f) == InputKeys()
      && Get(f, KEY_SCHEMA_VERSION).Int?
      && Get(f, KEY_SHA256).Text?
      && Get(f, KEY_BYTE_LENGTH).Int?
    then
      Some(InputSnapshot(Get(f, KEY_SCHEMA_VERSION).n, Get(f, KEY_SHA256).s, Get(f, KEY_BYTE_LENGTH).n))
    else None
  }

  predicate ValidVideo(x: InputSnapshot) {
    x.schemaVersion == 1 && IsDigest(x.sha256) && x.byteLength >= 0
  }

  /** `json.loads` and the checks of `retry_job`; this decoder refuses neither repeated keys nor constants. */
  function ParseDocument(payload: Str): Option<InputSnapshot> {
    match Loads(payload, PYTHON)
    case Ok(Obj(f)) => InputFromFields(LastEntries(f))
    case _ => None
  }

  /** `parse_video_input_snapshot_payload`. */
  function ParseVideo(payload: Str): Option<InputSnapshot> {
    match Loads(payload, UNIQUE)
    case Ok(Obj(f)) =>
      (match InputFromFields(f)
       case Some(x) => if ValidVideo(x) then Some(x) else None
       case None => None)
    case _ => None
  }

  // ---------------------------------------------------------------- retry_job

  function OfKind(events: seq<Event>, k: Kind): (r: seq<Event>)
    ensures |r| <= |events|
  {
    if events == [] then []
    else (if events[0].kind == k then [events[0]] else []) + OfKind(events[1..], k)
  }

  function PackSnapshot(blank: Blank, events: seq<Event>): Result<Option<seq<Pack>>, RetryError> {
    var found := OfKind(events, PackEnvironment);
    if |found| > 1 then Err(PackInvalid)
    else if found == [] then Ok(None)
    else
      match ParseEnvironment(blank, found[0].payload)
      case None => Err(PackInvalid)
      case Some(packs) => Ok(Some(packs))
  }

  function DocumentSnapshot(events: seq<Event>): Result<Option<InputSnapshot>, RetryError> {
    var found := OfKind(events, DocumentInput);
    if |found| > 1 then Err(DocumentInvalid)
    else if found == [] then Ok(None)
    else
      match ParseDocument(found[0].payload)
      case None => Err(DocumentInvalid)
      case Some(x) => Ok(Some(x))
  }

  function VideoSnapshot(events: seq<Event>): Result<Option<InputSnapshot>, RetryError> {
    var found := OfKind(events, VideoInput);
    if |found| > 1 then Err(VideoInvalid)
    else if found == [] then Ok(None)
    else
      match ParseVideo(found[0].payload)
      case None => Err(VideoInvalid)
      case Some(x) => Ok(Some(x))
  }

  /** One event with its payload in canonical form, or none. */
  function EventFor(k: Kind, fields: Option<seq<Field>>): seq<Event> {
    match fields
    case None => []
    case Some(f) => [Event(k, Print(Sorted(Obj(f))))]
  }

  function PackFieldsOf(packs: Option<seq<Pack>>): Option<seq<Field>> {
    match packs
    case None => None
    case Some(p) => Some(EnvironmentFields(p))
  }

  function InputFieldsOf(x: Option<InputSnapshot>): Option<seq<Field>> {
    match x
    case None => None
    case Some(i) => Some(InputFields(i))
  }

  /** The events the new job starts with; `config` is the current configuration, already printed. */
  function RetryEvents(blank: Blank, config: Option<Str>, events: seq<Event>): Result<seq<Event>, RetryError> {
    var packs :- PackSnapshot(blank, events);
    var document :- DocumentSnapshot(events);
    var video :- VideoSnapshot(events);
    Ok((match config case None => [] case Some(payload) => [Event(ConfigSnapshot, payload)])
       + EventFor(PackEnvironment, PackFieldsOf(packs))
       + EventFor(DocumentInput, InputFieldsOf(document))
       + EventFor(VideoInput, InputFieldsOf(video)))
  }

  // ---------------------------------------------------------------- execution bindings

  datatype Binding = Binding(recipe: Str, recipeVersion: int, executor: Str, executorVersion: int, pack: Str,
    packVersion: Str)

  /** The bindings and recipes this release knows. */
  datatype Release = Release(document: Binding, legacyVideo: Binding, videoRecipes: set<(Str, int)>, mediaBasic: Str,
    videoExecutor: Str)

  function FindPack(packs: seq<Pack>, id: Str): Option<Pack> {
    if packs == [] then None
    else if packs[0].id == id then Some(packs[0])
    else FindPack(packs[1..], id)
  }

  /** `_job_pack_environment`. */
  function JobPackEnvironment(blank: Blank, events: seq<Event>, b: Binding): Result<seq<Pack>, RetryError> {
    var found := OfKind(events, PackEnvironment);
    if found == [] then Err(PackMissing)
    else if |found| != 1 then Err(PackInvalid)
    else
      match ParseEnvironment(blank, found[0].payload)
      case None => Err(PackInvalid)
      case Some(packs) =>
        match FindPack(packs, b.pack)
        case None => Err(PackInvalid)
        case Some(p) => if p.version == b.packVersion then Ok(packs) else Err(PackInvalid)
  }

  /** `_require_supported_execution_binding`. */
  function SupportedBinding(blank: Blank, release: Release, events: seq<Event>,
          b: Binding): Result<Binding, RetryError> {
    if b == release.document || b == release.legacyVideo then Ok(b)
    else if (b.recipe, b.recipeVersion) in release.videoRecipes && b.executor == release.videoExecutor
      && b.executorVersion == 1 && b.pack == release.mediaBasic then
      var _ :- JobPackEnvironment(blank, events, b);
      Ok(b)
    else Err(ExecutorUnavailable)
  }

  // ---------------------------------------------------------------- the repository

  /** Jobs of one principal; a job is known by its position. `unknown` are its operations of unknown outcome. */
  datatype Job = Job(
    requestHash: Str, requestId: Option<Str>, retryOf: Option<nat>, binding: Binding, state: JobState,
    events: seq<Event>, unknown: set<Str>)

  /** What the caller of a retry sends. */
  datatype Request = Request(id: Str, expected: JobState, confirmed: seq<Str>)

  predicate ValidConfirmations(ids: seq<Str>) {
    (forall i | 0 <= i < |ids| :: ids[i] != []) && forall i, j | 0 <= i < j < |ids| :: ids[i] != ids[j]
  }

  function Ids(ids: seq<Str>): set<Str> {
    set i | 0 <= i < |ids| :: ids[i]
  }

  type Repository = seq<Job>

  function FindRequest(jobs: Repository, requestId: Str, from: nat): Option<nat>
    requires from <= |jobs|
    ensures FindRequest(jobs, requestId, from).Some? ==> from <= FindRequest(jobs, requestId, from).value < |jobs|
    decreases |jobs| - from
  {
    if from == |jobs| then None
    else if jobs[from].requestId == Some(requestId) then Some(from)
    else FindRequest(jobs, requestId, from + 1)
  }

  function NotState(events: seq<Event>): seq<Event> {
    if events == [] then []
    else (if events[0].kind != StateChange then [events[0]] else []) + NotState(events[1..])
  }

  function Take<T>(s: seq<T>, n: nat): seq<T> {
    if |s| <= n then s else s[..n]
  }

  /** `retry_job` on the stored job `i`: the repository afterwards and the job that answers the request. */
  function Retry(blank: Blank, jobs: Repository, i: nat, config: Option<Str>, request: Request, queued: Str)
    : Result<(Repository, nat), RetryError>
    requires i < |jobs|
  {
    var original := jobs[i];
    var initial :- RetryEvents(blank, config, original.events);
    if blank(request.id) then Err(RequestIdInvalid)
    else if !ValidConfirmations(request.confirmed) then Err(OperationsInvalid)
    else if !IsTerminal(original.state) then Err(NotTerminal)
    else if original.state != request.expected then Err(StateConflict)
    else if original.requestId == Some(request.id) then Err(RequestIdReused)
    else if Ids(request.confirmed) != original.unknown then Err(OperationsUnconfirmed)
    else
      match FindRequest(jobs, request.id, 0)
      case Some(e) =>
        if jobs[e].requestHash != original.requestHash || jobs[e].retryOf != Some(i) then Err(IdempotencyConflict)
        else if initial != [] && Take(NotState(jobs[e].events), |initial|) != initial then Err(IdempotencyConflict)
        else Ok((jobs, e))
      case None =>
        var child := Job(original.requestHash, Some(request.id), Some(i), original.binding, Queued,
                         initial + [Event(StateChange, queued)], {});
        Ok((jobs + [child], |jobs|))
  }
}
