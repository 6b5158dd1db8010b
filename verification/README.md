# AllToNote backend: protocols, codecs and release checks

This project models the parts of the AllToNote backend whose correctness depends on many steps fitting together,
and proves what they promise. Nine parts are modelled.

**The engine lifecycle** (`EngineProtocol`, `EngineInvariant`, `EngineSteps`, `EngineRuns`, `EngineTheorems`,
`EngineProgress`, `EngineEnds`, `EngineCareless`). Any number of `ensure`, `notify_job` and `stop` calls and of
engine hosts share a launch lock, a lifetime lock and a descriptor file. Every access to shared state is one
step of a transition system; steps of calls, hosts, the environment (processes that are killed, pids that are
reused) interleave freely. One inductive invariant is kept by every step, and the theorems speak about every
state of every run; `EngineProgress` shows that what the protocol is for can happen. A host starts, takes the
lifetime lock, publishes its descriptor, serves, removes its descriptor and releases the lock, as
`backend/app/engine/host.py` does it.

**The wire codec** (`Text`, `Json`, `Json*`, `Dictionary`, `EngineContracts`, `EngineConstructors`,
`EngineWire`, `EngineFrames`, `EngineNonce`, `EngineLaunch`, `EngineResponses`). UTF-8, a JSON printer and a
backtracking-free JSON parser are written out on octets and code points (RFC 8259 sections 2 to 7, RFC 3629, RFC
4648 section 5), with Python's treatment of surrogates, repeated keys, constants that are not numbers, integer
length and white space. The parser is proved against a grammar that is written without it (`JsonTokens`,
`JsonTexts`, `JsonGrammar`, `JsonDecides`), the order of keys against the usual definition (`JsonOrder`).
Descriptors, requests, responses and worker launches are built on them, and `EngineConstructors` and
`EngineResponses` say which of them are accepted.

**Event tailing and retries** (`JobStates`, `EventStream`, `JobStreams`, `JobRetry`, `JobSnapshots`,
`RetryChain`, `RetryRequests`). A reader pages an append-only log while a writer appends, pauses and resumes; a
job's frozen snapshots pass through canonical text from retry to retry.

**Workspace initialisation** (`WorkspaceDisk` to `WorkspaceGuarantees`). A file system object whose every
operation can fail and whose trace records each tree that a kill could leave; the attempt and its roll-back are
methods on it, the octets of the manifest (`WorkspaceManifest`) are written out, and `WorkspaceVerdict` says of
each answer when it is given.

**Release assembly and verification** (`Csv`, `CsvSpelling`, `RecordEdit`, `RecordScripts`, `Release*`,
`Wheel*`). The CSV dialect of RECORD files, the two loops that edit them, the file manifest's writer and reader,
and the wheel verification.

**The SQLite gate** (`GateWave`, `GateStart`, `GateWorker`, `GateReport`, `Percentile`), **the wheelhouse
identities** (`Requirements`, `RequirementSyntax`, `SchemaSet`), **the verified cache** (`JsonOctets`,
`VerifiedCache`, `VerifiedCacheRuns`, `VerifiedCacheSaves`) and **the identifier lexer** (`Regex`,
`Identifiers`, `IdentifierSpellings`).

Text is a sequence of code points, octets are 8-bit numbers. What the program takes from libraries (case
folding, Unicode normal forms, UUID and date checks, SHA-256) is a parameter; no digest is assumed to be free of
collisions except, in `WheelInstall.InstalledAreTheArchives`, on the contents that are compared. The cache
assumes of its libraries (`JsonOctets.Faithful`) that digests are plain text, that `repr` of a float spells that
float, and that neither a constant such as `NaN` nor the numeral `1e999` is read as a finite number.

Where the code does less than its documentation or its tests suggest, the project follows the code and says so
with a lemma: `EngineCareless.CarelessCallHidesAServingEngine`, `EngineNonce.SpareBitsCollide`,
`WorkspaceGuarantees.RestoredExactly` with `WorkspaceGuarantees.FailedPublishLeavesControl`,
`WorkspaceInitialize.CreatedExactly` with `WorkspaceGuarantees.UnencodableNameLeavesControl`,
`JsonOctets.CanonicalIsFixed` with `JsonOctets.HugeNumberRefused`, `ReleaseAgreement.VerifierAcceptsExactly`
with `ReleaseAgreement.ShoutedManifestRefused`, `GateWave.DeadlockFreeExactly`,
`IdentifierSpellings.PascalTokens`, `VerifiedCacheRuns.HitsPublishedExactly` with
`VerifiedCacheRuns.DamageCanForge`, and `VerifiedCacheRuns.LoadsRaiseExactly` with
`VerifiedCache.InvalidEntryRaises`: the cache's own description says that invalid entries are misses, while its
code lets an error through for some of them.

## Model

| member | source | states |
|---|---|---|
| EngineRuns.StepKeeps | backend/app/engine/client.py:101-303 | the invariant of locks, phases, descriptor, launched children and reported engines survives every step of every call, host and stranger process |
| EngineInvariant.MatchesExactly | backend/app/engine/client.py:298-303 | a descriptor's pid and start identity match exactly while its host lives, although pids are reused |
| EngineTheorems.OneLiveEngine | backend/app/engine/host.py:60-84 | in every interleaving at most one engine is live, and a host is live if and only if it holds the lifetime lock |
| EngineTheorems.LaunchOnlyWhenNoneLives | backend/app/engine/client.py:201-208 | whenever a call launches a child, nobody holds the lifetime lock, no host is live or starting and no descriptor is there |
| EngineTheorems.ServingStaysPublished | backend/app/engine/client.py:386-402 | a serving engine's descriptor is the published one and matches: no reachable step of any call removes it |
| EngineTheorems.StartedOnce | backend/app/engine/client.py:211-219 | two calls that both report having started the same engine are one call |
| EngineTheorems.OverlapReportsTheEngine | backend/app/engine/client.py:101-118 | a call that begins and returns within the life of one engine reports that engine |
| EngineTheorems.ConcurrentEnsures | backend/tools/runtime_windows_release.py:1126-1145 | if all calls were ensures that succeeded and there was one engine, all report it and exactly one says it started it |
| EngineTheorems.StartupEndsReadyOrReaped | backend/app/engine/client.py:208-234 | a call leaves the startup of its child only with the child serving and reported as started, or with the call failed and the child dead |
| EngineTheorems.TerminatedOnlyAtTheDeadline | backend/app/engine/client.py:209-234 | in every run a call turns to killing the child it launched only from a poll that found the child alive with the deadline passed |
| EngineTheorems.StoppedMeansStopped | backend/app/engine/client.py:236-296 | stopped is reported only when the descriptor is gone, the lifetime lock free and nothing is live or starting; after a shutdown the addressed process is dead and no reused pid passes for it |
| EngineTheorems.NotifiedByTheEngine | backend/app/engine/client.py:140-187 | a notification succeeds only by a reply of the serving, published engine that the call itself ensured |
| EngineProgress.ServingEngineIsReported | backend/app/engine/client.py:189-200 | from every state of the invariant with the launch lock free, an undisturbed ensure or notification reaches success: it reports the serving engine as not started and changes nothing else |
| EngineProgress.EngineCanBeStarted | backend/app/engine/client.py:201-222 | with both locks free, whatever descriptor lies there, an ensure or notification reaches success with a fresh host serving and published, reported as started, however often it first polls the child and finds it still starting |
| EngineProgress.EngineCanBeStopped | backend/app/engine/client.py:273-288 | a stop of a serving engine reaches the report that it is stopped, with that host dead, its descriptor gone and the lifetime lock free, however often it first finds the engine still serving |
| EngineProgress.NothingToStop | backend/app/engine/client.py:253-272 | with the lifetime lock free and no process matching the descriptor, an undisturbed stop removes the descriptor and succeeds |
| EngineProgress.IdleEngineGoes | backend/app/engine/host.py:200-273 | an idle engine, with the launch lock free, can leave on its own: it takes that lock, removes its descriptor and ends with both locks free |
| EngineEnds.EngineEndsForAReason | backend/app/engine/host.py:200-273 | in every run a serving engine stops serving only if it is killed or breaks, if a call had asked it to stop and been answered, or if it is idle, not asked to stop and nobody holds the launch lock |
| EngineEnds.HostsRunOut | backend/app/engine/host.py:60-273 | every host takes at most seven steps in any run: each of its steps, and its death, uses up what is left, nothing else gives any back, and until it is dead it can take one |
| EngineCareless.CarelessCallHidesAServingEngine | backend/app/engine/client.py:209-222 | a reachable run in which a call that ends abruptly during startup lets another call remove a serving engine's descriptor: why no call may end there |
| Text.Utf8RoundTrip | backend/app/engine/contracts.py:122-133 | decoding the UTF-8 octets of any text without surrogates gives the text |
| Text.Utf8DecodeExact | backend/app/engine/contracts.py:99-119 | whatever the strict decoder accepts is the encoding of its result: no overlong forms, no second spelling |
| JsonRoundTrip.ParsePrinted | backend/app/engine/contracts.py:99-133 | scanning the printed form of any tree followed by any text gives the tree back and leaves that text |
| JsonRoundTrip.LoadsPrinted | backend/app/engine/contracts.py:99-119 | decoding a printed value with any white space after it gives the value |
| JsonCanonical.StrictExactlyUnique | backend/app/engine/contracts.py:90-96 | the duplicate-key hook is exact at every depth: strict scanning fails beyond plain scanning if and only if some object of the result repeats a key |
| JsonCanonical.LoadsExactlyUnique | backend/app/engine/contracts.py:90-119 | a whole text is refused for a repeated key exactly when there is one at any depth |
| JsonCanonical.CanonicalTextIdentifies | backend/app/engine/contracts.py:122-133 | two values have the same canonical text if and only if they are the same dictionaries, order aside, all the way down |
| JsonCanonical.LoadsDumped | backend/app/engine/contracts.py:99-133 | decoding a canonical dump gives the same dictionary, in key order |
| JsonOrder.OrderIsPythons | backend/app/engine/contracts.py:122-133 | the order of keys is that of texts: a proper prefix comes first, otherwise the first difference decides by code point |
| JsonOrder.DumpIsInOrder | backend/app/engine/contracts.py:122-133 | a value printed as it stands is the canonical text of its dictionary if and only if every object in it lists its keys in increasing order; then it is read back as it was |
| JsonDecides.DecodesExactly | backend/app/engine/contracts.py:90-119 | a text decodes to a value if and only if it is a spelling of that value in the grammar, white space and escapes at will, and, in the strict dialect, no object repeats a key |
| JsonTokens.FloatExactly | backend/app/engine/contracts.py:99-119 | a float is spelled by digits without a leading zero, with a fraction, an exponent or both, and by nothing else |
| JsonTexts.EscapedExactly | backend/app/engine/contracts.py:122-133 | the printer writes each character as itself or by its shortest escape, with lower-case hexadecimal digits |
| JsonOctets.CanonicalIsFixed | backend/app/engine/contracts.py:99-133 | canonicalising an accepted text succeeds if and only if every float of the value that Python builds is finite and none of its texts holds a surrogate; then it keeps the value and changes nothing the second time |
| JsonOctets.HugeNumberRefused | backend/app/engine/contracts.py:99-133 | `{"a":1e999}` is accepted, as an infinity, and canonicalising it is refused |
| JsonOctets.TextGuessed | backend/app/adapters/verified_json_cache.py:27-46 | the octets of a text are taken to be UTF-8 by `json.loads` if and only if the text does not begin with U+FEFF and, with two octets or at least four, no null is among the first two |
| JsonPrefix.TruncatedObjectRefused | backend/app/core/portable/jsonio.py:38-54 | no proper prefix of a printed object is accepted, whichever way repeated keys and constants are treated |
| JsonSize.PrintedSize | backend/app/engine/contracts.py:122-133 | the number of octets of a printed value, from the sizes of its parts, which the frame bounds use |
| JsonEncodable.DumpEncodable | backend/app/engine/contracts.py:122-133 | a dump can be encoded if and only if none of the value's own texts holds a surrogate |
| EngineFrames.CanonicalExactly | backend/app/engine/contracts.py:122-133 | encoding a dictionary fails if and only if a text holds a surrogate or a number has no spelling |
| EngineConstructors.DecodeExactly | backend/app/engine/contracts.py:99-119 | octets decode to a dictionary if and only if there are some, within the limit, and they are the UTF-8 of a text of the grammar for an object without repeated keys |
| EngineWire.DecodeCanonical | backend/app/engine/contracts.py:99-133 | decoding what was encoded within the size limit gives the dictionary back |
| EngineWire.DescriptorRoundTrip | backend/app/engine/contracts.py:156-226 | every constructed descriptor that encodes fits the size its readers accept and decodes to itself |
| EngineWire.DescriptorFits | backend/app/engine/contracts.py:169-216 | an encoded descriptor stays below 16 KiB whatever its process identifier, six octets for every character included |
| EngineConstructors.DescriptorExactly | backend/app/engine/contracts.py:156-198 | the constructor accepts eleven values if and only if they are versions 1, 2 and 0 and the fields of a valid descriptor, each in its place |
| EngineConstructors.DescriptorReadExactly | backend/app/engine/contracts.py:200-226 | octets are read as a descriptor if and only if it is valid and they decode to a dictionary with exactly its eleven entries |
| EngineFrames.DescriptorEncodesExactly | backend/app/engine/contracts.py:200-216 | a descriptor can be written if and only if its pid has a decimal spelling and none of its seven texts holds a surrogate |
| EngineFrames.RequestFits | backend/app/engine/contracts.py:416-420 | every encoded request has at most 2048 octets, so that neither size check of the encoder can fire |
| EngineConstructors.RequestExactly | backend/app/engine/contracts.py:351-414 | a request is accepted if and only if version, identifier, method, nonce and parameters are those of a valid request: a job reference for `job.notify`, nothing otherwise |
| EngineConstructors.RequestRefusals | backend/app/engine/contracts.py:351-414 | a wrong version, an unknown method and a bad job reference have their own errors, each given under exactly one condition |
| EngineFrames.RequestRoundTrip | backend/app/engine/contracts.py:351-433 | encoding succeeds if and only if the request is valid and its identifier encodable, and decoding the frame gives the request that was built |
| EngineResponses.RequestReadExactly | backend/app/engine/contracts.py:351-433 | a frame is read as a request if and only if it holds the five entries of a valid one, in at most 4 KiB where it notifies of a job |
| EngineFrames.ResponseRoundTrip | backend/app/engine/contracts.py:436-489 | data or error come back as the same dictionary under the same request identifier, and no other identifier accepts the frame |
| EngineResponses.ResponseReadExactly | backend/app/engine/contracts.py:464-489 | a frame is read as the response to a request if and only if it is headed by version and identifier and has either data and no error or an error with exactly a code and no data |
| EngineResponses.ResponseWrittenExactly | backend/app/engine/contracts.py:436-461 | a response is written if and only if it has either data or an error with exactly a code, and its frame can be encoded and fits |
| EngineNonce.NonceExactly | backend/app/engine/contracts.py:142-152 | every text of 43 characters of the alphabet is a nonce and decodes to exactly 32 octets: the length check never fires |
| EngineNonce.EncodeDecode | backend/app/engine/contracts.py:142-152 | encoding octets and decoding the text is the identity, for any number of octets |
| EngineNonce.FreshNonceAccepted | backend/app/engine/contracts.py:142-152 | the encoding of any 32 octets is accepted as a nonce and decodes to them |
| EngineNonce.DecodeCollides | backend/app/engine/contracts.py:142-152 | two nonces decode alike if and only if they differ at most in the two bits that the last character does not use |
| EngineNonce.SpareBitsCollide | backend/app/engine/contracts.py:142-152 | two different accepted nonces with the same 32 octets |
| EngineLaunch.LaunchBijection | backend/app/engine/contracts.py:255-347 | octets are accepted as a launch if and only if that launch is built by the constructors and the octets are its encoding: launches and accepted payloads are in bijection |
| EngineResponses.LaunchWrittenExactly | backend/app/engine/contracts.py:274-308 | a launch is written if and only if its canonical line can be encoded and has at most 4 KiB |
| EngineConstructors.LaunchExactly | backend/app/engine/contracts.py:228-347 | the constructors can build a launch if and only if its reference, owner, handoff and authority are valid and authority, job and owner agree |
| EngineConstructors.Uuid7Exactly | backend/app/engine/contracts.py:228-252 | a job identifier carries a UUID exactly of version 7 and the RFC 4122 variant in its canonical lower-case spelling |
| EventStream.StreamJobEvents | backend/app/job_runtime.py:141-174 | after any number of turns, for every way a writer appends, pauses and resumes: a stream that has ended yielded exactly the log above the start as of its last read, which includes all that was committed before the observed wait boundary; an open one has yielded the beginning of it; and if the writer ever settles it is open for no more turns than there is work |
| EventStream.PageThenRest | backend/app/adapters/jobs/sqlite_repository.py:1029-1064 | the rows after a cursor are a first page and the rows after its last event, however the log has grown in between |
| EventStream.RowsAreExact | backend/app/adapters/jobs/sqlite_repository.py:2683-2696 | the rows are exactly the events above the cursor, once each and in increasing order |
| EventStream.LastReadNeeded | backend/app/job_runtime.py:161-172 | a history in which an empty page is followed by a terminal state although events are unread: the read after the boundary is needed |
| JobStates.WaitBoundaryExactly | backend/app/job_runtime.py:706-707 | a stream rests exactly in the states that no legal transition leaves and in the one from which the job can go back into the queue |
| JobStates.TerminalExactly | backend/app/core/jobs/state_machine.py:8-60 | a job is over exactly in the states that no legal transition leaves |
| JobStreams.TerminalSettles | backend/app/core/jobs/state_machine.py:8-60 | with a writer that obeys the transition table, a job that is over stays as it is, its log included |
| JobStreams.StreamOfEndedJobEnds | backend/app/job_runtime.py:141-174 | so a stream of a job that gets over is open for no more turns than there are moments and events left |
| RetryChain.EnvironmentRoundTrip | backend/app/core/packs/events.py:10-108 | a valid Pack environment, printed canonically, parses back to the same packs in the same order |
| RetryChain.DocumentAgain | backend/app/job_runtime.py:337-361 | a Document snapshot that was accepted is accepted again, unchanged, after being stored for the next job |
| RetryChain.VideoAgain | backend/app/core/domain/video.py:30-76 | the same for a Video snapshot, with its stricter parser |
| RetryChain.RetryEventsExactly | backend/app/job_runtime.py:296-384 | collecting the events of a retry succeeds if and only if each kind of snapshot is there at most once and the one there is parses; the first kind of the three that is not in order decides the error |
| RetryChain.RetryKeepsSnapshots | backend/app/job_runtime.py:290-392 | the retried job has the snapshots of the original, each at most once |
| RetryChain.BindingDecided | backend/app/job_runtime.py:634-703 | whether a binding is supported depends on the job's snapshots only, not on its other events |
| RetryChain.SupportedExactly | backend/app/job_runtime.py:634-703 | a binding is supported if and only if it is one of the two old ones, or its recipe, executor and version are known and the job recorded a pack with the id and version it names; each refusal has its own condition |
| RetryChain.OldBindingsSupported | backend/app/job_runtime.py:634-643 | the Document binding and the legacy Video binding are supported whatever events a job has |
| JobSnapshots.EnvironmentExactly | backend/app/core/packs/events.py:10-108 | a payload parses as a Pack environment if and only if it decodes to exactly those packs, all valid and with distinct ids |
| JobSnapshots.VideoExactly | backend/app/core/domain/video.py:30-76 | a payload parses as a Video snapshot if and only if it decodes to exactly version 1, a digest and a length that is not negative |
| JobSnapshots.DocumentExactly | backend/app/job_runtime.py:337-361 | a payload parses as a Document snapshot if and only if the last entries of the object it decodes to are the three of the snapshot |
| Dictionary.LastEntryWins | backend/app/job_runtime.py:337-361 | a dictionary built from repeated keys holds for each key its last value |
| RetryChain.StepKeepsFrozen | backend/app/adapters/jobs/sqlite_repository.py:1950-2053 | every action on the repository keeps bindings, snapshots and ancestry in order |
| RetryChain.RetriesInheritForever | backend/app/job_runtime.py:290-392 | at every depth of every chain of retries in every history: the ancestor's binding, its snapshots each at most once, the same verdict on the binding, no retry fails over its snapshots, and the job can be executed if and only if the ancestor's binding is carried out by the release with the packs that the ancestor recorded |
| RetryRequests.RetryExactly | backend/app/adapters/jobs/sqlite_repository.py:1950-2053 | in every state of every history a retry succeeds if and only if the request is well formed, the original is terminal in the expected state, the confirmed operations are exactly its unknown ones, and the request id is new or was used to retry this job under the same configuration |
| RetryRequests.RefusedExactly | backend/app/adapters/jobs/sqlite_repository.py:1950-2053 | each refusal of a retry, with its own error, is characterised by what is wrong with the request or the original; a conflict is a first job with that request id and another request, another original or other snapshots |
| RetryRequests.RetriedJob | backend/app/adapters/jobs/sqlite_repository.py:1950-2053 | a new request id appends one queued job with the original's request, binding and snapshots, its own configuration and no unknown operation; no other job changes |
| RetryRequests.RetryIsIdempotent | backend/app/adapters/jobs/sqlite_repository.py:2007-2053 | a retry that succeeds, sent once more at once, answers with the same job and changes nothing |
| WorkspaceInit.Preflight | backend/app/workspace_initializer.py:135-162 | success means that no contract path is a link or a file where a directory belongs, and without faults the converse |
| WorkspaceInit.MakeParents | backend/app/workspace_initializer.py:293 | which directories have been made and which is missing at whatever operation fails; success only if everything on the path was a directory, and then always without faults |
| WorkspaceTransaction.PrepareRoot | backend/app/workspace_initializer.py:291-293 | the root stage for every fault: what was made, what is remembered of it, and the exact error without faults |
| WorkspaceTransaction.PrepareControl | backend/app/workspace_initializer.py:294-296 | the same for the control directory, which is remembered as created whenever it was |
| WorkspaceTransaction.MakeContract | backend/app/workspace_initializer.py:311-315 | exactly the remembered contract directories were made, and all seven are there on success |
| WorkspaceManifest.ManifestEncodesExactly | backend/app/workspace_initializer.py:176-200 | the manifest has octets if and only if neither the identifier nor the name holds a surrogate |
| WorkspaceManifest.ManifestDetermines | backend/app/workspace_initializer.py:176-200 | the octets of a manifest determine the identifier and the name, whatever quotes, backslashes and line breaks the name holds |
| WorkspaceTransaction.WriteTemporary | backend/app/workspace_initializer.py:318-322 | whatever part of writing fails, the encoding of the manifest included, at most a temporary file is left, in a control directory that was empty; it succeeds exactly when nothing fails and the manifest has octets |
| WorkspaceTransaction.MoveIntoPlace | backend/app/workspace_initializer.py:323-325 | publication is atomic: before it no manifest, after it the complete one with every contract directory there |
| WorkspaceTransaction.Publish | backend/app/workspace_initializer.py:317-332 | what is left and what is remembered after publication, for every fault; without faults the result is the verdict on the name and on what opening the published tree answers |
| WorkspaceInitialize.Attempt | backend/app/workspace_initializer.py:283-332 | the whole attempt for every fault; without faults its result is the verdict on the tree, error by error |
| WorkspaceInitialize.CreatedExactly | backend/app/workspace_initializer.py:290-332 | a workspace is created exactly where the name is not blank, name and identifier can be encoded, contract paths and the path above are ordinary, no manifest is there, the control directory is absent or empty, and opening the published tree finds that identifier and that name |
| WorkspaceInitialize.UnencodableNameFails | backend/app/workspace_initializer.py:317-322 | on every startable tree a name with a lone surrogate ends in the error of a failed creation |
| WorkspaceVerdict.ReopenedExactly | backend/app/workspace_initializer.py:203-301 | without faults a call answers with an existing workspace and `created` false if and only if the name is not blank, all paths are ordinary, manifest and contract directories are there and opening finds that identifier and that name |
| WorkspaceVerdict.SucceedsExactly | backend/app/workspace_initializer.py:283-332 | the answers of a call that succeeds are exactly those: the name asked for, the identifier that opening finds, created exactly where no manifest was |
| WorkspaceVerdict.FailsExactly | backend/app/workspace_initializer.py:283-332 | each of the six errors has its own condition on name and tree |
| WorkspaceVerdict.StaysInitialized | backend/app/workspace_initializer.py:203-332 | on the tree that a successful call leaves, a call under the same name answers with the same workspace, not created |
| WorkspaceRollback.RemoveCreated | backend/app/workspace_initializer.py:226-231 | removes the contract directories this call made, latest first, and nothing that was there before |
| WorkspaceRollback.RemoveOuters | backend/app/workspace_initializer.py:340-343 | nothing from before is removed; without faults the control directory and the root go exactly if this call made them and nothing is left in them |
| WorkspaceRollback.RemoveManifest | backend/app/workspace_initializer.py:334-338 | the published manifest is taken back before any directory goes, or is reported as stuck |
| WorkspaceGuarantees.RollBack | backend/app/workspace_initializer.py:333-366 | a roll-back without faults leaves exactly the stated residue, from wherever the attempt stopped |
| WorkspaceGuarantees.InitializeWorkspace | backend/app/workspace_initializer.py:234-367 | at every kill point and through every roll-back all that was there is still there, and a manifest implies all contract directories, except exactly when the manifest could not be taken back and a directory then was; without faults the result, errors included, is the verdict on the tree, and a success leaves exactly the tree with the missing directories and the manifest |
| WorkspaceGuarantees.InitializeTwice | backend/app/workspace_initializer.py:234-367 | two calls under one name without faults: the second answers with the workspace of the first, not created, and changes nothing |
| WorkspaceGuarantees.CreatedAreGone | backend/app/workspace_initializer.py:339-339 | no contract directory that the failed call made is left |
| WorkspaceGuarantees.RestoredExactly | backend/app/workspace_initializer.py:339-366 | the tree is what it was if and only if nothing above the root had to be made and no temporary file was left in a control directory made by this call, because the file goes after the directory's removal |
| WorkspaceGuarantees.FailedPublishLeavesControl | backend/app/workspace_initializer.py:317-366 | a call that does not restore: on every startable tree without a control directory, one fault at writing the temporary file or at moving it makes the call fail and leave the control directory it made |
| WorkspaceGuarantees.UnencodableNameLeavesControl | backend/app/workspace_initializer.py:317-366 | the same without any fault: a call with a name that holds a lone surrogate, the one of `SurrogateNameIsUnencodable` among them, fails and leaves the control directory it made |
| WorkspaceGuarantees.CanStartAgain | backend/app/workspace_initializer.py:290-315 | where initialisation could start before a failed call, it can start after it |
| Csv.RowsRoundTrip | backend/tools/runtime_windows_release.py:706-710 | all rows whose fields hold no line break, rows of no field, of one empty field and of one field included, are read back as they were written, quotes and commas included |
| CsvSpelling.SpelledRowsRead | backend/tools/runtime_windows_release.py:697-702 | a text that spells rows in any way of the dialect, fields quoted or not and each row ended by any line break or the end, is read as those rows |
| RecordEdit.RewrittenReadsBack | backend/tools/runtime_windows_release.py:697-710 | no field that was read holds a line break, so a RECORD rewritten from its own rows always reads back as them |
| RecordEdit.RoundTripExactly | backend/tools/runtime_windows_release.py:697-710 | rows are read back as they were written if and only if no field holds a line break |
| RecordEdit.WithoutCounts | backend/tools/runtime_windows_release.py:703-705 | one row fewer means that exactly one row named the file and that row is gone, and no other path lost a row |
| RecordEdit.RemoveDirectUrlMetadata | backend/tools/runtime_windows_release.py:689-711 | the loop succeeds exactly when the listing has the expected length and every edit is clean; whether it succeeds or raises, the files are those after the rounds before the first that fails |
| RecordEdit.RemainsExactly | backend/tools/runtime_windows_release.py:711-711 | metadata remains if and only if a file of that name is left in any directory at any depth |
| RecordEdit.DistExactly | backend/tools/runtime_windows_release.py:690-690 | the directories that the pattern `*.dist-info` finds are those directly in site-packages whose name ends so |
| RecordEdit.EditedKeepsBound | backend/tools/runtime_windows_release.py:689-711 | wherever the loop stops, each deleted metadata file has lost exactly its own row, all other rows stay in order, and rows and files stay one to one |
| RecordScripts.RemovePipConsoleScripts | backend/tools/runtime_windows_release.py:714-748 | succeeds exactly when the scripts are the expected ones and each is bound by one row of all RECORDs; nothing is touched otherwise |
| RecordScripts.ScriptsRemovedKeepsBound | backend/tools/runtime_windows_release.py:714-748 | the scripts and exactly their rows are gone, other rows keep their order, every file but a RECORD keeps its content, and rows and files are one to one again, `../../bin/x` naming `bin/x` |
| ReleasePaths.ManifestIsPortable | backend/tools/runtime_windows_release.py:1277-1292 | the manifest's own path passes the path check |
| ReleasePaths.PortableExactly | backend/tools/runtime_windows_release.py:1277-1292 | a path passes the check if and only if it is short, in normal form and not absolute, and none of its pieces is `..`, ends in a dot or a space or holds a backslash or a colon |
| ReleaseManifest.CandidateFileRows | backend/tools/runtime_windows_release.py:1326-1379 | the walk gives rows exactly if every entry is acceptable, no two paths fold together and no limit is passed, and then sorted rows of all files |
| ReleaseVerify.ManifestRows | backend/tools/runtime_windows_release.py:1440-1483 | the reader returns rows if and only if the header is right, every item describes one row, and the rows are sorted, portable, distinct up to case and add up |
| ReleaseBijection.ManifestBijection | backend/tools/runtime_windows_release.py:1406-1483 | octets are accepted as a manifest with certain rows if and only if the rows are admissible and the octets are their canonical text within the size limit: manifests and row lists are in bijection |
| ReleaseAgreement.ScanInOrder | backend/tools/runtime_windows_release.py:1326-1390 | rows of a scan satisfy every check of the manifest reader |
| ReleaseAgreement.ControlReadsBack | backend/tools/runtime_windows_release.py:1406-1437 | a canonical control file reads back if and only if it has at most 16 MiB |
| ReleaseAgreement.Rescan | backend/tools/runtime_windows_release.py:1326-1379 | listing the tree again with its manifest in it, wherever the sorted walk puts it, gives the same rows exactly when one more entry fits and no other path folds to the manifest's |
| ReleaseAgreement.VerifierAcceptsExactly | backend/tools/runtime_windows_release.py:1614-1638 | the verifier accepts what the assembler wrote, wherever the manifest is listed, if and only if the manifest has at most 16 MiB, the tree with it at most 100 000 entries, and its path is free up to case |
| ReleaseAgreement.ShoutedManifestRefused | backend/tools/runtime_windows_release.py:1614-1638 | a tree that the assembler lists and the verifier refuses: one with a file whose path folds to the manifest's |
| WheelInstall.RecordEntries | backend/tools/runtime_windows_release.py:751-788 | entries are returned exactly for RECORD files whose rows are all well formed and name no path twice, and they are what the rows say |
| WheelRecord.RowEntryExactly | backend/tools/runtime_windows_release.py:763-787 | a row says something if and only if its path is portable and it is the blank row of the RECORD itself or a digest that reads and the decimal spelling of a size |
| WheelRecord.FileLineReads | backend/tools/runtime_windows_release.py:763-787 | the RECORD line of a file, path, `sha256=` with the digest and decimal size, is read as that digest and size |
| WheelRecord.WrittenRecordReads | backend/tools/runtime_windows_release.py:751-788 | a RECORD written for a set of files is read as exactly their digests and sizes and its own blank row |
| WheelInstall.WheelDetermined | backend/tools/runtime_windows_release.py:803-907 | what a verification establishes about a wheel is determined by the wheel and the installation |
| WheelInstall.InstalledAreTheArchives | backend/tools/runtime_windows_release.py:858-870 | unless two compared contents have one digest, every installed source file is the archive's, octet for octet |
| WheelVerify.CheckWheel | backend/tools/runtime_windows_release.py:803-886 | a wheel passes if and only if it is the locked one, its RECORD binds exactly its files, and the installed RECORD and files are those with INSTALLER and REQUESTED |
| WheelVerify.Collide | backend/tools/runtime_windows_release.py:887-892 | the loop passes if and only if the new paths are disjoint from all before and no two agree up to case |
| WheelVerify.VerifyWheelInstall | backend/tools/runtime_windows_release.py:791-931 | a report is returned if and only if the installed files are exactly the union of the wheels' RECORD paths with INSTALLER and REQUESTED, pairwise disjoint even up to case, with the archives' sizes and digests; installed files are the source files and three per wheel |
| WheelComplete.InstallationIsExplained | backend/tools/runtime_windows_release.py:791-931 | every installation made of the files of locked wheels, INSTALLER, REQUESTED and RECORDs written for them is accepted: the facts of its wheels explain it |
| WheelComplete.ReportSays | backend/tools/runtime_windows_release.py:893-931 | line by line the report on such an installation: file name, archive digest, digests of both RECORDs, files of the wheel and three more |
| WheelComplete.TopRecordExactly | backend/tools/runtime_windows_release.py:818-823 | the path test for RECORD accepts exactly `RECORD` in a top-level directory whose name ends in `.dist-info` |
| WheelAttestation.ReportAttests | backend/tools/runtime_windows_release.py:1545-1611 | a report of the verification passes the attestation check if and only if the lock's file names are bare |
| WheelAttestation.AttestedMeans | backend/tools/runtime_windows_release.py:1545-1611 | an accepted attestation is about the locked wheels in their order, and its totals are those of its lines |
| WheelAttestation.EveryFileHasOneWheel | backend/tools/runtime_windows_release.py:908-913 | every file found in the installation comes from exactly one locked wheel |
| Percentile.PercentileIsLeast | backend/app/runtime_sqlite_gate.py:403-411 | for every non-empty sample and percentage the index is in range and the value there is the least of the sample with at least that percentage at or below it |
| Percentile.SummaryOrdered | backend/tools/runtime_windows_release.py:1119-1120 | median, p95 and maximum are ordered, the maximum bounds the sample, and p95 is the value that the release gate computes on its own, once rounded |
| Percentile.SummaryExactly | backend/app/runtime_sqlite_gate.py:403-420 | count, median, p95 and maximum of every sample, each by what it means, and zeroes for the empty one |
| GateWave.RunKeeps | backend/app/runtime_sqlite_gate.py:306-400 | parent, workers, events and log stay in agreement along every interleaving of a wave, whichever stores fail to open and whichever waits time out |
| GateStart.StartedInOrder | backend/app/runtime_sqlite_gate.py:306-400 | in every run a worker that goes on without having given up has been sent its start message: the parent has come past it in the start phase |
| GateWave.DeadlockFreeExactly | backend/app/runtime_sqlite_gate.py:117-270 | without timeouts a wave never gets stuck if and only if it is not the checkpoint mode, or the checkpointer's store opens and there is one worker or some writer's first write commits, or that store does not open and no writer's first write commits |
| GateWave.WaveReturns | backend/app/runtime_sqlite_gate.py:306-400 | then, and in every wave whose waits may time out, every run can be carried on to the parent's return within a fixed number of steps |
| GateWave.RunsAreBounded | backend/app/runtime_sqlite_gate.py:306-400 | every run is at most as long as the work of the initial state, since each step does some of it |
| GateWave.ReturnedLog | backend/app/runtime_sqlite_gate.py:306-400 | when the parent has returned, each worker's writes in the log are exactly those of its operations that commit, each once, up to the operation at which its store or a wait stopped it, and the checkpoints are those of a checkpointer that was not stopped |
| GateWave.OverlapOrder | backend/app/runtime_sqlite_gate.py:117-270 | every checkpoint follows a committed write, and the later writes of a writer whose first write commits follow the start of the checkpoints |
| GateReport.CheckpointTotalExactly | backend/app/runtime_sqlite_gate.py:627-665 | the checkpoint gate's total of writes, (n - 1) * k, is never exceeded and is reached if and only if every writer was started, opened its store, met the checkpoints and committed all its writes |
| GateReport.CheckpointGateExactly | backend/app/runtime_sqlite_gate.py:627-665 | the checkpoint report passes if and only if the run of every worker was flawless |
| GateReport.ReportsTheLog | backend/app/runtime_sqlite_gate.py:117-400 | each worker reports exactly as many writes as it has commits in the log of the run, and the checkpointer as many latencies as there are checkpoints, whichever stores failed to open, operations failed or waits timed out |
| GateReport.TotalIsTheLog | backend/app/runtime_sqlite_gate.py:601-703 | in every such run the total is the demanded one if and only if every write of every writer is in the log |
| GateReport.PassingMeansOverlap | backend/app/runtime_sqlite_gate.py:601-703 | a passing report means: every store opened and no wait timed out, every write of every writer committed, every checkpoint follows a committed write, and all later writes of a writer follow the start of the checkpoints |
| GateWorker.GateWorker | backend/app/runtime_sqlite_gate.py:117-270 | the report counts exactly the attempts made, by kind and outcome, in every mode, for every timeout and for a start message that does not come |
| GateWorker.EachAttemptOnce | backend/app/runtime_sqlite_gate.py:163-262 | each attempt is a success of its kind, a busy or an error, and only one of them, and has one latency |
| GateWorker.MixedAlternates | backend/app/runtime_sqlite_gate.py:516-598 | a mixed worker makes ceil(k / 2) writes and floor(k / 2) reads |
| GateWorker.MixedGateExactly | backend/app/runtime_sqlite_gate.py:516-598 | the two totals of the mixed gate are never exceeded and are reached if and only if every attempt of every worker succeeded |
| Requirements.IdentityExactly | backend/tools/runtime_wheelhouse_release.py:78-151 | two requirements have one identity if and only if their names agree after PEP 503 normalisation and they have the same specifiers, each as often |
| Requirements.DependencyIdentities | backend/tools/runtime_wheelhouse_release.py:154-179 | the dictionary is returned exactly if all requirements parse and name different distributions, and holds exactly their identities |
| Requirements.SameMeaningExactly | backend/tools/runtime_wheelhouse_release.py:141-151 | texts with the same identity are those with the same name and specifiers, white space and order aside |
| RequirementSyntax.ParsesExactly | backend/tools/runtime_wheelhouse_release.py:141-151 | a text without white space parses as a name and specifiers if and only if it is spelled as that name followed by the specifiers with commas between |
| RequirementSyntax.SpecifierExactly | backend/tools/runtime_wheelhouse_release.py:44-47 | a specifier is one of the eight operators of PEP 440 followed by a version, and nothing else |
| RequirementSyntax.CanonicalOfWords | backend/tools/runtime_wheelhouse_release.py:78-81 | a name made of words with any runs of separators between normalises to the words in lower case with single hyphens |
| RequirementSyntax.SameNameExactly | backend/tools/runtime_wheelhouse_release.py:78-81 | two such names normalise alike if and only if their words agree up to case and both or neither end in a separator |
| Requirements.DictionariesExactly | backend/tools/runtime_wheelhouse_release.py:154-179 | two lists give equal dictionaries if and only if each requirement of either has its match in the other |
| SchemaSet.Feed | backend/tools/runtime_wheelhouse_release.py:323-350 | the digest is fed the framed schemas in order, or the loop fails, exactly when a schema is missing or too long for its length field |
| SchemaSet.PreimageDetermines | backend/tools/runtime_wheelhouse_release.py:331-350 | the octets that are digested determine every name and every content, in order |
| SchemaSet.BigEndianSpells | backend/tools/runtime_wheelhouse_release.py:331-350 | a length field holds the length, most significant octet first |
| SchemaSet.DigestExactly | backend/tools/runtime_wheelhouse_release.py:323-350 | two schema sets feed the digest the same octets if and only if they have the same names with the same contents |
| VerifiedCache.HitExactly | backend/app/adapters/verified_json_cache.py:27-46 | a file is a hit with a value, order aside, if and only if it is within the limit and decodes to the envelope that `save` builds for the key and the value |
| VerifiedCache.LoadRaisesExactly | backend/app/adapters/verified_json_cache.py:27-46 | `load` raises if and only if the file is within the limit, its envelope has the right shape and the key, and its value holds a lone surrogate or a number that is not finite, whatever its digest says |
| VerifiedCache.InvalidEntryRaises | backend/app/adapters/verified_json_cache.py:27-46 | for every key a file with a lone surrogate and a file with `NaN` on which `load` raises instead of missing |
| VerifiedCache.SaveRaisesExactly | backend/app/adapters/verified_json_cache.py:48-66 | sealing raises if and only if the value holds a surrogate, a number that is not finite or an integer too long to print |
| VerifiedCache.TooLongExactly | backend/app/adapters/verified_json_cache.py:48-66 | a value that can be encoded is too long to save if and only if its envelope, by the sizes of its parts, exceeds 32 MiB |
| VerifiedCache.KeyExactly | backend/app/adapters/verified_json_cache.py:27-72 | keys are exactly `sha256:` followed by 64 lower-case hexadecimal digits |
| VerifiedCache.SealedOpens | backend/app/adapters/verified_json_cache.py:27-72 | opening a sealed value under its key gives the dictionary that was sealed |
| VerifiedCache.TruncationMisses | backend/app/adapters/verified_json_cache.py:27-46 | a file cut short anywhere but at its final line feed is a miss for every key |
| VerifiedCacheRuns.HitsPublishedExactly | backend/app/adapters/verified_json_cache.py:27-72 | with any number of saves, faults at any step and any damage: every hit of a run was published by a save for that key, if and only if no octets that no save sealed ever come into a file and decode to the envelope of a value not published by then |
| VerifiedCacheRuns.LoadsRaiseExactly | backend/app/adapters/verified_json_cache.py:27-72 | no load of a run raises, if and only if no such octets are an envelope for the file's key with a value that cannot be encoded |
| VerifiedCacheRuns.PublishedUntilTouched | backend/app/adapters/verified_json_cache.py:27-72 | the file that a save published is a hit with its value for as long as nothing changes that file |
| VerifiedCacheRuns.CleanEndLeavesNothing | backend/app/adapters/verified_json_cache.py:48-72 | a save that ended with its clean-up done, or by raising, has left no temporary file of its own |
| VerifiedCacheSaves.FaultPublishesNothing | backend/app/adapters/verified_json_cache.py:48-72 | a save that met a fault before its clean-up publishes nothing in the rest of the run |
| VerifiedCacheSaves.RaisedOnlyUnencodable | backend/app/adapters/verified_json_cache.py:48-72 | in every run a save raises only for a value that cannot be encoded, never for one that is too long |
| VerifiedCacheSaves.OnlyKeysAreFound | backend/app/adapters/verified_json_cache.py:27-46 | a load of anything that is no key, or of a key without a file, is a miss |
| VerifiedCacheSaves.PartialWrite | backend/app/adapters/verified_json_cache.py:57-62 | a write that fails leaves the octets written so far in the temporary file and turns to the clean-up, one that succeeds leaves all of them |
| VerifiedCacheRuns.FaultFreeSaveIsLoaded | backend/app/adapters/verified_json_cache.py:48-72 | a save without faults publishes its value, cleans up and is loaded back, from every state |
| VerifiedCacheRuns.DamageCanForge | backend/app/adapters/verified_json_cache.py:27-46 | for every key and every value that can be saved there is a run without any save in which damage makes it a hit, so that not every hit was published |
| Regex.ManyGivesBack | backend/app/core/sensitive_identifiers.py:35-38 | a greedy repetition offers the whole run first and then gives back one character at a time |
| Identifiers.FirstMatch | backend/app/core/sensitive_identifiers.py:36-38 | the backtracking expression's preferred match from any position ends at the scanner's next boundary |
| Identifiers.LexerIsScanner | backend/app/core/sensitive_identifiers.py:41-46 | on every alphanumeric segment the matches of the expression are the pieces of a one-pass scanner |
| Identifiers.LexerLossless | backend/app/core/sensitive_identifiers.py:41-46 | the matches are not empty and put together give the segment |
| IdentifierSpellings.JoinedTokens | backend/app/core/sensitive_identifiers.py:41-46 | words joined by any character outside `[A-Za-z0-9]`, in either case, read back as the words |
| IdentifierSpellings.PascalTokens | backend/app/core/sensitive_identifiers.py:41-46 | PascalCase reads back as its words if and only if no two words of one letter follow each other |
| IdentifierSpellings.CamelTokens | backend/app/core/sensitive_identifiers.py:41-46 | camelCase does so if and only if no two words of one letter follow each other after the first word |
| IdentifierSpellings.SpellingsAgree | backend/app/core/sensitive_identifiers.py:49-59 | the verdict on an identifier is the same for its words joined by a separator that normalising drops, as it does every ASCII one (`AsciiDropped`), in PascalCase and in camelCase, unless two words of one letter follow each other; it is sensitive if and only if the words put together are a field name, or one of them is a sensitive token, or `key` stands with a qualifier |

## Left out

- Engine: the early return of `stop` for a missing instance root, a host that still answers while its threads are joined, and the second wait after a kill are not modelled; reading and unlinking the stale descriptor is one step; the theorems assume that no call ends between launching a child and disposing of it, and `EngineCareless` shows why.
- Engine: time is a choice of the environment: a deadline may pass at any point of a loop, so nothing is said about how long a call takes.
- Codec: the nesting limit of the interpreter is not modelled; a float is kept as a spelling; UUID, ISO date and `isdecimal` checks are parameters.
- Event stream: the loop is given a number of turns, which may be any; `wait_for_job` would add only easy members.
- Retries: how operations come to be of unknown outcome (any set of them may be unknown at any time), the projection checks of `get_job`, the printing of the current configuration and the check of payload keys for sensitive names are not modelled; the collection of events is a function, so the order of its two queries is not.
- Workspace: taking the initialisation lock, its own directory, links above the root and the trimming of the name are not modelled; what `open_workspace` answers about a tree is a parameter, and where creation depends on it the contract names the one published tree that is asked about (`OpensOwn`).
- Release: the CSV field size limit, the inventory and builder parts of the attestations, archive member limits (an archive is refused or gives its members) and changes of a file while it is read are not modelled; directory listings are inputs in the order of `os.walk`; the base64 digest of a RECORD row is a parameter.
- Gate: SQLite itself, real pipes and clocks are not modelled; the waits of workers may time out at any moment or never, while the parent's own time limits and a worker whose pipe is closed are left out; latencies are counted, their values matter in `Percentile` only, on exact numbers with any monotone rounding.
- Wheelhouse: the metadata parser and the wheel contents are not modelled; white space is a parameter and names are ASCII.
- Cache: the reparse-point check and making the directory are steps that may fail; the decoders for octets that `json.loads` takes to be UTF-16, UTF-32 or marked UTF-8 are a parameter; values that are no JSON at all, and the nesting and memory limits of the interpreter, are not modelled.
