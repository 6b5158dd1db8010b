/** Over any chain of retries the snapshots stay what they were, and so does what they allow. */
module RetryChain {
  import opened Text
  import opened Json
  import opened JsonRoundTrip
  import opened JsonCanonical
  import opened JsonReprint
  import opened Dictionary
  import opened JobStates
  import opened JobRetry

  // ---------------------------------------------------------------- snapshots through canonical text

  lemma ScalarLookups(f: seq<Field>)
    requires DistinctKeys(f) && forall i | 0 <= i < |f| :: !f[i].value.Arr? && !f[i].value.Obj?
    ensures KeySet(Received(f)) == KeySet(f)
    ensures forall k | k in KeySet(f) :: Get(Received(f), k) == Get(f, k)
  {
    hide Received;
    ReceivedLookup(f);
    forall k | k in KeySet(f) ensures Sorted(Get(f, k)) == Get(f, k) {
      var i :| 0 <= i < |f| && f[i].key == k && f[i].value == Get(f, k);
    }
  }

  lemma LoadsCanonical(f: seq<Field>, d: Dialect)
    requires UniqueKeys(Obj(f)) && Spellable(Obj(f))
    ensures Loads(Print(Sorted(Obj(f))), d) == Ok(Obj(Received(f)))
    ensures UniqueKeys(Obj(Received(f)))
  {
    hide Print, UniqueKeys, Spellable, Readable;
    var v := Obj(f);
    SortedKeeps(v);
    SpellableIsReadable(Sorted(v));
    LoadsPrinted(Sorted(v), [], d);
    assert Print(Sorted(v)) + [] == Print(Sorted(v));
  }

  lemma InputLookups(x: InputSnapshot)
    ensures var f := InputFields(x);
      DistinctKeys(f) && KeySet(f) == InputKeys()
      && Get(f, KEY_SCHEMA_VERSION) == Int(x.schemaVersion) && Get(f, KEY_SHA256) == Text(x.sha256)
      && Get(f, KEY_BYTE_LENGTH) == Int(x.byteLength)
  {
    var f := InputFields(x);
    assert |KEY_SCHEMA_VERSION| == 14 && |KEY_SHA256| == 6 && |KEY_BYTE_LENGTH| == 11;
    assert f[0].key == KEY_SCHEMA_VERSION && f[1].key == KEY_SHA256 && f[2].key == KEY_BYTE_LENGTH;
    GetAt(f, 0);
    GetAt(f, 1);
    GetAt(f, 2);
  }

  lemma InputDecided(f: seq<Field>, g: seq<Field>)
    requires KeySet(f) == KeySet(g) && forall k | k in KeySet(f) :: Get(f, k) == Get(g, k)
    ensures InputFromFields(f) == InputFromFields(g)
  {
    hide Get, KeySet;
  }

  lemma InputRoundTrip(x: InputSnapshot, d: Dialect)
    requires IntFits(x.schemaVersion) && IntFits(x.byteLength)
    ensures var r := Loads(Print(Sorted(Obj(InputFields(x)))), d);
      r.Ok? && r.value.Obj? && DistinctKeys(r.value.fields) && InputFromFields(r.value.fields) == Some(x)
  {
    var f := InputFields(x);
    InputLookups(x);
    ScalarLookups(f);
    LoadsCanonical(f, d);
    hide Received, Get, KeySet, Print, Sorted, Loads, UniqueKeys, IntFits, Lit;
    InputDecided(Received(f), f);
    assert InputFromFields(f) == Some(x);
    UniqueDistinct(Received(f));
  }

  lemma UniqueDistinct(f: seq<Field>)
    requires UniqueKeys(Obj(f))
    ensures DistinctKeys(f)
  {
  }

  /** Accepted documents hold integers that can be printed again. */
  lemma DocumentFits(payload: Str)
    requires ParseDocument(payload).Some?
    ensures var x := ParseDocument(payload).value; IntFits(x.schemaVersion) && IntFits(x.byteLength)
  {
    ParsedReadable(SkipSpace(payload), PYTHON);
    hide ParseValue, IntFits, IsFloatSpelling, IsConstant, Lit;
    var f := Loads(payload, PYTHON).value.fields;
    assert Readable(Obj(f), true);
    FieldsFit(f, LastEntries(f));
  }

  /** The integers of a snapshot that was read from entries that can be printed. */
  lemma FieldsFit(f: seq<Field>, g: seq<Field>)
    requires Readable(Obj(f), true) && (forall i | 0 <= i < |g| :: g[i] in f) && InputFromFields(g).Some?
    ensures IntFits(InputFromFields(g).value.schemaVersion) && IntFits(InputFromFields(g).value.byteLength)
  {
    hide IntFits, IsFloatSpelling, IsConstant, Lit;
    var i :| 0 <= i < |g| && g[i].key == KEY_SCHEMA_VERSION && g[i].value == Get(g, KEY_SCHEMA_VERSION);
    var j :| 0 <= j < |g| && g[j].key == KEY_BYTE_LENGTH && g[j].value == Get(g, KEY_BYTE_LENGTH);
    assert g[i] in f && g[j] in f;
  }

  lemma VideoFits(payload: Str)
    requires ParseVideo(payload).Some?
    ensures var x := ParseVideo(payload).value; IntFits(x.schemaVersion) && IntFits(x.byteLength)
  {
    ParsedReadable(SkipSpace(payload), UNIQUE);
    hide ParseValue;
    var f := Loads(payload, UNIQUE).value.fields;
    var i :| 0 <= i < |f| && f[i].key == KEY_SCHEMA_VERSION && f[i].value == Get(f, KEY_SCHEMA_VERSION);
    var j :| 0 <= j < |f| && f[j].key == KEY_BYTE_LENGTH && f[j].value == Get(f, KEY_BYTE_LENGTH);
    assert f[i] in f && f[j] in f;
  }

  lemma DocumentAgain(payload: Str)
    requires ParseDocument(payload).Some?
    ensures ParseDocument(Print(Sorted(Obj(InputFields(ParseDocument(payload).value))))) == ParseDocument(payload)
  {
    DocumentFits(payload);
    var x := ParseDocument(payload).value;
    InputRoundTrip(x, PYTHON);
    hide InputFromFields, Print, Sorted, Loads;
    LastDistinct(Loads(Print(Sorted(Obj(InputFields(x)))), PYTHON).value.fields);
  }

  lemma VideoAgain(payload: Str)
    requires ParseVideo(payload).Some?
    ensures ParseVideo(Print(Sorted(Obj(InputFields(ParseVideo(payload).value))))) == ParseVideo(payload)
  {
    VideoFits(payload);
    var x := ParseVideo(payload).value;
    InputRoundTrip(x, UNIQUE);
  }

  lemma PackLookups(p: Pack)
    ensures var f := PackFields(p);
      DistinctKeys(f) && KeySet(f) == PackKeys()
      && Get(f, KEY_PACK_ID) == Text(p.id) && Get(f, KEY_PACK_VERSION) == Text(p.version)
      && Get(f, KEY_PLATFORM) == Text(p.platform) && Get(f, KEY_MANIFEST_SHA256) == Text(p.manifest)
  {
    var f := PackFields(p);
    assert |KEY_PACK_ID| == 7 && |KEY_PACK_VERSION| == 12 && |KEY_PLATFORM| == 8 && |KEY_MANIFEST_SHA256| == 15;
    assert f[0].key == KEY_PACK_ID && f[1].key == KEY_PACK_VERSION && f[2].key == KEY_PLATFORM
      && f[3].key == KEY_MANIFEST_SHA256;
    hide Lit, Get;
    GetAt(f, 0);
    GetAt(f, 1);
    GetAt(f, 2);
    GetAt(f, 3);
  }

  lemma PackReceived(p: Pack)
    ensures PackFromJson(Sorted(Obj(PackFields(p)))) == Some(p)
    ensures UniqueKeys(Obj(PackFields(p))) && Spellable(Obj(PackFields(p)))
  {
    PackLookups(p);
    ScalarLookups(PackFields(p));
    assert Sorted(Obj(PackFields(p))) == Obj(Received(PackFields(p)));
    PackScalars(p);
    hide Get, KeySet, Sorted, Received, PackFields, UniqueKeys, Spellable, DistinctKeys;
  }

  lemma PackScalars(p: Pack)
    requires DistinctKeys(PackFields(p))
    ensures UniqueKeys(Obj(PackFields(p))) && Spellable(Obj(PackFields(p)))
  {
    hide DistinctKeys;
  }

  lemma {:induction false} PacksReceived(packs: seq<Pack>)
    ensures PacksFromJson(SortedItems(PacksJson(packs))) == Some(packs)
  {
    if packs != [] {
      PacksFirst(packs);
      PackReceived(packs[0]);
      PacksReceived(packs[1..]);
      var items := SortedItems(PacksJson(packs));
      hide PackFromJson, Sorted, PackFields, SortedItems, PacksJson;
      assert PackFromJson(items[0]) == Some(packs[0]) && PacksFromJson(items[1..]) == Some(packs[1..]);
      assert packs == [packs[0]] + packs[1..];
    }
  }

  lemma PacksFirst(packs: seq<Pack>)
    requires packs != []
    ensures var items := SortedItems(PacksJson(packs));
      items != [] && items[0] == Sorted(Obj(PackFields(packs[0]))) && items[1..] == SortedItems(PacksJson(packs[1..]))
  {
    hide Sorted, PackFields;
    assert PacksJson(packs)[1..] == PacksJson(packs[1..]);
  }

  lemma EnvironmentWellFormed(packs: seq<Pack>)
    ensures UniqueKeys(Obj(EnvironmentFields(packs))) && Spellable(Obj(EnvironmentFields(packs)))
  {
    var items := PacksJson(packs);
    forall i | 0 <= i < |packs| ensures UniqueKeys(items[i]) && Spellable(items[i]) { PackReceived(packs[i]); }
    assert UniqueKeys(Arr(items)) && Spellable(Arr(items));
    assert |KEY_SCHEMA_VERSION| == 14 && |KEY_PACKS| == 5;
    assert IntFits(1);
  }

  lemma EnvironmentReceived(packs: seq<Pack>)
    ensures var g := Received(EnvironmentFields(packs));
      KeySet(g) == {KEY_SCHEMA_VERSION, KEY_PACKS}
      && Get(g, KEY_SCHEMA_VERSION) == Int(1) && Get(g, KEY_PACKS) == Arr(SortedItems(PacksJson(packs)))
  {
    hide Received, PacksJson, SortedItems;
    var f := EnvironmentFields(packs);
    assert |KEY_SCHEMA_VERSION| == 14 && |KEY_PACKS| == 5;
    assert f[0].key == KEY_SCHEMA_VERSION && f[1].key == KEY_PACKS;
    assert DistinctKeys(f);
    ReceivedLookup(f);
    GetAt(f, 0);
    GetAt(f, 1);
    assert KeySet(f) == {KEY_SCHEMA_VERSION, KEY_PACKS};
  }

  lemma EnvironmentRoundTrip(blank: Blank, packs: seq<Pack>)
    requires ValidPacks(blank, packs)
    ensures ParseEnvironment(blank, Print(Sorted(Obj(EnvironmentFields(packs))))) == Some(packs)
  {
    EnvironmentWellFormed(packs);
    LoadsCanonical(EnvironmentFields(packs), UNIQUE);
    EnvironmentReceived(packs);
    PacksReceived(packs);
    hide Received, ValidPacks, UniqueKeys, Spellable, Print, PacksFromJson, PacksJson, EnvironmentFields, KeySet, Get,
      Sorted;
    assert EnvironmentFromFields(blank, Received(EnvironmentFields(packs))) == Some(packs);
  }

  // ---------------------------------------------------------------- one retry

  /** The snapshots of a job that `retry_job` accepts. */
  datatype Snapshots = Snapshots(packs: Option<seq<Pack>>, document: Option<InputSnapshot>,
    video: Option<InputSnapshot>)

  function SnapshotsOf(blank: Blank, events: seq<Event>): Result<Snapshots, RetryError> {
    var packs :- PackSnapshot(blank, events);
    var document :- DocumentSnapshot(events);
    var video :- VideoSnapshot(events);
    Ok(Snapshots(packs, document, video))
  }

  predicate IsSnapshot(k: Kind) {
    k == PackEnvironment || k == DocumentInput || k == VideoInput
  }

  lemma ConcatTail<T>(a: seq<T>, b: seq<T>)
    requires a != []
    ensures (a + b)[0] == a[0] && (a + b)[1..] == a[1..] + b
  {
  }

  lemma {:induction false} OfKindConcat(a: seq<Event>, b: seq<Event>, k: Kind)
    ensures OfKind(a + b, k) == OfKind(a, k) + OfKind(b, k)
  {
    if a == [] {
      assert a + b == b;
    } else {
      var first := if a[0].kind == k then [a[0]] else [];
      OfKindConcat(a[1..], b, k);
      ConcatTail(a, b);
      assert OfKind(a + b, k) == first + OfKind(a[1..] + b, k);
      assert OfKind(a, k) == first + OfKind(a[1..], k);
      hide OfKind;
      assert first + (OfKind(a[1..], k) + OfKind(b, k)) == (first + OfKind(a[1..], k)) + OfKind(b, k);
    }
  }

  lemma OfKindOne(e: Event, k: Kind)
    ensures OfKind([e], k) == if e.kind == k then [e] else []
  {
    assert [e][1..] == [];
  }

  lemma OfKindFor(j: Kind, fields: Option<seq<Field>>, k: Kind)
    ensures OfKind(EventFor(j, fields), k) == if j == k then EventFor(j, fields) else []
  {
    hide Print, Sorted;
    if fields.Some? { OfKindOne(EventFor(j, fields)[0], k); }
  }

  lemma OfKindRetry(config: seq<Event>, p: Option<seq<Field>>, d: Option<seq<Field>>, v: Option<seq<Field>>,
          last: Event, k: Kind)
    requires |config| <= 1 && (forall i | 0 <= i < |config| :: config[i].kind == ConfigSnapshot)
    requires last.kind == StateChange
    requires IsSnapshot(k)
    ensures OfKind(config + EventFor(PackEnvironment, p) + EventFor(DocumentInput, d) + EventFor(VideoInput, v)
      + [last], k)
      == if k == PackEnvironment then EventFor(k, p) else if k == DocumentInput then EventFor(k, d) else EventFor(k, v)
  {
    hide EventFor, OfKind;
    var a, b, c := EventFor(PackEnvironment, p), EventFor(DocumentInput, d), EventFor(VideoInput, v);
    OfKindConcat(config + a + b + c, [last], k);
    OfKindConcat(config + a + b, c, k);
    OfKindConcat(config + a, b, k);
    OfKindConcat(config, a, k);
    OfKindFor(PackEnvironment, p, k);
    OfKindFor(DocumentInput, d, k);
    OfKindFor(VideoInput, v, k);
    OfKindOne(last, k);
    assert OfKind(config, k) == [] by {
      if config == [] { OfKindNone(k); } else { OfKindOne(config[0], k); assert config == [config[0]]; }
    }
  }

  lemma OfKindNone(k: Kind)
    ensures OfKind([], k) == []
  {
  }

  predicate AtMostOne(events: seq<Event>, k: Kind) {
    forall i, j | 0 <= i < j < |events| :: !(events[i].kind == k && events[j].kind == k)
  }

  predicate PackInOrder(blank: Blank, events: seq<Event>) {
    AtMostOne(events, PackEnvironment)
    && forall e | e in events && e.kind == PackEnvironment :: ParseEnvironment(blank, e.payload).Some?
  }

  predicate DocumentInOrder(events: seq<Event>) {
    AtMostOne(events, DocumentInput)
    && forall e | e in events && e.kind == DocumentInput :: ParseDocument(e.payload).Some?
  }

  predicate VideoInOrder(events: seq<Event>) {
    AtMostOne(events, VideoInput) && forall e | e in events && e.kind == VideoInput :: ParseVideo(e.payload).Some?
  }

  lemma {:induction false} OfKindHolds(events: seq<Event>, k: Kind)
    ensures forall e :: e in OfKind(events, k) <==> e in events && e.kind == k
  {
    if events != [] {
      OfKindHolds(events[1..], k);
      assert events == [events[0]] + events[1..];
    }
  }

  lemma NoneOfKind(events: seq<Event>, k: Kind)
    ensures OfKind(events, k) == [] <==> forall i | 0 <= i < |events| :: events[i].kind != k
  {
    OfKindHolds(events, k);
    var found := OfKind(events, k);
    hide OfKind;
    if found != [] { assert found[0] in events; }
    if i :| 0 <= i < |events| && events[i].kind == k { assert events[i] in found; }
  }

  lemma AtMostOneFirst(events: seq<Event>, k: Kind)
    requires events != []
    ensures AtMostOne(events, k)
      <==> AtMostOne(events[1..], k)
           && (events[0].kind == k ==> forall j | 0 <= j < |events[1..]| :: events[1..][j].kind != k)
  {
    var rest := events[1..];
    assert forall j | 1 <= j < |events| :: events[j] == rest[j - 1];
    if AtMostOne(events, k) {
      forall i, j | 0 <= i < j < |rest| ensures !(rest[i].kind == k && rest[j].kind == k) {
        assert rest[i] == events[i + 1] && rest[j] == events[j + 1];
      }
      forall j | 0 <= j < |rest| && events[0].kind == k ensures rest[j].kind != k { assert rest[j] == events[j + 1]; }
    }
  }

  lemma {:induction false} OfKindCounts(events: seq<Event>, k: Kind)
    ensures |OfKind(events, k)| <= 1 <==> AtMostOne(events, k)
  {
    if events != [] {
      OfKindCounts(events[1..], k);
      NoneOfKind(events[1..], k);
      AtMostOneFirst(events, k);
      hide AtMostOne;
    }
  }

  lemma InOrderExactly(blank: Blank, events: seq<Event>)
    ensures PackSnapshot(blank, events).Ok? <==> PackInOrder(blank, events)
    ensures DocumentSnapshot(events).Ok? <==> DocumentInOrder(events)
    ensures VideoSnapshot(events).Ok? <==> VideoInOrder(events)
  {
    hide AtMostOne, ParseEnvironment, ParseDocument, ParseVideo, OfKind;
    forall k ensures (|OfKind(events, k)| <= 1 <==> AtMostOne(events, k))
                     && forall e :: e in OfKind(events, k) <==> e in events && e.kind == k {
      OfKindCounts(events, k);
      OfKindHolds(events, k);
    }
    var p, d, v := OfKind(events, PackEnvironment), OfKind(events, DocumentInput), OfKind(events, VideoInput);
    assert |p| == 1 ==> p == [p[0]] && p[0] in p;
    assert |d| == 1 ==> d == [d[0]] && d[0] in d;
    assert |v| == 1 ==> v == [v[0]] && v[0] in v;
  }

  /**
   A retry succeeds in collecting its events exactly when the snapshots of the job are in order: each kind at most
   once, and the one there is parses. Otherwise the first kind that is not decides the error.
   */
  lemma RetryEventsExactly(blank: Blank, config: Option<Str>, events: seq<Event>)
    ensures var r := RetryEvents(blank, config, events);
      var pack, document, video := PackInOrder(blank, events), DocumentInOrder(events), VideoInOrder(events);
      && (r.Ok? <==> pack && document && video)
      && (r == Err(PackInvalid) <==> !pack)
      && (r == Err(DocumentInvalid) <==> pack && !document)
      && (r == Err(VideoInvalid) <==> pack && document && !video)
    ensures RetryEvents(blank, config, events).Ok? <==> SnapshotsOf(blank, events).Ok?
  {
    InOrderExactly(blank, events);
    assert PackSnapshot(blank, events).Err? ==> PackSnapshot(blank, events) == Err(PackInvalid);
    assert DocumentSnapshot(events).Err? ==> DocumentSnapshot(events) == Err(DocumentInvalid);
    assert VideoSnapshot(events).Err? ==> VideoSnapshot(events) == Err(VideoInvalid);
    hide PackSnapshot, DocumentSnapshot, VideoSnapshot, PackInOrder, DocumentInOrder, VideoInOrder, EventFor;
  }

  /** The new job has the snapshots of the retried one, each at most once. */
  lemma RetryKeepsSnapshots(blank: Blank, config: Option<Str>, events: seq<Event>, last: Event)
    requires RetryEvents(blank, config, events).Ok? && last.kind == StateChange
    ensures SnapshotsOf(blank, RetryEvents(blank, config, events).value + [last]) == SnapshotsOf(blank, events)
  {
    var packs := PackSnapshot(blank, events).value;
    var document := DocumentSnapshot(events).value;
    var video := VideoSnapshot(events).value;
    var c := match config case None => [] case Some(payload) => [Event(ConfigSnapshot, payload)];
    var p, d, v := PackFieldsOf(packs), InputFieldsOf(document), InputFieldsOf(video);
    var initial := RetryEvents(blank, config, events).value;
    assert initial == c + EventFor(PackEnvironment, p) + EventFor(DocumentInput, d) + EventFor(VideoInput, v);
    OfKindRetry(c, p, d, v, last, PackEnvironment);
    OfKindRetry(c, p, d, v, last, DocumentInput);
    OfKindRetry(c, p, d, v, last, VideoInput);
    hide OfKind, RetryEvents, Print, Sorted;
    PackKept(blank, events, initial + [last]);
    DocumentKept(events, initial + [last]);
    VideoKept(events, initial + [last]);
  }

  lemma PackKept(blank: Blank, events: seq<Event>, again: seq<Event>)
    requires PackSnapshot(blank, events).Ok?
    requires OfKind(again, PackEnvironment)
      == EventFor(PackEnvironment, PackFieldsOf(PackSnapshot(blank, events).value))
    ensures PackSnapshot(blank, again) == PackSnapshot(blank, events)
  {
    hide OfKind, Print, Sorted;
    if PackSnapshot(blank, events).value.Some? {
      EnvironmentRoundTrip(blank, PackSnapshot(blank, events).value.value);
    }
  }

  lemma DocumentKept(events: seq<Event>, again: seq<Event>)
    requires DocumentSnapshot(events).Ok?
    requires OfKind(again, DocumentInput) == EventFor(DocumentInput, InputFieldsOf(DocumentSnapshot(events).value))
    ensures DocumentSnapshot(again) == DocumentSnapshot(events)
  {
    hide OfKind, Print, Sorted, ParseDocument;
    if DocumentSnapshot(events).value.Some? { DocumentAgain(OfKind(events, DocumentInput)[0].payload); }
  }

  lemma VideoKept(events: seq<Event>, again: seq<Event>)
    requires VideoSnapshot(events).Ok?
    requires OfKind(again, VideoInput) == EventFor(VideoInput, InputFieldsOf(VideoSnapshot(events).value))
    ensures VideoSnapshot(again) == VideoSnapshot(events)
  {
    hide OfKind, Print, Sorted, ParseVideo;
    if VideoSnapshot(events).value.Some? { VideoAgain(OfKind(events, VideoInput)[0].payload); }
  }

  lemma PacksOf(blank: Blank, events: seq<Event>)
    requires SnapshotsOf(blank, events).Ok?
    ensures PackSnapshot(blank, events) == Ok(SnapshotsOf(blank, events).value.packs)
  {
    hide PackSnapshot, DocumentSnapshot, VideoSnapshot;
  }

  /** What a binding is allowed to do depends on the job's snapshots only. */
  lemma BindingDecided(blank: Blank, release: Release, a: seq<Event>, b: seq<Event>, binding: Binding)
    requires SnapshotsOf(blank, a).Ok? && SnapshotsOf(blank, a) == SnapshotsOf(blank, b)
    ensures SupportedBinding(blank, release, a, binding) == SupportedBinding(blank, release, b, binding)
    ensures JobPackEnvironment(blank, a, binding) == JobPackEnvironment(blank, b, binding)
  {
    hide OfKind, ParseEnvironment, DocumentSnapshot, VideoSnapshot;
  }

  /** The frozen environment holds the very pack that the binding names. */
  predicate HoldsPack(packs: Option<seq<Pack>>, b: Binding) {
    packs.Some? && exists p | p in packs.value :: p.id == b.pack && p.version == b.packVersion
  }

  /** A binding that the release can carry out on some packs. */
  predicate Known(release: Release, b: Binding) {
    (b.recipe, b.recipeVersion) in release.videoRecipes && b.executor == release.videoExecutor
    && b.executorVersion == 1 && b.pack == release.mediaBasic
  }

  /** What the release can carry out with these packs. */
  predicate CarriesOut(release: Release, b: Binding, packs: Option<seq<Pack>>) {
    b in {release.document, release.legacyVideo} || (Known(release, b) && HoldsPack(packs, b))
  }

  lemma {:induction false} FindPackExactly(packs: seq<Pack>, id: Str)
    ensures FindPack(packs, id).None? <==> forall p | p in packs :: p.id != id
    ensures FindPack(packs, id).Some? ==> FindPack(packs, id).value in packs && FindPack(packs, id).value.id == id
  {
    if packs != [] {
      FindPackExactly(packs[1..], id);
      assert forall p :: p in packs <==> p == packs[0] || p in packs[1..];
    }
  }

  lemma PacksFound(packs: seq<Pack>, b: Binding)
    requires forall i, j | 0 <= i < j < |packs| :: packs[i].id != packs[j].id
    ensures HoldsPack(Some(packs), b) <==> var p := FindPack(packs, b.pack); p.Some? && p.value.version == b.packVersion
  {
    FindPackExactly(packs, b.pack);
    if p :| p in packs && p.id == b.pack && p.version == b.packVersion {
      var i :| 0 <= i < |packs| && packs[i] == p;
      var q := FindPack(packs, b.pack).value;
      var j :| 0 <= j < |packs| && packs[j] == q;
    }
  }

  lemma ParsedIdsDiffer(blank: Blank, payload: Str)
    requires ParseEnvironment(blank, payload).Some?
    ensures var packs := ParseEnvironment(blank, payload).value;
      forall i, j | 0 <= i < j < |packs| :: packs[i].id != packs[j].id
  {
  }

  /** The two Document and legacy bindings are supported on any job, whatever its events. */
  lemma OldBindingsSupported(blank: Blank, release: Release, events: seq<Event>)
    ensures SupportedBinding(blank, release, events, release.document) == Ok(release.document)
    ensures SupportedBinding(blank, release, events, release.legacyVideo) == Ok(release.legacyVideo)
  {
  }

  /**
   A binding is supported, and returned as it is, exactly when the release can carry it out with the packs
   frozen in the job; and each refusal has its cause.
   */
  lemma SupportedExactly(blank: Blank, release: Release, events: seq<Event>, b: Binding)
    requires PackSnapshot(blank, events).Ok?
    ensures var packs, verdict := PackSnapshot(blank, events).value, SupportedBinding(blank, release, events, b);
      && (verdict == Ok(b) <==> CarriesOut(release, b, packs)) && (verdict.Ok? ==> verdict == Ok(b))
      && (verdict == Err(ExecutorUnavailable) <==> !CarriesOut(release, b, packs) && !Known(release, b))
      && (verdict == Err(PackMissing) <==> !CarriesOut(release, b, packs) && Known(release, b) && packs.None?)
      && (verdict == Err(PackInvalid) <==> !CarriesOut(release, b, packs) && Known(release, b) && packs.Some?)
  {
    hide OfKind, ParseEnvironment;
    var found := OfKind(events, PackEnvironment);
    if found != [] {
      var packs := ParseEnvironment(blank, found[0].payload).value;
      ParsedIdsDiffer(blank, found[0].payload);
      PacksFound(packs, b);
    }
  }

  // ---------------------------------------------------------------- every history of a repository

  datatype Action =
    | Create(job: Job)
    | Append(i: nat, event: Event)
    | Enter(i: nat, state: JobState, event: Event)
    | Operations(i: nat, unknown: set<Str>)
    | RetryJob(i: nat, config: Option<Str>, request: Request, queued: Str)

  /** Only the creation of a job writes snapshots and configurations; a closed job takes no more events. */
  predicate Enabled(blank: Blank, jobs: Repository, a: Action) {
    match a
    case Create(job) => job.retryOf == None && SnapshotsOf(blank, job.events).Ok?
    case Append(i, e) => i < |jobs| && !IsTerminal(jobs[i].state) && !IsSnapshot(e.kind) && e.kind != ConfigSnapshot
    case Enter(i, _, e) => i < |jobs| && e.kind == StateChange
    case Operations(i, _) => i < |jobs|
    case RetryJob(i, config, request, queued) => i < |jobs| && Retry(blank, jobs, i, config, request, queued).Ok?
  }

  function Apply(blank: Blank, jobs: Repository, a: Action): Repository
    requires Enabled(blank, jobs, a)
  {
    match a
    case Create(job) => jobs + [job]
    case Append(i, e) => jobs[i := jobs[i].(events := jobs[i].events + [e])]
    case Enter(i, s, e) => jobs[i := jobs[i].(state := s, events := jobs[i].events + [e])]
    case Operations(i, unknown) => jobs[i := jobs[i].(unknown := unknown)]
    case RetryJob(i, config, request, queued) => Retry(blank, jobs, i, config, request, queued).value.0
  }

  ghost predicate Next(blank: Blank, before: Repository, after: Repository) {
    exists a :: Enabled(blank, before, a) && after == Apply(blank, before, a)
  }

  ghost predicate History(blank: Blank, states: seq<Repository>) {
    states != [] && states[0] == []
    && forall n | 0 <= n < |states| - 1 :: Next(blank, states[n], states[n + 1])
  }

  /** A job's snapshots are in order, and a retry has its original's binding and snapshots. */
  ghost predicate JobOk(blank: Blank, jobs: Repository, i: nat)
    requires i < |jobs|
  {
    SnapshotsOf(blank, jobs[i].events).Ok?
    && (jobs[i].retryOf.Some? ==>
          var o := jobs[i].retryOf.value;
          o < i && jobs[o].binding == jobs[i].binding
          && SnapshotsOf(blank, jobs[o].events) == SnapshotsOf(blank, jobs[i].events))
  }

  ghost predicate Frozen(blank: Blank, jobs: Repository) {
    forall i | 0 <= i < |jobs| :: JobOk(blank, jobs, i)
  }

  lemma OtherEventKeeps(blank: Blank, events: seq<Event>, e: Event)
    requires !IsSnapshot(e.kind)
    ensures SnapshotsOf(blank, events + [e]) == SnapshotsOf(blank, events)
  {
    OfKindConcat(events, [e], PackEnvironment);
    OfKindConcat(events, [e], DocumentInput);
    OfKindConcat(events, [e], VideoInput);
    OfKindOne(e, PackEnvironment);
    OfKindOne(e, DocumentInput);
    OfKindOne(e, VideoInput);
    hide OfKind, ParseEnvironment, ParseDocument, ParseVideo;
    assert OfKind(events, PackEnvironment) + [] == OfKind(events, PackEnvironment);
    assert OfKind(events, DocumentInput) + [] == OfKind(events, DocumentInput);
    assert OfKind(events, VideoInput) + [] == OfKind(events, VideoInput);
  }

  lemma MoreJobs(blank: Blank, jobs: Repository, job: Job)
    requires Frozen(blank, jobs) && SnapshotsOf(blank, job.events).Ok?
    requires job.retryOf.Some? ==>
      var o := job.retryOf.value;
      o < |jobs| && jobs[o].binding == job.binding
        && SnapshotsOf(blank, jobs[o].events) == SnapshotsOf(blank, job.events)
    ensures Frozen(blank, jobs + [job])
  {
    hide SnapshotsOf;
    forall i | 0 <= i < |jobs + [job]| ensures JobOk(blank, jobs + [job], i) {
      if i < |jobs| { assert JobOk(blank, jobs, i); }
    }
  }

  lemma ChangedJob(blank: Blank, jobs: Repository, k: nat, job: Job)
    requires Frozen(blank, jobs) && k < |jobs|
    requires job.retryOf == jobs[k].retryOf && job.binding == jobs[k].binding
    requires SnapshotsOf(blank, job.events) == SnapshotsOf(blank, jobs[k].events)
    ensures Frozen(blank, jobs[k := job])
  {
    hide SnapshotsOf;
    var t := jobs[k := job];
    forall i | 0 <= i < |t| ensures JobOk(blank, t, i) {
      assert JobOk(blank, jobs, i);
      if t[i].retryOf.Some? {
        var o := t[i].retryOf.value;
        assert t[o].binding == jobs[o].binding;
        assert SnapshotsOf(blank, t[o].events) == SnapshotsOf(blank, jobs[o].events);
      }
    }
  }

  lemma StepKeepsFrozen(blank: Blank, jobs: Repository, a: Action)
    requires Frozen(blank, jobs) && Enabled(blank, jobs, a)
    ensures Frozen(blank, Apply(blank, jobs, a))
  {
    hide SnapshotsOf, RetryEvents, Frozen;
    match a
    case Create(job) => MoreJobs(blank, jobs, job);
    case Append(i, e) =>
      OtherEventKeeps(blank, jobs[i].events, e);
      ChangedJob(blank, jobs, i, jobs[i].(events := jobs[i].events + [e]));
    case Enter(i, s, e) =>
      OtherEventKeeps(blank, jobs[i].events, e);
      ChangedJob(blank, jobs, i, jobs[i].(state := s, events := jobs[i].events + [e]));
    case Operations(i, unknown) => ChangedJob(blank, jobs, i, jobs[i].(unknown := unknown));
    case RetryJob(i, config, request, queued) =>
      if FindRequest(jobs, request.id, 0) == None {
        var child := Apply(blank, jobs, a)[|jobs|];
        RetryKeepsSnapshots(blank, config, jobs[i].events, Event(StateChange, queued));
        RetryEventsExactly(blank, config, jobs[i].events);
        MoreJobs(blank, jobs, child);
      }
  }

  lemma {:induction false} AlwaysFrozen(blank: Blank, states: seq<Repository>, n: nat)
    requires History(blank, states) && n < |states|
    ensures Frozen(blank, states[n])
  {
    if n > 0 {
      AlwaysFrozen(blank, states, n - 1);
      assert Next(blank, states[n - 1], states[n - 1 + 1]);
      var a :| Enabled(blank, states[n - 1], a) && states[n] == Apply(blank, states[n - 1], a);
      hide Frozen, Enabled, Apply;
      StepKeepsFrozen(blank, states[n - 1], a);
    }
  }

  /** `i` descends from `root` by retries. */
  ghost predicate Descends(jobs: Repository, i: nat, root: nat)
    decreases i
  {
    i < |jobs| && (i == root
      || (jobs[i].retryOf.Some? && jobs[i].retryOf.value < i && Descends(jobs, jobs[i].retryOf.value, root)))
  }

  lemma {:induction false} DescendantSnapshots(blank: Blank, jobs: Repository, i: nat, root: nat)
    requires Frozen(blank, jobs) && Descends(jobs, i, root)
    ensures root < |jobs| && jobs[i].binding == jobs[root].binding
    ensures SnapshotsOf(blank, jobs[i].events) == SnapshotsOf(blank, jobs[root].events)
    ensures SnapshotsOf(blank, jobs[root].events).Ok?
    decreases i
  {
    hide SnapshotsOf;
    assert JobOk(blank, jobs, i);
    if i != root { DescendantSnapshots(blank, jobs, jobs[i].retryOf.value, root); }
  }

  /**
   At every depth of every chain of retries in every history: the same binding, the same snapshots,
   each at most once, the same verdict on the binding, which is support exactly when the release can carry
   out the ancestor's binding with the ancestor's packs, and no retry fails over its snapshots.
   */
  lemma RetriesInheritForever(blank: Blank, release: Release, states: seq<Repository>, n: nat, i: nat, root: nat,
          config: Option<Str>)
    requires History(blank, states) && n < |states| && Descends(states[n], i, root)
    ensures var jobs := states[n];
      && root < |jobs| && jobs[i].binding == jobs[root].binding
      && SnapshotsOf(blank, jobs[i].events) == SnapshotsOf(blank, jobs[root].events)
      && SupportedBinding(blank, release, jobs[i].events, jobs[i].binding)
         == SupportedBinding(blank, release, jobs[root].events, jobs[root].binding)
      && SnapshotsOf(blank, jobs[root].events).Ok?
      && (SupportedBinding(blank, release, jobs[i].events, jobs[i].binding) == Ok(jobs[i].binding)
          <==> CarriesOut(release, jobs[root].binding, SnapshotsOf(blank, jobs[root].events).value.packs))
      && RetryEvents(blank, config, jobs[i].events).Ok?
  {
    AlwaysFrozen(blank, states, n);
    var jobs := states[n];
    hide SnapshotsOf, SupportedBinding, RetryEvents, JobPackEnvironment, History, PackSnapshot, CarriesOut;
    DescendantSnapshots(blank, jobs, i, root);
    PacksOf(blank, jobs[root].events);
    SupportedExactly(blank, release, jobs[root].events, jobs[root].binding);
    BindingDecided(blank, release, jobs[i].events, jobs[root].events, jobs[root].binding);
    RetryEventsExactly(blank, config, jobs[i].events);
  }
}
