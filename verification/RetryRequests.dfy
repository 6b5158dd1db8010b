/** Which retry requests succeed, and what a repeated one answers. */
module RetryRequests {
  import opened Text
  import opened Json
  import opened JsonRoundTrip
  import opened JsonCanonical
  import opened JsonReprint
  import opened Dictionary
  import opened JobStates
  import opened JobRetry
  import opened RetryChain

  /** The configuration a job was created with. */
  function ConfigOf(events: seq<Event>): Option<Str> {
    var found := OfKind(events, ConfigSnapshot);
    if found == [] then None else Some(found[0].payload)
  }

  function ConfigEvents(config: Option<Str>): seq<Event> {
    match config
    case None => []
    case Some(payload) => [Event(ConfigSnapshot, payload)]
  }

  /** The events of a retry that hold snapshots. */
  function SnapshotEvents(s: Snapshots): seq<Event> {
    EventFor(PackEnvironment, PackFieldsOf(s.packs)) + EventFor(DocumentInput, InputFieldsOf(s.document))
    + EventFor(VideoInput, InputFieldsOf(s.video))
  }

  lemma RetryEventsParts(blank: Blank, config: Option<Str>, events: seq<Event>)
    requires SnapshotsOf(blank, events).Ok?
    ensures RetryEvents(blank, config, events)
      == Ok(ConfigEvents(config) + SnapshotEvents(SnapshotsOf(blank, events).value))
  {
    hide PackSnapshot, DocumentSnapshot, VideoSnapshot, EventFor, PackFieldsOf, InputFieldsOf;
    var s := SnapshotsOf(blank, events).value;
    var c, p := ConfigEvents(config), EventFor(PackEnvironment, PackFieldsOf(s.packs));
    var d, v := EventFor(DocumentInput, InputFieldsOf(s.document)), EventFor(VideoInput, InputFieldsOf(s.video));
    assert c + p + d + v == c + (p + d + v);
  }

  lemma SnapshotKinds(s: Snapshots)
    ensures forall i | 0 <= i < |SnapshotEvents(s)| :: IsSnapshot(SnapshotEvents(s)[i].kind)
    ensures SnapshotEvents(s) == [] <==> s == Snapshots(None, None, None)
  {
    hide Print, Sorted;
  }

  predicate StartsWith(events: seq<Event>, first: seq<Event>) {
    |first| <= |events| && events[..|first|] == first
  }

  /** A retry of `o` stores the events it was created with first, and the request hash of `o`. */
  ghost predicate Stored(blank: Blank, o: Job, c: Job) {
    && c.requestHash == o.requestHash && SnapshotsOf(blank, o.events).Ok?
    && StartsWith(NotState(c.events),
      ConfigEvents(ConfigOf(c.events)) + SnapshotEvents(SnapshotsOf(blank, o.events).value))
  }

  ghost predicate RetriesStored(blank: Blank, jobs: Repository) {
    forall i | 0 <= i < |jobs| && jobs[i].retryOf.Some? ::
      jobs[i].retryOf.value < i && Stored(blank, jobs[jobs[i].retryOf.value], jobs[i])
  }

  lemma {:induction false} NotStateConcat(a: seq<Event>, b: seq<Event>)
    ensures NotState(a + b) == NotState(a) + NotState(b)
  {
    if a == [] {
      assert a + b == b;
    } else {
      NotStateConcat(a[1..], b);
      ConcatTail(a, b);
    }
  }

  lemma {:induction false} NotStateAll(a: seq<Event>)
    requires forall i | 0 <= i < |a| :: a[i].kind != StateChange
    ensures NotState(a) == a
  {
    if a != [] { NotStateAll(a[1..]); }
  }

  /** One more event, not a configuration, keeps what a job was created with. */
  lemma EventKeepsStored(blank: Blank, o: Job, c: Job, e: Event)
    requires Stored(blank, o, c) && e.kind != ConfigSnapshot
    ensures Stored(blank, o, c.(events := c.events + [e]))
  {
    hide SnapshotsOf, SnapshotEvents, OfKind, NotState;
    NotStateConcat(c.events, [e]);
    OfKindConcat(c.events, [e], ConfigSnapshot);
    OfKindOne(e, ConfigSnapshot);
    assert OfKind(c.events, ConfigSnapshot) + [] == OfKind(c.events, ConfigSnapshot);
  }

  /** The first events of a new retry. */
  lemma NewRetryStored(blank: Blank, o: Job, c: Job, config: Option<Str>, last: Event)
    requires SnapshotsOf(blank, o.events).Ok? && c.requestHash == o.requestHash && last.kind == StateChange
    requires c.events == ConfigEvents(config) + SnapshotEvents(SnapshotsOf(blank, o.events).value) + [last]
    ensures Stored(blank, o, c)
  {
    hide SnapshotsOf, SnapshotEvents, OfKind, ConfigOf, NotState;
    var snaps := SnapshotEvents(SnapshotsOf(blank, o.events).value);
    SnapshotKinds(SnapshotsOf(blank, o.events).value);
    NewRetryConfig(config, snaps, last);
    NewRetryEvents(ConfigEvents(config), snaps, last);
  }

  lemma NewRetryEvents(first: seq<Event>, snaps: seq<Event>, last: Event)
    requires forall i | 0 <= i < |first| :: first[i].kind == ConfigSnapshot
    requires (forall i | 0 <= i < |snaps| :: IsSnapshot(snaps[i].kind)) && last.kind == StateChange
    ensures NotState(first + snaps + [last]) == first + snaps
  {
    hide NotState;
    NotStateAll(first + snaps);
    NotStateConcat(first + snaps, [last]);
    OnlyState(last);
    assert first + snaps + [] == first + snaps;
  }

  lemma OnlyState(e: Event)
    requires e.kind == StateChange
    ensures NotState([e]) == []
  {
    assert [e][1..] == [];
  }

  lemma {:induction false} NoneOfKind(a: seq<Event>, k: Kind)
    requires forall i | 0 <= i < |a| :: a[i].kind != k
    ensures OfKind(a, k) == []
  {
    if a != [] { NoneOfKind(a[1..], k); }
  }

  lemma NewRetryConfig(config: Option<Str>, snaps: seq<Event>, last: Event)
    requires (forall i | 0 <= i < |snaps| :: IsSnapshot(snaps[i].kind)) && last.kind == StateChange
    ensures ConfigOf(ConfigEvents(config) + snaps + [last]) == config
  {
    var first := ConfigEvents(config);
    hide OfKind;
    OfKindConcat(first + snaps, [last], ConfigSnapshot);
    OfKindConcat(first, snaps, ConfigSnapshot);
    NoneOfKind(snaps, ConfigSnapshot);
    OfKindOne(last, ConfigSnapshot);
    if config == None { OfKindNone(ConfigSnapshot); } else { OfKindOne(first[0], ConfigSnapshot); }
  }

  lemma ChangedStored(blank: Blank, jobs: Repository, k: nat, job: Job)
    requires RetriesStored(blank, jobs) && k < |jobs|
    requires job.retryOf == jobs[k].retryOf && job.requestHash == jobs[k].requestHash
    requires SnapshotsOf(blank, job.events) == SnapshotsOf(blank, jobs[k].events)
    requires forall o :: Stored(blank, o, jobs[k]) ==> Stored(blank, o, job)
    ensures RetriesStored(blank, jobs[k := job])
  {
    hide SnapshotsOf, SnapshotEvents, ConfigOf, NotState;
    var t := jobs[k := job];
    forall i | 0 <= i < |t| && t[i].retryOf.Some?
      ensures t[i].retryOf.value < i && Stored(blank, t[t[i].retryOf.value], t[i])
    {
      assert jobs[i].retryOf.Some?;
      var o := jobs[i].retryOf.value;
      assert Stored(blank, jobs[o], t[i]);
    }
  }

  lemma MoreStored(blank: Blank, jobs: Repository, job: Job)
    requires RetriesStored(blank, jobs)
    requires job.retryOf.Some? ==> job.retryOf.value < |jobs| && Stored(blank, jobs[job.retryOf.value], job)
    ensures RetriesStored(blank, jobs + [job])
  {
    hide Stored;
    var t := jobs + [job];
    forall i | 0 <= i < |t| && t[i].retryOf.Some?
      ensures t[i].retryOf.value < i && Stored(blank, t[t[i].retryOf.value], t[i])
    {
      if i < |jobs| { assert jobs[i].retryOf.Some?; }
    }
  }

  lemma StepKeepsStored(blank: Blank, jobs: Repository, a: Action)
    requires Frozen(blank, jobs) && RetriesStored(blank, jobs) && Enabled(blank, jobs, a)
    ensures RetriesStored(blank, Apply(blank, jobs, a))
  {
    hide SnapshotsOf, RetryEvents, Frozen, RetriesStored, Stored, SnapshotEvents, NotState, OfKind;
    match a
    case Create(job) => MoreStored(blank, jobs, job);
    case Append(i, e) =>
      OtherEventKeeps(blank, jobs[i].events, e);
      var job := jobs[i].(events := jobs[i].events + [e]);
      forall o | Stored(blank, o, jobs[i]) ensures Stored(blank, o, job) { EventKeepsStored(blank, o, jobs[i], e); }
      ChangedStored(blank, jobs, i, job);
    case Enter(i, s, e) =>
      OtherEventKeeps(blank, jobs[i].events, e);
      var job := jobs[i].(state := s, events := jobs[i].events + [e]);
      forall o | Stored(blank, o, jobs[i]) ensures Stored(blank, o, job) {
        EventKeepsStored(blank, o, jobs[i], e);
        SameEventsStored(blank, o, jobs[i].(events := jobs[i].events + [e]), job);
      }
      ChangedStored(blank, jobs, i, job);
    case Operations(i, unknown) =>
      var job := jobs[i].(unknown := unknown);
      forall o | Stored(blank, o, jobs[i]) ensures Stored(blank, o, job) { SameEventsStored(blank, o, jobs[i], job); }
      ChangedStored(blank, jobs, i, job);
    case RetryJob(i, config, request, queued) =>
      if FindRequest(jobs, request.id, 0) == None {
        var child := Apply(blank, jobs, a)[|jobs|];
        RetryEventsExactly(blank, config, jobs[i].events);
        RetryEventsParts(blank, config, jobs[i].events);
        NewRetryStored(blank, jobs[i], child, config, Event(StateChange, queued));
        MoreStored(blank, jobs, child);
      }
  }

  lemma SameEventsStored(blank: Blank, o: Job, c: Job, d: Job)
    requires Stored(blank, o, c) && c.events == d.events && c.requestHash == d.requestHash
    ensures Stored(blank, o, d)
  {
  }

  lemma {:induction false} AlwaysStored(blank: Blank, states: seq<Repository>, n: nat)
    requires History(blank, states) && n < |states|
    ensures RetriesStored(blank, states[n])
  {
    if n > 0 {
      AlwaysStored(blank, states, n - 1);
      AlwaysFrozen(blank, states, n - 1);
      assert Next(blank, states[n - 1], states[n - 1 + 1]);
      var a :| Enabled(blank, states[n - 1], a) && states[n] == Apply(blank, states[n - 1], a);
      hide Frozen, Enabled, Apply, RetriesStored;
      StepKeepsStored(blank, states[n - 1], a);
    }
  }

  /**
   What a stored retry began with is what a repeated request would begin with, exactly if the two
   configurations are the same or there is nothing to compare.
   */
  lemma SameBeginning(stored: seq<Event>, was: Option<Str>, now: Option<Str>, snaps: seq<Event>)
    requires StartsWith(stored, ConfigEvents(was) + snaps) && forall i | 0 <= i < |snaps| :: IsSnapshot(snaps[i].kind)
    requires was == None ==> forall i | 0 <= i < |stored| :: stored[i].kind != ConfigSnapshot
    ensures var initial := ConfigEvents(now) + snaps;
      (initial != [] && Take(stored, |initial|) != initial) <==> !(was == now || (now == None && snaps == []))
  {
    var before, initial := ConfigEvents(was) + snaps, ConfigEvents(now) + snaps;
    assert before == stored[..|before|];
    if initial != [] && was != now {
      assert initial[0].kind == ConfigSnapshot <==> now.Some?;
      if stored != [] { assert stored[0].kind == ConfigSnapshot ==> was.Some?; }
      if was.Some? { assert before[0] == stored[0] == Event(ConfigSnapshot, was.value); }
    }
  }

  lemma {:induction false} NoConfigStored(events: seq<Event>)
    requires OfKind(events, ConfigSnapshot) == []
    ensures forall i | 0 <= i < |NotState(events)| :: NotState(events)[i].kind != ConfigSnapshot
  {
    if events != [] { NoConfigStored(events[1..]); }
  }

  /** The request id is new, or it is that of an earlier retry of this job under the same configuration. */
  ghost predicate Answerable(blank: Blank, jobs: Repository, i: nat, config: Option<Str>, id: Str)
    requires i < |jobs|
  {
    match FindRequest(jobs, id, 0)
    case None => true
    case Some(e) =>
      && jobs[e].retryOf == Some(i)
      && (ConfigOf(jobs[e].events) == config
          || (config == None && SnapshotsOf(blank, jobs[i].events) == Ok(Snapshots(None, None, None))))
  }

  lemma RepeatDecided(blank: Blank, jobs: Repository, i: nat, e: nat, config: Option<Str>)
    requires i < |jobs| && e < |jobs| && jobs[e].retryOf == Some(i) && Stored(blank, jobs[i], jobs[e])
    ensures var initial := RetryEvents(blank, config, jobs[i].events);
      && initial.Ok?
      && ((initial.value != [] && Take(NotState(jobs[e].events), |initial.value|) != initial.value)
          <==> !(ConfigOf(jobs[e].events) == config
                 || (config == None && SnapshotsOf(blank, jobs[i].events) == Ok(Snapshots(None, None, None)))))
  {
    RetryEventsParts(blank, config, jobs[i].events);
    var s := SnapshotsOf(blank, jobs[i].events).value;
    SnapshotKinds(s);
    var was := ConfigOf(jobs[e].events);
    if was == None { NoConfigStored(jobs[e].events); }
    hide SnapshotsOf, RetryEvents, SnapshotEvents, NotState, ConfigOf, Take, StartsWith;
    SameBeginning(NotState(jobs[e].events), was, config, SnapshotEvents(s));
  }

  /**
   In every state of every history a retry succeeds, if and only if the request is well formed, the
   original is terminal in the expected state, the confirmed operations are exactly its unknown ones,
   and its request id is new or was used to retry it under the same configuration.
   */
  lemma RetryExactly(blank: Blank, states: seq<Repository>, n: nat, i: nat, config: Option<Str>, request: Request,
          queued: Str)
    requires History(blank, states) && n < |states| && i < |states[n]|
    ensures Retry(blank, states[n], i, config, request, queued).Ok?
      <==> && !blank(request.id) && ValidConfirmations(request.confirmed)
           && IsTerminal(states[n][i].state) && states[n][i].state == request.expected
           && Ids(request.confirmed) == states[n][i].unknown
           && Answerable(blank, states[n], i, config, request.id)
  {
    AlwaysFrozen(blank, states, n);
    AlwaysStored(blank, states, n);
    var jobs := states[n];
    assert JobOk(blank, jobs, i);
    RetryEventsExactly(blank, config, jobs[i].events);
    OwnRequest(jobs, request.id, 0, i);
    match FindRequest(jobs, request.id, 0)
    case None =>
      hide SnapshotsOf, RetryEvents, History, Frozen, RetriesStored, ValidConfirmations, Ids, FindRequest, NotState;
    case Some(e) =>
      if jobs[e].retryOf == Some(i) {
        assert i < e && Stored(blank, jobs[i], jobs[e]);
        hide SnapshotsOf, RetryEvents, History, Frozen, RetriesStored, ValidConfirmations, Ids, FindRequest, NotState,
          ConfigOf, Take;
        RepeatDecided(blank, jobs, i, e, config);
      }
  }

  /**
   What a retry under a new request id adds: one queued job of the original's request and binding, with its
   snapshots and the configuration of now, without unknown operations; all other jobs stay.
   */
  lemma RetriedJob(blank: Blank, jobs: Repository, i: nat, config: Option<Str>, request: Request, queued: Str)
    requires i < |jobs| && Retry(blank, jobs, i, config, request, queued).Ok?
    requires forall j | 0 <= j < |jobs| :: jobs[j].requestId != Some(request.id)
    ensures var (later, at) := Retry(blank, jobs, i, config, request, queued).value;
      && |later| == |jobs| + 1 && at == |jobs| && later[..at] == jobs
      && later[at].requestHash == jobs[i].requestHash && later[at].requestId == Some(request.id)
      && later[at].retryOf == Some(i) && later[at].binding == jobs[i].binding
      && later[at].state == Queued && later[at].unknown == {} && ConfigOf(later[at].events) == config
      && SnapshotsOf(blank, later[at].events) == SnapshotsOf(blank, jobs[i].events)
  {
    NotFound(jobs, request.id, 0);
    RetryEventsExactly(blank, config, jobs[i].events);
    RetryEventsParts(blank, config, jobs[i].events);
    RetryKeepsSnapshots(blank, config, jobs[i].events, Event(StateChange, queued));
    ConfigFirst(config, SnapshotsOf(blank, jobs[i].events).value, Event(StateChange, queued));
    hide SnapshotsOf, RetryEvents, ConfigOf, SnapshotEvents, ConfigEvents, FindRequest;
  }

  lemma {:induction false} NotFound(jobs: Repository, id: Str, from: nat)
    requires from <= |jobs| && forall j | from <= j < |jobs| :: jobs[j].requestId != Some(id)
    ensures FindRequest(jobs, id, from).None?
    decreases |jobs| - from
  {
    if from < |jobs| { NotFound(jobs, id, from + 1); }
  }

  lemma {:induction false} NoConfigAmong(events: seq<Event>)
    requires forall i | 0 <= i < |events| :: events[i].kind != ConfigSnapshot
    ensures OfKind(events, ConfigSnapshot) == []
  {
    if events != [] { NoConfigAmong(events[1..]); }
  }

  lemma ConfigFirst(config: Option<Str>, s: Snapshots, last: Event)
    requires last.kind == StateChange
    ensures ConfigOf(ConfigEvents(config) + SnapshotEvents(s) + [last]) == config
  {
    SnapshotKinds(s);
    hide SnapshotEvents;
    var rest := SnapshotEvents(s) + [last];
    NoConfigAmong(rest);
    if config.Some? {
      var events := [Event(ConfigSnapshot, config.value)] + rest;
      assert events[1..] == rest && ConfigEvents(config) + SnapshotEvents(s) + [last] == events;
    } else {
      assert ConfigEvents(config) + SnapshotEvents(s) + [last] == rest;
    }
  }

  /** What the caller has to get right before the repository is asked. */
  predicate WellAsked(blank: Blank, request: Request) {
    !blank(request.id) && ValidConfirmations(request.confirmed)
  }

  predicate IsFirst(jobs: Repository, id: Str, e: nat) {
    e < |jobs| && jobs[e].requestId == Some(id) && forall d | 0 <= d < e :: jobs[d].requestId != Some(id)
  }

  lemma {:induction false} FoundFirst(jobs: Repository, id: Str, from: nat, e: nat)
    requires from <= |jobs|
    ensures FindRequest(jobs, id, from) == Some(e)
      <==> from <= e < |jobs| && jobs[e].requestId == Some(id)
           && forall d | from <= d < e :: jobs[d].requestId != Some(id)
    decreases |jobs| - from
  {
    if from < |jobs| { FoundFirst(jobs, id, from + 1, e); }
  }

  /** The job that has the request id is not this retry: another request, another original or other snapshots. */
  predicate Differs(jobs: Repository, i: nat, e: nat, initial: seq<Event>)
    requires i < |jobs| && e < |jobs|
  {
    jobs[e].requestHash != jobs[i].requestHash || jobs[e].retryOf != Some(i) || !(initial <= NotState(jobs[e].events))
  }

  lemma TakenExactly(s: seq<Event>, initial: seq<Event>)
    ensures initial <= s <==> initial == [] || Take(s, |initial|) == initial
  {
  }

  /** Every refusal of a retry whose job has its snapshots in order, with its own error. */
  lemma RefusedExactly(blank: Blank, jobs: Repository, i: nat, config: Option<Str>, request: Request, queued: Str)
    requires i < |jobs| && SnapshotsOf(blank, jobs[i].events).Ok?
    ensures RetryEvents(blank, config, jobs[i].events).Ok?
    ensures var r, o := Retry(blank, jobs, i, config, request, queued), jobs[i];
      var asked := WellAsked(blank, request);
      var due := asked && IsTerminal(o.state) && o.state == request.expected && o.requestId != Some(request.id);
      && (r == Err(RequestIdInvalid) <==> blank(request.id))
      && (r == Err(OperationsInvalid) <==> !blank(request.id) && !ValidConfirmations(request.confirmed))
      && (r == Err(NotTerminal) <==> asked && !IsTerminal(o.state))
      && (r == Err(StateConflict) <==> asked && IsTerminal(o.state) && o.state != request.expected)
      && (r == Err(RequestIdReused)
          <==> asked && IsTerminal(o.state) && o.state == request.expected && o.requestId == Some(request.id))
      && (r == Err(OperationsUnconfirmed) <==> due && Ids(request.confirmed) != o.unknown)
      && (r == Err(IdempotencyConflict)
          <==> due && Ids(request.confirmed) == o.unknown
               && exists e :: IsFirst(jobs, request.id, e)
                              && Differs(jobs, i, e, RetryEvents(blank, config, o.events).value))
  {
    RetryEventsExactly(blank, config, jobs[i].events);
    var found := FindRequest(jobs, request.id, 0);
    forall e: nat ensures found == Some(e) <==> IsFirst(jobs, request.id, e) { FoundFirst(jobs, request.id, 0, e); }
    if found.Some? {
      TakenExactly(NotState(jobs[found.value].events), RetryEvents(blank, config, jobs[i].events).value);
      assert IsFirst(jobs, request.id, found.value);
    }
    hide SnapshotsOf, RetryEvents, ValidConfirmations, Ids, FindRequest, NotState, Take, IsFirst;
  }

  /** A request id that a job has is found at that job or before it. */
  lemma {:induction false} OwnRequest(jobs: Repository, id: Str, from: nat, i: nat)
    requires from <= i < |jobs|
    ensures jobs[i].requestId == Some(id)
      ==> FindRequest(jobs, id, from).Some? && FindRequest(jobs, id, from).value <= i
    decreases |jobs| - from
  {
    if from < i { OwnRequest(jobs, id, from + 1, i); }
  }

  lemma {:induction false} FoundLast(jobs: Repository, child: Job, id: Str, from: nat)
    requires from <= |jobs| && FindRequest(jobs, id, from) == None && child.requestId == Some(id)
    ensures FindRequest(jobs + [child], id, from) == Some(|jobs|)
    decreases |jobs| - from
  {
    var t := jobs + [child];
    if from < |jobs| {
      assert t[from] == jobs[from];
      FoundLast(jobs, child, id, from + 1);
    }
  }

  lemma {:induction false} FoundHere(jobs: Repository, id: Str, from: nat)
    requires from <= |jobs|
    ensures FindRequest(jobs, id, from).Some? ==> jobs[FindRequest(jobs, id, from).value].requestId == Some(id)
    decreases |jobs| - from
  {
    if from < |jobs| { FoundHere(jobs, id, from + 1); }
  }

  /** Sending a retry that succeeded once more, at once, answers with the same job and changes nothing. */
  lemma RetryIsIdempotent(blank: Blank, states: seq<Repository>, n: nat, i: nat, config: Option<Str>, request: Request,
          queued: Str)
    requires History(blank, states) && n < |states| && i < |states[n]|
    requires Retry(blank, states[n], i, config, request, queued).Ok?
    ensures var (jobs, job) := Retry(blank, states[n], i, config, request, queued).value;
      && i < |jobs| && jobs[i] == states[n][i] && job < |jobs| && jobs[job].requestId == Some(request.id)
      && Retry(blank, jobs, i, config, request, queued) == Ok((jobs, job))
  {
    var before := states[n];
    FoundHere(before, request.id, 0);
    if FindRequest(before, request.id, 0) == None {
      AlwaysFrozen(blank, states, n);
      assert JobOk(blank, before, i);
      var (jobs, job) := Retry(blank, before, i, config, request, queued).value;
      var child := jobs[job];
      RetryEventsExactly(blank, config, before[i].events);
      RetryEventsParts(blank, config, before[i].events);
      NewRetryStored(blank, before[i], child, config, Event(StateChange, queued));
      FoundLast(before, child, request.id, 0);
      RepeatDecided(blank, jobs, i, job, config);
      CreatedConfig(blank, config, before[i].events, Event(StateChange, queued));
      hide SnapshotsOf, RetryEvents, History, Frozen, ValidConfirmations, Ids, FindRequest, NotState, ConfigOf, Take;
    }
  }

  lemma CreatedConfig(blank: Blank, config: Option<Str>, events: seq<Event>, last: Event)
    requires SnapshotsOf(blank, events).Ok? && last.kind == StateChange
    ensures ConfigOf(ConfigEvents(config) + SnapshotEvents(SnapshotsOf(blank, events).value) + [last]) == config
  {
    SnapshotKinds(SnapshotsOf(blank, events).value);
    hide SnapshotsOf, SnapshotEvents, ConfigOf;
    NewRetryConfig(config, SnapshotEvents(SnapshotsOf(blank, events).value), last);
  }
}
