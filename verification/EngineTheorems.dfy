/** What every run of clients and hosts guarantees. */
module EngineTheorems {
  import opened Text
  import opened EngineProtocol
  import opened EngineInvariant
  import opened EngineSteps
  import opened EngineRuns

  // ---------------------------------------------------------------- one engine at a time

  /** At most one engine is live, and it is the holder of the lifetime lock. */
  lemma OneLiveEngine(states: seq<State>, n: nat, h: HostId)
    requires Run(states, false) && n < |states|
    ensures Live(states[n], h) <==> states[n].lifetime == Some(ByHost(h))
    ensures forall g :: Live(states[n], h) && Live(states[n], g) ==> g == h
  {
    RunKeeps(states, n);
    var s := states[n];
    if h in s.hosts { assert HostOk(s, h); }
    forall g | Live(s, h) && Live(s, g) ensures g == h {
      assert HostOk(s, g);
    }
  }

  /** The lifetime lock is held by a live host or by a probing call inside the launch lock. */
  lemma LifetimeOwner(s: State)
    requires Inv(s) && s.lifetime.Some?
    ensures match s.lifetime.value
      case ByCall(x) => x in s.calls && HoldsProbe(s.calls[x].at) && InLock(s.calls[x].at)
      case ByHost(h) => Live(s, h)
  {
    match s.lifetime.value
    case ByCall(x) => assert CallOk(s, x);
    case ByHost(h) => assert HostOk(s, h);
  }

  predicate Over(p: Phase) {
    p == Released || p == Dead
  }

  /** No host is starting or holds the lifetime lock. */
  ghost predicate AllOver(s: State) {
    forall h | h in s.hosts :: Over(s.hosts[h].phase)
  }

  /** Between a free probe and the launch or removal it guards, nothing holds the lifetime lock or starts. */
  lemma QuietState(s: State, c: CallId)
    requires Inv(s) && c in s.calls && Quiet(s.calls[c].at) && !HoldsProbe(s.calls[c].at)
    ensures s.lifetime == None
    ensures AllOver(s)
  {
    AtPoint(s, c);
    assert NoneLive(s) && InLock(s.calls[c].at);
    assert s.launch == Some(ByCall(c)) by { assert CallOk(s, c); }
    if s.lifetime.Some? {
      LifetimeOwner(s);
      if s.lifetime.value.ByCall? { OneInside(s, c, s.lifetime.value.call); }
    }
    forall h | h in s.hosts ensures Over(s.hosts[h].phase) {
      if s.hosts[h].phase == Starting { StartingIsMine(s, c, h); }
    }
  }

  /** A child is launched only while nobody holds the lifetime lock and no child is starting. */
  lemma LaunchOnlyWhenNoneLives(states: seq<State>, n: nat, c: CallId, h: HostId, i: Identity)
    requires Run(states, false) && n < |states| && Enabled(states[n], Spawn(c, h, i), false)
    ensures states[n].lifetime == None && states[n].descriptor == Absent
    ensures AllOver(states[n])
  {
    RunKeeps(states, n);
    QuietState(states[n], c);
    AtPoint(states[n], c);
  }

  // ---------------------------------------------------------------- the descriptor of a serving engine

  /** A serving engine is published, and every engine was launched by some call. */
  ghost predicate Listed(s: State) {
    && (forall h | h in s.hosts && s.hosts[h].phase == Serving :: s.descriptor == Published(h))
    && (forall e | e in s.engines :: e in s.hosts && s.hosts[e].launcher.Some?)
  }

  lemma ListedHost(s: State, h: HostId, cause: Cause)
    requires Listed(s) && CanStep(s, h, cause) && (s.hosts[h].phase == Starting ==> s.hosts[h].launcher.Some?)
    requires forall g | g in s.hosts :: HostLocks(s, g)
    ensures Listed(AdvanceHost(s, h, cause))
  {
    var t := AdvanceHost(s, h, cause);
    assert HostLocks(s, h);
    forall g | g in t.hosts && t.hosts[g].phase == Serving ensures t.descriptor == Published(g) {
      assert HostLocks(s, g);
    }
  }

  /** Only the two removals change the descriptor, and no step of a call revives a host. */
  lemma CallEffects(s: State, c: CallId, ok: bool)
    requires CanAdvance(s, c, ok)
    ensures var t := AdvanceCall(s, c, ok);
      && t.engines == s.engines && t.hosts.Keys == s.hosts.Keys
      && (s.calls[c].at.Unlink? || s.calls[c].at.StopUnlink? || t.descriptor == s.descriptor)
      && forall h | h in s.hosts ::
           t.hosts[h].launcher == s.hosts[h].launcher
             && (t.hosts[h].phase == s.hosts[h].phase || t.hosts[h].phase == Dead)
  {
    hide IdentityMatches;
  }

  lemma ListedCall(s: State, c: CallId, ok: bool)
    requires Inv(s) && Listed(s) && CanAdvance(s, c, ok)
    ensures Listed(AdvanceCall(s, c, ok))
  {
    AtPoint(s, c);
    if Quiet(s.calls[c].at) { assert NoneLive(s); }
    assert s.calls[c].at.Unlink? || s.calls[c].at.StopUnlink? ==> Quiet(s.calls[c].at);
    hide Inv, PointOk, Quiet;
    CallEffects(s, c, ok);
    hide AdvanceCall;
  }

  lemma StartingHasLauncher(s: State, h: HostId)
    requires Inv(s) && h in s.hosts
    ensures s.hosts[h].phase == Starting ==> s.hosts[h].launcher.Some?
  {
    assert HostOk(s, h);
    hide CallOk;
  }

  lemma ListedStep(s: State, a: Action)
    requires Inv(s) && Listed(s) && Enabled(s, a, false)
    ensures Listed(Apply(s, a))
  {
    match a
    case Advance(c, ok) => hide Inv, Listed, AdvanceCall; ListedCall(s, c, ok);
    case HostStep(h, cause) =>
      StartingHasLauncher(s, h);
      hide Inv, HostLocks, Listed, AdvanceHost;
      HostLocksAll(s);
      ListedHost(s, h, cause);
    case _ => hide Inv;
  }

  lemma {:induction false} RunListed(states: seq<State>, n: nat)
    requires Run(states, false) && n < |states|
    ensures Listed(states[n])
  {
    hide *;
    if n == 0 {
      RunStarts(states);
      ListedStart(states[0]);
    } else {
      RunListed(states, n - 1);
      RunKeeps(states, n - 1);
      var a := StepTaken(states, n - 1, false);
      ListedStep(states[n - 1], a);
    }
  }

  lemma ListedStart(s: State)
    requires Init(s)
    ensures Listed(s)
  {
  }

  /** While an engine serves, its descriptor is the published one: no step of anyone removes it. */
  lemma ServingStaysPublished(states: seq<State>, n: nat, h: HostId)
    requires Run(states, false) && n < |states| && IsServing(states[n], h)
    ensures states[n].descriptor == Published(h)
    ensures IdentityMatches(states[n], h)
  {
    RunListed(states, n);
    RunKeeps(states, n);
    MatchesExactly(states[n], h);
  }

  // ---------------------------------------------------------------- what calls report

  function Reported(p: Point): Option<(Answer, bool)> {
    match p
    case Done(Ensured(a, started)) => Some((a, started))
    case Done(Notified(a, started)) => Some((a, started))
    case _ => None
  }

  /** At most one call reports having started a given engine. */
  lemma StartedOnce(states: seq<State>, n: nat, c: CallId, d: CallId)
    requires Run(states, false) && n < |states| && c in states[n].calls && d in states[n].calls
    requires var p, q := Reported(states[n].calls[c].at), Reported(states[n].calls[d].at);
      p.Some? && q.Some? && p.value.1 && q.value.1 && p.value.0.engine == q.value.0.engine
    ensures c == d
  {
    RunKeeps(states, n);
    AtPoint(states[n], c);
    AtPoint(states[n], d);
  }

  lemma {:induction false} EnginesGrow(states: seq<State>, i: nat, j: nat)
    requires Run(states, false) && i <= j < |states|
    ensures states[i].engines <= states[j].engines
    decreases j
  {
    hide *;
    if i < j {
      EnginesGrow(states, i, j - 1);
      var a := StepTaken(states, j - 1, false);
      EnginesStep(states[j - 1], a);
    }
  }

  lemma EnginesStep(s: State, a: Action)
    requires Enabled(s, a, false)
    ensures s.engines <= Apply(s, a).engines
  {
    hide AdvanceCall;
    if a.Advance? { CallEffects(s, a.call, a.ok); }
  }

  lemma CallBegins(s: State, a: Action, c: CallId)
    requires Enabled(s, a, false)
    ensures c in s.calls ==> c in Apply(s, a).calls && Apply(s, a).calls[c].begun == s.calls[c].begun
    ensures c !in s.calls && c in Apply(s, a).calls ==> Apply(s, a).calls[c].begun == |s.engines|
  {
    if a.Advance? { AdvanceKeepsBegun(s, a.call, a.ok, c); }
    hide AdvanceCall;
  }

  lemma AdvanceKeepsBegun(s: State, x: CallId, ok: bool, c: CallId)
    requires CanAdvance(s, x, ok)
    ensures var t := AdvanceCall(s, x, ok);
      t.calls.Keys == s.calls.Keys && (c in s.calls ==> t.calls[c].begun == s.calls[c].begun)
  {
    hide IdentityMatches, Running, NotRunning, AfterEnsure, Readable;
  }

  lemma {:induction false} BegunAfter(states: seq<State>, i: nat, j: nat, c: CallId)
    requires Run(states, false) && i <= j < |states| && c !in states[i].calls && c in states[j].calls
    ensures |states[i].engines| <= states[j].calls[c].begun
    decreases j
  {
    hide *;
    if i < j {
      var a := StepTaken(states, j - 1, false);
      CallBegins(states[j - 1], a, c);
      if c in states[j - 1].calls { BegunAfter(states, i, j - 1, c); } else { EnginesGrow(states, i, j - 1); }
    }
  }

  lemma LiveIsLatest(s: State, e: HostId)
    requires Inv(s) && Live(s, e)
    ensures s.engines != [] && s.engines[|s.engines| - 1] == e
  {
    assert HostOk(s, e);
    hide CallOk;
  }

  lemma EnginesOnce(s: State)
    requires Inv(s)
    ensures forall i, j | 0 <= i < j < |s.engines| :: s.engines[i] != s.engines[j]
  {
    hide CallOk, HostOk;
  }

  /** A call that begins and returns within the life of one engine reports that engine. */
  lemma OverlapReportsTheEngine(states: seq<State>, i: nat, j: nat, c: CallId, e: HostId)
    requires Run(states, false) && i < j < |states|
    requires Live(states[i], e) && Live(states[j], e)
    requires c !in states[i].calls && c in states[j].calls && Reported(states[j].calls[c].at).Some?
    ensures Reported(states[j].calls[c].at).value.0.engine == e
  {
    hide *;
    var s, t := states[i], states[j];
    RunKeeps(states, i);
    RunKeeps(states, j);
    EnginesGrow(states, i, j);
    BegunAfter(states, i, j, c);
    LiveIsLatest(s, e);
    LiveIsLatest(t, e);
    EnginesOnce(t);
    assert t.engines[|s.engines| - 1] == e && t.engines[|t.engines| - 1] == e;
    assert |s.engines| == |t.engines|;
    LatestReported(t, c);
  }

  /** What a call reports that began when the list of engines was as long as it is now. */
  lemma LatestReported(t: State, c: CallId)
    requires Inv(t) && c in t.calls && Reported(t.calls[c].at).Some? && |t.engines| <= t.calls[c].begun
    requires t.engines != []
    ensures Reported(t.calls[c].at).value.0.engine == t.engines[|t.engines| - 1]
  {
    AtPoint(t, c);
    hide Inv;
  }

  /**
   If every call so far was an `ensure` that returned an engine and there was one engine, they all
   report that engine and exactly one says that it started it.
   */
  lemma ConcurrentEnsures(states: seq<State>, n: nat)
    returns (starter: CallId)
    requires Run(states, false) && n < |states| && |states[n].engines| == 1
    requires forall c | c in states[n].calls :: states[n].calls[c].at.Done? && states[n].calls[c].at.outcome.Ensured?
    ensures forall c | c in states[n].calls ::
      states[n].calls[c].at.outcome.answer.engine == states[n].engines[0]
      && (states[n].calls[c].at.outcome.started <==> c == starter)
    ensures starter in states[n].calls
  {
    RunKeeps(states, n);
    RunListed(states, n);
    var s := states[n];
    var e := s.engines[0];
    starter := s.hosts[e].launcher.value;
    forall c | c in s.calls
      ensures s.calls[c].at.outcome.answer.engine == e && (s.calls[c].at.outcome.started <==> c == starter)
    {
      hide Run, Listed;
      EnsuredBy(s, c, e);
    }
  }

  lemma EnsuredBy(s: State, c: CallId, e: HostId)
    requires Inv(s) && s.engines == [e] && e in s.hosts && c in s.calls
    requires s.calls[c].at.Done? && s.calls[c].at.outcome.Ensured?
    ensures s.calls[c].at.outcome.answer.engine == e
    ensures s.calls[c].at.outcome.started <==> s.hosts[e].launcher == Some(c)
  {
    AtPoint(s, c);
    assert HostOk(s, e);
    hide Inv;
  }

  // ---------------------------------------------------------------- what returning means

  /** The call has failed with its child dead, or has the serving child as the engine it started. */
  ghost predicate ReadyOrReaped(s: State, c: CallId, child: HostId)
    requires c in s.calls
  {
    var p := s.calls[c].at;
    (p == Releasing(Failed) && child in s.hosts && s.hosts[child].phase == Dead)
    || (IsServing(s, child) && Started(p) && AnswerOf(p).Some? && AnswerOf(p).value.engine == child)
  }

  /** The child of a call has not exited. */
  predicate Alive(s: State, child: HostId) {
    child in s.hosts && s.hosts[child].phase != Dead
  }

  /**
   Each step of a call in the startup of its child: it gives the child up exactly at the deadline, fails
   exactly with the child dead, succeeds exactly when an engine answers, and otherwise stays in startup.
   */
  lemma StartupStep(s: State, c: CallId, ok: bool, child: HostId)
    requires CanAdvance(s, c, ok) && StartupOf(s.calls[c].at) == Some(child)
    ensures var p, t := s.calls[c].at, AdvanceCall(s, c, ok);
      var q := t.calls[c].at;
      && (q == Terminate(child) <==> p == PollChild(child) && Alive(s, child) && !ok)
      && (q == Releasing(Failed) ==> !Alive(t, child))
      && (q == Releasing(Failed) <==> p == Terminate(child) || (p == PollChild(child) && !Alive(s, child)))
      && (Started(q) <==> p.AskHealth? && ok)
      && (StartupOf(q) == Some(child) || q == Releasing(Failed) || Started(q))
      && (p == PollChild(child) && Alive(s, child) && ok ==> q == ReadStatus(AtStartup(child)))
  {
  }

  /** In every run the child of a call is given up only at the deadline, while it is alive and not found ready. */
  lemma TerminatedOnlyAtTheDeadline(states: seq<State>, n: nat, c: CallId, child: HostId)
    requires Run(states, false) && n + 1 < |states| && c in states[n].calls && c in states[n + 1].calls
    requires states[n].calls[c].at != Terminate(child) && states[n + 1].calls[c].at == Terminate(child)
    ensures states[n].calls[c].at == PollChild(child) && Alive(states[n], child)
    ensures CanAdvance(states[n], c, false) && states[n + 1] == AdvanceCall(states[n], c, false)
  {
    var a := StepTaken(states, n, false);
    GivesUp(states[n], a, c, child);
  }

  lemma GivesUp(s: State, a: Action, c: CallId, child: HostId)
    requires Enabled(s, a, false) && c in s.calls && c in Apply(s, a).calls
    requires s.calls[c].at != Terminate(child) && Apply(s, a).calls[c].at == Terminate(child)
    ensures a == Advance(c, false) && s.calls[c].at == PollChild(child) && Alive(s, child)
  {
    assert a.Advance? && a.call == c by {
      hide AdvanceCall;
      if a.Advance? && a.call != c { OthersStay(s, a.call, a.ok, c); }
    }
  }

  /** Why a step of a call that holds the launch lock ends it without success. */
  predicate Blocked(s: State, p: Point, ok: bool) {
    match p
    // the descriptor that was there is gone or unreadable
    case ConfirmRead(_) => Readable(s).None?
    case NotifyRead(_, _) => Readable(s).None?
    case ShutRead => Readable(s).None?
    // no live process has its identity
    case ConfirmMatch(_, d) => !IdentityMatches(s, d)
    case NotifyMatch(_, _, d) => !IdentityMatches(s, d)
    case ShutMatch(d) => !IdentityMatches(s, d)
    // its engine does not answer, or is another one
    case ConfirmHello(_, _) => !ok
    case NotifyAsk(answer, _, d) => !ok || d != answer.engine
    case ShutAsk(_) => !ok
    // a process may still be the engine although it does not answer
    case StopMatch(d) => IdentityMatches(s, d)
    // some engine lives although none answers
    case Probe => s.lifetime != None
    case StopProbe => s.lifetime != None
    // a file cannot be removed or a process not started
    case Unlink => !ok
    case StopUnlink(_) => !ok
    case Launch => true
    // the child is dead, or is killed at the deadline
    case PollChild(child) => !Alive(s, child)
    case Terminate(_) => true
    // the engine is still there at the deadline
    case AwaitGone(_) => !ok
    case _ => false
  }

  /** A call in the launch lock is on its way to fail exactly where it is blocked: nothing else ends it so. */
  lemma FailsExactly(s: State, c: CallId, ok: bool)
    requires CanAdvance(s, c, ok)
    ensures AdvanceCall(s, c, ok).calls[c].at == Releasing(Failed) <==> Blocked(s, s.calls[c].at, ok)
  {
  }

  /**
   Each step of a `stop` that waits for its engine: it fails exactly at the deadline, goes on to clear up
   exactly with the process gone and the lifetime lock in its hands, and otherwise looks again.
   */
  lemma StopStep(s: State, c: CallId, ok: bool, d: HostId)
    requires CanAdvance(s, c, ok)
    requires s.calls[c].at == AwaitGone(d) || s.calls[c].at == GoneProbe(d) || s.calls[c].at == GoneProbeHeld(d)
    ensures var p, q := s.calls[c].at, AdvanceCall(s, c, ok).calls[c].at;
      && (q == Releasing(Failed) <==> p == AwaitGone(d) && !ok)
      && (q == GoneProbe(d) <==> p == AwaitGone(d) && ok && !IdentityMatches(s, d))
      && (q == GoneProbeHeld(d) <==> p == GoneProbe(d) && s.lifetime == None)
      && (q == StopUnlink(Some(d)) <==> p == GoneProbeHeld(d))
      && (q == AwaitGone(d)
          <==> (p == AwaitGone(d) && ok && IdentityMatches(s, d)) || (p == GoneProbe(d) && s.lifetime != None))
  {
  }

  /** A launched child is never left behind: its call ends with it serving, or with it dead. */
  lemma StartupEndsReadyOrReaped(states: seq<State>, n: nat, c: CallId, child: HostId)
    requires Run(states, false) && n + 1 < |states| && c in states[n].calls && c in states[n + 1].calls
    requires StartupOf(states[n].calls[c].at) == Some(child) && StartupOf(states[n + 1].calls[c].at) != Some(child)
    ensures ReadyOrReaped(states[n + 1], c, child)
  {
    hide Inv, Run, Apply, Enabled, PointOk, ReadyOrReaped;
    RunKeeps(states, n);
    AtPoint(states[n], c);
    var a := StepTaken(states, n, false);
    LeavingStartup(states[n], a, c, child);
  }

  lemma LeavingStartup(s: State, a: Action, c: CallId, child: HostId)
    requires Enabled(s, a, false) && c in s.calls && PointOk(s, c, s.calls[c].begun, s.calls[c].at)
    requires StartupOf(s.calls[c].at) == Some(child) && StartupOf(Apply(s, a).calls[c].at) != Some(child)
    ensures ReadyOrReaped(Apply(s, a), c, child)
  {
    hide PointOk, FreshIdentity, ReadyOrReaped;
    assert a.Advance? && a.call == c by {
      hide StartupOf, AdvanceCall;
      if a.Advance? && a.call != c { OthersStay(s, a.call, a.ok, c); }
    }
    LeavingByAdvance(s, c, a.ok, child);
  }

  lemma LeavingByAdvance(s: State, c: CallId, ok: bool, child: HostId)
    requires CanAdvance(s, c, ok) && PointOk(s, c, s.calls[c].begun, s.calls[c].at)
    requires StartupOf(s.calls[c].at) == Some(child) && StartupOf(AdvanceCall(s, c, ok).calls[c].at) != Some(child)
    ensures ReadyOrReaped(AdvanceCall(s, c, ok), c, child)
  {
    hide OnlyChild, NoneLive, AnswerOk, IdentityMatches;
  }

  ghost predicate GoneForGood(s: State, h: HostId) {
    h in s.hosts && s.hosts[h].phase == Dead && !IdentityMatches(s, h)
  }

  /**
   `stop` reports stopped only when the lifetime lock is free, nothing is starting, the descriptor
   is gone and, after a shutdown request, the process it addressed is dead and no process that
   reuses its pid passes for it.
   */
  lemma StoppedMeansStopped(states: seq<State>, n: nat, c: CallId, gone: Option<HostId>)
    requires Run(states, false) && n + 1 < |states| && c in states[n].calls && c in states[n + 1].calls
    requires !states[n].calls[c].at.Releasing? && states[n + 1].calls[c].at == Releasing(Stopped(gone))
    ensures states[n + 1].descriptor == Absent && states[n + 1].lifetime == None
    ensures AllOver(states[n + 1])
    ensures gone.Some? ==> GoneForGood(states[n + 1], gone.value)
  {
    hide *;
    RunKeeps(states, n);
    RunKeeps(states, n + 1);
    var s, t := states[n], states[n + 1];
    var a := StepTaken(states, n, false);
    ReachingStopped(s, a, c, gone);
    StoppedStep(s, c, gone);
    AfterStopped(s, t, c, gone);
  }

  lemma StoppedStep(s: State, c: CallId, gone: Option<HostId>)
    requires c in s.calls && s.calls[c].at == StopUnlink(gone)
    ensures Enabled(s, Advance(c, true), true)
    ensures Apply(s, Advance(c, true)) == SetPoint(s, c, Releasing(Stopped(gone))).(descriptor := Absent)
  {
  }

  lemma AfterStopped(s: State, t: State, c: CallId, gone: Option<HostId>)
    requires Inv(s) && Inv(t) && c in s.calls && s.calls[c].at == StopUnlink(gone)
    requires t == SetPoint(s, c, Releasing(Stopped(gone))).(descriptor := Absent)
    ensures t.descriptor == Absent && t.lifetime == None && AllOver(t)
    ensures gone.Some? ==> GoneForGood(t, gone.value)
  {
    hide Inv;
    QuietState(s, c);
    AtPoint(t, c);
    hide OnlyChild, AnswerOk, NoneLive, WasStarted, IdentityMatches;
    if gone.Some? { MatchesExactly(t, gone.value); }
  }

  lemma ReachingStopped(s: State, a: Action, c: CallId, gone: Option<HostId>)
    requires Enabled(s, a, false) && c in s.calls && !s.calls[c].at.Releasing?
    requires Apply(s, a).calls[c].at == Releasing(Stopped(gone))
    ensures a == Advance(c, true) && s.calls[c].at == StopUnlink(gone)
  {
    hide IdentityMatches, FreshIdentity;
    if a.Advance? && a.call == c { StoppedFrom(s, c, a.ok, gone); }
    hide AdvanceCall;
    if a.Advance? && a.call != c { OthersStay(s, a.call, a.ok, c); }
  }

  lemma StoppedFrom(s: State, c: CallId, ok: bool, gone: Option<HostId>)
    requires CanAdvance(s, c, ok) && !s.calls[c].at.Releasing?
    requires AdvanceCall(s, c, ok).calls[c].at == Releasing(Stopped(gone))
    ensures ok && s.calls[c].at == StopUnlink(gone)
  {
    hide IdentityMatches, Readable, IsServing;
  }

  lemma OthersStay(s: State, x: CallId, ok: bool, c: CallId)
    requires CanAdvance(s, x, ok) && c in s.calls && c != x
    ensures c in AdvanceCall(s, x, ok).calls && AdvanceCall(s, x, ok).calls[c] == s.calls[c]
  {
    hide IdentityMatches;
  }

  /** A notification succeeds only by a reply of the serving engine that the call ensured. */
  lemma NotifiedByTheEngine(states: seq<State>, n: nat, c: CallId, a: Answer, started: bool)
    requires Run(states, false) && n + 1 < |states| && c in states[n].calls && c in states[n + 1].calls
    requires !states[n].calls[c].at.Releasing? && states[n + 1].calls[c].at == Releasing(Notified(a, started))
    ensures IsServing(states[n], a.engine) && states[n].descriptor == Published(a.engine)
    ensures states[n].calls[c].at == NotifyAsk(a, started, a.engine)
    ensures states[n].calls[c].begun <= a.stamp <= |states[n].engines| && a.stamp > 0
      && states[n].engines[a.stamp - 1] == a.engine
  {
    hide *;
    RunKeeps(states, n);
    var s := states[n];
    var b := StepTaken(states, n, false);
    ReachingNotified(s, b, c, a, started);
    ServingStaysPublished(states, n, a.engine);
    NotifiedAnswer(s, c, a, started);
  }

  lemma NotifiedAnswer(s: State, c: CallId, a: Answer, started: bool)
    requires Inv(s) && c in s.calls && s.calls[c].at == NotifyAsk(a, started, a.engine)
    ensures s.calls[c].begun <= a.stamp <= |s.engines| && a.stamp > 0 && s.engines[a.stamp - 1] == a.engine
  {
    hide Inv, OnlyChild, NoneLive, WasStarted;
    AtPoint(s, c);
  }

  lemma ReachingNotified(s: State, b: Action, c: CallId, a: Answer, started: bool)
    requires Enabled(s, b, false) && c in s.calls && !s.calls[c].at.Releasing?
    requires c in Apply(s, b).calls && Apply(s, b).calls[c].at == Releasing(Notified(a, started))
    ensures b == Advance(c, true) && s.calls[c].at == NotifyAsk(a, started, a.engine) && IsServing(s, a.engine)
  {
    hide IdentityMatches, FreshIdentity;
    if b.Advance? && b.call == c { NotifiedFrom(s, c, b.ok, a, started); }
    hide AdvanceCall;
    if b.Advance? && b.call != c { OthersStay(s, b.call, b.ok, c); }
  }

  lemma NotifiedFrom(s: State, c: CallId, ok: bool, a: Answer, started: bool)
    requires CanAdvance(s, c, ok) && !s.calls[c].at.Releasing?
    requires AdvanceCall(s, c, ok).calls[c].at == Releasing(Notified(a, started))
    ensures ok && s.calls[c].at == NotifyAsk(a, started, a.engine) && IsServing(s, a.engine)
  {
    hide IdentityMatches;
  }
}
