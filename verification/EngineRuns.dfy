/**
 The invariant along whole runs: calls that begin and end, processes that come and go, and by
 induction every state of every run. The steps of calls inside the launch lock and of hosts are
 those of `EngineSteps`.
 */
module EngineRuns {
  import opened Text
  import opened EngineProtocol
  import opened EngineInvariant
  import opened EngineSteps

  function Begun(s: State, c: CallId, kind: Kind): State {
    s.(calls := s.calls[c := Call(kind, |s.engines|, Waiting)])
  }

  lemma BegunCall(s: State, c: CallId, kind: Kind, x: CallId)
    requires Inv(s) && c !in s.calls && (x in s.calls || x == c)
    ensures CallOk(Begun(s, c, kind), x)
  {
    var t := Begun(s, c, kind);
    if x in s.calls {
      assert CallOk(s, x);
      hide HostOk;
      PointKept(s, t, x, s.calls[x].begun, s.calls[x].at);
      hide PointOk;
    } else {
      StartupOfWaiting();
      PlainPoint(t, x, |s.engines|, Waiting);
      hide PointOk;
    }
  }

  lemma BegunHost(s: State, c: CallId, kind: Kind, h: HostId)
    requires c !in s.calls && h in s.hosts && HostOk(s, h)
    ensures HostOk(Begun(s, c, kind), h)
  {
    hide Settled, StartupOf;
  }

  lemma BeginStep(s: State, c: CallId, kind: Kind)
    requires Inv(s) && c !in s.calls
    ensures Inv(Begun(s, c, kind))
  {
    var t := Begun(s, c, kind);
    hide HostOk, CallOk;
    forall x | x in t.calls ensures CallOk(t, x) { BegunCall(s, c, kind, x); }
    forall h | h in t.hosts ensures HostOk(t, h) { BegunHost(s, c, kind, h); }
  }

  lemma StartupOfWaiting()
    ensures StartupOf(Waiting) == None
  {
  }

  /** A point of a call outside the launch lock, seen again after a new host was added. */
  lemma SpawnPoint(s: State, t: State, c: CallId, begun: nat, p: Point, h: HostId, host: Host)
    requires PointOk(s, c, begun, p) && !InLock(p) && h !in s.hosts
    requires t.hosts == s.hosts[h := host] && t.engines == s.engines
    ensures PointOk(t, c, begun, p)
  {
    hide OnlyChild, NoneLive;
  }

  lemma SpawnedPoint(s: State, t: State, c: CallId, begun: nat, h: HostId)
    requires NoneLive(s) && s.descriptor == Absent && h in t.hosts && t.hosts[h].launcher == Some(c)
    requires t.hosts.Keys == s.hosts.Keys + {h} && h !in s.hosts && t.descriptor == s.descriptor
    requires forall x | x in s.hosts :: t.hosts[x] == s.hosts[x]
    ensures PointOk(t, c, begun, ReadStatus(AtStartup(h)))
  {
  }

  lemma SpawnCalls(s: State, c: CallId, h: HostId, i: Identity, x: CallId)
    requires Inv(s) && c in s.calls && s.calls[c].at == Launch && h !in s.hosts && x in s.calls
    ensures CallOk(SetPoint(s, c, ReadStatus(AtStartup(h))).(
      hosts := s.hosts[h := Host(i, Starting, false, Some(c))], used := s.used + {i}), x)
  {
    var t := SetPoint(s, c, ReadStatus(AtStartup(h))).(
      hosts := s.hosts[h := Host(i, Starting, false, Some(c))], used := s.used + {i});
    AtPoint(s, c);
    assert CallOk(s, x) && CallOk(s, c);
    if x == c {
      hide Inv;
      SpawnedPoint(s, t, c, s.calls[c].begun, h);
      hide PointOk;
    } else {
      if InLock(s.calls[x].at) { OneInside(s, c, x); }
      hide Inv;
      SpawnPoint(s, t, x, s.calls[x].begun, s.calls[x].at, h, t.hosts[h]);
      hide PointOk;
    }
  }

  lemma SpawnHosts(s: State, c: CallId, h: HostId, i: Identity, x: HostId)
    requires Inv(s) && c in s.calls && s.calls[c].at == Launch && h !in s.hosts && i !in s.used
    requires x in s.hosts || x == h
    ensures HostOk(SetPoint(s, c, ReadStatus(AtStartup(h))).(
      hosts := s.hosts[h := Host(i, Starting, false, Some(c))], used := s.used + {i}), x)
  {
    assert CallOk(s, c);
    if x in s.hosts {
      assert HostOk(s, x);
    } else {
      assert h !in s.engines;
      assert s.lifetime != Some(ByHost(h));
    }
  }

  lemma SpawnStep(s: State, c: CallId, h: HostId, i: Identity)
    requires Inv(s) && c in s.calls && s.calls[c].at == Launch && h !in s.hosts && FreshIdentity(s, i)
    ensures Inv(Apply(s, Spawn(c, h, i)))
  {
    var t := Apply(s, Spawn(c, h, i));
    assert IdentitiesOk(t) by {
      forall x | x in s.hosts ensures s.hosts[x].identity != i { assert HostOk(s, x); }
    }
    assert FilesOk(t) && OwnersOk(t);
    hide HostOk, CallOk;
    forall x | x in t.calls ensures CallOk(t, x) { SpawnCalls(s, c, h, i, x); }
    forall x | x in t.hosts ensures HostOk(t, x) { SpawnHosts(s, c, h, i, x); }
  }

  function Ended(s: State, c: CallId): State
    requires c in s.calls
  {
    SetPoint(s, c, Done(Failed)).(
      launch := if s.launch == Some(ByCall(c)) then None else s.launch,
      lifetime := if s.lifetime == Some(ByCall(c)) then None else s.lifetime)
  }

  lemma EndedHost(s: State, c: CallId, h: HostId)
    requires c in s.calls && h in s.hosts && HostOk(s, h) && StartupOf(s.calls[c].at) == None
    requires SettledKept(s.calls[c].at, Done(Failed))
    ensures HostOk(Ended(s, c), h)
  {
    hide StartupOf, Settled;
  }

  lemma EndedCall(s: State, c: CallId, x: CallId)
    requires c in s.calls && x in s.calls && x != c && CallOk(s, x)
    ensures CallOk(Ended(s, c), x)
  {
    PointKept(s, Ended(s, c), x, s.calls[x].begun, s.calls[x].at);
    hide PointOk, InLock, HoldsProbe;
  }

  lemma EndedSelf(s: State, c: CallId)
    requires c in s.calls && CallOk(s, c)
    ensures CallOk(Ended(s, c), c)
  {
    EndedPoint(Ended(s, c), c);
    hide PointOk;
  }

  lemma EndedFiles(s: State, c: CallId)
    requires c in s.calls && FilesOk(s) && IdentitiesOk(s) && OwnersOk(s)
    ensures var t := Ended(s, c); FilesOk(t) && IdentitiesOk(t) && OwnersOk(t)
  {
  }

  /** An ending call lets go of its locks. */
  lemma AbortStep(s: State, c: CallId)
    requires Inv(s) && c in s.calls && StartupOf(s.calls[c].at) == None
    ensures Inv(Ended(s, c))
  {
    hide HostOk, CallOk, SettledKept, FilesOk, IdentitiesOk, OwnersOk, StartupOf;
    KeptByEnding(s.calls[c].at);
    EndedFiles(s, c);
    var t := Ended(s, c);
    EndedSelf(s, c);
    forall x | x in t.calls ensures CallOk(t, x) { if x != c { EndedCall(s, c, x); } }
    forall h | h in t.hosts ensures HostOk(t, h) { EndedHost(s, c, h); }
  }

  lemma KeptByEnding(p: Point)
    ensures SettledKept(p, Done(Failed))
  {
  }

  lemma EndedPoint(s: State, c: CallId)
    ensures forall begun :: PointOk(s, c, begun, Done(Failed))
    ensures !InLock(Done(Failed)) && !HoldsProbe(Done(Failed))
  {
  }

  lemma StrangerStep(s: State, i: Identity, starts: bool)
    requires Inv(s) && (starts ==> i !in s.used)
    ensures Inv(
      if starts then s.(strangers := s.strangers + {i}, used := s.used + {i}) else s.(strangers := s.strangers - {i}))
  {
    hide Settled, StartupOf, PointOk, InLock, HoldsProbe;
    var t :=
      if starts then s.(strangers := s.strangers + {i}, used := s.used + {i}) else s.(strangers := s.strangers - {i});
    forall x | x in t.calls ensures CallOk(t, x) {
      assert CallOk(s, x);
      PointKept(s, t, x, s.calls[x].begun, s.calls[x].at);
    }
    forall h | h in t.hosts ensures HostOk(t, h) { assert HostOk(s, h); }
  }

  lemma AdvanceStep(s: State, c: CallId, ok: bool)
    requires Inv(s) && CanAdvance(s, c, ok)
    ensures Inv(AdvanceCall(s, c, ok))
  {
    hide Inv, AdvanceCall;
    match s.calls[c].at
    case Waiting => EnterStep(s, c, ok);
    case ReadStatus(_) => ReadStatusStep(s, c, ok);
    case MatchStatus(_, _) => MatchStatusStep(s, c, ok);
    case AskHealth(_, _) => AskHealthStep(s, c, ok);
    case ConfirmRead(_) => ConfirmStep(s, c, ok);
    case ConfirmMatch(_, _) => ConfirmStep(s, c, ok);
    case ConfirmHello(_, _) => ConfirmStep(s, c, ok);
    case Probe => ProbeStep(s, c, ok);
    case ProbeHeld => ProbeHeldStep(s, c, ok);
    case Unlink => UnlinkStep(s, c, ok);
    case Launch => GiveUpStep(s, c, ok);
    case PollChild(_) => GiveUpStep(s, c, ok);
    case Terminate(_) => TerminateStep(s, c, ok);
    case NotifyRead(_, _) => NotifyStep(s, c, ok);
    case NotifyMatch(_, _, _) => NotifyStep(s, c, ok);
    case NotifyAsk(_, _, _) => NotifyStep(s, c, ok);
    case StopRead => StopSideStep(s, c, ok);
    case StopMatch(_) => StopSideStep(s, c, ok);
    case StopProbe => ProbeStep(s, c, ok);
    case StopProbeHeld => ProbeHeldStep(s, c, ok);
    case ShutRead => StopSideStep(s, c, ok);
    case ShutMatch(_) => StopSideStep(s, c, ok);
    case ShutAsk(_) => ShutAskStep(s, c, ok);
    case AwaitGone(_) => AwaitGoneStep(s, c, ok);
    case GoneProbe(_) => ProbeStep(s, c, ok);
    case GoneProbeHeld(_) => ProbeHeldStep(s, c, ok);
    case StopUnlink(_) => UnlinkStep(s, c, ok);
    case Releasing(_) => ReleaseStep(s, c, ok);
  }

  lemma HostStepInv(s: State, h: HostId, cause: Cause)
    requires Inv(s) && CanStep(s, h, cause)
    ensures Inv(AdvanceHost(s, h, cause))
  {
    hide Inv, AdvanceHost;
    if CalmStep(s, h, cause) { ClosingSideStep(s, h, cause); }
    else if s.hosts[h].phase == Starting { AcquireStep(s, h); }
    else { PublishStep(s, h); }
  }

  /** Every step keeps the invariant. */
  lemma StepKeeps(s: State, a: Action)
    requires Inv(s) && Enabled(s, a, false)
    ensures Inv(Apply(s, a))
  {
    hide Inv, AdvanceCall, AdvanceHost, FreshIdentity, KillHost;
    match a
    case Begin(c, kind) => BeginStep(s, c, kind);
    case Advance(c, ok) => AdvanceStep(s, c, ok);
    case Spawn(c, h, i) => SpawnStep(s, c, h, i);
    case Abort(c) => AbortStep(s, c);
    case HostStep(h, cause) => HostStepInv(s, h, cause);
    case Kill(h) => KillInv(s, h);
    case StrangerStarts(i) => assert i !in s.used by { FreshIsNew(s, i); } StrangerStep(s, i, true);
    case StrangerExits(i) => StrangerStep(s, i, false);
  }

  lemma FreshIsNew(s: State, i: Identity)
    requires FreshIdentity(s, i)
    ensures i !in s.used
  {
  }

  /** The step that a run takes from its `n`th state. */
  lemma StepTaken(states: seq<State>, n: nat, careless: bool) returns (a: Action)
    requires Run(states, careless) && n + 1 < |states|
    ensures Enabled(states[n], a, careless) && Enabled(states[n], a, true) && states[n + 1] == Apply(states[n], a)
  {
    assert Next(states[n], states[n + 1], careless);
    hide Apply, Run;
    a :| Enabled(states[n], a, careless) && states[n + 1] == Apply(states[n], a);
  }

  /** Every state of every run satisfies the invariant. */
  lemma {:induction false} RunKeeps(states: seq<State>, n: nat)
    requires Run(states, false) && n < |states|
    ensures Inv(states[n])
  {
    hide *;
    if n == 0 {
      RunStarts(states);
      InitInv(states[0]);
    } else {
      RunKeeps(states, n - 1);
      var a := StepTaken(states, n - 1, false);
      StepKeeps(states[n - 1], a);
    }
  }

  lemma RunStarts(states: seq<State>)
    requires Run(states, false)
    ensures states != [] && Init(states[0])
  {
    hide Init;
  }
}
