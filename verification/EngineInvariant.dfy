/**
 The inductive invariant of the engine lifecycle: every step of every interleaving keeps it,
 as long as no call ends between launching a child and disposing of it.
 */
module EngineInvariant {
  import opened Text
  import opened EngineProtocol

  // ---------------------------------------------------------------- what a point of a call implies

  /** Between a free lifetime probe and the launch or the removal it guards. */
  predicate Quiet(p: Point) {
    p.ProbeHeld? || p.Unlink? || p.Launch? || p.StopProbeHeld? || p.GoneProbeHeld? || p.StopUnlink?
  }

  function AnswerOf(p: Point): Option<Answer> {
    match p
    case ConfirmRead(a) => Some(a)
    case ConfirmMatch(a, _) => Some(a)
    case ConfirmHello(a, _) => Some(a)
    case NotifyRead(a, _) => Some(a)
    case NotifyMatch(a, _, _) => Some(a)
    case NotifyAsk(a, _, _) => Some(a)
    case Releasing(o) => OutcomeAnswer(o)
    case Done(o) => OutcomeAnswer(o)
    case _ => None
  }

  function OutcomeAnswer(o: Outcome): Option<Answer> {
    match o
    case Ensured(a, _) => Some(a)
    case Notified(a, _) => Some(a)
    case _ => None
  }

  /** The call has an answer that it counts as having started. */
  predicate Started(p: Point) {
    match p
    case NotifyRead(_, started) => started
    case NotifyMatch(_, started, _) => started
    case NotifyAsk(_, started, _) => started
    case Releasing(o) => OutcomeStarted(o)
    case Done(o) => OutcomeStarted(o)
    case _ => false
  }

  predicate OutcomeStarted(o: Outcome) {
    match o
    case Ensured(_, started) => started
    case Notified(_, started) => started
    case _ => false
  }

  /** The descriptor a call has read, if its next step uses it. */
  function DescriptorOf(p: Point): Option<HostId> {
    match p
    case MatchStatus(_, d) => Some(d)
    case AskHealth(_, d) => Some(d)
    case ConfirmMatch(_, d) => Some(d)
    case ConfirmHello(_, d) => Some(d)
    case NotifyMatch(_, _, d) => Some(d)
    case NotifyAsk(_, _, d) => Some(d)
    case StopMatch(d) => Some(d)
    case ShutMatch(d) => Some(d)
    case ShutAsk(d) => Some(d)
    case AwaitGone(d) => Some(d)
    case _ => None
  }

  /** The host a stop has seen gone. */
  function GoneOf(p: Point): Option<HostId> {
    match p
    case GoneProbe(d) => Some(d)
    case GoneProbeHeld(d) => Some(d)
    case StopUnlink(gone) => gone
    case Releasing(Stopped(gone)) => gone
    case Done(Stopped(gone)) => gone
    case _ => None
  }

  /** The call launched `h` and has since failed, or has `h` as the engine it started. */
  predicate Settled(p: Point, h: HostId) {
    StartupOf(p) == Some(h)
    || p == Releasing(Failed) || p == Done(Failed)
    || (Started(p) && AnswerOf(p).Some? && AnswerOf(p).value.engine == h)
  }

  ghost predicate NoneLive(s: State) {
    forall h | h in s.hosts :: !Holding(s.hosts[h].phase)
  }

  /** While `child` starts under the launch lock nothing else can be live or published. */
  ghost predicate OnlyChild(s: State, child: HostId) {
    (forall h | h in s.hosts && Holding(s.hosts[h].phase) :: h == child)
    && (s.descriptor == Absent || s.descriptor == Published(child))
  }

  ghost predicate AnswerOk(s: State, c: CallId, begun: nat, a: Answer, started: bool) {
    && begun <= a.stamp && 1 <= a.stamp <= |s.engines| && s.engines[a.stamp - 1] == a.engine
    && (started ==> a.engine in s.hosts && s.hosts[a.engine].launcher == Some(c))
  }

  ghost predicate WasStarted(s: State, d: HostId) {
    d in s.hosts && s.hosts[d].phase != Starting
  }

  ghost predicate PointOk(s: State, c: CallId, begun: nat, p: Point) {
    && (StartupOf(p).Some? ==>
          var h := StartupOf(p).value;
          h in s.hosts && s.hosts[h].launcher == Some(c) && OnlyChild(s, h)
          && (DescriptorOf(p).Some? ==> DescriptorOf(p).value == h))
    && (DescriptorOf(p).Some? ==> WasStarted(s, DescriptorOf(p).value))
    && (Quiet(p) ==> NoneLive(s))
    && (p == Launch ==> s.descriptor == Absent)
    && (GoneOf(p).Some? ==> GoneOf(p).value in s.hosts && s.hosts[GoneOf(p).value].phase == Dead)
    && (AnswerOf(p).Some? ==> AnswerOk(s, c, begun, AnswerOf(p).value, Started(p)))
  }

  ghost predicate CallOk(s: State, c: CallId)
    requires c in s.calls
  {
    var p := s.calls[c].at;
    && (InLock(p) <==> s.launch == Some(ByCall(c)))
    && (HoldsProbe(p) <==> s.lifetime == Some(ByCall(c)))
    && s.calls[c].begun <= |s.engines|
    && PointOk(s, c, s.calls[c].begun, p)
  }

  ghost predicate HostOk(s: State, h: HostId)
    requires h in s.hosts
  {
    var host := s.hosts[h];
    && (Holding(host.phase) <==> s.lifetime == Some(ByHost(h)))
    && (s.launch == Some(ByHost(h)) ==> host.phase in {Closing, Unlisted, Released})
    && (host.phase == Starting ==>
          host.launcher.Some? && host.launcher.value in s.calls
          && StartupOf(s.calls[host.launcher.value].at) == Some(h) && h !in s.engines)
    && (host.launcher.Some? ==>
          host.launcher.value in s.calls && Settled(s.calls[host.launcher.value].at, h))
    && (Holding(host.phase) ==> s.engines != [] && s.engines[|s.engines| - 1] == h)
    && host.identity in s.used && host.identity !in s.strangers
  }

  ghost predicate OwnersOk(s: State) {
    && (forall c | s.launch == Some(ByCall(c)) :: c in s.calls)
    && (forall c | s.lifetime == Some(ByCall(c)) :: c in s.calls)
    && (forall h | s.launch == Some(ByHost(h)) :: h in s.hosts)
    && (forall h | s.lifetime == Some(ByHost(h)) :: h in s.hosts)
  }

  ghost predicate FilesOk(s: State) {
    && (s.descriptor.Published? ==>
          s.descriptor.host in s.hosts && s.hosts[s.descriptor.host].phase !in {Starting, Acquired})
    && (forall i | 0 <= i < |s.engines| :: s.engines[i] in s.hosts)
    && (forall i, j | 0 <= i < j < |s.engines| :: s.engines[i] != s.engines[j])
    && s.strangers <= s.used
  }

  /** No two processes, living or dead, share pid and start time. */
  ghost predicate IdentitiesOk(s: State) {
    forall h, g | h in s.hosts && g in s.hosts && h != g :: s.hosts[h].identity != s.hosts[g].identity
  }

  ghost predicate Inv(s: State) {
    && OwnersOk(s) && FilesOk(s) && IdentitiesOk(s)
    && (forall c | c in s.calls :: CallOk(s, c))
    && (forall h | h in s.hosts :: HostOk(s, h))
  }

  lemma InitInv(s: State)
    requires Init(s)
    ensures Inv(s)
  {
  }

  /** Even with reused pids, a descriptor's identity matches exactly while its host lives. */
  lemma MatchesExactly(s: State, d: HostId)
    requires Inv(s) && d in s.hosts
    ensures IdentityMatches(s, d) <==> s.hosts[d].phase != Dead
  {
  }

  /** The only host that can be starting is the child of the call that holds the launch lock. */
  lemma StartingIsMine(s: State, c: CallId, h: HostId)
    requires Inv(s) && s.launch == Some(ByCall(c)) && h in s.hosts && s.hosts[h].phase == Starting
    ensures c in s.calls && StartupOf(s.calls[c].at) == Some(h)
  {
    assert HostOk(s, h);
    var l := s.hosts[h].launcher.value;
    assert CallOk(s, l) && InLock(s.calls[l].at);
    hide HostOk, PointOk;
  }

  // ---------------------------------------------------------------- steps that only move a call

  /** A call inside the launch lock moves on without touching anything shared. */
  lemma MoveInv(s: State, c: CallId, p: Point)
    requires Inv(s) && c in s.calls && InLock(s.calls[c].at) && InLock(p)
    requires !HoldsProbe(s.calls[c].at) && !HoldsProbe(p)
    requires PointOk(s, c, s.calls[c].begun, p)
    requires forall h | h in s.hosts && s.hosts[h].launcher == Some(c) :: Settled(p, h)
    requires forall h | h in s.hosts && s.hosts[h].phase == Starting && s.hosts[h].launcher == Some(c) ::
        StartupOf(p) == Some(h)
    ensures Inv(SetPoint(s, c, p))
  {
    hide StartupOf, DescriptorOf, GoneOf, AnswerOf, Started, Settled, Quiet;
    var t := SetPoint(s, c, p);
    forall x | x in t.calls ensures CallOk(t, x) {
      if x != c { assert CallOk(s, x); PointKept(s, t, x, s.calls[x].begun, s.calls[x].at); }
      else { PointKept(s, t, x, s.calls[x].begun, p); }
    }
    forall h | h in t.hosts ensures HostOk(t, h) {
      assert HostOk(s, h);
    }
  }

  /** A point's meaning depends on hosts, descriptor and engines only. */
  lemma PointKept(s: State, t: State, c: CallId, begun: nat, p: Point)
    requires s.hosts == t.hosts && s.descriptor == t.descriptor && s.engines == t.engines
    requires PointOk(s, c, begun, p)
    ensures PointOk(t, c, begun, p)
  {
    hide StartupOf, DescriptorOf, GoneOf, AnswerOf, Started, Quiet;
  }

  /** Hosts a call has launched stay accounted for when it moves from `p` to `q`. */
  ghost predicate SettledKept(p: Point, q: Point) {
    forall h :: Settled(p, h) ==> Settled(q, h)
  }

  lemma Moved(s: State, c: CallId, q: Point)
    requires Inv(s) && c in s.calls && InLock(s.calls[c].at) && InLock(q)
    requires !HoldsProbe(s.calls[c].at) && !HoldsProbe(q)
    requires PointOk(s, c, s.calls[c].begun, q) && SettledKept(s.calls[c].at, q)
    requires StartupOf(s.calls[c].at).Some? && StartupOf(q) != StartupOf(s.calls[c].at) ==>
      StartupOf(s.calls[c].at).value in s.hosts && s.hosts[StartupOf(s.calls[c].at).value].phase != Starting
    ensures Inv(SetPoint(s, c, q))
  {
    hide StartupOf, DescriptorOf, GoneOf, AnswerOf, Started, Settled, Quiet, PointOk;
    forall h | h in s.hosts && s.hosts[h].launcher == Some(c)
      ensures Settled(q, h) && (s.hosts[h].phase == Starting ==> StartupOf(q) == Some(h))
    {
      assert HostOk(s, h);
    }
    MoveInv(s, c, q);
  }

  /** What the invariant says of the point a call is at. */
  lemma AtPoint(s: State, c: CallId)
    requires Inv(s) && c in s.calls
    ensures PointOk(s, c, s.calls[c].begun, s.calls[c].at) && s.calls[c].begun <= |s.engines|
  {
    assert CallOk(s, c);
  }

  lemma AtCall(s: State, c: CallId)
    requires Inv(s) && c in s.calls
    ensures InLock(s.calls[c].at) <==> s.launch == Some(ByCall(c))
    ensures HoldsProbe(s.calls[c].at) <==> s.lifetime == Some(ByCall(c))
  {
    assert CallOk(s, c);
    hide PointOk, HostOk;
  }

  /** A serving host is the latest engine. */
  lemma ServingIsLatest(s: State, h: HostId)
    requires Inv(s) && IsServing(s, h)
    ensures s.engines != [] && s.engines[|s.engines| - 1] == h
  {
    assert HostOk(s, h);
  }

  // ---------------------------------------------------------------- what moving keeps

  lemma NothingToKeep(p: Point, q: Point)
    requires StartupOf(p) == None && !Started(p) && p != Releasing(Failed) && p != Done(Failed)
    ensures SettledKept(p, q)
  {
  }

  lemma KeptByFailing(p: Point)
    ensures SettledKept(p, Releasing(Failed))
  {
  }

  /** A call gives up, once any child it launched is past starting. */
  lemma FailInv(s: State, c: CallId)
    requires Inv(s) && c in s.calls && InLock(s.calls[c].at) && !HoldsProbe(s.calls[c].at)
    requires var h := StartupOf(s.calls[c].at); h.Some? ==> h.value in s.hosts && s.hosts[h.value].phase != Starting
    ensures Inv(SetPoint(s, c, Releasing(Failed)))
  {
    hide Inv, SettledKept, PointOk;
    KeptByFailing(s.calls[c].at);
    FailedPoint(s, c, s.calls[c].begun);
    Moved(s, c, Releasing(Failed));
  }

  lemma FailedPoint(s: State, c: CallId, begun: nat)
    ensures PointOk(s, c, begun, Releasing(Failed))
  {
  }

  /** A call with nothing launched moves on. */
  lemma StepInv(s: State, c: CallId, q: Point)
    requires Inv(s) && c in s.calls && InLock(s.calls[c].at) && !HoldsProbe(s.calls[c].at)
    requires InLock(q) && !HoldsProbe(q)
    requires var p := s.calls[c].at; StartupOf(p) == None && !Started(p) && p != Releasing(Failed)
    requires PointOk(s, c, s.calls[c].begun, q)
    ensures Inv(SetPoint(s, c, q))
  {
    NothingToKeep(s.calls[c].at, q);
    hide Inv, PointOk, SettledKept, Started;
    Moved(s, c, q);
  }

  /** A readable descriptor names a host that has published it. */
  lemma ReadableOk(s: State)
    requires Inv(s)
    ensures Readable(s).Some? ==> WasStarted(s, Readable(s).value)
  {
  }

  lemma ReadStatusStep(s: State, c: CallId, ok: bool)
    requires Inv(s) && CanAdvance(s, c, ok) && s.calls[c].at.ReadStatus?
    ensures Inv(AdvanceCall(s, c, ok))
  {
    hide Inv, SetPoint, WasStarted, NoneLive, AnswerOk, SettledKept;
    AtPoint(s, c);
    ReadableOk(s);
    var at := s.calls[c].at.at;
    var q := match Readable(s) case None => NotRunning(at) case Some(d) => MatchStatus(at, d);
    assert AdvanceCall(s, c, ok) == SetPoint(s, c, q);
    hide AdvanceCall;
    if at.AtStartup? {
      KeptChild(s.calls[c].at, q, at.child);
      Moved(s, c, q);
    } else {
      StepInv(s, c, q);
    }
  }

  lemma KeptChild(p: Point, q: Point, h: HostId)
    requires StartupOf(p) == Some(h) && StartupOf(q) == Some(h) && !Started(p)
    ensures SettledKept(p, q)
  {
  }
}
