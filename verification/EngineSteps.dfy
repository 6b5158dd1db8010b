/**
 Every single step of a call or a host keeps the invariant of the engine lifecycle. Steps that only
 move a call, steps that take and release a lock, the two removals of the descriptor and the steps
 of a host are taken in turn; each says first where it leads and then why the new point is right.
 */
module EngineSteps {
  import opened Text
  import opened EngineProtocol
  import opened EngineInvariant

  // ---------------------------------------------------------------- steps that only move a call

  lemma MatchStatusStep(s: State, c: CallId, ok: bool)
    requires Inv(s) && CanAdvance(s, c, ok) && s.calls[c].at.MatchStatus?
    ensures Inv(AdvanceCall(s, c, ok))
  {
    hide Inv, SetPoint, WasStarted, IdentityMatches, NoneLive, AnswerOk, SettledKept;
    AtPoint(s, c);
    var at, d := s.calls[c].at.at, s.calls[c].at.d;
    var q := if IdentityMatches(s, d) then AskHealth(at, d) else NotRunning(at);
    assert AdvanceCall(s, c, ok) == SetPoint(s, c, q);
    hide AdvanceCall;
    if at.AtStartup? {
      KeptChild(s.calls[c].at, q, at.child);
      Moved(s, c, q);
    } else {
      StepInv(s, c, q);
    }
  }

  lemma HealthAnswer(s: State, c: CallId, d: HostId)
    requires Inv(s) && c in s.calls && IsServing(s, d)
    ensures AnswerOk(s, c, s.calls[c].begun, Answer(d, |s.engines|), false)
  {
    ServingIsLatest(s, d);
    AtPoint(s, c);
  }

  lemma AskHealthStep(s: State, c: CallId, ok: bool)
    requires Inv(s) && CanAdvance(s, c, ok) && s.calls[c].at.AskHealth?
    ensures Inv(AdvanceCall(s, c, ok))
  {
    hide Inv, SetPoint, WasStarted, NoneLive, SettledKept;
    AtPoint(s, c);
    var at, d := s.calls[c].at.at, s.calls[c].at.d;
    var q := if ok then Running(at, s.calls[c].kind, Answer(d, |s.engines|)) else NotRunning(at);
    assert AdvanceCall(s, c, ok) == SetPoint(s, c, q);
    hide AdvanceCall;
    if ok { HealthAnswer(s, c, d); }
    if at.AtStartup? {
      if ok { KeptStarted(s.calls[c].at, q, at.child); } else { KeptChild(s.calls[c].at, q, at.child); }
      Moved(s, c, q);
    } else {
      StepInv(s, c, q);
    }
  }

  /** A child found ready is the engine its call started. */
  lemma KeptStarted(p: Point, q: Point, h: HostId)
    requires StartupOf(p) == Some(h) && !Started(p) && p != Releasing(Failed) && p != Done(Failed)
    requires Started(q) && AnswerOf(q).Some? && AnswerOf(q).value.engine == h
    ensures SettledKept(p, q)
  {
  }

  function ConfirmTarget(s: State, kind: Kind, p: Point, ok: bool): Point {
    match p
    case ConfirmRead(a) => (match Readable(s) case None => Releasing(Failed) case Some(d) => ConfirmMatch(a, d))
    case ConfirmMatch(a, d) => if IdentityMatches(s, d) then ConfirmHello(a, d) else Releasing(Failed)
    case ConfirmHello(a, _) => if ok then AfterEnsure(kind, a, false) else Releasing(Failed)
    case _ => Releasing(Failed)
  }

  lemma ConfirmStep(s: State, c: CallId, ok: bool)
    requires Inv(s) && CanAdvance(s, c, ok)
    requires s.calls[c].at.ConfirmRead? || s.calls[c].at.ConfirmMatch? || s.calls[c].at.ConfirmHello?
    ensures Inv(AdvanceCall(s, c, ok))
  {
    hide Inv, SetPoint, WasStarted, AnswerOk, IdentityMatches, PointOk;
    AtPoint(s, c);
    ReadableOk(s);
    var q := ConfirmTarget(s, s.calls[c].kind, s.calls[c].at, ok);
    assert AdvanceCall(s, c, ok) == SetPoint(s, c, q);
    hide AdvanceCall;
    AnswerGoesOn(s, c, q);
    hide ConfirmTarget;
    StepInv(s, c, q);
  }

  /** A call keeps the answer it has, or fails. */
  lemma AnswerGoesOn(s: State, c: CallId, q: Point)
    requires c in s.calls && PointOk(s, c, s.calls[c].begun, s.calls[c].at)
    requires q == Releasing(Failed)
      || (AnswerOf(q) == AnswerOf(s.calls[c].at) && AnswerOf(q).Some? && Started(q) == Started(s.calls[c].at)
          && (DescriptorOf(q) == None || DescriptorOf(q) == DescriptorOf(s.calls[c].at)
              || (DescriptorOf(q).Some? && WasStarted(s, DescriptorOf(q).value))))
    ensures PointOk(s, c, s.calls[c].begun, q)
  {
    hide AnswerOk, WasStarted, OnlyChild, NoneLive;
  }

  lemma KeptAnswer(p: Point, q: Point)
    requires StartupOf(p) == None && p != Releasing(Failed) && p != Done(Failed)
    requires AnswerOf(p) == AnswerOf(q) && Started(p) == Started(q)
    ensures SettledKept(p, q)
  {
  }

  function NotifyTarget(s: State, p: Point, ok: bool): Point {
    match p
    case NotifyRead(a, started) =>
      (match Readable(s) case None => Releasing(Failed) case Some(d) => NotifyMatch(a, started, d))
    case NotifyMatch(a, started, d) => if IdentityMatches(s, d) then NotifyAsk(a, started, d) else Releasing(Failed)
    case NotifyAsk(a, started, d) => Releasing(if ok && d == a.engine then Notified(a, started) else Failed)
    case _ => Releasing(Failed)
  }

  lemma NotifyStep(s: State, c: CallId, ok: bool)
    requires Inv(s) && CanAdvance(s, c, ok)
    requires s.calls[c].at.NotifyRead? || s.calls[c].at.NotifyMatch? || s.calls[c].at.NotifyAsk?
    ensures Inv(AdvanceCall(s, c, ok))
  {
    hide Inv, SetPoint, WasStarted, AnswerOk, IdentityMatches, PointOk, SettledKept;
    AtPoint(s, c);
    ReadableOk(s);
    var p := s.calls[c].at;
    var q := NotifyTarget(s, p, ok);
    assert AdvanceCall(s, c, ok) == SetPoint(s, c, q);
    hide AdvanceCall;
    if q == Releasing(Failed) {
      FailInv(s, c);
    } else {
      AnswerGoesOn(s, c, q);
      KeptAnswer(p, q);
      hide NotifyTarget;
      Moved(s, c, q);
    }
  }

  /** A point that only remembers a descriptor, if that, promises no more than that. */
  lemma PlainPoint(s: State, c: CallId, begun: nat, q: Point)
    requires StartupOf(q) == None && !Quiet(q) && GoneOf(q) == None && AnswerOf(q) == None
    requires DescriptorOf(q) == None || WasStarted(s, DescriptorOf(q).value)
    ensures PointOk(s, c, begun, q)
  {
  }

  function StopSideTarget(s: State, p: Point): Point {
    match p
    case StopRead => (match Readable(s) case None => StopProbe case Some(d) => StopMatch(d))
    case StopMatch(d) => if IdentityMatches(s, d) then Releasing(Failed) else StopProbe
    case ShutRead => (match Readable(s) case None => Releasing(Failed) case Some(d) => ShutMatch(d))
    case ShutMatch(d) => if IdentityMatches(s, d) then ShutAsk(d) else Releasing(Failed)
    case _ => Releasing(Failed)
  }

  lemma StopSidePlain(s: State, p: Point)
    requires DescriptorOf(p) == None || WasStarted(s, DescriptorOf(p).value)
    requires Readable(s) == None || WasStarted(s, Readable(s).value)
    ensures var q := StopSideTarget(s, p);
      && StartupOf(q) == None && !Quiet(q) && GoneOf(q) == None && AnswerOf(q) == None
      && InLock(q) && !HoldsProbe(q)
      && (DescriptorOf(q) == None || WasStarted(s, DescriptorOf(q).value))
  {
    hide IdentityMatches, WasStarted;
  }

  lemma StopSideStep(s: State, c: CallId, ok: bool)
    requires Inv(s) && CanAdvance(s, c, ok)
    requires s.calls[c].at.StopRead? || s.calls[c].at.StopMatch? || s.calls[c].at.ShutRead? || s.calls[c].at.ShutMatch?
    ensures Inv(AdvanceCall(s, c, ok))
  {
    hide Inv, SetPoint, WasStarted, IdentityMatches, OnlyChild, NoneLive, AnswerOk;
    AtPoint(s, c);
    ReadableOk(s);
    var p := s.calls[c].at;
    var q := StopSideTarget(s, p);
    assert AdvanceCall(s, c, ok) == SetPoint(s, c, q);
    hide AdvanceCall, CanAdvance;
    StopSidePlain(s, p);
    hide PointOk, StopSideTarget, Readable;
    PlainPoint(s, c, s.calls[c].begun, q);
    assert StartupOf(p) == None && !Started(p) && p != Releasing(Failed) && InLock(p) && !HoldsProbe(p);
    hide StartupOf, Started, InLock, HoldsProbe, Quiet, GoneOf, AnswerOf, DescriptorOf;
    StepInv(s, c, q);
  }

  lemma AwaitGoneStep(s: State, c: CallId, ok: bool)
    requires Inv(s) && CanAdvance(s, c, ok) && s.calls[c].at.AwaitGone?
    ensures Inv(AdvanceCall(s, c, ok))
  {
    hide Inv, IdentityMatches, OnlyChild, NoneLive, AnswerOk, SetPoint;
    AtPoint(s, c);
    var d := s.calls[c].at.d;
    assert d in s.hosts;
    MatchesExactly(s, d);
    if ok && IdentityMatches(s, d) {
      assert AdvanceCall(s, c, ok) == s;
    } else {
      var q := if ok then GoneProbe(d) else Releasing(Failed);
      assert AdvanceCall(s, c, ok) == SetPoint(s, c, q);
      hide AdvanceCall;
      if ok { GonePoint(s, c, s.calls[c].begun, d); } else { FailedPoint(s, c, s.calls[c].begun); }
      hide PointOk;
      StepInv(s, c, q);
    }
  }

  lemma GonePoint(s: State, c: CallId, begun: nat, d: HostId)
    requires d in s.hosts && s.hosts[d].phase == Dead
    ensures PointOk(s, c, begun, GoneProbe(d))
  {
  }

  lemma GiveUpStep(s: State, c: CallId, ok: bool)
    requires Inv(s) && CanAdvance(s, c, ok) && (s.calls[c].at.PollChild? || s.calls[c].at.Launch?)
    ensures Inv(AdvanceCall(s, c, ok))
  {
    hide Inv, SetPoint, SettledKept, NoneLive, WasStarted, AnswerOk;
    AtPoint(s, c);
    var p := s.calls[c].at;
    if p.Launch? || s.hosts[p.child].phase == Dead {
      assert AdvanceCall(s, c, ok) == SetPoint(s, c, Releasing(Failed));
      hide AdvanceCall;
      FailInv(s, c);
    } else {
      var q := if ok then ReadStatus(AtStartup(p.child)) else Terminate(p.child);
      assert AdvanceCall(s, c, ok) == SetPoint(s, c, q);
      hide AdvanceCall;
      KeptChild(p, q, p.child);
      Moved(s, c, q);
    }
  }

  // ---------------------------------------------------------------- steps that take and release locks

  /** With the lifetime lock free, no host is live. */
  lemma FreeMeansNoneLive(s: State)
    requires Inv(s) && (s.lifetime == None || s.lifetime.value.ByCall?)
    ensures NoneLive(s)
  {
  }

  /** Only one call is inside the launch lock. */
  lemma OneInside(s: State, c: CallId, x: CallId)
    requires Inv(s) && c in s.calls && x in s.calls && InLock(s.calls[c].at) && InLock(s.calls[x].at)
    ensures c == x
  {
    assert CallOk(s, c) && CallOk(s, x);
  }

  /** A call takes, keeps or gives back the lifetime lock as its new point says, and moves on. */
  lemma ProbeInv(s: State, c: CallId, q: Point, lifetime: Option<Owner>)
    requires Inv(s) && c in s.calls && InLock(s.calls[c].at) && InLock(q)
    requires s.lifetime == None || s.lifetime == Some(ByCall(c))
    requires lifetime == if HoldsProbe(q) then Some(ByCall(c)) else None
    requires PointOk(s, c, s.calls[c].begun, q) && SettledKept(s.calls[c].at, q)
    requires StartupOf(s.calls[c].at) == None
    ensures Inv(SetPoint(s, c, q).(lifetime := lifetime))
  {
    hide StartupOf, DescriptorOf, GoneOf, AnswerOf, Started, Settled, Quiet, PointOk, InLock, HoldsProbe;
    var t := SetPoint(s, c, q).(lifetime := lifetime);
    forall x | x in t.calls ensures CallOk(t, x) {
      assert CallOk(s, x) && CallOk(s, c);
      PointKept(s, t, x, s.calls[x].begun, t.calls[x].at);
    }
    forall h | h in t.hosts ensures HostOk(t, h) {
      assert HostOk(s, h);
    }
  }

  function ProbeTarget(p: Point): Point {
    match p
    case Probe => ProbeHeld
    case StopProbe => StopProbeHeld
    case GoneProbe(d) => GoneProbeHeld(d)
    case _ => p
  }

  lemma ProbePoint(s: State, c: CallId, begun: nat, p: Point)
    requires p.Probe? || p.StopProbe? || p.GoneProbe?
    requires PointOk(s, c, begun, p) && NoneLive(s)
    ensures PointOk(s, c, begun, ProbeTarget(p)) && SettledKept(p, ProbeTarget(p))
  {
    hide OnlyChild, AnswerOk, WasStarted;
  }

  lemma GoneProbeBack(s: State, c: CallId, begun: nat, d: HostId)
    requires PointOk(s, c, begun, GoneProbe(d))
    ensures PointOk(s, c, begun, AwaitGone(d))
  {
  }

  lemma ProbeStep(s: State, c: CallId, ok: bool)
    requires Inv(s) && CanAdvance(s, c, ok)
    requires s.calls[c].at.Probe? || s.calls[c].at.StopProbe? || s.calls[c].at.GoneProbe?
    ensures Inv(AdvanceCall(s, c, ok))
  {
    hide Inv, PointOk, NoneLive, SettledKept, SetPoint;
    AtPoint(s, c);
    var p := s.calls[c].at;
    if s.lifetime == None {
      FreeMeansNoneLive(s);
      ProbePoint(s, c, s.calls[c].begun, p);
      var q := ProbeTarget(p);
      assert AdvanceCall(s, c, ok) == SetPoint(s, c, q).(lifetime := Some(ByCall(c)));
      hide AdvanceCall;
      ProbeInv(s, c, q, Some(ByCall(c)));
    } else {
      if p.GoneProbe? {
        GoneProbeBack(s, c, s.calls[c].begun, p.d);
        assert AdvanceCall(s, c, ok) == SetPoint(s, c, AwaitGone(p.d));
        hide AdvanceCall;
        StepInv(s, c, AwaitGone(p.d));
      } else {
        assert AdvanceCall(s, c, ok) == SetPoint(s, c, Releasing(Failed));
        hide AdvanceCall;
        FailInv(s, c);
      }
    }
  }

  function ProbedTarget(p: Point): Point {
    match p
    case ProbeHeld => Unlink
    case StopProbeHeld => StopUnlink(None)
    case GoneProbeHeld(d) => StopUnlink(Some(d))
    case _ => p
  }

  lemma ProbedPoint(s: State, c: CallId, begun: nat, p: Point)
    requires HoldsProbe(p) && PointOk(s, c, begun, p)
    ensures PointOk(s, c, begun, ProbedTarget(p)) && SettledKept(p, ProbedTarget(p))
  {
    hide OnlyChild, AnswerOk, WasStarted, NoneLive;
  }

  lemma ProbeHeldStep(s: State, c: CallId, ok: bool)
    requires Inv(s) && CanAdvance(s, c, ok) && HoldsProbe(s.calls[c].at)
    ensures Inv(AdvanceCall(s, c, ok))
  {
    hide Inv, SetPoint, SettledKept, PointOk;
    AtPoint(s, c);
    AtCall(s, c);
    var p := s.calls[c].at;
    ProbedPoint(s, c, s.calls[c].begun, p);
    assert AdvanceCall(s, c, ok) == SetPoint(s, c, ProbedTarget(p)).(lifetime := None);
    hide AdvanceCall;
    ProbeInv(s, c, ProbedTarget(p), None);
  }

  /** A point's meaning survives the removal of the descriptor while no child is starting. */
  lemma UnlinkKeeps(s: State, t: State, c: CallId, begun: nat, p: Point)
    requires PointOk(s, c, begun, p)
    requires t.hosts == s.hosts && t.engines == s.engines && t.descriptor == Absent
    ensures PointOk(t, c, begun, p)
  {
    hide DescriptorOf, GoneOf, AnswerOf, Started, Quiet;
  }

  lemma UnlinkInv(s: State, c: CallId)
    requires Inv(s) && c in s.calls
    ensures Inv(s.(descriptor := Absent))
  {
    hide PointOk, InLock, HoldsProbe, Settled, StartupOf;
    var t := s.(descriptor := Absent);
    forall x | x in t.calls ensures CallOk(t, x) {
      assert CallOk(s, x);
      UnlinkKeeps(s, t, x, s.calls[x].begun, s.calls[x].at);
    }
    forall h | h in t.hosts ensures HostOk(t, h) { assert HostOk(s, h); }
  }

  lemma UnlinkStep(s: State, c: CallId, ok: bool)
    requires Inv(s) && CanAdvance(s, c, ok) && (s.calls[c].at.Unlink? || s.calls[c].at.StopUnlink?)
    ensures Inv(AdvanceCall(s, c, ok))
  {
    hide Inv, SetPoint, PointOk;
    AtPoint(s, c);
    if ok {
      UnlinkInv(s, c);
      var p := s.calls[c].at;
      var q := if p.Unlink? then Launch else Releasing(Stopped(p.gone));
      var t := s.(descriptor := Absent);
      UnlinkAdvances(s, c);
      hide AdvanceCall;
      UnlinkKeeps(s, t, c, s.calls[c].begun, p);
      UnlinkedPoint(t, c, s.calls[c].begun, p, q);
      StepInv(t, c, q);
    } else {
      assert AdvanceCall(s, c, ok) == SetPoint(s, c, Releasing(Failed));
      hide AdvanceCall;
      FailInv(s, c);
    }
  }

  lemma UnlinkAdvances(s: State, c: CallId)
    requires c in s.calls && (s.calls[c].at.Unlink? || s.calls[c].at.StopUnlink?)
    ensures var p := s.calls[c].at;
      CanAdvance(s, c, true)
      && AdvanceCall(s, c, true)
        == SetPoint(s.(descriptor := Absent), c, if p.Unlink? then Launch else Releasing(Stopped(p.gone)))
  {
  }

  lemma UnlinkedPoint(t: State, c: CallId, begun: nat, p: Point, q: Point)
    requires PointOk(t, c, begun, p) && t.descriptor == Absent
    requires (p == Unlink && q == Launch) || (p.StopUnlink? && q == Releasing(Stopped(p.gone)))
    ensures PointOk(t, c, begun, q)
  {
    hide OnlyChild, AnswerOk, WasStarted, NoneLive;
  }

  /** A call enters or leaves the launch lock. */
  lemma LaunchLockInv(s: State, c: CallId, q: Point, launch: Option<Owner>)
    requires Inv(s) && c in s.calls && (s.launch == None || s.launch == Some(ByCall(c)))
    requires launch == if InLock(q) then Some(ByCall(c)) else None
    requires !HoldsProbe(s.calls[c].at) && !HoldsProbe(q) && PointOk(s, c, s.calls[c].begun, q)
    requires SettledKept(s.calls[c].at, q) && StartupOf(s.calls[c].at) == None
    ensures Inv(SetPoint(s, c, q).(launch := launch))
  {
    hide StartupOf, DescriptorOf, GoneOf, AnswerOf, Started, Settled, Quiet, PointOk, InLock, HoldsProbe;
    var t := SetPoint(s, c, q).(launch := launch);
    forall x | x in t.calls ensures CallOk(t, x) {
      assert CallOk(s, x) && CallOk(s, c);
      PointKept(s, t, x, s.calls[x].begun, t.calls[x].at);
    }
    forall h | h in t.hosts ensures HostOk(t, h) {
      assert HostOk(s, h);
    }
  }

  lemma EnterStep(s: State, c: CallId, ok: bool)
    requires Inv(s) && CanAdvance(s, c, ok) && s.calls[c].at.Waiting?
    ensures Inv(AdvanceCall(s, c, ok))
  {
    hide Inv, SetPoint, SettledKept, PointOk;
    AtCall(s, c);
    var q := if ok then ReadStatus(if s.calls[c].kind == Stop then AtStop else AtEnsure) else Done(Failed);
    EnteredPoint(s, c, s.calls[c].begun, q);
    if ok {
      assert AdvanceCall(s, c, ok) == SetPoint(s, c, q).(launch := Some(ByCall(c)));
      hide AdvanceCall;
      LaunchLockInv(s, c, q, Some(ByCall(c)));
    } else {
      assert AdvanceCall(s, c, ok) == SetPoint(s, c, q);
      hide AdvanceCall;
      OutsideInv(s, c, q);
    }
  }

  lemma EnteredPoint(s: State, c: CallId, begun: nat, q: Point)
    requires q == ReadStatus(AtStop) || q == ReadStatus(AtEnsure) || q == Done(Failed)
    ensures PointOk(s, c, begun, q) && SettledKept(Waiting, q)
  {
  }

  /** A call outside the launch lock changes only itself. */
  lemma OutsideInv(s: State, c: CallId, q: Point)
    requires Inv(s) && c in s.calls && !InLock(s.calls[c].at) && !InLock(q)
    requires PointOk(s, c, s.calls[c].begun, q) && SettledKept(s.calls[c].at, q)
    ensures Inv(SetPoint(s, c, q))
  {
    hide DescriptorOf, GoneOf, AnswerOf, Started, Settled, Quiet, PointOk;
    var t := SetPoint(s, c, q);
    forall x | x in t.calls ensures CallOk(t, x) {
      assert CallOk(s, x);
      PointKept(s, t, x, s.calls[x].begun, t.calls[x].at);
    }
    forall h | h in t.hosts ensures HostOk(t, h) {
      assert HostOk(s, h);
    }
  }

  lemma ReleaseStep(s: State, c: CallId, ok: bool)
    requires Inv(s) && CanAdvance(s, c, ok) && s.calls[c].at.Releasing?
    ensures Inv(AdvanceCall(s, c, ok))
  {
    hide Inv, SetPoint, SettledKept, PointOk;
    AtPoint(s, c);
    AtCall(s, c);
    var p := s.calls[c].at;
    ReleasedPoint(s, c, s.calls[c].begun, p.outcome);
    assert AdvanceCall(s, c, ok) == SetPoint(s, c, Done(p.outcome)).(launch := None);
    hide AdvanceCall;
    LaunchLockInv(s, c, Done(p.outcome), None);
  }

  lemma ReleasedPoint(s: State, c: CallId, begun: nat, o: Outcome)
    requires PointOk(s, c, begun, Releasing(o))
    ensures PointOk(s, c, begun, Done(o)) && SettledKept(Releasing(o), Done(o))
  {
    hide OnlyChild, AnswerOk, WasStarted, NoneLive;
  }

  // ---------------------------------------------------------------- steps of hosts

  /** Hosts only move towards death, the descriptor at most disappears. */
  ghost predicate Calmer(s: State, t: State) {
    && s.hosts.Keys == t.hosts.Keys && s.engines == t.engines && s.calls == t.calls
    && s.strangers == t.strangers && s.used == t.used
    && (t.descriptor == s.descriptor || t.descriptor == Absent)
    && forall h | h in s.hosts :: CalmerHost(s.hosts[h], t.hosts[h])
  }

  ghost predicate CalmerHost(a: Host, b: Host) {
    && a.launcher == b.launcher && a.identity == b.identity
    && (Holding(b.phase) ==> Holding(a.phase))
    && (a.phase == Dead ==> b.phase == Dead)
    && (b.phase == Starting ==> a.phase == Starting)
    && (b.phase == Acquired ==> a.phase == Acquired)
  }

  lemma PointCalmer(s: State, t: State, c: CallId, begun: nat, p: Point)
    requires Calmer(s, t) && PointOk(s, c, begun, p)
    ensures PointOk(t, c, begun, p)
  {
    hide StartupOf, DescriptorOf, GoneOf, AnswerOf, Started, Quiet;
    if Quiet(p) {
      assert NoneLive(t) by {
        forall h | h in t.hosts
          ensures !Holding(t.hosts[h].phase)
        {
          assert CalmerHost(s.hosts[h], t.hosts[h]);
        }
      }
    }
  }

  /** The locks follow the phases of the hosts, and only hosts have moved their locks. */
  ghost predicate LocksFollow(s: State, t: State) {
    && (t.launch == s.launch || (s.launch.Some? && s.launch.value.ByHost? && t.launch == None)
        || (s.launch == None && t.launch.Some? && t.launch.value.ByHost? && t.launch.value.host in t.hosts))
    && (t.lifetime == s.lifetime || (s.lifetime.Some? && s.lifetime.value.ByHost? && t.lifetime == None))
    && forall h | h in t.hosts :: HostLocks(t, h)
  }

  ghost predicate HostLocks(t: State, h: HostId)
    requires h in t.hosts
  {
    && (Holding(t.hosts[h].phase) <==> t.lifetime == Some(ByHost(h)))
    && (t.launch == Some(ByHost(h)) ==> t.hosts[h].phase in {Closing, Unlisted, Released})
  }

  lemma CalmerCall(s: State, t: State, c: CallId)
    requires Calmer(s, t) && LocksFollow(s, t) && c in s.calls && CallOk(s, c)
    ensures CallOk(t, c)
  {
    PointCalmer(s, t, c, s.calls[c].begun, s.calls[c].at);
    hide PointOk, HostLocks, CalmerHost, InLock, HoldsProbe;
  }

  lemma CalmerHostOk(s: State, t: State, h: HostId)
    requires Calmer(s, t) && LocksFollow(s, t) && h in s.hosts && HostOk(s, h)
    ensures HostOk(t, h)
  {
    hide Settled, StartupOf;
    assert CalmerHost(s.hosts[h], t.hosts[h]) && HostLocks(t, h);
  }

  lemma CalmerFiles(s: State, t: State)
    requires Calmer(s, t) && FilesOk(s) && IdentitiesOk(s)
    ensures FilesOk(t) && IdentitiesOk(t)
  {
    forall h, g | h in t.hosts && g in t.hosts && h != g ensures t.hosts[h].identity != t.hosts[g].identity {
      assert CalmerHost(s.hosts[h], t.hosts[h]) && CalmerHost(s.hosts[g], t.hosts[g]);
    }
    if t.descriptor.Published? {
      var d := t.descriptor.host;
      assert CalmerHost(s.hosts[d], t.hosts[d]);
    }
  }

  /** Such a change keeps the invariant. */
  lemma CalmerInv(s: State, t: State)
    requires Inv(s) && Calmer(s, t) && LocksFollow(s, t)
    ensures Inv(t)
  {
    CalmerFiles(s, t);
    hide FilesOk, IdentitiesOk, CallOk, HostOk, HostLocks, CalmerHost;
    forall x | x in t.calls ensures CallOk(t, x) { CalmerCall(s, t, x); }
    forall h | h in t.hosts ensures HostOk(t, h) { CalmerHostOk(s, t, h); }
  }

  lemma KillInv(s: State, h: HostId)
    requires Inv(s) && h in s.hosts
    ensures Inv(KillHost(s, h)) && KillHost(s, h).hosts == s.hosts[h := s.hosts[h].(phase := Dead)]
  {
    hide Inv;
    HostLocksAll(s);
    CalmerInv(s, KillHost(s, h));
  }

  lemma HostLocksAll(s: State)
    requires Inv(s)
    ensures forall h | h in s.hosts :: HostLocks(s, h)
    ensures s.launch.Some? && s.launch.value.ByHost? ==> s.launch.value.host in s.hosts
  {
    forall h | h in s.hosts ensures HostLocks(s, h) { assert HostOk(s, h); }
  }

  lemma TerminateStep(s: State, c: CallId, ok: bool)
    requires Inv(s) && CanAdvance(s, c, ok) && s.calls[c].at.Terminate?
    ensures Inv(AdvanceCall(s, c, ok))
  {
    hide Inv, SetPoint, AnswerOk, NoneLive, OnlyChild, WasStarted;
    AtPoint(s, c);
    var child := s.calls[c].at.child;
    assert AdvanceCall(s, c, ok) == SetPoint(KillHost(s, child), c, Releasing(Failed));
    hide AdvanceCall;
    KillInv(s, child);
    FailInv(KillHost(s, child), c);
  }

  lemma StoppingInv(s: State, d: HostId)
    requires Inv(s) && d in s.hosts
    ensures Inv(s.(hosts := s.hosts[d := s.hosts[d].(stopping := true)]))
  {
    var t := s.(hosts := s.hosts[d := s.hosts[d].(stopping := true)]);
    HostLocksAll(s);
    hide Inv;
    forall h | h in t.hosts ensures HostLocks(t, h) { assert HostLocks(s, h); }
    CalmerInv(s, t);
  }

  lemma ShutAskStep(s: State, c: CallId, ok: bool)
    requires Inv(s) && CanAdvance(s, c, ok) && s.calls[c].at.ShutAsk?
    ensures Inv(AdvanceCall(s, c, ok))
  {
    hide Inv, SetPoint, AnswerOk, NoneLive, OnlyChild;
    AtPoint(s, c);
    var d := s.calls[c].at.d;
    if ok {
      var t := s.(hosts := s.hosts[d := s.hosts[d].(stopping := true)]);
      assert AdvanceCall(s, c, ok) == SetPoint(t, c, AwaitGone(d));
      StoppingInv(s, d);
      hide AdvanceCall, PointOk;
      PlainPoint(t, c, s.calls[c].begun, AwaitGone(d));
      StepInv(t, c, AwaitGone(d));
    } else {
      assert AdvanceCall(s, c, ok) == SetPoint(s, c, Releasing(Failed));
      hide AdvanceCall;
      FailInv(s, c);
    }
  }

  /** Any step of a host other than taking the lifetime lock or publishing. */
  predicate CalmStep(s: State, h: HostId, cause: Cause)
    requires CanStep(s, h, cause)
  {
    !(s.hosts[h].phase == Starting && cause == Progress && s.lifetime == None)
    && !(s.hosts[h].phase == Acquired && cause == Progress)
  }

  lemma CalmStepCalms(s: State, h: HostId, cause: Cause)
    requires CanStep(s, h, cause) && CalmStep(s, h, cause)
    ensures Calmer(s, AdvanceHost(s, h, cause))
  {
  }

  lemma CalmStepLocks(s: State, h: HostId, cause: Cause, x: HostId)
    requires CanStep(s, h, cause) && CalmStep(s, h, cause)
    requires x in s.hosts && HostLocks(s, x) && HostLocks(s, h)
    ensures HostLocks(AdvanceHost(s, h, cause), x)
  {
  }

  lemma ClosingSideStep(s: State, h: HostId, cause: Cause)
    requires Inv(s) && CanStep(s, h, cause) && CalmStep(s, h, cause)
    ensures Inv(AdvanceHost(s, h, cause))
  {
    HostLocksAll(s);
    hide Inv, HostLocks, Calmer;
    var t := AdvanceHost(s, h, cause);
    forall x | x in t.hosts ensures HostLocks(t, x) { CalmStepLocks(s, h, cause, x); }
    CalmStepCalms(s, h, cause);
    assert LocksFollow(s, t) by {
      CalmStepOwners(s, h, cause);
      hide AdvanceHost;
    }
    hide AdvanceHost, LocksFollow;
    CalmerInv(s, t);
  }

  lemma CalmStepOwners(s: State, h: HostId, cause: Cause)
    requires CanStep(s, h, cause) && CalmStep(s, h, cause) && HostLocks(s, h)
    ensures var t := AdvanceHost(s, h, cause);
      && (t.launch == s.launch || (s.launch == Some(ByHost(h)) && t.launch == None)
          || (s.launch == None && t.launch == Some(ByHost(h))))
      && (t.lifetime == s.lifetime || (s.lifetime == Some(ByHost(h)) && t.lifetime == None))
      && t.hosts.Keys == s.hosts.Keys
  {
  }

  // ---------------------------------------------------------------- a host becomes an engine

  function Acquire(s: State, h: HostId): State
    requires h in s.hosts
  {
    SetPhase(s, h, Acquired).(lifetime := Some(ByHost(h)), engines := s.engines + [h])
  }

  /** The call that launched the host has it as its only live child. */
  lemma AcquireInside(s: State, h: HostId, c: CallId, begun: nat, p: Point)
    requires h in s.hosts && s.hosts[h].phase == Starting && NoneLive(s)
    requires StartupOf(p) == Some(h) && PointOk(s, c, begun, p)
    ensures PointOk(Acquire(s, h), c, begun, p)
  {
    hide AnswerOk;
  }

  /** Calls outside the launch lock only remember dead hosts and answers. */
  lemma AcquireOutside(s: State, h: HostId, c: CallId, begun: nat, p: Point)
    requires h in s.hosts && s.hosts[h].phase == Starting
    requires !InLock(p) && PointOk(s, c, begun, p)
    ensures PointOk(Acquire(s, h), c, begun, p)
  {
    assert StartupOf(p) == None && DescriptorOf(p) == None && !Quiet(p);
    hide StartupOf, DescriptorOf, Quiet, OnlyChild, NoneLive;
  }

  lemma LauncherInside(s: State, h: HostId)
    requires Inv(s) && h in s.hosts && s.hosts[h].phase == Starting
    ensures s.hosts[h].launcher.Some? && s.hosts[h].launcher.value in s.calls
    ensures StartupOf(s.calls[s.hosts[h].launcher.value].at) == Some(h)
    ensures InLock(s.calls[s.hosts[h].launcher.value].at)
  {
    assert HostOk(s, h);
    hide CallOk;
  }

  lemma AcquirePoint(s: State, h: HostId, c: CallId)
    requires Inv(s) && h in s.hosts && s.hosts[h].phase == Starting && s.lifetime == None && c in s.calls
    ensures PointOk(Acquire(s, h), c, s.calls[c].begun, s.calls[c].at)
  {
    hide Inv, PointOk, InLock, StartupOf, NoneLive;
    AtPoint(s, c);
    LauncherInside(s, h);
    FreeMeansNoneLive(s);
    var p := s.calls[c].at;
    if InLock(p) {
      OneInside(s, c, s.hosts[h].launcher.value);
      AcquireInside(s, h, c, s.calls[c].begun, p);
    } else {
      AcquireOutside(s, h, c, s.calls[c].begun, p);
    }
  }

  lemma AcquireFiles(s: State, h: HostId)
    requires Inv(s) && h in s.hosts && s.hosts[h].phase == Starting
    ensures FilesOk(Acquire(s, h)) && IdentitiesOk(Acquire(s, h))
  {
    assert HostOk(s, h);
    hide CallOk, HostOk;
  }

  lemma AcquireHost(s: State, h: HostId, x: HostId)
    requires h in s.hosts && x in s.hosts && s.hosts[h].phase == Starting && s.lifetime == None
    requires HostOk(s, x) && HostOk(s, h)
    ensures HostOk(Acquire(s, h), x)
  {
    hide StartupOf, Settled;
  }

  lemma AcquireStep(s: State, h: HostId)
    requires Inv(s) && h in s.hosts && s.hosts[h].phase == Starting && s.lifetime == None
    ensures Inv(AdvanceHost(s, h, Progress))
  {
    var t := Acquire(s, h);
    assert AdvanceHost(s, h, Progress) == t;
    hide AdvanceHost, StartupOf, Settled, PointOk, InLock, HoldsProbe, FilesOk, IdentitiesOk;
    AcquireFiles(s, h);
    forall x | x in t.calls ensures CallOk(t, x) {
      assert CallOk(s, x);
      hide HostOk;
      AcquirePoint(s, h, x);
    }
    hide CallOk;
    forall x | x in t.hosts ensures HostOk(t, x) {
      assert HostOk(s, x) && HostOk(s, h);
      hide HostOk;
      AcquireHost(s, h, x);
    }
  }

  lemma PublishPoint(s: State, h: HostId, c: CallId)
    requires Inv(s) && h in s.hosts && s.hosts[h].phase == Acquired && c in s.calls
    ensures PointOk(AdvanceHost(s, h, Progress), c, s.calls[c].begun, s.calls[c].at)
  {
    AtPoint(s, c);
    hide Inv, DescriptorOf, AnswerOf, GoneOf, Started;
    assert Holding(s.hosts[h].phase);
    assert Quiet(s.calls[c].at) ==> !NoneLive(s);
  }

  lemma PublishStep(s: State, h: HostId)
    requires Inv(s) && h in s.hosts && s.hosts[h].phase == Acquired
    ensures Inv(AdvanceHost(s, h, Progress))
  {
    var t := AdvanceHost(s, h, Progress);
    hide StartupOf, Settled, PointOk, InLock, HoldsProbe;
    forall x | x in t.calls ensures CallOk(t, x) {
      assert CallOk(s, x);
      PublishPoint(s, h, x);
    }
    forall x | x in t.hosts ensures HostOk(t, x) {
      assert HostOk(s, x);
    }
  }
}
