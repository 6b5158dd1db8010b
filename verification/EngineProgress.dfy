/** What the engine protocol is for can happen. */
module EngineProgress {
  // From wherever the invariant holds and nobody is in the launch lock, calls that nobody disturbs find
  // the serving engine, start one, notify it and stop it.

  import opened Text
  import opened EngineProtocol
  import opened EngineInvariant

  // ---------------------------------------------------------------- reaching a state

  ghost predicate Steps(states: seq<State>) {
    states != [] && forall i | 0 <= i < |states| - 1 :: Next(states[i], states[i + 1], false)
  }

  /** Some number of steps leads from `s` to `t`. */
  ghost predicate Reaches(s: State, t: State) {
    exists states :: Steps(states) && states[0] == s && states[|states| - 1] == t
  }

  lemma ReachesSelf(s: State)
    ensures Reaches(s, s)
  {
    assert Steps([s]) && [s][0] == s;
  }

  lemma ReachesMore(s: State, t: State, a: Action)
    requires Reaches(s, t) && Enabled(t, a, false) && Enabled(t, a, true)
    ensures Reaches(s, Apply(t, a))
  {
    var u := Apply(t, a);
    assert Next(t, u, false);
    hide Apply, Enabled, Next;
    var states :| Steps(states) && states[0] == s && states[|states| - 1] == t;
    var longer := states + [u];
    forall i | 0 <= i < |longer| - 1 ensures Next(longer[i], longer[i + 1], false) {
      if i < |states| - 1 { assert Next(states[i], states[i + 1], false); }
    }
    assert longer[0] == s && longer[|longer| - 1] == u;
  }

  /** In this state the call finds the host in that phase. */
  predicate Finds(s: State, c: CallId, p: Point, h: HostId, phase: Phase) {
    c in s.calls && s.calls[c].at == p && h in s.hosts && s.hosts[h].phase == phase
  }

  function CountFinds(states: seq<State>, c: CallId, p: Point, h: HostId, phase: Phase): nat {
    if states == [] then 0
    else
      CountFinds(states[..|states| - 1], c, p, h, phase)
      + (if Finds(states[|states| - 1], c, p, h, phase) then 1 else 0)
  }

  /** Steps lead from `s` to `t` on which the call is `k` times or more at `p` with the host in that phase. */
  ghost predicate ReachesBy(s: State, t: State, c: CallId, p: Point, h: HostId, phase: Phase, k: nat) {
    exists states ::
      Steps(states) && states[0] == s && states[|states| - 1] == t && CountFinds(states, c, p, h, phase) >= k
  }

  lemma {:induction false} CountFindsGrows(a: seq<State>, b: seq<State>, c: CallId, p: Point, h: HostId, phase: Phase)
    ensures CountFinds(a + b, c, p, h, phase) >= CountFinds(a, c, p, h, phase)
    decreases |b|
  {
    hide Finds;
    if b == [] {
      assert a + b == a;
    } else {
      assert (a + b)[..|a + b| - 1] == a + b[..|b| - 1];
      CountFindsGrows(a, b[..|b| - 1], c, p, h, phase);
    }
  }

  /** One more step, which counts if it ends where the call finds the host in that phase. */
  lemma ReachesByMore(s: State, t: State, a: Action, c: CallId, p: Point, h: HostId, phase: Phase, k: nat)
    requires ReachesBy(s, t, c, p, h, phase, k) && Enabled(t, a, false) && Enabled(t, a, true)
    ensures ReachesBy(s, Apply(t, a), c, p, h, phase, if Finds(Apply(t, a), c, p, h, phase) then k + 1 else k)
  {
    var u := Apply(t, a);
    assert Next(t, u, false);
    hide Apply, Enabled, Next, Finds;
    var states :|
      Steps(states) && states[0] == s && states[|states| - 1] == t && CountFinds(states, c, p, h, phase) >= k;
    var longer := states + [u];
    forall i | 0 <= i < |longer| - 1 ensures Next(longer[i], longer[i + 1], false) {
      if i < |states| - 1 { assert Next(states[i], states[i + 1], false); }
    }
    assert longer[..|longer| - 1] == states && longer[0] == s && longer[|longer| - 1] == u;
  }

  lemma ReachesNone(s: State, t: State, c: CallId, p: Point, h: HostId, phase: Phase)
    requires Reaches(s, t)
    ensures ReachesBy(s, t, c, p, h, phase, 0)
  {
  }

  lemma StepsJoin(a: seq<State>, b: seq<State>)
    requires Steps(a) && Steps(b) && a[|a| - 1] == b[0]
    ensures Steps(a + b[1..]) && (a + b[1..])[0] == a[0] && (a + b[1..])[|a + b[1..]| - 1] == b[|b| - 1]
  {
    hide Next;
    var all := a + b[1..];
    forall i | 0 <= i < |all| - 1 ensures Next(all[i], all[i + 1], false) {
      if i < |a| - 1 {
        assert Next(a[i], a[i + 1], false);
      } else {
        var j := i - (|a| - 1);
        assert Next(b[j], b[j + 1], false);
        assert all[i] == b[j] && all[i + 1] == b[j + 1];
      }
    }
  }

  lemma Joined(a: seq<State>, b: seq<State>, c: CallId, p: Point, h: HostId, phase: Phase, k: nat)
    requires Steps(a) && Steps(b) && a != [] && b != [] && a[|a| - 1] == b[0] && CountFinds(a, c, p, h, phase) >= k
    ensures ReachesBy(a[0], b[|b| - 1], c, p, h, phase, k)
  {
    hide CountFinds;
    StepsJoin(a, b);
    CountFindsGrows(a, b[1..], c, p, h, phase);
    hide Steps;
    var all := a + b[1..];
    assert Steps(all) && all[0] == a[0] && all[|all| - 1] == b[|b| - 1] && CountFinds(all, c, p, h, phase) >= k;
  }

  /** Two ways, one after the other. */
  lemma ReachesThen(s: State, m: State, t: State, c: CallId, p: Point, h: HostId, phase: Phase, k: nat)
    requires ReachesBy(s, m, c, p, h, phase, k) && Reaches(m, t)
    ensures ReachesBy(s, t, c, p, h, phase, k)
  {
    hide Next, CountFinds;
    var a :| Steps(a) && a[0] == s && a[|a| - 1] == m && CountFinds(a, c, p, h, phase) >= k;
    var b :| Steps(b) && b[0] == m && b[|b| - 1] == t;
    Joined(a, b, c, p, h, phase, k);
  }

  /** `s` with the call `c` at `p`. */
  function At(s: State, c: CallId, kind: Kind, begun: nat, p: Point, launch: Option<Owner>): State {
    s.(calls := s.calls[c := Call(kind, begun, p)], launch := launch)
  }

  lemma AtAgain(s: State, c: CallId, kind: Kind, begun: nat, p: Point, q: Point, launch: Option<Owner>)
    ensures SetPoint(At(s, c, kind, begun, p, launch), c, q) == At(s, c, kind, begun, q, launch)
  {
    assert s.calls[c := Call(kind, begun, p)][c := Call(kind, begun, q)] == s.calls[c := Call(kind, begun, q)];
  }

  /** One undisturbed step of the call inside the launch lock that touches nothing else. */
  lemma Moves(s0: State, s: State, c: CallId, kind: Kind, begun: nat, p: Point, ok: bool, q: Point)
    requires var t := At(s, c, kind, begun, p, Some(ByCall(c)));
      Reaches(s0, t) && CanAdvance(t, c, ok) && AdvanceCall(t, c, ok) == SetPoint(t, c, q)
    ensures Reaches(s0, At(s, c, kind, begun, q, Some(ByCall(c))))
  {
    var t := At(s, c, kind, begun, p, Some(ByCall(c)));
    assert Enabled(t, Advance(c, ok), false) && Apply(t, Advance(c, ok)) == AdvanceCall(t, c, ok);
    hide AdvanceCall, CanAdvance, Reaches, SetPoint;
    AtAgain(s, c, kind, begun, p, q, Some(ByCall(c)));
    ReachesMore(s0, t, Advance(c, ok));
  }

  /** A call begins and enters the launch lock. */
  lemma Enters(s: State, c: CallId, kind: Kind)
    requires s.launch == None && c !in s.calls
    ensures Reaches(s, At(s, c, kind, |s.engines|, ReadStatus(if kind == Stop then AtStop else AtEnsure),
      Some(ByCall(c))))
  {
    var q := ReadStatus(if kind == Stop then AtStop else AtEnsure);
    ReachesSelf(s);
    hide Reaches;
    ReachesMore(s, s, Begin(c, kind));
    var t := At(s, c, kind, |s.engines|, Waiting, None);
    assert Apply(s, Begin(c, kind)) == t;
    AtAgain(s, c, kind, |s.engines|, Waiting, q, None);
    ReachesMore(s, t, Advance(c, true));
  }

  /** A call with an outcome leaves the launch lock. */
  lemma Leaves(s0: State, s: State, c: CallId, kind: Kind, begun: nat, o: Outcome)
    requires Reaches(s0, At(s, c, kind, begun, Releasing(o), Some(ByCall(c))))
    ensures Reaches(s0, At(s, c, kind, begun, Done(o), None))
  {
    hide Reaches;
    var t := At(s, c, kind, begun, Releasing(o), Some(ByCall(c)));
    AtAgain(s, c, kind, begun, Releasing(o), Done(o), Some(ByCall(c)));
    ReachesMore(s0, t, Advance(c, true));
  }

  lemma SameMatches(s: State, t: State, d: HostId)
    requires s.hosts == t.hosts && s.strangers == t.strangers
    ensures IdentityMatches(s, d) <==> IdentityMatches(t, d)
  {
  }

  // ---------------------------------------------------------------- a serving engine is found

  /** An engine that serves, is published, and can be told from every other process. */
  ghost predicate Found(s: State, e: HostId) {
    IsServing(s, e) && s.descriptor == Published(e) && IdentityMatches(s, e)
  }

  lemma ServingIsFound(s: State, e: HostId)
    requires Inv(s) && IsServing(s, e) && s.descriptor == Published(e)
    ensures Found(s, e)
  {
    hide Inv;
    MatchesExactly(s, e);
  }

  /** From reading the status on: the call asks the serving engine, which answers. */
  lemma AsksTheEngine(s0: State, s: State, c: CallId, kind: Kind, begun: nat, at: Where, e: HostId)
    requires Found(s, e) && Reaches(s0, At(s, c, kind, begun, ReadStatus(at), Some(ByCall(c))))
    ensures Reaches(s0, At(s, c, kind, begun, Running(at, kind, Answer(e, |s.engines|)), Some(ByCall(c))))
  {
    hide Reaches, IdentityMatches, SetPoint, Running;
    var lock := Some(ByCall(c));
    SameMatches(s, At(s, c, kind, begun, MatchStatus(at, e), lock), e);
    Moves(s0, s, c, kind, begun, ReadStatus(at), true, MatchStatus(at, e));
    Moves(s0, s, c, kind, begun, MatchStatus(at, e), true, AskHealth(at, e));
    Moves(s0, s, c, kind, begun, AskHealth(at, e), true, Running(at, kind, Answer(e, |s.engines|)));
  }

  lemma ConfirmsTheEngine(s0: State, s: State, c: CallId, kind: Kind, begun: nat, e: HostId, a: Answer)
    requires Found(s, e) && Reaches(s0, At(s, c, kind, begun, ConfirmRead(a), Some(ByCall(c))))
    ensures Reaches(s0, At(s, c, kind, begun, AfterEnsure(kind, a, false), Some(ByCall(c))))
  {
    hide Reaches, IdentityMatches, SetPoint, AfterEnsure;
    SameMatches(s, At(s, c, kind, begun, ConfirmMatch(a, e), Some(ByCall(c))), e);
    Moves(s0, s, c, kind, begun, ConfirmRead(a), true, ConfirmMatch(a, e));
    Moves(s0, s, c, kind, begun, ConfirmMatch(a, e), true, ConfirmHello(a, e));
    Moves(s0, s, c, kind, begun, ConfirmHello(a, e), true, AfterEnsure(kind, a, false));
  }

  lemma NotifiesTheEngine(s0: State, s: State, c: CallId, begun: nat, e: HostId, stamp: nat, started: bool)
    requires Found(s, e) && Reaches(s0, At(s, c, Notify, begun, NotifyRead(Answer(e, stamp), started), Some(ByCall(c))))
    ensures Reaches(s0, At(s, c, Notify, begun, Done(Notified(Answer(e, stamp), started)), None))
  {
    hide Reaches, IdentityMatches, SetPoint;
    var a := Answer(e, stamp);
    SameMatches(s, At(s, c, Notify, begun, NotifyMatch(a, started, e), Some(ByCall(c))), e);
    Moves(s0, s, c, Notify, begun, NotifyRead(a, started), true, NotifyMatch(a, started, e));
    Moves(s0, s, c, Notify, begun, NotifyMatch(a, started, e), true, NotifyAsk(a, started, e));
    Moves(s0, s, c, Notify, begun, NotifyAsk(a, started, e), true, Releasing(Notified(a, started)));
    Leaves(s0, s, c, Notify, begun, Notified(a, started));
  }

  /** What a call that ensures reports when it is not disturbed. */
  function Success(kind: Kind, a: Answer, started: bool): Outcome {
    if kind == Notify then Notified(a, started) else Ensured(a, started)
  }

  lemma FinishesEnsured(s0: State, s: State, c: CallId, kind: Kind, begun: nat, e: HostId, stamp: nat, started: bool)
    requires kind != Stop && Found(s, e)
    requires Reaches(s0, At(s, c, kind, begun, AfterEnsure(kind, Answer(e, stamp), started), Some(ByCall(c))))
    ensures Reaches(s0, At(s, c, kind, begun, Done(Success(kind, Answer(e, stamp), started)), None))
  {
    hide Reaches, Found;
    if kind == Notify {
      NotifiesTheEngine(s0, s, c, begun, e, stamp, started);
    } else {
      Leaves(s0, s, c, kind, begun, Ensured(Answer(e, stamp), started));
    }
  }

  /** An undisturbed `ensure` or `notify_job` finds the serving engine, reports it and changes nothing else. */
  lemma ServingEngineIsReported(s: State, c: CallId, kind: Kind, e: HostId)
    requires Inv(s) && s.launch == None && c !in s.calls && kind != Stop
    requires IsServing(s, e) && s.descriptor == Published(e)
    ensures Reaches(s, At(s, c, kind, |s.engines|, Done(Success(kind, Answer(e, |s.engines|), false)), None))
  {
    ServingIsFound(s, e);
    hide Inv, Reaches, Found, AfterEnsure, Success;
    Enters(s, c, kind);
    AsksTheEngine(s, s, c, kind, |s.engines|, AtEnsure, e);
    ConfirmsTheEngine(s, s, c, kind, |s.engines|, e, Answer(e, |s.engines|));
    FinishesEnsured(s, s, c, kind, |s.engines|, e, |s.engines|, false);
  }

  // ---------------------------------------------------------------- an engine is started

  /** Where nobody holds the lifetime lock, a call finds no running engine, whatever descriptor lies there. */
  lemma FindsNothing(s0: State, s: State, c: CallId, kind: Kind, begun: nat)
    requires Reaches(s0, At(s, c, kind, begun, ReadStatus(AtEnsure), Some(ByCall(c))))
    ensures Reaches(s0, At(s, c, kind, begun, Probe, Some(ByCall(c))))
  {
    hide Reaches, IdentityMatches, SetPoint;
    match s.descriptor
    case Published(d) =>
      Moves(s0, s, c, kind, begun, ReadStatus(AtEnsure), false, MatchStatus(AtEnsure, d));
      var t := At(s, c, kind, begun, MatchStatus(AtEnsure, d), Some(ByCall(c)));
      if IdentityMatches(t, d) {
        Moves(s0, s, c, kind, begun, MatchStatus(AtEnsure, d), false, AskHealth(AtEnsure, d));
        Moves(s0, s, c, kind, begun, AskHealth(AtEnsure, d), false, Probe);
      } else {
        Moves(s0, s, c, kind, begun, MatchStatus(AtEnsure, d), false, Probe);
      }
    case _ => Moves(s0, s, c, kind, begun, ReadStatus(AtEnsure), false, Probe);
  }

  /** The lifetime lock is probed and released, and the descriptor removed. */
  lemma ClearsTheWay(s0: State, s: State, c: CallId, kind: Kind, begun: nat)
    requires s.lifetime == None && Reaches(s0, At(s, c, kind, begun, Probe, Some(ByCall(c))))
    ensures Reaches(s0, At(s.(descriptor := Absent), c, kind, begun, Launch, Some(ByCall(c))))
  {
    var lock := Some(ByCall(c));
    hide Reaches;
    var held := s.(lifetime := lock);
    AtAgain(s, c, kind, begun, Probe, ProbeHeld, lock);
    ReachesMore(s0, At(s, c, kind, begun, Probe, lock), Advance(c, true));
    assert Apply(At(s, c, kind, begun, Probe, lock), Advance(c, true)) == At(held, c, kind, begun, ProbeHeld, lock);
    AtAgain(held, c, kind, begun, ProbeHeld, Unlink, lock);
    ReachesMore(s0, At(held, c, kind, begun, ProbeHeld, lock), Advance(c, true));
    assert Apply(At(held, c, kind, begun, ProbeHeld, lock), Advance(c, true)) == At(s, c, kind, begun, Unlink, lock);
    AtAgain(s, c, kind, begun, Unlink, Launch, lock);
    ReachesMore(s0, At(s, c, kind, begun, Unlink, lock), Advance(c, true));
  }

  /** The world with the child launched and not yet holding the lifetime lock. */
  function Born(s: State, c: CallId, h: HostId, i: Identity): State {
    s.(hosts := s.hosts[h := Host(i, Starting, false, Some(c))], used := s.used + {i})
  }

  /** The world once the launched host serves. */
  function Started(s: State, c: CallId, h: HostId, i: Identity): State {
    s.(hosts := s.hosts[h := Host(i, Serving, false, Some(c))], used := s.used + {i}, lifetime := Some(ByHost(h)),
       descriptor := Published(h), engines := s.engines + [h])
  }

  /** The call launches its child and looks for it. */
  lemma HostIsBorn(s0: State, s: State, c: CallId, kind: Kind, begun: nat, h: HostId, i: Identity)
    requires h !in s.hosts && FreshIdentity(s, i)
    requires Reaches(s0, At(s, c, kind, begun, Launch, Some(ByCall(c))))
    ensures Reaches(s0, At(Born(s, c, h, i), c, kind, begun, ReadStatus(AtStartup(h)), Some(ByCall(c))))
  {
    var lock := Some(ByCall(c));
    hide Reaches;
    var t := At(s, c, kind, begun, Launch, lock);
    assert FreshIdentity(t, i);
    hide FreshIdentity, PidFree;
    ReachesMore(s0, t, Spawn(c, h, i));
    AtAgain(s, c, kind, begun, Launch, ReadStatus(AtStartup(h)), lock);
    assert Apply(t, Spawn(c, h, i)) == At(Born(s, c, h, i), c, kind, begun, ReadStatus(AtStartup(h)), lock);
  }

  /** The call polls once more while its child is starting: it finds no engine, and the child alive. */
  lemma PollsOnce(s0: State, s: State, c: CallId, kind: Kind, begun: nat, h: HostId, i: Identity, k: nat)
    requires s.descriptor == Absent
    requires var m := At(Born(s, c, h, i), c, kind, begun, ReadStatus(AtStartup(h)), Some(ByCall(c)));
      ReachesBy(s0, m, c, PollChild(h), h, Starting, k)
    ensures var m := At(Born(s, c, h, i), c, kind, begun, ReadStatus(AtStartup(h)), Some(ByCall(c)));
      ReachesBy(s0, m, c, PollChild(h), h, Starting, k + 1)
  {
    hide ReachesBy;
    var lock := Some(ByCall(c));
    var b := Born(s, c, h, i);
    var m := At(b, c, kind, begun, ReadStatus(AtStartup(h)), lock);
    var polled := At(b, c, kind, begun, PollChild(h), lock);
    AtAgain(b, c, kind, begun, ReadStatus(AtStartup(h)), PollChild(h), lock);
    assert Apply(m, Advance(c, true)) == polled && Finds(polled, c, PollChild(h), h, Starting);
    ReachesByMore(s0, m, Advance(c, true), c, PollChild(h), h, Starting, k);
    AtAgain(b, c, kind, begun, PollChild(h), ReadStatus(AtStartup(h)), lock);
    assert Apply(polled, Advance(c, true)) == m;
    ReachesByMore(s0, polled, Advance(c, true), c, PollChild(h), h, Starting, k + 1);
  }

  lemma {:induction false} Polls(s0: State, s: State, c: CallId, kind: Kind, begun: nat, h: HostId, i: Identity, k: nat)
    requires s.descriptor == Absent
    requires Reaches(s0, At(Born(s, c, h, i), c, kind, begun, ReadStatus(AtStartup(h)), Some(ByCall(c))))
    ensures var m := At(Born(s, c, h, i), c, kind, begun, ReadStatus(AtStartup(h)), Some(ByCall(c)));
      ReachesBy(s0, m, c, PollChild(h), h, Starting, k)
  {
    hide ReachesBy, Reaches, Born, At;
    if k == 0 {
      ReachesNone(s0, At(Born(s, c, h, i), c, kind, begun, ReadStatus(AtStartup(h)), Some(ByCall(c))), c, PollChild(h),
        h, Starting);
    } else {
      Polls(s0, s, c, kind, begun, h, i, k - 1);
      PollsOnce(s0, s, c, kind, begun, h, i, k - 1);
    }
  }

  /** The launched host takes the lifetime lock and publishes itself before the call looks again. */
  lemma HostComesUp(s0: State, s: State, c: CallId, kind: Kind, begun: nat, h: HostId, i: Identity)
    requires s.lifetime == None && h !in s.hosts
    requires Reaches(s0, At(Born(s, c, h, i), c, kind, begun, ReadStatus(AtStartup(h)), Some(ByCall(c))))
    ensures Reaches(s0, At(Started(s, c, h, i), c, kind, begun, ReadStatus(AtStartup(h)), Some(ByCall(c))))
  {
    var lock := Some(ByCall(c));
    hide Reaches;
    var born := Born(s, c, h, i);
    var first := At(born, c, kind, begun, ReadStatus(AtStartup(h)), lock);
    ReachesMore(s0, first, HostStep(h, Progress));
    var acquired :=
      born.(hosts := s.hosts[h := Host(i, Acquired, false, Some(c))], lifetime := Some(ByHost(h)),
        engines := s.engines + [h]);
    var second := At(acquired, c, kind, begun, ReadStatus(AtStartup(h)), lock);
    HostAgain(s, h, i, c, Starting, Acquired);
    assert Apply(first, HostStep(h, Progress)) == second;
    ReachesMore(s0, second, HostStep(h, Progress));
    HostAgain(s, h, i, c, Acquired, Serving);
    assert Apply(second, HostStep(h, Progress))
      == At(Started(s, c, h, i), c, kind, begun, ReadStatus(AtStartup(h)), lock);
  }

  lemma HostAgain(s: State, h: HostId, i: Identity, c: CallId, p: Phase, q: Phase)
    ensures s.hosts[h := Host(i, p, false, Some(c))][h := Host(i, q, false, Some(c))]
      == s.hosts[h := Host(i, q, false, Some(c))]
  {
  }

  lemma StartedIsFound(s: State, c: CallId, h: HostId, i: Identity)
    ensures Found(Started(s, c, h, i), h)
  {
    assert Started(s, c, h, i).hosts[h].identity == i;
  }

  /**
   Where nobody is in the launch lock and nobody holds the lifetime lock, an undisturbed `ensure` or
   `notify_job` starts an engine, whatever descriptor it finds, and reports that it did, however often it
   polls a child that is still starting.
   */
  lemma EngineCanBeStarted(s: State, c: CallId, kind: Kind, h: HostId, i: Identity, k: nat)
    requires s.launch == None && s.lifetime == None && c !in s.calls && kind != Stop && h !in s.hosts
    requires FreshIdentity(s, i)
    ensures ReachesBy(s, At(Started(s, c, h, i), c, kind, |s.engines|,
      Done(Success(kind, Answer(h, |s.engines| + 1), true)), None), c, PollChild(h), h, Starting, k)
  {
    hide *;
    var begun, clear := |s.engines|, s.(descriptor := Absent);
    Launches(s, c, kind, h, i);
    var m := At(Born(clear, c, h, i), c, kind, begun, ReadStatus(AtStartup(h)), Some(ByCall(c)));
    Polls(s, clear, c, kind, begun, h, i, k);
    ReachesSelf(m);
    HostComesUp(m, clear, c, kind, begun, h, i);
    Answers(m, s, c, kind, begun, h, i);
    ReachesThen(s, m, At(Started(s, c, h, i), c, kind, begun, Done(Success(kind, Answer(h, begun + 1), true)), None),
      c, PollChild(h), h, Starting, k);
  }

  /** Up to the launch of the child. */
  lemma Launches(s: State, c: CallId, kind: Kind, h: HostId, i: Identity)
    requires s.launch == None && s.lifetime == None && c !in s.calls && kind != Stop && h !in s.hosts
    requires FreshIdentity(s, i)
    ensures Reaches(s, At(Born(s.(descriptor := Absent), c, h, i), c, kind, |s.engines|, ReadStatus(AtStartup(h)),
      Some(ByCall(c))))
  {
    hide Reaches;
    Enters(s, c, kind);
    FindsNothing(s, s, c, kind, |s.engines|);
    ClearsTheWay(s, s, c, kind, |s.engines|);
    assert FreshIdentity(s.(descriptor := Absent), i);
    HostIsBorn(s, s.(descriptor := Absent), c, kind, |s.engines|, h, i);
  }

  /** From the child's serving to the report. */
  lemma Answers(s0: State, s: State, c: CallId, kind: Kind, begun: nat, h: HostId, i: Identity)
    requires kind != Stop && begun == |s.engines|
    requires Reaches(s0, At(Started(s.(descriptor := Absent), c, h, i), c, kind, begun, ReadStatus(AtStartup(h)),
      Some(ByCall(c))))
    ensures Reaches(s0, At(Started(s, c, h, i), c, kind, begun, Done(Success(kind, Answer(h, begun + 1), true)), None))
  {
    hide Reaches, AfterEnsure, Success, Found;
    var t := Started(s.(descriptor := Absent), c, h, i);
    assert t == Started(s, c, h, i) && |t.engines| == begun + 1;
    hide Started;
    StartedIsFound(s, c, h, i);
    AsksTheEngine(s0, t, c, kind, begun, AtStartup(h), h);
    FinishesEnsured(s0, t, c, kind, begun, h, begun + 1, true);
  }

  // ---------------------------------------------------------------- an engine is stopped

  /** The world with the host `e` in phase `p`, asked to stop. */
  function Going(s: State, e: HostId, p: Phase, lifetime: Option<Owner>, d: Descriptor): State
    requires e in s.hosts
  {
    s.(hosts := s.hosts[e := s.hosts[e].(phase := p, stopping := true)], lifetime := lifetime, descriptor := d)
  }

  /** One step of the host that goes. */
  lemma HostGoes(s0: State, s: State, c: CallId, begun: nat, e: HostId, p: Phase, lifetime: Option<Owner>,
          d: Descriptor, cause: Cause, q: Phase, later: Option<Owner>, left: Descriptor)
    requires e in s.hosts && p != Released
    requires var t := At(Going(s, e, p, lifetime, d), c, Stop, begun, AwaitGone(e), Some(ByCall(c)));
      Reaches(s0, t) && CanStep(t, e, cause)
      && AdvanceHost(t, e, cause) == SetPhase(t, e, q).(lifetime := later, descriptor := left)
    ensures Reaches(s0, At(Going(s, e, q, later, left), c, Stop, begun, AwaitGone(e), Some(ByCall(c))))
  {
    hide Reaches;
    var t := At(Going(s, e, p, lifetime, d), c, Stop, begun, AwaitGone(e), Some(ByCall(c)));
    ReachesMore(s0, t, HostStep(e, cause));
    hide AdvanceHost, CanStep;
    GoingAgain(s, e, p, q);
  }

  lemma GoingAgain(s: State, e: HostId, p: Phase, q: Phase)
    requires e in s.hosts
    ensures s.hosts[e := s.hosts[e].(phase := p, stopping := true)][e := s.hosts[e].(phase := q, stopping := true)]
      == s.hosts[e := s.hosts[e].(phase := q, stopping := true)]
  {
  }

  /** The host drains, removes its descriptor, releases the lifetime lock and is gone. */
  lemma HostGoesAway(s0: State, s: State, c: CallId, begun: nat, e: HostId)
    requires e in s.hosts && s.descriptor == Published(e)
    requires Reaches(s0, At(Going(s, e, Serving, s.lifetime, s.descriptor), c, Stop, begun, AwaitGone(e),
      Some(ByCall(c))))
    ensures Reaches(s0, At(Going(s, e, Dead, None, Absent), c, Stop, begun, AwaitGone(e), Some(ByCall(c))))
  {
    hide Reaches;
    HostGoes(s0, s, c, begun, e, Serving, s.lifetime, s.descriptor, Drained, Closing, s.lifetime, s.descriptor);
    HostGoes(s0, s, c, begun, e, Closing, s.lifetime, s.descriptor, Progress, Unlisted, s.lifetime, Absent);
    HostGoes(s0, s, c, begun, e, Unlisted, s.lifetime, Absent, Progress, Released, None, Absent);
    var t := At(Going(s, e, Released, None, Absent), c, Stop, begun, AwaitGone(e), Some(ByCall(c)));
    ReachesMore(s0, t, HostStep(e, Progress));
    GoingAgain(s, e, Released, Dead);
    assert Apply(t, HostStep(e, Progress))
      == At(Going(s, e, Dead, None, Absent), c, Stop, begun, AwaitGone(e), Some(ByCall(c)));
  }

  /** A dead host is not taken for anyone, since no two processes share pid and start time. */
  lemma GoneIsGone(s: State, e: HostId, c: CallId, begun: nat)
    requires Inv(s) && e in s.hosts
    ensures !IdentityMatches(At(Going(s, e, Dead, None, Absent), c, Stop, begun, AwaitGone(e), Some(ByCall(c))), e)
  {
    assert HostOk(s, e);
    hide CallOk;
  }

  /** Once the host is gone the call probes the lifetime lock, removes what is left and reports it. */
  lemma SeesItGone(s0: State, s: State, c: CallId, begun: nat, e: HostId)
    requires s.lifetime == None && s.descriptor == Absent
    requires !IdentityMatches(At(s, c, Stop, begun, AwaitGone(e), Some(ByCall(c))), e)
    requires Reaches(s0, At(s, c, Stop, begun, AwaitGone(e), Some(ByCall(c))))
    ensures Reaches(s0, At(s, c, Stop, begun, Done(Stopped(Some(e))), None))
  {
    hide Reaches, IdentityMatches;
    Moves(s0, s, c, Stop, begun, AwaitGone(e), true, GoneProbe(e));
    ProbesForStop(s0, s, c, begun, GoneProbe(e), GoneProbeHeld(e), Some(e));
  }

  /** A free lifetime lock is probed, and the descriptor removed. */
  lemma ProbesForStop(s0: State, s: State, c: CallId, begun: nat, p: Point, held: Point, gone: Option<HostId>)
    requires s.lifetime == None && Reaches(s0, At(s, c, Stop, begun, p, Some(ByCall(c))))
    requires (p == StopProbe && held == StopProbeHeld && gone == None)
      || (gone.Some? && p == GoneProbe(gone.value) && held == GoneProbeHeld(gone.value))
    ensures Reaches(s0, At(s.(descriptor := Absent), c, Stop, begun, Done(Stopped(gone)), None))
  {
    hide Reaches;
    ProbeTaken(s0, s, c, begun, p, held, gone);
    ProbeGiven(s0, s, c, begun, held, gone);
    LastRemoval(s0, s, c, begun, gone);
    Leaves(s0, s.(descriptor := Absent), c, Stop, begun, Stopped(gone));
  }

  lemma ProbeTaken(s0: State, s: State, c: CallId, begun: nat, p: Point, held: Point, gone: Option<HostId>)
    requires s.lifetime == None && Reaches(s0, At(s, c, Stop, begun, p, Some(ByCall(c))))
    requires (p == StopProbe && held == StopProbeHeld)
      || (gone.Some? && p == GoneProbe(gone.value) && held == GoneProbeHeld(gone.value))
    ensures Reaches(s0, At(s.(lifetime := Some(ByCall(c))), c, Stop, begun, held, Some(ByCall(c))))
  {
    hide Reaches, IdentityMatches;
    var lock := Some(ByCall(c));
    var t := At(s, c, Stop, begun, p, lock);
    AtAgain(s, c, Stop, begun, p, held, lock);
    ReachesMore(s0, t, Advance(c, true));
    assert Apply(t, Advance(c, true)) == SetPoint(t, c, held).(lifetime := lock);
    hide Apply;
  }

  lemma ProbeGiven(s0: State, s: State, c: CallId, begun: nat, held: Point, gone: Option<HostId>)
    requires s.lifetime == None
    requires Reaches(s0, At(s.(lifetime := Some(ByCall(c))), c, Stop, begun, held, Some(ByCall(c))))
    requires (held == StopProbeHeld && gone == None) || (gone.Some? && held == GoneProbeHeld(gone.value))
    ensures Reaches(s0, At(s, c, Stop, begun, StopUnlink(gone), Some(ByCall(c))))
  {
    hide Reaches, IdentityMatches;
    var lock := Some(ByCall(c));
    var t := At(s.(lifetime := lock), c, Stop, begun, held, lock);
    AtAgain(s.(lifetime := lock), c, Stop, begun, held, StopUnlink(gone), lock);
    ReachesMore(s0, t, Advance(c, true));
    assert Apply(t, Advance(c, true)) == SetPoint(t, c, StopUnlink(gone)).(lifetime := None);
    hide Apply;
  }

  lemma LastRemoval(s0: State, s: State, c: CallId, begun: nat, gone: Option<HostId>)
    requires Reaches(s0, At(s, c, Stop, begun, StopUnlink(gone), Some(ByCall(c))))
    ensures Reaches(s0, At(s.(descriptor := Absent), c, Stop, begun, Releasing(Stopped(gone)), Some(ByCall(c))))
  {
    hide Reaches, IdentityMatches;
    var lock := Some(ByCall(c));
    var t := At(s, c, Stop, begun, StopUnlink(gone), lock);
    AtAgain(s, c, Stop, begun, StopUnlink(gone), Releasing(Stopped(gone)), lock);
    ReachesMore(s0, t, Advance(c, true));
    assert Apply(t, Advance(c, true)) == SetPoint(t, c, Releasing(Stopped(gone))).(descriptor := Absent);
    hide Apply;
  }

  /** The call waits for the engine as long as it is there. */
  lemma {:induction false} Waits(s0: State, s: State, c: CallId, begun: nat, e: HostId, k: nat)
    requires e in s.hosts
    requires var m := At(Going(s, e, Serving, s.lifetime, s.descriptor), c, Stop, begun, AwaitGone(e), Some(ByCall(c)));
      Reaches(s0, m)
    ensures var m := At(Going(s, e, Serving, s.lifetime, s.descriptor), c, Stop, begun, AwaitGone(e), Some(ByCall(c)));
      ReachesBy(s0, m, c, AwaitGone(e), e, Serving, k)
  {
    hide ReachesBy, Reaches;
    var m := At(Going(s, e, Serving, s.lifetime, s.descriptor), c, Stop, begun, AwaitGone(e), Some(ByCall(c)));
    if k == 0 {
      ReachesNone(s0, m, c, AwaitGone(e), e, Serving);
    } else {
      Waits(s0, s, c, begun, e, k - 1);
      assert m.hosts[e].phase == Serving && IdentityMatches(m, e);
      assert Apply(m, Advance(c, true)) == m && Finds(m, c, AwaitGone(e), e, Serving);
      ReachesByMore(s0, m, Advance(c, true), c, AwaitGone(e), e, Serving, k - 1);
    }
  }

  /**
   An undisturbed `stop` of a serving engine ends with that engine gone and says so, however often it finds
   the engine still serving.
   */
  lemma EngineCanBeStopped(s: State, c: CallId, e: HostId, k: nat)
    requires Inv(s) && s.launch == None && c !in s.calls && IsServing(s, e) && s.descriptor == Published(e)
    ensures ReachesBy(s, At(Going(s, e, Dead, None, Absent), c, Stop, |s.engines|, Done(Stopped(Some(e))), None),
      c, AwaitGone(e), e, Serving, k)
  {
    hide *;
    var begun := |s.engines|;
    ServingHost(s, e);
    ServingIsFound(s, e);
    GoneIsGone(s, e, c, begun);
    Enters(s, c, Stop);
    AsksToStop(s, c, begun, e);
    ShutsDown(s, c, begun, e);
    var m := At(Going(s, e, Serving, s.lifetime, s.descriptor), c, Stop, begun, AwaitGone(e), Some(ByCall(c)));
    Waits(s, s, c, begun, e, k);
    ReachesSelf(m);
    HostGoesAway(m, s, c, begun, e);
    var gone := Going(s, e, Dead, None, Absent);
    assert gone.lifetime == None && gone.descriptor == Absent by { GoingFields(s, e); }
    SeesItGone(m, gone, c, begun, e);
    assert gone.(descriptor := Absent) == gone;
    ReachesThen(s, m, At(gone, c, Stop, begun, Done(Stopped(Some(e))), None), c, AwaitGone(e), e, Serving, k);
  }

  // ---------------------------------------------------------------- an idle engine goes by itself

  /** The world with an idle host on its way out, in the launch lock or no longer. */
  function Leaving(s: State, e: HostId, p: Phase, lifetime: Option<Owner>, d: Descriptor, launch: Option<Owner>): State
    requires e in s.hosts
  {
    s.(hosts := s.hosts[e := s.hosts[e].(phase := p)], lifetime := lifetime, descriptor := d, launch := launch)
  }

  lemma LeavesBy(s0: State, s: State, e: HostId, p: Phase, lifetime: Option<Owner>, d: Descriptor,
          launch: Option<Owner>, cause: Cause, q: Phase, later: Option<Owner>, left: Descriptor, free: Option<Owner>)
    requires e in s.hosts
    requires var t := Leaving(s, e, p, lifetime, d, launch);
      Reaches(s0, t) && CanStep(t, e, cause)
      && AdvanceHost(t, e, cause) == SetPhase(t, e, q).(lifetime := later, descriptor := left, launch := free)
    ensures Reaches(s0, Leaving(s, e, q, later, left, free))
  {
    hide Reaches;
    ReachesMore(s0, Leaving(s, e, p, lifetime, d, launch), HostStep(e, cause));
    hide AdvanceHost, CanStep;
    assert s.hosts[e := s.hosts[e].(phase := p)][e := s.hosts[e].(phase := q)] == s.hosts[e := s.hosts[e].(phase := q)];
  }

  /** An idle engine that nobody disturbs takes the launch lock, removes its descriptor and frees both locks. */
  lemma IdleEngineGoes(s: State, e: HostId)
    requires IsServing(s, e) && !s.hosts[e].stopping && s.launch == None && s.descriptor == Published(e)
    ensures Reaches(s, Leaving(s, e, Dead, None, Absent, None))
  {
    hide Reaches;
    ReachesSelf(s);
    var lock := Some(ByHost(e));
    assert Leaving(s, e, Serving, s.lifetime, s.descriptor, None) == s;
    LeavesBy(s, s, e, Serving, s.lifetime, s.descriptor, None, Idle, Closing, s.lifetime, s.descriptor, lock);
    LeavesBy(s, s, e, Closing, s.lifetime, s.descriptor, lock, Progress, Unlisted, s.lifetime, Absent, lock);
    LeavesBy(s, s, e, Unlisted, s.lifetime, Absent, lock, Progress, Released, None, Absent, lock);
    LeavesBy(s, s, e, Released, None, Absent, lock, Progress, Released, None, Absent, None);
    LeavesBy(s, s, e, Released, None, Absent, None, Progress, Dead, None, Absent, None);
  }

  lemma ServingHost(s: State, e: HostId)
    requires IsServing(s, e)
    ensures e in s.hosts
  {
  }

  lemma GoingFields(s: State, e: HostId)
    requires e in s.hosts
    ensures Going(s, e, Dead, None, Absent).lifetime == None && Going(s, e, Dead, None, Absent).descriptor == Absent
  {
  }

  lemma AsksToStop(s: State, c: CallId, begun: nat, e: HostId)
    requires Found(s, e) && Reaches(s, At(s, c, Stop, begun, ReadStatus(AtStop), Some(ByCall(c))))
    ensures Reaches(s, At(s, c, Stop, begun, ShutAsk(e), Some(ByCall(c))))
  {
    hide Reaches, IdentityMatches, SetPoint;
    AsksTheEngine(s, s, c, Stop, begun, AtStop, e);
    SameMatches(s, At(s, c, Stop, begun, ShutMatch(e), Some(ByCall(c))), e);
    Moves(s, s, c, Stop, begun, ShutRead, true, ShutMatch(e));
    Moves(s, s, c, Stop, begun, ShutMatch(e), true, ShutAsk(e));
  }

  lemma ShutsDown(s: State, c: CallId, begun: nat, e: HostId)
    requires IsServing(s, e) && Reaches(s, At(s, c, Stop, begun, ShutAsk(e), Some(ByCall(c))))
    ensures Reaches(s, At(Going(s, e, Serving, s.lifetime, s.descriptor), c, Stop, begun, AwaitGone(e),
      Some(ByCall(c))))
  {
    hide Reaches;
    var t := At(s, c, Stop, begun, ShutAsk(e), Some(ByCall(c)));
    ReachesMore(s, t, Advance(c, true));
    AtAgain(Going(s, e, Serving, s.lifetime, s.descriptor), c, Stop, begun, ShutAsk(e), AwaitGone(e), Some(ByCall(c)));
    assert Apply(t, Advance(c, true))
      == At(Going(s, e, Serving, s.lifetime, s.descriptor), c, Stop, begun, AwaitGone(e), Some(ByCall(c)));
  }

  /**
   Where no engine holds the lifetime lock and no live process has the descriptor's identity, `stop` clears up
   and succeeds.
   */
  lemma NothingToStop(s: State, c: CallId)
    requires s.launch == None && s.lifetime == None && c !in s.calls
    requires s.descriptor.Published? ==> !IdentityMatches(s, s.descriptor.host)
    ensures Reaches(s, At(s.(descriptor := Absent), c, Stop, |s.engines|, Done(Stopped(None)), None))
  {
    hide Reaches, IdentityMatches, SetPoint;
    var begun := |s.engines|;
    Enters(s, c, Stop);
    if s.descriptor.Published? {
      var d := s.descriptor.host;
      SameMatches(s, At(s, c, Stop, begun, MatchStatus(AtStop, d), Some(ByCall(c))), d);
      SameMatches(s, At(s, c, Stop, begun, StopMatch(d), Some(ByCall(c))), d);
      Moves(s, s, c, Stop, begun, ReadStatus(AtStop), true, MatchStatus(AtStop, d));
      Moves(s, s, c, Stop, begun, MatchStatus(AtStop, d), true, StopRead);
      Moves(s, s, c, Stop, begun, StopRead, true, StopMatch(d));
      Moves(s, s, c, Stop, begun, StopMatch(d), true, StopProbe);
    } else {
      Moves(s, s, c, Stop, begun, ReadStatus(AtStop), true, StopRead);
      Moves(s, s, c, Stop, begun, StopRead, true, StopProbe);
    }
    ProbesForStop(s, s, c, begun, StopProbe, StopProbeHeld, None);
  }
}
