/** Why engines end. */
module EngineEnds {
  // (backend/app/engine/host.py) A host leaves its loop when a request asked it to, or when it is idle and gets the
  // launch lock.

  import opened Text
  import opened EngineProtocol
  import opened EngineInvariant
  import opened EngineRuns
  import opened EngineTheorems

  /** A call asks the host to shut down, and is answered. */
  predicate Asks(s: State, t: State, c: CallId, h: HostId) {
    c in s.calls && c in t.calls && s.calls[c].at == ShutAsk(h) && t.calls[c].at == AwaitGone(h)
  }

  predicate AsksAt(states: seq<State>, m: nat, c: CallId, h: HostId) {
    m + 1 < |states| && Asks(states[m], states[m + 1], c, h)
  }

  ghost predicate WasAsked(states: seq<State>, n: nat, h: HostId) {
    exists m: nat, c :: m < n && AsksAt(states, m, c, h)
  }

  predicate Stopping(s: State, h: HostId) {
    Alive(s, h) && s.hosts[h].stopping
  }

  lemma BecomesStopping(s: State, a: Action, h: HostId)
    requires Enabled(s, a, false) && Stopping(Apply(s, a), h) && !Stopping(s, h)
    ensures a.Advance? && Asks(s, Apply(s, a), a.call, h)
  {
  }

  /** No host stops on request unless a call asked it to. */
  lemma {:induction false} StoppingWasAsked(states: seq<State>, n: nat, h: HostId)
    requires Run(states, false) && n < |states| && Stopping(states[n], h)
    ensures WasAsked(states, n, h)
    decreases n
  {
    assert n > 0;
    var a := StepTaken(states, n - 1, false);
    if Stopping(states[n - 1], h) {
      StoppingWasAsked(states, n - 1, h);
      var m: nat, c :| m < n - 1 && AsksAt(states, m, c, h);
      assert m < n && AsksAt(states, m, c, h);
    } else {
      BecomesStopping(states[n - 1], a, h);
      assert n - 1 < n && AsksAt(states, n - 1, a.call, h);
    }
  }

  /** It is killed, by its launcher or from outside, or breaks, was asked to stop, or is idle with the lock free. */
  ghost predicate EndsBy(states: seq<State>, n: nat, h: HostId, a: Action)
    requires n < |states| && h in states[n].hosts
  {
    var s := states[n];
    || a == Kill(h) || a == HostStep(h, Broken)
    || (a.Advance? && a.call in s.calls && s.calls[a.call].at == Terminate(h))
    || (a == HostStep(h, Drained) && WasAsked(states, n, h))
    || (a == HostStep(h, Idle) && !s.hosts[h].stopping && s.launch == None)
  }

  lemma StopsServing(s: State, a: Action, h: HostId)
    requires Enabled(s, a, false) && IsServing(s, h) && !IsServing(Apply(s, a), h)
    ensures h in Apply(s, a).hosts && Apply(s, a).hosts[h].phase in {Closing, Dead}
    ensures a == Kill(h) || (a.HostStep? && a.host == h)
      || (a.Advance? && a.call in s.calls && s.calls[a.call].at == Terminate(h))
  {
    if a.Advance? { CallsSpare(s, a.call, a.ok, h); }
    hide AdvanceCall, CanAdvance, FreshIdentity;
  }

  /** A call changes the phase of no host but the child that it terminates. */
  lemma CallsSpare(s: State, c: CallId, ok: bool, h: HostId)
    requires CanAdvance(s, c, ok) && h in s.hosts
    ensures var t := AdvanceCall(s, c, ok);
      && h in t.hosts
      && t.hosts[h].phase == (if s.calls[c].at == Terminate(h) then Dead else s.hosts[h].phase)
      && (t.launch == s.launch || t.launch == None || t.launch == Some(ByCall(c)))
  {
    hide IdentityMatches;
  }

  /** A host that is asked to stop drains; it goes idle only unasked, and then with the launch lock in its hands. */
  lemma EndsServing(s: State, h: HostId, cause: Cause)
    requires CanStep(s, h, cause) && IsServing(s, h)
    ensures cause == Broken || cause == Drained || cause == Idle
    ensures cause == Drained ==> s.hosts[h].stopping && AdvanceHost(s, h, cause).launch == s.launch
    ensures cause == Idle
      ==> !s.hosts[h].stopping && s.launch == None && AdvanceHost(s, h, cause).launch == Some(ByHost(h))
  {
  }

  /** In every run a serving engine ends for one of these reasons, and is closing or dead then. */
  lemma EngineEndsForAReason(states: seq<State>, n: nat, h: HostId) returns (a: Action)
    requires Run(states, false) && n + 1 < |states| && IsServing(states[n], h) && !IsServing(states[n + 1], h)
    ensures Enabled(states[n], a, true) && states[n + 1] == Apply(states[n], a) && EndsBy(states, n, h, a)
    ensures h in states[n + 1].hosts && states[n + 1].hosts[h].phase in {Closing, Dead}
  {
    a := StepTaken(states, n, false);
    StopsServing(states[n], a, h);
    if a.HostStep? {
      EndsServing(states[n], h, a.cause);
      if a.cause == Drained {
        assert Stopping(states[n], h);
        StoppingWasAsked(states, n, h);
      }
    }
  }

  // ---------------------------------------------------------------- how long a host goes on

  /** The steps that a host has left at most. */
  function HostLeft(s: State, h: HostId): nat
    requires h in s.hosts
  {
    match s.hosts[h].phase
    case Starting => 7
    case Acquired => 6
    case Serving => 5
    case Closing => 4
    case Unlisted => 3
    case Released => if s.launch == Some(ByHost(h)) then 2 else 1
    case Dead => 0
  }

  lemma HostGoesOn(s: State, g: HostId, cause: Cause, h: HostId)
    requires CanStep(s, g, cause) && h in s.hosts
    ensures h in AdvanceHost(s, g, cause).hosts
    ensures HostLeft(AdvanceHost(s, g, cause), h) <= HostLeft(s, h) - (if g == h then 1 else 0)
  {
  }

  /** Every step of a host, and its death, uses some of that up, and no other action gives any back. */
  lemma HostsRunOut(s: State, a: Action, h: HostId)
    requires Enabled(s, a, true) && h in s.hosts
    ensures h in Apply(s, a).hosts && HostLeft(Apply(s, a), h) <= HostLeft(s, h)
    ensures a == Kill(h) || (a.HostStep? && a.host == h) ==> HostLeft(Apply(s, a), h) < HostLeft(s, h)
    ensures HostLeft(s, h) > 0 ==> exists cause :: CanStep(s, h, cause)
  {
    assert HostLeft(s, h) > 0 ==> CanStep(s, h, Broken);
    if a.Advance? {
      CallsSpare(s, a.call, a.ok, h);
    } else if a.HostStep? {
      HostGoesOn(s, a.host, a.cause, h);
    }
    hide AdvanceCall, CanAdvance, AdvanceHost, CanStep, FreshIdentity;
  }

  /** The pid of a dead host goes to the next process that has a new start time, unless a live one has it already. */
  lemma PidsAreReused(s: State, h: HostId, start: nat)
    requires h in s.hosts && s.hosts[h].phase == Dead
    requires forall g | g in s.hosts && Alive(s, g) :: s.hosts[g].identity.pid != s.hosts[h].identity.pid
    requires forall i | i in s.strangers :: i.pid != s.hosts[h].identity.pid
    ensures var i := Identity(s.hosts[h].identity.pid, start);
      i !in s.used <==> Enabled(s, StrangerStarts(i), false)
  {
  }
}
