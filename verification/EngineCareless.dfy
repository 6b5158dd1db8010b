/** Why a launched child must be disposed of. */
module EngineCareless {
  // If the call that launched it ends while the child is still starting, for example because reading
  // the descriptor raises, a second call finds the lifetime lock free and removes the descriptor the
  // child has published in the meantime.

  import opened Text
  import opened EngineProtocol

  const CHILD := Identity(7, 1)

  function First(p: Point): Call { Call(Ensure, 0, p) }

  function Second(p: Point): Call { Call(Ensure, 0, p) }

  /** The world of the two calls 0 and 1 and of the host 0 that the first one launched. */
  function World(launch: Option<Owner>, lifetime: Option<Owner>, d: Descriptor, phase: Phase,
          second: Option<Point>): State {
    State(launch, lifetime, d, map[0 := Host(CHILD, phase, false, Some(0))],
          if second.None? then map[0 := First(Done(Failed))]
          else map[0 := First(Done(Failed)), 1 := Second(second.value)],
          {}, {CHILD}, if phase == Starting then [] else [0])
  }

  /** The world while the first call has not launched anything. */
  function Before(launch: Option<Owner>, lifetime: Option<Owner>, p: Point): State {
    State(launch, lifetime, Absent, map[], map[0 := First(p)], {}, {}, [])
  }

  lemma StepTo(states: seq<State>, a: Action, s: State) returns (longer: seq<State>)
    requires Run(states, true) && states != [] && Enabled(states[|states| - 1], a, true)
    requires s == Apply(states[|states| - 1], a)
    ensures Run(longer, true) && longer != [] && longer[|longer| - 1] == s
  {
    longer := states + [s];
    assert Next(states[|states| - 1], s, true);
    forall i | 0 <= i < |longer| - 1 ensures Next(longer[i], longer[i + 1], true) {
      if i < |states| - 1 { assert Next(states[i], states[i + 1], true); }
    }
  }

  lemma FirstCallBegins() returns (states: seq<State>)
    ensures Run(states, true) && states != [] && states[|states| - 1] == Before(None, None, Waiting)
  {
    states := [State(None, None, Absent, map[], map[], {}, {}, [])];
    assert Run(states, true);
    hide Run, Init, Next;
    states := StepTo(states, Begin(0, Ensure), Before(None, None, Waiting));
  }

  lemma FirstCallReachesLaunch() returns (states: seq<State>)
    ensures Run(states, true) && states != [] && states[|states| - 1] == Before(Some(ByCall(0)), None, Launch)
  {
    states := FirstCallBegins();
    var lock := Some(ByCall(0));
    hide Run, Init, Next, IdentityMatches, FreshIdentity;
    states := StepTo(states, Advance(0, true), Before(lock, None, ReadStatus(AtEnsure)));
    states := StepTo(states, Advance(0, true), Before(lock, None, Probe));
    states := StepTo(states, Advance(0, true), Before(lock, lock, ProbeHeld));
    states := StepTo(states, Advance(0, true), Before(lock, None, Unlink));
    states := StepTo(states, Advance(0, true), Before(lock, None, Launch));
  }

  lemma FirstCallAbandonsItsChild() returns (states: seq<State>)
    ensures Run(states, true) && states != [] && states[|states| - 1] == World(None, None, Absent, Starting, None)
  {
    states := FirstCallReachesLaunch();
    hide Run, Init, Next, IdentityMatches;
    var s := World(Some(ByCall(0)), None, Absent, Starting, None).(calls := map[0 := First(ReadStatus(AtStartup(0)))]);
    states := StepTo(states, Spawn(0, 0, CHILD), s);
    states := StepTo(states, Abort(0), World(None, None, Absent, Starting, None));
  }

  lemma SecondCallProbes() returns (states: seq<State>)
    ensures Run(states, true) && states != []
    ensures states[|states| - 1] == World(Some(ByCall(1)), None, Absent, Starting, Some(Unlink))
  {
    states := FirstCallAbandonsItsChild();
    hide Run, Init, Next, IdentityMatches, FreshIdentity;
    var lock := Some(ByCall(1));
    states := StepTo(states, Begin(1, Ensure), World(None, None, Absent, Starting, Some(Waiting)));
    states := StepTo(states, Advance(1, true), World(lock, None, Absent, Starting, Some(ReadStatus(AtEnsure))));
    states := StepTo(states, Advance(1, true), World(lock, None, Absent, Starting, Some(Probe)));
    states := StepTo(states, Advance(1, true), World(lock, lock, Absent, Starting, Some(ProbeHeld)));
    states := StepTo(states, Advance(1, true), World(lock, None, Absent, Starting, Some(Unlink)));
  }

  /** With such an end allowed, a call can remove the descriptor of a serving engine. */
  lemma CarelessCallHidesAServingEngine() returns (states: seq<State>)
    ensures Run(states, true) && states != []
    ensures IsServing(states[|states| - 1], 0) && states[|states| - 1].descriptor == Absent
    ensures 1 in states[|states| - 1].calls && states[|states| - 1].calls[1].at == Launch
  {
    states := SecondCallProbes();
    hide Run, Init, Next, IdentityMatches, FreshIdentity;
    var lock, alive := Some(ByCall(1)), Some(ByHost(0));
    states := StepTo(states, HostStep(0, Progress), World(lock, alive, Absent, Acquired, Some(Unlink)));
    states := StepTo(states, HostStep(0, Progress), World(lock, alive, Published(0), Serving, Some(Unlink)));
    states := StepTo(states, Advance(1, true), World(lock, alive, Absent, Serving, Some(Launch)));
  }
}
