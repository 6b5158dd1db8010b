/** No worker of a wave starts before its turn. */
module GateStart {
  // (backend/app/runtime_sqlite_gate.py) The parent collects every worker's ready message before it sends the first
  // start message.

  import opened GateWave

  ghost predicate Holds(c: Config, s: State) {
    |s.pcs| == c.workers
    && match s.parent
       case Collect(_) => forall w | 0 <= w < c.workers :: s.pcs[w] == Init || s.pcs[w] == AwaitStart || w in s.timedOut
       case Start(i) => forall w | i <= w < c.workers :: s.pcs[w] == AwaitStart || w in s.timedOut
       case _ => true
  }

  lemma ParentHolds(c: Config, s: State)
    requires Inv(c, s) && Holds(c, s) && ParentEnabled(s)
    ensures Holds(c, ParentStep(s))
  {
    hide LogOk, WorkerOk, HasCommit, SomeFirstCommits;
  }

  lemma WorkerHolds(c: Config, s: State, w: nat)
    requires Inv(c, s) && Holds(c, s) && WorkerEnabled(c, s, w)
    ensures Holds(c, WorkerStep(c, s, w))
  {
    assert WorkerOk(c, s, w);
    hide LogOk, HasCommit, SomeFirstCommits;
  }

  lemma TimeoutHolds(c: Config, s: State, w: nat)
    requires Holds(c, s) && Waits(c, s, w)
    ensures Holds(c, TimeoutStep(c, s, w))
  {
  }

  lemma {:induction false} RunHolds(c: Config, states: seq<State>, n: nat, timed: bool)
    requires c.Valid() && Run(c, states, timed) && n < |states|
    ensures Holds(c, states[n])
  {
    if n > 0 {
      RunHolds(c, states, n - 1, timed);
      RunKeeps(c, states, timed, n - 1);
      var s, t := states[n - 1], states[n - 1 + 1];
      assert Next(c, s, t, timed);
      hide Inv, Holds, ParentStep, WorkerStep, TimeoutStep;
      if ParentEnabled(s) && t == ParentStep(s) {
        ParentHolds(c, s);
      } else if w: nat :| WorkerEnabled(c, s, w) && t == WorkerStep(c, s, w) {
        WorkerHolds(c, s, w);
      } else {
        var w: nat :| Waits(c, s, w) && t == TimeoutStep(c, s, w);
        TimeoutHolds(c, s, w);
      }
    }
  }

  /** What the parent has sent: in the start phase to the workers before the next one, then to all. */
  predicate Sends(p: Parent, w: nat) {
    p.Results? || p.Returned? || (p.Start? && p.i > w)
  }

  /** In every run, a worker that goes on without having given up has been sent its start message. */
  lemma StartedInOrder(c: Config, states: seq<State>, n: nat, w: nat, timed: bool)
    requires c.Valid() && Run(c, states, timed) && n < |states| && w < |states[n].pcs|
    requires states[n].pcs[w] !in {Init, AwaitStart} && w !in states[n].timedOut
    ensures Sends(states[n].parent, w)
  {
    RunHolds(c, states, n, timed);
  }
}
