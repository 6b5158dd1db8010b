/** Streams of jobs whose writer keeps the table of transitions. */
module JobStreams {
  // A job that is over has a log which is closed, so that its streams end.

  import opened Text
  import opened JobStates
  import opened EventStream

  /** One transaction of the writer: an event for a job that is not over, or a transition with its event. */
  ghost predicate Writes(s: Snapshot, t: Snapshot) {
    || t == s
    || (!IsTerminal(s.state) && t.state == s.state && exists e :: t.log == s.log + [e])
    || (TransitionJob(s.state, t.state).Ok? && exists e :: t.log == s.log + [e])
  }

  ghost predicate Lawful(history: nat -> Snapshot) {
    GrowingHistory(history) && forall n: nat :: Writes(history(n), history(n + 1))
  }

  lemma {:induction false} StaysOver(history: nat -> Snapshot, t: nat, u: nat)
    requires Lawful(history) && IsTerminal(history(t).state) && t <= u
    ensures history(u) == history(t)
    decreases u
  {
    hide GrowingHistory;
    if t < u {
      StaysOver(history, t, u - 1);
      assert Writes(history(u - 1), history(u - 1 + 1));
    }
  }

  /** Once a job is over, its state and its log stay as they are. */
  lemma TerminalSettles(history: nat -> Snapshot, t: nat)
    requires Lawful(history) && IsTerminal(history(t).state)
    ensures SettledFrom(history, t)
  {
    forall u | t <= u ensures history(u) == history(t) { StaysOver(history, t, u); }
  }

  /** A stream over a job that gets over is still open for no more turns than there are moments and events left. */
  lemma StreamOfEndedJobEnds(history: nat -> Snapshot, t: nat, start: nat, after: nat, turns: nat)
    requires Lawful(history) && IsTerminal(history(t).state) && StillAtWork(history, start, after, turns)
    ensures turns <= |After(history(t).log, after)| + (if start < t then t - start else 0)
  {
    hide Lawful, SettledFrom;
    TerminalSettles(history, t);
  }
}
