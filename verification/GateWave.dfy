/** The worker wave of the SQLite gate. */
module GateWave {
  // (backend/app/runtime_sqlite_gate.py) A parent and its workers meet over pipes and, in the checkpoint
  // mode, over two events. A worker whose store does not open reports at once. The waits for the start
  // message and for the events end after a time; runs are considered without and with such timeouts.

  import opened Text

  /**
   `opens(w)` tells whether the store of worker `w` opens, and `succeeds(w, k)` whether its operation
   `k`, if it comes to it, commits a write.
   */
  datatype Config = Config(workers: nat, operations: nat, checkpoint: bool, opens: nat -> bool,
    succeeds: (nat, nat) -> bool) {
    ghost predicate Valid() {
      workers >= 1 && operations >= 2
    }

    predicate Checkpointer(w: nat) {
      checkpoint && w == 0
    }

    /** The first write of a writer commits. */
    predicate FirstCommits(w: nat) {
      1 <= w < workers && opens(w) && succeeds(w, 0)
    }
  }

  datatype Pc = Init | AwaitStart | AwaitActivity | Running(op: nat) | AwaitStarted | Sent

  datatype Parent = Collect(i: nat) | Start(i: nat) | Results(i: nat) | Returned

  datatype Event = Committed(worker: nat, op: nat) | CheckpointStarted | Checkpointed(op: nat)

  /** `timedOut` holds what those workers waited for that gave up waiting. */
  datatype State = State(parent: Parent, pcs: seq<Pc>, activity: bool, started: bool, timedOut: map<nat, Pc>,
    log: seq<Event>)

  function Initial(c: Config): State {
    State(Collect(0), seq(c.workers, _ => Init), c.checkpoint && c.workers == 1, false, map[], [])
  }

  predicate StartSent(p: Parent, w: nat) {
    match p
    case Collect(_) => false
    case Start(i) => w < i
    case _ => true
  }

  predicate WorkerEnabled(c: Config, s: State, w: nat) {
    w < |s.pcs|
    && match s.pcs[w]
       case AwaitStart => StartSent(s.parent, w)
       case AwaitActivity => s.activity
       case AwaitStarted => s.started
       case Sent => false
       case _ => true
  }

  /** A worker waits for what has not come. */
  predicate Waits(c: Config, s: State, w: nat) {
    w < |s.pcs|
    && match s.pcs[w]
       case AwaitStart => !StartSent(s.parent, w)
       case AwaitActivity => !s.activity
       case AwaitStarted => !s.started
       case _ => false
  }

  predicate ParentEnabled(s: State) {
    match s.parent
    case Collect(i) => i < |s.pcs| ==> s.pcs[i] != Init
    case Start(_) => true
    case Results(i) => i < |s.pcs| ==> s.pcs[i] == Sent
    case Returned => false
  }

  function Move(s: State, w: nat, pc: Pc): State
    requires w < |s.pcs|
  {
    s.(pcs := s.pcs[w := pc])
  }

  /** One operation of the loop: a checkpoint, or a write that commits or not. */
  function Operate(c: Config, s: State, w: nat, op: nat): State
    requires w < |s.pcs|
  {
    if c.Checkpointer(w) then Move(s, w, Running(op + 1)).(log := s.log + [Checkpointed(op)])
    else if !c.succeeds(w, op) then Move(s, w, Running(op + 1))
    else if c.checkpoint && op == 0 then Move(s, w, AwaitStarted).(activity := true, log := s.log + [Committed(w, op)])
    else Move(s, w, Running(op + 1)).(log := s.log + [Committed(w, op)])
  }

  function WorkerStep(c: Config, s: State, w: nat): State
    requires WorkerEnabled(c, s, w)
  {
    match s.pcs[w]
    case Init => Move(s, w, AwaitStart)
    case AwaitStart => Move(s, w, if !c.opens(w) then Sent else if c.Checkpointer(w) then AwaitActivity else Running(0))
    case AwaitActivity => Move(s, w, Running(0)).(started := true, log := s.log + [CheckpointStarted])
    case AwaitStarted => Move(s, w, Running(1))
    case Running(op) => if op >= c.operations then Move(s, w, Sent) else Operate(c, s, w, op)
  }

  /** The worker gives up waiting and sends its report. */
  function TimeoutStep(c: Config, s: State, w: nat): State
    requires Waits(c, s, w)
  {
    Move(s, w, Sent).(timedOut := s.timedOut[w := s.pcs[w]])
  }

  function ParentStep(s: State): State
    requires ParentEnabled(s)
  {
    match s.parent
    case Collect(i) => s.(parent := if i < |s.pcs| then Collect(i + 1) else Start(0))
    case Start(i) => s.(parent := if i < |s.pcs| then Start(i + 1) else Results(0))
    case Results(i) => s.(parent := if i < |s.pcs| then Results(i + 1) else Returned)
  }

  /** One step, of the parent or of a worker; `timed` allows waits to end without what was waited for. */
  ghost predicate Next(c: Config, s: State, t: State, timed: bool) {
    || (ParentEnabled(s) && t == ParentStep(s))
    || (exists w: nat :: WorkerEnabled(c, s, w) && t == WorkerStep(c, s, w))
    || (timed && exists w: nat :: Waits(c, s, w) && t == TimeoutStep(c, s, w))
  }

  ghost predicate Run(c: Config, states: seq<State>, timed: bool) {
    && states != [] && states[0] == Initial(c)
    && forall i | 0 <= i < |states| - 1 :: Next(c, states[i], states[i + 1], timed)
  }

  /** No step is possible although the parent has not returned. */
  ghost predicate Stuck(c: Config, s: State, timed: bool) {
    && s.parent != Returned && !ParentEnabled(s) && (forall w: nat :: !WorkerEnabled(c, s, w))
    && (timed ==> forall w: nat :: !Waits(c, s, w))
  }

  // ---------------------------------------------------------------- invariant

  ghost predicate HasCommit(log: seq<Event>) {
    exists i | 0 <= i < |log| :: log[i].Committed?
  }

  /** The first write of some writer commits. */
  ghost predicate SomeFirstCommits(c: Config) {
    exists w :: c.FirstCommits(w)
  }

  ghost predicate WorkerOk(c: Config, s: State, w: nat)
    requires w < |s.pcs|
  {
    var pc := s.pcs[w];
    && (pc == AwaitActivity ==> c.Checkpointer(w) && c.opens(w))
    && (pc == AwaitStarted ==> c.checkpoint && c.FirstCommits(w) && s.activity)
    && (pc.Running? ==> pc.op <= c.operations && c.opens(w))
    && (c.Checkpointer(w) && c.opens(w) && w !in s.timedOut && (pc.Running? || pc == Sent) ==> s.started)
    && (c.checkpoint && c.FirstCommits(w) && w !in s.timedOut && (pc == Sent || (pc.Running? && pc.op > 0))
      ==> s.started)
    && (w in s.timedOut ==> pc == Sent && GaveUp(c, w, s.timedOut[w]))
  }

  /** What a worker can have waited for in vain. */
  predicate GaveUp(c: Config, w: nat, pc: Pc) {
    || pc == AwaitStart
    || (pc == AwaitActivity && c.Checkpointer(w) && c.opens(w))
    || (pc == AwaitStarted && c.checkpoint && c.FirstCommits(w))
  }

  ghost predicate ParentOk(c: Config, s: State)
    requires |s.pcs| == c.workers
  {
    match s.parent
    case Collect(i) => i <= c.workers && (forall w | 0 <= w < i :: s.pcs[w] != Init)
      && forall w | 0 <= w < c.workers :: s.pcs[w] == Init || s.pcs[w] == AwaitStart || w in s.timedOut
    case Start(i) => i <= c.workers && (forall w | 0 <= w < c.workers :: s.pcs[w] != Init)
    case Results(i) =>
      i <= c.workers && (forall w | 0 <= w < c.workers :: s.pcs[w] != Init) && forall w | 0 <= w < i :: s.pcs[w] == Sent
    case Returned => forall w | 0 <= w < c.workers :: s.pcs[w] == Sent
  }

  /** What must have come before an event. */
  ghost predicate EventOk(c: Config, before: seq<Event>, e: Event) {
    match e
    case Checkpointed(_) => CheckpointStarted in before
    case CheckpointStarted => c.workers > 1 ==> HasCommit(before)
    case Committed(w, op) =>
      c.opens(w) && c.succeeds(w, op) && (c.checkpoint && op > 0 && c.succeeds(w, 0) ==> CheckpointStarted in before)
  }

  ghost predicate LogOk(c: Config, log: seq<Event>) {
    forall i | 0 <= i < |log| :: EventOk(c, log[..i], log[i])
  }

  ghost predicate Inv(c: Config, s: State) {
    && c.Valid() && |s.pcs| == c.workers && ParentOk(c, s)
    && (forall w | 0 <= w < c.workers :: WorkerOk(c, s, w))
    && (s.started ==> CheckpointStarted in s.log && s.activity && c.opens(0))
    && (s.activity && c.workers > 1 ==> HasCommit(s.log))
    && (c.checkpoint && c.workers == 1 ==> s.activity)
    && (s.activity && !(c.checkpoint && c.workers == 1) ==> SomeFirstCommits(c))
    && LogOk(c, s.log)
  }

  lemma LogMore(c: Config, log: seq<Event>, e: Event)
    requires LogOk(c, log) && EventOk(c, log, e)
    ensures LogOk(c, log + [e])
    ensures HasCommit(log) || e.Committed? ==> HasCommit(log + [e])
  {
    var more := log + [e];
    forall i | 0 <= i < |more| ensures EventOk(c, more[..i], more[i]) {
      if i < |log| { assert more[..i] == log[..i]; } else { assert more[..i] == log; }
    }
    if HasCommit(log) {
      var i :| 0 <= i < |log| && log[i].Committed?;
      assert more[i].Committed?;
    } else if e.Committed? {
      assert more[|log|].Committed?;
    }
  }

  lemma InitialInv(c: Config)
    requires c.Valid()
    ensures Inv(c, Initial(c))
  {
  }

  lemma ParentKeeps(c: Config, s: State)
    requires Inv(c, s) && ParentEnabled(s)
    ensures Inv(c, ParentStep(s))
  {
    hide LogOk, HasCommit, SomeFirstCommits;
    forall w | 0 <= w < c.workers ensures WorkerOk(c, ParentStep(s), w) { assert WorkerOk(c, s, w); }
  }

  lemma MoveKeepsParent(c: Config, s: State, w: nat, pc: Pc)
    requires |s.pcs| == c.workers && w < |s.pcs| && ParentOk(c, s) && pc != Init && s.pcs[w] != Sent
    requires s.parent.Collect? ==> pc == AwaitStart
    ensures ParentOk(c, Move(s, w, pc))
  {
  }

  lemma OperateKeeps(c: Config, s: State, w: nat, op: nat)
    requires Inv(c, s) && w < |s.pcs| && s.pcs[w] == Running(op) && op < c.operations
    ensures Inv(c, Operate(c, s, w, op))
  {
    var t := Operate(c, s, w, op);
    assert WorkerOk(c, s, w);
    MoveKeepsParent(c, s, w, t.pcs[w]);
    if t.log != s.log {
      LogMore(c, s.log, t.log[|s.log|]);
      assert t.log == s.log + [t.log[|s.log|]];
    }
    if t.pcs[w] == AwaitStarted { assert c.FirstCommits(w); }
    hide LogOk, HasCommit, ParentOk, EventOk;
    forall v | 0 <= v < c.workers ensures WorkerOk(c, t, v) { assert WorkerOk(c, s, v); }
  }

  lemma WorkerKeeps(c: Config, s: State, w: nat)
    requires Inv(c, s) && WorkerEnabled(c, s, w)
    ensures Inv(c, WorkerStep(c, s, w))
  {
    assert WorkerOk(c, s, w);
    if s.pcs[w].Running? && s.pcs[w].op < c.operations {
      OperateKeeps(c, s, w, s.pcs[w].op);
    } else {
      var t := WorkerStep(c, s, w);
      MoveKeepsParent(c, s, w, t.pcs[w]);
      if t.log != s.log { LogMore(c, s.log, CheckpointStarted); }
      hide LogOk, HasCommit, ParentOk, SomeFirstCommits;
      forall v | 0 <= v < c.workers ensures WorkerOk(c, t, v) { assert WorkerOk(c, s, v); }
    }
  }

  lemma TimeoutKeeps(c: Config, s: State, w: nat)
    requires Inv(c, s) && Waits(c, s, w)
    ensures Inv(c, TimeoutStep(c, s, w))
  {
    var t := TimeoutStep(c, s, w);
    assert WorkerOk(c, s, w);
    hide LogOk, HasCommit, SomeFirstCommits;
    forall v | 0 <= v < c.workers ensures WorkerOk(c, t, v) { assert WorkerOk(c, s, v); }
  }

  lemma {:induction false} RunKeeps(c: Config, states: seq<State>, timed: bool, n: nat)
    requires c.Valid() && Run(c, states, timed) && n < |states|
    ensures Inv(c, states[n])
  {
    if n == 0 {
      InitialInv(c);
    } else {
      RunKeeps(c, states, timed, n - 1);
      var s, t := states[n - 1], states[n];
      assert Next(c, s, states[n - 1 + 1], timed);
      hide Inv;
      if ParentEnabled(s) && t == ParentStep(s) {
        ParentKeeps(c, s);
      } else if w: nat :| WorkerEnabled(c, s, w) && t == WorkerStep(c, s, w) {
        WorkerKeeps(c, s, w);
      } else {
        var w: nat :| Waits(c, s, w) && t == TimeoutStep(c, s, w);
        TimeoutKeeps(c, s, w);
      }
    }
  }

  /** Where waits do not time out, nobody has. */
  lemma {:induction false} NobodyTimedOut(c: Config, states: seq<State>, n: nat)
    requires Run(c, states, false) && n < |states|
    ensures states[n].timedOut == map[]
  {
    if n > 0 {
      NobodyTimedOut(c, states, n - 1);
      assert Next(c, states[n - 1], states[n - 1 + 1], false);
    }
  }

  // ---------------------------------------------------------------- no deadlock

  /**
   Nobody waits for ever: it is not the checkpoint mode; or the checkpointer opens its store and is
   alone or sees a first write commit; or it does not, and no writer waits for it.
   */
  ghost predicate Unblocked(c: Config) {
    !c.checkpoint || (if c.opens(0) then c.workers == 1 || SomeFirstCommits(c) else !SomeFirstCommits(c))
  }

  lemma FirstWriterMoves(c: Config, s: State) returns (w: nat)
    requires Inv(c, s) && s.timedOut == map[] && s.parent.Results? && c.checkpoint && SomeFirstCommits(c) && !s.activity
    ensures WorkerEnabled(c, s, w)
  {
    w :| c.FirstCommits(w);
    assert WorkerOk(c, s, w);
    hide LogOk, HasCommit;
  }

  lemma WaitingWorkerMoves(c: Config, s: State, i: nat) returns (w: nat)
    requires Inv(c, s)
    requires s.timedOut == map[] && s.parent == Results(i) && i < c.workers && s.pcs[i] != Sent && Unblocked(c)
    ensures WorkerEnabled(c, s, w)
  {
    assert WorkerOk(c, s, i) && WorkerOk(c, s, 0);
    w := i;
    if s.pcs[i] == AwaitActivity && !s.activity {
      w := FirstWriterMoves(c, s);
    }
    assert s.pcs[i] == AwaitStarted ==> c.FirstCommits(i);
    hide LogOk, HasCommit;
  }

  lemma UnblockedMoves(c: Config, s: State)
    requires Inv(c, s) && s.timedOut == map[] && Unblocked(c)
    ensures !Stuck(c, s, false)
  {
    match s.parent
    case Collect(i) =>
      if i < c.workers && s.pcs[i] == Init { assert WorkerEnabled(c, s, i); }
    case Results(i) =>
      if i < c.workers && s.pcs[i] != Sent {
        var w := WaitingWorkerMoves(c, s, i);
      }
    case _ =>
  }

  /** With timeouts something can always happen: whoever does not move waits. */
  lemma TimedMoves(c: Config, s: State)
    requires Inv(c, s)
    ensures !Stuck(c, s, true)
  {
    match s.parent
    case Collect(i) =>
      if i < c.workers && s.pcs[i] == Init { assert WorkerEnabled(c, s, i); }
    case Results(i) =>
      if i < c.workers && s.pcs[i] != Sent { assert WorkerEnabled(c, s, i) || Waits(c, s, i); }
    case _ =>
  }

  // ---------------------------------------------------------------- every run is finite

  /** What is left to do of a worker's program. */
  function Left(c: Config, pc: Pc): nat {
    match pc
    case Init => c.operations + 5
    case AwaitStart => c.operations + 4
    case AwaitActivity => c.operations + 3
    case Running(op) =>
      if op == 0 then c.operations + 2 else if op <= c.operations then c.operations - op + 1 else 1
    case AwaitStarted => c.operations + 1
    case Sent => 0
  }

  function SumLeft(c: Config, pcs: seq<Pc>): nat {
    if pcs == [] then 0 else Left(c, pcs[0]) + SumLeft(c, pcs[1..])
  }

  function ParentLeft(n: nat, p: Parent): nat {
    match p
    case Collect(i) => 3 * n + 4 - (if i <= n then i else n)
    case Start(i) => 2 * n + 3 - (if i <= n then i else n)
    case Results(i) => n + 1 - (if i <= n then i else n)
    case Returned => 0
  }

  function Measure(c: Config, s: State): nat {
    SumLeft(c, s.pcs) + ParentLeft(|s.pcs|, s.parent)
  }

  lemma {:induction false} SumMoved(c: Config, pcs: seq<Pc>, w: nat, pc: Pc)
    requires w < |pcs| && Left(c, pc) < Left(c, pcs[w])
    ensures SumLeft(c, pcs[w := pc]) < SumLeft(c, pcs)
  {
    hide Left;
    if w == 0 {
      assert pcs[w := pc][1..] == pcs[1..];
    } else {
      assert pcs[w := pc][1..] == pcs[1..][w - 1 := pc];
      SumMoved(c, pcs[1..], w - 1, pc);
    }
  }

  lemma WorkerLeft(c: Config, s: State, w: nat)
    requires WorkerEnabled(c, s, w) && |s.pcs| == c.workers && WorkerOk(c, s, w) && c.operations >= 2
    ensures var t := WorkerStep(c, s, w);
      t.pcs == s.pcs[w := t.pcs[w]] && Left(c, t.pcs[w]) < Left(c, s.pcs[w]) && t.parent == s.parent
  {
  }

  lemma TimeoutLeft(c: Config, s: State, w: nat)
    requires Waits(c, s, w) && |s.pcs| == c.workers
    ensures var t := TimeoutStep(c, s, w);
      t.pcs == s.pcs[w := t.pcs[w]] && Left(c, t.pcs[w]) < Left(c, s.pcs[w]) && t.parent == s.parent
  {
  }

  lemma StepDecreases(c: Config, s: State, t: State, timed: bool)
    requires Inv(c, s) && Next(c, s, t, timed)
    ensures Measure(c, t) < Measure(c, s)
  {
    hide LogOk, HasCommit, SomeFirstCommits, SumLeft, Left;
    if ParentEnabled(s) && t == ParentStep(s) {
      hide WorkerEnabled, WorkerStep, Waits, TimeoutStep;
    } else if w: nat :| WorkerEnabled(c, s, w) && t == WorkerStep(c, s, w) {
      hide WorkerStep, ParentStep, ParentEnabled, ParentOk, ParentLeft;
      assert WorkerOk(c, s, w);
      WorkerLeft(c, s, w);
      SumMoved(c, s.pcs, w, t.pcs[w]);
    } else {
      var w: nat :| Waits(c, s, w) && t == TimeoutStep(c, s, w);
      hide TimeoutStep, ParentStep, ParentEnabled, ParentOk, ParentLeft;
      TimeoutLeft(c, s, w);
      SumMoved(c, s.pcs, w, t.pcs[w]);
    }
  }

  /** A run has at most as many steps as there is work in the initial state. */
  lemma {:induction false} RunsAreBounded(c: Config, states: seq<State>, timed: bool, n: nat)
    requires c.Valid() && Run(c, states, timed) && n < |states|
    ensures n + Measure(c, states[n]) <= Measure(c, Initial(c))
  {
    if n > 0 {
      RunsAreBounded(c, states, timed, n - 1);
      RunKeeps(c, states, timed, n - 1);
      assert Next(c, states[n - 1], states[n - 1 + 1], timed);
      hide Inv, Next, Measure;
      StepDecreases(c, states[n - 1], states[n], timed);
    }
  }

  lemma Longer(c: Config, states: seq<State>, timed: bool, t: State)
    requires Run(c, states, timed) && Next(c, states[|states| - 1], t, timed)
    ensures Run(c, states + [t], timed)
  {
    var more := states + [t];
    hide Next;
    forall i | 0 <= i < |more| - 1 ensures Next(c, more[i], more[i + 1], timed) {
      if i < |states| - 1 { assert Next(c, states[i], states[i + 1], timed); }
    }
  }

  /** Every run can be carried on until the parent returns or nothing moves. */
  lemma {:induction false} CarryOn(c: Config, states: seq<State>, timed: bool) returns (longer: seq<State>)
    requires c.Valid() && Run(c, states, timed)
    ensures Run(c, longer, timed) && states <= longer
    ensures longer[|longer| - 1].parent == Returned || Stuck(c, longer[|longer| - 1], timed)
    decreases Measure(c, states[|states| - 1])
  {
    var s := states[|states| - 1];
    longer := states;
    if s.parent != Returned && !Stuck(c, s, timed) {
      RunKeeps(c, states, timed, |states| - 1);
      var t;
      if ParentEnabled(s) {
        t := ParentStep(s);
      } else if w: nat :| WorkerEnabled(c, s, w) {
        t := WorkerStep(c, s, w);
      } else {
        var w: nat :| Waits(c, s, w);
        t := TimeoutStep(c, s, w);
      }
      assert Next(c, s, t, timed);
      hide Next, Stuck, Inv, Measure;
      StepDecreases(c, s, t, timed);
      Longer(c, states, timed, t);
      longer := CarryOn(c, states + [t], timed);
    }
  }

  lemma BlockedNeverReturns(c: Config, s: State)
    requires Inv(c, s) && s.timedOut == map[] && !Unblocked(c)
    ensures s.parent != Returned
  {
    assert WorkerOk(c, s, 0);
    if !c.opens(0) {
      var w :| c.FirstCommits(w);
      assert WorkerOk(c, s, w);
    }
    hide LogOk, HasCommit;
  }

  /**
   Without timeouts the wave never gets stuck if and only if it is not the checkpoint mode; or the
   checkpointer's store opens, and there is one worker or the first write of some writer commits; or
   the checkpointer's store does not open, and no writer's first write commits.
   */
  lemma DeadlockFreeExactly(c: Config)
    requires c.Valid()
    ensures (forall states | Run(c, states, false) :: !Stuck(c, states[|states| - 1], false)) <==> Unblocked(c)
  {
    if Unblocked(c) {
      forall states | Run(c, states, false) ensures !Stuck(c, states[|states| - 1], false) {
        RunKeeps(c, states, false, |states| - 1);
        NobodyTimedOut(c, states, |states| - 1);
        UnblockedMoves(c, states[|states| - 1]);
      }
    } else {
      var start := [Initial(c)];
      assert Run(c, start, false);
      var longer := CarryOn(c, start, false);
      RunKeeps(c, longer, false, |longer| - 1);
      NobodyTimedOut(c, longer, |longer| - 1);
      BlockedNeverReturns(c, longer[|longer| - 1]);
      assert Stuck(c, longer[|longer| - 1], false);
    }
  }

  /**
   And then, and always with timeouts, every run can be carried on to the parent's return, in a bounded number
   of steps.
   */
  lemma WaveReturns(c: Config, states: seq<State>, timed: bool) returns (longer: seq<State>)
    requires c.Valid() && (timed || Unblocked(c)) && Run(c, states, timed)
    ensures Run(c, longer, timed) && states <= longer && longer[|longer| - 1].parent == Returned
    ensures |longer| <= Measure(c, Initial(c)) + 1
  {
    longer := CarryOn(c, states, timed);
    var n := |longer| - 1;
    RunKeeps(c, longer, timed, n);
    if timed {
      TimedMoves(c, longer[n]);
    } else {
      NobodyTimedOut(c, longer, n);
      UnblockedMoves(c, longer[n]);
    }
    RunsAreBounded(c, longer, timed, n);
  }

  // ---------------------------------------------------------------- what the log says of the workers

  /** How many writes of a worker are in the log. */
  function CommitsBy(log: seq<Event>, w: nat): nat {
    if log == [] then 0
    else
      var e := log[|log| - 1];
      CommitsBy(log[..|log| - 1], w) + (if e.Committed? && e.worker == w then 1 else 0)
  }

  /** How many checkpoints are in the log. */
  function Checkpoints(log: seq<Event>): nat {
    if log == [] then 0 else Checkpoints(log[..|log| - 1]) + (if log[|log| - 1].Checkpointed? then 1 else 0)
  }

  /** How many of the first `n` operations of a worker commit. */
  function Successes(c: Config, w: nat, n: nat): (r: nat)
    ensures r <= n
  {
    if n == 0 then 0 else Successes(c, w, n - 1) + (if !c.Checkpointer(w) && c.succeeds(w, n - 1) then 1 else 0)
  }

  /** The operations a worker has behind it; one that did not open, or gave up, stopped before the others. */
  function Behind(c: Config, s: State, w: nat): nat
    requires w < |s.pcs|
  {
    match s.pcs[w]
    case Running(op) => op
    case AwaitStarted => 1
    case Sent =>
      if w in s.timedOut then (if s.timedOut[w] == AwaitStarted then 1 else 0)
      else if c.opens(w) then c.operations
      else 0
    case _ => 0
  }

  /** The log holds what the first `n` operations of a worker did, each once, and nothing else of it. */
  ghost predicate LoggedBy(c: Config, log: seq<Event>, w: nat, n: nat) {
    && CommitsBy(log, w) == Successes(c, w, n)
    && (c.Checkpointer(w) ==> Checkpoints(log) == n)
    && forall k: nat :: Committed(w, k) in log <==> k < n && !c.Checkpointer(w) && c.succeeds(w, k)
  }

  ghost predicate Logged(c: Config, s: State) {
    |s.pcs| == c.workers && forall w | 0 <= w < c.workers :: LoggedBy(c, s.log, w, Behind(c, s, w))
  }

  lemma OneMoreEvent(log: seq<Event>, e: Event, w: nat)
    ensures CommitsBy(log + [e], w) == CommitsBy(log, w) + (if e.Committed? && e.worker == w then 1 else 0)
    ensures Checkpoints(log + [e]) == Checkpoints(log) + (if e.Checkpointed? then 1 else 0)
    ensures forall x :: x in log + [e] <==> x in log || x == e
  {
    assert (log + [e])[..|log|] == log && (log + [e])[|log|] == e;
  }

  lemma OtherLogged(c: Config, log: seq<Event>, e: Event, w: nat, n: nat)
    requires LoggedBy(c, log, w, n) && !(e.Committed? && e.worker == w) && !(e.Checkpointed? && c.Checkpointer(w))
    ensures LoggedBy(c, log + [e], w, n)
  {
    OneMoreEvent(log, e, w);
    hide CommitsBy, Checkpoints, Successes;
  }

  lemma NextLogged(c: Config, log: seq<Event>, w: nat, n: nat)
    requires LoggedBy(c, log, w, n) && !c.Checkpointer(w) && c.succeeds(w, n)
    ensures LoggedBy(c, log + [Committed(w, n)], w, n + 1)
  {
    OneMoreEvent(log, Committed(w, n), w);
    hide CommitsBy, Checkpoints;
  }

  lemma NextChecked(c: Config, log: seq<Event>, w: nat, n: nat)
    requires LoggedBy(c, log, w, n) && c.Checkpointer(w)
    ensures LoggedBy(c, log + [Checkpointed(n)], w, n + 1)
  {
    OneMoreEvent(log, Checkpointed(n), w);
    hide CommitsBy, Checkpoints;
  }

  lemma FailedLogged(c: Config, log: seq<Event>, w: nat, n: nat)
    requires LoggedBy(c, log, w, n) && !c.Checkpointer(w) && !c.succeeds(w, n)
    ensures LoggedBy(c, log, w, n + 1)
  {
    hide CommitsBy, Checkpoints;
  }

  /** What a step of a worker does to its place and to the log. */
  lemma WorkerMoves(c: Config, s: State, w: nat)
    requires WorkerEnabled(c, s, w) && |s.pcs| == c.workers && WorkerOk(c, s, w)
    ensures var t, n := WorkerStep(c, s, w), Behind(c, s, w);
      && t.pcs == s.pcs[w := t.pcs[w]] && t.timedOut == s.timedOut
      && if t.log == s.log then
           Behind(c, t, w) == n || (Behind(c, t, w) == n + 1 && !c.Checkpointer(w) && !c.succeeds(w, n))
         else
           (t.log == s.log + [Committed(w, n)] && Behind(c, t, w) == n + 1 && !c.Checkpointer(w) && c.succeeds(w, n))
           || (t.log == s.log + [Checkpointed(n)] && Behind(c, t, w) == n + 1 && c.Checkpointer(w))
           || (t.log == s.log + [CheckpointStarted] && Behind(c, t, w) == n)
  {
  }

  lemma OthersBehind(c: Config, s: State, t: State, w: nat, v: nat)
    requires w < |s.pcs| && v < |s.pcs| && v != w && |t.pcs| == |s.pcs| && t.pcs == s.pcs[w := t.pcs[w]]
    requires v in t.timedOut <==> v in s.timedOut
    requires v in s.timedOut ==> t.timedOut[v] == s.timedOut[v]
    ensures Behind(c, t, v) == Behind(c, s, v)
  {
  }

  lemma WorkerLogs(c: Config, s: State, w: nat)
    requires WorkerEnabled(c, s, w) && Logged(c, s) && WorkerOk(c, s, w)
    ensures Logged(c, WorkerStep(c, s, w))
  {
    var t, n := WorkerStep(c, s, w), Behind(c, s, w);
    WorkerMoves(c, s, w);
    hide WorkerStep, WorkerEnabled, WorkerOk, Behind, LoggedBy;
    forall v | 0 <= v < c.workers ensures LoggedBy(c, t.log, v, Behind(c, t, v)) {
      assert LoggedBy(c, s.log, v, Behind(c, s, v));
      if v != w { OthersBehind(c, s, t, w, v); }
      if t.log == s.log {
        if v == w && Behind(c, t, w) != n { FailedLogged(c, s.log, w, n); }
      } else {
        var e := t.log[|s.log|];
        assert t.log == s.log + [e];
        if v != w || e == CheckpointStarted {
          OtherLogged(c, s.log, e, v, Behind(c, s, v));
        } else if e.Committed? {
          NextLogged(c, s.log, w, n);
        } else {
          NextChecked(c, s.log, w, n);
        }
      }
    }
  }

  lemma TimeoutLogs(c: Config, s: State, w: nat)
    requires Waits(c, s, w) && Logged(c, s) && WorkerOk(c, s, w)
    ensures Logged(c, TimeoutStep(c, s, w))
  {
    var t := TimeoutStep(c, s, w);
    assert Behind(c, t, w) == Behind(c, s, w);
    hide WorkerOk, LoggedBy, Waits;
    forall v | 0 <= v < c.workers ensures LoggedBy(c, t.log, v, Behind(c, t, v)) {
      assert LoggedBy(c, s.log, v, Behind(c, s, v));
      if v != w { OthersBehind(c, s, t, w, v); }
    }
  }

  lemma InitiallyLogged(c: Config)
    ensures Logged(c, Initial(c))
  {
  }

  lemma {:induction false} AlwaysLogged(c: Config, states: seq<State>, timed: bool, n: nat)
    requires c.Valid() && Run(c, states, timed) && n < |states|
    ensures Logged(c, states[n])
  {
    if n == 0 {
      InitiallyLogged(c);
    } else {
      var s, t := states[n - 1], states[n];
      AlwaysLogged(c, states, timed, n - 1);
      RunKeeps(c, states, timed, n - 1);
      assert Next(c, s, states[n - 1 + 1], timed);
      hide LoggedBy, Run, LogOk, HasCommit, ParentOk, WorkerOk;
      if ParentEnabled(s) && t == ParentStep(s) {
        ParentLogs(c, s);
      } else if w: nat :| WorkerEnabled(c, s, w) && t == WorkerStep(c, s, w) {
        WorkerLogs(c, s, w);
      } else {
        var w: nat :| Waits(c, s, w) && t == TimeoutStep(c, s, w);
        TimeoutLogs(c, s, w);
      }
    }
  }

  lemma ParentLogs(c: Config, s: State)
    requires ParentEnabled(s) && Logged(c, s)
    ensures Logged(c, ParentStep(s))
  {
    hide LoggedBy;
    var t := ParentStep(s);
    forall w | 0 <= w < c.workers ensures LoggedBy(c, t.log, w, Behind(c, t, w)) {
      assert LoggedBy(c, s.log, w, Behind(c, s, w));
    }
  }

  /** All writes of all writers committed. */
  ghost predicate AllWritesCommitted(c: Config, log: seq<Event>) {
    forall w | 1 <= w < c.workers :: WritesCommitted(c, log, w)
  }

  ghost predicate WritesCommitted(c: Config, log: seq<Event>, w: nat) {
    forall k: nat | k < c.operations :: Committed(w, k) in log
  }

  /**
   When the parent has returned, the log holds for each worker what the operations did that it came to,
   each once, whatever the interleaving was and whoever timed out: none if its store did not open or it
   gave up before, its first if it gave up after that, and all otherwise.
   */
  lemma ReturnedLog(c: Config, states: seq<State>, timed: bool, n: nat, w: nat)
    requires c.Valid() && Run(c, states, timed) && n < |states| && states[n].parent == Returned && w < c.workers
    ensures |states[n].pcs| == c.workers && states[n].pcs[w] == Sent
    ensures LoggedBy(c, states[n].log, w, Behind(c, states[n], w))
  {
    RunKeeps(c, states, timed, n);
    AlwaysLogged(c, states, timed, n);
    hide LoggedBy, Behind;
  }

  // ---------------------------------------------------------------- checkpoints and writes overlap

  lemma LogSays(c: Config, log: seq<Event>, i: nat)
    requires LogOk(c, log) && i < |log|
    ensures EventOk(c, log[..i], log[i])
  {
  }

  /**
   With more than one worker every checkpoint comes after some committed write; and the writes of a
   writer whose first write commits come, but for that one, after the checkpoints have started.
   */
  lemma OverlapOrder(c: Config, states: seq<State>, timed: bool, n: nat, i: nat)
    requires c.Valid() && c.checkpoint && c.workers > 1 && Run(c, states, timed) && n < |states| && i < |states[n].log|
    ensures states[n].log[i].Checkpointed?
      ==> exists j, k :: 0 <= j < k < i && states[n].log[j].Committed? && states[n].log[k] == CheckpointStarted
    ensures states[n].log[i].Committed? && c.succeeds(states[n].log[i].worker, 0) && states[n].log[i].op > 0
      ==> exists k :: 0 <= k < i && states[n].log[k] == CheckpointStarted
  {
    RunKeeps(c, states, timed, n);
    var log := states[n].log;
    LogSays(c, log, i);
    if log[i].Checkpointed? {
      var k :| 0 <= k < |log[..i]| && log[..i][k] == CheckpointStarted;
      LogSays(c, log, k);
      var j :| 0 <= j < |log[..k]| && log[..k][j].Committed?;
      assert log[j].Committed? && log[k] == CheckpointStarted;
    }
    if log[i].Committed? && c.succeeds(log[i].worker, 0) && log[i].op > 0 {
      var k :| 0 <= k < |log[..i]| && log[..i][k] == CheckpointStarted;
      assert log[k] == CheckpointStarted;
    }
  }
}
