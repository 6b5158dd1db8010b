/** What the checkpoint report of the SQLite gate says about the wave. */
module GateReport {
  // (backend/app/runtime_sqlite_gate.py) The totals that `_checkpoint_matrix` demands, the workers' reports
  // they are taken from, and the events of the run that the reports came out of.

  import opened GateWorker
  import opened GateWave

  function Sum(reports: seq<Report>, of: Report -> nat): nat {
    if reports == [] then 0 else Sum(reports[..|reports| - 1], of) + of(reports[|reports| - 1])
  }

  function Writes(reports: seq<Report>): nat {
    Sum(reports, (r: Report) => r.succeeded)
  }

  /** The conditions of `_checkpoint_matrix` on the reports of its workers. */
  ghost predicate CheckpointPasses(operations: nat, reports: seq<Report>)
    requires reports != []
  {
    && Writes(reports) == (|reports| - 1) * operations
      && Sum(reports, (r: Report) => r.checkpointSucceeded) == operations
    && Sum(reports, (r: Report) => r.busyCount) == 0 && (forall w | 0 <= w < |reports| :: reports[w].errorCodes == [])
    && forall w | 0 <= w < |reports| :: reports[w].overlapHandshake
  }

  /** A worker was started, opened its store, met the event it waits for, and every attempt succeeded. */
  predicate Flawless(operations: nat, worker: nat, w: World) {
    w.start && w.open == Success && (if worker == 0 then w.activity else w.started) && AllSucceed(w, operations)
  }

  ghost predicate AllReport(operations: nat, worlds: seq<World>, reports: seq<Report>) {
    |reports| == |worlds| && forall w | 0 <= w < |worlds| :: Reports(reports[w], Checkpoint, w, operations, worlds[w])
  }

  // ---------------------------------------------------------------- one report

  lemma {:induction false} CheckpointKinds(worker: nat, n: nat, w: World)
    ensures worker == 0 ==> Done(Checkpoint, worker, n, Write, w) == 0
    ensures worker != 0 ==> Done(Checkpoint, worker, n, CheckpointRun, w) == 0
    ensures Done(Checkpoint, worker, n, Read, w) == 0
  {
    if n > 0 { CheckpointKinds(worker, n - 1, w); }
  }

  lemma {:induction false} NoFailures(w: World, n: nat)
    ensures AllSucceed(w, n) <==> CountBusy(w, n) == 0 && Codes(w, n) == []
  {
    if n > 0 {
      NoFailures(w, n - 1);
      assert AllSucceed(w, n) <==> AllSucceed(w, n - 1) && w.outcome(n - 1) == Success;
    }
  }

  /** A worker has nothing to say against it exactly if its run was flawless; and what it then counts. */
  lemma CleanReport(operations: nat, worker: nat, w: World, r: Report)
    requires operations >= 2 && Reports(r, Checkpoint, worker, operations, w)
    ensures r.busyCount == 0 && r.errorCodes == [] && r.overlapHandshake <==> Flawless(operations, worker, w)
    ensures Flawless(operations, worker, w) ==>
      r.succeeded == (if worker == 0 then 0 else operations)
        && r.checkpointSucceeded == (if worker == 0 then operations else 0)
  {
    var n := Attempts(Checkpoint, worker, operations, w);
    NoFailures(w, n);
    EachAttemptOnce(Checkpoint, worker, n, w);
    CheckpointKinds(worker, n, w);
    hide Done, Made, CountBusy, Codes;
    assert AllSucceed(w, operations) ==> w.outcome(0) == Success;
  }

  /** A writer reports all its writes exactly if it was flawless; the checkpointer reports none. */
  lemma WriterShare(operations: nat, worker: nat, w: World, r: Report)
    requires operations >= 2 && Reports(r, Checkpoint, worker, operations, w)
    ensures worker == 0 ==> r.succeeded == 0
    ensures r.succeeded <= operations
    ensures worker != 0 ==> (r.succeeded == operations <==> Flawless(operations, worker, w))
  {
    var n := Attempts(Checkpoint, worker, operations, w);
    NoFailures(w, n);
    EachAttemptOnce(Checkpoint, worker, n, w);
    CheckpointKinds(worker, n, w);
    hide Done, Made, CountBusy, Codes;
    assert AllSucceed(w, operations) ==> w.outcome(0) == Success;
  }

  // ---------------------------------------------------------------- the totals

  predicate WritersFlawless(operations: nat, worlds: seq<World>) {
    forall w | 1 <= w < |worlds| :: Flawless(operations, w, worlds[w])
  }

  lemma FrontReports(operations: nat, worlds: seq<World>, reports: seq<Report>)
    requires |worlds| > 1 && AllReport(operations, worlds, reports)
    ensures AllReport(operations, worlds[..|worlds| - 1], reports[..|worlds| - 1])
  {
    hide Reports;
  }

  lemma WritersSplit(operations: nat, worlds: seq<World>)
    requires |worlds| > 1
    ensures WritersFlawless(operations, worlds)
      <==>
      WritersFlawless(operations, worlds[..|worlds| - 1])
      && Flawless(operations, |worlds| - 1, worlds[|worlds| - 1])
  {
    hide Flawless;
    var front := worlds[..|worlds| - 1];
    if WritersFlawless(operations, worlds) {
      forall w | 1 <= w < |front| ensures Flawless(operations, w, front[w]) {
        assert Flawless(operations, w, worlds[w]);
      }
    }
  }

  /**
   The total of writes that the checkpoint gate demands, `(n - 1) * k`, is never exceeded, and it is
   reached if and only if every writer was started, opened its store, met the checkpoints and committed
   every one of its writes.
   */
  lemma {:induction false} CheckpointTotalExactly(operations: nat, worlds: seq<World>, reports: seq<Report>)
    requires operations >= 2 && worlds != [] && AllReport(operations, worlds, reports)
    ensures Writes(reports) <= (|worlds| - 1) * operations
    ensures Writes(reports) == (|worlds| - 1) * operations <==> WritersFlawless(operations, worlds)
    decreases |worlds|
  {
    var last := |worlds| - 1;
    WriterShare(operations, last, worlds[last], reports[last]);
    hide Reports, Flawless;
    LastSum(reports);
    if last == 0 {
      NoSum(reports[..0]);
    } else {
      FrontReports(operations, worlds, reports);
      CheckpointTotalExactly(operations, worlds[..last], reports[..last]);
      WritersSplit(operations, worlds);
      OneMoreTimes(last - 1, operations);
    }
  }

  lemma LastSum(reports: seq<Report>)
    requires reports != []
    ensures Writes(reports) == Writes(reports[..|reports| - 1]) + reports[|reports| - 1].succeeded
  {
  }

  lemma NoSum(reports: seq<Report>)
    requires reports == []
    ensures Writes(reports) == 0
  {
  }

  lemma {:induction false} SumZero(reports: seq<Report>, of: Report -> nat)
    ensures Sum(reports, of) == 0 <==> forall w | 0 <= w < |reports| :: of(reports[w]) == 0
  {
    if reports != [] {
      var front := reports[..|reports| - 1];
      SumZero(front, of);
      if forall w | 0 <= w < |reports| :: of(reports[w]) == 0 {
        forall w | 0 <= w < |front| ensures of(front[w]) == 0 { assert of(reports[w]) == 0; }
      }
    }
  }

  lemma {:induction false} SumFirst(reports: seq<Report>, of: Report -> nat)
    requires reports != [] && forall w | 1 <= w < |reports| :: of(reports[w]) == 0
    ensures Sum(reports, of) == of(reports[0])
  {
    var front := reports[..|reports| - 1];
    if front == [] {
      assert Sum(front, of) == 0;
    } else {
      assert of(reports[|reports| - 1]) == 0;
      forall w | 1 <= w < |front| ensures of(front[w]) == 0 { assert of(reports[w]) == 0; }
      SumFirst(front, of);
    }
  }

  /** The checkpoint gate passes exactly if the run of every worker was flawless. */
  lemma CheckpointGateExactly(operations: nat, worlds: seq<World>, reports: seq<Report>)
    requires operations >= 2 && worlds != [] && AllReport(operations, worlds, reports)
    ensures CheckpointPasses(operations, reports) <==> AllFlawless(operations, worlds)
  {
    var busy := (r: Report) => r.busyCount;
    forall w | 0 <= w < |worlds|
      ensures busy(reports[w]) == 0 && reports[w].errorCodes == [] && reports[w].overlapHandshake
        <==> Flawless(operations, w, worlds[w])
    {
      CleanReport(operations, w, worlds[w], reports[w]);
    }
    SumZero(reports, busy);
    if AllFlawless(operations, worlds) {
      FlawlessTotals(operations, worlds, reports);
      hide Reports, Flawless, Sum, Writes;
      forall w | 0 <= w < |worlds| ensures busy(reports[w]) == 0 { assert Flawless(operations, w, worlds[w]); }
    }
    hide Reports, Flawless, Sum, Writes;
  }

  predicate AllFlawless(operations: nat, worlds: seq<World>) {
    forall w | 0 <= w < |worlds| :: Flawless(operations, w, worlds[w])
  }

  lemma FlawlessTotals(operations: nat, worlds: seq<World>, reports: seq<Report>)
    requires operations >= 2 && worlds != [] && AllReport(operations, worlds, reports)
    requires AllFlawless(operations, worlds)
    ensures Writes(reports) == (|reports| - 1) * operations
    ensures Sum(reports, (r: Report) => r.checkpointSucceeded) == operations
  {
    CheckpointTotalExactly(operations, worlds, reports);
    var checkpoints := (r: Report) => r.checkpointSucceeded;
    forall w | 0 <= w < |worlds| ensures checkpoints(reports[w]) == (if w == 0 then operations else 0) {
      CleanReport(operations, w, worlds[w], reports[w]);
    }
    hide Reports, Flawless, Sum, Writes;
    SumFirst(reports, checkpoints);
  }

  // ---------------------------------------------------------------- reports and events

  ghost predicate TimedOutAt(s: State, w: nat, pc: Pc) {
    w in s.timedOut && s.timedOut[w] == pc
  }

  /** The worlds of the workers are those of the run. */
  ghost predicate Agree(c: Config, s: State, worlds: seq<World>) {
    c.checkpoint && |worlds| == c.workers && forall w | 0 <= w < c.workers :: AgreesAt(c, s, w, worlds[w])
  }

  /**
   A worker was started and met its event unless it gave up on them, its store opened if it did, and a
   writer's operation commits a write if it succeeds.
   */
  ghost predicate AgreesAt(c: Config, s: State, w: nat, world: World) {
    && (world.start <==> !TimedOutAt(s, w, AwaitStart)) && (world.open == Success <==> c.opens(w))
    && (world.start && c.opens(w) && w == 0 ==> (world.activity <==> !TimedOutAt(s, w, AwaitActivity)))
    && (world.start && c.opens(w) && w > 0 && c.succeeds(w, 0) ==> (world.started <==> !TimedOutAt(s, w, AwaitStarted)))
    && (w > 0 ==> forall k: nat | k < c.operations :: c.succeeds(w, k) <==> world.outcome(k) == Success)
  }

  lemma {:induction false} DoneIsSuccesses(c: Config, w: nat, world: World, n: nat)
    requires c.checkpoint && w > 0
    requires forall k: nat | k < n :: c.succeeds(w, k) <==> world.outcome(k) == Success
    ensures Done(Checkpoint, w, n, Write, world) == Successes(c, w, n)
  {
    if n > 0 { DoneIsSuccesses(c, w, world, n - 1); }
  }

  lemma {:induction false} CheckpointerWrites(c: Config, n: nat)
    requires c.checkpoint
    ensures Successes(c, 0, n) == 0
  {
    if n > 0 { CheckpointerWrites(c, n - 1); }
  }

  lemma {:induction false} CheckpointerAttempts(n: nat)
    ensures Made(Checkpoint, 0, n, CheckpointRun) == n
  {
    if n > 0 { CheckpointerAttempts(n - 1); }
  }

  /** A worker that was started and opened its store attempts what it has behind it in the end. */
  lemma AttemptsAreBehind(c: Config, s: State, w: nat, world: World)
    requires c.Valid() && c.checkpoint && w < c.workers == |s.pcs| && s.pcs[w] == Sent && WorkerOk(c, s, w)
    requires AgreesAt(c, s, w, world)
    ensures world.start && world.open == Success ==> Behind(c, s, w) == Attempts(Checkpoint, w, c.operations, world)
    ensures !(world.start && world.open == Success) ==> Behind(c, s, w) == 0
  {
  }

  /**
   A worker reports as many writes as it has commits in the log of the run, and the checkpointer as many
   attempts as the log has checkpoints: whoever's store did not open, whatever failed, and whichever of
   the waits timed out.
   */
  lemma ReportsTheLog(c: Config, states: seq<State>, timed: bool, n: nat, worlds: seq<World>, reports: seq<Report>,
          w: nat)
    requires c.Valid() && Run(c, states, timed) && n < |states| && states[n].parent == Returned && w < c.workers
    requires Agree(c, states[n], worlds) && AllReport(c.operations, worlds, reports)
    ensures reports[w].succeeded == CommitsBy(states[n].log, w)
    ensures w == 0 ==> reports[w].checkpointLatencies == Checkpoints(states[n].log)
  {
    var s := states[n];
    RunKeeps(c, states, timed, n);
    ReturnedLog(c, states, timed, n, w);
    assert Reports(reports[w], Checkpoint, w, c.operations, worlds[w]);
    assert AgreesAt(c, s, w, worlds[w]) && WorkerOk(c, s, w);
    AttemptsAreBehind(c, s, w, worlds[w]);
    var behind := Behind(c, s, w);
    hide Run, Behind, Attempts, WorkerOk, Inv;
    if w == 0 {
      WriterShare(c.operations, w, worlds[w], reports[w]);
      CheckpointerWrites(c, behind);
      CheckpointerAttempts(behind);
    } else if worlds[w].start && worlds[w].open == Success {
      BehindFits(c, s, w);
      DoneIsSuccesses(c, w, worlds[w], behind);
    }
    hide Done, Made, CountBusy, Codes, CommitsBy, Checkpoints;
  }

  lemma BehindFits(c: Config, s: State, w: nat)
    requires c.Valid() && w < |s.pcs| && s.pcs[w] == Sent
    ensures Behind(c, s, w) <= c.operations
  {
  }

  /** The total of writes is the one that the gate demands exactly if every write of every writer is in the log. */
  lemma TotalIsTheLog(c: Config, states: seq<State>, timed: bool, n: nat, worlds: seq<World>, reports: seq<Report>)
    requires c.Valid() && Run(c, states, timed) && n < |states| && states[n].parent == Returned
    requires Agree(c, states[n], worlds) && AllReport(c.operations, worlds, reports)
    ensures Writes(reports) == (c.workers - 1) * c.operations <==> AllWritesCommitted(c, states[n].log)
  {
    CheckpointTotalExactly(c.operations, worlds, reports);
    RunKeeps(c, states, timed, n);
    forall w | 1 <= w < c.workers
      ensures Flawless(c.operations, w, worlds[w]) <==> WritesCommitted(c, states[n].log, w)
    {
      ReturnedLog(c, states, timed, n, w);
      assert AgreesAt(c, states[n], w, worlds[w]) && WorkerOk(c, states[n], w);
      WriterFlawless(c, states[n], w, worlds[w]);
    }
    hide Flawless, Run, AllReport, Agree, WritesCommitted, Inv, Writes;
  }

  lemma WriterFlawless(c: Config, s: State, w: nat, world: World)
    requires c.Valid() && c.checkpoint && 0 < w < c.workers == |s.pcs| && s.pcs[w] == Sent && WorkerOk(c, s, w)
    requires AgreesAt(c, s, w, world) && LoggedBy(c, s.log, w, Behind(c, s, w))
    ensures Flawless(c.operations, w, world) <==> WritesCommitted(c, s.log, w)
  {
    hide CommitsBy, Checkpoints, Successes;
    var behind := Behind(c, s, w);
    if Flawless(c.operations, w, world) {
      assert c.succeeds(w, 0);
      assert behind == c.operations;
    }
    if WritesCommitted(c, s.log, w) {
      assert Committed(w, 0) in s.log && Committed(w, 1) in s.log;
      assert behind > 1;
    }
  }

  /**
   A passing report with more than one worker: every store opened and nobody timed out; every write of
   every writer committed, each once; every checkpoint came after some committed write; and all writes of
   a writer but its first came after the checkpoints had started.
   */
  lemma PassingMeansOverlap(c: Config, states: seq<State>, timed: bool, n: nat, worlds: seq<World>,
          reports: seq<Report>, i: nat)
    requires c.Valid() && c.workers > 1 && Run(c, states, timed) && n < |states| && states[n].parent == Returned
    requires Agree(c, states[n], worlds) && AllReport(c.operations, worlds, reports)
    requires CheckpointPasses(c.operations, reports)
    requires i < |states[n].log|
    ensures forall w: nat | w < c.workers :: c.opens(w) && w !in states[n].timedOut
    ensures AllWritesCommitted(c, states[n].log)
    ensures var log := states[n].log;
      && (log[i].Checkpointed? ==> exists j, k :: 0 <= j < k < i && log[j].Committed? && log[k] == CheckpointStarted)
      && (log[i].Committed? && 1 <= log[i].worker < c.workers && log[i].op > 0 ==>
            exists k :: 0 <= k < i && log[k] == CheckpointStarted)
  {
    TotalIsTheLog(c, states, timed, n, worlds, reports);
    OverlapOrder(c, states, timed, n, i);
    CheckpointGateExactly(c.operations, worlds, reports);
    RunKeeps(c, states, timed, n);
    var s, log := states[n], states[n].log;
    forall w: nat | w < c.workers ensures c.opens(w) && w !in s.timedOut {
      assert Flawless(c.operations, w, worlds[w]) && AgreesAt(c, s, w, worlds[w]) && WorkerOk(c, s, w);
      hide Run, AllReport, Agree, CheckpointPasses, Writes, AllWritesCommitted;
      FlawlessIsInTime(c, s, w, worlds[w]);
    }
    if log[i].Committed? && 1 <= log[i].worker < c.workers {
      var w := log[i].worker;
      assert WritesCommitted(c, log, w);
      assert Committed(w, 0) in log;
      ReturnedLog(c, states, timed, n, w);
    }
  }

  lemma FlawlessIsInTime(c: Config, s: State, w: nat, world: World)
    requires c.Valid() && c.checkpoint && w < c.workers == |s.pcs| && WorkerOk(c, s, w) && AgreesAt(c, s, w, world)
    requires Flawless(c.operations, w, world)
    ensures c.opens(w) && w !in s.timedOut
  {
    if w > 0 { assert c.succeeds(w, 0); }
  }
}
