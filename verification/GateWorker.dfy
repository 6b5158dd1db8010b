/** One worker of the SQLite gate: every attempt is made in order and counted once. */
module GateWorker {
  import opened Text

  datatype Mode = WriteMode | Mixed | Checkpoint

  datatype Kind = Write | Read | CheckpointRun

  datatype Outcome = Success | Busy | Error(code: Str)

  /** What the worker reports; the latency lists are represented by their lengths. */
  datatype Report = Report(
    succeeded: nat, readSucceeded: nat, checkpointSucceeded: nat, busyCount: nat, errorCodes: seq<Str>,
    latencies: nat, readLatencies: nat, checkpointLatencies: nat, overlapHandshake: bool)

  /** What the worker meets: the start message, its store, the two events, and each operation. */
  datatype World = World(start: bool, open: Outcome, activity: bool, started: bool, outcome: nat -> Outcome)

  const ACTIVITY_TIMEOUT: Str := Lit("checkpoint_activity_timeout")
  const MESSAGE_TIMEOUT: Str := Lit("gate_start_timeout")
  const START_TIMEOUT: Str := Lit("checkpoint_start_timeout")

  function KindOf(mode: Mode, worker: nat, operation: nat): Kind {
    if mode == Mixed && operation % 2 == 1 then Read
    else if mode == Checkpoint && worker == 0 then CheckpointRun
    else Write
  }

  // ---------------------------------------------------------------- counting

  /** How many of the first `n` operations are of kind `k` and end in a way that `p` accepts. */
  function Count(mode: Mode, worker: nat, n: nat, k: Kind, p: nat -> bool): nat {
    if n == 0 then 0
    else Count(mode, worker, n - 1, k, p) + (if KindOf(mode, worker, n - 1) == k && p(n - 1) then 1 else 0)
  }

  function Made(mode: Mode, worker: nat, n: nat, k: Kind): nat {
    Count(mode, worker, n, k, (i: nat) => true)
  }

  function Done(mode: Mode, worker: nat, n: nat, k: Kind, w: World): nat {
    Count(mode, worker, n, k, (i: nat) => w.outcome(i) == Success)
  }

  function CountBusy(w: World, n: nat): nat {
    if n == 0 then 0 else CountBusy(w, n - 1) + (if w.outcome(n - 1) == Busy then 1 else 0)
  }

  function Codes(w: World, n: nat): seq<Str> {
    if n == 0 then []
    else if w.outcome(n - 1).Error? then Codes(w, n - 1) + [w.outcome(n - 1).code]
    else Codes(w, n - 1)
  }

  /** How many operations are attempted: none without activity, one if the checkpoints do not start. */
  function Attempts(mode: Mode, worker: nat, operations: nat, w: World): nat {
    if mode == Checkpoint && worker == 0 && !w.activity then 0
    else if mode == Checkpoint && worker != 0 && operations > 0 && w.outcome(0) == Success && !w.started then 1
    else operations
  }

  predicate StartTimesOut(mode: Mode, worker: nat, operations: nat, w: World) {
    mode == Checkpoint && worker != 0 && operations > 0 && w.outcome(0) == Success && !w.started
  }

  /** The report after `n` attempts and no timeout. */
  ghost predicate Tallied(r: Report, mode: Mode, worker: nat, n: nat, w: World) {
    && r.succeeded == Done(mode, worker, n, Write, w) && r.readSucceeded == Done(mode, worker, n, Read, w)
    && r.checkpointSucceeded == Done(mode, worker, n, CheckpointRun, w) && r.busyCount == CountBusy(w, n)
    && r.latencies == Made(mode, worker, n, Write) && r.readLatencies == Made(mode, worker, n, Read)
    && r.checkpointLatencies == Made(mode, worker, n, CheckpointRun)
  }

  lemma NothingYet(mode: Mode, worker: nat, w: World)
    ensures Done(mode, worker, 0, Write, w) == 0 && Done(mode, worker, 0, Read, w) == 0
      && Done(mode, worker, 0, CheckpointRun, w) == 0 && CountBusy(w, 0) == 0 && Codes(w, 0) == []
    ensures Made(mode, worker, 0, Write) == 0 && Made(mode, worker, 0, Read) == 0
    ensures Made(mode, worker, 0, CheckpointRun) == 0
  {
  }

  lemma OneMore(mode: Mode, worker: nat, n: nat, w: World)
    ensures forall k ::
      Done(mode, worker, n + 1, k, w)
        == Done(mode, worker, n, k, w) + (if KindOf(mode, worker, n) == k && w.outcome(n) == Success then 1 else 0)
    ensures forall k ::
      Made(mode, worker, n + 1, k) == Made(mode, worker, n, k) + (if KindOf(mode, worker, n) == k then 1 else 0)
    ensures CountBusy(w, n + 1) == CountBusy(w, n) + (if w.outcome(n) == Busy then 1 else 0)
    ensures Codes(w, n + 1) == Codes(w, n) + (if w.outcome(n).Error? then [w.outcome(n).code] else [])
  {
    hide KindOf;
  }

  /** The two events were met: nothing to meet outside the checkpoint mode. */
  predicate Handshake(mode: Mode, worker: nat, n: nat, w: World) {
    mode != Checkpoint || (worker == 0 && w.activity) || (worker != 0 && n > 0 && w.outcome(0) == Success && w.started)
  }

  /** The report counts the attempts made, each once; every other code is that of a timeout. */
  ghost predicate Accounts(r: Report, mode: Mode, worker: nat, operations: nat, w: World) {
    var n := Attempts(mode, worker, operations, w);
    && Tallied(r, mode, worker, n, w)
    && r.errorCodes == (if mode == Checkpoint && worker == 0 && !w.activity then [ACTIVITY_TIMEOUT] else [])
       + Codes(w, n) + (if StartTimesOut(mode, worker, operations, w) then [START_TIMEOUT] else [])
    && (r.overlapHandshake <==> Handshake(mode, worker, n, w))
  }

  /** What a worker reports, in whatever world it runs. */
  ghost predicate Reports(r: Report, mode: Mode, worker: nat, operations: nat, w: World) {
    if !w.start then r == Report(0, 0, 0, 0, [MESSAGE_TIMEOUT], 0, 0, 0, false)
    else
      match w.open
      case Success => Accounts(r, mode, worker, operations, w)
      case Busy => r == Report(0, 0, 0, 1, [], 1, 0, 0, mode != Checkpoint)
      case Error(code) => r == Report(0, 0, 0, 0, [code], 0, 0, 0, mode != Checkpoint)
  }

  /** `_gate_worker` after it has said that it is ready. */
  method GateWorker(mode: Mode, worker: nat, operations: nat, w: World) returns (r: Report)
    ensures Reports(r, mode, worker, operations, w)
  {
    hide Done, Made, CountBusy, Codes;
    if !w.start { return Report(0, 0, 0, 0, [MESSAGE_TIMEOUT], 0, 0, 0, false); }
    NothingYet(mode, worker, w);
    r := Report(0, 0, 0, 0, [], 0, 0, 0, mode != Checkpoint);
    if w.open == Busy { return r.(busyCount := 1, latencies := 1); }
    if w.open.Error? { return r.(errorCodes := [w.open.code]); }
    if mode == Checkpoint && worker == 0 {
      if !w.activity {
        r := r.(errorCodes := [ACTIVITY_TIMEOUT]);
        return;
      }
      r := r.(overlapHandshake := true);
    }
    var operation := 0;
    while operation < operations
      invariant 0 <= operation <= operations && Tallied(r, mode, worker, operation, w)
      invariant r.errorCodes == Codes(w, operation)
      invariant operation > 0 ==> !StartTimesOut(mode, worker, operations, w)
      invariant r.overlapHandshake <==> Handshake(mode, worker, operation, w)
      decreases operations - operation
    {
      OneMore(mode, worker, operation, w);
      var kind := KindOf(mode, worker, operation);
      var timedOut := false;
      match w.outcome(operation) {
        case Success =>
          match kind {
            case Read => r := r.(readSucceeded := r.readSucceeded + 1);
            case CheckpointRun => r := r.(checkpointSucceeded := r.checkpointSucceeded + 1);
            case Write =>
              r := r.(succeeded := r.succeeded + 1);
              if mode == Checkpoint && operation == 0 {
                if w.started {
                  r := r.(overlapHandshake := true);
                } else {
                  r := r.(errorCodes := r.errorCodes + [START_TIMEOUT]);
                  timedOut := true;
                }
              }
          }
        case Busy => r := r.(busyCount := r.busyCount + 1);
        case Error(code) => r := r.(errorCodes := r.errorCodes + [code]);
      }
      match kind {
        case Read => r := r.(readLatencies := r.readLatencies + 1);
        case CheckpointRun => r := r.(checkpointLatencies := r.checkpointLatencies + 1);
        case Write => r := r.(latencies := r.latencies + 1);
      }
      operation := operation + 1;
      if timedOut { break; }
    }
  }

  // ---------------------------------------------------------------- what the counts add up to

  /** Every attempt is a success of its kind, a busy or an error, and only one of them. */
  lemma {:induction false} EachAttemptOnce(mode: Mode, worker: nat, n: nat, w: World)
    ensures Done(mode, worker, n, Write, w) + Done(mode, worker, n, Read, w) + Done(mode, worker, n, CheckpointRun, w)
      + CountBusy(w, n) + |Codes(w, n)| == n
    ensures Made(mode, worker, n, Write) + Made(mode, worker, n, Read) + Made(mode, worker, n, CheckpointRun) == n
  {
    if n > 0 {
      EachAttemptOnce(mode, worker, n - 1, w);
      var k := KindOf(mode, worker, n - 1);
      hide KindOf;
    }
  }

  /** Mixed mode alternates, beginning with a write. */
  lemma {:induction false} MixedAlternates(worker: nat, n: nat)
    ensures Made(Mixed, worker, n, Write) == (n + 1) / 2 && Made(Mixed, worker, n, Read) == n / 2
  {
    if n > 0 { MixedAlternates(worker, n - 1); }
  }

  predicate AllSucceed(w: World, n: nat) {
    forall i | 0 <= i < n :: w.outcome(i) == Success
  }

  lemma {:induction false} DoneAtMostMade(mode: Mode, worker: nat, n: nat, k: Kind, w: World)
    ensures Done(mode, worker, n, k, w) <= Made(mode, worker, n, k)
  {
    if n > 0 { DoneAtMostMade(mode, worker, n - 1, k, w); }
  }

  predicate MixedDone(worker: nat, n: nat, w: World) {
    Done(Mixed, worker, n, Write, w) == Made(Mixed, worker, n, Write)
    && Done(Mixed, worker, n, Read, w) == Made(Mixed, worker, n, Read)
  }

  /** In mixed mode the successes are as many as they should be exactly when every attempt succeeded. */
  lemma {:induction false} MixedDoneExactly(worker: nat, n: nat, w: World)
    ensures MixedDone(worker, n, w) <==> AllSucceed(w, n)
  {
    if n > 0 {
      MixedDoneExactly(worker, n - 1, w);
      DoneAtMostMade(Mixed, worker, n - 1, Write, w);
      DoneAtMostMade(Mixed, worker, n - 1, Read, w);
      assert AllSucceed(w, n) <==> AllSucceed(w, n - 1) && w.outcome(n - 1) == Success;
    }
  }

  function TotalDone(operations: nat, worlds: seq<World>, k: Kind): nat {
    if worlds == [] then 0
    else
      TotalDone(operations, worlds[..|worlds| - 1], k)
      + Done(Mixed, |worlds| - 1, operations, k, worlds[|worlds| - 1])
  }

  predicate TotalsReached(operations: nat, worlds: seq<World>) {
    TotalDone(operations, worlds, Write) == |worlds| * ((operations + 1) / 2)
    && TotalDone(operations, worlds, Read) == |worlds| * (operations / 2)
  }

  predicate EverybodySucceeds(operations: nat, worlds: seq<World>) {
    forall i | 0 <= i < |worlds| :: AllSucceed(worlds[i], operations)
  }

  /**
   The mixed gate's two totals, `n * ceil(k / 2)` writes and `n * floor(k / 2)` reads, are reached if
   and only if every attempt of every worker succeeded; they are never exceeded.
   */
  lemma {:induction false} MixedGateExactly(operations: nat, worlds: seq<World>)
    ensures TotalDone(operations, worlds, Write) <= |worlds| * ((operations + 1) / 2)
    ensures TotalDone(operations, worlds, Read) <= |worlds| * (operations / 2)
    ensures TotalsReached(operations, worlds) <==> EverybodySucceeds(operations, worlds)
    decreases |worlds|
  {
    if worlds != [] {
      var front, last := worlds[..|worlds| - 1], worlds[|worlds| - 1];
      MixedGateExactly(operations, front);
      WorkerShare(|front|, operations, last);
      EverybodySplits(operations, worlds);
      hide Done, Made, AllSucceed, EverybodySucceeds;
      OneMoreTimes(|front|, (operations + 1) / 2);
      OneMoreTimes(|front|, operations / 2);
    }
  }

  lemma OneMoreTimes(n: nat, a: nat)
    ensures (n + 1) * a == n * a + a
  {
  }

  lemma WorkerShare(worker: nat, n: nat, w: World)
    ensures Done(Mixed, worker, n, Write, w) <= (n + 1) / 2 && Done(Mixed, worker, n, Read, w) <= n / 2
    ensures Done(Mixed, worker, n, Write, w) == (n + 1) / 2 && Done(Mixed, worker, n, Read, w) == n / 2
      ==> AllSucceed(w, n)
    ensures AllSucceed(w, n)
      ==> Done(Mixed, worker, n, Write, w) == (n + 1) / 2 && Done(Mixed, worker, n, Read, w) == n / 2
  {
    MixedAlternates(worker, n);
    MixedDoneExactly(worker, n, w);
    DoneAtMostMade(Mixed, worker, n, Write, w);
    DoneAtMostMade(Mixed, worker, n, Read, w);
    hide Done, Made, AllSucceed;
  }

  lemma EverybodySplits(operations: nat, worlds: seq<World>)
    requires worlds != []
    ensures EverybodySucceeds(operations, worlds)
      <==> EverybodySucceeds(operations, worlds[..|worlds| - 1]) && AllSucceed(worlds[|worlds| - 1], operations)
  {
    hide AllSucceed;
    var front := worlds[..|worlds| - 1];
    if EverybodySucceeds(operations, worlds) {
      forall i | 0 <= i < |front| ensures AllSucceed(front[i], operations) { assert AllSucceed(worlds[i], operations); }
    }
  }
}
