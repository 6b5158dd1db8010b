/**
 The engine lifecycle as a transition system: any number of `ensure`, `notify_job` and `stop`
 calls and of host processes share a launch lock, a lifetime lock and the descriptor file.
 Every access to shared state is one step, and steps of different calls and hosts interleave
 freely. A process is known by its pid and start time; pids are reused.
 */
module EngineProtocol {
  import opened Text

  type CallId = nat
  type HostId = nat

  datatype Identity = Identity(pid: nat, start: nat)

  datatype Owner = ByCall(call: CallId) | ByHost(host: HostId)

  /** The descriptor file: missing, unreadable or incompatible, or published by a host. */
  datatype Descriptor = Absent | Garbage | Published(host: HostId)

  /**
   The life of a host process. It holds the lifetime lock from `Acquired` to `Unlisted` and
   answers requests only while `Serving`.
   */
  datatype Phase = Starting | Acquired | Serving | Closing | Unlisted | Released | Dead

  datatype Host = Host(identity: Identity, phase: Phase, stopping: bool, launcher: Option<CallId>)

  /** An engine that answered, with the number of engines there had been by then. */
  datatype Answer = Answer(engine: HostId, stamp: nat)

  datatype Kind = Ensure | Notify | Stop

  datatype Outcome =
    | Failed
    | Ensured(answer: Answer, started: bool)
    | Notified(answer: Answer, started: bool)
    | Stopped(gone: Option<HostId>)

  /** Where `status` was called from: first in ensure, in the startup loop, or first in stop. */
  datatype Where = AtEnsure | AtStartup(child: HostId) | AtStop

  /** The next shared access of a call; every point but `Waiting` and `Done` holds the launch lock. */
  datatype Point =
    | Waiting
    | ReadStatus(at: Where)
    | MatchStatus(at: Where, d: HostId)
    | AskHealth(at: Where, d: HostId)
    | ConfirmRead(answer: Answer)
    | ConfirmMatch(answer: Answer, d: HostId)
    | ConfirmHello(answer: Answer, d: HostId)
    | Probe
    | ProbeHeld
    | Unlink
    | Launch
    | PollChild(child: HostId)
    | Terminate(child: HostId)
    | NotifyRead(answer: Answer, started: bool)
    | NotifyMatch(answer: Answer, started: bool, d: HostId)
    | NotifyAsk(answer: Answer, started: bool, d: HostId)
    | StopRead
    | StopMatch(d: HostId)
    | StopProbe
    | StopProbeHeld
    | ShutRead
    | ShutMatch(d: HostId)
    | ShutAsk(d: HostId)
    | AwaitGone(d: HostId)
    | GoneProbe(d: HostId)
    | GoneProbeHeld(d: HostId)
    | StopUnlink(gone: Option<HostId>)
    | Releasing(outcome: Outcome)
    | Done(outcome: Outcome)

  /** `begun` is the number of engines there had been when the call began. */
  datatype Call = Call(kind: Kind, begun: nat, at: Point)

  /** `engines` lists, in order, every host that ever took the lifetime lock. */
  datatype State = State(
    launch: Option<Owner>,
    lifetime: Option<Owner>,
    descriptor: Descriptor,
    hosts: map<HostId, Host>,
    calls: map<CallId, Call>,
    strangers: set<Identity>,
    used: set<Identity>,
    engines: seq<HostId>
  )

  // ---------------------------------------------------------------- observations

  predicate Holding(p: Phase) {
    p == Acquired || p == Serving || p == Closing || p == Unlisted
  }

  /** An engine is live while its host holds the lifetime lock. */
  predicate Live(s: State, h: HostId) {
    h in s.hosts && Holding(s.hosts[h].phase)
  }

  predicate IsServing(s: State, h: HostId) {
    h in s.hosts && s.hosts[h].phase == Serving
  }

  /** `process_start_identity(pid)` equals the recorded one: some live process has that identity. */
  predicate IdentityMatches(s: State, d: HostId) {
    d in s.hosts
    && (s.hosts[d].identity in s.strangers
        || exists h | h in s.hosts :: s.hosts[h].phase != Dead && s.hosts[h].identity == s.hosts[d].identity)
  }

  predicate PidFree(s: State, pid: nat) {
    (forall h | h in s.hosts :: s.hosts[h].phase != Dead ==> s.hosts[h].identity.pid != pid)
    && forall i | i in s.strangers :: i.pid != pid
  }

  /** A process may take a pid no live process has; the pair with its start time is new. */
  predicate FreshIdentity(s: State, i: Identity) {
    i !in s.used && PidFree(s, i.pid)
  }

  // ---------------------------------------------------------------- steps of a call

  /**
   Actions. `ok` picks the branch that the outside world decides: a request is answered, a file
   operation succeeds, a deadline has not passed. `Abort` is an exception or the death of the
   calling process.
   */
  datatype Action =
    | Begin(call: CallId, kind: Kind)
    | Advance(call: CallId, ok: bool)
    | Spawn(call: CallId, child: HostId, identity: Identity)
    | Abort(call: CallId)
    | HostStep(host: HostId, cause: Cause)
    | Kill(host: HostId)
    | StrangerStarts(identity: Identity)
    | StrangerExits(identity: Identity)

  datatype Cause = Progress | Idle | Drained | Broken

  function SetPoint(s: State, c: CallId, p: Point): State
    requires c in s.calls
  {
    s.(calls := s.calls[c := s.calls[c].(at := p)])
  }

  function SetPhase(s: State, h: HostId, p: Phase): State
    requires h in s.hosts
  {
    s.(hosts := s.hosts[h := s.hosts[h].(phase := p)])
  }

  /** Where a call goes once `status` has found no running engine. */
  function NotRunning(at: Where): Point {
    match at
    case AtEnsure => Probe
    case AtStartup(child) => PollChild(child)
    case AtStop => StopRead
  }

  function Running(at: Where, kind: Kind, answer: Answer): Point {
    match at
    case AtEnsure => ConfirmRead(answer)
    case AtStartup(child) => AfterEnsure(kind, answer, true)
    case AtStop => ShutRead
  }

  /** `_ensure_locked` returned: an ensure is finished, a notification goes on. */
  function AfterEnsure(kind: Kind, answer: Answer, started: bool): Point {
    if kind == Notify then NotifyRead(answer, started) else Releasing(Ensured(answer, started))
  }

  /** A request to the host of a descriptor is answered only while that host is serving. */
  predicate CanAdvance(s: State, c: CallId, ok: bool) {
    c in s.calls
    && match s.calls[c].at
       case Waiting => ok ==> s.launch == None
       case AskHealth(_, d) => ok ==> IsServing(s, d)
       case ConfirmHello(_, d) => ok ==> IsServing(s, d)
       case NotifyAsk(_, _, d) => ok ==> IsServing(s, d)
       case ShutAsk(d) => ok ==> IsServing(s, d)
       case Launch => !ok
       case Done(_) => false
       case _ => true
  }

  /** The host whose descriptor is read, if there is a readable one. */
  function Readable(s: State): Option<HostId> {
    match s.descriptor
    case Published(h) => Some(h)
    case _ => None
  }

  function AdvanceCall(s: State, c: CallId, ok: bool): State
    requires CanAdvance(s, c, ok)
  {
    var kind := s.calls[c].kind;
    match s.calls[c].at
    case Waiting =>
      if ok then SetPoint(s, c, ReadStatus(if kind == Stop then AtStop else AtEnsure)).(launch := Some(ByCall(c)))
      else SetPoint(s, c, Done(Failed))
    case ReadStatus(at) =>
      SetPoint(s, c, match Readable(s) case None => NotRunning(at) case Some(d) => MatchStatus(at, d))
    case MatchStatus(at, d) =>
      SetPoint(s, c, if IdentityMatches(s, d) then AskHealth(at, d) else NotRunning(at))
    case AskHealth(at, d) =>
      SetPoint(s, c, if ok then Running(at, kind, Answer(d, |s.engines|)) else NotRunning(at))
    case ConfirmRead(answer) =>
      SetPoint(s, c, match Readable(s) case None => Releasing(Failed) case Some(d) => ConfirmMatch(answer, d))
    case ConfirmMatch(answer, d) =>
      SetPoint(s, c, if IdentityMatches(s, d) then ConfirmHello(answer, d) else Releasing(Failed))
    case ConfirmHello(answer, d) =>
      SetPoint(s, c, if ok then AfterEnsure(kind, answer, false) else Releasing(Failed))
    case Probe =>
      if s.lifetime == None then SetPoint(s, c, ProbeHeld).(lifetime := Some(ByCall(c)))
      else SetPoint(s, c, Releasing(Failed))
    case ProbeHeld => SetPoint(s, c, Unlink).(lifetime := None)
    case Unlink =>
      if ok then SetPoint(s, c, Launch).(descriptor := Absent) else SetPoint(s, c, Releasing(Failed))
    case Launch => SetPoint(s, c, Releasing(Failed))
    case PollChild(child) =>
      if child !in s.hosts || s.hosts[child].phase == Dead then SetPoint(s, c, Releasing(Failed))
      else SetPoint(s, c, if ok then ReadStatus(AtStartup(child)) else Terminate(child))
    case Terminate(child) =>
      SetPoint(if child in s.hosts then KillHost(s, child) else s, c, Releasing(Failed))
    case NotifyRead(answer, started) =>
      SetPoint(s, c, match Readable(s) case None => Releasing(Failed) case Some(d) => NotifyMatch(answer, started, d))
    case NotifyMatch(answer, started, d) =>
      SetPoint(s, c, if IdentityMatches(s, d) then NotifyAsk(answer, started, d) else Releasing(Failed))
    case NotifyAsk(answer, started, d) =>
      SetPoint(s, c, Releasing(if ok && d == answer.engine then Notified(answer, started) else Failed))
    case StopRead =>
      SetPoint(s, c, match Readable(s) case None => StopProbe case Some(d) => StopMatch(d))
    case StopMatch(d) =>
      SetPoint(s, c, if IdentityMatches(s, d) then Releasing(Failed) else StopProbe)
    case StopProbe =>
      if s.lifetime == None then SetPoint(s, c, StopProbeHeld).(lifetime := Some(ByCall(c)))
      else SetPoint(s, c, Releasing(Failed))
    case StopProbeHeld => SetPoint(s, c, StopUnlink(None)).(lifetime := None)
    case ShutRead =>
      SetPoint(s, c, match Readable(s) case None => Releasing(Failed) case Some(d) => ShutMatch(d))
    case ShutMatch(d) =>
      SetPoint(s, c, if IdentityMatches(s, d) then ShutAsk(d) else Releasing(Failed))
    case ShutAsk(d) =>
      if ok then SetPoint(s.(hosts := s.hosts[d := s.hosts[d].(stopping := true)]), c, AwaitGone(d))
      else SetPoint(s, c, Releasing(Failed))
    case AwaitGone(d) =>
      if !ok then SetPoint(s, c, Releasing(Failed))
      else if IdentityMatches(s, d) then s
      else SetPoint(s, c, GoneProbe(d))
    case GoneProbe(d) =>
      if s.lifetime == None then SetPoint(s, c, GoneProbeHeld(d)).(lifetime := Some(ByCall(c)))
      else SetPoint(s, c, AwaitGone(d))
    case GoneProbeHeld(d) => SetPoint(s, c, StopUnlink(Some(d))).(lifetime := None)
    case StopUnlink(gone) =>
      if ok then SetPoint(s, c, Releasing(Stopped(gone))).(descriptor := Absent)
      else SetPoint(s, c, Releasing(Failed))
    case Releasing(outcome) => SetPoint(s, c, Done(outcome)).(launch := None)
    case Done(_) => s
  }

  /** A process dies: the operating system frees the locks it held, the descriptor stays. */
  function KillHost(s: State, h: HostId): State
    requires h in s.hosts
  {
    SetPhase(s, h, Dead).(
      lifetime := if s.lifetime == Some(ByHost(h)) then None else s.lifetime,
      launch := if s.launch == Some(ByHost(h)) then None else s.launch)
  }

  // ---------------------------------------------------------------- steps of a host

  predicate CanStep(s: State, h: HostId, cause: Cause) {
    h in s.hosts
    && match s.hosts[h].phase
       case Starting => cause == Progress || cause == Broken
       case Acquired => cause == Progress || cause == Broken
       case Serving =>
         cause == Broken || (cause == Drained && s.hosts[h].stopping)
         || (cause == Idle && !s.hosts[h].stopping && s.launch == None)
       case Dead => false
       case _ => cause == Progress || cause == Broken
  }

  function AdvanceHost(s: State, h: HostId, cause: Cause): State
    requires CanStep(s, h, cause)
  {
    match s.hosts[h].phase
    case Starting =>
      if cause == Progress && s.lifetime == None then
        SetPhase(s, h, Acquired).(lifetime := Some(ByHost(h)), engines := s.engines + [h])
      else SetPhase(s, h, Dead)
    case Acquired =>
      if cause == Progress then SetPhase(s, h, Serving).(descriptor := Published(h)) else SetPhase(s, h, Closing)
    case Serving =>
      SetPhase(s, h, Closing).(launch := if cause == Idle then Some(ByHost(h)) else s.launch)
    case Closing =>
      SetPhase(s, h, Unlisted).(
        descriptor := if cause == Progress && s.descriptor == Published(h) then Absent else s.descriptor)
    case Unlisted => SetPhase(s, h, Released).(lifetime := None)
    case Released =>
      if s.launch == Some(ByHost(h)) then s.(launch := None) else SetPhase(s, h, Dead)
    case Dead => s
  }

  // ---------------------------------------------------------------- the transition relation

  /** The child a call has launched and not yet found ready or reaped. */
  function StartupOf(p: Point): Option<HostId> {
    match p
    case ReadStatus(AtStartup(h)) => Some(h)
    case MatchStatus(AtStartup(h), _) => Some(h)
    case AskHealth(AtStartup(h), _) => Some(h)
    case PollChild(h) => Some(h)
    case Terminate(h) => Some(h)
    case _ => None
  }

  predicate InLock(p: Point) {
    !p.Waiting? && !p.Done?
  }

  predicate HoldsProbe(p: Point) {
    p.ProbeHeld? || p.StopProbeHeld? || p.GoneProbeHeld?
  }

  /** With `careless`, a call may also end between launching a child and disposing of it. */
  predicate Enabled(s: State, a: Action, careless: bool) {
    match a
    case Begin(c, _) => c !in s.calls
    case Advance(c, ok) => CanAdvance(s, c, ok)
    case Spawn(c, h, i) => c in s.calls && s.calls[c].at == Launch && h !in s.hosts && FreshIdentity(s, i)
    case Abort(c) => c in s.calls && !s.calls[c].at.Done? && (careless || StartupOf(s.calls[c].at) == None)
    case HostStep(h, cause) => CanStep(s, h, cause)
    case Kill(h) => h in s.hosts && s.hosts[h].phase != Dead
    case StrangerStarts(i) => FreshIdentity(s, i)
    case StrangerExits(i) => i in s.strangers
  }

  function Apply(s: State, a: Action): State
    requires Enabled(s, a, true)
  {
    match a
    case Begin(c, kind) => s.(calls := s.calls[c := Call(kind, |s.engines|, Waiting)])
    case Advance(c, ok) => AdvanceCall(s, c, ok)
    case Spawn(c, h, i) =>
      SetPoint(s, c, ReadStatus(AtStartup(h))).(
        hosts := s.hosts[h := Host(i, Starting, false, Some(c))], used := s.used + {i})
    case Abort(c) =>
      SetPoint(s, c, Done(Failed)).(
        launch := if s.launch == Some(ByCall(c)) then None else s.launch,
        lifetime := if s.lifetime == Some(ByCall(c)) then None else s.lifetime)
    case HostStep(h, cause) => AdvanceHost(s, h, cause)
    case Kill(h) => KillHost(s, h)
    case StrangerStarts(i) => s.(strangers := s.strangers + {i}, used := s.used + {i})
    case StrangerExits(i) => s.(strangers := s.strangers - {i})
  }

  /** Before any call: nothing held, only dead hosts, any descriptor file they left behind. */
  ghost predicate Init(s: State) {
    && s.launch == None && s.lifetime == None && s.calls == map[] && s.engines == []
    && (forall h | h in s.hosts :: s.hosts[h].phase == Dead && s.hosts[h].launcher == None)
    && (s.descriptor.Published? ==> s.descriptor.host in s.hosts)
    && (forall h | h in s.hosts :: s.hosts[h].identity in s.used && s.hosts[h].identity !in s.strangers)
    && (forall h, g | h in s.hosts && g in s.hosts :: s.hosts[h].identity == s.hosts[g].identity ==> h == g)
    && s.strangers <= s.used
  }

  ghost predicate Next(s: State, t: State, careless: bool) {
    exists a :: Enabled(s, a, careless) && t == Apply(s, a)
  }

  /** A finite run: every state follows from the one before by one step. */
  ghost predicate Run(states: seq<State>, careless: bool) {
    states != [] && Init(states[0])
    && forall i | 0 <= i < |states| - 1 :: Next(states[i], states[i + 1], careless)
  }
}
