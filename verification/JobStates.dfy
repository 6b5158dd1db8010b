/** The states of a job. */
module JobStates {
  // (backend/app/core/jobs/state_machine.py) The legal transitions decide which states end a job and which are wait
  // boundaries.

  import opened Text

  datatype JobState = Queued | Running | WaitingForInput | Succeeded | Failed | Cancelled

  datatype TransitionError = JobTerminal | TransitionInvalid

  const LEGAL: set<(JobState, JobState)> :=
    {(Queued, Running), (Queued, Cancelled), (Running, WaitingForInput), (Running, Succeeded), (Running, Failed),
     (Running, Cancelled), (WaitingForInput, Queued), (WaitingForInput, Failed), (WaitingForInput, Cancelled)}

  predicate IsTerminal(s: JobState) {
    s == Succeeded || s == Failed || s == Cancelled
  }

  function TransitionJob(start: JobState, end: JobState): Result<JobState, TransitionError> {
    if IsTerminal(start) then Err(JobTerminal)
    else if (start, end) !in LEGAL then Err(TransitionInvalid)
    else Ok(end)
  }

  predicate IsWaitBoundary(state: JobState) {
    IsTerminal(state) || state == WaitingForInput
  }

  /** A job is over in the states that the table of transitions does not lead out of. */
  lemma TerminalExactly(s: JobState)
    ensures IsTerminal(s) <==> forall e :: (s, e) !in LEGAL
    ensures IsTerminal(s) <==> forall e :: TransitionJob(s, e) == Err(JobTerminal)
  {
    assert (Queued, Running) in LEGAL && (Running, Failed) in LEGAL && (WaitingForInput, Queued) in LEGAL;
    assert TransitionJob(s, Running) == Err(JobTerminal) ==> IsTerminal(s);
  }

  /** A job can be left here: nothing leads on, or something that puts it back into the queue. */
  ghost predicate LeftOnlyByInput(s: JobState) {
    (forall e :: TransitionJob(s, e).Err?) || TransitionJob(s, Queued).Ok?
  }

  /** The wait boundaries are the states in which no worker goes on with the job by itself. */
  lemma WaitBoundaryExactly(s: JobState)
    ensures IsWaitBoundary(s) <==> LeftOnlyByInput(s)
  {
    assert TransitionJob(Queued, Running).Ok? && TransitionJob(Running, Succeeded).Ok?;
    assert TransitionJob(WaitingForInput, Queued).Ok?;
  }
}
