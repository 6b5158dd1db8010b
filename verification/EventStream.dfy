/** Tailing a durable job log. */
module EventStream {
  // (backend/app/job_runtime.py) A writer appends events, changes the job's state, pauses it for input
  // and resumes it while a reader pages through the log.

  import opened Text
  import opened JobStates

  datatype Event = Event(sequence: nat, kind: Str, payload: Str)

  /** What one read transaction sees of a job. */
  datatype Snapshot = Snapshot(log: seq<Event>, state: JobState)

  datatype StreamError = SequenceInvalid | LimitInvalid

  const MAX_EVENT_PAGE_SIZE := 1000

  /** Events are numbered upwards from 1 as they are inserted and never removed. */
  predicate Numbered(log: seq<Event>) {
    (forall i | 0 <= i < |log| :: 0 < log[i].sequence)
    && forall i, j | 0 <= i < j < |log| :: log[i].sequence < log[j].sequence
  }

  /** The rows of the query `sequence > after ORDER BY sequence`. */
  function After(log: seq<Event>, after: nat): (r: seq<Event>)
    ensures |r| <= |log|
    ensures forall k | 0 <= k < |r| :: r[k].sequence > after
  {
    if log == [] then []
    else (if log[0].sequence > after then [log[0]] else []) + After(log[1..], after)
  }

  // ---------------------------------------------------------------- the rows of a query

  lemma {:induction false} AfterNone(log: seq<Event>, after: nat)
    requires forall i | 0 <= i < |log| :: log[i].sequence > after
    ensures After(log, after) == log
  {
    if log != [] { AfterNone(log[1..], after); }
  }

  /** In a numbered log the rows of a query are a suffix. */
  lemma {:induction false} AfterIsSuffix(log: seq<Event>, after: nat) returns (from: nat)
    requires Numbered(log)
    ensures from <= |log| && After(log, after) == log[from..]
    ensures forall i | 0 <= i < |log| :: log[i].sequence > after <==> from <= i
  {
    if log == [] {
      from := 0;
    } else if log[0].sequence > after {
      from := 0;
      AfterNone(log, after);
      assert log[0..] == log;
    } else {
      var rest := AfterIsSuffix(log[1..], after);
      from := rest + 1;
      assert log[1..][rest..] == log[from..];
      forall i | 0 <= i < |log| ensures log[i].sequence > after <==> from <= i {
        if i > 0 { assert log[i] == log[1..][i - 1]; }
      }
    }
  }

  lemma SuffixIs(log: seq<Event>, after: nat, from: nat)
    requires Numbered(log) && from <= |log|
    requires from > 0 ==> log[from - 1].sequence <= after
    requires from < |log| ==> log[from].sequence > after
    ensures After(log, after) == log[from..]
  {
    var f := AfterIsSuffix(log, after);
    hide After, Numbered;
  }

  lemma InOrder(log: seq<Event>, i: nat, j: nat)
    requires Numbered(log) && i < j < |log|
    ensures log[i].sequence < log[j].sequence
  {
  }

  lemma Slices<T>(log: seq<T>, later: seq<T>, from: nat, n: nat)
    requires log <= later && from + n <= |log|
    ensures later[from..] == log[from..][..n] + later[from + n..]
  {
    assert log[from..][..n] == later[from..from + n];
  }

  lemma LaterRows(log: seq<Event>, later: seq<Event>, after: nat, from: nat)
    requires Numbered(later) && log <= later && from < |log|
    requires log[from].sequence > after && (from > 0 ==> log[from - 1].sequence <= after)
    ensures After(later, after) == later[from..]
  {
    hide Numbered, After;
    assert later[from] == log[from];
    if from > 0 { assert later[from - 1] == log[from - 1]; }
    SuffixIs(later, after, from);
  }

  lemma RowsAfterLast(later: seq<Event>, last: nat)
    requires Numbered(later) && last < |later|
    ensures After(later, later[last].sequence) == later[last + 1..]
  {
    if last + 1 < |later| { InOrder(later, last, last + 1); }
    hide Numbered, After;
    SuffixIs(later, later[last].sequence, last + 1);
  }

  /** Paging: the rows after `after` are a first page and the rows after its last event, however the log grew. */
  lemma PageThenRest(log: seq<Event>, later: seq<Event>, after: nat, n: nat)
    requires Numbered(log) && Numbered(later) && log <= later
    requires 0 < n <= |After(log, after)|
    ensures var page := After(log, after)[..n];
      After(later, after) == page + After(later, page[n - 1].sequence) && page[n - 1].sequence > after
  {
    var from := AfterIsSuffix(log, after);
    var last := from + n - 1;
    assert log[from].sequence > after && (from > 0 ==> log[from - 1].sequence <= after);
    assert log[last].sequence > after;
    hide *;
    LaterRows(log, later, after, from);
    RowsAfterLast(later, last);
    Slices(log, later, from, n);
    assert later[last] == log[last] == After(log, after)[..n][n - 1];
  }

  /** What a reader wants: every event numbered above `after`, once, in order. */
  lemma {:induction false} RowsAreExact(log: seq<Event>, after: nat)
    requires Numbered(log)
    ensures forall e :: e in After(log, after) <==> e in log && e.sequence > after
    ensures forall i, j | 0 <= i < j < |After(log, after)| ::
        After(log, after)[i].sequence < After(log, after)[j].sequence
  {
    var from := AfterIsSuffix(log, after);
    forall e | e in log && e.sequence > after ensures e in After(log, after) {
      var i :| 0 <= i < |log| && log[i] == e;
      assert log[from..][i - from] == e;
    }
  }

  /** The rows of the query with its limit. */
  function Page(rows: seq<Event>, limit: nat): seq<Event> {
    if |rows| > limit then rows[..limit] else rows
  }

  // ---------------------------------------------------------------- the repository

  /** A history of the job: what a read at each moment sees. Committed events stay. */
  ghost predicate GrowingHistory(history: nat -> Snapshot) {
    (forall t :: Numbered(history(t).log))
    && forall t, u | t <= u :: history(t).log <= history(u).log
  }

  /** From `end` on the writer stays at a wait boundary and appends nothing more. */
  ghost predicate SettledFrom(history: nat -> Snapshot, end: nat) {
    IsWaitBoundary(history(end).state) && forall t | end <= t :: history(t) == history(end)
  }

  /** The clock moves on by any amount between two accesses; the writer acts meanwhile. */
  class Repository {
    const history: nat -> Snapshot
    var now: nat

    constructor (history: nat -> Snapshot)
      ensures this.history == history && now == 0
    {
      this.history := history;
      now := 0;
    }

    method GetJobEvents(after: int, limit: int) returns (page: Result<seq<Event>, StreamError>)
      modifies this
      ensures now >= old(now)
      ensures page == if after < 0 then Err(SequenceInvalid)
                      else if limit < 1 || limit > MAX_EVENT_PAGE_SIZE then Err(LimitInvalid)
                      else Ok(Page(After(history(now).log, after), limit))
    {
      if after < 0 { return Err(SequenceInvalid); }
      if limit < 1 || limit > MAX_EVENT_PAGE_SIZE { return Err(LimitInvalid); }
      Pass(0);
      page := Ok(Page(After(history(now).log, after), limit));
    }

    method GetJobState() returns (state: JobState)
      modifies this
      ensures now >= old(now) && state == history(now).state
    {
      Pass(0);
      state := history(now).state;
    }

    /** At least `least` ticks pass. */
    method Pass(least: nat)
      modifies this
      ensures now >= old(now) + least
    {
      var later: nat :| later >= now + least;
      now := later;
    }
  }

  /** How much a reader at `cursor` still has to do once the writer has settled. */
  ghost function Remaining(history: nat -> Snapshot, end: nat, now: nat, cursor: nat): nat {
    |After(history(end).log, cursor)| + if now < end then end - now else 0
  }

  /** The events yielded so far and those after the cursor are those asked for, now and later. */
  ghost predicate Caught(history: nat -> Snapshot, now: nat, after: nat, yielded: seq<Event>, cursor: nat) {
    forall t | now <= t :: After(history(t).log, after) == yielded + After(history(t).log, cursor)
  }

  lemma CaughtPage(history: nat -> Snapshot, now: nat, after: nat, yielded: seq<Event>, cursor: nat, n: nat)
    requires GrowingHistory(history) && Caught(history, now, after, yielded, cursor)
    requires 0 < n <= |After(history(now).log, cursor)|
    ensures var page := After(history(now).log, cursor)[..n];
      Caught(history, now, after, yielded + page, page[n - 1].sequence)
  {
    var page := After(history(now).log, cursor)[..n];
    forall t | now <= t
      ensures After(history(t).log, after) == (yielded + page) + After(history(t).log, page[n - 1].sequence)
    {
      PageThenRest(history(now).log, history(t).log, cursor, n);
      assert yielded + (page + After(history(t).log, page[n - 1].sequence))
          == (yielded + page) + After(history(t).log, page[n - 1].sequence);
    }
  }

  /** However the writer settles, each turn so far has brought the reader closer to the end of the log. */
  ghost predicate Closing(history: nat -> Snapshot, start: nat, after: nat, now: nat, cursor: nat, turns: nat) {
    forall end | SettledFrom(history, end) ::
      Remaining(history, end, now, cursor) + turns <= Remaining(history, end, start, after)
  }

  lemma PageCloses(history: nat -> Snapshot, start: nat, after: nat, before: nat, now: nat, cursor: nat, n: nat,
          turns: nat)
    requires GrowingHistory(history) && before <= now && Closing(history, start, after, before, cursor, turns)
    requires 0 < n <= |After(history(now).log, cursor)|
    ensures Closing(history, start, after, now, After(history(now).log, cursor)[n - 1].sequence, turns + 1)
  {
    var next := After(history(now).log, cursor)[n - 1].sequence;
    forall end | SettledFrom(history, end)
      ensures Remaining(history, end, now, next) + (turns + 1) <= Remaining(history, end, start, after)
    {
      PageProgress(history, end, before, now, cursor, n);
    }
  }

  /** A page brings the reader closer to the end of the log. */
  lemma PageProgress(history: nat -> Snapshot, end: nat, before: nat, now: nat, cursor: nat, n: nat)
    requires GrowingHistory(history) && SettledFrom(history, end) && before <= now
    requires 0 < n <= |After(history(now).log, cursor)|
    ensures Remaining(history, end, now, After(history(now).log, cursor)[n - 1].sequence)
      < Remaining(history, end, before, cursor)
  {
    var last := if now < end then end else now;
    assert history(last) == history(end);
    PageThenRest(history(now).log, history(last).log, cursor, n);
  }

  /** So does waiting, since the writer had not settled when its state was read. */
  lemma WaitCloses(history: nat -> Snapshot, start: nat, after: nat, before: nat, read: nat, now: nat, cursor: nat,
          turns: nat)
    requires before <= read < now && !IsWaitBoundary(history(read).state)
    requires Closing(history, start, after, before, cursor, turns)
    ensures Closing(history, start, after, now, cursor, turns + 1)
  {
    forall end | SettledFrom(history, end)
      ensures Remaining(history, end, now, cursor) + (turns + 1) <= Remaining(history, end, start, after)
    {
      assert read < end;
    }
  }

  lemma NothingClosedYet(history: nat -> Snapshot, start: nat, after: nat)
    ensures Closing(history, start, after, start, after, 0)
  {
  }

  lemma NothingReadYet(history: nat -> Snapshot, now: nat, after: nat)
    ensures Caught(history, now, after, [], after)
  {
    forall t | now <= t ensures After(history(t).log, after) == [] + After(history(t).log, after) {
      assert [] + After(history(t).log, after) == After(history(t).log, after);
    }
  }

  lemma CaughtLater(history: nat -> Snapshot, now: nat, later: nat, after: nat, yielded: seq<Event>, cursor: nat)
    requires Caught(history, now, after, yielded, cursor) && now <= later
    ensures Caught(history, later, after, yielded, cursor)
    ensures After(history(later).log, after) == yielded + After(history(later).log, cursor)
  {
  }

  /** How a stream stands after its turns: still open, ended, or an error. */
  datatype Outcome = Open | Ended | Raised(error: StreamError)

  /** At every moment from `now` on, the events above `after` begin with those yielded. */
  ghost predicate Begins(history: nat -> Snapshot, now: nat, after: nat, yielded: seq<Event>) {
    forall t | now <= t :: yielded <= After(history(t).log, after)
  }

  /** Whenever the writer settles, there was work for this many turns. */
  ghost predicate StillAtWork(history: nat -> Snapshot, start: nat, after: nat, turns: nat) {
    forall end | SettledFrom(history, end) :: turns <= Remaining(history, end, start, after)
  }

  /**
   One turn of the stream: a page, or the end, or a wait. `seen` is the moment at which the state was
   read; the wait is longer from turn to turn until there is a page again.
   */
  method Turn(repository: Repository, cursor: int, limit: int, delay: real)
    returns (page: seq<Event>, outcome: Outcome, next: real, ghost seen: nat)
    requires 0.1 <= delay <= 1.0
    modifies repository
    ensures 0.1 <= next <= 1.0 && old(repository.now) <= repository.now
    ensures outcome == Raised(SequenceInvalid) <==> cursor < 0
    ensures outcome == Raised(LimitInvalid) <==> cursor >= 0 && (limit < 1 || limit > 1000)
    ensures outcome != Open ==> page == []
    ensures page != [] ==> cursor >= 0 && page <= After(repository.history(repository.now).log, cursor)
    ensures page != [] ==> limit >= 1 && page == Page(After(repository.history(repository.now).log, cursor), limit)
    ensures outcome == Open && page == [] ==> next == if delay * 2.0 < 1.0 then delay * 2.0 else 1.0
    ensures outcome == Open && page == [] ==>
      old(repository.now) <= seen < repository.now && !IsWaitBoundary(repository.history(seen).state)
    ensures outcome == Ended ==>
      && old(repository.now) <= seen <= repository.now && IsWaitBoundary(repository.history(seen).state)
      && cursor >= 0 && After(repository.history(repository.now).log, cursor) == []
  {
    hide After, IsWaitBoundary;
    page, outcome, next, seen := [], Open, delay, repository.now;
    var first := repository.GetJobEvents(cursor, limit);
    if first.Err? { return page, Raised(first.error), next, seen; }
    if |first.value| > 0 { return first.value, outcome, 0.1, seen; }
    var state := repository.GetJobState();
    seen := repository.now;
    if IsWaitBoundary(state) {
      var last := repository.GetJobEvents(cursor, limit);
      if |last.value| > 0 { return last.value, outcome, next, seen; }
      return page, Ended, next, seen;
    }
    repository.Pass(1);
    next := if delay * 2.0 < 1.0 then delay * 2.0 else 1.0;
  }

  /**
   `stream_job_events` for its first `turns` turns, over every way the writer may append, pause and
   resume meanwhile. When the stream has ended, what it yielded is exactly the log above `after` as of
   its last read, so it includes every event committed before the wait boundary was observed. While it
   is open, what it yielded is the beginning of the log above `after`, now and ever after; and it is open
   only for as many turns as there is work for, if the writer ever settles.
   */
  method StreamJobEvents(repository: Repository, after: int, limit: int, turns: nat)
    returns (yielded: seq<Event>, outcome: Outcome, ghost observed: nat)
    requires GrowingHistory(repository.history)
    modifies repository
    ensures outcome == Raised(SequenceInvalid) <==> turns > 0 && after < 0
    ensures outcome == Raised(LimitInvalid) <==> turns > 0 && after >= 0 && (limit < 1 || limit > 1000)
    ensures outcome == Ended ==>
      && after >= 0 && old(repository.now) <= observed <= repository.now
      && IsWaitBoundary(repository.history(observed).state)
      && yielded == After(repository.history(repository.now).log, after)
      && repository.history(observed).log <= repository.history(repository.now).log
    ensures outcome == Open && after >= 0 ==> Begins(repository.history, repository.now, after, yielded)
    ensures outcome == Open && after >= 0 ==> StillAtWork(repository.history, old(repository.now), after, turns)
  {
    hide *;
    observed := repository.now;
    ghost var history, start := repository.history, repository.now;
    yielded, outcome := [], Open;
    var cursor := after;
    var delay := 0.1;
    if after >= 0 {
      NothingReadYet(history, start, after);
      NothingClosedYet(history, start, after);
    }
    var turn := 0;
    while turn < turns
      invariant 0.1 <= delay <= 1.0
      invariant start <= repository.now && turn <= turns && outcome == Open
      invariant after >= 0 ==> cursor >= 0 && Caught(history, repository.now, after, yielded, cursor)
      invariant after >= 0 ==> Closing(history, start, after, repository.now, cursor, turn)
      invariant after < 0 ==> turn == 0 && cursor == after
      invariant turn > 0 ==> 1 <= limit <= 1000
      decreases turns - turn
    {
      ghost var before := repository.now;
      var page;
      page, outcome, delay, observed := Turn(repository, cursor, limit, delay);
      if outcome.Raised? { return; }
      CaughtLater(history, before, repository.now, after, yielded, cursor);
      if outcome == Ended {
        assert yielded + [] == yielded;
        LogsGrow(history, observed, repository.now);
        return;
      }
      if |page| > 0 {
        assert page == After(history(repository.now).log, cursor)[..|page|];
        CaughtPage(history, repository.now, after, yielded, cursor, |page|);
        PageCloses(history, start, after, before, repository.now, cursor, |page|, turn);
        yielded := yielded + page;
        cursor := page[|page| - 1].sequence;
      } else {
        WaitCloses(history, start, after, before, observed, repository.now, cursor, turn);
      }
      turn := turn + 1;
    }
    if after >= 0 {
      CaughtIsPrefix(history, repository.now, after, yielded, cursor);
      NotOpenForEver(history, start, after, repository.now, cursor, turns);
    }
  }

  lemma CaughtIsPrefix(history: nat -> Snapshot, now: nat, after: nat, yielded: seq<Event>, cursor: nat)
    requires Caught(history, now, after, yielded, cursor)
    ensures Begins(history, now, after, yielded)
  {
  }

  lemma NotOpenForEver(history: nat -> Snapshot, start: nat, after: nat, now: nat, cursor: nat, turns: nat)
    requires Closing(history, start, after, now, cursor, turns)
    ensures StillAtWork(history, start, after, turns)
  {
  }

  lemma LogsGrow(history: nat -> Snapshot, t: nat, u: nat)
    requires GrowingHistory(history) && t <= u
    ensures history(t).log <= history(u).log
  {
  }

  /**
   The read after the boundary was seen is needed: an empty page followed by a terminal state does
   not mean that the page was complete.
   */
  lemma LastReadNeeded() returns (history: nat -> Snapshot, early: nat, observed: nat)
    ensures GrowingHistory(history) && SettledFrom(history, observed) && early < observed
    ensures After(history(early).log, 0) == [] && IsWaitBoundary(history(observed).state)
    ensures After(history(observed).log, 0) != []
  {
    var e := Event(1, [], []);
    early, observed := 0, 1;
    history := (t: nat) => if t == 0 then Snapshot([], Running) else Snapshot([e], Succeeded);
    assert After([e], 0) == [e] + After([e][1..], 0);
  }
}
