/** What one save does, with a fault at any of its steps. */
module VerifiedCacheSaves {
  // Other saves, loads and damage go on between the steps.

  import opened Text
  import opened Json
  import opened JsonCanonical
  import opened JsonOctets
  import opened Dictionary
  import opened VerifiedCache
  import opened VerifiedCacheRuns

  // ---------------------------------------------------------------- faults

  /** The save has published nothing and will not. */
  predicate Stopped(c: Save) {
    !c.published && (c.pc.Cleaning? || Done(c))
  }

  lemma FaultStops(lib: Library, s: State, id: nat, written: nat)
    requires Enabled(lib, s, Step(id, false, written)) && !s.saves[id].published
    ensures id in Apply(lib, s, Step(id, false, written)).saves
    ensures Stopped(Apply(lib, s, Step(id, false, written)).saves[id])
  {
    hide Sealed, IsKey, UniqueKeys, Proper;
  }

  lemma StoppedStays(lib: Library, s: State, a: Action, id: nat)
    requires Enabled(lib, s, a) && id in s.saves && Stopped(s.saves[id])
    ensures id in Apply(lib, s, a).saves && Stopped(Apply(lib, s, a).saves[id])
  {
    hide Sealed, IsKey, UniqueKeys, Proper;
  }

  /** A save that met a fault before its clean-up never publishes anything, whatever else goes on. */
  lemma {:induction false} FaultPublishesNothing(lib: Library, states: seq<State>, actions: seq<Action>, n: nat, m: nat,
          id: nat, written: nat)
    requires Run(lib, states, actions) && n < m < |states| && actions[n] == Step(id, false, written)
    requires id in states[n].saves && !states[n].saves[id].pc.Cleaning?
    ensures id in states[m].saves && Stopped(states[m].saves[id])
  {
    hide Apply, Enabled, Stopped;
    RunStep(lib, states, actions, m - 1);
    if m == n + 1 {
      RunKeeps(lib, states, actions, n);
      NotYet(lib, states[n], id, written);
      FaultStops(lib, states[n], id, written);
    } else {
      FaultPublishesNothing(lib, states, actions, n, m - 1, id, written);
      StoppedStays(lib, states[m - 1], actions[m - 1], id);
    }
  }

  lemma NotYet(lib: Library, s: State, id: nat, written: nat)
    requires Late(s) && Enabled(lib, s, Step(id, false, written)) && !s.saves[id].pc.Cleaning?
    ensures !s.saves[id].published
  {
    hide UniqueKeys, Proper;
  }

  // ---------------------------------------------------------------- values that cannot be saved

  lemma RaisesNow(lib: Library, s: State, a: Action, id: nat)
    requires Enabled(lib, s, a) && id in Apply(lib, s, a).saves && Apply(lib, s, a).saves[id].pc.Raised?
    requires id in s.saves ==> !s.saves[id].pc.Raised?
    ensures a.Step? && a.id == id && a.ok && s.saves[id].pc.Encoding?
    ensures IsKey(s.saves[id].key) && Sealed(lib, s.saves[id].key, s.saves[id].value) == Unencodable
    ensures Apply(lib, s, a).saves[id].key == s.saves[id].key && Apply(lib, s, a).saves[id].value == s.saves[id].value
  {
    hide Sealed, IsKey, UniqueKeys, Proper;
  }

  lemma RaisedBefore(lib: Library, s: State, a: Action, id: nat)
    requires Enabled(lib, s, a) && id in s.saves && s.saves[id].pc.Raised?
    ensures id in Apply(lib, s, a).saves && Apply(lib, s, a).saves[id].key == s.saves[id].key
    ensures Apply(lib, s, a).saves[id].value == s.saves[id].value
  {
    hide Sealed, IsKey, UniqueKeys, Proper;
  }

  /** In every run a save raises only for a value that cannot be encoded, and not for one that is too long. */
  lemma {:induction false} RaisedOnlyUnencodable(lib: Library, states: seq<State>, actions: seq<Action>, n: nat,
          id: nat)
    requires Run(lib, states, actions) && n < |states| && id in states[n].saves && states[n].saves[id].pc.Raised?
    ensures IsKey(states[n].saves[id].key)
    ensures Sealed(lib, states[n].saves[id].key, states[n].saves[id].value) == Unencodable
  {
    hide Apply, Enabled, Sealed, IsKey;
    assert n > 0;
    RunStep(lib, states, actions, n - 1);
    if id in states[n - 1].saves && states[n - 1].saves[id].pc.Raised? {
      RaisedOnlyUnencodable(lib, states, actions, n - 1, id);
      RaisedBefore(lib, states[n - 1], actions[n - 1], id);
    } else {
      RaisesNow(lib, states[n - 1], actions[n - 1], id);
    }
  }

  /** The first step of a save: it raises, goes on with the sealed octets, or ends without doing anything. */
  lemma EncodesExactly(lib: Library, c: Save, ok: bool)
    requires c.pc.Encoding?
    ensures var d := Moved(lib, c, ok, 0);
      && (d.pc.Raised? <==> ok && IsKey(c.key) && Sealed(lib, c.key, c.value) == Unencodable)
      && (d.pc.Opening? <==> ok && IsKey(c.key) && Sealed(lib, c.key, c.value).Octets?)
      && (d.pc.Opening? ==> Sealed(lib, c.key, c.value) == Octets(d.bytes))
      && (d.pc.Raised? || d.pc.Opening? || d == c.(pc := Ended(true)))
  {
    hide Sealed, IsKey;
  }

  // ---------------------------------------------------------------- octets that were written

  /** Writing over the beginning of a file leaves what is behind. */
  lemma OverExactly(was: Bytes, octets: Bytes, r: Bytes)
    ensures r == Over(was, octets)
      <==> && |r| == (if |was| > |octets| then |was| else |octets|)
           && forall i | 0 <= i < |r| :: r[i] == if i < |octets| then octets[i] else was[i]
  {
    var o := Over(was, octets);
    assert |o| == if |was| > |octets| then |was| else |octets|;
    assert forall i | 0 <= i < |o| :: o[i] == if i < |octets| then octets[i] else was[i];
    if |r| == |o| && forall i | 0 <= i < |r| :: r[i] == o[i] { assert r == o; }
  }

  /** A write that fails part of the way leaves the first octets in an empty temporary file, to be cleaned up. */
  lemma PartialWrite(lib: Library, c: Save, written: nat)
    requires c.pc.Writing? && c.temp == Some([]) && written <= |c.bytes|
    ensures Moved(lib, c, false, written) == c.(pc := Cleaning, temp := Some(c.bytes[..written]))
    ensures Moved(lib, c, true, written) == c.(pc := Replacing, temp := Some(c.bytes))
  {
    assert Over([], c.bytes[..written]) == c.bytes[..written] && Over([], c.bytes) == c.bytes;
  }

  // ---------------------------------------------------------------- loads that find nothing

  /** Only a key is ever found, and only where there is a file for it. */
  lemma OnlyKeysAreFound(lib: Library, s: State, key: Str)
    ensures Load(lib, s, key) != Miss ==> IsKey(key) && key in s.files
  {
    hide Open, IsKey;
  }
}
