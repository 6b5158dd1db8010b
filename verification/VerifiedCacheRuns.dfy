/** Concurrent saves and loads of the cache. */
module VerifiedCacheRuns {
  // Any number of saves and loads, with faults at any step and damage at any time.

  import opened Text
  import opened Json
  import opened JsonCanonical
  import opened JsonEncodable
  import opened JsonOctets
  import opened Dictionary
  import opened VerifiedCache

  /** `Raised` is the end of a save whose value cannot be encoded: nothing catches that error. */
  datatype Pc = Encoding | Opening | Writing | Replacing | Cleaning | Ended(clean: bool) | Raised

  /** `published` says that the octets of the save itself were moved to the file of its key. */
  datatype Save = Save(key: Str, value: seq<Field>, pc: Pc, bytes: Bytes, temp: Option<Bytes>, published: bool)

  datatype State = State(files: map<Str, Bytes>, saves: map<nat, Save>)

  datatype Action =
    | Begin(id: nat, key: Str, value: seq<Field>)
    | Step(id: nat, ok: bool, written: nat)
    | DamageFile(key: Str, content: Bytes)
    | DeleteFile(key: Str)
    | DamageTemp(id: nat, left: Option<Bytes>)

  predicate Done(c: Save) {
    c.pc.Ended? || c.pc.Raised?
  }

  /** The argument of a save is a dictionary that Python can have. */
  predicate Enabled(lib: Library, s: State, a: Action) {
    match a
    case Begin(id, _, value) => id !in s.saves && UniqueKeys(Obj(value)) && Proper(lib, Obj(value))
    case Step(id, _, written) => id in s.saves && !Done(s.saves[id]) && written <= |s.saves[id].bytes|
    case DamageFile(key, _) => IsKey(key)
    case DeleteFile(_) => true
    case DamageTemp(id, _) => id in s.saves && s.saves[id].temp.Some?
  }

  /** A file after octets were written over its beginning. */
  function Over(was: Bytes, octets: Bytes): Bytes {
    octets + (if |octets| <= |was| then was[|octets|..] else [])
  }

  /** The save after one of its steps; `ok` is false where an operation fails. */
  function Moved(lib: Library, c: Save, ok: bool, written: nat): Save
    requires !Done(c) && written <= |c.bytes|
  {
    match c.pc
    case Encoding =>
      if !ok || !IsKey(c.key) then c.(pc := Ended(true))
      else
        (match Sealed(lib, c.key, c.value)
         case Unencodable => c.(pc := Raised)
         case TooLong => c.(pc := Ended(true))
         case Octets(b) => c.(pc := Opening, bytes := b))
    case Opening => if ok then c.(pc := Writing, temp := Some([])) else c.(pc := Cleaning)
    case Writing =>
      var now := if c.temp.None? then None else Some(Over(c.temp.value, if ok then c.bytes else c.bytes[..written]));
      c.(pc := if ok then Replacing else Cleaning, temp := now)
    case Replacing =>
      if ok && c.temp.Some? then c.(pc := Cleaning, temp := None, published := c.temp.value == c.bytes)
      else c.(pc := Cleaning)
    case Cleaning =>
      if ok then c.(pc := Ended(true), temp := None) else c.(pc := Ended(c.temp.None?))
  }

  /** The step of a save that moves its temporary file onto the file of its key. */
  predicate Replaces(s: State, a: Action) {
    a.Step? && a.ok && a.id in s.saves && s.saves[a.id].pc.Replacing? && s.saves[a.id].temp.Some?
  }

  function Apply(lib: Library, s: State, a: Action): State
    requires Enabled(lib, s, a)
  {
    match a
    case Begin(id, key, value) => s.(saves := s.saves[id := Save(key, value, Encoding, [], None, false)])
    case Step(id, ok, written) =>
      var c := s.saves[id];
      State(if Replaces(s, a) then s.files[c.key := c.temp.value] else s.files,
        s.saves[id := Moved(lib, c, ok, written)])
    case DamageFile(key, content) => s.(files := s.files[key := content])
    case DeleteFile(key) => s.(files := s.files - {key})
    case DamageTemp(id, left) => s.(saves := s.saves[id := s.saves[id].(temp := left)])
  }

  /** What `load` does if none of its own operations fails; a failure makes it a miss. */
  function Load(lib: Library, s: State, key: Str): Outcome {
    if IsKey(key) && key in s.files then Open(lib, key, s.files[key]) else Miss
  }

  const START := State(map[], map[])

  ghost predicate Run(lib: Library, states: seq<State>, actions: seq<Action>) {
    && |states| == |actions| + 1 && states[0] == START
    && forall i | 0 <= i < |actions| ::
      Enabled(lib, states[i], actions[i]) && states[i + 1] == Apply(lib, states[i], actions[i])
  }

  lemma RunStep(lib: Library, states: seq<State>, actions: seq<Action>, n: nat)
    requires Run(lib, states, actions) && n < |actions|
    ensures |states| == |actions| + 1 && Enabled(lib, states[n], actions[n])
    ensures states[n + 1] == Apply(lib, states[n], actions[n])
  {
    hide Enabled, Apply;
  }

  // ---------------------------------------------------------------- invariant

  ghost predicate SaveOk(lib: Library, c: Save) {
    && UniqueKeys(Obj(c.value)) && Proper(lib, Obj(c.value))
    && (c.pc.Opening? || c.pc.Writing? || c.pc.Replacing? || c.published
      ==> IsKey(c.key) && Sealed(lib, c.key, c.value) == Octets(c.bytes))
    && (c.pc.Encoding? || c.pc == Ended(true) || c.pc.Raised? ==> c.temp == None)
  }

  ghost predicate Inv(lib: Library, s: State) {
    forall id | id in s.saves :: SaveOk(lib, s.saves[id])
  }

  /** A save keeps its key and its value, and what it published stays published. */
  predicate Follows(c: Save, d: Save) {
    c.key == d.key && c.value == d.value && (c.published ==> d.published)
  }

  lemma MovedKeeps(lib: Library, c: Save, ok: bool, written: nat)
    requires !Done(c) && written <= |c.bytes| && SaveOk(lib, c) && (c.published ==> c.pc.Cleaning?)
    ensures var d := Moved(lib, c, ok, written);
      SaveOk(lib, d) && Follows(c, d) && (d.published ==> d.pc.Cleaning? || Done(d))
  {
    hide Sealed, IsKey, UniqueKeys, Proper;
  }

  /** A save that published has nothing left to do but to clean up. */
  ghost predicate Late(s: State) {
    forall id | id in s.saves && s.saves[id].published :: s.saves[id].pc.Cleaning? || Done(s.saves[id])
  }

  /** One save changed, in a way that keeps what it must. */
  lemma OneSaveKeeps(lib: Library, s: State, t: State, id: nat)
    requires Inv(lib, s) && Late(s) && id in t.saves && t.saves == s.saves[id := t.saves[id]]
    requires SaveOk(lib, t.saves[id])
    requires t.saves[id].published ==> t.saves[id].pc.Cleaning? || Done(t.saves[id])
    requires id in s.saves ==> Follows(s.saves[id], t.saves[id])
    ensures Inv(lib, t) && Late(t)
    ensures forall x | x in s.saves :: x in t.saves && Follows(s.saves[x], t.saves[x])
  {
    hide SaveOk;
  }

  lemma StepKeeps(lib: Library, s: State, a: Action)
    requires Inv(lib, s) && Late(s) && Enabled(lib, s, a)
    ensures Inv(lib, Apply(lib, s, a)) && Late(Apply(lib, s, a))
    ensures forall id | id in s.saves ::
        id in Apply(lib, s, a).saves && Follows(s.saves[id], Apply(lib, s, a).saves[id])
  {
    hide Sealed, IsKey, UniqueKeys, Proper;
    match a
    case Begin(id, key, value) => OneSaveKeeps(lib, s, Apply(lib, s, a), id);
    case Step(id, ok, written) =>
      MovedKeeps(lib, s.saves[id], ok, written);
      hide Moved, SaveOk, Follows;
      OneSaveKeeps(lib, s, Apply(lib, s, a), id);
    case DamageTemp(id, left) =>
      assert SaveOk(lib, s.saves[id]);
      OneSaveKeeps(lib, s, Apply(lib, s, a), id);
    case _ =>
  }

  lemma {:induction false} RunKeeps(lib: Library, states: seq<State>, actions: seq<Action>, n: nat)
    requires Run(lib, states, actions) && n < |states|
    ensures Inv(lib, states[n]) && Late(states[n])
  {
    if n > 0 {
      RunKeeps(lib, states, actions, n - 1);
      RunStep(lib, states, actions, n - 1);
      hide Inv, Late, Apply, Enabled;
      StepKeeps(lib, states[n - 1], actions[n - 1]);
    }
  }

  // ---------------------------------------------------------------- which hits were published

  /** A save published this value, order aside, for this key. */
  ghost predicate PublishedValue(s: State, key: Str, value: seq<Field>) {
    exists id | id in s.saves :: s.saves[id].published && s.saves[id].key == key
      && SameValue(Obj(s.saves[id].value), Obj(value))
  }

  /** The octets that an action puts into the file of a key although no save sealed them for it. */
  function Foreign(s: State, a: Action): Option<(Str, Bytes)> {
    match a
    case DamageFile(key, content) => Some((key, content))
    case Step(id, _, _) =>
      if Replaces(s, a) && s.saves[id].temp.value != s.saves[id].bytes then
        Some((s.saves[id].key, s.saves[id].temp.value))
      else None
    case _ => None
  }

  /** Whatever envelope the octets are, a save published its value for the key. */
  ghost predicate Harmless(lib: Library, s: State, key: Str, raw: Bytes) {
    forall value | UniqueKeys(Obj(value)) && Seals(lib, key, value, raw) :: PublishedValue(s, key, value)
  }

  ghost predicate HitPublished(lib: Library, s: State, key: Str) {
    Load(lib, s, key).Hit? ==> PublishedValue(s, key, Load(lib, s, key).value)
  }

  lemma PublishedStays(lib: Library, s: State, a: Action, key: Str, value: seq<Field>)
    requires Inv(lib, s) && Late(s) && Enabled(lib, s, a) && PublishedValue(s, key, value)
    ensures PublishedValue(Apply(lib, s, a), key, value)
  {
    StepKeeps(lib, s, a);
    var id :|
      id in s.saves && s.saves[id].published && s.saves[id].key == key && SameValue(Obj(s.saves[id].value), Obj(value));
    hide Apply, Enabled, SameValue;
    assert Follows(s.saves[id], Apply(lib, s, a).saves[id]);
  }

  /** Putting foreign octets into a file publishes nothing. */
  lemma ForeignPublishesNothing(lib: Library, s: State, a: Action, key: Str, value: seq<Field>)
    requires Enabled(lib, s, a) && Foreign(s, a).Some? && PublishedValue(Apply(lib, s, a), key, value)
    ensures PublishedValue(s, key, value)
  {
    var t := Apply(lib, s, a);
    var id :|
      id in t.saves && t.saves[id].published && t.saves[id].key == key && SameValue(Obj(t.saves[id].value), Obj(value));
    hide SameValue, UniqueKeys, Proper, IsKey, Sealed;
    assert s.saves[id] == t.saves[id];
  }

  /** Where the content of a file after a step comes from. */
  lemma FileFrom(lib: Library, s: State, a: Action, key: Str)
    requires Inv(lib, s) && Enabled(lib, s, a) && key in Apply(lib, s, a).files
    ensures var t := Apply(lib, s, a);
      || (key in s.files && t.files[key] == s.files[key])
      || Foreign(s, a) == Some((key, t.files[key]))
      || (a.Step? && t.saves[a.id].published && t.saves[a.id].key == key && SaveOk(lib, t.saves[a.id])
        && t.saves[a.id].bytes == t.files[key])
  {
    hide Sealed, IsKey, UniqueKeys, Proper;
    if Replaces(s, a) { assert SaveOk(lib, s.saves[a.id]); }
  }

  lemma ForeignArrives(lib: Library, s: State, a: Action)
    requires Inv(lib, s) && Enabled(lib, s, a) && Foreign(s, a).Some?
    ensures var (key, raw) := Foreign(s, a).value;
      IsKey(key) && key in Apply(lib, s, a).files && Apply(lib, s, a).files[key] == raw
  {
    hide Sealed, IsKey, UniqueKeys, Proper;
    if Replaces(s, a) { assert SaveOk(lib, s.saves[a.id]); }
  }

  /** What a save sealed opens as its value, which that save published. */
  lemma OwnHit(lib: Library, t: State, id: nat, key: Str)
    requires Faithful(lib) && id in t.saves && t.saves[id].published && t.saves[id].key == key
    requires SaveOk(lib, t.saves[id])
    ensures Open(lib, key, t.saves[id].bytes) == Hit(Received(t.saves[id].value))
    ensures PublishedValue(t, key, Received(t.saves[id].value))
  {
    var c := t.saves[id];
    hide Sealed, Open, Faithful, UniqueKeys, Proper, SameValue, IsKey;
    SealedOpens(lib, key, c.value);
    LoadedIsSame(c.value);
  }

  lemma HitUnique(lib: Library, key: Str, raw: Bytes)
    requires Faithful(lib) && Open(lib, key, raw).Hit?
    ensures UniqueKeys(Obj(Open(lib, key, raw).value)) && Seals(lib, key, Open(lib, key, raw).value, raw)
  {
    var value := Open(lib, key, raw).value;
    LoadOctetsFacts(lib, raw);
    PartsUnique(LoadOctets(lib, raw).value, key);
    hide Open, LoadOctets, UniqueKeys, SameValue, Faithful, Seals;
    SameItself(Obj(value));
    HitExactly(lib, key, value, raw);
  }

  /** One step: a hit that is new was published, unless foreign octets are that hit. */
  lemma StepHits(lib: Library, s: State, a: Action, key: Str)
    requires Faithful(lib) && Inv(lib, s) && Late(s) && Enabled(lib, s, a) && HitPublished(lib, s, key)
    requires Foreign(s, a).Some? ==> Harmless(lib, s, Foreign(s, a).value.0, Foreign(s, a).value.1)
    ensures HitPublished(lib, Apply(lib, s, a), key)
  {
    var t := Apply(lib, s, a);
    if Load(lib, t, key).Hit? {
      var value := Load(lib, t, key).value;
      FileFrom(lib, s, a, key);
      hide Open, Faithful, Inv, Late, Enabled, Apply, PublishedValue, SaveOk, Seals, UniqueKeys, IsKey, Foreign;
      if key in s.files && t.files[key] == s.files[key] {
        PublishedStays(lib, s, a, key, value);
      } else if Foreign(s, a) == Some((key, t.files[key])) {
        HitUnique(lib, key, t.files[key]);
        PublishedStays(lib, s, a, key, value);
      } else {
        OwnHit(lib, t, a.id, key);
      }
    }
  }

  lemma {:induction false} RunHits(lib: Library, states: seq<State>, actions: seq<Action>, n: nat, key: Str)
    requires Faithful(lib) && Run(lib, states, actions) && n < |states| && ForeignHarmless(lib, states, actions)
    ensures HitPublished(lib, states[n], key)
  {
    if n > 0 {
      RunHits(lib, states, actions, n - 1, key);
      RunKeeps(lib, states, actions, n - 1);
      RunStep(lib, states, actions, n - 1);
      assert HarmlessAt(lib, states[n - 1], actions[n - 1]);
      hide Inv, Late, Apply, Enabled, Harmless, HitPublished, Foreign, Faithful;
      StepHits(lib, states[n - 1], actions[n - 1], key);
    }
  }

  ghost predicate HarmlessAt(lib: Library, s: State, a: Action) {
    Foreign(s, a).Some? ==> Harmless(lib, s, Foreign(s, a).value.0, Foreign(s, a).value.1)
  }

  /** Whenever octets come into a file that no save sealed, they are nothing or what was published. */
  ghost predicate ForeignHarmless(lib: Library, states: seq<State>, actions: seq<Action>)
    requires |states| == |actions| + 1
  {
    forall n | 0 <= n < |actions| :: HarmlessAt(lib, states[n], actions[n])
  }

  /** At every moment, every hit is a value that a save published for that key. */
  ghost predicate HitsPublished(lib: Library, states: seq<State>) {
    forall n, key | 0 <= n < |states| :: HitPublished(lib, states[n], key)
  }

  /** One foreign content that decodes to an unpublished envelope is a hit that no save published. */
  lemma ForeignHits(lib: Library, s: State, a: Action, value: seq<Field>)
    requires Faithful(lib) && Inv(lib, s) && Enabled(lib, s, a) && Foreign(s, a).Some? && UniqueKeys(Obj(value))
    requires Seals(lib, Foreign(s, a).value.0, value, Foreign(s, a).value.1)
    requires HitPublished(lib, Apply(lib, s, a), Foreign(s, a).value.0)
    ensures PublishedValue(s, Foreign(s, a).value.0, value)
  {
    var t := Apply(lib, s, a);
    var (key, raw) := Foreign(s, a).value;
    ForeignArrives(lib, s, a);
    hide Open, Faithful, Enabled, Apply, SaveOk, Seals, UniqueKeys, IsKey, SameValue, Foreign;
    HitExactly(lib, key, value, raw);
    HitUnique(lib, key, raw);
    var hit := Load(lib, t, key).value;
    assert PublishedValue(t, key, hit);
    ForeignPublishesNothing(lib, s, a, key, hit);
    var id :|
      id in s.saves && s.saves[id].published && s.saves[id].key == key && SameValue(Obj(s.saves[id].value), Obj(hit));
    assert UniqueKeys(Obj(s.saves[id].value)) by { assert SaveOk(lib, s.saves[id]); SaveUnique(lib, s.saves[id]); }
    SameBothWays(Obj(value), Obj(hit));
    SameCarries(Obj(s.saves[id].value), Obj(hit), Obj(value));
  }

  lemma SaveUnique(lib: Library, c: Save)
    requires SaveOk(lib, c)
    ensures UniqueKeys(Obj(c.value))
  {
  }

  /**
   Every hit of a run was published by a save for that key, if and only if no octets ever come into a
   file, other than those a save sealed, that decode to the envelope of a value not published by then.
   */
  lemma HitsPublishedExactly(lib: Library, states: seq<State>, actions: seq<Action>)
    requires Faithful(lib) && Run(lib, states, actions)
    ensures HitsPublished(lib, states) <==> ForeignHarmless(lib, states, actions)
  {
    hide HitPublished, Faithful, Apply, Enabled, Foreign, Seals, UniqueKeys, PublishedValue;
    if ForeignHarmless(lib, states, actions) {
      forall n, key | 0 <= n < |states|
        ensures HitPublished(lib, states[n], key)
      {
        RunHits(lib, states, actions, n, key);
      }
    }
    if HitsPublished(lib, states) {
      forall n | 0 <= n < |actions| ensures HarmlessAt(lib, states[n], actions[n]) {
        if Foreign(states[n], actions[n]).Some? {
          RunKeeps(lib, states, actions, n);
          var (key, raw) := Foreign(states[n], actions[n]).value;
          assert HitPublished(lib, states[n + 1], key);
          forall value | UniqueKeys(Obj(value)) && Seals(lib, key, value, raw)
            ensures PublishedValue(states[n], key, value)
          {
            ForeignHits(lib, states[n], actions[n], value);
          }
        }
      }
    }
  }

  // ---------------------------------------------------------------- when a load raises

  ghost predicate NeverRaises(lib: Library, states: seq<State>) {
    forall n, key | 0 <= n < |states| :: Load(lib, states[n], key) != Raises
  }

  predicate PoisonsNothing(lib: Library, s: State, a: Action) {
    Foreign(s, a).Some? ==> !Poisoned(lib, Foreign(s, a).value.0, Foreign(s, a).value.1)
  }

  lemma StepRaises(lib: Library, s: State, a: Action, key: Str)
    requires Faithful(lib) && Inv(lib, s) && Enabled(lib, s, a) && Load(lib, s, key) != Raises
    requires PoisonsNothing(lib, s, a)
    ensures Load(lib, Apply(lib, s, a), key) != Raises
  {
    var t := Apply(lib, s, a);
    if IsKey(key) && key in t.files {
      FileFrom(lib, s, a, key);
      hide Open, Faithful, Inv, Enabled, Apply, PublishedValue, SaveOk, IsKey, Foreign, Poisoned;
      if Foreign(s, a) == Some((key, t.files[key])) {
        LoadRaisesExactly(lib, key, t.files[key]);
      } else if !(key in s.files && t.files[key] == s.files[key]) {
        OwnHit(lib, t, a.id, key);
      }
    }
  }

  lemma {:induction false} RunRaises(lib: Library, states: seq<State>, actions: seq<Action>, n: nat, key: Str)
    requires Faithful(lib) && Run(lib, states, actions) && n < |states|
    requires forall i | 0 <= i < |actions| :: PoisonsNothing(lib, states[i], actions[i])
    ensures Load(lib, states[n], key) != Raises
  {
    if n > 0 {
      RunRaises(lib, states, actions, n - 1, key);
      RunKeeps(lib, states, actions, n - 1);
      RunStep(lib, states, actions, n - 1);
      assert PoisonsNothing(lib, states[n - 1], actions[n - 1]);
      hide Inv, Late, Apply, Enabled, Load, PoisonsNothing, Faithful;
      StepRaises(lib, states[n - 1], actions[n - 1], key);
    }
  }

  /**
   No load of a run raises, if and only if no octets that no save sealed ever come into a file with an
   envelope for its key whose value cannot be encoded. So a cache that nothing damages never raises.
   */
  lemma LoadsRaiseExactly(lib: Library, states: seq<State>, actions: seq<Action>)
    requires Faithful(lib) && Run(lib, states, actions)
    ensures NeverRaises(lib, states) <==> forall n | 0 <= n < |actions| :: PoisonsNothing(lib, states[n], actions[n])
  {
    hide Faithful, Apply, Enabled, Foreign, Open, Poisoned, IsKey;
    if forall n | 0 <= n < |actions| :: PoisonsNothing(lib, states[n], actions[n]) {
      forall n, key | 0 <= n < |states|
        ensures Load(lib, states[n], key) != Raises
      {
        RunRaises(lib, states, actions, n, key);
      }
    }
    if NeverRaises(lib, states) {
      forall n | 0 <= n < |actions| ensures PoisonsNothing(lib, states[n], actions[n]) {
        if Foreign(states[n], actions[n]).Some? {
          RunKeeps(lib, states, actions, n);
          var (key, raw) := Foreign(states[n], actions[n]).value;
          ForeignArrives(lib, states[n], actions[n]);
          assert Load(lib, states[n + 1], key) != Raises;
          LoadRaisesExactly(lib, key, raw);
        }
      }
    }
  }

  // ---------------------------------------------------------------- what saves promise

  /** The action changes the file of the key. */
  predicate Touches(s: State, a: Action, key: Str) {
    match a
    case DamageFile(k, _) => k == key
    case DeleteFile(k) => k == key
    case Step(id, _, _) => Replaces(s, a) && s.saves[id].key == key
    case _ => false
  }

  lemma Untouched(lib: Library, s: State, a: Action, key: Str)
    requires Enabled(lib, s, a) && !Touches(s, a, key)
    ensures key in Apply(lib, s, a).files <==> key in s.files
    ensures key in s.files ==> Apply(lib, s, a).files[key] == s.files[key]
  {
    hide UniqueKeys, Proper, IsKey, Moved;
  }

  ghost predicate Holds(s: State, key: Str, raw: Bytes) {
    key in s.files && s.files[key] == raw
  }

  lemma {:induction false} HeldUntilTouched(lib: Library, states: seq<State>, actions: seq<Action>, i: nat, n: nat,
          key: Str, raw: Bytes)
    requires Run(lib, states, actions) && i <= n < |states| && Holds(states[i], key, raw)
    requires forall j | i <= j < n :: !Touches(states[j], actions[j], key)
    ensures Holds(states[n], key, raw)
  {
    if n > i {
      RunStep(lib, states, actions, n - 1);
      HeldUntilTouched(lib, states, actions, i, n - 1, key, raw);
      assert !Touches(states[n - 1], actions[n - 1], key);
      hide *;
      HeldOneStep(lib, states[n - 1], actions[n - 1], key, raw);
    }
  }

  lemma HeldOneStep(lib: Library, s: State, a: Action, key: Str, raw: Bytes)
    requires Enabled(lib, s, a) && !Touches(s, a, key) && Holds(s, key, raw)
    ensures Holds(Apply(lib, s, a), key, raw)
  {
    Untouched(lib, s, a, key);
    hide Apply, Enabled, Touches;
  }

  /** The file that a save published is a hit with its value for as long as nothing changes that file. */
  lemma PublishedUntilTouched(lib: Library, states: seq<State>, actions: seq<Action>, i: nat, n: nat)
    requires Faithful(lib) && Run(lib, states, actions) && i < n < |states|
    requires Replaces(states[i], actions[i]) && Foreign(states[i], actions[i]).None?
    requires forall j | i < j < n :: !Touches(states[j], actions[j], states[i].saves[actions[i].id].key)
    ensures var c := states[i].saves[actions[i].id];
      Holds(states[n], c.key, c.bytes) && Load(lib, states[n], c.key) == Hit(Received(c.value))
  {
    var c := states[i].saves[actions[i].id];
    RunKeeps(lib, states, actions, i);
    RunStep(lib, states, actions, i);
    PublishStep(lib, states[i], actions[i]);
    HeldUntilTouched(lib, states, actions, i + 1, n, c.key, c.bytes);
    SameFileLoads(lib, states[i + 1], states[n], c.key, c.bytes);
  }

  lemma SameFileLoads(lib: Library, s: State, t: State, key: Str, raw: Bytes)
    requires Holds(s, key, raw) && Holds(t, key, raw)
    ensures Load(lib, s, key) == Load(lib, t, key)
  {
    hide Open, IsKey;
  }

  lemma PublishStep(lib: Library, s: State, a: Action)
    requires Faithful(lib) && Inv(lib, s) && Enabled(lib, s, a) && Replaces(s, a) && Foreign(s, a).None?
    ensures var c, t := s.saves[a.id], Apply(lib, s, a);
      Holds(t, c.key, c.bytes) && Load(lib, t, c.key) == Hit(Received(c.value))
  {
    var c, t := s.saves[a.id], Apply(lib, s, a);
    assert SaveOk(lib, c);
    assert Holds(t, c.key, c.bytes) && IsKey(c.key) by {
      hide Sealed, Open, Faithful, UniqueKeys, Proper, IsKey, Received, Moved;
    }
    SaveOpens(lib, c);
    hide *;
    HeldLoads(lib, t, c.key, c.bytes);
  }

  lemma SaveOpens(lib: Library, c: Save)
    requires Faithful(lib) && SaveOk(lib, c) && c.pc.Replacing?
    ensures Open(lib, c.key, c.bytes) == Hit(Received(c.value))
  {
    hide Sealed, Open, Faithful, UniqueKeys, Proper, IsKey, Received;
    SealedOpens(lib, c.key, c.value);
  }

  lemma HeldLoads(lib: Library, t: State, key: Str, raw: Bytes)
    requires Holds(t, key, raw) && IsKey(key)
    ensures Load(lib, t, key) == Open(lib, key, raw)
  {
    hide Open, IsKey;
  }

  /** A save that ended with its clean-up done, or by raising, leaves no temporary file of its own. */
  lemma CleanEndLeavesNothing(lib: Library, states: seq<State>, actions: seq<Action>, n: nat, id: nat)
    requires Run(lib, states, actions) && n < |states| && id in states[n].saves
    requires states[n].saves[id].pc == Ended(true) || states[n].saves[id].pc == Raised
    ensures states[n].saves[id].temp == None
  {
    RunKeeps(lib, states, actions, n);
    assert SaveOk(lib, states[n].saves[id]);
  }

  /** A step of a save that does not fail. */
  function Fine(lib: Library, s: State, id: nat): State
    requires id in s.saves && !Done(s.saves[id])
  {
    Apply(lib, s, Step(id, true, 0))
  }

  /** A save that meets no fault and no damage publishes its value, cleans up, and is loaded back. */
  lemma FaultFreeSaveIsLoaded(lib: Library, s: State, id: nat)
    requires Faithful(lib) && id in s.saves && UniqueKeys(Obj(s.saves[id].value)) && Proper(lib, Obj(s.saves[id].value))
    requires s.saves[id].pc == Encoding && s.saves[id].temp == None
    requires IsKey(s.saves[id].key) && Sealed(lib, s.saves[id].key, s.saves[id].value).Octets?
    ensures var t := Fine(lib, Fine(lib, Fine(lib, Fine(lib, Fine(lib, s, id), id), id), id), id);
      t.saves[id].pc == Ended(true) && t.saves[id].temp == None && t.saves[id].published
      && Load(lib, t, s.saves[id].key) == Hit(Received(s.saves[id].value))
  {
    hide Sealed, Open, Faithful, UniqueKeys, IsKey, Proper;
    SealedOpens(lib, s.saves[id].key, s.saves[id].value);
  }

  /**
   That every hit was published is false of some runs: for every key and every value that could be saved
   there is a run without any save in which damage makes the value a hit.
   */
  lemma DamageCanForge(lib: Library, key: Str, value: seq<Field>) returns (states: seq<State>, actions: seq<Action>)
    requires Faithful(lib) && IsKey(key) && UniqueKeys(Obj(value)) && Proper(lib, Obj(value))
    requires Sealed(lib, key, value).Octets?
    ensures Run(lib, states, actions) && states[|actions|].saves == map[]
    ensures Load(lib, states[|actions|], key) == Hit(Received(value)) && !HitsPublished(lib, states)
  {
    hide Sealed, Open, Faithful, UniqueKeys, IsKey, Proper, Received, PublishedValue;
    var raw := Sealed(lib, key, value).octets;
    actions := [DamageFile(key, raw)];
    states := [START, State(map[key := raw], map[])];
    SealedOpens(lib, key, value);
    NoSaveNoValue(states[1], key, Received(value));
    assert !HitPublished(lib, states[1], key);
  }

  lemma NoSaveNoValue(s: State, key: Str, value: seq<Field>)
    requires s.saves == map[]
    ensures !PublishedValue(s, key, value)
  {
  }
}
