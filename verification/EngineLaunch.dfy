/** The worker launch message. */
module EngineLaunch {
  // Accepted octets and launches are in bijection.

  import opened Text
  import opened Json
  import opened Dictionary
  import opened JsonCanonical
  import opened EngineContracts
  import opened EngineWire
  import opened EngineFrames

  // ---------------------------------------------------------------- entries of the nested dictionaries

  lemma OwnerEntries(o: ResourceOwner)
    ensures var f := OwnerPayload(o);
      DistinctKeys(f) && KeySet(f) == OwnerKeys() && |f| == 3
      && (forall i | 0 <= i < 3 :: !f[i].value.Arr? && !f[i].value.Obj?)
      && Get(f, KEY_WORKSPACE_IDENTITY) == Text(o.workspaceIdentity)
      && Get(f, KEY_PROCESS_INSTANCE_ID) == Text(o.processInstanceId)
      && Get(f, KEY_PROCESS_ID) == (if o.processId.None? then Null else Int(o.processId.value))
  {
    var f := OwnerPayload(o);
    assert |f[0].key| == 18 && |f[1].key| == 19 && |f[2].key| == 10;
    hide Get, KeySet, Lit;
    GetAt(f, 0); GetAt(f, 1); GetAt(f, 2);
    OwnerKeysAre(f);
  }

  lemma OwnerKeysAre(f: seq<Field>)
    requires |f| == 3 && f[0].key == KEY_WORKSPACE_IDENTITY && f[1].key == KEY_PROCESS_INSTANCE_ID
    requires f[2].key == KEY_PROCESS_ID
    ensures KeySet(f) == OwnerKeys()
  {
    hide Lit;
  }

  lemma AuthorityEntries(a: JobAuthority)
    ensures var f := AuthorityPayload(a);
      DistinctKeys(f) && KeySet(f) == AuthorityKeys() && |f| == 3
      && (forall i | 0 <= i < 3 :: !f[i].value.Arr? && !f[i].value.Obj?)
      && Get(f, KEY_JOB_ID) == Text(a.jobId) && Get(f, KEY_OWNER_ID) == Text(a.ownerId)
      && Get(f, KEY_FENCING_TOKEN) == Int(a.fencingToken)
  {
    var f := AuthorityPayload(a);
    assert |f[0].key| == 6 && |f[1].key| == 8 && |f[2].key| == 13;
    hide Get, KeySet, Lit;
    GetAt(f, 0); GetAt(f, 1); GetAt(f, 2);
    AuthorityKeysAre(f);
  }

  lemma AuthorityKeysAre(f: seq<Field>)
    requires |f| == 3 && f[0].key == KEY_JOB_ID && f[1].key == KEY_OWNER_ID && f[2].key == KEY_FENCING_TOKEN
    ensures KeySet(f) == AuthorityKeys()
  {
    hide Lit;
  }

  lemma HandoffKeysDiffer()
    ensures |KEY_HANDOFF_VERSION| == 15 && |KEY_RESOURCE_NAME| == 13 && |KEY_OWNER| == 5
    ensures |KEY_FENCING_TOKEN| == 13 && |KEY_EXPIRES_AT_MS| == 13 && |KEY_NONCE| == 5
    ensures KEY_RESOURCE_NAME[0] != KEY_FENCING_TOKEN[0] && KEY_RESOURCE_NAME[0] != KEY_EXPIRES_AT_MS[0]
    ensures KEY_FENCING_TOKEN[0] != KEY_EXPIRES_AT_MS[0] && KEY_OWNER[0] != KEY_NONCE[0]
  {
  }

  lemma HandoffEntries(h: ResourceHandoff)
    ensures var f := HandoffPayload(h);
      DistinctKeys(f) && KeySet(f) == HandoffKeys() && |f| == 6
      && (forall i | 0 <= i < 6 && i != 2 :: !f[i].value.Arr? && !f[i].value.Obj?)
      && f[2].value == Obj(OwnerPayload(h.owner))
      && Get(f, KEY_HANDOFF_VERSION) == Int(1) && Get(f, KEY_RESOURCE_NAME) == Text(h.resourceName)
      && Get(f, KEY_OWNER) == Obj(OwnerPayload(h.owner)) && Get(f, KEY_FENCING_TOKEN) == Int(h.fencingToken)
      && Get(f, KEY_EXPIRES_AT_MS) == Int(h.expiresAtMs) && Get(f, KEY_NONCE) == Text(h.nonce)
  {
    hide Get, KeySet, OwnerPayload;
    HandoffKeysDiffer();
    hide Lit;
    var f := HandoffPayload(h);
    assert |f[0].key| == 15 && |f[1].key| == 13 && |f[2].key| == 5 && |f[3].key| == 13 && |f[4].key| == 13
      && |f[5].key| == 5;
    GetAt(f, 0); GetAt(f, 1); GetAt(f, 2); GetAt(f, 3); GetAt(f, 4); GetAt(f, 5);
    HandoffKeysAre(f);
  }

  lemma HandoffKeysAre(f: seq<Field>)
    requires |f| == 6 && f[0].key == KEY_HANDOFF_VERSION && f[1].key == KEY_RESOURCE_NAME && f[2].key == KEY_OWNER
    requires f[3].key == KEY_FENCING_TOKEN && f[4].key == KEY_EXPIRES_AT_MS && f[5].key == KEY_NONCE
    ensures KeySet(f) == HandoffKeys()
  {
    hide Lit;
  }

  lemma LaunchEntries(l: WorkerLaunch)
    ensures var f := LaunchPayload(l);
      DistinctKeys(f) && KeySet(f) == LaunchKeys() && |f| == 4
      && f[0].value == Int(1) && f[1].value == Obj(ReferencePayload(l.reference))
      && f[2].value == Obj(HandoffPayload(l.handoff)) && f[3].value == Obj(AuthorityPayload(l.authority))
      && Get(f, KEY_LAUNCH_VERSION) == Int(1) && Get(f, KEY_REFERENCE) == Obj(ReferencePayload(l.reference))
      && Get(f, KEY_RESOURCE_HANDOFF) == Obj(HandoffPayload(l.handoff))
      && Get(f, KEY_JOB_AUTHORITY) == Obj(AuthorityPayload(l.authority))
  {
    var f := LaunchPayload(l);
    assert |f[0].key| == 14 && |f[1].key| == 9 && |f[2].key| == 16 && |f[3].key| == 13;
    hide Get, KeySet, Lit, ReferencePayload, HandoffPayload, AuthorityPayload;
    GetAt(f, 0); GetAt(f, 1); GetAt(f, 2); GetAt(f, 3);
    LaunchKeysAre(f);
  }

  lemma LaunchKeysAre(f: seq<Field>)
    requires |f| == 4 && f[0].key == KEY_LAUNCH_VERSION && f[1].key == KEY_REFERENCE
    requires f[2].key == KEY_RESOURCE_HANDOFF && f[3].key == KEY_JOB_AUTHORITY
    ensures KeySet(f) == LaunchKeys()
  {
    hide Lit;
  }

  lemma HandoffUnique(h: ResourceHandoff)
    ensures UniqueKeys(Obj(HandoffPayload(h)))
  {
    hide Get, KeySet, Lit, DistinctKeys, HandoffPayload, OwnerPayload;
    HandoffEntries(h);
    OwnerEntries(h.owner);
    ScalarUnique(OwnerPayload(h.owner));
  }

  lemma LaunchUnique(l: WorkerLaunch)
    ensures UniqueKeys(Obj(LaunchPayload(l)))
  {
    hide Get, KeySet, Lit, DistinctKeys, LaunchPayload, ReferencePayload, HandoffPayload, AuthorityPayload;
    LaunchEntries(l);
    AuthorityEntries(l.authority);
    ScalarUnique(AuthorityPayload(l.authority));
    FourUnique(LaunchPayload(l), l);
  }

  lemma FourUnique(f: seq<Field>, l: WorkerLaunch)
    requires DistinctKeys(f) && |f| == 4 && f[0].value == Int(1)
    requires f[1].value == Obj(ReferencePayload(l.reference)) && f[2].value == Obj(HandoffPayload(l.handoff))
    requires f[3].value == Obj(AuthorityPayload(l.authority)) && UniqueKeys(f[3].value)
    ensures UniqueKeys(Obj(f))
  {
    hide Lit, DistinctKeys, ReferencePayload, HandoffPayload, AuthorityPayload;
    ReferenceUnique(l.reference);
    HandoffUnique(l.handoff);
    forall i | 0 <= i < 4 ensures UniqueKeys(f[i].value) {
    }
  }

  lemma ScalarUnique(f: seq<Field>)
    requires DistinctKeys(f) && forall i | 0 <= i < |f| :: !f[i].value.Arr? && !f[i].value.Obj?
    ensures UniqueKeys(Obj(f))
  {
  }

  lemma ReferenceUnique(r: JobReference)
    ensures UniqueKeys(Obj(ReferencePayload(r)))
  {
    var f := ReferencePayload(r);
    assert forall i | 0 <= i < |f| :: !f[i].value.Arr? && !f[i].value.Obj?;
    hide Get, KeySet, Lit, DistinctKeys, ReferencePayload;
    ReferenceEntries(r);
    ScalarUnique(f);
  }

  // ---------------------------------------------------------------- the same launch from its own fields

  /** Dictionaries that hold the entries of a launch, nested dictionaries in any order. */
  ghost predicate Holds(f: seq<Field>, l: WorkerLaunch) {
    && KeySet(f) == LaunchKeys() && Get(f, KEY_LAUNCH_VERSION) == Int(1)
    && Get(f, KEY_REFERENCE).Obj? && Get(f, KEY_RESOURCE_HANDOFF).Obj? && Get(f, KEY_JOB_AUTHORITY).Obj?
    && HoldsReference(Get(f, KEY_REFERENCE).fields, l.reference)
    && HoldsHandoff(Get(f, KEY_RESOURCE_HANDOFF).fields, l.handoff)
    && HoldsAuthority(Get(f, KEY_JOB_AUTHORITY).fields, l.authority)
  }

  ghost predicate HoldsReference(f: seq<Field>, r: JobReference) {
    KeySet(f) == ReferenceKeys() && Get(f, KEY_WORKSPACE_INSTANCE_ID) == Text(r.workspaceInstanceId)
    && Get(f, KEY_JOB_ID) == Text(r.jobId)
  }

  ghost predicate HoldsOwner(f: seq<Field>, o: ResourceOwner) {
    KeySet(f) == OwnerKeys() && Get(f, KEY_WORKSPACE_IDENTITY) == Text(o.workspaceIdentity)
    && Get(f, KEY_PROCESS_INSTANCE_ID) == Text(o.processInstanceId)
    && Get(f, KEY_PROCESS_ID) == (if o.processId.None? then Null else Int(o.processId.value))
  }

  ghost predicate HoldsHandoff(f: seq<Field>, h: ResourceHandoff) {
    && KeySet(f) == HandoffKeys() && Get(f, KEY_HANDOFF_VERSION) == Int(1)
    && Get(f, KEY_RESOURCE_NAME) == Text(h.resourceName)
    && Get(f, KEY_OWNER).Obj? && HoldsOwner(Get(f, KEY_OWNER).fields, h.owner)
    && Get(f, KEY_FENCING_TOKEN) == Int(h.fencingToken)
    && Get(f, KEY_EXPIRES_AT_MS) == Int(h.expiresAtMs) && Get(f, KEY_NONCE) == Text(h.nonce)
  }

  ghost predicate HoldsAuthority(f: seq<Field>, a: JobAuthority) {
    KeySet(f) == AuthorityKeys() && Get(f, KEY_JOB_ID) == Text(a.jobId) && Get(f, KEY_OWNER_ID) == Text(a.ownerId)
    && Get(f, KEY_FENCING_TOKEN) == Int(a.fencingToken)
  }

  /** Every part of the launch is one its constructor returns. */
  ghost predicate Constructed(lib: Library, l: WorkerLaunch) {
    && (exists w, j :: NewReference(w, j) == Ok(l.reference))
    && (exists w, i, p :: NewOwner(w, i, p) == Ok(l.handoff.owner))
    && (exists v, n, t, e, s :: NewHandoff(v, n, l.handoff.owner, t, e, s) == Ok(l.handoff))
    && (exists j, o, t :: NewAuthority(lib, j, o, t) == Ok(l.authority))
    && (exists v :: NewLaunch(v, l.reference, l.handoff, l.authority) == Ok(l))
  }

  lemma OwnerAgain(f: seq<Field>, o: ResourceOwner)
    requires HoldsOwner(f, o) && exists w, i, p :: NewOwner(w, i, p) == Ok(o)
    ensures NewOwner(Get(f, KEY_WORKSPACE_IDENTITY), Get(f, KEY_PROCESS_INSTANCE_ID), Get(f, KEY_PROCESS_ID)) == Ok(o)
  {
    hide Get, KeySet, Lit;
    var w, i, p :| NewOwner(w, i, p) == Ok(o);
  }

  lemma HandoffAgain(f: seq<Field>, h: ResourceHandoff)
    requires HoldsHandoff(f, h) && exists w, i, p :: NewOwner(w, i, p) == Ok(h.owner)
    requires exists v, n, t, e, s :: NewHandoff(v, n, h.owner, t, e, s) == Ok(h)
    ensures HandoffFromFields(f) == Ok(h)
  {
    hide Get, KeySet, Lit, Base64Decode, NewOwner, IsNonceText;
    OwnerAgain(Get(f, KEY_OWNER).fields, h.owner);
    var v, n, t, e, s :| NewHandoff(v, n, h.owner, t, e, s) == Ok(h);
  }

  lemma AuthorityAgain(lib: Library, f: seq<Field>, a: JobAuthority)
    requires HoldsAuthority(f, a) && exists j, o, t :: NewAuthority(lib, j, o, t) == Ok(a)
    ensures NewAuthority(lib, Get(f, KEY_JOB_ID), Get(f, KEY_OWNER_ID), Get(f, KEY_FENCING_TOKEN)) == Ok(a)
  {
    hide Get, KeySet, Lit, IsDecimalText;
    var j, o, t :| NewAuthority(lib, j, o, t) == Ok(a);
  }

  lemma ReferenceAgain(f: seq<Field>, r: JobReference)
    requires HoldsReference(f, r) && exists w, j :: NewReference(w, j) == Ok(r)
    ensures NewReference(Get(f, KEY_WORKSPACE_INSTANCE_ID), Get(f, KEY_JOB_ID)) == Ok(r)
  {
    hide Get, KeySet, Lit;
    var w, j :| NewReference(w, j) == Ok(r);
    ReferenceFacts(w, j, r);
  }

  /** Fields that hold a constructed launch are read as that launch. */
  lemma LaunchAgain(lib: Library, f: seq<Field>, l: WorkerLaunch)
    requires Holds(f, l) && Constructed(lib, l)
    ensures LaunchFromFields(lib, f) == Ok(l)
  {
    hide Get, KeySet, Lit, NewReference, NewAuthority, HandoffFromFields, NewOwner, NewHandoff;
    ReferenceAgain(Get(f, KEY_REFERENCE).fields, l.reference);
    HandoffAgain(Get(f, KEY_RESOURCE_HANDOFF).fields, l.handoff);
    AuthorityAgain(lib, Get(f, KEY_JOB_AUTHORITY).fields, l.authority);
    var v :| NewLaunch(v, l.reference, l.handoff, l.authority) == Ok(l);
  }

  lemma ReferenceRead(f: seq<Field>, r: JobReference)
    requires KeySet(f) == ReferenceKeys()
    requires NewReference(Get(f, KEY_WORKSPACE_INSTANCE_ID), Get(f, KEY_JOB_ID)) == Ok(r)
    ensures HoldsReference(f, r) && exists w, j :: NewReference(w, j) == Ok(r)
  {
    hide Get, KeySet, Lit, IsHexText, IsJobId;
  }

  lemma HandoffRead(f: seq<Field>, h: ResourceHandoff)
    requires KeySet(f) == HandoffKeys()
    requires Get(f, KEY_OWNER).Obj? && KeySet(Get(f, KEY_OWNER).fields) == OwnerKeys()
    requires HandoffFromFields(f) == Ok(h)
    ensures HoldsHandoff(f, h) && (exists w, i, p :: NewOwner(w, i, p) == Ok(h.owner))
    ensures exists v, n, t, e, s :: NewHandoff(v, n, h.owner, t, e, s) == Ok(h)
  {
    hide Get, KeySet, Lit, Base64Decode, IsNonceText;
    var o := Get(f, KEY_OWNER).fields;
    assert NewOwner(Get(o, KEY_WORKSPACE_IDENTITY), Get(o, KEY_PROCESS_INSTANCE_ID), Get(o, KEY_PROCESS_ID))
      == Ok(h.owner);
    assert NewHandoff(Get(f, KEY_HANDOFF_VERSION), Get(f, KEY_RESOURCE_NAME), h.owner, Get(f, KEY_FENCING_TOKEN),
                      Get(f, KEY_EXPIRES_AT_MS), Get(f, KEY_NONCE)) == Ok(h);
  }

  lemma AuthorityRead(lib: Library, f: seq<Field>, a: JobAuthority)
    requires KeySet(f) == AuthorityKeys()
    requires NewAuthority(lib, Get(f, KEY_JOB_ID), Get(f, KEY_OWNER_ID), Get(f, KEY_FENCING_TOKEN)) == Ok(a)
    ensures HoldsAuthority(f, a) && exists j, o, t :: NewAuthority(lib, j, o, t) == Ok(a)
  {
    hide Get, KeySet, Lit, IsDecimalText;
  }

  /** The converse: what is read from fields was constructed, and the fields hold it. */
  lemma ReadIsConstructed(lib: Library, f: seq<Field>, l: WorkerLaunch)
    requires LaunchFromFields(lib, f) == Ok(l)
    ensures Constructed(lib, l) && Holds(f, l)
  {
    hide Get, KeySet, Lit, NewReference, NewAuthority, HandoffFromFields, NewHandoff, NewOwner;
    assert NewLaunch(Get(f, KEY_LAUNCH_VERSION), l.reference, l.handoff, l.authority) == Ok(l);
    ReferenceRead(Get(f, KEY_REFERENCE).fields, l.reference);
    HandoffRead(Get(f, KEY_RESOURCE_HANDOFF).fields, l.handoff);
    AuthorityRead(lib, Get(f, KEY_JOB_AUTHORITY).fields, l.authority);
  }

  // ---------------------------------------------------------------- through the wire

  lemma OwnerReceived(o: ResourceOwner)
    ensures HoldsOwner(Received(OwnerPayload(o)), o)
  {
    hide Get, KeySet, Lit, Received, OwnerPayload, DistinctKeys;
    OwnerEntries(o);
    ReceivedScalars(OwnerPayload(o));
  }

  lemma AuthorityReceived(a: JobAuthority)
    ensures HoldsAuthority(Received(AuthorityPayload(a)), a)
  {
    hide Get, KeySet, Lit, Received, AuthorityPayload, DistinctKeys;
    AuthorityEntries(a);
    ReceivedScalars(AuthorityPayload(a));
  }

  lemma HandoffReceived(h: ResourceHandoff)
    ensures HoldsHandoff(Received(HandoffPayload(h)), h)
  {
    HandoffEntries(h);
    ReceivedLookup(HandoffPayload(h));
    OwnerReceived(h.owner);
    hide Get, KeySet, Lit, SortFields, SortedValues, HandoffPayload, OwnerPayload, DistinctKeys, HoldsOwner;
  }

  lemma LaunchReceived(l: WorkerLaunch)
    ensures Holds(Received(LaunchPayload(l)), l)
  {
    hide Get, KeySet, Lit, Received, Sorted, LaunchPayload, ReferencePayload, HandoffPayload, AuthorityPayload,
      DistinctKeys, HoldsHandoff, HoldsAuthority;
    LaunchEntries(l);
    ReceivedLookup(LaunchPayload(l));
    SortedObject(ReferencePayload(l.reference));
    SortedObject(HandoffPayload(l.handoff));
    SortedObject(AuthorityPayload(l.authority));
    SortedOne();
    ReferenceReceived(l.reference);
    HandoffReceived(l.handoff);
    AuthorityReceived(l.authority);
  }

  lemma SortedObject(f: seq<Field>)
    ensures Sorted(Obj(f)) == Obj(Received(f))
  {
  }

  lemma SortedOne()
    ensures Sorted(Int(1)) == Int(1)
  {
  }

  /**
   The two directions of the bijection: a byte string is accepted as a launch if and only if
   that launch is built by the constructors and the byte string is its encoding.
   */
  lemma LaunchBijection(lib: Library, payload: Bytes, l: WorkerLaunch)
    ensures LaunchFromBytes(lib, payload) == Ok(l)
      <==> Constructed(lib, l) && LaunchToBytes(l) == Ok(payload)
  {
    hide LaunchFromFields, LaunchPayload, CanonicalBytes, DecodeJson, Constructed, Holds, Received;
    if LaunchFromBytes(lib, payload) == Ok(l) {
      ReadIsConstructed(lib, DecodeJson(payload, MAX_WORKER_LAUNCH_BYTES).value, l);
    }
    if Constructed(lib, l) && LaunchToBytes(l) == Ok(payload) {
      LaunchUnique(l);
      DecodeCanonical(LaunchPayload(l), true, MAX_WORKER_LAUNCH_BYTES);
      LaunchReceived(l);
      LaunchAgain(lib, Received(LaunchPayload(l)), l);
    }
  }
}
