/**
 One attempt of `initialize_workspace` under its lock: preparing, reopening an existing workspace or
 building a new one, and the verdict that an attempt without faults reaches on every tree, error by
 error.
 */
module WorkspaceInitialize {
  import opened Text
  import opened WorkspaceDisk
  import opened WorkspaceInit
  import opened WorkspaceTransaction
  import opened WorkspaceManifest

  // ---------------------------------------------------------------- an existing workspace

  method RequireContract(disk: Disk, root: Path) returns (failed: Option<InitError>)
    modifies disk`step
    ensures disk.step >= old(disk.step)
    ensures failed.None? ==> Complete(disk.tree, root)
    ensures disk.Clear(old(disk.step), disk.step)
      ==> failed == (if Complete(disk.tree, root) then None else Some(WorkspaceInvalid))
  {
    var k := 0;
    while k < 7
      invariant 0 <= k <= 7 && disk.step >= old(disk.step)
      invariant forall j | 0 <= j < k :: IsDir(disk.tree, ContractDir(root, j))
    {
      var kind := disk.Kind(ContractDir(root, k));
      if kind.None? { return Some(CreateFailed); }
      if kind.value != Some(Dir) { return Some(WorkspaceInvalid); }
      k := k + 1;
    }
    failed := None;
  }

  /** Where there was a manifest, preparing changed nothing. */
  lemma ManifestMeansUntouched(before: Tree, t: Tree, root: Path, pr: Progress, l: Locals)
    requires Stage(before, t, root, pr) && Told(before, root, pr, l) && pr.created == [] && ManifestPath(root) in t
    ensures t == before && ManifestPath(root) in before
  {
    StageAdds(before, t, root, pr, 0);
    assert IsDir(before, Control(root)) by { assert Parent(ManifestPath(root)) == Control(root); }
    assert IsDir(before, root) by { assert Parent(Control(root)) == root; }
    assert Outer(root, pr) + pr.created == [];
  }

  /** Preparing puts nothing into the control directory. */
  lemma NothingNewInControl(before: Tree, t: Tree, root: Path, pr: Progress)
    requires Stage(before, t, root, pr) && pr.created == []
    ensures forall p | p in t && p != [] && Parent(p) == Control(root) :: p in before
  {
    WithDirsKeys(before, Outer(root, pr) + pr.created);
    hide Grown, WithDirs, Rooted;
    forall p | p in t && p !in before && p != [] ensures Parent(p) != Control(root) {
      assert p in Outer(root, pr) + pr.created;
      if p in Rungs(root, pr.a, pr.k) { assert |p| <= |root|; }
    }
  }

  lemma EmptyAfterPrepare(before: Tree, t: Tree, root: Path, pr: Progress, l: Locals)
    requires Stage(before, t, root, pr) && Told(before, root, pr, l) && pr.created == [] && IsDir(t, Control(root))
    ensures IsEmptyDir(t, Control(root)) <==> InEmptyControl(before, root, pr)
  {
    StageAdds(before, t, root, pr, 0);
    NothingNewInControl(before, t, root, pr);
    assert pr.k == |root| by { ControlNeedsRoot(before, t, root, pr); }
    hide Stage, Told, Rooted;
    assert pr.control || t[Control(root)] == before[Control(root)];
    if IsEmptyDir(t, Control(root)) {
      assert forall p | p in before && p != [] :: p in t;
    }
  }

  lemma ControlNeedsRoot(before: Tree, t: Tree, root: Path, pr: Progress)
    requires Stage(before, t, root, pr) && Control(root) in t
    ensures pr.k == |root|
  {
    StageAdds(before, t, root, pr, 0);
    if !pr.control { assert IsDir(before, Parent(Control(root))); }
  }

  lemma StageHalted(disk: Disk, before: Tree, from: nat, root: Path, pr: Progress, id: nat)
    requires Going(disk, before, from, root, pr)
    ensures Halted(disk, before, from, root, pr, id, Nothing)
  {
    hide Safe, Recent;
  }

  /** The locals match what lies on disk when an attempt ends. */
  ghost predicate Consistent(before: Tree, root: Path, pr: Progress, id: nat, x: Leftover, l: Locals) {
    && Told(before, root, pr, l)
    && (x.TempLeft? ==> l.temporary == Some(TempPath(root, id)))
    && (l.manifestCreated <==> x.ManifestLeft?)
    && (l.temporary.Some?
      ==> l.temporary == Some(TempPath(root, id)) && !x.ManifestLeft? && InEmptyControl(before, root, pr))
    && (pr.created != [] ==> InEmptyControl(before, root, pr))
  }

  /** An existing workspace was found and opened under the wanted name; nothing was touched. */
  ghost predicate Reopened(site: Site, before: Tree, t: Tree, name: Str, r: Initialization) {
    t == before && ManifestPath(site.root) in before && Found(site, before, name, r)
  }

  ghost predicate Done(site: Site, before: Tree, t: Tree, workspaceId: Str, name: Str, r: Initialization, x: Leftover) {
    if r.created then
      ManifestPath(site.root) !in before && Published(site, t, workspaceId, name, r, x) && Complete(t, site.root)
    else Reopened(site, before, t, name, r)
  }

  /** No manifest and an empty control directory: make the contract directories and publish. */
  method Build(disk: Disk, site: Site, name: Str, workspaceId: Str, id: nat, prepared: Locals, ghost before: Tree,
          ghost from: nat, ghost was: Progress)
    returns (result: Result<Initialization, InitError>, l: Locals, ghost pr: Progress, ghost x: Leftover)
    requires Going(disk, before, from, site.root, was) && was.created == [] && was.k == |site.root|
    requires InEmptyControl(before, site.root, was) && PathsOrdinary(disk.tree, site.root)
    requires IsDir(disk.tree, Control(site.root)) && IsDir(disk.tree, site.root)
    requires Told(before, site.root, was, prepared) && prepared.temporary == None && !prepared.manifestCreated
    modifies disk`tree, disk`step, disk`trace
    ensures Halted(disk, before, from, site.root, pr, id, x) && disk.step >= old(disk.step)
    ensures Consistent(before, site.root, pr, id, x, l)
    ensures result.Ok? ==> Done(site, before, disk.tree, workspaceId, name, result.value, x)
    ensures disk.Clear(old(disk.step), disk.step)
      ==> result == PublishVerdict(site, Made(before, site.root), workspaceId, name)
    ensures var at, written :=
      old(disk.step) + 7 + Missing(old(disk.tree), site.root, 7), ManifestBytes(workspaceId, name).Some?;
      disk.Clear(old(disk.step), at) && PublishFails(disk, at, written)
      ==> LeftTemporary(disk, at, disk.step, written, result, x)
  {
    var root := site.root;
    hide Stage, Safe, Keeps, Rooted, Recent, PathsOrdinary, InEmptyControl, Complete, Base, Published, IsDir, Going,
      Halted, PublishVerdict, PublishFails, LeftTemporary, Missing, ManifestBytes, Made;
    var ok, created;
    ok, created, pr := MakeContract(disk, root, before, from, was);
    x := Nothing;
    l := prepared.(created := created);
    InEmptyControlKept(before, root, was, pr);
    NoManifestBefore(before, root, pr);
    if !ok {
      StageHalted(disk, before, from, root, pr, id);
      return Err(CreateFailed), l, pr, x;
    }
    MadeIs(disk, before, from, root, pr);
    var temporary, manifestCreated;
    result, temporary, manifestCreated, x := Publish(disk, site, name, workspaceId, id, before, from, pr);
    l := l.(temporary := temporary, manifestCreated := manifestCreated);
    if result.Ok? {
      PublishedComplete(disk, before, from, root, pr, id, x, site, workspaceId, name, result.value);
    }
  }

  /** The directories of a workspace and those above it. */
  function Needed(root: Path): set<Path> {
    (set j | 0 <= j <= |root| :: root[..j]) + {Control(root)} + (set k: nat | k < 7 :: ContractDir(root, k))
  }

  /** The tree with every needed directory that was not there. */
  function Made(t: Tree, root: Path): Tree {
    t + map p | p in Needed(root) && p !in t :: Dir
  }

  lemma MadeIs(disk: Disk, before: Tree, from: nat, root: Path, pr: Progress)
    requires Going(disk, before, from, root, pr) && Complete(disk.tree, root) && IsDir(disk.tree, Control(root))
    ensures disk.tree == Made(before, root)
  {
    var t := disk.tree;
    StageAdds(before, t, root, pr, 0);
    OnlyNeeded(before, t, root, pr);
    NeededIsThere(t, root);
    hide Stage, Recent, Needed, Rooted;
    SameTree(before, t, root);
  }

  lemma SameTree(before: Tree, t: Tree, root: Path)
    requires Keeps(before, t) && (forall p | p in Needed(root) :: p in t)
    requires forall p | p in t && p !in before :: p in Needed(root) && t[p] == Dir
    ensures t == Made(before, root)
  {
    hide Needed;
    var m := Made(before, root);
    forall p ensures p in t <==> p in m { }
    forall p | p in t ensures t[p] == m[p] { }
  }

  lemma NeededIsThere(t: Tree, root: Path)
    requires Rooted(t) && Complete(t, root) && Control(root) in t
    ensures forall p | p in Needed(root) :: p in t
  {
    hide Rooted;
    forall p | p in Needed(root) ensures p in t {
      if j :| 0 <= j <= |root| && p == root[..j] {
        NeededAbove(t, root, j);
      } else if p != Control(root) {
        var k: nat :| k < 7 && p == ContractDir(root, k);
      }
    }
  }

  lemma NeededAbove(t: Tree, root: Path, j: nat)
    requires Rooted(t) && Control(root) in t && j <= |root|
    ensures root[..j] in t
  {
    RootIsDir(t, root);
    if j < |root| { PrefixesAreDirs(t, root, j); } else { assert root[..j] == root; }
  }

  /** Everything that was made is needed. */
  lemma OnlyNeeded(before: Tree, t: Tree, root: Path, pr: Progress)
    requires Stage(before, t, root, pr)
    ensures forall p | p in t && p !in before :: p in Needed(root)
  {
    WithDirsKeys(before, Outer(root, pr) + pr.created);
    hide Grown, WithDirs, Rooted, Needed, Outer, IsContract;
    forall p | p in t && p !in before ensures p in Needed(root) {
      assert p in Outer(root, pr) + pr.created;
      if p in pr.created { ContractNeeded(root, p); } else { OuterNeeded(root, pr, p); }
    }
  }

  lemma ContractNeeded(root: Path, p: Path)
    requires IsContract(root, p)
    ensures p in Needed(root)
  {
  }

  lemma OuterNeeded(root: Path, pr: Progress, p: Path)
    requires pr.a <= pr.k <= |root| && p in Outer(root, pr)
    ensures p in Needed(root)
  {
    if p in Rungs(root, pr.a, pr.k) {
      assert p <= root;
      assert p == root[..|p|];
    }
  }

  lemma PublishedComplete(disk: Disk, before: Tree, from: nat, root: Path, pr: Progress, id: nat, x: Leftover,
          site: Site, workspaceId: Str, name: Str, r: Initialization)
    requires Halted(disk, before, from, root, pr, id, x) && Published(site, disk.tree, workspaceId, name, r, x)
    ensures Complete(disk.tree, root) && r.created
  {
  }

  ghost predicate Found(site: Site, t: Tree, name: Str, r: Initialization) {
    Complete(t, site.root) && !r.created && r.name == name && site.open(t) == Some((r.workspaceId, name))
  }

  /** What opening an existing workspace gives, if nothing fails by itself. */
  ghost function ReopenVerdict(site: Site, t: Tree, name: Str): Result<Initialization, InitError> {
    if !Complete(t, site.root) then Err(WorkspaceInvalid) else OpenVerdict(site, t, name, false)
  }

  /** What initialization gives, if nothing fails by itself. */
  ghost function Verdict(site: Site, t: Tree, workspaceId: Str, name: Str): Result<Initialization, InitError> {
    if name == [] then Err(NameInvalid)
    else if RootVerdict(t, site.root).Some? then Err(RootVerdict(t, site.root).value)
    else if ManifestPath(site.root) in t then ReopenVerdict(site, t, name)
    else if Control(site.root) in t && !IsEmptyDir(t, Control(site.root)) then Err(ControlConflict)
    else PublishVerdict(site, Made(t, site.root), workspaceId, name)
  }

  /** What opening a workspace finds once this call has published its manifest on the tree. */
  ghost predicate OpensOwn(site: Site, t: Tree, workspaceId: Str, name: Str) {
    site.open(Made(t, site.root)[ManifestPath(site.root) := File(Manifest(workspaceId, name))])
      == Some((workspaceId, name))
  }

  /**
   Without faults a new workspace is created, if and only if initialization can start, the name is not
   blank, its manifest can be encoded, and opening what was published finds it.
   */
  lemma CreatedExactly(site: Site, t: Tree, workspaceId: Str, name: Str)
    ensures Verdict(site, t, workspaceId, name) == Ok(Initialization(workspaceId, name, true))
      <==> && name != [] && Encodable(name) && Encodable(workspaceId) && Startable(t, site.root)
           && OpensOwn(site, t, workspaceId, name)
  {
    hide PathsOrdinary, AboveOrdinary, IsEmptyDir, Complete, Made, Encodable, ManifestBytes;
    ManifestEncodesExactly(workspaceId, name);
  }

  /** Without faults a name with a surrogate fails wherever a workspace could have been created. */
  lemma UnencodableNameFails(site: Site, t: Tree, workspaceId: Str, name: Str)
    requires Startable(t, site.root) && !Encodable(name)
    ensures Verdict(site, t, workspaceId, name) == Err(CreateFailed)
  {
    hide PathsOrdinary, AboveOrdinary, IsEmptyDir, Complete, Made, ManifestBytes;
    ManifestEncodesExactly(workspaceId, name);
  }

  /** Reading an existing manifest's workspace. */
  method Reopen(disk: Disk, site: Site, name: Str) returns (result: Result<Initialization, InitError>)
    modifies disk`step
    ensures disk.step >= old(disk.step)
    ensures result.Ok? ==> Found(site, disk.tree, name, result.value) && !result.value.created
    ensures disk.Clear(old(disk.step), disk.step) ==> result == ReopenVerdict(site, disk.tree, name)
  {
    hide Complete;
    var failed := RequireContract(disk, site.root);
    if failed.Some? { return Err(failed.value); }
    result := OpenInitialized(disk, site, name, false);
  }

  /** Everything up to the question whether there is a manifest. */
  method Prepare(disk: Disk, root: Path) returns (failed: Option<InitError>, l: Locals, ghost pr: Progress)
    requires disk.Recorded() && Rooted(disk.tree)
    modifies disk`tree, disk`step, disk`trace
    ensures Going(disk, old(disk.tree), |old(disk.trace)|, root, pr) && disk.step >= old(disk.step)
    ensures pr.created == [] && l.temporary == None && !l.manifestCreated && Told(old(disk.tree), root, pr, l)
    ensures failed.None? ==> IsDir(disk.tree, Control(root)) && PathsOrdinary(disk.tree, root) && pr.k == |root|
    ensures disk.step <= old(disk.step) + RootSteps(old(disk.tree), root) + 11
    ensures failed.None? ==> disk.step == old(disk.step) + RootSteps(old(disk.tree), root) + 11
    ensures disk.Clear(old(disk.step), disk.step) ==> failed == RootVerdict(old(disk.tree), root)
  {
    hide Stage, Safe, Keeps, Rooted, Recent, PathsOrdinary, AboveOrdinary, IsDir, Going;
    ghost var before := disk.tree;
    ghost var from := |disk.trace|;
    var rootCreated, controlCreated;
    failed, rootCreated, pr := PrepareRoot(disk, root);
    l := Locals([], rootCreated, false, None, false);
    if failed.Some? { return; }
    failed, controlCreated, pr := PrepareControl(disk, root, before, from, pr, rootCreated);
    l := l.(controlCreated := controlCreated);
  }

  /** From the question whether there is a manifest on. */
  method Proceed(disk: Disk, site: Site, name: Str, workspaceId: Str, id: nat, prepared: Locals, ghost before: Tree,
          ghost from: nat, ghost was: Progress)
    returns (result: Result<Initialization, InitError>, l: Locals, ghost pr: Progress, ghost x: Leftover)
    requires Going(disk, before, from, site.root, was) && was.created == [] && was.k == |site.root|
    requires Told(before, site.root, was, prepared) && prepared.temporary == None && !prepared.manifestCreated
    requires IsDir(disk.tree, Control(site.root)) && PathsOrdinary(disk.tree, site.root)
    modifies disk`tree, disk`step, disk`trace
    ensures Halted(disk, before, from, site.root, pr, id, x) && disk.step >= old(disk.step)
    ensures Consistent(before, site.root, pr, id, x, l)
    ensures result.Ok? ==> Done(site, before, disk.tree, workspaceId, name, result.value, x)
    ensures disk.Clear(old(disk.step), disk.step) && RootVerdict(before, site.root).None? && name != []
      ==> result == Verdict(site, before, workspaceId, name)
    ensures var at, written :=
      old(disk.step) + 9 + Missing(before, site.root, 7), ManifestBytes(workspaceId, name).Some?;
      Startable(before, site.root) && disk.Clear(old(disk.step), at) && PublishFails(disk, at, written)
      ==> LeftTemporary(disk, at, disk.step, written, result, x)
  {
    var root := site.root;
    hide Stage, Safe, Keeps, Rooted, Recent, PathsOrdinary, InEmptyControl, Complete, Base, Published, IsEmptyDir,
      IsDir;
    hide PublishVerdict, OpenVerdict, ManifestBytes, Made;
    hide Going, Halted, Found, RootVerdict, ReopenVerdict, LeftTemporary, PublishFails, Missing;
    l, pr, x := prepared, was, Nothing;
    GoingStage(disk, before, from, root, pr);
    NotStartable(before, disk.tree, root, pr, l);
    ManifestKept(before, disk.tree, root, pr);
    RootOrdinary(before, root);
    StageAdds(before, disk.tree, root, pr, id);
    var there := disk.Exists(ManifestPath(root));
    if there == Some(true) {
      ManifestMeansUntouched(before, disk.tree, root, pr, l);
      result := Reopen(disk, site, name);
      StillGoing(disk, before, from, root, pr, id);
      return;
    }
    if there.Some? {
      var empty := disk.IsEmpty(Control(root));
      if empty == Some(true) {
        StillGoing(disk, before, from, root, pr, id);
        MissingKept(before, disk.tree, root, pr, 7);
        result, l, pr, x := Build(disk, site, name, workspaceId, id, l, before, from, pr);
        return;
      }
      result := Err(if empty.None? then CreateFailed else ControlConflict);
    } else {
      result := Err(CreateFailed);
    }
    StillGoing(disk, before, from, root, pr, id);
  }

  /** Preparing makes no contract directory. */
  lemma {:induction false} MissingKept(before: Tree, t: Tree, root: Path, pr: Progress, n: nat)
    requires Stage(before, t, root, pr) && pr.created == [] && n <= 7
    ensures Missing(t, root, n) == Missing(before, root, n)
  {
    if n > 0 {
      MissingKept(before, t, root, pr, n - 1);
      WithDirsKeys(before, Outer(root, pr) + pr.created);
      ContractIsElsewhere(root, n - 1, 0);
      assert ContractDir(root, n - 1) !in Outer(root, pr) by {
        assert forall p | p in Rungs(root, pr.a, pr.k) :: p <= root;
      }
      hide WithDirs, Grown, Rooted, Outer, Rungs;
      assert ContractDir(root, n - 1) in t <==> ContractDir(root, n - 1) in before;
    }
  }

  lemma RootOrdinary(t: Tree, root: Path)
    ensures RootVerdict(t, root).None? ==> PathsOrdinary(t, root)
  {
    hide PathsOrdinary, AboveOrdinary;
  }

  lemma ManifestKept(before: Tree, t: Tree, root: Path, pr: Progress)
    requires Stage(before, t, root, pr)
    ensures ManifestPath(root) in before <==> ManifestPath(root) in t
  {
    StageAdds(before, t, root, pr, 0);
  }

  lemma StillGoing(disk: Disk, before: Tree, from: nat, root: Path, pr: Progress, id: nat)
    requires Stage(before, disk.tree, root, pr) && disk.Recorded() && from <= |disk.trace|
    requires Recent(disk.trace, from, before, root)
    ensures Halted(disk, before, from, root, pr, id, Nothing) && Going(disk, before, from, root, pr)
  {
    hide Safe, Recent;
  }

  /** How many operations come before the temporary file is written. */
  function WriteStep(t: Tree, root: Path): nat {
    RootSteps(t, root) + 20 + Missing(t, root, 7)
  }

  lemma StartableRoot(t: Tree, root: Path)
    requires Startable(t, root)
    ensures RootVerdict(t, root).None?
  {
    hide PathsOrdinary, AboveOrdinary;
  }

  method Attempt(disk: Disk, site: Site, name: Str, workspaceId: Str, id: nat)
    returns (result: Result<Initialization, InitError>, l: Locals, ghost pr: Progress, ghost x: Leftover)
    requires disk.Recorded() && Rooted(disk.tree)
    modifies disk`tree, disk`step, disk`trace
    ensures Halted(disk, old(disk.tree), |old(disk.trace)|, site.root, pr, id, x) && disk.step >= old(disk.step)
    ensures Consistent(old(disk.tree), site.root, pr, id, x, l)
    ensures result.Ok? ==> Done(site, old(disk.tree), disk.tree, workspaceId, name, result.value, x)
    ensures disk.Clear(old(disk.step), disk.step) && name != []
      ==> result == Verdict(site, old(disk.tree), workspaceId, name)
    ensures var at, written :=
      old(disk.step) + WriteStep(old(disk.tree), site.root), ManifestBytes(workspaceId, name).Some?;
      Startable(old(disk.tree), site.root) && disk.Clear(old(disk.step), at) && PublishFails(disk, at, written)
      ==> LeftTemporary(disk, at, disk.step, written, result, x)
  {
    hide *;
    ghost var before := disk.tree;
    ghost var from := |disk.trace|;
    ghost var start := disk.step;
    var failed;
    failed, l, pr := Prepare(disk, site.root);
    ClearPrepared(disk, before, site.root, start, failed);
    if failed.Some? {
      StageHalted(disk, before, from, site.root, pr, id);
      StoppedEarly(before, site, workspaceId, name, pr, id, l);
      x := Nothing;
      return Err(failed.value), l, pr, x;
    }
    ghost var mid := disk.step;
    result, l, pr, x := Proceed(disk, site, name, workspaceId, id, l, before, from, pr);
    ClearSplits(disk, start, mid, disk.step);
  }

  lemma StoppedEarly(before: Tree, site: Site, workspaceId: Str, name: Str, pr: Progress, id: nat, l: Locals)
    requires Told(before, site.root, pr, l) && l.temporary == None && !l.manifestCreated && pr.created == []
    ensures Consistent(before, site.root, pr, id, Nothing, l)
    ensures RootVerdict(before, site.root).Some? && name != []
      ==> Verdict(site, before, workspaceId, name) == Err(RootVerdict(before, site.root).value)
  {
    hide RootVerdict, Told;
  }

  lemma ClearSplits(disk: Disk, from: nat, mid: nat, to: nat)
    requires from <= mid <= to
    ensures disk.Clear(from, to) <==> disk.Clear(from, mid) && disk.Clear(mid, to)
  {
  }

  /** Nothing stops the preparation where initialization can start and no fault comes before the write. */
  lemma ClearPrepared(disk: Disk, before: Tree, root: Path, start: nat, failed: Option<InitError>)
    requires start <= disk.step <= start + RootSteps(before, root) + 11
    requires disk.Clear(start, disk.step) ==> failed == RootVerdict(before, root)
    ensures var at := start + WriteStep(before, root);
      && at == start + RootSteps(before, root) + 20 + Missing(before, root, 7)
      && disk.step <= at && (Startable(before, root) && disk.Clear(start, at)
        ==> failed.None? && disk.Clear(disk.step, at))
      && (disk.Clear(start, at) ==> disk.Clear(start, disk.step))
  {
    ClearSplits(disk, start, disk.step, start + WriteStep(before, root));
    hide Disk.Clear;
    if Startable(before, root) { StartableRoot(before, root); }
  }

  lemma GoingStage(disk: Disk, before: Tree, from: nat, root: Path, pr: Progress)
    requires Going(disk, before, from, root, pr)
    ensures Stage(before, disk.tree, root, pr) && Rooted(disk.tree) && disk.Recorded() && from <= |disk.trace|
    ensures Recent(disk.trace, from, before, root)
  {
    StageAdds(before, disk.tree, root, pr, 0);
  }

  /** After preparing: the listing of the control directory shows what was in it before, if anything. */
  lemma NotStartable(before: Tree, t: Tree, root: Path, pr: Progress, l: Locals)
    requires Stage(before, t, root, pr) && Told(before, root, pr, l) && pr.created == [] && IsDir(t, Control(root))
    ensures IsEmptyDir(t, Control(root)) <==> InEmptyControl(before, root, pr)
    ensures PathsOrdinary(before, root)
      ==> (IsEmptyDir(t, Control(root)) <==> Control(root) !in before || IsEmptyDir(before, Control(root)))
    ensures IsDir(t, root)
  {
    EmptyAfterPrepare(before, t, root, pr, l);
    StageAdds(before, t, root, pr, 0);
    RootIsDir(t, root);
    assert Rooted(before);
    assert pr.control ==> Control(root) !in before;
    if PathsOrdinary(before, root) { EmptyBefore(before, root, pr); }
  }

  lemma EmptyBefore(before: Tree, root: Path, pr: Progress)
    requires Rooted(before) && PathsOrdinary(before, root) && pr.k == |root|
    requires if pr.control then Control(root) !in before else Control(root) in before
    ensures InEmptyControl(before, root, pr) <==> Control(root) !in before || IsEmptyDir(before, Control(root))
  {
    if Control(root) !in before {
      forall p | p in before && p != [] ensures Parent(p) != Control(root) { assert IsDir(before, Parent(p)); }
    }
  }

  lemma RootIsDir(t: Tree, root: Path)
    requires Rooted(t) && Control(root) in t
    ensures IsDir(t, root)
  {
    assert IsDir(t, Parent(Control(root)));
  }

  lemma InEmptyControlKept(before: Tree, root: Path, was: Progress, pr: Progress)
    requires InEmptyControl(before, root, was) && pr.k == was.k && pr.control == was.control
    ensures InEmptyControl(before, root, pr)
  {
  }

  lemma NoManifestBefore(before: Tree, root: Path, pr: Progress)
    requires InEmptyControl(before, root, pr)
    ensures ManifestPath(root) !in before
  {
  }
}
