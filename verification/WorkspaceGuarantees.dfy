/** `initialize_workspace` as a whole, for every fault and every kill point. */
module WorkspaceGuarantees {
  import opened Text
  import opened WorkspaceDisk
  import opened WorkspaceInit
  import opened WorkspaceTransaction
  import opened WorkspaceInitialize
  import opened WorkspaceRollback
  import opened WorkspaceManifest
  import opened WorkspaceVerdict

  method RollBack(disk: Disk, root: Path, id: nat, l: Locals, ghost before: Tree, ghost from: nat, ghost pr: Progress,
          ghost x: Leftover)
    returns (ghost stuck: bool, ghost removed: nat)
    requires Halted(disk, before, from, root, pr, id, x) && Consistent(before, root, pr, id, x, l)
    modifies disk`tree, disk`step, disk`trace
    ensures Rolling(disk, before, from, root, stuck, removed) && (stuck ==> x.ManifestLeft?)
    ensures disk.step >= old(disk.step)
    ensures pr.a <= pr.k <= |root|
    ensures disk.Faultless(old(disk.step)) ==> !stuck && disk.tree == Residue(before, root, pr, x)
  {
    hide Stage, Rolling, Base, Safe, Keeps, Recent, Complete, InEmptyControl, Residue, Rooted, IsDir, Halted;
    stuck := false;
    HaltedParts(disk, before, from, root, pr, id, x);
    if l.manifestCreated {
      stuck := RemoveManifest(disk, root, before, from, pr, id, x.content);
    }
    ghost var y := if x.ManifestLeft? then Nothing else x;
    removed := RemoveCreated(disk, l.created, before, from, root, stuck, pr, id, y);
    ghost var outer := pr.(created := []);
    assert outer.(created := l.created) == pr;
    if y.TempLeft? { TempInControl(before, root, pr); }
    RemoveOuters(disk, root, l, before, from, stuck, removed, outer, id, y);
    ResidueOf(before, root, pr, x);
    if l.temporary.Some? {
      TempNotBefore(before, root, pr, id);
      ResidueHasNoTemp(before, root, pr, id, y);
      var _ := RemoveTemporary(disk, l.temporary.value, before, from, root, removed);
    }
  }

  lemma HaltedParts(disk: Disk, before: Tree, from: nat, root: Path, pr: Progress, id: nat, x: Leftover)
    requires Halted(disk, before, from, root, pr, id, x)
    ensures pr.a <= pr.k <= |root| && Stage(before, Base(before, root, pr), root, pr) && disk.Recorded()
    ensures disk.tree == WithLeftover(Base(before, root, pr), root, id, x)
    ensures x != Nothing ==> InEmptyControl(before, root, pr)
    ensures !x.ManifestLeft? ==> Rolling(disk, before, from, root, false, 0)
  {
    var base := Base(before, root, pr);
    StageAdds(before, base, root, pr, id);
    if x.TempLeft? {
      FreshInControl(before, root, pr, id);
      LeftoverSafe(before, root, pr, id, x);
    }
    hide Stage, Base, Safe, Recent, Rooted, InEmptyControl, Complete, Keeps;
  }

  lemma TempInControl(before: Tree, root: Path, pr: Progress)
    requires InEmptyControl(before, root, pr)
    ensures pr.control || Control(root) in before
  {
  }

  lemma TempNotBefore(before: Tree, root: Path, pr: Progress, id: nat)
    requires InEmptyControl(before, root, pr)
    ensures TempPath(root, id) !in before
  {
  }

  lemma ResidueOf(before: Tree, root: Path, pr: Progress, x: Leftover)
    requires pr.a <= pr.k <= |root|
    ensures var outer, y := pr.(created := []), if x.ManifestLeft? then Nothing else x;
      Residue(before, root, outer, y) == Residue(before, root, pr, x)
      && (x.TempLeft? && pr.control ==> Residue(before, root, pr, x) == Base(before, root, outer))
  {
    assert Outer(root, pr.(created := [])) + [] == Outer(root, pr);
  }

  lemma ResidueHasNoTemp(before: Tree, root: Path, pr: Progress, id: nat, y: Leftover)
    requires pr.a <= pr.k <= |root| && TempPath(root, id) !in before && !y.ManifestLeft?
    ensures WithLeftover(Residue(before, root, pr, y), root, id, y) - {TempPath(root, id)}
      == Residue(before, root, pr, y)
    ensures !IsDir(WithLeftover(Residue(before, root, pr, y), root, id, y), TempPath(root, id))
  {
    var temp := TempPath(root, id);
    WithDirsKeys(before, Outer(root, pr));
    WithDirsKeys(before, Rungs(root, pr.a, KeptLength(root, pr)));
    assert |temp| == |root| + 2;
    assert temp !in Outer(root, pr) && temp !in Rungs(root, pr.a, KeptLength(root, pr));
    hide WithDirs;
    var t := Residue(before, root, pr, y);
    assert temp !in t;
  }

  /**
   `initialize_workspace`. Whatever fails, nothing that was there is lost, and every tree that a kill
   could leave shows a manifest only with all contract directories, unless the roll-back could not
   remove the manifest it had just published. A failure whose roll-back meets no fault leaves
   `Residue`; without faults the result, and the error in particular, is the `Verdict` on the tree.
   */
  method InitializeWorkspace(disk: Disk, site: Site, name: Str, workspaceId: Str, id: nat)
    returns (result: Result<Initialization, InitError>, ghost stuck: bool, ghost removed: nat, ghost rollbackAt: nat,
             ghost pr: Progress, ghost x: Leftover)
    requires disk.Recorded() && Rooted(disk.tree)
    modifies disk`tree, disk`step, disk`trace
    ensures disk.Recorded()
    ensures name == [] ==> result == Err(NameInvalid) && disk.tree == old(disk.tree)
    ensures Keeps(old(disk.tree), disk.tree) && AllKeep(disk.trace, |old(disk.trace)|, old(disk.tree))
    ensures Safe(old(disk.tree), site.root)
      ==> (SomeUnsafe(disk.trace, |old(disk.trace)|, site.root) <==> result.Err? && stuck && removed > 0)
    ensures result.Ok? ==> Done(site, old(disk.tree), disk.tree, workspaceId, name, result.value, x)
    ensures result.Err? && name != [] ==> Ended(old(disk.tree), site.root, pr, x)
    ensures result.Err? && name != [] && disk.Faultless(rollbackAt)
      ==> disk.tree == Residue(old(disk.tree), site.root, pr, x)
    ensures result.Ok?
      ==> disk.tree == After(old(disk.tree), site.root, workspaceId, name, result.value.created)
    ensures disk.Faultless(old(disk.step)) ==> result == Verdict(site, old(disk.tree), workspaceId, name)
    ensures var at, written :=
      old(disk.step) + WriteStep(old(disk.tree), site.root), ManifestBytes(workspaceId, name).Some?;
      name != [] && Startable(old(disk.tree), site.root) && disk.Clear(old(disk.step), at)
        && PublishFails(disk, at, written)
      ==> LeftTemporary(disk, at, rollbackAt, written, result, x)
  {
    ghost var before, from := disk.tree, |disk.trace|;
    stuck, removed, rollbackAt := false, 0, disk.step;
    hide Stage, Rolling, Base, Safe, Recent, AllKeep, Complete, InEmptyControl, Residue, Rooted, Halted, Consistent,
      Done, ManifestBytes, PublishVerdict, SomeUnsafe, RootVerdict, ReopenVerdict, Startable, PublishFails,
      LeftTemporary, WriteStep;
    if name == [] {
      pr, x := Progress(0, 0, false, []), Nothing;
      NothingUnsafe(disk.trace, before, site.root);
      return Err(NameInvalid), stuck, removed, rollbackAt, pr, x;
    }
    var l;
    result, l, pr, x := Attempt(disk, site, name, workspaceId, id);
    rollbackAt := disk.step;
    HaltedRecent(disk, before, from, site.root, pr, id, x);
    HaltedEnded(disk, before, from, site.root, pr, id, x);
    if result.Ok? {
      DoneTree(disk, site, before, from, workspaceId, name, result.value, pr, id, x);
    } else {
      stuck, removed := RollBack(disk, site.root, id, l, before, from, pr, x);
      RollingShows(disk, before, from, site.root, stuck, removed);
    }
  }

  lemma DoneTree(disk: Disk, site: Site, before: Tree, from: nat, workspaceId: Str, name: Str, r: Initialization,
          pr: Progress, id: nat, x: Leftover)
    requires Halted(disk, before, from, site.root, pr, id, x)
    requires Done(site, before, disk.tree, workspaceId, name, r, x)
    ensures disk.tree == After(before, site.root, workspaceId, name, r.created)
  {
    hide Halted, Complete, Initialized;
    if r.created { PublishedTree(disk, before, from, site.root, pr, id, workspaceId, name); }
  }

  lemma PublishedTree(disk: Disk, before: Tree, from: nat, root: Path, pr: Progress, id: nat, workspaceId: Str,
          name: Str)
    requires Halted(disk, before, from, root, pr, id, ManifestLeft(Manifest(workspaceId, name)))
    ensures disk.tree == Initialized(before, root, workspaceId, name)
  {
    var base := Base(before, root, pr);
    assert Complete(disk.tree, root) && InEmptyControl(before, root, pr) && Stage(before, base, root, pr);
    CompleteBelow(base, root, Manifest(workspaceId, name));
    hide Recent, Safe;
    ControlThere(before, base, root, pr);
    StageAdds(before, base, root, pr, id);
    hide InEmptyControl, Base, Complete;
    OnlyNeeded(before, base, root, pr);
    NeededIsThere(base, root);
    hide Stage, Needed, Rooted, Made;
    SameTree(before, base, root);
  }

  /**
   Initializing twice without faults: the second call returns the workspace that the first one returned, as
   an existing one and whatever identifier it brings, and changes nothing.
   */
  method InitializeTwice(tree: Tree, site: Site, name: Str, workspaceId: Str, otherId: Str, id: nat, next: nat)
    returns (disk: Disk, first: Result<Initialization, InitError>, second: Result<Initialization, InitError>,
             ghost between: Tree)
    requires Rooted(tree)
    ensures fresh(disk) && disk.Faultless(0)
    ensures first == Verdict(site, tree, workspaceId, name)
    ensures first.Ok? ==> between == After(tree, site.root, workspaceId, name, first.value.created)
    ensures first.Ok? ==> second == Ok(first.value.(created := false)) && disk.tree == between
  {
    hide Rooted, Done, Ended, SomeUnsafe, Keeps, AllKeep, Safe, Residue, LeftTemporary, PublishFails, Startable,
      WriteStep, Verdict, Initialized, ManifestBytes;
    disk := new Disk(tree, n => false);
    ghost var stuck, removed, rollbackAt, pr, x;
    first, stuck, removed, rollbackAt, pr, x := InitializeWorkspace(disk, site, name, workspaceId, id);
    between := disk.tree;
    second := first;
    if first.Ok? {
      StaysInitialized(site, tree, workspaceId, name, first.value, otherId);
      assert disk.tree == After(tree, site.root, workspaceId, name, first.value.created);
      second, stuck, removed, rollbackAt, pr, x := InitializeWorkspace(disk, site, name, otherId, next);
    }
  }

  /** Where an attempt stopped; files are left only in a control directory that was empty. */
  ghost predicate Ended(before: Tree, root: Path, pr: Progress, x: Leftover) {
    pr.a <= pr.k <= |root| && Stage(before, Base(before, root, pr), root, pr)
      && (x != Nothing ==> InEmptyControl(before, root, pr))
  }

  lemma NothingUnsafe(trace: seq<Tree>, before: Tree, root: Path)
    ensures !SomeUnsafe(trace, |trace|, root) && AllKeep(trace, |trace|, before)
  {
  }

  lemma RecentNotUnsafe(trace: seq<Tree>, from: nat, before: Tree, root: Path)
    requires Recent(trace, from, before, root)
    ensures AllKeep(trace, from, before) && (Safe(before, root) ==> !SomeUnsafe(trace, from, root))
  {
  }

  lemma HaltedRecent(disk: Disk, before: Tree, from: nat, root: Path, pr: Progress, id: nat, x: Leftover)
    requires Halted(disk, before, from, root, pr, id, x)
    ensures Safe(before, root) ==> !SomeUnsafe(disk.trace, from, root)
    ensures Keeps(before, disk.tree) && AllKeep(disk.trace, from, before)
  {
    RecentNotUnsafe(disk.trace, from, before, root);
    var base := Base(before, root, pr);
    StageAdds(before, base, root, pr, id);
    if x != Nothing {
      FreshInControl(before, root, pr, id);
    }
    hide Stage, Base, Safe, Recent, AllKeep, Rooted, InEmptyControl, Complete, SomeUnsafe;
  }

  lemma HaltedEnded(disk: Disk, before: Tree, from: nat, root: Path, pr: Progress, id: nat, x: Leftover)
    requires Halted(disk, before, from, root, pr, id, x)
    ensures Ended(before, root, pr, x)
  {
    hide Stage, Base, Safe, Recent, InEmptyControl, Complete;
  }

  lemma RollingShows(disk: Disk, before: Tree, from: nat, root: Path, stuck: bool, removed: nat)
    requires Rolling(disk, before, from, root, stuck, removed)
    ensures Safe(before, root) ==> (SomeUnsafe(disk.trace, from, root) <==> stuck && removed > 0)
    ensures Keeps(before, disk.tree) && AllKeep(disk.trace, from, before)
  {
    if !(stuck && removed > 0) { RecentNotUnsafe(disk.trace, from, before, root); }
    hide Safe, Recent, SomeUnsafe, Keeps, AllKeep;
  }

  // ---------------------------------------------------------------- what a failure leaves behind

  /** No contract directory that the failed call made is left. */
  lemma CreatedAreGone(before: Tree, root: Path, pr: Progress, x: Leftover)
    requires Ended(before, root, pr, x)
    ensures forall p | p in pr.created :: p !in Residue(before, root, pr, x)
  {
    CreatedAreContract(before, Base(before, root, pr), root, pr);
    WithDirsKeys(before, Outer(root, pr));
    WithDirsKeys(before, Rungs(root, pr.a, KeptLength(root, pr)));
    hide Stage, WithDirs, Base;
    forall p | p in pr.created ensures p !in Residue(before, root, pr, x) {
      var k :| 0 <= k < 7 && p == ContractDir(root, k);
      ContractIsElsewhere(root, k, 0);
      RungsBelow(root, pr.a, pr.k);
      RungsBelow(root, pr.a, KeptLength(root, pr));
    }
  }

  lemma RungsBelow(root: Path, a: nat, k: nat)
    requires a <= k <= |root|
    ensures forall p | p in Rungs(root, a, k) :: p <= root
  {
  }

  /**
   The tree is exactly what it was if and only if no directory above the root had to be made and it is
   not the case that a temporary file was left in a control directory made by this call.
   */
  lemma RestoredExactly(before: Tree, root: Path, pr: Progress, x: Leftover)
    requires Ended(before, root, pr, x)
    ensures Residue(before, root, pr, x) == before
      <==> KeptLength(root, pr) == pr.a && !(x.TempLeft? && pr.control)
  {
    var ps := Outer(root, pr) + pr.created;
    GrownRooted(before, ps);
    WithDirsKeys(before, Outer(root, pr));
    WithDirsKeys(before, Rungs(root, pr.a, KeptLength(root, pr)));
    hide Grown, Rooted;
    if x.TempLeft? && pr.control {
      assert Control(root) in Outer(root, pr) && Control(root) in ps;
    } else if KeptLength(root, pr) > pr.a {
      var p := Rungs(root, pr.a, pr.k)[0];
      assert p == Rungs(root, pr.a, KeptLength(root, pr))[0] && p in ps;
    } else {
      assert Rungs(root, pr.a, KeptLength(root, pr)) == [];
    }
  }

  /**
   The case is met by a call: on every tree where initialization can start and that has no control
   directory, one fault, at the writing of the temporary file or at its move into place, makes the call
   fail and leave the control directory that it made behind.
   */
  method FailedPublishLeavesControl(tree: Tree, site: Site, name: Str, workspaceId: Str, id: nat, atMove: bool)
    returns (disk: Disk, fault: nat, result: Result<Initialization, InitError>)
    requires Rooted(tree) && Startable(tree, site.root) && Control(site.root) !in tree
    requires name != [] && (atMove ==> Encodable(name) && Encodable(workspaceId))
    ensures fresh(disk) && forall n :: disk.faults(n) <==> n == fault
    ensures result.Err? && disk.tree != tree && IsDir(disk.tree, Control(site.root))
  {
    var root := site.root;
    var at := WriteStep(tree, root);
    fault := at + if atMove then 2 else 1;
    ManifestEncodesExactly(workspaceId, name);
    disk := new Disk(tree, n => n == fault);
    ghost var stuck, removed, rollbackAt, pr, x;
    result, stuck, removed, rollbackAt, pr, x := InitializeWorkspace(disk, site, name, workspaceId, id);
    assert LeftTemporary(disk, at, rollbackAt, ManifestBytes(workspaceId, name).Some?, result, x);
    assert disk.Faultless(rollbackAt);
    ControlLeftBehind(tree, root, pr, x);
  }

  /**
   Nothing has to fail for that: on the same trees a name that holds a surrogate makes the call fail and
   leave its control directory behind although no operation of the file system fails.
   */
  method UnencodableNameLeavesControl(tree: Tree, site: Site, name: Str, workspaceId: Str, id: nat)
    returns (disk: Disk, result: Result<Initialization, InitError>)
    requires Rooted(tree) && Startable(tree, site.root) && Control(site.root) !in tree && !Encodable(name)
    ensures fresh(disk) && disk.Faultless(0)
    ensures result == Err(CreateFailed) && disk.tree != tree && IsDir(disk.tree, Control(site.root))
  {
    disk := new Disk(tree, n => false);
    ManifestEncodesExactly(workspaceId, name);
    UnencodableNameFails(site, tree, workspaceId, name);
    ghost var stuck, removed, rollbackAt, pr, x;
    result, stuck, removed, rollbackAt, pr, x := InitializeWorkspace(disk, site, name, workspaceId, id);
    assert LeftTemporary(disk, WriteStep(tree, site.root), rollbackAt, false, result, x);
    ControlLeftBehind(tree, site.root, pr, x);
  }

  /** Such a name: one lone surrogate. */
  lemma SurrogateNameIsUnencodable()
    ensures !Encodable([0xD800])
  {
    assert IsSurrogate([0xD800][0]);
  }

  lemma ControlLeftBehind(before: Tree, root: Path, pr: Progress, x: Leftover)
    requires Ended(before, root, pr, x) && x.TempLeft? && Control(root) !in before
    ensures IsDir(Residue(before, root, pr, x), Control(root))
  {
    WithDirsKeys(before, Outer(root, pr));
    assert pr.control;
    assert Control(root) in Outer(root, pr);
    hide Stage, Base, Grown, Rooted;
  }

  /** Where initialization could start before a failed call, it can start again after it. */
  lemma CanStartAgain(before: Tree, root: Path, pr: Progress, x: Leftover)
    requires Ended(before, root, pr, x) && Startable(before, root)
    ensures Startable(Residue(before, root, pr, x), root) && Rooted(Residue(before, root, pr, x))
  {
    hide Grown, Stage, WithDirs, Startable, Rooted, InEmptyControl, Base;
    var qs := if x.TempLeft? && pr.control then Outer(root, pr) else Rungs(root, pr.a, KeptLength(root, pr));
    PrefixGrown(before, root, pr, qs);
    StageRooted(before, Base(before, root, pr), root, pr);
    GrownRooted(before, qs);
    WithDirsKeys(before, qs);
    hide Outer, KeptLength;
    OuterBelow(root, pr, qs);
    OnlyOuterAdded(before, WithDirs(before, qs), root, pr, qs);
  }

  lemma StageRooted(before: Tree, t: Tree, root: Path, pr: Progress)
    requires Stage(before, t, root, pr)
    ensures Rooted(before)
  {
    hide Grown, Rooted;
  }

  lemma OuterBelow(root: Path, pr: Progress, qs: seq<Path>)
    requires pr.a <= pr.k <= |root|
    requires qs == Outer(root, pr) || qs == Rungs(root, pr.a, KeptLength(root, pr))
    ensures forall p | p in qs :: p <= root || p == Control(root)
  {
    RungsBelow(root, pr.a, pr.k);
    RungsBelow(root, pr.a, KeptLength(root, pr));
    hide Rungs;
  }

  lemma PrefixGrown(before: Tree, root: Path, pr: Progress, qs: seq<Path>)
    requires pr.a <= pr.k <= |root| && Stage(before, Base(before, root, pr), root, pr)
    requires qs == Outer(root, pr) || qs == Rungs(root, pr.a, KeptLength(root, pr))
    ensures Grown(before, qs)
  {
    var ps := Outer(root, pr) + pr.created;
    assert qs == ps[..|qs|] && ps == qs + ps[|qs|..];
    GrownConcat(before, qs, ps[|qs|..]);
  }

  lemma OnlyOuterAdded(before: Tree, t: Tree, root: Path, pr: Progress, qs: seq<Path>)
    requires Startable(before, root) && Rooted(before) && Keeps(before, t)
    requires forall p :: p in t <==> p in before || p in qs
    requires forall p | p in t && p !in before :: t[p] == Dir
    requires forall p | p in qs :: p <= root || p == Control(root)
    requires forall p | p in qs :: p !in before
    ensures Startable(t, root)
  {
    forall k | 0 <= k < 7 ensures Ordinary(t, ContractDir(root, k)) { ContractIsElsewhere(root, k, 0); }
    assert |ManifestPath(root)| == |root| + 2;
    if Control(root) in t {
      forall p | p in t && p != [] ensures Parent(p) != Control(root) {
        if p in before { assert IsDir(before, Parent(p)); } else { assert |p| <= |root| + 1; }
      }
    }
  }
}
