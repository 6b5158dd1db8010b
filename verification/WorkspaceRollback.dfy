/**
 Rolling a failed initialization back: the manifest that was published, the directories that were
 made, latest first, then the control directory and the root, and last the temporary file. Every
 removal can fail, and nothing that was there before is ever removed.
 */
module WorkspaceRollback {
  import opened Text
  import opened WorkspaceDisk
  import opened WorkspaceInit
  import opened WorkspaceTransaction
  import opened WorkspaceInitialize

  /**
   What the trees recorded since `from` show: all keep what was there and are safe, except that once the manifest
   could not be removed (`stuck`) and a contract directory was, there is one with a manifest but not its
   directories.
   */
  ghost predicate Shown(trace: seq<Tree>, from: nat, before: Tree, root: Path, stuck: bool, removed: nat) {
    from <= |trace|
    && if stuck && removed > 0 then
      AllKeep(trace, from, before) && (Safe(before, root) ==> SomeUnsafe(trace, from, root))
       else Recent(trace, from, before, root)
  }

  ghost predicate SomeUnsafe(trace: seq<Tree>, from: nat, root: Path) {
    exists i | from <= i < |trace| :: !Safe(trace[i], root)
  }

  /** While rolling back, nothing of before is lost and the manifest is there only if it was or is stuck. */
  ghost predicate Rolling(disk: Disk, before: Tree, from: nat, root: Path, stuck: bool, removed: nat)
    reads disk
  {
    && disk.Recorded() && Keeps(before, disk.tree) && Shown(disk.trace, from, before, root, stuck, removed)
    && (ManifestPath(root) in disk.tree ==> ManifestPath(root) in before || stuck)
    && (stuck ==> ManifestPath(root) in disk.tree && IsDir(disk.tree, Control(root)))
  }

  lemma SafeRemoval(trace: seq<Tree>, from: nat, before: Tree, root: Path, t: Tree, removed: nat)
    requires Shown(trace, from, before, root, false, removed) && Keeps(before, t)
    requires ManifestPath(root) in t ==> ManifestPath(root) in before
    ensures Shown(trace + [t], from, before, root, false, removed)
  {
    hide Keeps, Recent, Safe;
    SafeIfNoManifestAdded(before, t, root);
    RecentMore(trace, from, before, root, t);
  }

  lemma UnsafeRemoval(trace: seq<Tree>, from: nat, before: Tree, root: Path, t: Tree, removed: nat, k: nat)
    requires Shown(trace, from, before, root, true, removed) && k < 7
    requires ManifestPath(root) in t && ContractDir(root, k) !in t && Keeps(before, t)
    ensures Shown(trace + [t], from, before, root, true, removed + 1)
  {
    var longer := trace + [t];
    assert !Safe(t, root) by { assert !IsDir(t, ContractDir(root, k)); }
    assert longer[|trace|] == t;
    hide Safe, Keeps;
    assert SomeUnsafe(longer, from, root);
  }

  /** One contract directory of the roll-back. */
  method RemoveContract(disk: Disk, p: Path, ghost before: Tree, ghost from: nat, ghost root: Path, ghost stuck: bool,
          ghost removed: nat)
    returns (ok: bool, ghost now: nat)
    requires Rolling(disk, before, from, root, stuck, removed) && IsContract(root, p) && p !in before
    modifies disk`tree, disk`step, disk`trace
    ensures Rolling(disk, before, from, root, stuck, now) && now == removed + (if ok then 1 else 0)
    ensures disk.step == old(disk.step) + 1
    ensures ok <==> !disk.faults(old(disk.step)) && IsEmptyDir(old(disk.tree), p)
    ensures disk.tree == if ok then old(disk.tree) - {p} else old(disk.tree)
  {
    hide Shown, IsEmptyDir;
    now := removed;
    ghost var k :| 0 <= k < 7 && p == ContractDir(root, k);
    ContractIsElsewhere(root, k, 0);
    ghost var t, trace := disk.tree, disk.trace;
    ok := disk.Rmdir(p);
    if ok {
      now := removed + 1;
      if stuck {
        UnsafeRemoval(trace, from, before, root, disk.tree, removed, k);
      } else {
        SafeRemoval(trace, from, before, root, disk.tree, removed);
        ShownAny(disk.trace, from, before, root, removed, now);
      }
    }
  }

  lemma ShownAny(trace: seq<Tree>, from: nat, before: Tree, root: Path, removed: nat, now: nat)
    requires Shown(trace, from, before, root, false, removed)
    ensures Shown(trace, from, before, root, false, now)
  {
  }

  /** Removing a directory that may hold the control directory or the manifest: it stays while they do. */
  method RemoveOuter(disk: Disk, p: Path, ghost before: Tree, ghost from: nat, ghost root: Path, ghost stuck: bool,
          ghost removed: nat)
    returns (ok: bool)
    requires Rolling(disk, before, from, root, stuck, removed) && p !in before && (p == root || p == Control(root))
    modifies disk`tree, disk`step, disk`trace
    ensures Rolling(disk, before, from, root, stuck, removed)
    ensures disk.step == old(disk.step) + 1
    ensures ok <==> !disk.faults(old(disk.step)) && IsEmptyDir(old(disk.tree), p)
    ensures disk.tree == if ok then old(disk.tree) - {p} else old(disk.tree)
  {
    hide Shown;
    ghost var t, trace := disk.tree, disk.trace;
    assert stuck ==> !IsEmptyDir(t, p) by {
      if stuck { assert Parent(ManifestPath(root)) == Control(root) && Parent(Control(root)) == root; }
    }
    assert |root| < |ManifestPath(root)| && |Control(root)| < |ManifestPath(root)|;
    ok := disk.Rmdir(p);
    if ok { SafeRemoval(trace, from, before, root, disk.tree, removed); }
  }

  /** `_remove_empty_directories(created_directories)`. */
  method RemoveCreated(disk: Disk, created: seq<Path>, ghost before: Tree, ghost from: nat, ghost root: Path,
          ghost stuck: bool, ghost pr: Progress, ghost id: nat, ghost x: Leftover)
    returns (ghost removed: nat)
    requires Rolling(disk, before, from, root, stuck, 0) && created == pr.created
    requires pr.a <= pr.k <= |root| && Stage(before, Base(before, root, pr), root, pr) && !x.ManifestLeft?
    modifies disk`tree, disk`step, disk`trace
    ensures Rolling(disk, before, from, root, stuck, removed) && disk.step >= old(disk.step)
    ensures disk.Faultless(old(disk.step)) && old(disk.tree) == WithLeftover(Base(before, root, pr), root, id, x)
      ==> disk.tree == WithLeftover(Base(before, root, pr.(created := [])), root, id, x)
    ensures Stage(before, Base(before, root, pr.(created := [])), root, pr.(created := []))
  {
    hide Stage, Rolling, Base, WithLeftover, IsEmptyDir, IsContract;
    ghost var start := disk.tree;
    removed := 0;
    var n := |created|;
    ghost var now := pr;
    assert created[..n] == created && pr.(created := created) == pr;
    CreatedAreContract(before, Base(before, root, pr), root, pr);
    while n > 0
      invariant 0 <= n <= |created| && disk.step >= old(disk.step)
      invariant Rolling(disk, before, from, root, stuck, removed)
      invariant now == pr.(created := created[..n]) && Stage(before, Base(before, root, now), root, now)
      invariant disk.Faultless(old(disk.step)) && start == WithLeftover(Base(before, root, pr), root, id, x)
        ==> disk.tree == WithLeftover(Base(before, root, now), root, id, x)
    {
      LastCreated(before, root, now, id, x);
      var ok;
      assert created[n - 1] in created;
      ok, removed := RemoveContract(disk, created[n - 1], before, from, root, stuck, removed);
      assert created[..n][..n - 1] == created[..n - 1];
      n := n - 1;
      now := pr.(created := created[..n]);
    }
    assert created[..0] == [];
  }

  lemma CreatedAreContract(before: Tree, t: Tree, root: Path, pr: Progress)
    requires Stage(before, t, root, pr)
    ensures forall p | p in pr.created :: IsContract(root, p) && p !in before
  {
    StageAdds(before, t, root, pr, 0);
    hide IsContract;
  }

  lemma WithTempToo(base: Tree, temp: Path, f: Node, p: Path)
    requires IsEmptyDir(base, p) && temp != [] && Parent(temp) != p && temp != p
    ensures IsEmptyDir(base[temp := f], p) && base[temp := f] - {p} == (base - {p})[temp := f]
  {
  }

  /** The contract directory made last is empty, and removing it undoes making it. */
  lemma LastMade(before: Tree, root: Path, pr: Progress)
    requires pr.a <= pr.k <= |root| && Stage(before, Base(before, root, pr), root, pr) && pr.created != []
    ensures var front, last := pr.(created := pr.created[..|pr.created| - 1]), pr.created[|pr.created| - 1];
      && Stage(before, Base(before, root, front), root, front)
      && IsEmptyDir(Base(before, root, pr), last)
      && Base(before, root, pr) - {last} == Base(before, root, front)
  {
    var ps := Outer(root, pr) + pr.created;
    var front, last := pr.(created := pr.created[..|pr.created| - 1]), pr.created[|pr.created| - 1];
    LastIsEmpty(before, ps);
    assert ps[..|ps| - 1] == Outer(root, front) + front.created && ps[|ps| - 1] == last;
    hide WithDirs, Grown, Rooted, IsContract;
  }

  /** The same with a temporary file about. */
  lemma LastCreated(before: Tree, root: Path, pr: Progress, id: nat, x: Leftover)
    requires pr.a <= pr.k <= |root| && Stage(before, Base(before, root, pr), root, pr) && pr.created != []
    requires !x.ManifestLeft?
    ensures var front, last := pr.(created := pr.created[..|pr.created| - 1]), pr.created[|pr.created| - 1];
      && Stage(before, Base(before, root, front), root, front)
      && IsEmptyDir(WithLeftover(Base(before, root, pr), root, id, x), last)
      && WithLeftover(Base(before, root, pr), root, id, x) - {last}
        == WithLeftover(Base(before, root, front), root, id, x)
  {
    var last := pr.created[|pr.created| - 1];
    CreatedAreContract(before, Base(before, root, pr), root, pr);
    LastMade(before, root, pr);
    assert last in pr.created;
    var k :| 0 <= k < 7 && last == ContractDir(root, k);
    ContractIsElsewhere(root, k, id);
    hide Stage, Base, IsEmptyDir;
    if x.TempLeft? { WithTempToo(Base(before, root, pr), TempPath(root, id), File(x.content), last); }
  }

  // ---------------------------------------------------------------- the whole roll-back

  /** The length of the root path that stays made: the root itself is removed, its parents are not. */
  function KeptLength(root: Path, pr: Progress): nat
    requires pr.a <= pr.k <= |root|
  {
    if pr.a < pr.k == |root| then pr.k - 1 else pr.k
  }

  /** What a roll-back leaves behind if nothing goes wrong in it. */
  function Residue(before: Tree, root: Path, pr: Progress, x: Leftover): Tree
    requires pr.a <= pr.k <= |root|
  {
    if x.TempLeft? && pr.control then WithDirs(before, Outer(root, pr))
    else WithDirs(before, Rungs(root, pr.a, KeptLength(root, pr)))
  }

  lemma ControlLast(before: Tree, root: Path, pr: Progress)
    requires pr.a <= pr.k <= |root| && pr.created == [] && Stage(before, Base(before, root, pr), root, pr) && pr.control
    ensures IsEmptyDir(Base(before, root, pr), Control(root))
    ensures Base(before, root, pr) - {Control(root)} == Base(before, root, pr.(control := false))
    ensures Stage(before, Base(before, root, pr.(control := false)), root, pr.(control := false))
  {
    var ps := Outer(root, pr) + [];
    LastIsEmpty(before, ps);
    assert ps[..|ps| - 1] == Outer(root, pr.(control := false)) + [] && ps[|ps| - 1] == Control(root);
  }

  lemma RootLast(before: Tree, root: Path, pr: Progress)
    requires pr.a < pr.k == |root| && pr.created == [] && !pr.control && Stage(before, Base(before, root, pr), root, pr)
    ensures IsEmptyDir(Base(before, root, pr), root)
    ensures Base(before, root, pr) - {root} == WithDirs(before, Rungs(root, pr.a, pr.k - 1))
  {
    var ps := Rungs(root, pr.a, pr.k);
    assert Outer(root, pr) + [] == ps;
    LastIsEmpty(before, ps);
    assert ps[..|ps| - 1] == Rungs(root, pr.a, pr.k - 1) && ps[|ps| - 1] == root[..|root|] == root;
  }

  lemma BaseWithoutControl(before: Tree, root: Path, pr: Progress)
    requires pr.a <= pr.k <= |root| && pr.created == [] && !pr.control
    ensures Base(before, root, pr) == WithDirs(before, Rungs(root, pr.a, pr.k))
  {
    assert Outer(root, pr) + [] == Rungs(root, pr.a, pr.k);
  }

  /** What an attempt to remove the control directory does, no temporary file being in it. */
  lemma ControlUndone(before: Tree, root: Path, pr: Progress)
    requires pr.a <= pr.k <= |root| && pr.created == [] && Stage(before, Base(before, root, pr), root, pr)
    ensures var mid := pr.(control := false);
      && Stage(before, Base(before, root, mid), root, mid)
      && (if pr.control then IsEmptyDir(Base(before, root, pr), Control(root))
        && Base(before, root, pr) - {Control(root)} == Base(before, root, mid)
          else pr == mid && (Control(root) !in before ==> !IsEmptyDir(Base(before, root, pr), Control(root))))
  {
    hide Stage, Base, Rooted, Keeps, Outer, Rungs, WithDirs;
    if pr.control { ControlLast(before, root, pr); } else { StageAdds(before, Base(before, root, pr), root, pr, 0); }
  }

  /** What an attempt to remove the root does, the control directory being gone. */
  lemma RootUndone(before: Tree, root: Path, pr: Progress)
    requires pr.a <= pr.k <= |root| && pr.created == [] && !pr.control
    requires Stage(before, Base(before, root, pr), root, pr)
    ensures if pr.a < pr.k == |root| then
        IsEmptyDir(Base(before, root, pr), root)
          && Base(before, root, pr) - {root} == WithDirs(before, Rungs(root, pr.a, pr.k - 1))
      else
        (root !in before ==> !IsEmptyDir(Base(before, root, pr), root))
          && Base(before, root, pr) == WithDirs(before, Rungs(root, pr.a, pr.k))
  {
    if pr.a < pr.k == |root| {
      RootLast(before, root, pr);
    } else {
      BaseWithoutControl(before, root, pr);
      StageAdds(before, Base(before, root, pr), root, pr, 0);
      assert pr.k == |root| ==> root in before;
    }
  }

  /** The control directory, then the root, each only if this call said that it made it. */
  method RemoveOuters(disk: Disk, root: Path, l: Locals, ghost before: Tree, ghost from: nat, ghost stuck: bool,
          ghost removed: nat, ghost pr: Progress, ghost id: nat, ghost x: Leftover)
    requires Rolling(disk, before, from, root, stuck, removed) && Told(before, root, pr.(created := l.created), l)
    requires pr.a <= pr.k <= |root| && pr.created == [] && Stage(before, Base(before, root, pr), root, pr)
    requires !x.ManifestLeft?
    requires x.TempLeft? ==> pr.control || Control(root) in before
    modifies disk`tree, disk`step, disk`trace
    ensures Rolling(disk, before, from, root, stuck, removed) && disk.step >= old(disk.step)
    ensures disk.Faultless(old(disk.step)) && old(disk.tree) == WithLeftover(Base(before, root, pr), root, id, x)
      ==> disk.tree == (if x.TempLeft? && pr.control then WithLeftover(Base(before, root, pr), root, id, x)
                        else WithLeftover(Residue(before, root, pr, x), root, id, x))
  {
    hide Stage, Rolling, Base, IsEmptyDir, Rooted, Keeps, Outer, Rungs, WithDirs;
    OutersMeet(before, root, pr, id, x);
    ControlUndone(before, root, pr);
    RootUndone(before, root, pr.(control := false));
    if l.controlCreated { var _ := RemoveOuter(disk, Control(root), before, from, root, stuck, removed); }
    if l.rootCreated { var _ := RemoveOuter(disk, root, before, from, root, stuck, removed); }
  }

  /**
   With a temporary file in it the control directory is not empty, and with the control directory in it the
   root is not.
   */
  lemma TempBlocks(t: Tree, root: Path, id: nat)
    requires TempPath(root, id) in t && Control(root) in t
    ensures !IsEmptyDir(t, Control(root)) && !IsEmptyDir(t, root)
  {
    assert Parent(TempPath(root, id)) == Control(root) && Parent(Control(root)) == root;
  }

  lemma ControlWasThere(before: Tree, t: Tree, root: Path, pr: Progress)
    requires Stage(before, t, root, pr) && Control(root) in before
    ensures root in before && !pr.control && pr.a == |root|
  {
    assert IsDir(before, Parent(Control(root)));
    assert pr.control ==> Control(root) in Outer(root, pr) + pr.created;
    GrownRooted(before, Outer(root, pr) + pr.created);
    hide Rooted, Grown, WithDirs, Keeps;
  }

  lemma OutersMeet(before: Tree, root: Path, pr: Progress, id: nat, x: Leftover)
    requires pr.a <= pr.k <= |root| && pr.created == [] && Stage(before, Base(before, root, pr), root, pr)
    requires (x.TempLeft? ==> pr.control || Control(root) in before) && !x.ManifestLeft?
    ensures var t := WithLeftover(Base(before, root, pr), root, id, x);
      && (x.TempLeft? ==> !IsEmptyDir(t, Control(root)) && !IsEmptyDir(t, root))
      && (!pr.control ==> Base(before, root, pr) == WithDirs(before, Rungs(root, pr.a, pr.k)))
      && (Control(root) in before ==> root in before && !pr.control && pr.a == |root|)
  {
    var base := Base(before, root, pr);
    StageAdds(before, base, root, pr, id);
    if Control(root) in before { ControlWasThere(before, base, root, pr); }
    if !pr.control { BaseWithoutControl(before, root, pr); }
    hide Stage, Rooted, Grown, WithDirs, Keeps, Base, IsEmptyDir;
    if x.TempLeft? { TempBlocks(WithLeftover(base, root, id, x), root, id); }
  }

  /** The temporary file is not something that was there before. */
  method RemoveTemporary(disk: Disk, temp: Path, ghost before: Tree, ghost from: nat, ghost root: Path,
          ghost removed: nat)
    returns (ok: bool)
    requires Rolling(disk, before, from, root, false, removed) && temp !in before
    modifies disk`tree, disk`step, disk`trace
    ensures Rolling(disk, before, from, root, false, removed) && disk.step == old(disk.step) + 1
    ensures ok <==> !disk.faults(old(disk.step)) && !IsDir(old(disk.tree), temp)
    ensures disk.tree == if ok then old(disk.tree) - {temp} else old(disk.tree)
  {
    hide Shown;
    ghost var trace := disk.trace;
    ok := disk.Unlink(temp);
    if ok { SafeRemoval(trace, from, before, root, disk.tree, removed); }
  }

  /** The manifest just published is taken back; if that fails it is stuck. */
  method RemoveManifest(disk: Disk, root: Path, ghost before: Tree, ghost from: nat, ghost pr: Progress, ghost id: nat,
          ghost c: Content)
    returns (ghost stuck: bool)
    requires Halted(disk, before, from, root, pr, id, ManifestLeft(c))
    modifies disk`tree, disk`step, disk`trace
    ensures Rolling(disk, before, from, root, stuck, 0) && disk.step == old(disk.step) + 1
    ensures stuck <==> disk.faults(old(disk.step))
    ensures !stuck ==> disk.tree == Base(before, root, pr)
  {
    ghost var base := Base(before, root, pr);
    FreshInControl(before, root, pr, id);
    StageAdds(before, base, root, pr, id);
    NoManifestBefore(before, root, pr);
    LeftoverSafe(before, root, pr, id, ManifestLeft(c)) by {
      assert Complete(base, root) by { CompleteBelow(base, root, c); }
    }
    assert IsDir(disk.tree, Control(root)) by { ControlThere(before, base, root, pr); }
    hide Stage, Base, Safe, Complete, Recent, Rooted, InEmptyControl;
    ghost var trace := disk.trace;
    var ok := disk.Unlink(ManifestPath(root));
    stuck := !ok;
    if ok {
      assert base[ManifestPath(root) := File(c)] - {ManifestPath(root)} == base;
      SafeRemoval(trace, from, before, root, disk.tree, 0);
    }
  }

  lemma CompleteBelow(base: Tree, root: Path, c: Content)
    requires Complete(base[ManifestPath(root) := File(c)], root)
    ensures Complete(base, root)
  {
    forall k | 0 <= k < 7 ensures IsDir(base, ContractDir(root, k)) {
      ContractIsElsewhere(root, k, 0);
      assert IsDir(base[ManifestPath(root) := File(c)], ContractDir(root, k));
    }
  }

  lemma ControlThere(before: Tree, base: Tree, root: Path, pr: Progress)
    requires Stage(before, base, root, pr) && InEmptyControl(before, root, pr)
    ensures IsDir(base, Control(root))
  {
    StageAdds(before, base, root, pr, 0);
    hide Stage;
    if !pr.control {
      assert IsDir(before, Control(root));
    } else if Control(root) in before {
      assert base[Control(root)] == before[Control(root)];
      ControlWasThere(before, base, root, pr);
    }
  }
}
