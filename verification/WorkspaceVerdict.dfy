/** Which result belongs to which tree. */
module WorkspaceVerdict {
  // Without faults the tree, the name and what opening answers decide the result of initialization; each
  // result, and each error in particular, has its exact condition, and a second call finds the workspace.

  import opened Text
  import opened WorkspaceDisk
  import opened WorkspaceInit
  import opened WorkspaceTransaction
  import opened WorkspaceManifest
  import opened WorkspaceInitialize

  /** A name is given, and nothing on the way to the contract is a link or a file where a directory belongs. */
  ghost predicate Reachable(site: Site, t: Tree, name: Str) {
    name != [] && PathsOrdinary(t, site.root) && AboveOrdinary(t, site.root)
  }

  /** Where opening is asked about a tree, and which: the one with its manifest there or just published. */
  ghost function Asked(site: Site, t: Tree, workspaceId: Str, name: Str): Option<Tree> {
    if !Reachable(site, t, name) then None
    else if ManifestPath(site.root) in t then if Complete(t, site.root) then Some(t) else None
    else if Startable(t, site.root) && Encodable(name) && Encodable(workspaceId) then
      Some(Made(t, site.root)[ManifestPath(site.root) := File(Manifest(workspaceId, name))])
    else None
  }

  /**
   An existing workspace is returned under its own identifier, if and only if the manifest and the contract
   are there and opening finds the name that was asked for.
   */
  lemma ReopenedExactly(site: Site, t: Tree, workspaceId: Str, name: Str, id: Str)
    ensures Verdict(site, t, workspaceId, name) == Ok(Initialization(id, name, false))
      <==> && name != [] && PathsOrdinary(t, site.root) && AboveOrdinary(t, site.root)
           && ManifestPath(site.root) in t && Complete(t, site.root) && site.open(t) == Some((id, name))
  {
    hide PathsOrdinary, AboveOrdinary, IsEmptyDir, Complete, Made, Encodable, ManifestBytes;
  }

  /** Success gives what opening finds, under the name asked for, and tells a new workspace from an old one. */
  lemma SucceedsExactly(site: Site, t: Tree, workspaceId: Str, name: Str, r: Initialization)
    ensures Verdict(site, t, workspaceId, name) == Ok(r)
      <==> && Asked(site, t, workspaceId, name).Some? && r.name == name
           && site.open(Asked(site, t, workspaceId, name).value) == Some((r.workspaceId, name))
           && (r.created <==> ManifestPath(site.root) !in t)
  {
    hide PathsOrdinary, AboveOrdinary, IsEmptyDir, Complete, Made, Encodable, ManifestBytes;
    ManifestEncodesExactly(workspaceId, name);
  }

  /** Each error of a call without faults, and exactly when it is the one. */
  lemma FailsExactly(site: Site, t: Tree, workspaceId: Str, name: Str)
    ensures var v, asked := Verdict(site, t, workspaceId, name), Asked(site, t, workspaceId, name);
      && (v == Err(NameInvalid) <==> name == [])
      && (v == Err(PathInvalid) <==> name != [] && !PathsOrdinary(t, site.root))
      && (v == Err(ControlConflict)
          <==> Reachable(site, t, name) && ManifestPath(site.root) !in t
               && Control(site.root) in t && !IsEmptyDir(t, Control(site.root)))
      && (v == Err(AlreadyInitialized)
          <==> asked.Some? && site.open(asked.value).Some? && site.open(asked.value).value.1 != name)
      && (v == Err(WorkspaceInvalid)
          <==> (asked.Some? && site.open(asked.value).None?)
               || (Reachable(site, t, name) && ManifestPath(site.root) in t && !Complete(t, site.root)))
      && (v == Err(CreateFailed)
          <==> name != [] && PathsOrdinary(t, site.root)
               && (!AboveOrdinary(t, site.root)
                   || (Startable(t, site.root) && !(Encodable(name) && Encodable(workspaceId)))))
  {
    hide PathsOrdinary, AboveOrdinary, IsEmptyDir, Complete, Made, Encodable, ManifestBytes;
    ManifestEncodesExactly(workspaceId, name);
  }

  // ---------------------------------------------------------------- a second call

  /** The tree with a new workspace in it. */
  function Initialized(t: Tree, root: Path, workspaceId: Str, name: Str): Tree {
    Made(t, root)[ManifestPath(root) := File(Manifest(workspaceId, name))]
  }

  /** The tree after a call that succeeded. */
  function After(t: Tree, root: Path, workspaceId: Str, name: Str, created: bool): Tree {
    if created then Initialized(t, root, workspaceId, name) else t
  }

  /** After a successful call the same name finds the same workspace. */
  lemma StaysInitialized(site: Site, t: Tree, workspaceId: Str, name: Str, r: Initialization, otherId: Str)
    requires Rooted(t) && Verdict(site, t, workspaceId, name) == Ok(r)
    ensures var u := After(t, site.root, workspaceId, name, r.created);
      Rooted(u) && Verdict(site, u, otherId, name) == Ok(r.(created := false))
  {
    hide PathsOrdinary, AboveOrdinary, IsEmptyDir, Complete, Made, Encodable, ManifestBytes, Rooted, Startable,
      ReopenVerdict, Verdict, Ordinary;
    SucceedsExactly(site, t, workspaceId, name, r);
    var u := After(t, site.root, workspaceId, name, r.created);
    if r.created { InitializedIsOrdinary(t, site.root, workspaceId, name); }
    ReopenedExactly(site, u, otherId, name, r.workspaceId);
  }

  lemma InitializedIsOrdinary(t: Tree, root: Path, workspaceId: Str, name: Str)
    requires Rooted(t) && PathsOrdinary(t, root) && AboveOrdinary(t, root) && ManifestPath(root) !in t
    ensures var u := Initialized(t, root, workspaceId, name);
      Rooted(u) && PathsOrdinary(u, root) && AboveOrdinary(u, root) && ManifestPath(root) in u && Complete(u, root)
  {
    NeededAreDirs(t, root);
    MadeIsRooted(t, root);
    hide Made, Needed, PathsOrdinary, AboveOrdinary, Rooted, Complete;
    MadeHasAll(Made(t, root), root);
    ManifestIsNotMade(t, root);
    PublishedIsOrdinary(Made(t, root), root, Manifest(workspaceId, name));
  }

  /** All that a workspace needs is a directory of the tree. */
  ghost predicate HasAll(t: Tree, root: Path) {
    && IsDir(t, Control(root)) && (forall j | 0 <= j <= |root| :: IsDir(t, root[..j]))
    && forall k | 0 <= k < 7 :: IsDir(t, ContractDir(root, k))
  }

  lemma MadeHasAll(t: Tree, root: Path)
    requires forall p | p in Needed(root) :: IsDir(t, p)
    ensures HasAll(t, root)
  {
    hide Needed;
    ControlIsNeeded(root);
    forall k: nat | k < 7 ensures IsDir(t, ContractDir(root, k)) { ContractIsNeeded(root, k); }
    forall j | 0 <= j <= |root| ensures IsDir(t, root[..j]) { AboveIsNeeded(root, j); }
  }

  lemma ManifestIsNotMade(t: Tree, root: Path)
    requires ManifestPath(root) !in t
    ensures ManifestPath(root) !in Made(t, root)
  {
    assert |ManifestPath(root)| == |root| + 2;
    forall k | 0 <= k < 7 ensures ContractDir(root, k) != ManifestPath(root) { ContractIsElsewhere(root, k, 0); }
  }

  lemma PublishedIsOrdinary(t: Tree, root: Path, c: Content)
    requires Rooted(t) && HasAll(t, root) && ManifestPath(root) !in t
    ensures var u := t[ManifestPath(root) := File(c)];
      Rooted(u) && PathsOrdinary(u, root) && AboveOrdinary(u, root) && ManifestPath(root) in u && Complete(u, root)
  {
    var u := t[ManifestPath(root) := File(c)];
    assert |ManifestPath(root)| == |root| + 2;
    forall k | 0 <= k < 7 ensures IsDir(u, ContractDir(root, k)) { ContractIsElsewhere(root, k, 0); }
    assert AboveOrdinary(u, root);
    assert IsDir(u, Control(root));
    PublishedIsRooted(t, root, c);
    hide Rooted;
  }

  lemma PublishedIsRooted(t: Tree, root: Path, c: Content)
    requires Rooted(t) && IsDir(t, Control(root)) && ManifestPath(root) !in t
    ensures Rooted(t[ManifestPath(root) := File(c)])
  {
    var m := ManifestPath(root);
    var u := t[m := File(c)];
    assert IsDir(u, []);
    forall p | p in u && p != [] ensures IsDir(u, Parent(p)) {
      if p != m { assert IsDir(t, Parent(p)); }
    }
  }

  lemma ControlIsNeeded(root: Path)
    ensures Control(root) in Needed(root)
  {
  }

  lemma ContractIsNeeded(root: Path, k: nat)
    requires k < 7
    ensures ContractDir(root, k) in Needed(root)
  {
  }

  lemma AboveIsNeeded(root: Path, j: nat)
    requires j <= |root|
    ensures root[..j] in Needed(root)
  {
  }

  lemma NeededAreDirs(t: Tree, root: Path)
    requires PathsOrdinary(t, root) && AboveOrdinary(t, root)
    ensures forall p | p in Needed(root) :: IsDir(Made(t, root), p)
  {
    forall p | p in Needed(root) ensures Ordinary(t, p) {
      if j :| 0 <= j <= |root| && p == root[..j] {
      } else if p != Control(root) {
        var k: nat :| k < 7 && p == ContractDir(root, k);
      }
    }
  }

  /** The needed directories are closed under going up. */
  lemma ParentIsNeeded(root: Path, p: Path)
    requires p in Needed(root) && p != []
    ensures Parent(p) in Needed(root)
  {
    if j :| 0 <= j <= |root| && p == root[..j] {
      assert Parent(p) == root[..j - 1];
      AboveIsNeeded(root, j - 1);
    } else if p == Control(root) {
      assert Parent(p) == root[..|root|];
      AboveIsNeeded(root, |root|);
    } else {
      var k: nat :| k < 7 && p == ContractDir(root, k);
      ContractParent(root, k);
    }
  }

  lemma ContractParent(root: Path, k: nat)
    requires k < 7
    ensures ContractDir(root, k) != [] && Parent(ContractDir(root, k)) in Needed(root)
  {
    var p := Parent(ContractDir(root, k));
    if |CONTRACT[k]| == 1 {
      assert p == root[..|root|];
      AboveIsNeeded(root, |root|);
    } else {
      var up := if k < 3 then 0 else 3;
      assert p == ContractDir(root, up);
      ContractIsNeeded(root, up);
    }
  }

  lemma MadeIsRooted(t: Tree, root: Path)
    requires Rooted(t) && forall p | p in Needed(root) :: IsDir(Made(t, root), p)
    ensures Rooted(Made(t, root))
  {
    var m := Made(t, root);
    forall p | p in m && p != [] ensures IsDir(m, Parent(p)) {
      if p in t {
        assert IsDir(t, Parent(p));
      } else {
        assert p in Needed(root);
        ParentIsNeeded(root, p);
      }
    }
  }
}
