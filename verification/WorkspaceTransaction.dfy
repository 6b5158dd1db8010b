/**
 The stages of an attempt of `initialize_workspace`: the root, the control directory, the contract
 directories, the temporary file and the atomic publication of the manifest, for every operation
 that can fail in them.
 */
module WorkspaceTransaction {
  import opened Text
  import opened WorkspaceDisk
  import opened WorkspaceInit
  import opened WorkspaceManifest

  /**
   How far an attempt came: the root path was there up to length `a` and has been made up to length
   `k`, the control directory was made or not, and these contract directories were made.
   */
  datatype Progress = Progress(a: nat, k: nat, control: bool, created: seq<Path>)

  function Outer(root: Path, pr: Progress): seq<Path>
    requires pr.a <= pr.k <= |root|
  {
    Rungs(root, pr.a, pr.k) + if pr.control then [Control(root)] else []
  }

  ghost predicate IsContract(root: Path, p: Path) {
    exists k | 0 <= k < 7 :: p == ContractDir(root, k)
  }

  /** The tree of an attempt is the initial one and the directories it has made. */
  ghost predicate Stage(before: Tree, t: Tree, root: Path, pr: Progress) {
    && Rooted(before) && pr.a <= pr.k <= |root|
    && Grown(before, Outer(root, pr) + pr.created) && t == WithDirs(before, Outer(root, pr) + pr.created)
    && (pr.a == |root| <==> root in before)
    && (pr.control || pr.created != [] ==> pr.k == |root|)
    && forall p | p in pr.created :: IsContract(root, p)
  }

  lemma ContractIsElsewhere(root: Path, k: nat, id: nat)
    requires k < 7
    ensures var p := ContractDir(root, k);
      p != [] && p != Control(root) && p != ManifestPath(root) && p != TempPath(root, id) && p != root && !(p <= root)
      && Parent(p) != Control(root)
  {
    assert ContractDir(root, k)[|root|] == CONTRACT[k][0];
    assert Control(root)[|root|] == LlmWiki && ManifestPath(root)[|root|] == LlmWiki
      && TempPath(root, id)[|root|] == LlmWiki;
    if |CONTRACT[k]| == 2 { assert Parent(ContractDir(root, k))[|root|] == CONTRACT[k][0]; }
  }

  /** What a stage can have made: directories other than the manifest and the temporary file. */
  ghost predicate MadeDir(root: Path, pr: Progress, id: nat, p: Path) {
    p != ManifestPath(root) && p != TempPath(root, id) && (p == Control(root) ==> pr.control)
    && (p == root ==> pr.k == |root| > pr.a)
  }

  lemma MadeDirs(root: Path, pr: Progress, id: nat, p: Path)
    requires pr.a <= pr.k <= |root| && p in Outer(root, pr) + pr.created
    requires forall q | q in pr.created :: IsContract(root, q)
    ensures MadeDir(root, pr, id, p)
  {
    if p in pr.created {
      var k :| 0 <= k < 7 && p == ContractDir(root, k);
      ContractIsElsewhere(root, k, id);
    } else if p in Rungs(root, pr.a, pr.k) {
      assert |p| <= |root|;
    }
  }

  lemma RootMade(root: Path, pr: Progress)
    requires pr.a < pr.k == |root|
    ensures root in Outer(root, pr) + pr.created
  {
    assert Rungs(root, pr.a, pr.k)[pr.k - pr.a - 1] == root[..pr.k] == root;
  }

  /** A stage adds nothing but directories, and not the manifest nor anything inside the control directory. */
  lemma StageAdds(before: Tree, t: Tree, root: Path, pr: Progress, id: nat)
    requires Stage(before, t, root, pr)
    ensures Rooted(t) && Keeps(before, t)
    ensures ManifestPath(root) in t ==> ManifestPath(root) in before
    ensures TempPath(root, id) in t ==> TempPath(root, id) in before
    ensures Control(root) in t <==> pr.control || Control(root) in before
    ensures root in t <==> pr.k == |root|
    ensures forall p | p in pr.created :: p !in before
    ensures forall p | p in t && p !in before :: t[p] == Dir
  {
    var ps := Outer(root, pr) + pr.created;
    WithDirsKeys(before, ps);
    GrownRooted(before, ps);
    forall p | p in ps ensures MadeDir(root, pr, id, p) { MadeDirs(root, pr, id, p); }
    if pr.a < pr.k == |root| { RootMade(root, pr); }
    assert pr.control ==> Control(root) in ps;
    hide Grown, Rooted, WithDirs, Outer, Keeps;
  }

  lemma StagePathsOrdinary(before: Tree, t: Tree, root: Path, pr: Progress)
    requires Stage(before, t, root, pr) && PathsOrdinary(before, root)
    ensures PathsOrdinary(t, root)
  {
    StageAdds(before, t, root, pr, 0);
    hide Stage, Rooted;
  }

  lemma SafeIfNoManifestAdded(before: Tree, t: Tree, root: Path)
    requires Keeps(before, t) && (ManifestPath(root) in t ==> ManifestPath(root) in before)
    ensures Safe(before, root) ==> Safe(t, root)
  {
    if Safe(before, root) && ManifestPath(root) in t {
      forall k | 0 <= k < 7 ensures IsDir(t, ContractDir(root, k)) { assert IsDir(before, ContractDir(root, k)); }
    }
  }

  lemma RecentMore(trace: seq<Tree>, from: nat, before: Tree, root: Path, t: Tree)
    requires Recent(trace, from, before, root) && (Safe(before, root) ==> Safe(t, root)) && Keeps(before, t)
    ensures Recent(trace + [t], from, before, root)
  {
    hide Safe, Keeps;
  }

  lemma RecentFromAbove(trace: seq<Tree>, from: nat, before: Tree, root: Path)
    requires RecentAbove(trace, from, before, root)
    ensures Recent(trace, from, before, root)
  {
    forall i | from <= i < |trace| ensures (Safe(before, root) ==> Safe(trace[i], root)) && Keeps(before, trace[i]) {
      assert OnlyAbove(before, trace[i], root);
      assert |ManifestPath(root)| > |root|;
      SafeIfNoManifestAdded(before, trace[i], root);
    }
  }

  lemma StageStart(t: Tree, u: Tree, root: Path, a: nat, k: nat)
    requires Climbed(t, u, root, a, k) && (a == |root| <==> root in t)
    ensures Stage(t, u, root, Progress(a, k, false, []))
  {
    assert Rungs(root, a, k) + [] + [] == Rungs(root, a, k);
  }

  lemma StageControl(before: Tree, t: Tree, root: Path, pr: Progress)
    requires Stage(before, t, root, pr) && !pr.control && pr.created == [] && pr.k == |root|
    requires CanMake(t, Control(root))
    ensures Stage(before, t[Control(root) := Dir], root, pr.(control := true))
  {
    var ps := Outer(root, pr);
    assert ps + pr.created == ps == Rungs(root, pr.a, pr.k);
    assert Outer(root, pr.(control := true)) + [] == ps + [Control(root)];
    GrownOneMore(before, ps, Control(root));
    WithOneMore(before, ps, Control(root));
  }

  lemma StageContract(before: Tree, t: Tree, root: Path, pr: Progress, k: nat)
    requires Stage(before, t, root, pr) && k < 7 && pr.k == |root|
    requires ContractDir(root, k) != [] && CanMake(t, ContractDir(root, k))
    ensures Stage(before, t[ContractDir(root, k) := Dir], root, pr.(created := pr.created + [ContractDir(root, k)]))
  {
    var ps, p := Outer(root, pr) + pr.created, ContractDir(root, k);
    assert Outer(root, pr) + (pr.created + [p]) == ps + [p];
    hide Grown, Rooted, CanMake, WithDirs;
    GrownOneMore(before, ps, p);
    WithOneMore(before, ps, p);
    assert IsContract(root, p);
    hide IsContract, Outer;
  }

  lemma Untouched(t: Tree, root: Path) returns (pr: Progress)
    requires Rooted(t)
    ensures Stage(t, t, root, pr) && pr.a == pr.k && !pr.control && pr.created == []
  {
    var a := 0;
    assert root[..0] == [] && root[..|root|] == root;
    while a < |root| && root[..a + 1] in t
      invariant 0 <= a <= |root| && root[..a] in t
    {
      a := a + 1;
    }
    ClimbStart(t, root, a);
    if a < |root| { assert root[..|root|] !in t; }
    StageStart(t, t, root, a, a);
    pr := Progress(a, a, false, []);
  }

  lemma ControlOrdinary(t: Tree, root: Path)
    requires PathsOrdinary(t, root)
    ensures Ordinary(t, Control(root))
  {
  }

  lemma NothingDone(trace: seq<Tree>, before: Tree, root: Path)
    ensures Recent(trace, |trace|, before, root)
  {
  }

  // ---------------------------------------------------------------- the attempt

  /** The local variables of the function that the roll-back looks at. */
  datatype Locals = Locals(
    created: seq<Path>, rootCreated: bool, controlCreated: bool, temporary: Option<Path>, manifestCreated: bool)

  /** The locals tell what was made; a flag may be set for something that was then not made. */
  ghost predicate Told(before: Tree, root: Path, pr: Progress, l: Locals) {
    && l.created == pr.created
    && (l.rootCreated ==> root !in before) && (pr.a < |root| && pr.k == |root| ==> l.rootCreated)
    && (l.controlCreated ==> Control(root) !in before) && (pr.control ==> l.controlCreated)
  }

  /**
   While an attempt runs: the tree is a stage, and every tree since it began keeps what was there and is safe
   if that was.
   */
  ghost predicate Going(disk: Disk, before: Tree, from: nat, root: Path, pr: Progress)
    reads disk
  {
    disk.Recorded() && Stage(before, disk.tree, root, pr) && from <= |disk.trace|
    && Recent(disk.trace, from, before, root)
  }

  /** What stops the preparation of the root, if nothing fails by itself. */
  ghost function RootVerdict(t: Tree, root: Path): Option<InitError> {
    if !PathsOrdinary(t, root) then Some(PathInvalid)
    else if !AboveOrdinary(t, root) then Some(CreateFailed)
    else None
  }

  /** How many operations prepare the root. */
  function RootSteps(t: Tree, root: Path): nat {
    10 + |root| - Existing(t, root)
  }

  method PrepareRoot(disk: Disk, root: Path)
    returns (failed: Option<InitError>, rootCreated: bool, ghost pr: Progress)
    requires disk.Recorded() && Rooted(disk.tree)
    modifies disk`tree, disk`step, disk`trace
    ensures Going(disk, old(disk.tree), |old(disk.trace)|, root, pr) && disk.step >= old(disk.step)
    ensures !pr.control && pr.created == []
    ensures Told(old(disk.tree), root, pr, Locals([], rootCreated, false, None, false))
    ensures failed.None? ==> IsDir(disk.tree, root) && pr.k == |root|
    ensures disk.step <= old(disk.step) + RootSteps(old(disk.tree), root)
    ensures failed.None? ==> disk.step == old(disk.step) + RootSteps(old(disk.tree), root)
    ensures disk.Clear(old(disk.step), disk.step) ==> failed == RootVerdict(old(disk.tree), root)
  {
    hide Stage, Climbed, Safe, Keeps, Rooted, Recent, RecentAbove, PathsOrdinary, AboveOrdinary;
    ghost var before := disk.tree;
    ghost var from := |disk.trace|;
    rootCreated := false;
    NothingDone(disk.trace, before, root);
    pr := Untouched(before, root);
    var ok := Preflight(disk, root);
    if !ok { return Some(PathInvalid), rootCreated, pr; }
    var there := disk.Exists(root);
    if there.None? { return Some(CreateFailed), rootCreated, pr; }
    rootCreated := !there.value;
    ghost var a, k;
    ok, a, k := MakeParents(disk, root);
    StageStart(before, disk.tree, root, a, k);
    pr := Progress(a, k, false, []);
    RecentFromAbove(disk.trace, from, before, root);
    failed := if ok then None else Some(CreateFailed);
  }

  method PrepareControl(disk: Disk, root: Path, ghost before: Tree, ghost from: nat, ghost was: Progress,
          rootCreated: bool)
    returns (failed: Option<InitError>, controlCreated: bool, ghost pr: Progress)
    requires Going(disk, before, from, root, was) && !was.control && was.created == []
    requires Told(before, root, was, Locals([], rootCreated, false, None, false))
    requires IsDir(disk.tree, root) && was.k == |root|
    modifies disk`tree, disk`step, disk`trace
    ensures Going(disk, before, from, root, pr) && disk.step >= old(disk.step) && pr.created == []
    ensures Told(before, root, pr, Locals([], rootCreated, controlCreated, None, false))
    ensures failed.None? ==> IsDir(disk.tree, Control(root)) && PathsOrdinary(disk.tree, root) && pr.k == |root|
    ensures disk.step <= old(disk.step) + 11 && (failed.None? ==> disk.step == old(disk.step) + 11)
    ensures disk.Clear(old(disk.step), disk.step) && PathsOrdinary(before, root) ==> failed.None?
  {
    hide Stage, Safe, Keeps, Rooted, Recent, PathsOrdinary;
    controlCreated := false;
    pr := was;
    StageAdds(before, disk.tree, root, pr, 0);
    if PathsOrdinary(before, root) {
      StagePathsOrdinary(before, disk.tree, root, pr);
      ControlOrdinary(disk.tree, root);
    }
    var there := disk.Exists(Control(root));
    if there.None? { return Some(CreateFailed), controlCreated, pr; }
    controlCreated := !there.value;
    ghost var t := disk.tree;
    ghost var trace := disk.trace;
    var made := disk.Mkdir(Control(root));
    if made {
      StageControl(before, t, root, pr);
      pr := pr.(control := true);
      StageAdds(before, disk.tree, root, pr, 0);
      SafeIfNoManifestAdded(before, disk.tree, root);
      RecentMore(trace, from, before, root, disk.tree);
    }
    if !IsDir(disk.tree, Control(root)) { return Some(CreateFailed), controlCreated, pr; }
    if PathsOrdinary(before, root) { StagePathsOrdinary(before, disk.tree, root, pr); }
    var ok := Preflight(disk, root);
    failed := if ok then None else Some(PathInvalid);
  }

  // ---------------------------------------------------------------- the contract directories

  /** A contract directory lies in the root or in a contract directory listed before it. */
  lemma ContractParent(root: Path, k: nat)
    requires k < 7
    ensures var p := ContractDir(root, k);
      p != [] && (Parent(p) == root || exists j | 0 <= j < k :: Parent(p) == ContractDir(root, j))
  {
    var p := ContractDir(root, k);
    if k == 1 || k == 2 { assert Parent(p) == ContractDir(root, 0); }
    else if k == 4 || k == 5 { assert Parent(p) == ContractDir(root, 3); }
    else { assert Parent(p) == root; }
  }

  ghost predicate Partly(t: Tree, root: Path, n: nat)
    requires n <= 7
  {
    forall j | 0 <= j < n :: IsDir(t, ContractDir(root, j))
  }

  lemma PartlyCanMake(t: Tree, root: Path, k: nat)
    requires k < 7 && Partly(t, root, k) && IsDir(t, root) && ContractDir(root, k) !in t
    ensures ContractDir(root, k) != [] && CanMake(t, ContractDir(root, k))
  {
    ContractParent(root, k);
  }

  lemma PartlyMore(t: Tree, u: Tree, root: Path, k: nat)
    requires k < 7 && Partly(t, root, k) && PathsOrdinary(t, root)
    requires (u == t && ContractDir(root, k) in t) || u == t[ContractDir(root, k) := Dir]
    ensures Partly(u, root, k + 1) && PathsOrdinary(u, root)
    ensures IsDir(t, root) ==> IsDir(u, root)
    ensures IsDir(t, Control(root)) ==> IsDir(u, Control(root))
  {
  }

  /** How many of the first `n` contract directories are not there. */
  function Missing(t: Tree, root: Path, n: nat): (m: nat)
    requires n <= 7
    ensures m <= n
  {
    if n == 0 then 0 else Missing(t, root, n - 1) + (if ContractDir(root, n - 1) in t then 0 else 1)
  }

  lemma {:induction false} MissingGrows(t: Tree, root: Path, k: nat, n: nat)
    requires k <= n <= 7
    ensures Missing(t, root, k) <= Missing(t, root, n)
  {
    if k < n { MissingGrows(t, root, k, n - 1); }
  }

  /** Making one contract directory is not making another. */
  lemma MissingOnly(t: Tree, root: Path, k: nat)
    requires k < 7
    ensures Missing(t, root, k + 1) <= Missing(t, root, 7)
    ensures forall j | 0 <= j < 7 && j != k :: ContractDir(root, j) != ContractDir(root, k)
  {
    MissingGrows(t, root, k + 1, 7);
    forall j | 0 <= j < 7 && j != k ensures ContractDir(root, j) != ContractDir(root, k) {
      assert ContractDir(root, j)[|root|..] == CONTRACT[j] && ContractDir(root, k)[|root|..] == CONTRACT[k];
    }
  }

  method MakeContract(disk: Disk, root: Path, ghost before: Tree, ghost from: nat, ghost was: Progress)
    returns (ok: bool, created: seq<Path>, ghost pr: Progress)
    requires Going(disk, before, from, root, was) && was.created == [] && was.k == |root|
    requires PathsOrdinary(disk.tree, root) && IsDir(disk.tree, root) && IsDir(disk.tree, Control(root))
    modifies disk`tree, disk`step, disk`trace
    ensures Going(disk, before, from, root, pr) && disk.step >= old(disk.step)
    ensures pr == was.(created := created) && IsDir(disk.tree, Control(root))
    ensures ok ==> Complete(disk.tree, root)
    ensures disk.step <= old(disk.step) + 7 + Missing(old(disk.tree), root, 7)
    ensures ok ==> disk.step == old(disk.step) + 7 + Missing(old(disk.tree), root, 7)
    ensures disk.Clear(old(disk.step), disk.step) ==> ok
  {
    hide Stage, Safe, Keeps, Rooted, Recent, PathsOrdinary, Partly;
    ok, created, pr := true, [], was;
    assert Partly(disk.tree, root, 0) by { PartlyNone(disk.tree, root); }
    assert was.(created := []) == was;
    var k := 0;
    ghost var start := disk.tree;
    while k < 7
      invariant 0 <= k <= 7 && disk.step == old(disk.step) + k + Missing(start, root, k)
      invariant forall j | k <= j < 7 :: ContractDir(root, j) in disk.tree <==> ContractDir(root, j) in start
      invariant Going(disk, before, from, root, pr) && pr == was.(created := created)
      invariant Partly(disk.tree, root, k) && PathsOrdinary(disk.tree, root)
      invariant IsDir(disk.tree, root) && IsDir(disk.tree, Control(root))
    {
      var p := ContractDir(root, k);
      MissingOnly(start, root, k);
      var there := disk.Exists(p);
      if there.None? { return false, created, pr; }
      ghost var t := disk.tree;
      if !there.value {
        ghost var trace := disk.trace;
        PartlyCanMake(t, root, k);
        var made := disk.Mkdir(p);
        if !made { return false, created, pr; }
        StageContract(before, t, root, pr, k);
        created := created + [p];
        pr := pr.(created := created);
        StageAdds(before, disk.tree, root, pr, 0);
        SafeIfNoManifestAdded(before, disk.tree, root);
        RecentMore(trace, from, before, root, disk.tree);
      }
      PartlyMore(t, disk.tree, root, k);
      k := k + 1;
    }
    PartlyAll(disk.tree, root);
  }

  lemma PartlyNone(t: Tree, root: Path)
    ensures Partly(t, root, 0)
  {
  }

  lemma PartlyAll(t: Tree, root: Path)
    requires Partly(t, root, 7)
    ensures Complete(t, root)
  {
  }

  // ---------------------------------------------------------------- publishing the manifest

  /** What lies in the control directory when an attempt ends. */
  datatype Leftover = Nothing | TempLeft(content: Content) | ManifestLeft(content: Content)

  function WithLeftover(t: Tree, root: Path, id: nat, x: Leftover): Tree {
    match x
    case Nothing => t
    case TempLeft(c) => t[TempPath(root, id) := File(c)]
    case ManifestLeft(c) => t[ManifestPath(root) := File(c)]
  }

  function Base(before: Tree, root: Path, pr: Progress): Tree
    requires pr.a <= pr.k <= |root|
  {
    WithDirs(before, Outer(root, pr) + pr.created)
  }

  /** How an attempt that did not find a manifest ends. */
  ghost predicate Halted(disk: Disk, before: Tree, from: nat, root: Path, pr: Progress, id: nat, x: Leftover)
    reads disk
  {
    disk.Recorded() && HaltedAt(disk.tree, disk.trace, before, from, root, pr, id, x)
  }

  ghost predicate HaltedAt(t: Tree, trace: seq<Tree>, before: Tree, from: nat, root: Path, pr: Progress, id: nat,
          x: Leftover) {
    && pr.a <= pr.k <= |root| && Stage(before, Base(before, root, pr), root, pr)
    && t == WithLeftover(Base(before, root, pr), root, id, x)
    && from <= |trace| && Recent(trace, from, before, root)
    && (x != Nothing ==> InEmptyControl(before, root, pr))
    && (x.ManifestLeft? ==> Complete(t, root))
  }

  /** The control directory is there and was empty or has just been made. */
  ghost predicate InEmptyControl(before: Tree, root: Path, pr: Progress) {
    pr.k == |root| && (pr.control || IsEmptyDir(before, Control(root)))
    && (forall p | p in before && p != [] :: Parent(p) != Control(root))
  }

  /** What opening the workspace of a tree under a wanted name gives, if nothing fails by itself. */
  function OpenVerdict(site: Site, t: Tree, name: Str, created: bool): Result<Initialization, InitError> {
    match site.open(t)
    case None => Err(WorkspaceInvalid)
    case Some((id, found)) => if found != name then Err(AlreadyInitialized) else Ok(Initialization(id, found, created))
  }

  /** What publishing gives on a tree with all directories: nothing can be opened if the manifest cannot be written. */
  function PublishVerdict(site: Site, t: Tree, workspaceId: Str, name: Str): Result<Initialization, InitError> {
    if ManifestBytes(workspaceId, name).None? then Err(CreateFailed)
    else OpenVerdict(site, t[ManifestPath(site.root) := File(Manifest(workspaceId, name))], name, true)
  }

  method OpenInitialized(disk: Disk, site: Site, name: Str, created: bool)
    returns (r: Result<Initialization, InitError>)
    modifies disk`step
    ensures disk.step == old(disk.step) + 1
    ensures r == if disk.faults(old(disk.step)) then Err(CreateFailed) else OpenVerdict(site, disk.tree, name, created)
  {
    var fault := disk.faults(disk.step);
    disk.step := disk.step + 1;
    if fault { return Err(CreateFailed); }
    match site.open(disk.tree)
    case None => r := Err(WorkspaceInvalid);
    case Some((id, found)) =>
      r := if found != name then Err(AlreadyInitialized) else Ok(Initialization(id, found, created));
  }

  lemma LeftoverSafe(before: Tree, root: Path, pr: Progress, id: nat, x: Leftover)
    requires pr.a <= pr.k <= |root| && Stage(before, Base(before, root, pr), root, pr)
    requires InEmptyControl(before, root, pr)
    requires x.ManifestLeft? ==> Complete(Base(before, root, pr), root)
    ensures var t := WithLeftover(Base(before, root, pr), root, id, x);
      (Safe(before, root) ==> Safe(t, root)) && Keeps(before, t) && (x.ManifestLeft? ==> Complete(t, root))
  {
    var base := Base(before, root, pr);
    StageAdds(before, base, root, pr, id);
    var t := WithLeftover(base, root, id, x);
    assert ManifestPath(root) !in before && TempPath(root, id) !in before;
    assert ManifestPath(root) != TempPath(root, id) by {
      assert ManifestPath(root)[|root| + 1] != TempPath(root, id)[|root| + 1];
    }
    hide Stage, Rooted, Base;
    if x.ManifestLeft? {
      forall k | 0 <= k < 7 ensures IsDir(t, ContractDir(root, k)) {
        assert IsDir(base, ContractDir(root, k));
        ContractIsElsewhere(root, k, id);
      }
    }
  }

  lemma FreshInControl(before: Tree, root: Path, pr: Progress, id: nat)
    requires pr.a <= pr.k <= |root| && Stage(before, Base(before, root, pr), root, pr)
    requires InEmptyControl(before, root, pr)
    ensures var base := Base(before, root, pr);
      ManifestPath(root) !in base && TempPath(root, id) !in base && ManifestPath(root) != TempPath(root, id)
  {
    StageAdds(before, Base(before, root, pr), root, pr, id);
    assert ManifestPath(root)[|root| + 1] != TempPath(root, id)[|root| + 1];
    hide Stage, Rooted, Base;
    assert ManifestPath(root) !in before && TempPath(root, id) !in before;
  }

  method WriteTemporary(disk: Disk, root: Path, content: Option<Content>, id: nat, ghost before: Tree, ghost from: nat,
          ghost pr: Progress)
    returns (ok: bool, ghost x: Leftover)
    requires Going(disk, before, from, root, pr) && InEmptyControl(before, root, pr) && IsDir(disk.tree, Control(root))
    modifies disk`tree, disk`step, disk`trace
    ensures Halted(disk, before, from, root, pr, id, x) && disk.step >= old(disk.step)
    ensures !x.ManifestLeft? && (ok ==> content.Some? && x == TempLeft(content.value))
    ensures (x.TempLeft? <==> !disk.faults(old(disk.step)))
    ensures disk.step == old(disk.step) + 2 && (ok <==> content.Some? && disk.Clear(old(disk.step), disk.step))
  {
    ghost var base := disk.tree;
    assert base == Base(before, root, pr);
    FreshInControl(before, root, pr, id);
    assert CanMake(base, TempPath(root, id)) by { assert Parent(TempPath(root, id)) == Control(root); }
    hide Stage, Safe, Keeps, Rooted, Recent, Base, InEmptyControl, CanMake, IsDir;
    ghost var trace := disk.trace;
    ghost var start := disk.step;
    ok := disk.WriteNew(TempPath(root, id), content);
    WrittenSafe(disk.trace, trace, from, before, root, pr, id);
    x := if disk.faults(start) then Nothing else TempLeft(if ok then content.value else Partial);
  }

  method MoveIntoPlace(disk: Disk, root: Path, content: Content, id: nat, ghost before: Tree, ghost from: nat,
          ghost pr: Progress)
    returns (ok: bool, ghost x: Leftover)
    requires Halted(disk, before, from, root, pr, id, TempLeft(content)) && Complete(Base(before, root, pr), root)
    modifies disk`tree, disk`step, disk`trace
    ensures Halted(disk, before, from, root, pr, id, x) && disk.step == old(disk.step) + 1
    ensures x == if ok then ManifestLeft(content) else TempLeft(content)
    ensures ok <==> !disk.faults(old(disk.step))
  {
    hide Stage, Safe, Keeps, Rooted, Recent, Base, InEmptyControl, Complete;
    ghost var base := Base(before, root, pr);
    FreshInControl(before, root, pr, id);
    ghost var trace := disk.trace;
    ok := disk.Replace(TempPath(root, id), ManifestPath(root));
    x := if ok then ManifestLeft(content) else TempLeft(content);
    if ok {
      assert disk.tree == base[ManifestPath(root) := File(content)];
      LeftoverSafe(before, root, pr, id, x);
      RecentMore(trace, from, before, root, disk.tree);
    }
  }

  /**
   From step `at` on: the temporary file is made, and writing it or moving it into place fails; writing
   also fails if there are no octets to write (`written` is false).
   */
  ghost predicate PublishFails(disk: Disk, at: nat, written: bool) {
    !disk.faults(at) && (!written || disk.faults(at + 1) || disk.faults(at + 2))
  }

  /** The attempt left its temporary file, and has passed the step that failed. */
  ghost predicate LeftTemporary(disk: Disk, at: nat, now: nat, written: bool, result: Result<Initialization, InitError>,
          x: Leftover) {
    result.Err? && x.TempLeft? && now >= at + 2 && (written && !disk.faults(at + 1) ==> now >= at + 3)
  }

  method Publish(disk: Disk, site: Site, name: Str, workspaceId: Str, id: nat, ghost before: Tree, ghost from: nat,
          ghost pr: Progress)
    returns (result: Result<Initialization, InitError>, temporary: Option<Path>, manifestCreated: bool,
      ghost x: Leftover)
    requires Going(disk, before, from, site.root, pr) && InEmptyControl(before, site.root, pr)
    requires Complete(disk.tree, site.root) && IsDir(disk.tree, Control(site.root))
    modifies disk`tree, disk`step, disk`trace
    ensures Halted(disk, before, from, site.root, pr, id, x) && disk.step >= old(disk.step)
    ensures x.TempLeft? ==> temporary == Some(TempPath(site.root, id))
    ensures manifestCreated <==> x.ManifestLeft?
    ensures temporary.Some? ==> temporary == Some(TempPath(site.root, id)) && !manifestCreated
    ensures result.Ok? ==> Published(site, disk.tree, workspaceId, name, result.value, x)
    ensures disk.Clear(old(disk.step), disk.step) ==> result == PublishVerdict(site, old(disk.tree), workspaceId, name)
    ensures var written := ManifestBytes(workspaceId, name).Some?;
      PublishFails(disk, old(disk.step), written) ==> LeftTemporary(disk, old(disk.step), disk.step, written, result, x)
  {
    hide Stage, Safe, Keeps, Rooted, Recent, Base, InEmptyControl, Complete, Going, HaltedAt, IsDir, ManifestBytes,
      OpenVerdict, PublishVerdict, PublishFails, LeftTemporary, Published, Disk.Clear, Disk.Faultless;
    var root := site.root;
    var content := Manifest(workspaceId, name);
    var octets := ManifestBytes(workspaceId, name);
    ghost var whole, at := disk.tree, disk.step;
    temporary, manifestCreated := Some(TempPath(root, id)), false;
    GoingBase(disk, before, from, root, pr);
    var ok;
    ok, x := WriteTemporary(disk, root, if octets.None? then None else Some(content), id, before, from, pr);
    if !ok {
      result := Err(CreateFailed);
      NotWritten(disk, site, whole, workspaceId, name, at, result, x);
      return;
    }
    ok, x := MoveIntoPlace(disk, root, content, id, before, from, pr);
    if !ok {
      result := Err(CreateFailed);
      NotMoved(disk, at, result, x);
      return;
    }
    temporary, manifestCreated := None, true;
    PublishedTree(disk, before, from, root, pr, id, content);
    result := OpenInitialized(disk, site, name, true);
    AfterPublishing(disk, site, whole, workspaceId, name, at, result);
  }

  /** The temporary file was not written: a fault, or no octets. */
  lemma NotWritten(disk: Disk, site: Site, whole: Tree, workspaceId: Str, name: Str, at: nat,
          result: Result<Initialization, InitError>, x: Leftover)
    requires disk.step == at + 2 && result == Err(CreateFailed)
    requires !(ManifestBytes(workspaceId, name).Some? && disk.Clear(at, disk.step))
    requires (x.TempLeft? <==> !disk.faults(at))
    ensures disk.Clear(at, disk.step) ==> result == PublishVerdict(site, whole, workspaceId, name)
    ensures var written := ManifestBytes(workspaceId, name).Some?;
      PublishFails(disk, at, written) ==> LeftTemporary(disk, at, disk.step, written, result, x)
  {
    hide ManifestBytes, OpenVerdict;
    assert !disk.Clear(at, at + 2) ==> disk.faults(at) || disk.faults(at + 1);
  }

  lemma NotMoved(disk: Disk, at: nat, result: Result<Initialization, InitError>, x: Leftover)
    requires disk.step == at + 3 && disk.faults(at + 2) && result == Err(CreateFailed) && x.TempLeft?
    ensures !disk.Clear(at, disk.step) && forall written :: LeftTemporary(disk, at, disk.step, written, result, x)
  {
  }

  /** Nothing failed up to the move: the result is what opening the published tree gives. */
  lemma AfterPublishing(disk: Disk, site: Site, whole: Tree, workspaceId: Str, name: Str, at: nat,
          result: Result<Initialization, InitError>)
    requires disk.step == at + 4 && disk.Clear(at, at + 2) && !disk.faults(at + 2)
    requires ManifestBytes(workspaceId, name).Some?
    requires disk.tree == whole[ManifestPath(site.root) := File(Manifest(workspaceId, name))]
    requires result == if disk.faults(at + 3) then Err(CreateFailed) else OpenVerdict(site, disk.tree, name, true)
    ensures disk.Clear(at, disk.step) ==> result == PublishVerdict(site, whole, workspaceId, name)
    ensures !PublishFails(disk, at, true)
    ensures result.Ok?
      ==> Published(site, disk.tree, workspaceId, name, result.value, ManifestLeft(Manifest(workspaceId, name)))
  {
    hide ManifestBytes, ManifestPath;
  }

  lemma GoingBase(disk: Disk, before: Tree, from: nat, root: Path, pr: Progress)
    requires Going(disk, before, from, root, pr)
    ensures pr.a <= pr.k <= |root| && disk.tree == Base(before, root, pr)
  {
    hide Safe, Recent, Grown, Rooted;
  }

  lemma PublishedTree(disk: Disk, before: Tree, from: nat, root: Path, pr: Progress, id: nat, content: Content)
    requires Halted(disk, before, from, root, pr, id, ManifestLeft(content))
    ensures pr.a <= pr.k <= |root| && disk.tree == Base(before, root, pr)[ManifestPath(root) := File(content)]
  {
    hide Stage, Recent, Base, InEmptyControl, Complete;
  }

  /** Initialization succeeded: its manifest is in place and opening the workspace found this name. */
  ghost predicate Published(site: Site, t: Tree, workspaceId: Str, name: Str, r: Initialization, x: Leftover) {
    x == ManifestLeft(Manifest(workspaceId, name)) && r.created && r.name == name
    && site.open(t) == Some((r.workspaceId, name))
  }

  lemma WrittenSafe(trace: seq<Tree>, was: seq<Tree>, from: nat, before: Tree, root: Path, pr: Progress, id: nat)
    requires was <= trace && Recent(was, from, before, root)
    requires pr.a <= pr.k <= |root| && Stage(before, Base(before, root, pr), root, pr)
    requires InEmptyControl(before, root, pr)
    requires forall i | |was| <= i < |trace| ::
        exists c :: trace[i] == Base(before, root, pr)[TempPath(root, id) := File(c)]
    ensures Recent(trace, from, before, root)
  {
    hide Stage, Safe, Keeps, Base, InEmptyControl;
    forall i | from <= i < |trace| ensures (Safe(before, root) ==> Safe(trace[i], root)) && Keeps(before, trace[i]) {
      if i >= |was| {
        var c :| trace[i] == Base(before, root, pr)[TempPath(root, id) := File(c)];
        LeftoverSafe(before, root, pr, id, TempLeft(c));
      } else {
        assert trace[i] == was[i];
      }
    }
  }
}
