/**
 Creating a workspace as a transaction on the file system
 (backend/app/workspace_initializer.py): directories first, the manifest last and atomically,
 and a roll-back when anything fails. The initialization lock is held throughout.
 */
module WorkspaceInit {
  import opened Text
  import opened WorkspaceDisk

  datatype InitError =
    | NameInvalid
    | PathInvalid
    | WorkspaceInvalid
    | AlreadyInitialized
    | ControlConflict
    | CreateFailed

  datatype Initialization = Initialization(workspaceId: Str, name: Str, created: bool)

  /** Where the workspace is, and what opening it finds: its id and name, or an error. */
  datatype Site = Site(root: Path, open: Tree -> Option<(Str, Str)>)

  const CONTRACT: seq<Path> :=
    [[Raw], [Raw, Common], [Raw, Personal], [Wiki], [Wiki, Common], [Wiki, Personal], [Cache]]

  function ContractDir(root: Path, k: nat): Path
    requires k < 7
  {
    root + CONTRACT[k]
  }

  function Control(root: Path): (p: Path)
    ensures p != [] && Parent(p) == root
  {
    root + [LlmWiki]
  }

  function ManifestPath(root: Path): (p: Path)
    ensures p != [] && Parent(p) == Control(root)
  {
    Control(root) + [ManifestYaml]
  }

  function TempPath(root: Path, id: nat): (p: Path)
    ensures p != [] && Parent(p) == Control(root)
  {
    Control(root) + [Temp(id)]
  }

  /** All contract directories are there. */
  ghost predicate Complete(t: Tree, root: Path) {
    forall k | 0 <= k < 7 :: IsDir(t, ContractDir(root, k))
  }

  /** A manifest promises the contract directories. */
  ghost predicate Safe(t: Tree, root: Path) {
    ManifestPath(root) in t ==> Complete(t, root)
  }

  /** Everything in `before` is still there, unchanged. */
  ghost predicate Keeps(before: Tree, t: Tree) {
    forall p | p in before :: p in t && t[p] == before[p]
  }

  predicate Ordinary(t: Tree, p: Path) {
    p in t ==> t[p] == Dir
  }

  /** What the pre-flight looks for: no link and no file where a directory belongs. */
  ghost predicate PathsOrdinary(t: Tree, root: Path) {
    Ordinary(t, Control(root))
    && (ManifestPath(root) in t ==> t[ManifestPath(root)] != Link)
    && forall k | 0 <= k < 7 :: Ordinary(t, ContractDir(root, k))
  }

  /** Where initialization can start: no manifest, and the control directory absent or empty. */
  ghost predicate Startable(t: Tree, root: Path) {
    PathsOrdinary(t, root) && ManifestPath(root) !in t
    && (Control(root) in t ==> IsEmptyDir(t, Control(root)))
    && AboveOrdinary(t, root)
  }

  // ---------------------------------------------------------------- directories made one after another

  function WithDirs(t: Tree, ps: seq<Path>): Tree {
    if ps == [] then t else WithDirs(t, ps[..|ps| - 1])[ps[|ps| - 1] := Dir]
  }

  /** Each directory could be made when its turn came. */
  ghost predicate Grown(t: Tree, ps: seq<Path>) {
    forall k | 0 <= k < |ps| :: ps[k] != [] && CanMake(WithDirs(t, ps[..k]), ps[k])
  }

  lemma WithOneMore(t: Tree, ps: seq<Path>, p: Path)
    ensures WithDirs(t, ps + [p]) == WithDirs(t, ps)[p := Dir]
  {
    assert (ps + [p])[..|ps|] == ps;
  }

  lemma GrownOneMore(t: Tree, ps: seq<Path>, p: Path)
    requires Grown(t, ps) && p != [] && CanMake(WithDirs(t, ps), p)
    ensures Grown(t, ps + [p])
  {
    var qs := ps + [p];
    forall k | 0 <= k < |qs| ensures qs[k] != [] && CanMake(WithDirs(t, qs[..k]), qs[k]) {
      if k < |ps| { assert qs[..k] == ps[..k]; } else { assert qs[..k] == ps; }
    }
  }

  lemma {:induction false} WithDirsKeys(t: Tree, ps: seq<Path>)
    ensures forall p :: p in WithDirs(t, ps) <==> p in t || p in ps
    ensures forall p | p in WithDirs(t, ps) :: WithDirs(t, ps)[p] == if p in ps then Dir else t[p]
  {
    if ps != [] {
      var front := ps[..|ps| - 1];
      WithDirsKeys(t, front);
      assert ps == front + [ps[|ps| - 1]];
    }
  }

  lemma GrownFront(t: Tree, ps: seq<Path>)
    requires Grown(t, ps) && ps != []
    ensures var front, last := ps[..|ps| - 1], ps[|ps| - 1];
      Grown(t, front) && last != [] && CanMake(WithDirs(t, front), last) && ps == front + [last]
  {
    var front, last := ps[..|ps| - 1], ps[|ps| - 1];
    forall k | 0 <= k < |front| ensures front[k] != [] && CanMake(WithDirs(t, front[..k]), front[k]) {
      assert front[..k] == ps[..k];
    }
    assert CanMake(WithDirs(t, ps[..|ps| - 1]), ps[|ps| - 1]);
  }

  /** One more directory in a rooted tree: still rooted, the directory is empty, nothing else changed. */
  lemma OneMoreDir(t: Tree, p: Path)
    requires Rooted(t) && p != [] && CanMake(t, p)
    ensures Rooted(t[p := Dir]) && IsEmptyDir(t[p := Dir], p) && Keeps(t, t[p := Dir]) && t[p := Dir] - {p} == t
  {
    var u := t[p := Dir];
    forall q | q in u && q != [] ensures Parent(q) != p && IsDir(u, Parent(q)) {
      if q in t { assert IsDir(t, Parent(q)); } else { assert |Parent(q)| < |p|; }
    }
  }

  lemma {:induction false} GrownRooted(t: Tree, ps: seq<Path>)
    requires Rooted(t) && Grown(t, ps)
    ensures Rooted(WithDirs(t, ps)) && Keeps(t, WithDirs(t, ps))
    ensures forall p | p in ps :: p !in t
  {
    if ps != [] {
      var front, last := ps[..|ps| - 1], ps[|ps| - 1];
      GrownFront(t, ps);
      GrownRooted(t, front);
      hide Rooted, Grown;
      OneMoreDir(WithDirs(t, front), last);
    }
  }

  /** The directory made last is empty, and removing it undoes making it. */
  lemma LastIsEmpty(t: Tree, ps: seq<Path>)
    requires Rooted(t) && Grown(t, ps) && ps != []
    ensures var front := ps[..|ps| - 1];
      Grown(t, front) && IsEmptyDir(WithDirs(t, ps), ps[|ps| - 1])
        && WithDirs(t, ps) - {ps[|ps| - 1]} == WithDirs(t, front)
  {
    var front, last := ps[..|ps| - 1], ps[|ps| - 1];
    GrownFront(t, ps);
    GrownRooted(t, front);
    hide Rooted, Grown;
    OneMoreDir(WithDirs(t, front), last);
  }

  lemma LastOfBoth(ps: seq<Path>, qs: seq<Path>)
    requires qs != []
    ensures var front, last := qs[..|qs| - 1], qs[|qs| - 1];
      qs == front + [last] && ps + qs == (ps + front) + [last]
      && (ps + qs)[..|ps + qs| - 1] == ps + front && (ps + qs)[|ps + qs| - 1] == last
  {
  }

  lemma {:induction false} GrownConcat(t: Tree, ps: seq<Path>, qs: seq<Path>)
    requires Grown(t, ps + qs)
    ensures Grown(t, ps) && WithDirs(t, ps + qs) == WithDirs(WithDirs(t, ps), qs) && Grown(WithDirs(t, ps), qs)
    decreases |qs|
  {
    if qs == [] {
      assert ps + qs == ps;
    } else {
      hide Grown, WithDirs, CanMake;
      var front, last := qs[..|qs| - 1], qs[|qs| - 1];
      LastOfBoth(ps, qs);
      GrownFront(t, ps + qs);
      GrownConcat(t, ps, front);
      WithOneMore(t, ps + front, last);
      WithOneMore(WithDirs(t, ps), front, last);
      GrownOneMore(WithDirs(t, ps), front, last);
    }
  }

  lemma {:induction false} GrownJoin(t: Tree, ps: seq<Path>, qs: seq<Path>)
    requires Grown(t, ps) && Grown(WithDirs(t, ps), qs)
    ensures Grown(t, ps + qs) && WithDirs(t, ps + qs) == WithDirs(WithDirs(t, ps), qs)
    decreases |qs|
  {
    if qs == [] {
      assert ps + qs == ps;
    } else {
      var front, last := qs[..|qs| - 1], qs[|qs| - 1];
      GrownFront(WithDirs(t, ps), qs);
      GrownJoin(t, ps, front);
      assert ps + qs == (ps + front) + [last];
      hide Grown;
      GrownOneMore(t, ps + front, last);
      WithOneMore(t, ps + front, last);
    }
  }

  // ---------------------------------------------------------------- steps

  /** Every tree recorded from `from` on keeps what was there before. */
  ghost predicate AllKeep(trace: seq<Tree>, from: nat, before: Tree) {
    forall i | from <= i < |trace| :: Keeps(before, trace[i])
  }

  /** The same, and every such tree is safe if the one before was. */
  ghost predicate Recent(trace: seq<Tree>, from: nat, before: Tree, root: Path) {
    AllKeep(trace, from, before) && (Safe(before, root) ==> forall i | from <= i < |trace| :: Safe(trace[i], root))
  }

  method CheckPath(disk: Disk, p: Path, directory: bool) returns (ok: bool)
    modifies disk`step
    ensures disk.step == old(disk.step) + 1
    ensures ok
      <==>
      !disk.faults(old(disk.step))
      && (p in disk.tree ==> disk.tree[p] != Link && (directory ==> disk.tree[p] == Dir))
  {
    var kind := disk.Kind(p);
    ok := kind.Some? && (kind.value.None? || (kind.value.value != Link && (directory ==> kind.value.value == Dir)));
  }

  method Preflight(disk: Disk, root: Path) returns (ok: bool)
    modifies disk`step
    ensures old(disk.step) <= disk.step <= old(disk.step) + 9 && (ok ==> disk.step == old(disk.step) + 9)
    ensures ok ==> PathsOrdinary(disk.tree, root)
    ensures disk.Clear(old(disk.step), disk.step) && PathsOrdinary(disk.tree, root) ==> ok
  {
    ok := CheckPath(disk, Control(root), true);
    if !ok { return; }
    ok := CheckPath(disk, ManifestPath(root), false);
    if !ok { return; }
    var k := 0;
    while k < 7
      invariant 0 <= k <= 7 && disk.step == old(disk.step) + 2 + k
      invariant ok && Ordinary(disk.tree, Control(root))
      invariant ManifestPath(root) in disk.tree ==> disk.tree[ManifestPath(root)] != Link
      invariant forall j | 0 <= j < k :: Ordinary(disk.tree, ContractDir(root, j))
    {
      ok := CheckPath(disk, ContractDir(root, k), true);
      if !ok {
        assert disk.faults(disk.step - 1) || !Ordinary(disk.tree, ContractDir(root, k));
        return;
      }
      k := k + 1;
    }
  }

  lemma {:induction false} PrefixesAreDirs(t: Tree, p: Path, k: nat)
    requires Rooted(t) && p in t && k < |p|
    ensures IsDir(t, p[..k])
    decreases |p|
  {
    assert IsDir(t, Parent(p));
    if k < |p| - 1 {
      PrefixesAreDirs(t, Parent(p), k);
      assert Parent(p)[..k] == p[..k];
    }
  }

  /** `p[..a + 1], ..., p[..k]`. */
  function Rungs(p: Path, a: nat, k: nat): (r: seq<Path>)
    requires a <= k <= |p|
    ensures |r| == k - a && forall i | 0 <= i < k - a :: r[i] == p[..a + 1 + i]
  {
    seq(k - a, i requires 0 <= i < k - a => p[..a + 1 + i])
  }

  /** Compared with `before` nothing is gone and only `p` and directories above it are new. */
  ghost predicate OnlyAbove(before: Tree, t: Tree, p: Path) {
    Keeps(before, t) && forall q | q in t :: q in before || q <= p
  }

  ghost predicate RecentAbove(trace: seq<Tree>, from: nat, before: Tree, p: Path) {
    forall i | from <= i < |trace| :: OnlyAbove(before, trace[i], p)
  }

  lemma RungsAbove(before: Tree, p: Path, a: nat, k: nat)
    requires a <= k <= |p| && Rooted(before) && Grown(before, Rungs(p, a, k))
    ensures OnlyAbove(before, WithDirs(before, Rungs(p, a, k)), p)
  {
    WithDirsKeys(before, Rungs(p, a, k));
    GrownRooted(before, Rungs(p, a, k));
  }

  /** The directories `p[..a + 1]` to `p[..k]` have been made and the next one is missing. */
  ghost predicate Climbed(before: Tree, t: Tree, p: Path, a: nat, k: nat) {
    a <= k <= |p| && Rooted(before) && Grown(before, Rungs(p, a, k)) && t == WithDirs(before, Rungs(p, a, k))
    && p[..k] in t && (k > a ==> t[p[..k]] == Dir) && (k < |p| ==> p[..k + 1] !in t)
    && (forall j | k < j <= |p| :: p[..j] !in t)
  }

  lemma ClimbOne(before: Tree, t: Tree, p: Path, a: nat, k: nat)
    requires Climbed(before, t, p, a, k) && k < |p| && CanMake(t, p[..k + 1])
    ensures Climbed(before, t[p[..k + 1] := Dir], p, a, k + 1) && OnlyAbove(before, t[p[..k + 1] := Dir], p)
  {
    var here := p[..k + 1];
    GrownOneMore(before, Rungs(p, a, k), here);
    WithOneMore(before, Rungs(p, a, k), here);
    assert Rungs(p, a, k + 1) == Rungs(p, a, k) + [here];
    hide Grown, Rooted, OnlyAbove, WithDirs;
    RungsAbove(before, p, a, k + 1);
    forall j | k + 1 < j <= |p| ensures p[..j] !in t[here := Dir] { assert |p[..j]| != |here|; }
  }

  lemma NothingBelowMissing(t: Tree, p: Path, a: nat)
    requires Rooted(t) && a < |p| && p[..a + 1] !in t
    ensures forall j | a < j <= |p| :: p[..j] !in t
  {
    forall j | a < j <= |p| ensures p[..j] !in t {
      if j > a + 1 && p[..j] in t {
        assert p[..j][..a + 1] == p[..a + 1];
        PrefixesAreDirs(t, p[..j], a + 1);
      }
    }
  }

  lemma ClimbStart(t: Tree, p: Path, a: nat)
    requires Rooted(t) && a <= |p| && p[..a] in t && (a < |p| ==> p[..a + 1] !in t)
    ensures Climbed(t, t, p, a, a)
  {
    assert Rungs(p, a, a) == [];
    if a < |p| { NothingBelowMissing(t, p, a); }
  }

  lemma ClimbedFacts(before: Tree, t: Tree, p: Path, a: nat, k: nat)
    requires Climbed(before, t, p, a, k)
    ensures a <= k <= |p| && p[..k] in t && (k > a ==> t[p[..k]] == Dir) && (k < |p| ==> p[..k + 1] !in t)
    ensures k == |p| && k > a ==> IsDir(t, p)
  {
    assert p[..|p|] == p;
  }

  lemma RecentAboveMore(trace: seq<Tree>, from: nat, before: Tree, t: Tree, p: Path)
    requires RecentAbove(trace, from, before, p) && OnlyAbove(before, t, p)
    ensures RecentAbove(trace + [t], from, before, p)
  {
    hide OnlyAbove;
  }

  /** How much of the path exists. */
  function Existing(t: Tree, p: Path): (a: nat)
    ensures a <= |p|
  {
    if p == [] || p in t then |p| else Existing(t, Parent(p))
  }

  lemma {:induction false} ExistingIs(t: Tree, p: Path, a: nat)
    requires a <= |p| && p[..a] in t && forall j | a < j <= |p| :: p[..j] !in t
    ensures Existing(t, p) == a
  {
    assert p[..|p|] == p;
    if a < |p| {
      var q := Parent(p);
      assert q[..a] == p[..a];
      forall j | a < j <= |q| ensures q[..j] !in t { assert q[..j] == p[..j]; }
      ExistingIs(t, q, a);
    }
  }

  lemma ClimbedExisting(t: Tree, p: Path, a: nat)
    requires Climbed(t, t, p, a, a)
    ensures Existing(t, p) == a
  {
    ExistingIs(t, p, a);
  }

  method ExistingPart(disk: Disk, p: Path) returns (a: nat)
    requires Rooted(disk.tree)
    ensures a <= |p| && Climbed(disk.tree, disk.tree, p, a, a)
    ensures a == |p| <==> p in disk.tree
  {
    a := 0;
    assert p[..0] == [] && p[..|p|] == p;
    while a < |p| && p[..a + 1] in disk.tree
      invariant 0 <= a <= |p| && p[..a] in disk.tree
    {
      a := a + 1;
    }
    ClimbStart(disk.tree, p, a);
  }

  /** `mkdir(parents=True, exist_ok=True)`: makes the missing directories from the top down. */
  method MakeParents(disk: Disk, p: Path) returns (ok: bool, ghost a: nat, ghost k: nat)
    requires disk.Recorded() && Rooted(disk.tree)
    modifies disk`tree, disk`step, disk`trace
    ensures disk.Recorded() && disk.step >= old(disk.step)
    ensures Climbed(old(disk.tree), disk.tree, p, a, k)
    ensures ok ==> k == |p| && IsDir(disk.tree, p)
    ensures !ok && a < |p| ==> k < |p|
    ensures a == |p| <==> p in old(disk.tree)
    ensures ok ==> AboveOrdinary(old(disk.tree), p)
    ensures disk.step <= old(disk.step) + |p| - Existing(old(disk.tree), p)
    ensures ok ==> disk.step == old(disk.step) + |p| - Existing(old(disk.tree), p)
    ensures disk.Clear(old(disk.step), disk.step) && AboveOrdinary(old(disk.tree), p) ==> ok
    ensures old(disk.trace) <= disk.trace && RecentAbove(disk.trace, |old(disk.trace)|, old(disk.tree), p)
  {
    hide Rooted, OnlyAbove, Climbed;
    ghost var before := disk.tree;
    var next := ExistingPart(disk, p);
    a, k := next, next;
    ok := true;
    ClimbedFacts(before, before, p, a, a);
    ClimbedExisting(before, p, a);
    assert p[..|p|] == p;
    if next == |p| {
      ok := IsDir(disk.tree, p);
      if ok { ClimbedAbove(before, before, p, a, a); }
      return;
    }
    hide RecentAbove;
    assert RecentAbove(disk.trace, |old(disk.trace)|, before, p) by { NothingRecent(disk.trace, before, p); }
    while next < |p|
      invariant a <= next <= |p| && k == next && disk.step == old(disk.step) + next - a && disk.Recorded() && ok
      invariant Climbed(before, disk.tree, p, a, k) && (k == a ==> disk.tree == before)
      invariant old(disk.trace) <= disk.trace && RecentAbove(disk.trace, |old(disk.trace)|, before, p)
    {
      ClimbedFacts(before, disk.tree, p, a, k);
      var here := p[..next + 1];
      assert Parent(here) == p[..next];
      ghost var t := disk.tree;
      ghost var old_ := disk.trace;
      ok := disk.Mkdir(here);
      if !ok {
        assert (k == a && !Ordinary(before, p[..a])) || disk.faults(disk.step - 1);
        return;
      }
      ClimbOne(before, t, p, a, k);
      RecentAboveMore(old_, |old(disk.trace)|, before, disk.tree, p);
      next, k := next + 1, k + 1;
    }
    ClimbedFacts(before, disk.tree, p, a, k);
    ClimbedAbove(before, disk.tree, p, a, k);
  }

  /** Where the whole path is there in the end, nothing on it was anything but a directory. */
  lemma ClimbedAbove(before: Tree, t: Tree, p: Path, a: nat, k: nat)
    requires Climbed(before, t, p, a, k) && IsDir(t, p)
    ensures AboveOrdinary(before, p)
  {
    GrownRooted(before, Rungs(p, a, k));
    hide Grown;
    forall j | 0 <= j <= |p| ensures Ordinary(before, p[..j]) {
      if j < |p| { PrefixesAreDirs(t, p, j); } else { assert p[..j] == p; }
    }
  }

  ghost predicate AboveOrdinary(t: Tree, p: Path) {
    forall j | 0 <= j <= |p| :: Ordinary(t, p[..j])
  }

  lemma NothingRecent(trace: seq<Tree>, before: Tree, p: Path)
    ensures RecentAbove(trace, |trace|, before, p)
  {
  }
}
