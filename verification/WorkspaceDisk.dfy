/**
 A file system that can fail at any operation. `trace` records the tree after every change, so
 that it lists what a process killed at any moment would leave behind.
 */
module WorkspaceDisk {
  import opened Text

  datatype Name = Raw | Wiki | Common | Personal | Cache | LlmWiki | ManifestYaml | Temp(id: nat) | Named(text: Str)

  /** From the file system's root, which is the empty path. */
  type Path = seq<Name>

  datatype Content = Manifest(workspaceId: Str, name: Str) | Partial | Foreign(data: Bytes)

  datatype Node = Dir | Link | File(content: Content)

  type Tree = map<Path, Node>

  function Parent(p: Path): Path
    requires p != []
  {
    p[..|p| - 1]
  }

  predicate IsDir(t: Tree, p: Path) {
    p in t && t[p] == Dir
  }

  /** Every entry is in a directory, up to the root. */
  ghost predicate Rooted(t: Tree) {
    IsDir(t, []) && forall p | p in t && p != [] :: IsDir(t, Parent(p))
  }

  /** `p` is a directory with nothing in it. */
  ghost predicate IsEmptyDir(t: Tree, p: Path) {
    IsDir(t, p) && forall q | q in t && q != [] :: Parent(q) != p
  }

  predicate CanMake(t: Tree, p: Path)
    requires p != []
  {
    p !in t && IsDir(t, Parent(p))
  }

  class Disk {
    const faults: nat -> bool
    var tree: Tree
    var step: nat
    ghost var trace: seq<Tree>

    constructor (tree: Tree, faults: nat -> bool)
      ensures this.tree == tree && this.faults == faults && step == 0 && trace == [tree]
    {
      this.tree, this.faults, this.step, this.trace := tree, faults, 0, [tree];
    }

    ghost predicate Recorded()
      reads this
    {
      trace != [] && trace[|trace| - 1] == tree
    }

    /** No operation from step `from` on fails by itself. */
    ghost predicate Faultless(from: nat) {
      forall n | from <= n :: !faults(n)
    }

    /** No operation from step `from` to before step `to` fails by itself. */
    ghost predicate Clear(from: nat, to: nat) {
      forall n | from <= n < to :: !faults(n)
    }

    method Exists(p: Path) returns (found: Option<bool>)
      modifies this`step
      ensures step == old(step) + 1
      ensures found == if faults(old(step)) then None else Some(p in tree)
    {
      found := if faults(step) then None else Some(p in tree);
      step := step + 1;
    }

    method Kind(p: Path) returns (kind: Option<Option<Node>>)
      modifies this`step
      ensures step == old(step) + 1
      ensures kind == if faults(old(step)) then None else Some(if p in tree then Some(tree[p]) else None)
    {
      kind := if faults(step) then None else Some(if p in tree then Some(tree[p]) else None);
      step := step + 1;
    }

    /** Whether listing `p` shows nothing. */
    method IsEmpty(p: Path) returns (empty: Option<bool>)
      modifies this`step
      ensures step == old(step) + 1
      ensures empty == if faults(old(step)) || !IsDir(tree, p) then None else Some(IsEmptyDir(tree, p))
    {
      var inside := set q | q in tree && q != [] && Parent(q) == p;
      assert inside == {} <==> forall q | q in tree && q != [] :: Parent(q) != p by {
        if q :| q in tree && q != [] && Parent(q) == p { assert q in inside; }
      }
      empty := if faults(step) || !IsDir(tree, p) then None else Some(inside == {});
      step := step + 1;
    }

    method Mkdir(p: Path) returns (ok: bool)
      requires p != [] && Recorded()
      modifies this`tree, this`step, this`trace
      ensures step == old(step) + 1 && Recorded()
      ensures ok <==> !faults(old(step)) && CanMake(old(tree), p)
      ensures tree == if ok then old(tree)[p := Dir] else old(tree)
      ensures trace == if ok then old(trace) + [tree] else old(trace)
    {
      ok := !faults(step) && CanMake(tree, p);
      step := step + 1;
      if ok {
        tree := tree[p := Dir];
        trace := trace + [tree];
      }
    }

    /** Ignores every error, as the roll-back does. */
    method Rmdir(p: Path) returns (ok: bool)
      requires Recorded()
      modifies this`tree, this`step, this`trace
      ensures step == old(step) + 1 && Recorded()
      ensures ok <==> !faults(old(step)) && IsEmptyDir(old(tree), p)
      ensures tree == if ok then old(tree) - {p} else old(tree)
      ensures trace == if ok then old(trace) + [tree] else old(trace)
    {
      var inside := set q | q in tree && q != [] && Parent(q) == p;
      assert inside == {} <==> forall q | q in tree && q != [] :: Parent(q) != p by {
        if q :| q in tree && q != [] && Parent(q) == p { assert q in inside; }
      }
      ok := !faults(step) && IsDir(tree, p) && inside == {};
      step := step + 1;
      if ok {
        tree := tree - {p};
        trace := trace + [tree];
      }
    }

    /** `unlink(missing_ok=True)` of something that is not a directory. */
    method Unlink(p: Path) returns (ok: bool)
      requires Recorded()
      modifies this`tree, this`step, this`trace
      ensures step == old(step) + 1 && Recorded()
      ensures ok <==> !faults(old(step)) && !IsDir(old(tree), p)
      ensures tree == if ok then old(tree) - {p} else old(tree)
      ensures trace == if ok then old(trace) + [tree] else old(trace)
    {
      ok := !faults(step) && !IsDir(tree, p);
      step := step + 1;
      if ok {
        tree := tree - {p};
        trace := trace + [tree];
      }
    }

    /**
     Opening a new file, then writing and syncing it: either part can fail. Without a content, what was
     to be written could not be computed, once the file was open.
     */
    method WriteNew(p: Path, content: Option<Content>) returns (ok: bool)
      requires p != [] && Recorded()
      modifies this`tree, this`step, this`trace
      ensures step == old(step) + 2 && Recorded()
      ensures ok <==> !faults(old(step)) && CanMake(old(tree), p) && !faults(old(step) + 1) && content.Some?
      ensures tree == if faults(old(step)) || !CanMake(old(tree), p) then old(tree)
                      else old(tree)[p := File(if ok then content.value else Partial)]
      ensures old(trace) <= trace
      ensures forall i | |old(trace)| <= i < |trace| :: exists c :: trace[i] == old(tree)[p := File(c)]
    {
      var made := !faults(step) && CanMake(tree, p);
      ok := made && !faults(step + 1) && content.Some?;
      step := step + 2;
      ghost var before := tree;
      if made {
        tree := tree[p := File(Partial)];
        trace := trace + [tree];
        if ok {
          tree := tree[p := File(content.value)];
          trace := trace + [tree];
          assert tree == before[p := File(content.value)];
        }
      }
    }

    /** Atomic: `q` becomes what `p` was. */
    method Replace(p: Path, q: Path) returns (ok: bool)
      requires p in tree && p != q && Recorded()
      modifies this`tree, this`step, this`trace
      ensures step == old(step) + 1 && Recorded()
      ensures ok <==> !faults(old(step)) && !IsDir(old(tree), q)
      ensures tree == if ok then (old(tree) - {p})[q := old(tree)[p]] else old(tree)
      ensures trace == if ok then old(trace) + [tree] else old(trace)
    {
      ok := !faults(step) && !IsDir(tree, q);
      step := step + 1;
      if ok {
        tree := (tree - {p})[q := tree[p]];
        trace := trace + [tree];
      }
    }
  }
}
