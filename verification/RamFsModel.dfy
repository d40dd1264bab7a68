/**
 The RamFS calls as functions on the state of the file system, and what they keep over every run. A path is given as
 its components; each call returns the node it ends at, or NULL when it reports an error.
 */
module RamFsModel {
  import opened DirTree
  import opened DirRename
  import opened DirPaths

  const MAX_FILES: nat := 64

  /** The node array, where the root is, and the lists laid out in the array. */
  datatype Fs = Fs(m: Mem, root: int, kids: Kids, rank: map<int, nat>, count: nat)

  datatype Outcome = Outcome(fs: Fs, node: int)

  /** The linked nodes form trees, one of them under the root, inside the allocated part of the array. */
  ghost predicate Sound(f: Fs) {
    && |f.m| == MAX_FILES && f.count <= MAX_FILES
    && Rooted(f.m, f.root, f.kids, f.rank)
    && forall n :: n in f.kids ==> n < f.count
  }

  ghost function Resolve(f: Fs, n: int, parts: seq<string>): (r: int)
    requires Sound(f) && (n == NULL || n in f.kids)
    ensures r == NULL || r in f.kids
  {
    Walk(f.m, f.kids, n, parts)
  }

  ghost function Lookup(f: Fs, n: int, x: string): (r: int)
    requires Sound(f) && n in f.kids
    ensures r == NULL || (r in f.kids[n] && r in f.kids)
  {
    Child(f.m, f.kids, n, x)
  }

  // ------------------------------------------------------------------ creation

  ghost function Make(f: Fs, p: int, dir: bool, name: string): (r: Fs)
    requires Sound(f) && p in f.kids && f.count < MAX_FILES
    ensures Sound(r) && r.root == f.root && r.count == f.count + 1
    ensures r.kids.Keys == f.kids.Keys + {f.count}
  {
    CreatedRooted(f.m, f.root, f.kids, f.rank, f.count, p, dir, name);
    Fs(Created(f.m, f.count, p, dir, name), f.root, Grown(f.kids[f.count := []], p, f.count),
       f.rank[f.count := f.rank[p] + 1], f.count + 1)
  }

  /** The loop of ramfs_mkdir: missing components are made on the way. */
  ghost function MakePath(f: Fs, n: int, parts: seq<string>): (r: Outcome)
    requires Sound(f) && n in f.kids
    ensures Sound(r.fs) && (r.node == NULL || r.node in r.fs.kids)
    ensures r.fs.root == f.root && f.kids.Keys <= r.fs.kids.Keys
    decreases |parts|
  {
    if parts == [] then Outcome(f, n)
    else
      var c := Lookup(f, n, parts[0]);
      if c != NULL then MakePath(f, c, parts[1..])
      else if f.count >= MAX_FILES then Outcome(f, NULL)
      else MakePath(Make(f, n, true, parts[0]), f.count, parts[1..])
  }

  /** The name left in the buffer after the loop: the last component, or whatever the buffer held. */
  function LastName(parts: seq<string>, junk: string): string {
    if parts == [] then junk else parts[|parts| - 1]
  }

  /** ramfs_mkdir: after the loop, one more directory of the same name inside. */
  ghost function Mkdir(f: Fs, parts: seq<string>, junk: string): (r: Outcome)
    requires Sound(f)
    ensures Sound(r.fs) && r.fs.root == f.root
  {
    var g, n, name := MakePath(f, f.root, parts).fs, MakePath(f, f.root, parts).node, LastName(parts, junk);
    if n == NULL || !(InRange(g.m, g.kids, n); g.m[n].dir) || Lookup(g, n, name) != NULL || g.count >= MAX_FILES
    then Outcome(g, NULL) else Outcome(Make(g, n, true, name), g.count)
  }

  /** The loop of ramfs_open: a missing component is made under the root, whatever directory was being searched. */
  ghost function Open(f: Fs, n: int, parts: seq<string>, create: bool): (r: Outcome)
    requires Sound(f) && n in f.kids
    ensures Sound(r.fs) && (r.node == NULL || r.node in r.fs.kids)
    ensures r.fs.root == f.root && f.count <= r.fs.count && f.kids.Keys <= r.fs.kids.Keys
    decreases |parts|
  {
    if parts == [] then Outcome(f, n)
    else
      var c := Lookup(f, n, parts[0]);
      if c != NULL then Open(f, c, parts[1..], create)
      else if !create || f.count >= MAX_FILES then Outcome(f, NULL)
      else Open(Make(f, f.root, false, parts[0]), f.count, parts[1..], create)
  }

  // ------------------------------------------------------------------ removal

  ghost function Free(f: Fs, e: int): (r: Fs)
    requires Sound(f) && Listed(f.m, f.kids, e)
    ensures Sound(r) && r.root == f.root
  {
    FreedRooted(f.m, f.root, f.kids, f.rank, e);
    f.(m := Freed(f.m, e), kids := Pruned(f.kids, f.m[e].parent, e) - {e})
  }

  /** A path with components ends below the root. */
  lemma {:induction false} WalkDown(f: Fs, n: int, parts: seq<string>)
    requires Sound(f) && n in f.kids && parts != [] && Resolve(f, n, parts) != NULL
    ensures var w, u := Resolve(f, n, parts), Resolve(f, n, parts[..|parts| - 1]);
            && u != NULL && w in f.kids[u] && Listed(f.m, f.kids, w) && f.m[w].parent == u && w != f.root
            && f.m[w].name == parts[|parts| - 1]
    decreases |parts|
  {
    hide Forest, Child;
    RootOnTop(f.m, f.root, f.kids, f.rank);
    var c := Lookup(f, n, parts[0]);
    var init := parts[..|parts| - 1];
    assert Resolve(f, n, parts) == Resolve(f, c, parts[1..]);
    if |parts| == 1 {
      assert init == [] && parts[1..] == [];
      assert Resolve(f, c, []) == c && Resolve(f, n, []) == n;
      OneParent(f.m, f.kids, n, c);
    } else {
      assert init[1..] == parts[1..][..|parts| - 2] && init[0] == parts[0];
      WalkDown(f, c, parts[1..]);
    }
  }

  /** ramfs_rmdir. Removing the root, when it is empty, succeeds and changes nothing. */
  ghost function Rmdir(f: Fs, parts: seq<string>): (r: Outcome)
    requires Sound(f)
    ensures Sound(r.fs)
  {
    var n := Resolve(f, f.root, parts);
    if n == NULL || !(InRange(f.m, f.kids, n); f.m[n].dir) || f.kids[n] != [] then Outcome(f, NULL)
    else if parts == [] then Outcome(f, n)
    else WalkDown(f, f.root, parts); Outcome(Free(f, n), n)
  }

  /** ramfs_unlink. A path that ends in a slash is refused. */
  ghost function Unlink(f: Fs, parts: seq<string>, slash: bool): (r: Outcome)
    requires Sound(f)
    ensures Sound(r.fs)
  {
    var n := Resolve(f, f.root, parts);
    if n == NULL || parts == [] || slash || (InRange(f.m, f.kids, n); f.m[n].dir) then Outcome(f, NULL)
    else WalkDown(f, f.root, parts); Outcome(Free(f, n), n)
  }

  // ------------------------------------------------------------------ rename

  /** The directory part of a destination. */
  function Front(parts: seq<string>): seq<string> {
    if parts == [] then [] else parts[..|parts| - 1]
  }

  ghost function Move(f: Fs, np: int, e: int, mv: int, name: string): (r: Fs)
    requires Sound(f) && Movable(f.m, f.root, f.kids, f.rank, np, e, mv)
    ensures Sound(r) && r.root == f.root
  {
    RenamedRooted(f.m, f.root, f.kids, f.rank, np, e, mv, name);
    f.(m := Renamed(f.m, np, e, mv, name),
       kids := RenamedKids(f.m, f.root, f.kids, f.rank, np, e, mv),
       rank := RenamedRank(f.m, f.root, f.kids, f.rank, np, e, mv))
  }

  /** The tests of ramfs_rename: both paths resolve, and neither trailing slash nor bare root is named as the source. */
  ghost predicate Resolvable(f: Fs, source: seq<string>, slash: bool, target: seq<string>)
    requires Sound(f)
  {
    && source != [] && !slash && Resolve(f, f.root, source) != NULL
    && Resolve(f, f.root, target) != NULL && Resolve(f, f.root, Front(target)) != NULL
  }

  /** Same name, same directory: nothing to do. */
  ghost predicate Stays(f: Fs, source: seq<string>, slash: bool, target: seq<string>, junk: string)
    requires Sound(f) && Resolvable(f, source, slash, target)
  {
    WalkDown(f, f.root, source);
    LastName(source, "") == LastName(target, junk)
    && Resolve(f, f.root, Front(target)) == f.m[Resolve(f, f.root, source)].parent
  }

  /** The destination is not the moved node itself, and what stands there may be replaced. */
  ghost predicate Replaceable(f: Fs, source: seq<string>, slash: bool, target: seq<string>, junk: string)
    requires Sound(f) && Resolvable(f, source, slash, target)
  {
    var mv, np := Resolve(f, f.root, source), Resolve(f, f.root, Front(target));
    var e := Lookup(f, np, LastName(target, junk));
    np != mv && (e == NULL || (InRange(f.m, f.kids, e); !f.m[e].dir) || f.kids[e] == [])
  }

  lemma MovableSource(f: Fs, source: seq<string>, slash: bool, target: seq<string>, junk: string)
    requires Sound(f) && Resolvable(f, source, slash, target) && !Stays(f, source, slash, target, junk)
    requires Replaceable(f, source, slash, target, junk)
    ensures var mv, np := Resolve(f, f.root, source), Resolve(f, f.root, Front(target));
            Movable(f.m, f.root, f.kids, f.rank, np, Lookup(f, np, LastName(target, junk)), mv)
  {
    hide Forest, Walk;
    WalkDown(f, f.root, source);
    var np := Resolve(f, f.root, Front(target));
    var e := Lookup(f, np, LastName(target, junk));
    if e != NULL { OneParent(f.m, f.kids, np, e); }
  }

  ghost function Rename(f: Fs, source: seq<string>, slash: bool, target: seq<string>, junk: string): (r: Outcome)
    requires Sound(f)
    ensures Sound(r.fs) && r.fs.root == f.root
  {
    if !Resolvable(f, source, slash, target) then Outcome(f, NULL)
    else if Stays(f, source, slash, target, junk) then Outcome(f, Resolve(f, f.root, source))
    else if !Replaceable(f, source, slash, target, junk) then Outcome(f, NULL)
    else
      var mv, np, name := Resolve(f, f.root, source), Resolve(f, f.root, Front(target)), LastName(target, junk);
      MovableSource(f, source, slash, target, junk);
      Outcome(Move(f, np, Lookup(f, np, name), mv, name), mv)
  }
}
