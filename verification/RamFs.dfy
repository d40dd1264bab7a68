/** The RamFS directory calls on the node array. */
module RamFs {
  import opened DirTree
  import opened DirRename
  import opened DirPaths
  import opened RamFsModel
  import opened RamFsRuns
  import opened RamFsOpen
  import PathNormalize

  // ------------------------------------------------------------------ paths

  /** Names are cut to the 255 bytes the buffers hold. */
  function Clip(c: string): (r: string)
    ensures r <= c && |r| == if |c| <= 255 then |c| else 255
  {
    if |c| >= 256 then c[..255] else c
  }

  function ClipAll(cs: seq<string>): seq<string> {
    if cs == [] then [] else [Clip(cs[0])] + ClipAll(cs[1..])
  }

  /** The components of a path as the walks see them. */
  function Parts(path: string): seq<string> {
    ClipAll(PathNormalize.Comps(path))
  }

  predicate EndsInSlash(path: string) {
    path != "" && path[|path| - 1] == '/'
  }

  lemma PartsStep(path: string, p: nat, end: nat, q: nat)
    requires p < end <= q <= |path| && (forall i :: p <= i < end ==> path[i] != '/')
    requires end < |path| ==> path[end] == '/'
    requires PathNormalize.Comps(path[q..]) == PathNormalize.Comps(path[end..])
    ensures Parts(path[p..]) == [Clip(path[p..end])] + Parts(path[q..])
  {
    hide PathNormalize.Comps;
    PathNormalize.TakeName(path, p, end);
    var cs := PathNormalize.Comps(path[p..]);
    assert cs[0] == path[p..end] && cs[1..] == PathNormalize.Comps(path[end..]);
  }

  lemma PartsEnd(path: string)
    ensures path[|path|..] == "" && Parts(path[|path|..]) == [] && path[0..] == path
  {}

  // ------------------------------------------------------------------ memory

  predicate Address(m: Mem, p: int) {
    p == NULL || 0 <= p < |m|
  }

  predicate Pointed(m: Mem, i: int)
    requires 0 <= i < |m|
  {
    Address(m, m[i].parent) && Address(m, m[i].children) && Address(m, m[i].next) && Address(m, m[i].prev)
  }

  /** Every pointer field is null or points into the array. */
  predicate Pointers(m: Mem) {
    forall i :: 0 <= i < |m| ==> Pointed(m, i)
  }

  const BLANK := Node("", false, NULL, NULL, NULL, NULL)

  /** After ramfs_mount: the root with one directory, /bin. */
  ghost function Mounted(): (f: Fs)
    ensures Sound(f) && Pointers(f.m)
  {
    var m := seq(MAX_FILES, i => if i == 0 then Node("/", true, NULL, 1, NULL, NULL)
                                 else if i == 1 then Node("bin", true, 0, NULL, NULL, NULL) else BLANK);
    MountedSound(m);
    Fs(m, 0, map[0 := [1], 1 := []], map[0 := 0, 1 := 1], 2)
  }

  lemma MountedSound(m: Mem)
    requires |m| == MAX_FILES
    requires m[0] == Node("/", true, NULL, 1, NULL, NULL) && m[1] == Node("bin", true, 0, NULL, NULL, NULL)
    requires forall i :: 2 <= i < |m| ==> m[i] == BLANK
    ensures Sound(Fs(m, 0, map[0 := [1], 1 := []], map[0 := 0, 1 := 1], 2)) && Pointers(m)
  {
    assert Laid(m, 0, [1]) && Laid(m, 1, []);
    assert forall i :: 0 <= i < |m| ==> Pointed(m, i);
  }

  /**
   * After every run of calls from the mounted state: a node some path leads to has its children laid out as a doubly
   * linked list, and its parent pointers lead back to the root in as many steps as the path has components.
   */
  lemma EveryRun(calls: seq<Call>, parts: seq<string>)
    ensures var f := Run(Mounted(), calls);
            var n := Resolve(f, f.root, parts);
            n != NULL ==> Climb(f.m, n, |parts|) == f.root && Laid(f.m, n, f.kids[n])
  {
    hide Resolve, Climb, Mounted, Run;
    var f := Run(Mounted(), calls);
    if Resolve(f, f.root, parts) != NULL {
      ClimbBack(f, f.root, parts);
    }
  }

  // ------------------------------------------------------------------ what does happen

  lemma MountedLookups(x: string)
    ensures var f := Mounted();
            && f.root == 0 && f.count == 2 && f.kids.Keys == {0, 1} && f.kids[1] == []
            && Lookup(f, 1, x) == NULL && Lookup(f, 0, x) == (if x == "bin" then 1 else NULL)
  {
    var f := Mounted();
    assert [1][1..] == [];
    assert Find(f.m, [1], x) == if f.m[1].name == x then 1 else Find(f.m, [], x);
  }

  lemma RunOne(f: Fs, c: Call)
    requires Sound(f)
    ensures Run(f, [c]) == Step(f, c)
  {
    assert [c][1..] == [];
    assert Run(f, [c]) == Run(Step(f, c), []);
  }

  /** The extra directory ramfs_mkdir makes below a path whose last component was missing. */
  lemma MkdirTwice(f: Fs, a: string, x: string, junk: string)
    requires Sound(f) && f.root in f.kids && f.count + 2 <= MAX_FILES
    requires var n := Lookup(f, f.root, a); n != NULL && Lookup(f, n, x) == NULL
    ensures var n := Lookup(f, f.root, a);
            var g := Make(f, n, true, x);
            && Sound(g) && f.count in g.kids && Lookup(g, f.count, x) == NULL
            && Mkdir(f, [a, x], junk) == Outcome(Make(g, f.count, true, x), f.count + 1)
  {
    hide Sound, Lookup, Make, MakePath;
    var n := Lookup(f, f.root, a);
    var g := Make(f, n, true, x);
    MakeLeads(f, n, true, x);
    CountNotNull(f);
    assert [a, x] == [a] + [x] && [x] == [x] + [];
    MakePathHead(f, f.root, a, [x]);
    MakePathHead(f, n, x, []);
    MakePathEnd(g, f.count);
    assert Lookup(g, f.count, x) == NULL;
  }

  /** From the mounted state, mkdir bin/x and then renaming bin to bin/x/x succeeds and strands bin. */
  lemma StrandingHappens()
    ensures var f := Run(Mounted(), [MkdirCall(["bin", "x"], "")]);
            var mv, np := Resolve(f, f.root, ["bin"]), Resolve(f, f.root, ["bin", "x"]);
            && Rename(f, ["bin"], false, ["bin", "x", "x"], "").node != NULL
            && mv != NULL && np != NULL && Under(f.m, f.kids, f.rank, mv, np)
  {
    hide Sound, Resolve, Lookup, Make, MakePath, Run, Mkdir, Mounted, Under;
    var f := Mounted();
    MountedLookups("bin");
    MountedLookups("x");
    MkdirTwice(f, "bin", "x", "");
    var g := Make(f, 1, true, "x");
    var h := Make(g, 2, true, "x");
    RunOne(f, MkdirCall(["bin", "x"], ""));
    assert Run(f, [MkdirCall(["bin", "x"], "")]) == h;
    MakeLeads(f, 1, true, "x");
    MakeLeads(g, 2, true, "x");
    ResolveOne(f, 0, "bin");
    MakeKeeps(f, 1, true, "x", 0, ["bin"]);
    MakeKeeps(g, 2, true, "x", 0, ["bin"]);
    MakeKeeps(g, 2, true, "x", 1, ["x"]);
    ResolveJoin(h, 0, ["bin"], ["x"]);
    ResolveJoin(h, 0, ["bin", "x"], ["x"]);
    assert ["bin"] + ["x"] == ["bin", "x"] && ["bin", "x"] + ["x"] == ["bin", "x", "x"];
    ResolveOne(h, 1, "x");
    UnderChild(h, 1, 2);
    var target := ["bin", "x", "x"];
    assert target[..2] == ["bin", "x"];
    assert Front(target) == ["bin", "x"];
    RenameGoes(h, ["bin"], target, "");
  }

  lemma UnderChild(f: Fs, n: int, c: int)
    requires Sound(f) && n in f.kids && c in f.kids[n]
    ensures c in f.kids && Forest(f.m, f.kids) && Ranked(f.kids, f.rank) && Under(f.m, f.kids, f.rank, n, c)
  {
    hide Forest, Ranked, Under;
    UnderSelf(f.m, f.kids, f.rank, n);
    UnderStep(f.m, f.kids, f.rank, n, n, c);
  }

  lemma RenameGoes(f: Fs, source: seq<string>, target: seq<string>, junk: string)
    requires Sound(f) && f.root in f.kids && Resolvable(f, source, false, target)
    requires LastName(source, "") != LastName(target, junk)
    requires var np := Resolve(f, f.root, Front(target));
             && np != Resolve(f, f.root, source)
             && var e := Lookup(f, np, LastName(target, junk)); e != NULL && f.kids[e] == []
    ensures Rename(f, source, false, target, junk).node == Resolve(f, f.root, source) != NULL
  {
    hide Resolve, Lookup, Rooted;
  }

  /** From the mounted state, creating x and then bin/x makes the path x lead to another file. */
  lemma HidingHappens()
    ensures var f := Run(Mounted(), [OpenCall(["x"], true)]);
            && Resolve(f, f.root, ["x"]) != NULL
            && Resolve(Step(f, OpenCall(["bin", "x"], true)), f.root, ["x"]) != Resolve(f, f.root, ["x"])
  {
    hide Sound, Resolve, Lookup, Make, Run, RamFsModel.Open, Mounted;
    var create := true;
    var f := Mounted();
    MountedLookups("bin");
    MountedLookups("x");
    var g := Make(f, 0, false, "x");
    RunOne(f, OpenCall(["x"], create));
    assert ["x"] == ["x"] + [] && ["bin", "x"] == ["bin"] + ["x"];
    OpenHead(f, 0, "x", [], create);
    OpenEnd(g, 2, create);
    MakeLeads(f, 0, false, "x");
    ResolveOne(f, 0, "bin");
    MakeKeeps(f, 0, false, "x", 0, ["bin"]);
    ResolveOne(g, 0, "bin");
    StillLeaf(f, "x");
    assert Lookup(g, 1, "x") == NULL;
    MadeSecond(g, "bin", "x", create);
    OpenDisturbs(g, ["bin", "x"], create, ["x"]);
  }

  lemma StillLeaf(f: Fs, x: string)
    requires Sound(f) && f.root in f.kids && f.count < MAX_FILES && 1 in f.kids && f.root != 1 && f.count != 1
    ensures Make(f, f.root, false, x).kids[1] == f.kids[1]
  {}

  lemma MadeSecond(f: Fs, a: string, x: string, create: bool)
    requires Sound(f) && f.root in f.kids && f.count < MAX_FILES && create
    requires var n := Lookup(f, f.root, a); n != NULL && Lookup(f, n, x) == NULL
    ensures Made(f, f.root, [a, x], create) == [x]
  {
    hide Sound, Lookup;
    assert [a, x][1..] == [x];
    assert Resolving(f, Lookup(f, f.root, a), [x]) == 0;
    assert Resolving(f, f.root, [a, x]) == 1;
  }

  class FileSystem {
    const nodes: array<Node>
    const root: int
    var count: nat
    ghost var kids: Kids
    ghost var rank: map<int, nat>

    ghost function State(): Fs
      reads this, nodes
    {
      Fs(nodes[..], root, kids, rank, count)
    }

    ghost predicate Valid()
      reads this, nodes
    {
      Sound(State()) && Pointers(nodes[..])
    }

    /** ramfs_mount. */
    constructor ()
      ensures Valid() && fresh(nodes) && State() == Mounted()
    {
      var a := new Node[MAX_FILES](i => BLANK);
      a[0] := Node("/", true, NULL, 1, NULL, NULL);
      a[1] := Node("bin", true, 0, NULL, NULL, NULL);
      nodes, root, count := a, 0, 2;
      kids, rank := map[0 := [1], 1 := []], map[0 := 0, 1 := 1];
      new;
      assert nodes[..] == Mounted().m;
    }

    // ---------------------------------------------------------------- pointer edits

    method JoinNeighbours(e: int)
      requires 0 <= e < nodes.Length && Pointers(nodes[..])
      modifies nodes
      ensures nodes[..] == Unlinked(old(nodes[..]), e) && Pointers(nodes[..])
    {
      assert Pointed(nodes[..], e);
      hide Pointers;
      var prev, next, parent := nodes[e].prev, nodes[e].next, nodes[e].parent;
      if prev != NULL { nodes[prev] := nodes[prev].(next := nodes[e].next); }
      if next != NULL { nodes[next] := nodes[next].(prev := nodes[e].prev); }
      if parent != NULL && nodes[parent].children == e {
        nodes[parent] := nodes[parent].(children := nodes[e].next);
      }
      assert nodes[..] == Unlinked(old(nodes[..]), e);
      UnlinkedPointers(old(nodes[..]), e);
    }

    /** ramfs_free_node. */
    method FreeNode(e: int)
      requires 0 <= e < nodes.Length && Pointers(nodes[..])
      modifies nodes
      ensures nodes[..] == Freed(old(nodes[..]), e) && Pointers(nodes[..])
    {
      JoinNeighbours(e);
      ghost var m1 := nodes[..];
      nodes[e] := nodes[e].(parent := NULL, children := NULL, next := NULL, prev := NULL);
      assert nodes[..] == Freed(old(nodes[..]), e);
      FreedPointers(old(nodes[..]), e);
    }

    /** The stores that put c first under p. */
    method AddFirst(c: int, p: int, name: string)
      requires 0 <= c < nodes.Length && 0 <= p < nodes.Length && c != p && Pointers(nodes[..])
      requires nodes[p].children != c && nodes[p].children != p
      modifies nodes
      ensures nodes[..] == Attached(old(nodes[..]), c, p, name) && Pointers(nodes[..])
    {
      assert Pointed(nodes[..], p);
      var head := nodes[p].children;
      nodes[c] := nodes[c].(name := name, parent := p, next := head, prev := NULL);
      if head != NULL { nodes[head] := nodes[head].(prev := c); }
      nodes[p] := nodes[p].(children := c);
      assert nodes[..] == Attached(old(nodes[..]), c, p, name);
      AttachedPointers(old(nodes[..]), c, p, name);
    }

    // ---------------------------------------------------------------- lookups and creation

    /** ramfs_find_child. The walk ends because the list does. */
    method FindChild(parent: int, name: string) returns (c: int)
      requires Valid() && parent in kids
      ensures c == Lookup(State(), parent, name)
    {
      hide Siblings, Find;
      ghost var m, l, i := nodes[..], kids[parent], 0;
      assert Laid(m, parent, l);
      ListAddresses(m, parent, l);
      c := nodes[parent].children;
      assert l[0..] == l;
      while c != NULL
        invariant 0 <= i <= |l| && c == (if i < |l| then l[i] else NULL)
        invariant Addresses(m, l[i..]) && Find(m, l[i..], name) == Find(m, l, name)
        decreases |l| - i
      {
        FindAt(m, l, i, name);
        if nodes[c].name == name { return; }
        Neighbours(m, parent, l, i);
        c := nodes[c].next;
        i := i + 1;
      }
      FindNone(m, l[i..], name);
    }

    /** ramfs_alloc_node, then the stores that enter the node as the first child of p. */
    method Create(p: int, dir: bool, name: string) returns (c: int)
      requires Valid() && p in kids
      modifies this, nodes
      ensures Valid()
      ensures old(count) < MAX_FILES ==> c == old(count) && State() == Make(old(State()), p, dir, name)
      ensures old(count) >= MAX_FILES ==> c == NULL && State() == old(State())
    {
      hide Forest, Created, Attached, Allocated, Pointers;
      if count >= MAX_FILES { return NULL; }
      ghost var f := State();
      InRange(f.m, f.kids, p);
      RootOnTop(f.m, f.root, f.kids, f.rank);
      c := count;
      count := count + 1;
      nodes[c] := Node("", dir, NULL, NULL, NULL, NULL);
      ghost var m1 := nodes[..];
      assert m1 == Allocated(f.m, c, dir) by { AllocatedIs(f.m, c, dir); }
      AllocatedPointers(f.m, c, dir);
      assert m1[p] == f.m[p];
      HeadListed(f.m, f.kids, p);
      NotOwnChild(f.kids, f.rank, p);
      assert f.kids[p] != [] ==> f.kids[p][0] in f.kids by { HeadIn(f.m, f.kids, p); }
      AddFirst(c, p, name);
      assert nodes[..] == Created(f.m, c, p, dir, name) by { CreatedIs(f.m, c, p, dir, name); }
      ghost var g := Make(f, p, dir, name);
      kids, rank := g.kids, g.rank;
    }

    // ---------------------------------------------------------------- the calls

    /** ramfs_rmdir. */
    method Rmdir(path: string) returns (ok: bool)
      requires Valid()
      modifies this, nodes
      ensures Valid()
      ensures var r := RamFsModel.Rmdir(old(State()), Parts(path)); State() == r.fs && ok == (r.node != NULL)
    {
      hide Sound, Resolve, Lookup, Parts, PathNormalize.Comps, Pointers;
      ghost var f := State();
      RootIn(f);
      var node := root;
      var p := PathNormalize.SkipSlashes(path, 0);
      PartsEnd(path);
      SamePartsAfter(path, 0, p);
      while p < |path|
        invariant p <= |path| && (p < |path| ==> path[p] != '/') && node in kids
        invariant State() == f && Pointers(nodes[..])
        invariant Resolve(f, node, Parts(path[p..])) == Resolve(f, root, Parts(path))
        decreases |path| - p
      {
        var end := PathNormalize.NameEnd(path, p);
        var name := Clip(path[p..end]);
        ghost var was := node;
        node := FindChild(node, name);
        var q := PathNormalize.SkipSlashes(path, end);
        PartsStep(path, p, end, q);
        ResolveHead(f, was, name, Parts(path[q..]));
        if node == NULL {
          ResolveNull(f, Parts(path[q..]));
          return false;
        }
        p := q;
      }
      ResolveEmpty(f, node);
      assert node == Resolve(f, root, Parts(path));
      NodeIn(f, node);
      if !nodes[node].dir { return false; }
      if nodes[node].children != NULL { return false; }
      RmdirTarget(f, Parts(path));
      FreeNode(node);
      kids := RamFsModel.Rmdir(f, Parts(path)).fs.kids;
      ok := true;
    }

    /** The walk of ramfs_unlink and of ramfs_rename's source: the last component must not be followed by a slash. */
    method Locate(path: string) returns (node: int, name: string)
      requires Valid()
      ensures node == if Parts(path) == [] || EndsInSlash(path) then NULL else Resolve(State(), root, Parts(path))
      ensures node != NULL ==> name == Parts(path)[|Parts(path)| - 1]
    {
      hide Sound, Resolve, Lookup, Parts, PathNormalize.Comps, Pointers;
      ghost var f, done := State(), [];
      RootIn(f);
      node, name := root, "";
      var p := PathNormalize.SkipSlashes(path, 0);
      PartsEnd(path);
      SamePartsAfter(path, 0, p);
      ResolveEmpty(f, root);
      while p < |path|
        invariant p <= |path| && (p < |path| ==> path[p] != '/') && node in kids
        invariant Parts(path) == done + Parts(path[p..]) && node == Resolve(f, root, done)
        invariant p == |path| ==> Parts(path) == [] || EndsInSlash(path)
        decreases |path| - p
      {
        var end := PathNormalize.NameEnd(path, p);
        name := Clip(path[p..end]);
        var child := FindChild(node, name);
        var q := PathNormalize.SkipSlashes(path, end);
        PartsStep(path, p, end, q);
        Advance(f, done, name, Parts(path[q..]));
        assert Parts(path) == done + [name] + Parts(path[q..]);
        if child == NULL { return NULL, name; }
        if end == |path| {
          assert path[q..] == path[|path|..] && done + [name] + [] == done + [name];
          return child, name;
        }
        done := done + [name];
        node, p := child, q;
      }
      node := NULL;
    }

    /** ramfs_unlink. */
    method Unlink(path: string) returns (ok: bool)
      requires Valid()
      modifies this, nodes
      ensures Valid()
      ensures var r := RamFsModel.Unlink(old(State()), Parts(path), EndsInSlash(path));
              State() == r.fs && ok == (r.node != NULL)
    {
      hide Sound, Resolve, Parts, Pointers;
      ghost var f := State();
      RootIn(f);
      var node, name := Locate(path);
      if node == NULL { return false; }
      NodeIn(f, node);
      if nodes[node].dir { return false; }
      UnlinkTarget(f, Parts(path), EndsInSlash(path));
      FreeNode(node);
      kids := RamFsModel.Unlink(f, Parts(path), EndsInSlash(path)).fs.kids;
      ok := true;
    }

    /** ramfs_resolve_parent: every component must exist, the last one included. */
    method ResolveParent(path: string, junk: string) returns (np: int, base: string)
      requires Valid()
      ensures np == if Resolve(State(), root, Parts(path)) == NULL then NULL
                    else Resolve(State(), root, Front(Parts(path)))
      ensures np != NULL ==> base == LastName(Parts(path), junk) && np in kids
    {
      hide Sound, Resolve, Lookup, Parts, PathNormalize.Comps, Pointers;
      ghost var f, done := State(), [];
      RootIn(f);
      np, base := root, junk;
      var p := PathNormalize.SkipSlashes(path, 0);
      PartsEnd(path);
      SamePartsAfter(path, 0, p);
      ResolveEmpty(f, root);
      while p < |path|
        invariant p <= |path| && (p < |path| ==> path[p] != '/') && np in kids
        invariant Parts(path) == done + Parts(path[p..]) && np == Resolve(f, root, done)
        invariant p == |path| ==> done == []
        invariant base == junk
        decreases |path| - p
      {
        var end := PathNormalize.NameEnd(path, p);
        var name := Clip(path[p..end]);
        var child := FindChild(np, name);
        var q := PathNormalize.SkipSlashes(path, end);
        PartsStep(path, p, end, q);
        Advance(f, done, name, Parts(path[q..]));
        assert Parts(path) == done + [name] + Parts(path[q..]);
        if child == NULL { return NULL, junk; }
        if q == |path| {
          assert done + [name] + [] == done + [name] && (done + [name])[..|done|] == done;
          base := name;
          return;
        }
        done := done + [name];
        np, p := child, q;
      }
    }

    /** The stores of ramfs_rename, once both nodes are known. */
    method Relink(np: int, e: int, mv: int, name: string)
      requires Valid() && Movable(nodes[..], root, kids, rank, np, e, mv)
      modifies this, nodes
      ensures Valid() && State() == Move(old(State()), np, e, mv, name)
    {
      hide Forest, Ranked, Rooted, Freed, Unlinked, Attached, DetachedKids, RenamedKids, RenamedRank, Pointers;
      hide Movable, Under;
      ghost var f := State();
      Places(f.m, f.root, f.kids, f.rank, np, e, mv);
      MovableIn(f.m, f.root, f.kids, f.rank, np, e, mv);
      DetachedRooted(f.m, f.root, f.kids, f.rank, np, e, mv);
      if e != NULL { FreeNode(e); }
      VacatedChild(f.m, f.root, f.kids, f.rank, np, e, mv);
      if nodes[mv].parent != NULL { JoinNeighbours(mv); }
      ghost var m2, kids2 := nodes[..], DetachedKids(f.m, f.kids, np, e, mv);
      assert m2 == Detached(f.m, e, mv);
      NewParentHead(m2, f.root, kids2, f.rank, np, mv);
      AddFirst(mv, np, name);
      ghost var g := Move(f, np, e, mv, name);
      kids, rank := g.kids, g.rank;
    }

    /** ramfs_rename. `junk` is what the basename buffer held: it matters only to a destination without components. */
    method Rename(oldpath: string, newpath: string, junk: string) returns (ok: bool)
      requires Valid()
      modifies this, nodes
      ensures Valid()
      ensures var r := RamFsModel.Rename(old(State()), Parts(oldpath), EndsInSlash(oldpath), Parts(newpath), junk);
              State() == r.fs && ok == (r.node != NULL)
    {
      hide Rooted, Resolve, Lookup, Parts, EndsInSlash, Pointers, Move, Movable;
      ghost var f, source, slash, target := State(), Parts(oldpath), EndsInSlash(oldpath), Parts(newpath);
      RootIn(f);
      var mv, name := Locate(oldpath);
      if mv == NULL { return false; }
      WalkDown(f, root, source);
      NodeIn(f, mv);
      if mv == root { return false; }
      var np, base := ResolveParent(newpath, junk);
      if np == NULL { return false; }
      FrontResolves(f, target);
      if name == base && np == nodes[mv].parent { return true; }
      if np == mv { return false; }
      var e := FindChild(np, base);
      if e != NULL {
        NodeIn(f, e);
        if nodes[e].dir && nodes[e].children != NULL { return false; }
      }
      MovableSource(f, source, slash, target, junk);
      Relink(np, e, mv, base);
      ok := true;
    }

    /** ramfs_mkdir. `junk` is what the name buffer held, which matters only to a path without components. */
    method Mkdir(path: string, junk: string) returns (ok: bool)
      requires Valid()
      modifies this, nodes
      ensures Valid()
      ensures var r := RamFsModel.Mkdir(old(State()), Parts(path), junk); State() == r.fs && ok == (r.node != NULL)
    {
      hide Rooted, Resolve, Lookup, Parts, PathNormalize.Comps, Pointers, Make, MakePath;
      ghost var f, done := State(), [];
      RootIn(f);
      var node, name := root, junk;
      var p := PathNormalize.SkipSlashes(path, 0);
      PartsEnd(path);
      SamePartsAfter(path, 0, p);
      while p < |path|
        invariant Valid() && p <= |path| && (p < |path| ==> path[p] != '/') && node in kids
        invariant Parts(path) == done + Parts(path[p..]) && name == LastName(done, junk)
        invariant MakePath(State(), node, Parts(path[p..])) == MakePath(f, root, Parts(path))
        decreases |path| - p
      {
        var end := PathNormalize.NameEnd(path, p);
        name := Clip(path[p..end]);
        var q := PathNormalize.SkipSlashes(path, end);
        PartsStep(path, p, end, q);
        MakePathHead(State(), node, name, Parts(path[q..]));
        RootIn(State());
        var child := FindChild(node, name);
        if child == NULL {
          child := Create(node, true, name);
          if child == NULL { return false; }
        }
        done := done + [name];
        node, p := child, q;
      }
      assert done == Parts(path);
      MakePathEnd(State(), node);
      NodeIn(State(), node);
      RootIn(State());
      if !nodes[node].dir { return false; }
      var child := FindChild(node, name);
      if child != NULL { return false; }
      child := Create(node, true, name);
      ok := child != NULL;
    }

    /** ramfs_open: the node found or made, or NULL. */
    method Open(path: string, create: bool) returns (node: int)
      requires Valid()
      modifies this, nodes
      ensures Valid()
      ensures var r := RamFsModel.Open(old(State()), root, Parts(path), create); State() == r.fs && node == r.node
    {
      hide Rooted, Resolve, Lookup, Parts, PathNormalize.Comps, Pointers, Make, RamFsModel.Open;
      ghost var f := State();
      RootIn(f);
      node := root;
      var p := PathNormalize.SkipSlashes(path, 0);
      PartsEnd(path);
      SamePartsAfter(path, 0, p);
      while p < |path|
        invariant Valid() && p <= |path| && (p < |path| ==> path[p] != '/') && node in kids
        invariant RamFsModel.Open(State(), node, Parts(path[p..]), create)
                  == RamFsModel.Open(f, root, Parts(path), create)
        decreases |path| - p
      {
        var end := PathNormalize.NameEnd(path, p);
        var name := Clip(path[p..end]);
        var q := PathNormalize.SkipSlashes(path, end);
        PartsStep(path, p, end, q);
        RootIn(State());
        OpenHead(State(), node, name, Parts(path[q..]), create);
        node := FindChild(node, name);
        if node == NULL {
          if !create { return; }
          node := Create(root, false, name);
          if node == NULL { return; }
        }
        p := q;
      }
      OpenEnd(State(), node, create);
    }
  }

  lemma NodeIn(f: Fs, n: int)
    requires Sound(f) && n in f.kids
    ensures 0 <= n < |f.m| && (f.m[n].children == NULL <==> f.kids[n] == [])
  {
    assert Laid(f.m, n, f.kids[n]);
    if f.kids[n] != [] { assert f.kids[n][0] in f.kids[n]; OneParent(f.m, f.kids, n, f.kids[n][0]); }
  }

  lemma ResolveHead(f: Fs, n: int, x: string, rest: seq<string>)
    requires Sound(f) && n in f.kids
    ensures Resolve(f, n, [x] + rest) == Resolve(f, Lookup(f, n, x), rest)
  {
    assert ([x] + rest)[1..] == rest;
    ResolveStep(f, n, [x] + rest);
  }

  lemma SamePartsAfter(path: string, p: nat, q: nat)
    requires p <= q <= |path| && PathNormalize.Comps(path[q..]) == PathNormalize.Comps(path[p..])
    ensures Parts(path[q..]) == Parts(path[p..])
  {}

  /** What ramfs_free_node does to the node ramfs_rmdir found; freeing an empty root changes nothing. */
  lemma RmdirTarget(f: Fs, parts: seq<string>)
    requires Sound(f) && RamFsModel.Rmdir(f, parts).node != NULL
    ensures var r := RamFsModel.Rmdir(f, parts);
            && 0 <= r.node < |f.m| && r.fs.m == Freed(f.m, r.node)
            && r.fs.root == f.root && r.fs.rank == f.rank && r.fs.count == f.count
  {
    hide Forest, Walk, Pruned;
    var n := Resolve(f, f.root, parts);
    NodeIn(f, n);
    if parts == [] {
      ResolveEmpty(f, f.root);
      FreedRoot(f.m, f.root);
    } else {
      WalkDown(f, f.root, parts);
    }
  }

  lemma UnlinkTarget(f: Fs, parts: seq<string>, slash: bool)
    requires Sound(f) && RamFsModel.Unlink(f, parts, slash).node != NULL
    ensures var r := RamFsModel.Unlink(f, parts, slash);
            && 0 <= r.node < |f.m| && r.fs.m == Freed(f.m, r.node)
            && r.fs.root == f.root && r.fs.rank == f.rank && r.fs.count == f.count
  {
    hide Forest, Walk, Pruned;
    NodeIn(f, Resolve(f, f.root, parts));
    WalkDown(f, f.root, parts);
  }

  /** One more component walked. */
  lemma Advance(f: Fs, done: seq<string>, x: string, rest: seq<string>)
    requires Sound(f) && f.root in f.kids && Resolve(f, f.root, done) != NULL
    ensures var c := Lookup(f, Resolve(f, f.root, done), x);
            && Resolve(f, f.root, done + [x]) == c
            && (c == NULL ==> Resolve(f, f.root, done + ([x] + rest)) == NULL)
  {
    hide Sound, Resolve, Lookup;
    var n := Resolve(f, f.root, done);
    ResolveJoin(f, f.root, done, [x]);
    ResolveOne(f, n, x);
    ResolveJoin(f, f.root, done, [x] + rest);
    ResolveHead(f, n, x, rest);
    ResolveNull(f, rest);
  }

  lemma FrontResolves(f: Fs, target: seq<string>)
    requires Sound(f) && f.root in f.kids && Resolve(f, f.root, target) != NULL
    ensures Resolve(f, f.root, Front(target)) != NULL
  {
    if target != [] { WalkDown(f, f.root, target); }
  }

  lemma NewParentHead(m: Mem, root: int, kids: Kids, rank: map<int, nat>, np: int, mv: int)
    requires Rooted(m, root, kids, rank) && np in kids && Top(kids, mv)
    ensures 0 <= np < |m| && m[np].children != np && (m[np].children == NULL || m[np].children != mv)
  {
    RootOnTop(m, root, kids, rank);
    HeadListed(m, kids, np);
    NotOwnChild(kids, rank, np);
  }

  lemma MakePathHead(f: Fs, n: int, x: string, rest: seq<string>)
    requires Sound(f) && n in f.kids
    ensures MakePath(f, n, [x] + rest)
            == var c := Lookup(f, n, x);
               if c != NULL then MakePath(f, c, rest)
               else if f.count >= MAX_FILES then Outcome(f, NULL)
               else MakePath(Make(f, n, true, x), f.count, rest)
  {
    hide Sound, Lookup, Make;
    assert ([x] + rest)[1..] == rest;
  }

  lemma MakePathEnd(f: Fs, n: int)
    requires Sound(f) && n in f.kids
    ensures MakePath(f, n, []) == Outcome(f, n)
  {}

  lemma OpenHead(f: Fs, n: int, x: string, rest: seq<string>, create: bool)
    requires Sound(f) && n in f.kids && f.root in f.kids
    ensures RamFsModel.Open(f, n, [x] + rest, create)
            == var c := Lookup(f, n, x);
               if c != NULL then RamFsModel.Open(f, c, rest, create)
               else if !create || f.count >= MAX_FILES then Outcome(f, NULL)
               else RamFsModel.Open(Make(f, f.root, false, x), f.count, rest, create)
  {
    hide Sound, Lookup, Make;
    assert ([x] + rest)[1..] == rest;
  }

  lemma OpenEnd(f: Fs, n: int, create: bool)
    requires Sound(f) && n in f.kids
    ensures RamFsModel.Open(f, n, [], create) == Outcome(f, n)
  {}

  lemma FreedRoot(m: Mem, r: int)
    requires 0 <= r < |m| && m[r].parent == NULL && m[r].children == NULL && m[r].next == NULL && m[r].prev == NULL
    ensures Freed(m, r) == m
  {}

  lemma ListAddresses(m: Mem, p: int, l: seq<int>)
    requires Laid(m, p, l)
    ensures Siblings(m, p, l) && Addresses(m, l) && m[p].children == if l == [] then NULL else l[0]
    ensures forall i :: 0 <= i <= |l| ==> Addresses(m, l[i..])
  {}

  lemma FindAt(m: Mem, l: seq<int>, i: nat, x: string)
    requires i < |l| && Addresses(m, l) && Addresses(m, l[i..]) && Addresses(m, l[i + 1..])
    ensures 0 <= l[i] < |m| && Find(m, l[i..], x) == if m[l[i]].name == x then l[i] else Find(m, l[i + 1..], x)
  {
    assert l[i..][1..] == l[i + 1..];
  }

  lemma FindNone(m: Mem, l: seq<int>, x: string)
    requires Addresses(m, l)
    ensures l == [] ==> Find(m, l, x) == NULL
  {}

  lemma HeadIn(m: Mem, kids: Kids, p: int)
    requires Forest(m, kids) && p in kids
    ensures kids[p] != [] ==> kids[p][0] in kids
  {}

  lemma AllocatedIs(m: Mem, c: int, dir: bool)
    requires 0 <= c < |m|
    ensures Allocated(m, c, dir) == m[c := Node("", dir, NULL, NULL, NULL, NULL)]
  {}

  lemma CreatedIs(m: Mem, c: int, p: int, dir: bool, name: string)
    requires 0 <= c < |m| && 0 <= p < |m|
    ensures Created(m, c, p, dir, name) == Attached(Allocated(m, c, dir), c, p, name)
  {}

  lemma AllocatedPointers(m: Mem, c: int, dir: bool)
    requires 0 <= c < |m| && Pointers(m)
    ensures Pointers(Allocated(m, c, dir))
  {
    forall i | 0 <= i < |m| ensures Pointed(Allocated(m, c, dir), i) { assert Pointed(m, i); }
  }

  lemma UnlinkedPointers(m: Mem, e: int)
    requires 0 <= e < |m| && Pointers(m)
    ensures Pointers(Unlinked(m, e))
  {
    assert Pointed(m, e);
    forall i | 0 <= i < |m| ensures Pointed(Unlinked(m, e), i) { assert Pointed(m, i); }
  }

  lemma FreedPointers(m: Mem, e: int)
    requires 0 <= e < |m| && Pointers(m)
    ensures Pointers(Freed(m, e))
  {
    UnlinkedPointers(m, e);
    forall i | 0 <= i < |m| ensures Pointed(Freed(m, e), i) { assert Pointed(Unlinked(m, e), i); }
  }

  lemma AttachedPointers(m: Mem, c: int, p: int, name: string)
    requires 0 <= c < |m| && 0 <= p < |m| && Pointers(m)
    ensures Pointers(Attached(m, c, p, name))
  {
    assert Pointed(m, p) && Pointed(m, c);
    forall i | 0 <= i < |m| ensures Pointed(Attached(m, c, p, name), i) { assert Pointed(m, i); }
  }
}
