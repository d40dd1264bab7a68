/** When each RamFS call succeeds, in terms of where paths led before it; and which calls undo each other. */
module RamFsOutcomes {
  import opened Sequences
  import opened DirTree
  import opened DirRename
  import opened DirPaths
  import opened RamFsModel
  import opened RamFsRuns
  import opened RamFsOpen

  /** The path leads to a directory. */
  ghost predicate IsDir(f: Fs, parts: seq<string>)
    requires Sound(f)
  {
    var n := Resolve(f, f.root, parts);
    n != NULL && 0 <= n < |f.m| && f.m[n].dir
  }

  /** The path leads to a file. */
  ghost predicate IsFile(f: Fs, parts: seq<string>)
    requires Sound(f)
  {
    Resolve(f, f.root, parts) != NULL && !IsDir(f, parts)
  }

  /** No longer path leads anywhere. */
  ghost predicate Childless(f: Fs, parts: seq<string>)
    requires Sound(f)
  {
    forall x: string :: Resolve(f, f.root, parts + [x]) == NULL
  }

  lemma ChildlessIff(f: Fs, parts: seq<string>)
    requires Sound(f) && Resolve(f, f.root, parts) != NULL
    ensures Childless(f, parts) <==> f.kids[Resolve(f, f.root, parts)] == []
  {
    var n := Resolve(f, f.root, parts);
    RootIn(f);
    if f.kids[n] == [] {
      hide Sound, Resolve;
      forall x: string ensures Resolve(f, f.root, parts + [x]) == NULL {
        ResolveJoin(f, f.root, parts, [x]);
        LeafResolves(f, n, [x]);
      }
    } else {
      var c := f.kids[n][0];
      assert Laid(f.m, n, f.kids[n]) && 0 <= c < |f.m|;
      var x := f.m[c].name;
      assert Lookup(f, n, x) == c;
      hide Sound, Resolve, Lookup;
      ResolveJoin(f, f.root, parts, [x]);
      ResolveOne(f, n, x);
      assert c != NULL;
      assert Resolve(f, f.root, parts + [x]) != NULL;
    }
  }

  // ------------------------------------------------------------------ removal

  /** ramfs_unlink succeeds if and only if the path has components, does not end in a slash and leads to a file; that
      file is what it removes, and a refused call changes nothing. */
  lemma UnlinkIff(f: Fs, parts: seq<string>, slash: bool)
    requires Sound(f)
    ensures var r := Unlink(f, parts, slash);
            && (r.node != NULL <==> parts != [] && !slash && IsFile(f, parts))
            && (r.node != NULL ==> r.node == Resolve(f, f.root, parts))
            && (r.node == NULL ==> r.fs == f)
  {
    hide Forest, Walk, Free;
    var n := Resolve(f, f.root, parts);
    if n != NULL { InRange(f.m, f.kids, n); }
  }

  /** ramfs_rmdir succeeds if and only if the path leads to a directory and no longer path leads anywhere; a refused
      call changes nothing, and neither does removing the root. */
  lemma RmdirIff(f: Fs, parts: seq<string>)
    requires Sound(f)
    ensures var r := Rmdir(f, parts);
            && (r.node != NULL <==> IsDir(f, parts) && Childless(f, parts))
            && (r.node != NULL ==> r.node == Resolve(f, f.root, parts))
            && (r.node == NULL || parts == [] ==> r.fs == f)
  {
    hide Forest, Walk, Free, Childless;
    var n := Resolve(f, f.root, parts);
    if n != NULL {
      InRange(f.m, f.kids, n);
      ChildlessIff(f, parts);
    }
  }

  // ------------------------------------------------------------------ rename

  /** Where ramfs_rename puts the node: the destination, except that "/" leaves the name to chance. */
  function There(target: seq<string>, junk: string): (r: seq<string>)
    ensures target != [] ==> r == target
  {
    Front(target) + [LastName(target, junk)]
  }

  /** What the tests of ramfs_rename look at, as paths. */
  lemma RenamePaths(f: Fs, source: seq<string>, slash: bool, target: seq<string>, junk: string)
    requires Sound(f) && Resolve(f, f.root, target) != NULL
    ensures Resolve(f, f.root, Front(target)) != NULL
    ensures Lookup(f, Resolve(f, f.root, Front(target)), LastName(target, junk))
            == Resolve(f, f.root, There(target, junk))
  {
    hide Rooted, Walk;
    RootedForest(f.m, f.root, f.kids, f.rank);
    RootIn(f);
    ResolveEmpty(f, f.root);
    if target != [] { WalkDown(f, f.root, target); }
    hide Sound, Resolve, Lookup;
    var np, name := Resolve(f, f.root, Front(target)), LastName(target, junk);
    ResolveJoin(f, f.root, Front(target), [name]);
    ResolveOne(f, np, name);
  }

  /** Two paths lead to one node exactly when they end in the same name in the same directory. */
  lemma StaysIff(f: Fs, source: seq<string>, slash: bool, target: seq<string>, junk: string)
    requires Sound(f) && Resolvable(f, source, slash, target)
    ensures Stays(f, source, slash, target, junk) <==>
              Resolve(f, f.root, There(target, junk)) == Resolve(f, f.root, source)
  {
    hide Forest, Walk, Child, Ranked;
    var there := There(target, junk);
    assert there[..|there| - 1] == Front(target);
    if Stays(f, source, slash, target, junk) {
      StaysResolves(f, source, slash, target, junk, []);
    } else if Resolve(f, f.root, there) == Resolve(f, f.root, source) {
      WalkDown(f, f.root, source);
      WalkDown(f, f.root, there);
    }
  }

  /** ramfs_rename succeeds if and only if both paths lead somewhere, the source has components and does not end in a
      slash, and either both lead to one node, or the destination is not right inside the source and what stands there
      is a file or has nothing below it. A refused call changes nothing, and neither does one with both paths the
      same node. */
  lemma RenameIff(f: Fs, source: seq<string>, slash: bool, target: seq<string>, junk: string)
    requires Sound(f)
    ensures var r, there := Rename(f, source, slash, target, junk), There(target, junk);
            var mv, e := Resolve(f, f.root, source), Resolve(f, f.root, there);
            && (r.node != NULL <==>
                  && source != [] && !slash && mv != NULL && Resolve(f, f.root, target) != NULL
                  && (e == mv || (Resolve(f, f.root, Front(target)) != mv
                                  && (e == NULL || IsFile(f, there) || Childless(f, there)))))
            && (r.node != NULL ==> r.node == mv)
            && (r.node == NULL || e == mv ==> r.fs == f)
  {
    hide Forest, Walk, Move, Childless;
    var there := There(target, junk);
    if Resolve(f, f.root, target) != NULL {
      RenamePaths(f, source, slash, target, junk);
      var e := Resolve(f, f.root, there);
      if e != NULL {
        InRange(f.m, f.kids, e);
        ChildlessIff(f, there);
      }
      if Resolvable(f, source, slash, target) { StaysIff(f, source, slash, target, junk); }
    }
  }

  // ------------------------------------------------------------------ creation

  /** What has no free node left to go on with fails; nothing else does. */
  lemma {:induction false} MakePathIff(f: Fs, n: int, parts: seq<string>)
    requires Sound(f) && n in f.kids && NULL !in f.kids
    ensures MakePath(f, n, parts).node != NULL <==> f.count + |parts| - Resolving(f, n, parts) <= MAX_FILES
    decreases |parts|
  {
    hide Rooted, Lookup, Make;
    if parts != [] {
      var c := Lookup(f, n, parts[0]);
      if c != NULL {
        MakePathIff(f, c, parts[1..]);
      } else if f.count < MAX_FILES {
        var g := Make(f, n, true, parts[0]);
        MakeLeads(f, n, true, parts[0]);
        RootIn(g);
        LeafResolving(g, f.count, parts[1..]);
        MakePathIff(g, f.count, parts[1..]);
      }
    }
  }

  /** The directory the loop ends in is new and has nothing below it, unless the path led somewhere before. */
  lemma {:induction false} MakePathEnd(f: Fs, n: int, parts: seq<string>)
    requires Sound(f) && n in f.kids && NULL !in f.kids && MakePath(f, n, parts).node != NULL
    ensures var r := MakePath(f, n, parts);
            if Resolving(f, n, parts) == |parts| then r == Outcome(f, Resolve(f, n, parts))
            else r.fs.kids[r.node] == [] && 0 <= r.node < |r.fs.m| && r.fs.m[r.node].dir
    decreases |parts|
  {
    hide Rooted, Resolve, Lookup, Make;
    ResolveEmpty(f, n);
    if parts != [] {
      var c := Lookup(f, n, parts[0]);
      ResolveStep(f, n, parts);
      if c != NULL {
        MakePathEnd(f, c, parts[1..]);
      } else if f.count < MAX_FILES {
        var g := Make(f, n, true, parts[0]);
        MakeLeads(f, n, true, parts[0]);
        RootIn(g);
        LeafResolving(g, f.count, parts[1..]);
        MakePathEnd(g, f.count, parts[1..]);
        ResolveEmpty(g, f.count);
      }
    }
  }

  lemma ResolvingAll(f: Fs, parts: seq<string>)
    requires Sound(f)
    ensures Resolving(f, f.root, parts) == |parts| <==> Resolve(f, f.root, parts) != NULL
  {
    hide Resolve, Resolving;
    RootIn(f);
    var k := Resolving(f, f.root, parts);
    ResolvingIs(f, f.root, parts);
    if k == |parts| {
      assert parts[..k] == parts;
    } else {
      assert parts[..k + 1] + parts[k + 1..] == parts;
      ResolveJoin(f, f.root, parts[..k + 1], parts[k + 1..]);
      ResolveNull(f, parts[k + 1..]);
    }
  }

  /** ramfs_mkdir succeeds if and only if the path leads to a directory or nowhere, nothing of that name is in it, and
      there are nodes for all it makes. Whether or not it succeeds, what led somewhere leads there still. */
  lemma MkdirIff(f: Fs, parts: seq<string>, junk: string, other: seq<string>)
    requires Sound(f)
    ensures Mkdir(f, parts, junk).node != NULL <==>
              && (Resolve(f, f.root, parts) == NULL || IsDir(f, parts))
              && Resolve(f, f.root, parts + [LastName(parts, junk)]) == NULL
              && f.count + |parts| - Resolving(f, f.root, parts) < MAX_FILES
    ensures Resolve(f, f.root, other) != NULL ==>
              Resolve(Mkdir(f, parts, junk).fs, f.root, other) == Resolve(f, f.root, other)
  {
    hide Rooted, Resolve, Lookup, Make, MakePath, Resolving;
    RootIn(f);
    var r, name := MakePath(f, f.root, parts), LastName(parts, junk);
    MakePathIff(f, f.root, parts);
    ResolvingAll(f, parts);
    ResolveJoin(f, f.root, parts, [name]);
    ResolveNull(f, [name]);
    if r.node != NULL {
      MakePathEnd(f, f.root, parts);
      MakePathCount(f, f.root, parts);
      ResolveOne(r.fs, r.node, name);
      RootedForest(r.fs.m, r.fs.root, r.fs.kids, r.fs.rank);
      InRange(r.fs.m, r.fs.kids, r.node);
      if Resolving(f, f.root, parts) < |parts| { LeafResolves(r.fs, r.node, [name]); }
    }
    if Resolve(f, f.root, other) != NULL {
      MakePathKeeps(f, f.root, parts, f.root, other);
      if Mkdir(f, parts, junk).node != NULL { MkdirPlace(f, parts, junk, other); }
    }
  }

  /** ramfs_open succeeds if and only if the path leads somewhere, or it may create and there is a node for each
      component from the first that leads nowhere. */
  lemma OpenIff(f: Fs, parts: seq<string>, create: bool)
    requires Sound(f)
    ensures Open(f, f.root, parts, create).node != NULL <==>
              || Resolve(f, f.root, parts) != NULL
              || (create && f.count + |parts| - Resolving(f, f.root, parts) <= MAX_FILES)
  {
    hide Rooted, Resolve, Lookup, Make, Open, Resolving;
    RootIn(f);
    ResolvingAll(f, parts);
    OpenLoopIff(f, f.root, parts, create);
  }

  lemma {:induction false} OpenLoopIff(f: Fs, n: int, parts: seq<string>, create: bool)
    requires Sound(f) && n in f.kids && NULL !in f.kids
    ensures Open(f, n, parts, create).node != NULL <==>
              || Resolving(f, n, parts) == |parts|
              || (create && f.count + |parts| - Resolving(f, n, parts) <= MAX_FILES)
    decreases |parts|
  {
    hide Rooted, Lookup, Make;
    if parts != [] {
      var c := Lookup(f, n, parts[0]);
      if c != NULL {
        OpenLoopIff(f, c, parts[1..], create);
      } else if create && f.count < MAX_FILES {
        RootIn(f);
        var g := Make(f, f.root, false, parts[0]);
        MakeLeads(f, f.root, false, parts[0]);
        RootIn(g);
        LeafResolving(g, f.count, parts[1..]);
        OpenLoopIff(g, f.count, parts[1..], create);
      }
    }
  }

  // ------------------------------------------------------------------ what undoes what

  /** Freeing a node that was just made leaves the children of every directory, and their names, as they were. */
  lemma FreeMade(f: Fs, p: int, dir: bool, name: string)
    requires Sound(f) && p in f.kids && f.count < MAX_FILES
    ensures var g, e := Make(f, p, dir, name), f.count;
            && Listed(g.m, g.kids, e) && Free(g, e).kids == f.kids
            && forall n :: n in f.kids ==> 0 <= n < |f.m| == |Free(g, e).m| && Free(g, e).m[n].name == f.m[n].name
  {
    hide Created, Freed, Ranked, Siblings;
    var g, e := Make(f, p, dir, name), f.count;
    InRange(f.m, f.kids, p);
    CreatedNames(f.m, e, p, dir, name);
    MakeLeads(f, p, dir, name);
    OneParent(g.m, g.kids, p, e);
    FreedNames(g.m, e);
    assert Without(g.kids[p], e) == f.kids[p] by { assert g.kids[p] == [e] + f.kids[p]; }
    assert Free(g, e).kids == f.kids;
    forall n | n in f.kids ensures 0 <= n < |f.m| && Free(g, e).m[n].name == f.m[n].name { InRange(f.m, f.kids, n); }
  }

  /** So every path leads where it led before the node was made. */
  lemma FreeUndoesMake(f: Fs, p: int, dir: bool, name: string, other: seq<string>)
    requires Sound(f) && p in f.kids && f.count < MAX_FILES
    ensures var g, e := Make(f, p, dir, name), f.count;
            && Listed(g.m, g.kids, e) && f.root in Free(g, e).kids
            && Resolve(Free(g, e), f.root, other) == Resolve(f, f.root, other)
  {
    hide Walk, Make, Free, Ranked;
    FreeMade(f, p, dir, name);
    var h := Free(Make(f, p, dir, name), f.count);
    RootIn(f);
    forall k | k in f.kids ensures Untouched(f.m, f.kids, h.m, h.kids, f.kids.Keys, k) {}
    WalkInside(f.m, f.kids, h.m, h.kids, f.kids.Keys, f.root, other);
  }

  /** Creating a file in the root and unlinking it: the unlink succeeds, and every path leads where it led before. */
  lemma UnlinkUndoesOpen(f: Fs, x: string, other: seq<string>)
    requires Sound(f) && Resolve(f, f.root, [x]) == NULL && f.count < MAX_FILES
    ensures var g := Open(f, f.root, [x], true);
            && g.node != NULL && IsFile(g.fs, [x])
            && var r := Unlink(g.fs, [x], false);
               && r.node == g.node && r.fs.root == f.root
               && Resolve(r.fs, f.root, other) == Resolve(f, f.root, other)
  {
    hide Sound, Resolve, Make, Free;
    RootIn(f);
    ResolveOne(f, f.root, x);
    var g, e := Make(f, f.root, false, x), f.count;
    OpenFresh(f, x);
    MakeLeads(f, f.root, false, x);
    CountNotNull(f);
    UnlinkIff(g, [x], false);
    UnlinkFrees(g, [x]);
    FreeUndoesMake(f, f.root, false, x, other);
  }

  lemma OpenFresh(f: Fs, x: string)
    requires Sound(f) && f.root in f.kids && Lookup(f, f.root, x) == NULL && f.count < MAX_FILES
    ensures Open(f, f.root, [x], true) == Outcome(Make(f, f.root, false, x), f.count)
  {
    hide Sound, Lookup, Make;
    assert [x][1..] == [];
  }

  lemma UnlinkFrees(f: Fs, parts: seq<string>)
    requires Sound(f) && Unlink(f, parts, false).node != NULL
    ensures var e := Resolve(f, f.root, parts);
            Listed(f.m, f.kids, e) && Unlink(f, parts, false) == Outcome(Free(f, e), e)
  {
    hide Walk, Forest, Free;
    WalkDown(f, f.root, parts);
  }

  lemma RmdirFrees(f: Fs, parts: seq<string>)
    requires Sound(f) && Rmdir(f, parts).node != NULL && parts != []
    ensures var e := Resolve(f, f.root, parts);
            Listed(f.m, f.kids, e) && Rmdir(f, parts) == Outcome(Free(f, e), e)
  {
    hide Walk, Forest, Free;
    WalkDown(f, f.root, parts);
  }

  /** After ramfs_mkdir of a path, ramfs_unlink of it and ramfs_rmdir of it are refused and change nothing; ramfs_rmdir
      of the directory inside succeeds and, if the path led somewhere before, takes every path back to where it led. */
  lemma AfterMkdir(f: Fs, parts: seq<string>, junk: string, slash: bool, other: seq<string>)
    requires Sound(f) && Mkdir(f, parts, junk).node != NULL
    ensures var g, inside := Mkdir(f, parts, junk).fs, parts + [LastName(parts, junk)];
            && Unlink(g, parts, slash) == Outcome(g, NULL)
            && Rmdir(g, parts) == Outcome(g, NULL)
            && Rmdir(g, inside).node == Mkdir(f, parts, junk).node && Rmdir(g, inside).fs.root == f.root
            && (Resolve(f, f.root, parts) != NULL ==>
                  Resolve(Rmdir(g, inside).fs, f.root, other) == Resolve(f, f.root, other))
  {
    hide Rooted, Resolve, Free, MakePath, Make;
    RootIn(f);
    var r, name := Mkdir(f, parts, junk), LastName(parts, junk);
    var g, inside := r.fs, parts + [name];
    MkdirPlace(f, parts, junk, other);
    UnlinkIff(g, parts, slash);
    RmdirIff(g, parts);
    ChildlessIff(g, inside);
    RmdirIff(g, inside);
    RmdirFrees(g, inside);
    if Resolve(f, f.root, parts) != NULL {
      ResolvingAll(f, parts);
      MakePathEnd(f, f.root, parts);
      FreeUndoesMake(f, Resolve(f, f.root, parts), true, name, other);
    }
  }
}
