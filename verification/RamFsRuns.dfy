/** What paths mean before and after each RamFS call, and what every run of calls keeps. */
module RamFsRuns {
  import opened DirTree
  import opened DirRename
  import opened DirPaths
  import opened RamFsModel

  // ------------------------------------------------------------------ the tree

  /** Following `parent` k times. */
  ghost function Climb(m: Mem, n: int, k: nat): int
    decreases k
  {
    if k == 0 || !(0 <= n < |m|) then n else Climb(m, m[n].parent, k - 1)
  }

  lemma {:induction false} ClimbJoin(m: Mem, n: int, k: nat)
    requires k > 0
    ensures 0 <= Climb(m, n, k - 1) < |m| ==> Climb(m, n, k) == m[Climb(m, n, k - 1)].parent
    decreases k
  {
    if k > 1 && 0 <= n < |m| { ClimbJoin(m, m[n].parent, k - 1); }
  }

  /** Parent pointers undo resolution: from the node a path leads to, as many steps up as it has components. */
  lemma {:induction false} ClimbBack(f: Fs, n: int, parts: seq<string>)
    requires Sound(f) && n in f.kids && Resolve(f, n, parts) != NULL
    ensures Climb(f.m, Resolve(f, n, parts), |parts|) == n
    decreases |parts|
  {
    hide Forest, Child, Ranked;
    if parts != [] {
      var c := Lookup(f, n, parts[0]);
      RootOnTop(f.m, f.root, f.kids, f.rank);
      assert Resolve(f, n, parts) == Resolve(f, c, parts[1..]);
      ClimbBack(f, c, parts[1..]);
      ClimbJoin(f.m, Resolve(f, n, parts), |parts|);
      OneParent(f.m, f.kids, n, c);
    }
  }

  // ------------------------------------------------------------------ removal

  /** After ramfs_rmdir or ramfs_unlink: other paths resolve as before, and none leads to the removed node. */
  lemma FreeResolves(f: Fs, e: int, parts: seq<string>)
    requires Sound(f) && Listed(f.m, f.kids, e)
    ensures !Visits(f.m, f.kids, f.root, parts, e) ==> Resolve(Free(f, e), f.root, parts) == Resolve(f, f.root, parts)
    ensures Resolve(Free(f, e), f.root, parts) != e
  {
    hide Rooted, Walk, Visits, Listed, Freed, Pruned;
    RootedForest(f.m, f.root, f.kids, f.rank);
    if !Visits(f.m, f.kids, f.root, parts, e) { RemovedResolves(f.m, f.root, f.kids, f.rank, e, parts); }
    RemovedGone(f.m, f.root, f.kids, f.rank, e, parts);
  }

  lemma RmdirResolves(f: Fs, parts: seq<string>, other: seq<string>)
    requires Sound(f) && parts != [] && Rmdir(f, parts).node != NULL
    ensures var g, e := Rmdir(f, parts).fs, Rmdir(f, parts).node;
            && e == Resolve(f, f.root, parts) && 0 <= e < |f.m| && f.m[e].dir && f.kids[e] == []
            && Resolve(g, f.root, other) != e
            && (!Visits(f.m, f.kids, f.root, other, e) ==> Resolve(g, f.root, other) == Resolve(f, f.root, other))
  {
    hide Walk, Visits, Forest, Free;
    WalkDown(f, f.root, parts);
    FreeResolves(f, Resolve(f, f.root, parts), other);
  }

  lemma UnlinkResolves(f: Fs, parts: seq<string>, slash: bool, other: seq<string>)
    requires Sound(f) && Unlink(f, parts, slash).node != NULL
    ensures var g, e := Unlink(f, parts, slash).fs, Unlink(f, parts, slash).node;
            && e == Resolve(f, f.root, parts) && 0 <= e < |f.m| && !f.m[e].dir && Resolve(g, f.root, other) != e
            && (!Visits(f.m, f.kids, f.root, other, e) ==> Resolve(g, f.root, other) == Resolve(f, f.root, other))
  {
    hide Walk, Visits, Forest, Free;
    WalkDown(f, f.root, parts);
    FreeResolves(f, Resolve(f, f.root, parts), other);
  }

  // ------------------------------------------------------------------ rename

  /**
   * After ramfs_rename, the destination followed by any q leads where the source followed by q led; and the
   * destination leads to the moved node if and only if its directory was not under that node.
   */
  lemma RenameResolves(f: Fs, source: seq<string>, slash: bool, target: seq<string>, junk: string, q: seq<string>)
    requires Sound(f) && Rename(f, source, slash, target, junk).node != NULL
    ensures var g, mv := Rename(f, source, slash, target, junk).fs, Resolve(f, f.root, source);
            var np, there := Resolve(f, f.root, Front(target)), Front(target) + [LastName(target, junk)];
            && mv != NULL && np != NULL
            && (!Under(f.m, f.kids, f.rank, mv, np) ==>
                  Resolve(g, f.root, there + q) == Resolve(f, f.root, source + q))
            && (Resolve(g, f.root, there) == mv <==> !Under(f.m, f.kids, f.rank, mv, np))
  {
    hide Forest, Walk, Child, Under, Renamed, RenamedKids, RenamedRank, DetachedKids, Detached, Ranked;
    var mv, np, name := Resolve(f, f.root, source), Resolve(f, f.root, Front(target)), LastName(target, junk);
    var e := Lookup(f, np, name);
    WalkDown(f, f.root, source);
    if Stays(f, source, slash, target, junk) {
      StaysResolves(f, source, slash, target, junk, q);
    } else {
      MovableSource(f, source, slash, target, junk);
      RenamedRooted(f.m, f.root, f.kids, f.rank, np, e, mv, name);
      RenamedFound(f.m, f.root, f.kids, f.rank, np, e, mv, name, source, Front(target));
      if !Under(f.m, f.kids, f.rank, mv, np) {
        MovesApart(f.m, f.root, f.kids, f.rank, np, e, mv, name);
        MovedKids(f, np, e, mv, name);
        RenamedResolves(f.m, f.root, f.kids, f.rank, np, e, mv, name, source, Front(target), q);
      }
    }
  }

  /** ramfs_rename: every path that came through neither the moved nor the replaced node resolves as before. */
  lemma RenameFrame(f: Fs, source: seq<string>, slash: bool, target: seq<string>, junk: string, other: seq<string>)
    requires Sound(f) && Rename(f, source, slash, target, junk).node != NULL && f.root in f.kids
    ensures var mv, np := Resolve(f, f.root, source), Resolve(f, f.root, Front(target));
            && mv != NULL && np != NULL
            && (!Visits(f.m, f.kids, f.root, other, mv)
                && !Visits(f.m, f.kids, f.root, other, Lookup(f, np, LastName(target, junk))) ==>
                  Resolve(Rename(f, source, slash, target, junk).fs, f.root, other) == Resolve(f, f.root, other))
  {
    hide Forest, Walk, Child, Under, Renamed, RenamedRank, DetachedKids, Detached, Ranked, Visits;
    var mv, np, name := Resolve(f, f.root, source), Resolve(f, f.root, Front(target)), LastName(target, junk);
    var e := Lookup(f, np, name);
    WalkDown(f, f.root, source);
    if !Stays(f, source, slash, target, junk) && !Visits(f.m, f.kids, f.root, other, mv)
      && !Visits(f.m, f.kids, f.root, other, e)
    {
      MovableSource(f, source, slash, target, junk);
      RenamedRooted(f.m, f.root, f.kids, f.rank, np, e, mv, name);
      var kids' := RenamedKids(f.m, f.root, f.kids, f.rank, np, e, mv);
      if Under(f.m, f.kids, f.rank, mv, np) {
        StrandedFrame(f.m, f.root, f.kids, f.rank, np, e, mv, name, kids', other);
      } else {
        MovesApart(f.m, f.root, f.kids, f.rank, np, e, mv, name);
        RenamedFrame(f.m, f.root, f.kids, f.rank, np, e, mv, name, other);
      }
    }
  }

  lemma MovedKids(f: Fs, np: int, e: int, mv: int, name: string)
    requires Sound(f) && Movable(f.m, f.root, f.kids, f.rank, np, e, mv) && !Under(f.m, f.kids, f.rank, mv, np)
    ensures np in DetachedKids(f.m, f.kids, np, e, mv)
    ensures Move(f, np, e, mv, name).kids == Grown(DetachedKids(f.m, f.kids, np, e, mv), np, mv)
  {
    hide Under, DetachedKids, Detached, Renamed, Rooted, Forest;
    RenamedRooted(f.m, f.root, f.kids, f.rank, np, e, mv, name);
  }

  /** The same name in the same directory already leads to the node. */
  lemma StaysResolves(f: Fs, source: seq<string>, slash: bool, target: seq<string>, junk: string, q: seq<string>)
    requires Sound(f) && Resolvable(f, source, slash, target) && Stays(f, source, slash, target, junk)
    ensures var mv, np := Resolve(f, f.root, source), Resolve(f, f.root, Front(target));
            var there := Front(target) + [LastName(target, junk)];
            && Resolve(f, f.root, there) == mv && Resolve(f, f.root, there + q) == Resolve(f, f.root, source + q)
            && !Under(f.m, f.kids, f.rank, mv, np)
  {
    hide Forest, Walk, Child, Under, Ranked;
    var name := LastName(target, junk);
    WalkDown(f, f.root, source);
    RootOnTop(f.m, f.root, f.kids, f.rank);
    var init := source[..|source| - 1];
    assert source == init + [name];
    WalkJoin(f.m, f.kids, f.root, init, [name]);
    WalkJoin(f.m, f.kids, f.root, Front(target), [name]);
    WalkJoin(f.m, f.kids, f.root, source, q);
    WalkJoin(f.m, f.kids, f.root, Front(target) + [name], q);
    NotAboveItself(f.m, f.kids, f.rank, Resolve(f, f.root, source));
  }

  // ------------------------------------------------------------------ creation

  /** A new node under a name that led nowhere: whatever resolved still does, and the name leads to it. */
  lemma MakeKeeps(f: Fs, p: int, dir: bool, name: string, n: int, parts: seq<string>)
    requires Sound(f) && p in f.kids && f.count < MAX_FILES && Lookup(f, p, name) == NULL && n in f.kids
    ensures Resolve(f, n, parts) != NULL ==> Resolve(Make(f, p, dir, name), n, parts) == Resolve(f, n, parts)
  {
    hide Walk, Child, Visits, Created, Grown;
    RootOnTop(f.m, f.root, f.kids, f.rank);
    FailsAtNull(f.m, f.kids, n, parts);
    if Resolve(f, n, parts) != NULL {
      CreatedResolves(f.m, f.root, f.kids, f.rank, f.count, p, dir, name, n, parts);
    }
  }

  /** The new node is the first the name leads to; it is of the kind asked for and has no children. */
  lemma MakeLeads(f: Fs, p: int, dir: bool, name: string)
    requires Sound(f) && p in f.kids && f.count < MAX_FILES
    ensures var g := Make(f, p, dir, name);
            && Lookup(g, p, name) == f.count && Resolve(g, p, [name]) == f.count
            && g.kids[f.count] == [] && f.count in g.kids[p] && g.m[f.count].dir == dir
  {
    hide Created;
    var g, c := Make(f, p, dir, name), f.count;
    RootOnTop(f.m, f.root, f.kids, f.rank);
    assert Laid(g.m, p, g.kids[p]);
    InRange(f.m, f.kids, p);
    CreatedNames(f.m, c, p, dir, name);
    FindFirst(g.m, c, f.kids[p], name);
    ResolveOne(g, p, name);
  }

  lemma {:induction false} MakePathKeeps(f: Fs, n: int, parts: seq<string>, k: int, other: seq<string>)
    requires Sound(f) && n in f.kids && k in f.kids && Resolve(f, k, other) != NULL
    ensures Resolve(MakePath(f, n, parts).fs, k, other) == Resolve(f, k, other)
    decreases |parts|
  {
    hide Sound, Resolve, Lookup, Make;
    if parts != [] {
      var c := Lookup(f, n, parts[0]);
      if c != NULL {
        MakePathKeeps(f, c, parts[1..], k, other);
      } else if f.count < MAX_FILES {
        MakeKeeps(f, n, true, parts[0], k, other);
        MakePathKeeps(Make(f, n, true, parts[0]), f.count, parts[1..], k, other);
      }
    }
  }

  lemma {:induction false} MakePathLeads(f: Fs, n: int, parts: seq<string>)
    requires Sound(f) && n in f.kids && MakePath(f, n, parts).node != NULL
    ensures Resolve(MakePath(f, n, parts).fs, n, parts) == MakePath(f, n, parts).node
    decreases |parts|
  {
    hide Sound, Resolve, Lookup, Make;
    if parts == [] {
      ResolveEmpty(f, n);
    } else {
      var c, g := Lookup(f, n, parts[0]), MakePath(f, n, parts).fs;
      assert parts == [parts[0]] + parts[1..];
      ResolveJoin(g, n, [parts[0]], parts[1..]);
      ResolveOne(f, n, parts[0]);
      if c != NULL {
        MakePathLeads(f, c, parts[1..]);
        MakePathKeeps(f, n, parts, n, [parts[0]]);
      } else if f.count < MAX_FILES {
        var h := Make(f, n, true, parts[0]);
        MakeLeads(f, n, true, parts[0]);
        MakePathLeads(h, f.count, parts[1..]);
        CountNotNull(f);
        MakePathKeeps(h, f.count, parts[1..], n, [parts[0]]);
      }
    }
  }

  lemma CountNotNull(f: Fs)
    ensures f.count != NULL
  {}

  lemma RootIn(f: Fs)
    requires Sound(f)
    ensures f.root in f.kids && |f.m| == MAX_FILES && NULL !in f.kids
  {
    RootOnTop(f.m, f.root, f.kids, f.rank);
  }

  lemma ResolveNull(f: Fs, parts: seq<string>)
    requires Sound(f)
    ensures Resolve(f, NULL, parts) == NULL
  {}

  lemma ResolveEmpty(f: Fs, n: int)
    requires Sound(f) && n in f.kids
    ensures Resolve(f, n, []) == n
  {}

  lemma ResolveOne(f: Fs, n: int, x: string)
    requires Sound(f) && n in f.kids
    ensures Resolve(f, n, [x]) == Lookup(f, n, x)
  {
    hide Forest, Child;
    RootOnTop(f.m, f.root, f.kids, f.rank);
    assert [x][1..] == [];
    assert Walk(f.m, f.kids, n, [x]) == Walk(f.m, f.kids, Lookup(f, n, x), []);
  }

  lemma ResolveStep(f: Fs, n: int, parts: seq<string>)
    requires Sound(f) && n in f.kids && parts != []
    ensures Resolve(f, n, parts) == Resolve(f, Lookup(f, n, parts[0]), parts[1..])
  {
    RootOnTop(f.m, f.root, f.kids, f.rank);
  }

  lemma ResolveJoin(f: Fs, n: int, a: seq<string>, b: seq<string>)
    requires Sound(f) && n in f.kids
    ensures Resolve(f, n, a + b) == Resolve(f, Resolve(f, n, a), b)
  {
    WalkJoin(f.m, f.kids, n, a, b);
  }

  /** How many components resolve, one after the other. */
  ghost function Resolving(f: Fs, n: int, parts: seq<string>): (k: nat)
    requires Sound(f) && n in f.kids
    ensures k <= |parts|
    decreases |parts|
  {
    if parts == [] || Lookup(f, n, parts[0]) == NULL then 0 else 1 + Resolving(f, Lookup(f, n, parts[0]), parts[1..])
  }

  /** From a node without children nothing resolves. */
  lemma LeafResolving(f: Fs, n: int, parts: seq<string>)
    requires Sound(f) && n in f.kids && f.kids[n] == []
    ensures Resolving(f, n, parts) == 0
  {
    hide Sound;
  }

  /** The loop of ramfs_mkdir makes one directory for each component that does not resolve. */
  lemma {:induction false} MakePathCount(f: Fs, n: int, parts: seq<string>)
    requires Sound(f) && n in f.kids && MakePath(f, n, parts).node != NULL
    ensures MakePath(f, n, parts).fs.count == f.count + |parts| - Resolving(f, n, parts)
    decreases |parts|
  {
    hide Sound, Lookup, Make;
    if parts != [] {
      var c := Lookup(f, n, parts[0]);
      if c != NULL {
        MakePathCount(f, c, parts[1..]);
      } else if f.count < MAX_FILES {
        var g := Make(f, n, true, parts[0]);
        MakeLeads(f, n, true, parts[0]);
        LeafResolving(g, f.count, parts[1..]);
        MakePathCount(g, f.count, parts[1..]);
      }
    }
  }

  /**
   * ramfs_mkdir that succeeds: the path leads to a directory, and a further directory of the same name was made inside
   * it, where the path to it led nowhere before. One directory was made for each component that did not resolve, and
   * that one. Everything that resolved before still does.
   */
  lemma MkdirPlace(f: Fs, parts: seq<string>, junk: string, other: seq<string>)
    requires Sound(f) && f.root in f.kids && Mkdir(f, parts, junk).node != NULL
    ensures var g, d, name := Mkdir(f, parts, junk).fs, Mkdir(f, parts, junk).node, LastName(parts, junk);
            var n := Resolve(g, f.root, parts);
            && n != NULL && 0 <= n < |g.m| && g.m[n].dir
            && Resolve(f, f.root, parts + [name]) == NULL
            && Resolve(g, f.root, parts + [name]) == d && 0 <= d < |g.m| && g.m[d].dir && g.kids[d] == []
            && g.count == f.count + |parts| - Resolving(f, f.root, parts) + 1 && d == g.count - 1 >= f.count
            && (Resolve(f, f.root, other) != NULL ==> Resolve(g, f.root, other) == Resolve(f, f.root, other))
  {
    hide Rooted, Resolve, Lookup, Make, MakePath;
    var h, n, name := MakePath(f, f.root, parts).fs, MakePath(f, f.root, parts).node, LastName(parts, junk);
    var g := Make(h, n, true, name);
    RootedForest(h.m, h.root, h.kids, h.rank);
    RootedForest(g.m, g.root, g.kids, g.rank);
    InRange(h.m, h.kids, n);
    MakePathLeads(f, f.root, parts);
    MakePathCount(f, f.root, parts);
    MakeKeeps(h, n, true, name, f.root, parts);
    MakeLeads(h, n, true, name);
    MadeDirs(h, n, true, name);
    ResolveJoin(g, f.root, parts, [name]);
    NotThereBefore(f, parts, name);
    if Resolve(f, f.root, other) != NULL {
      MakePathKeeps(f, f.root, parts, f.root, other);
      MakeKeeps(h, n, true, name, f.root, other);
    }
  }

  /** What the loop did not leave under a name was not there before. */
  lemma NotThereBefore(f: Fs, parts: seq<string>, name: string)
    requires Sound(f) && f.root in f.kids
    requires var r := MakePath(f, f.root, parts); r.node != NULL && Lookup(r.fs, r.node, name) == NULL
    ensures Resolve(f, f.root, parts + [name]) == NULL
  {
    hide Sound, Resolve, Lookup, MakePath;
    var r := MakePath(f, f.root, parts);
    MakePathLeads(f, f.root, parts);
    ResolveJoin(r.fs, f.root, parts, [name]);
    ResolveOne(r.fs, r.node, name);
    if Resolve(f, f.root, parts + [name]) != NULL { MakePathKeeps(f, f.root, parts, f.root, parts + [name]); }
  }

  lemma MadeDirs(f: Fs, p: int, dir: bool, name: string)
    requires Sound(f) && p in f.kids && f.count < MAX_FILES
    ensures forall i :: 0 <= i < |f.m| && i != f.count ==> Make(f, p, dir, name).m[i].dir == f.m[i].dir
  {
    InRange(f.m, f.kids, p);
    CreatedNames(f.m, f.count, p, dir, name);
  }

  // ------------------------------------------------------------------ runs

  datatype Call =
    | OpenCall(parts: seq<string>, create: bool)
    | MkdirCall(parts: seq<string>, junk: string)
    | RmdirCall(parts: seq<string>)
    | UnlinkCall(parts: seq<string>, slash: bool)
    | RenameCall(source: seq<string>, slash: bool, target: seq<string>, junk: string)

  ghost function Step(f: Fs, c: Call): (r: Fs)
    requires Sound(f)
    ensures Sound(r)
  {
    match c
    case OpenCall(parts, create) => Open(f, f.root, parts, create).fs
    case MkdirCall(parts, junk) => Mkdir(f, parts, junk).fs
    case RmdirCall(parts) => Rmdir(f, parts).fs
    case UnlinkCall(parts, slash) => Unlink(f, parts, slash).fs
    case RenameCall(source, slash, target, junk) => Rename(f, source, slash, target, junk).fs
  }

  /** The nodes under the root form a tree after every run, whatever the calls and whether or not they succeed. */
  ghost function Run(f: Fs, calls: seq<Call>): (r: Fs)
    requires Sound(f)
    ensures Sound(r)
    decreases |calls|
  {
    if calls == [] then f else Run(Step(f, calls[0]), calls[1..])
  }
}
