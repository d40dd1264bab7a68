/** What ramfs_open creates, and which paths that disturbs. */
module RamFsOpen {
  import opened DirTree
  import opened DirRename
  import opened DirPaths
  import opened RamFsModel
  import opened RamFsRuns

  // ------------------------------------------------------------------ what it returns

  /** Once ramfs_open has made a node, the node it returns is a child of the root. */
  lemma {:induction false} OpenMade(f: Fs, n: int, parts: seq<string>, create: bool)
    requires Sound(f) && n in f.kids && f.root in f.kids
    ensures var r := Open(f, n, parts, create);
            r.node != NULL && r.fs.count > f.count ==> f.root in r.fs.kids && r.node in r.fs.kids[f.root]
    decreases |parts|
  {
    hide Sound, Lookup, Make;
    if parts != [] {
      var c, rest := Lookup(f, n, parts[0]), parts[1..];
      if c != NULL {
        OpenMade(f, c, rest, create);
      } else if f.count < MAX_FILES {
        var g := Make(f, f.root, false, parts[0]);
        MakeLeads(f, f.root, false, parts[0]);
        OpenMade(g, f.count, rest, create);
        if rest != [] { assert Lookup(g, f.count, rest[0]) == NULL; }
      }
    }
  }

  /** A path that ramfs_open could open leads to what it returned exactly when it resolved before or has at most one
      component. */
  lemma OpenPlace(f: Fs, parts: seq<string>, create: bool)
    requires Sound(f) && f.root in f.kids && Open(f, f.root, parts, create).node != NULL
    ensures var r := Open(f, f.root, parts, create);
            Resolve(r.fs, f.root, parts) == r.node <==> |parts| <= 1 || Resolve(f, f.root, parts) != NULL
  {
    hide Sound, Resolve, Lookup, Open, Make, Walk;
    var r := Open(f, f.root, parts, create);
    RootIn(f);
    ResolveEmpty(f, f.root);
    OpenExisting(f, f.root, parts, create);
    if Resolve(f, f.root, parts) == NULL {
      OpenGrows(f, f.root, parts, create);
      if |parts| == 1 {
        Single(parts);
        OpenOne(f, parts[0], create);
      } else {
        OpenMade(f, f.root, parts, create);
        AboveRoot(r.fs, parts, r.node);
      }
    }
  }

  /** A path that did not resolve and was opened made ramfs_open create. */
  lemma {:induction false} OpenGrows(f: Fs, n: int, parts: seq<string>, create: bool)
    requires Sound(f) && n in f.kids && f.root in f.kids && Resolve(f, n, parts) == NULL
    requires NULL !in f.kids && Open(f, n, parts, create).node != NULL
    ensures Open(f, n, parts, create).fs.count > f.count
    decreases |parts|
  {
    hide Sound, Resolve, Lookup, Make;
    ResolveEmpty(f, n);
    if parts != [] {
      ResolveStep(f, n, parts);
      var c := Lookup(f, n, parts[0]);
      if c != NULL { OpenGrows(f, c, parts[1..], create); }
    }
  }

  lemma Single(s: seq<string>)
    requires |s| == 1
    ensures s == [s[0]]
  {}

  lemma OpenOne(f: Fs, x: string, create: bool)
    requires Sound(f) && f.root in f.kids
    ensures var r := Open(f, f.root, [x], create);
            r.node != NULL && r.fs.count > f.count ==> Resolve(r.fs, f.root, [x]) == r.node
  {
    hide Sound, Lookup, Make, Resolve;
    assert [x][1..] == [];
    if f.count < MAX_FILES { MakeLeads(f, f.root, false, x); }
  }

  /** A child of the root is not reached by a longer path. */
  lemma AboveRoot(f: Fs, parts: seq<string>, c: int)
    requires Sound(f) && f.root in f.kids && c in f.kids[f.root] && |parts| >= 2
    ensures Resolve(f, f.root, parts) != c
  {
    hide Walk, Ranked;
    if Resolve(f, f.root, parts) == c {
      RootOnTop(f.m, f.root, f.kids, f.rank);
      OneParent(f.m, f.kids, f.root, c);
      WalkDown(f, f.root, parts);
      WalkDown(f, f.root, parts[..|parts| - 1]);
    }
  }

  /** When nothing is made, ramfs_open resolves the path. */
  lemma {:induction false} OpenExisting(f: Fs, n: int, parts: seq<string>, create: bool)
    requires Sound(f) && n in f.kids && f.root in f.kids
    ensures Resolve(f, n, parts) != NULL ==> Open(f, n, parts, create) == Outcome(f, Resolve(f, n, parts))
    ensures !create ==> Open(f, n, parts, create) == Outcome(f, Resolve(f, n, parts))
    decreases |parts|
  {
    hide Rooted, Lookup, Make;
    RootedForest(f.m, f.root, f.kids, f.rank);
    RootOnTop(f.m, f.root, f.kids, f.rank);
    if parts != [] {
      var c := Lookup(f, n, parts[0]);
      assert Resolve(f, n, parts) == Resolve(f, c, parts[1..]) by { ResolveStep(f, n, parts); }
      if c != NULL { OpenExisting(f, c, parts[1..], create); }
    }
  }

  /** A walk stays under where it starts. */
  lemma {:induction false} VisitsBelow(m: Mem, kids: Kids, rank: map<int, nat>, n: int, parts: seq<string>, v: int)
    requires Forest(m, kids) && Ranked(kids, rank) && n in kids && NULL !in kids
    requires Visits(m, kids, n, parts, v) && v != NULL
    ensures v in kids && Under(m, kids, rank, n, v)
    decreases |parts|
  {
    hide Forest, Ranked, Child;
    UnderSelf(m, kids, rank, n);
    if n != v {
      var c := Child(m, kids, n, parts[0]);
      VisitsBelow(m, kids, rank, c, parts[1..], v);
      UnderStep(m, kids, rank, n, n, c);
      UnderTrans(m, kids, rank, n, c, v);
    }
  }

  /** A path only comes through a child of the root when it starts with its name. */
  lemma NotThrough(f: Fs, parts: seq<string>, d: int)
    requires Sound(f) && parts != [] && d in f.kids[f.root] && 0 <= d < |f.m| && f.m[d].name != parts[0]
    ensures !Visits(f.m, f.kids, f.root, parts, d)
  {
    hide Forest, Ranked, Find, Under;
    RootOnTop(f.m, f.root, f.kids, f.rank);
    var c := Child(f.m, f.kids, f.root, parts[0]);
    if c != NULL && Visits(f.m, f.kids, c, parts[1..], d) {
      assert d >= 0;
      VisitsBelow(f.m, f.kids, f.rank, c, parts[1..], d);
      UnderStep(f.m, f.kids, f.rank, c, f.root, d);
    }
  }

  lemma MakeAtRoot(f: Fs, dir: bool, name: string, other: seq<string>)
    requires Sound(f) && f.root in f.kids && f.count < MAX_FILES
    requires other != [] && other[0] != name && Resolve(f, f.root, other) != NULL
    ensures Resolve(Make(f, f.root, dir, name), f.root, other) == Resolve(f, f.root, other)
  {
    hide Walk, Find, Visits, Created, Grown;
    RootOnTop(f.m, f.root, f.kids, f.rank);
    FailsAtNull(f.m, f.kids, f.root, other);
    var d := Child(f.m, f.kids, f.root, name);
    if d != NULL { NotThrough(f, other, d); }
    CreatedResolves(f.m, f.root, f.kids, f.rank, f.count, f.root, dir, name, f.root, other);
  }

  // ------------------------------------------------------------------ what it disturbs

  /** That is the longest prefix that resolves. */
  lemma {:induction false} ResolvingIs(f: Fs, n: int, parts: seq<string>)
    requires Sound(f) && n in f.kids && NULL !in f.kids
    ensures var k := Resolving(f, n, parts);
            && Resolve(f, n, parts[..k]) != NULL
            && (k < |parts| ==> Resolve(f, n, parts[..k + 1]) == NULL)
    decreases |parts|
  {
    hide Sound, Resolve, Lookup;
    var k := Resolving(f, n, parts);
    ResolveEmpty(f, n);
    assert parts[..0] == [];
    if parts != [] {
      var c := Lookup(f, n, parts[0]);
      if c == NULL {
        ResolveOne(f, n, parts[0]);
        assert parts[..1] == [parts[0]];
      } else {
        ResolvingIs(f, c, parts[1..]);
        assert parts[..k][0] == parts[0] && parts[..k][1..] == parts[1..][..k - 1];
        ResolveStep(f, n, parts[..k]);
        if k < |parts| {
          assert parts[..k + 1][0] == parts[0] && parts[..k + 1][1..] == parts[1..][..k];
          ResolveStep(f, n, parts[..k + 1]);
        }
      }
    }
  }

  /** The components ramfs_open creates: all that follow, as far as there are free nodes. */
  ghost function Made(f: Fs, n: int, parts: seq<string>, create: bool): (names: seq<string>)
    requires Sound(f) && n in f.kids
    ensures f.count + |names| <= MAX_FILES
  {
    var k := Resolving(f, n, parts);
    if !create then [] else if |parts| - k <= MAX_FILES - f.count then parts[k..] else parts[k..k + MAX_FILES - f.count]
  }

  /** Files made one after the other in the root. */
  ghost function MakeAll(f: Fs, names: seq<string>): (g: Fs)
    requires Sound(f) && f.root in f.kids && f.count + |names| <= MAX_FILES
    ensures Sound(g) && g.root == f.root && f.kids.Keys <= g.kids.Keys
    decreases |names|
  {
    if names == [] then f else MakeAll(Make(f, f.root, false, names[0]), names[1..])
  }

  /** ramfs_open makes exactly those, each in the root. */
  lemma {:induction false} OpenMakes(f: Fs, n: int, parts: seq<string>, create: bool)
    requires Sound(f) && n in f.kids && f.root in f.kids
    ensures Open(f, n, parts, create).fs == MakeAll(f, Made(f, n, parts, create))
    decreases |parts|
  {
    hide Sound, Lookup, Make;
    if parts != [] {
      var c, rest := Lookup(f, n, parts[0]), parts[1..];
      if c != NULL {
        OpenMakes(f, c, rest, create);
        MadeRest(f, n, parts, create);
      } else if create && f.count < MAX_FILES {
        var g := Make(f, f.root, false, parts[0]);
        MakeLeads(f, f.root, false, parts[0]);
        LeafResolving(g, f.count, rest);
        OpenMakes(g, f.count, rest, create);
        var names := Made(f, n, parts, create);
        assert names[0] == parts[0] && names[1..] == Made(g, f.count, rest, create);
      }
    }
  }

  lemma MadeRest(f: Fs, n: int, parts: seq<string>, create: bool)
    requires Sound(f) && n in f.kids && parts != [] && Lookup(f, n, parts[0]) != NULL
    ensures Made(f, n, parts, create) == Made(f, Lookup(f, n, parts[0]), parts[1..], create)
  {
    hide Sound, Lookup;
    var k := Resolving(f, n, parts);
    assert parts[k..] == parts[1..][k - 1..];
  }

  lemma {:induction false} MakeAllKeeps(f: Fs, names: seq<string>, other: seq<string>)
    requires Sound(f) && f.root in f.kids && f.count + |names| <= MAX_FILES
    requires other != [] && other[0] !in names && Resolve(f, f.root, other) != NULL
    ensures Resolve(MakeAll(f, names), f.root, other) == Resolve(f, f.root, other)
    decreases |names|
  {
    hide Sound, Make, Resolve;
    if names != [] {
      MakeAtRoot(f, false, names[0], other);
      MakeAllKeeps(Make(f, f.root, false, names[0]), names[1..], other);
    }
  }

  lemma {:induction false} MakeAllLeaf(f: Fs, names: seq<string>, c: int)
    requires Sound(f) && f.root in f.kids && f.count + |names| <= MAX_FILES
    requires c in f.kids && c != f.root && f.kids[c] == []
    ensures c in MakeAll(f, names).kids && MakeAll(f, names).kids[c] == []
    decreases |names|
  {
    if names != [] {
      MakeAllLeaf(Make(f, f.root, false, names[0]), names[1..], c);
    }
  }

  /** A name that was made leads to a new file without children. */
  lemma {:induction false} MakeAllLeads(f: Fs, names: seq<string>, x: string)
    requires Sound(f) && f.root in f.kids && f.count + |names| <= MAX_FILES && x in names
    ensures var g := MakeAll(f, names);
            var c := Lookup(g, f.root, x);
            c >= f.count && g.kids[c] == []
    decreases |names|
  {
    hide Sound, Make, Resolve, Lookup;
    var g := Make(f, f.root, false, names[0]);
    if x in names[1..] {
      MakeAllLeads(g, names[1..], x);
    } else {
      assert x == names[0];
      MakeLeads(f, f.root, false, x);
      CountNotNull(f);
      MakeAllKeeps(g, names[1..], [x]);
      ResolveOne(MakeAll(f, names), f.root, x);
      RootBelowCount(f);
      MakeAllLeaf(g, names[1..], f.count);
    }
  }

  lemma RootBelowCount(f: Fs)
    requires Sound(f)
    ensures f.root < f.count && forall n :: n in f.kids ==> n < f.count
  {}

  /** From a node without children only the empty path resolves. */
  lemma LeafResolves(f: Fs, n: int, parts: seq<string>)
    requires Sound(f) && n in f.kids && f.kids[n] == []
    ensures Resolve(f, n, parts) == if parts == [] then n else NULL
  {
    hide Sound, Resolve, Lookup;
    if parts == [] {
      ResolveEmpty(f, n);
    } else {
      ResolveStep(f, n, parts);
      ResolveNull(f, parts[1..]);
    }
  }

  /** ramfs_open disturbs a path that resolved exactly when it starts with a name that was created. */
  lemma OpenDisturbs(f: Fs, parts: seq<string>, create: bool, other: seq<string>)
    requires Sound(f) && f.root in f.kids && other != [] && Resolve(f, f.root, other) != NULL
    ensures Resolve(Open(f, f.root, parts, create).fs, f.root, other) == Resolve(f, f.root, other)
            <==> other[0] !in Made(f, f.root, parts, create)
  {
    hide Sound, Resolve, Lookup, Open, Made;
    var names := Made(f, f.root, parts, create);
    var g := MakeAll(f, names);
    OpenMakes(f, f.root, parts, create);
    if other[0] in names {
      MakeAllLeads(f, names, other[0]);
      ResolveStep(g, f.root, other);
      LeafResolves(g, Lookup(g, f.root, other[0]), other[1..]);
      RootBelowCount(f);
    } else {
      MakeAllKeeps(f, names, other);
    }
  }
}
