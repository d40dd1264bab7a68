/** Path resolution over the directory forest, and what each edit of the tree does to it. */
module DirPaths {
  import opened Sequences
  import opened DirTree
  import opened DirRename

  // ------------------------------------------------------------------ resolution

  /** ramfs_find_child: the first node of the list with this name. */
  ghost function Find(m: Mem, l: seq<int>, x: string): (r: int)
    requires Addresses(m, l)
    ensures r == NULL || (r in l && 0 <= r < |m| && m[r].name == x)
  {
    if l == [] then NULL else if m[l[0]].name == x then l[0] else Find(m, l[1..], x)
  }

  ghost function Child(m: Mem, kids: Kids, n: int, x: string): (r: int)
    requires Forest(m, kids) && n in kids
    ensures r == NULL || (r in kids[n] && r in kids && 0 <= r < |m| && m[r].name == x)
  {
    assert Laid(m, n, kids[n]);
    Find(m, kids[n], x)
  }

  ghost function Walk(m: Mem, kids: Kids, n: int, parts: seq<string>): (r: int)
    requires Forest(m, kids) && (n == NULL || n in kids)
    ensures r == NULL || r in kids
    decreases |parts|
  {
    if n == NULL || parts == [] then n else Walk(m, kids, Child(m, kids, n, parts[0]), parts[1..])
  }

  /** The walk comes through v; a walk that fails comes to NULL. */
  ghost predicate Visits(m: Mem, kids: Kids, n: int, parts: seq<string>, v: int)
    requires Forest(m, kids) && (n == NULL || n in kids)
    decreases |parts|
  {
    n == v || (n != NULL && parts != [] && Visits(m, kids, Child(m, kids, n, parts[0]), parts[1..], v))
  }

  lemma {:induction false} WalkJoin(m: Mem, kids: Kids, n: int, a: seq<string>, b: seq<string>)
    requires Forest(m, kids) && (n == NULL || n in kids)
    ensures Walk(m, kids, n, a + b) == Walk(m, kids, Walk(m, kids, n, a), b)
    decreases |a|
  {
    hide Forest, Find, Child;
    if a == [] {
      assert a + b == b;
    } else if n != NULL {
      assert (a + b)[1..] == a[1..] + b;
      WalkJoin(m, kids, Child(m, kids, n, a[0]), a[1..], b);
    }
  }

  /** A walk fails exactly when it comes to NULL. */
  lemma {:induction false} FailsAtNull(m: Mem, kids: Kids, n: int, parts: seq<string>)
    requires Forest(m, kids) && (n == NULL || n in kids) && NULL !in kids
    ensures Walk(m, kids, n, parts) == NULL <==> Visits(m, kids, n, parts, NULL)
    decreases |parts|
  {
    hide Forest, Child;
    if n != NULL && parts != [] { FailsAtNull(m, kids, Child(m, kids, n, parts[0]), parts[1..]); }
  }

  /** A walk only comes through nodes above its end. */
  lemma {:induction false} VisitsAbove(m: Mem, kids: Kids, rank: map<int, nat>, n: int, parts: seq<string>, v: int)
    requires Forest(m, kids) && Ranked(kids, rank) && n in kids && NULL !in kids && v != NULL
    requires Walk(m, kids, n, parts) != NULL && Visits(m, kids, n, parts, v)
    ensures Under(m, kids, rank, n, Walk(m, kids, n, parts))
    ensures v in kids && Under(m, kids, rank, v, Walk(m, kids, n, parts))
    decreases |parts|
  {
    hide Forest, Find, Child, Ranked;
    if parts != [] {
      var c := Child(m, kids, n, parts[0]);
      var w := Walk(m, kids, n, parts);
      if c != NULL {
        UnderSelf(m, kids, rank, n);
        UnderStep(m, kids, rank, n, n, c);
        assert Visits(m, kids, c, parts[1..], c);
        VisitsAbove(m, kids, rank, c, parts[1..], c);
        UnderTrans(m, kids, rank, n, c, w);
        if n != v { VisitsAbove(m, kids, rank, c, parts[1..], v); }
      }
    } else {
      UnderSelf(m, kids, rank, n);
    }
  }

  // ------------------------------------------------------------------ comparing two trees

  /** Looking x up in n gives the same, unless it used to lead into `avoid`. */
  ghost predicate Agree(m: Mem, kids: Kids, m': Mem, kids': Kids, avoid: set<int>, n: int, x: string)
    requires Forest(m, kids) && Forest(m', kids')
  {
    n in kids && n !in avoid ==>
      n in kids' && (Child(m, kids, n, x) in avoid || Child(m', kids', n, x) == Child(m, kids, n, x))
  }

  /** Walks that keep out of `avoid` end where they used to. */
  lemma {:induction false} WalkSame(m: Mem, kids: Kids, m': Mem, kids': Kids, avoid: set<int>, n: int,
                                    parts: seq<string>)
    requires Forest(m, kids) && Forest(m', kids') && n in kids && NULL !in kids
    requires forall k, x :: Agree(m, kids, m', kids', avoid, k, x)
    requires forall v :: v in avoid ==> !Visits(m, kids, n, parts, v)
    ensures n in kids' && Walk(m', kids', n, parts) == Walk(m, kids, n, parts)
    decreases |parts|
  {
    hide Forest, Find, Child;
    assert Visits(m, kids, n, parts, n);
    assert Agree(m, kids, m', kids', avoid, n, "");
    if parts != [] {
      var c := Child(m, kids, n, parts[0]);
      assert Agree(m, kids, m', kids', avoid, n, parts[0]);
      assert Visits(m, kids, c, parts[1..], c);
      if c != NULL { WalkSame(m, kids, m', kids', avoid, c, parts[1..]); }
    }
  }

  /** k has the same children under the same names, all of them in s. */
  ghost predicate Untouched(m: Mem, kids: Kids, m': Mem, kids': Kids, s: set<int>, k: int) {
    k in kids && k in kids' && kids'[k] == kids[k]
    && forall c :: c in kids[k] ==> c in s && 0 <= c < |m| && 0 <= c < |m'| && m'[c].name == m[c].name
  }

  /** Inside a closed part of the tree that did not change, every walk is the same. */
  lemma {:induction false} WalkInside(m: Mem, kids: Kids, m': Mem, kids': Kids, s: set<int>, n: int, parts: seq<string>)
    requires Forest(m, kids) && Forest(m', kids') && n in s && NULL !in kids
    requires forall k :: k in s ==> Untouched(m, kids, m', kids', s, k)
    ensures n in kids && n in kids' && Walk(m', kids', n, parts) == Walk(m, kids, n, parts)
    decreases |parts|
  {
    hide Forest, Find, Child;
    assert Untouched(m, kids, m', kids', s, n);
    if parts != [] {
      var c := Child(m, kids, n, parts[0]);
      SameChild(m, kids, m', kids', n, parts[0]);
      if c != NULL { WalkInside(m, kids, m', kids', s, c, parts[1..]); }
    }
  }

  lemma {:induction false} SameFind(m: Mem, m': Mem, l: seq<int>, x: string)
    requires Addresses(m, l) && Addresses(m', l)
    requires forall i :: 0 <= i < |l| ==> m'[l[i]].name == m[l[i]].name
    ensures Find(m', l, x) == Find(m, l, x)
  {
    if l != [] { SameFind(m, m', l[1..], x); }
  }

  lemma SameChild(m: Mem, kids: Kids, m': Mem, kids': Kids, n: int, x: string)
    requires Forest(m, kids) && Forest(m', kids') && n in kids && n in kids' && kids'[n] == kids[n]
    requires forall c :: c in kids[n] ==> 0 <= c < |m| && 0 <= c < |m'| && m'[c].name == m[c].name
    ensures Child(m', kids', n, x) == Child(m, kids, n, x)
  {
    assert Laid(m, n, kids[n]) && Laid(m', n, kids'[n]);
    SameFind(m, m', kids[n], x);
  }

  /** Taking e out of a list only matters to lookups that found e. */
  lemma {:induction false} FindWithout(m: Mem, l: seq<int>, e: int, x: string)
    requires Addresses(m, l) && Addresses(m, Without(l, e))
    ensures Find(m, l, x) != e ==> Find(m, Without(l, e), x) == Find(m, l, x)
  {
    if l != [] && l[0] != e {
      var w := Without(l, e);
      assert w[0] == l[0] && w[1..] == Without(l[1..], e);
      FindWithout(m, l[1..], e, x);
    }
  }

  // ------------------------------------------------------------------ removal

  /** Names are never touched by unlinking and freeing. */
  lemma FreedAgrees(m: Mem, root: int, kids: Kids, rank: map<int, nat>, e: int, n: int, x: string)
    requires Rooted(m, root, kids, rank) && Listed(m, kids, e)
    requires Rooted(Freed(m, e), root, Pruned(kids, m[e].parent, e) - {e}, rank)
    ensures Agree(m, kids, Freed(m, e), Pruned(kids, m[e].parent, e) - {e}, {e}, n, x)
  {
    hide Freed, Find, Siblings, Without, NoDup;
    var m', kids' := Freed(m, e), Pruned(kids, m[e].parent, e) - {e};
    if n in kids && n != e {
      LaidAddresses(m, n, kids[n]);
      LaidAddresses(m', n, kids'[n]);
      if n == m[e].parent { FindWithout(m, kids[n], e, x); }
      FreedNames(m, e);
      SameFind(m, m', kids'[n], x);
    }
  }

  lemma FreedNames(m: Mem, e: int)
    requires 0 <= e < |m|
    ensures |Freed(m, e)| == |m| && forall i :: 0 <= i < |m| ==> Freed(m, e)[i].name == m[i].name
  {}

  lemma LaidAddresses(m: Mem, n: int, l: seq<int>)
    requires Laid(m, n, l)
    ensures Addresses(m, l)
  {}

  /** ramfs_rmdir and ramfs_unlink: every path that did not come through the removed node resolves as before. */
  lemma RemovedResolves(m: Mem, root: int, kids: Kids, rank: map<int, nat>, e: int, parts: seq<string>)
    requires Rooted(m, root, kids, rank) && Listed(m, kids, e) && !Visits(m, kids, root, parts, e)
    ensures Rooted(Freed(m, e), root, Pruned(kids, m[e].parent, e) - {e}, rank)
    ensures Walk(Freed(m, e), Pruned(kids, m[e].parent, e) - {e}, root, parts) == Walk(m, kids, root, parts)
  {
    hide Forest, Freed, Pruned, Visits, Walk, Agree, Child, Find;
    FreedRooted(m, root, kids, rank, e);
    RootOnTop(m, root, kids, rank);
    var m', kids' := Freed(m, e), Pruned(kids, m[e].parent, e) - {e};
    forall n, x ensures Agree(m, kids, m', kids', {e}, n, x) { FreedAgrees(m, root, kids, rank, e, n, x); }
    WalkSame(m, kids, m', kids', {e}, root, parts);
  }

  /** And the removed node is found by no path at all. */
  lemma RemovedGone(m: Mem, root: int, kids: Kids, rank: map<int, nat>, e: int, parts: seq<string>)
    requires Rooted(m, root, kids, rank) && Listed(m, kids, e)
    ensures Rooted(Freed(m, e), root, Pruned(kids, m[e].parent, e) - {e}, rank)
    ensures Walk(Freed(m, e), Pruned(kids, m[e].parent, e) - {e}, root, parts) != e
  {
    hide Forest, Freed, Pruned, Walk, Child, Find;
    FreedRooted(m, root, kids, rank, e);
  }

  // ------------------------------------------------------------------ rename

  lemma DetachedList(m: Mem, root: int, kids: Kids, rank: map<int, nat>, np: int, e: int, mv: int, n: int)
    requires Movable(m, root, kids, rank, np, e, mv) && n in DetachedKids(m, kids, np, e, mv)
    ensures n in kids && n != e
    ensures DetachedKids(m, kids, np, e, mv)[n]
            == var l := if n == np && e != NULL then Without(kids[n], e) else kids[n];
               if n == m[mv].parent then Without(l, mv) else l
  {
    Places(m, root, kids, rank, np, e, mv);
  }

  lemma FindFirst(m: Mem, c: int, l: seq<int>, x: string)
    requires Addresses(m, [c] + l)
    ensures 0 <= c < |m| && Addresses(m, l) && Find(m, [c] + l, x) == if m[c].name == x then c else Find(m, l, x)
  {
    assert ([c] + l)[0] == c;
    assert forall i :: 0 <= i < |l| ==> l[i] == ([c] + l)[i + 1];
    assert ([c] + l)[1..] == l;
  }

  /** Lookups after both nodes were taken out. */
  lemma DetachedFind(m: Mem, root: int, kids: Kids, rank: map<int, nat>, np: int, e: int, mv: int, n: int, x: string)
    requires Movable(m, root, kids, rank, np, e, mv) && n in DetachedKids(m, kids, np, e, mv)
    ensures n in kids && Addresses(m, kids[n]) && Addresses(m, DetachedKids(m, kids, np, e, mv)[n])
    ensures var c := Find(m, kids[n], x);
            c != mv && (e == NULL || c != e) ==> Find(m, DetachedKids(m, kids, np, e, mv)[n], x) == c
  {
    hide Movable, DetachedKids, Find, Laid, Siblings, NoDup, Without;
    DetachedList(m, root, kids, rank, np, e, mv, n);
    MovableLaid(m, root, kids, rank, np, e, mv, n);
    LaidAddresses(m, n, kids[n]);
    var l := if n == np && e != NULL then Without(kids[n], e) else kids[n];
    WithoutIn(kids[n], e);
    WithoutIn(l, mv);
    if n == np && e != NULL { FindWithout(m, kids[n], e, x); }
    if n == m[mv].parent { FindWithout(m, l, mv, x); }
  }

  lemma MovableLaid(m: Mem, root: int, kids: Kids, rank: map<int, nat>, np: int, e: int, mv: int, n: int)
    requires Movable(m, root, kids, rank, np, e, mv) && n in kids
    ensures Laid(m, n, kids[n]) && 0 <= mv < |m|
  {}

  lemma {:induction false} WithoutIn(l: seq<int>, e: int)
    ensures forall i :: 0 <= i < |Without(l, e)| ==> Without(l, e)[i] in l
  {
    if l != [] && l[0] != e { WithoutIn(l[1..], e); }
  }

  /** The names after a rename. */
  lemma RenamedNames(m: Mem, np: int, e: int, mv: int, name: string, i: int)
    requires (e == NULL || 0 <= e < |m|) && 0 <= mv < |m| && 0 <= np < |m| && 0 <= i < |m|
    ensures Renamed(m, np, e, mv, name)[i].name == if i == mv then name else m[i].name
  {}

  /** A rename that does not strand the moved node. */
  ghost predicate Moves(m: Mem, root: int, kids: Kids, rank: map<int, nat>, np: int, e: int, mv: int, name: string) {
    && Movable(m, root, kids, rank, np, e, mv) && e == Child(m, kids, np, name)
    && (e == NULL || 0 <= e < |m|) && 0 <= mv < |m| && 0 <= np < |m|
    && !Under(m, kids, rank, mv, np) && np in DetachedKids(m, kids, np, e, mv)
    && Forest(Renamed(m, np, e, mv, name), Grown(DetachedKids(m, kids, np, e, mv), np, mv))
  }

  lemma RenamedAgrees(m: Mem, root: int, kids: Kids, rank: map<int, nat>, np: int, e: int, mv: int, name: string,
                      n: int, x: string)
    requires Moves(m, root, kids, rank, np, e, mv, name)
    ensures Agree(m, kids, Renamed(m, np, e, mv, name), Grown(DetachedKids(m, kids, np, e, mv), np, mv), {e, mv}, n, x)
  {
    hide Find, Siblings, Without, NoDup, DetachedKids, Renamed, Movable, Under;
    MovableIn(m, root, kids, rank, np, e, mv);
    var m', kids2 := Renamed(m, np, e, mv, name), DetachedKids(m, kids, np, e, mv);
    var kids' := Grown(kids2, np, mv);
    if n in kids && n != e && n != mv {
      DetachedRooted(m, root, kids, rank, np, e, mv);
      assert n in kids2;
      DetachedFind(m, root, kids, rank, np, e, mv, n, x);
      LaidAddresses(m', n, kids'[n]);
      RenamedNames(m, np, e, mv, name, mv);
      if n == np { FindFirst(m', mv, kids2[np], x); }
      forall i | 0 <= i < |kids2[n]| ensures m'[kids2[n][i]].name == m[kids2[n][i]].name {
        assert kids2[n][i] in kids2[n];
        RenamedNames(m, np, e, mv, name, kids2[n][i]);
      }
      SameFind(m, m', kids2[n], x);
    }
  }

  lemma MovableIn(m: Mem, root: int, kids: Kids, rank: map<int, nat>, np: int, e: int, mv: int)
    requires Movable(m, root, kids, rank, np, e, mv)
    ensures Rooted(m, root, kids, rank) && np in kids && mv in kids && np != mv && NULL !in kids
  {
    RootOnTop(m, root, kids, rank);
  }

  /** ramfs_rename: every path that came neither through the moved nor through the replaced node resolves as before. */
  lemma RenamedFrame(m: Mem, root: int, kids: Kids, rank: map<int, nat>, np: int, e: int, mv: int, name: string,
                     parts: seq<string>)
    requires Moves(m, root, kids, rank, np, e, mv, name)
    requires root in kids && Forest(m, kids)
    requires !Visits(m, kids, root, parts, e) && !Visits(m, kids, root, parts, mv)
    ensures Walk(Renamed(m, np, e, mv, name), Grown(DetachedKids(m, kids, np, e, mv), np, mv), root, parts)
            == Walk(m, kids, root, parts)
  {
    hide Forest, Renamed, DetachedKids, Visits, Walk, Agree, Child, Find, Movable, Under, Ranked;
    MovableIn(m, root, kids, rank, np, e, mv);
    var m', kids' := Renamed(m, np, e, mv, name), Grown(DetachedKids(m, kids, np, e, mv), np, mv);
    forall n, x ensures Agree(m, kids, m', kids', {e, mv}, n, x) {
      RenamedAgrees(m, root, kids, rank, np, e, mv, name, n, x);
    }
    WalkSame(m, kids, m', kids', {e, mv}, root, parts);
  }

  /** Nothing under the moved node is touched. */
  lemma RenamedInside(m: Mem, root: int, kids: Kids, rank: map<int, nat>, np: int, e: int, mv: int, name: string,
                      s: set<int>, n: int)
    requires Moves(m, root, kids, rank, np, e, mv, name) && n in s
    requires Forest(m, kids) && Ranked(kids, rank)
    requires s == set x | x in kids && Under(m, kids, rank, mv, x)
    ensures Untouched(m, kids, Renamed(m, np, e, mv, name), Grown(DetachedKids(m, kids, np, e, mv), np, mv), s, n)
  {
    hide Forest, Renamed, DetachedKids, Under, Ranked;
    Places(m, root, kids, rank, np, e, mv);
    DetachedRooted(m, root, kids, rank, np, e, mv);
    var p, m' := m[mv].parent, Renamed(m, np, e, mv, name);
    assert !Under(m, kids, rank, mv, p) by { NotAboveItself(m, kids, rank, mv); }
    if e != NULL { UnderStep(m, kids, rank, mv, np, e); }
    DetachedList(m, root, kids, rank, np, e, mv, n);
    forall c | c in kids[n] ensures c in s && 0 <= c < |m| && m'[c].name == m[c].name {
      UnderStep(m, kids, rank, mv, n, c);
      OneParent(m, kids, n, c);
      RenamedNames(m, np, e, mv, name, c);
    }
  }

  lemma NotAboveItself(m: Mem, kids: Kids, rank: map<int, nat>, x: int)
    requires Forest(m, kids) && Ranked(kids, rank) && x in kids && Listed(m, kids, x)
    ensures !Under(m, kids, rank, x, m[x].parent)
  {
    if Under(m, kids, rank, x, m[x].parent) { UnderRank(m, kids, rank, x, m[x].parent); }
  }

  /**
   * ramfs_rename: when the destination is not under the moved node, the new path followed by any q resolves to what
   * the old path followed by q resolved to.
   */
  lemma RenamedResolves(m: Mem, root: int, kids: Kids, rank: map<int, nat>, np: int, e: int, mv: int, name: string,
                        oldparts: seq<string>, prefix: seq<string>, q: seq<string>)
    requires Moves(m, root, kids, rank, np, e, mv, name)
    requires root in kids && Forest(m, kids)
    requires Walk(m, kids, root, oldparts) == mv && Walk(m, kids, root, prefix) == np
    ensures Walk(Renamed(m, np, e, mv, name), Grown(DetachedKids(m, kids, np, e, mv), np, mv), root,
                 prefix + [name] + q)
            == Walk(m, kids, root, oldparts + q)
  {
    hide Forest, Renamed, DetachedKids, Visits, Agree, Child, Find, Under, Ranked, Walk;
    MovableIn(m, root, kids, rank, np, e, mv);
    var m', kids' := Renamed(m, np, e, mv, name), Grown(DetachedKids(m, kids, np, e, mv), np, mv);
    DetachedRooted(m, root, kids, rank, np, e, mv);
    PrefixKept(m, root, kids, rank, np, e, mv, prefix);
    RenamedFrame(m, root, kids, rank, np, e, mv, name, prefix);
    NewName(m, root, kids, rank, np, e, mv, name);
    var s := set x | x in kids && Under(m, kids, rank, mv, x);
    UnderSelf(m, kids, rank, mv);
    forall n | n in s ensures Untouched(m, kids, m', kids', s, n) {
      RenamedInside(m, root, kids, rank, np, e, mv, name, s, n);
    }
    WalkInside(m, kids, m', kids', s, mv, q);
    WalkJoin(m, kids, root, oldparts, q);
    WalkJoin(m', kids', root, prefix + [name], q);
    WalkJoin(m', kids', root, prefix, [name]);
  }

  /** The way to the new parent comes through neither node. */
  lemma PrefixKept(m: Mem, root: int, kids: Kids, rank: map<int, nat>, np: int, e: int, mv: int, prefix: seq<string>)
    requires Movable(m, root, kids, rank, np, e, mv) && !Under(m, kids, rank, mv, np)
    requires Walk(m, kids, root, prefix) == np
    ensures !Visits(m, kids, root, prefix, e) && !Visits(m, kids, root, prefix, mv)
  {
    hide Forest, Visits, Under, Ranked, Walk;
    MovableIn(m, root, kids, rank, np, e, mv);
    NotUnderReplaced(m, root, kids, rank, np, e, mv);
    FailsAtNull(m, kids, root, prefix);
    if Visits(m, kids, root, prefix, mv) { VisitsAbove(m, kids, rank, root, prefix, mv); }
    if e != NULL && Visits(m, kids, root, prefix, e) { VisitsAbove(m, kids, rank, root, prefix, e); }
  }

  /** The new name leads to the moved node. */
  lemma NewName(m: Mem, root: int, kids: Kids, rank: map<int, nat>, np: int, e: int, mv: int, name: string)
    requires Moves(m, root, kids, rank, np, e, mv, name) && NULL !in kids
    ensures Walk(Renamed(m, np, e, mv, name), Grown(DetachedKids(m, kids, np, e, mv), np, mv), np, [name]) == mv
  {
    hide Renamed, DetachedKids, Under;
    var m', kids' := Renamed(m, np, e, mv, name), Grown(DetachedKids(m, kids, np, e, mv), np, mv);
    assert Laid(m', np, kids'[np]);
    RenamedNames(m, np, e, mv, name, mv);
    FindFirst(m', mv, DetachedKids(m, kids, np, e, mv)[np], name);
    assert [name][1..] == [];
  }

  /** A destination that is not under the moved node keeps that node in the forest. */
  lemma MovesApart(m: Mem, root: int, kids: Kids, rank: map<int, nat>, np: int, e: int, mv: int, name: string)
    requires Rooted(m, root, kids, rank) && Movable(m, root, kids, rank, np, e, mv) && e == Child(m, kids, np, name)
    requires !Under(m, kids, rank, mv, np)
    ensures Moves(m, root, kids, rank, np, e, mv, name)
  {
    hide Forest, DetachedKids, Renamed, Under, Child;
    RenamedRooted(m, root, kids, rank, np, e, mv, name);
  }

  /** The new path leads to the moved node if and only if its parent was not under that node. */
  lemma RenamedFound(m: Mem, root: int, kids: Kids, rank: map<int, nat>, np: int, e: int, mv: int, name: string,
                     oldparts: seq<string>, prefix: seq<string>)
    requires Rooted(m, root, kids, rank) && Movable(m, root, kids, rank, np, e, mv) && e == Child(m, kids, np, name)
    requires Walk(m, kids, root, oldparts) == mv && Walk(m, kids, root, prefix) == np
    requires (e == NULL || 0 <= e < |m|) && 0 <= mv < |m| && 0 <= np < |m|
    requires Rooted(Detached(m, e, mv), root, DetachedKids(m, kids, np, e, mv), rank)
    requires np in DetachedKids(m, kids, np, e, mv)
    ensures var kids' := RenamedKids(m, root, kids, rank, np, e, mv);
            && Forest(Renamed(m, np, e, mv, name), kids') && root in kids'
            && (Walk(Renamed(m, np, e, mv, name), kids', root, prefix + [name]) == mv
                <==> !Under(m, kids, rank, mv, np))
  {
    hide Forest, Renamed, DetachedKids, Child, Under, Walk;
    RenamedRooted(m, root, kids, rank, np, e, mv, name);
    if Under(m, kids, rank, mv, np) {
      DetachedRooted(m, root, kids, rank, np, e, mv);
      UnderSelf(Detached(m, e, mv), DetachedKids(m, kids, np, e, mv), rank, mv);
      RootOnTop(m, root, kids, rank);
      var kids' := RenamedKids(m, root, kids, rank, np, e, mv);
      assert mv !in kids';
    } else {
      MovesApart(m, root, kids, rank, np, e, mv, name);
      RenamedResolves(m, root, kids, rank, np, e, mv, name, oldparts, prefix, []);
      assert prefix + [name] + [] == prefix + [name] && oldparts + [] == oldparts;
    }
  }

  /** A walk from outside comes to what is under mv only through mv. */
  lemma {:induction false} VisitsThrough(m: Mem, kids: Kids, rank: map<int, nat>, mv: int, n: int,
                                         parts: seq<string>, v: int)
    requires Forest(m, kids) && Ranked(kids, rank) && n in kids && v in kids && NULL !in kids
    requires Visits(m, kids, n, parts, v) && Under(m, kids, rank, mv, v) && !Under(m, kids, rank, mv, n)
    ensures Visits(m, kids, n, parts, mv)
    decreases |parts|
  {
    hide Forest, Ranked, Child, Under;
    if n != v {
      var c := Child(m, kids, n, parts[0]);
      if c != NULL {
        UnderStep(m, kids, rank, mv, n, c);
        if c != mv { VisitsThrough(m, kids, rank, mv, c, parts[1..], v); }
      }
    }
  }

  /** Outside the moved subtree lookups are the same, unless they led into it. */
  lemma StrandedAgrees(m: Mem, root: int, kids: Kids, rank: map<int, nat>, np: int, e: int, mv: int, name: string,
                       s: set<int>, kids': Kids, n: int, x: string)
    requires Movable(m, root, kids, rank, np, e, mv) && Forest(m, kids) && Ranked(kids, rank)
    requires Under(m, kids, rank, mv, np) && s == set y | y in kids && Under(m, kids, rank, mv, y)
    requires (e == NULL || 0 <= e < |m|) && 0 <= mv < |m| && 0 <= np < |m|
    requires Rooted(Detached(m, e, mv), root, DetachedKids(m, kids, np, e, mv), rank)
    requires kids' == Outside(Detached(m, e, mv), DetachedKids(m, kids, np, e, mv), rank, mv)
    requires Forest(Renamed(m, np, e, mv, name), kids')
    ensures Agree(m, kids, Renamed(m, np, e, mv, name), kids', s, n, x)
  {
    hide Find, Siblings, Without, NoDup, DetachedKids, Renamed, Under, Forest, Ranked, Laid;
    var m', kids2 := Renamed(m, np, e, mv, name), DetachedKids(m, kids, np, e, mv);
    if n in kids && n !in s {
      MovableIn(m, root, kids, rank, np, e, mv);
      NotUnderStranded(m, root, kids, rank, np, e, mv, n);
      DetachedRooted(m, root, kids, rank, np, e, mv);
      UnderDetached(m, root, kids, rank, np, e, mv, n);
      assert n in kids' && kids'[n] == kids2[n];
      DetachedFind(m, root, kids, rank, np, e, mv, n, x);
      ForestAddresses(m', kids', n);
      UnderSelf(m, kids, rank, mv);
      forall i | 0 <= i < |kids2[n]| ensures m'[kids2[n][i]].name == m[kids2[n][i]].name {
        assert kids2[n][i] in kids2[n];
        RenamedNames(m, np, e, mv, name, kids2[n][i]);
      }
      SameFind(m, m', kids2[n], x);
    }
  }

  lemma ForestAddresses(m: Mem, kids: Kids, n: int)
    requires Forest(m, kids) && n in kids
    ensures Addresses(m, kids[n])
  {
    assert Laid(m, n, kids[n]);
  }

  /** The node replaced is itself under the moved one, so nothing outside is under it. */
  lemma NotUnderStranded(m: Mem, root: int, kids: Kids, rank: map<int, nat>, np: int, e: int, mv: int, n: int)
    requires Movable(m, root, kids, rank, np, e, mv) && n in kids
    requires Under(m, kids, rank, mv, np) && !Under(m, kids, rank, mv, n)
    ensures e != NULL ==> e in kids && Under(m, kids, rank, mv, e) && !Under(m, kids, rank, e, n) && n != e
  {
    Places(m, root, kids, rank, np, e, mv);
    if e != NULL {
      UnderStep(m, kids, rank, mv, np, e);
      if Under(m, kids, rank, e, n) { UnderTrans(m, kids, rank, mv, e, n); }
    }
  }

  /** A rename below the moved node itself: every path that did not come through that node resolves as before. */
  lemma StrandedFrame(m: Mem, root: int, kids: Kids, rank: map<int, nat>, np: int, e: int, mv: int, name: string,
                      kids': Kids, parts: seq<string>)
    requires Movable(m, root, kids, rank, np, e, mv) && Rooted(m, root, kids, rank) && Under(m, kids, rank, mv, np)
    requires (e == NULL || 0 <= e < |m|) && 0 <= mv < |m| && 0 <= np < |m|
    requires Rooted(Detached(m, e, mv), root, DetachedKids(m, kids, np, e, mv), rank)
    requires kids' == Outside(Detached(m, e, mv), DetachedKids(m, kids, np, e, mv), rank, mv)
    requires Forest(Renamed(m, np, e, mv, name), kids') && root in kids'
    requires !Visits(m, kids, root, parts, mv)
    ensures Walk(Renamed(m, np, e, mv, name), kids', root, parts) == Walk(m, kids, root, parts)
  {
    hide Forest, Ranked, Renamed, DetachedKids, Detached, Visits, Walk, Agree, Under, Outside;
    MovableIn(m, root, kids, rank, np, e, mv);
    Places(m, root, kids, rank, np, e, mv);
    RootOnTop(m, root, kids, rank);
    var s := set y | y in kids && Under(m, kids, rank, mv, y);
    var m' := Renamed(m, np, e, mv, name);
    forall n, x ensures Agree(m, kids, m', kids', s, n, x) {
      StrandedAgrees(m, root, kids, rank, np, e, mv, name, s, kids', n, x);
    }
    forall v | v in s ensures !Visits(m, kids, root, parts, v) {
      if Visits(m, kids, root, parts, v) { VisitsThrough(m, kids, rank, mv, root, parts, v); }
    }
    WalkSame(m, kids, m', kids', s, root, parts);
  }

  // ------------------------------------------------------------------ creation

  lemma CreatedAgrees(m: Mem, root: int, kids: Kids, rank: map<int, nat>, c: int, p: int, dir: bool, name: string,
                      n: int, x: string)
    requires Rooted(m, root, kids, rank) && 0 <= c < |m| && c !in kids && p in kids && 0 <= p < |m|
    requires Forest(Created(m, c, p, dir, name), Grown(kids[c := []], p, c))
    ensures Agree(m, kids, Created(m, c, p, dir, name), Grown(kids[c := []], p, c), {Child(m, kids, p, name)}, n, x)
  {
    hide Find, Siblings, NoDup, Created;
    var m', kids' := Created(m, c, p, dir, name), Grown(kids[c := []], p, c);
    if n in kids {
      assert n != c;
      LaidAddresses(m, n, kids[n]);
      LaidAddresses(m', n, kids'[n]);
      forall i | 0 <= i < |kids[n]| ensures kids[n][i] != c { assert kids[n][i] in kids[n]; }
      CreatedNames(m, c, p, dir, name);
      if n == p { FindFirst(m', c, kids[p], x); }
      SameFind(m, m', kids[n], x);
    }
  }

  lemma CreatedNames(m: Mem, c: int, p: int, dir: bool, name: string)
    requires 0 <= c < |m| && 0 <= p < |m|
    ensures var m' := Created(m, c, p, dir, name);
            && m'[c].name == name && m'[c].dir == dir
            && forall i :: 0 <= i < |m| && i != c ==> m'[i].name == m[i].name && m'[i].dir == m[i].dir
  {}

  /**
   * A new first child shadows what its name used to lead to, and nothing else: every path that did not come through
   * that node (or, where the name led nowhere, every path that resolved) resolves as before.
   */
  lemma CreatedResolves(m: Mem, root: int, kids: Kids, rank: map<int, nat>, c: int, p: int, dir: bool, name: string,
                        n: int, parts: seq<string>)
    requires Rooted(m, root, kids, rank) && 0 <= c < |m| && c !in kids && p in kids && n in kids
    requires !Visits(m, kids, n, parts, Child(m, kids, p, name))
    ensures 0 <= p < |m| && Forest(Created(m, c, p, dir, name), Grown(kids[c := []], p, c))
    ensures Walk(Created(m, c, p, dir, name), Grown(kids[c := []], p, c), n, parts) == Walk(m, kids, n, parts)
  {
    hide Forest, Created, Visits, Walk, Agree, Child, Find;
    CreatedRooted(m, root, kids, rank, c, p, dir, name);
    RootOnTop(m, root, kids, rank);
    var m', kids', d := Created(m, c, p, dir, name), Grown(kids[c := []], p, c), Child(m, kids, p, name);
    forall k, x ensures Agree(m, kids, m', kids', {d}, k, x) {
      CreatedAgrees(m, root, kids, rank, c, p, dir, name, k, x);
    }
    WalkSame(m, kids, m', kids', {d}, n, parts);
  }
}
