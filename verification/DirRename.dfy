/**
 ramfs_rename on the node array: free what stands at the destination, join the neighbours of the moved node, put it
 first under its new parent. The middle state is still a forest, with the moved node on top.
 */
module DirRename {
  import opened DirTree

  // ------------------------------------------------------------------ taking both nodes out

  function Vacated(m: Mem, e: int): (r: Mem)
    requires e == NULL || 0 <= e < |m|
    ensures |r| == |m|
  {
    if e == NULL then m else Freed(m, e)
  }

  function Detached(m: Mem, e: int, mv: int): (r: Mem)
    requires (e == NULL || 0 <= e < |m|) && 0 <= mv < |m|
    ensures |r| == |m|
  {
    Unlinked(Vacated(m, e), mv)
  }

  function VacatedKids(kids: Kids, np: int, e: int): (r: Kids)
    requires np in kids
  {
    if e == NULL then kids else Pruned(kids, np, e) - {e}
  }

  /** The moved node leaves its parent's list, unless that parent was itself the node replaced. */
  function DetachedKids(m: Mem, kids: Kids, np: int, e: int, mv: int): (r: Kids)
    requires np in kids && 0 <= mv < |m|
  {
    var kids1 := VacatedKids(kids, np, e);
    if m[mv].parent in kids1 then Pruned(kids1, m[mv].parent, mv) else kids1
  }

  /** What ramfs_rename has established before its first store. */
  ghost predicate Movable(m: Mem, root: int, kids: Kids, rank: map<int, nat>, np: int, e: int, mv: int) {
    && Rooted(m, root, kids, rank)
    && Listed(m, kids, mv) && mv in kids && np in kids && np != mv
    && (e == NULL || (e in kids[np] && e != mv))
  }

  lemma Places(m: Mem, root: int, kids: Kids, rank: map<int, nat>, np: int, e: int, mv: int)
    requires Movable(m, root, kids, rank, np, e, mv)
    ensures 0 <= np < |m| && 0 <= mv < |m| && mv != root && NULL !in kids
    ensures e != NULL ==> Listed(m, kids, e) && m[e].parent == np && np != e && e != root
    ensures m[mv].parent != NULL && m[mv].parent in kids && mv in kids[m[mv].parent]
  {
    InRange(m, kids, np);
    RootOnTop(m, root, kids, rank);
    if e != NULL { OneParent(m, kids, np, e); NotOwnChild(kids, rank, np); }
  }

  lemma VacatedRooted(m: Mem, root: int, kids: Kids, rank: map<int, nat>, np: int, e: int, mv: int)
    requires Movable(m, root, kids, rank, np, e, mv)
    ensures (e == NULL || 0 <= e < |m|) && Rooted(Vacated(m, e), root, VacatedKids(kids, np, e), rank)
    ensures var kids1 := VacatedKids(kids, np, e);
            && kids1.Keys == kids.Keys - {e}
            && forall n :: n in kids1 ==> forall c :: c in kids1[n] <==> c in kids[n] && c != e
  {
    hide Rooted, Pruned;
    Places(m, root, kids, rank, np, e, mv);
    if e == NULL {
      forall n | n in kids ensures e !in kids[n] { RootedLaid(m, root, kids, rank, n); }
    } else {
      FreedRooted(m, root, kids, rank, e);
      RootedForest(m, root, kids, rank);
      PrunedMembers(m, kids, e);
    }
  }

  lemma RootedForest(m: Mem, root: int, kids: Kids, rank: map<int, nat>)
    requires Rooted(m, root, kids, rank)
    ensures Forest(m, kids) && Ranked(kids, rank) && root in kids && 0 <= root < |m|
  {}

  lemma RootedLaid(m: Mem, root: int, kids: Kids, rank: map<int, nat>, n: int)
    requires Rooted(m, root, kids, rank) && n in kids
    ensures Laid(m, n, kids[n])
  {}

  /** Freeing e stores nothing into a node outside its list, its own children included. */
  lemma VacatedChild(m: Mem, root: int, kids: Kids, rank: map<int, nat>, np: int, e: int, mv: int)
    requires Movable(m, root, kids, rank, np, e, mv) && (e == NULL || 0 <= e < |m|)
    ensures Vacated(m, e)[mv].parent == m[mv].parent
    ensures m[mv].parent == e ==> Vacated(m, e)[mv].prev == m[mv].prev && Vacated(m, e)[mv].next == m[mv].next
  {
    Places(m, root, kids, rank, np, e, mv);
    if m[mv].parent == e { OtherLists(m, kids, e, e, mv); }
  }

  /** The neighbours of a child of e stand in no other list. */
  lemma OrphanNeighbours(m: Mem, root: int, kids: Kids, rank: map<int, nat>, np: int, e: int, mv: int, n: int)
    requires Movable(m, root, kids, rank, np, e, mv) && m[mv].parent == e && n in kids && n != e
    ensures m[mv].prev !in kids[n] && m[mv].next !in kids[n] && mv !in kids[n]
    ensures m[mv].prev != root && m[mv].next != root
  {
    Places(m, root, kids, rank, np, e, mv);
    assert Laid(m, e, kids[e]) && Laid(m, n, kids[n]);
    var i :| 0 <= i < |kids[e]| && kids[e][i] == mv;
    Neighbours(m, e, kids[e], i);
    RootOnTop(m, root, kids, rank);
  }

  /** With both nodes taken out, the rest is laid out as before and the moved node is on top. */
  lemma DetachedRooted(m: Mem, root: int, kids: Kids, rank: map<int, nat>, np: int, e: int, mv: int)
    requires Movable(m, root, kids, rank, np, e, mv)
    ensures (e == NULL || 0 <= e < |m|) && 0 <= mv < |m|
    ensures Rooted(Detached(m, e, mv), root, DetachedKids(m, kids, np, e, mv), rank)
    ensures var kids2 := DetachedKids(m, kids, np, e, mv);
            && kids2.Keys == kids.Keys - {e} && Top(kids2, mv)
            && forall n :: n in kids2 ==> forall c :: c in kids2[n] <==> c in kids[n] && c != e && c != mv
  {
    hide Rooted, Forest, Laid, Freed, Unlinked, Pruned, VacatedKids, Vacated;
    Places(m, root, kids, rank, np, e, mv);
    VacatedRooted(m, root, kids, rank, np, e, mv);
    VacatedChild(m, root, kids, rank, np, e, mv);
    var m1, kids1 := Vacated(m, e), VacatedKids(kids, np, e);
    RootedForest(m1, root, kids1, rank);
    if m[mv].parent == e {
      forall n | n in kids1 ensures m[mv].prev !in kids1[n] && m[mv].next !in kids1[n] && mv !in kids1[n] {
        OrphanNeighbours(m, root, kids, rank, np, e, mv, n);
      }
      OrphanNeighbours(m, root, kids, rank, np, e, mv, root);
      UnlinkedTop(m1, kids1, mv);
      UnlinkedApart(m1, root, kids1, rank, mv);
    } else {
      assert Listed(m1, kids1, mv);
      NotOwnChild(kids1, rank, m1[mv].parent);
      UnlinkedForest(m1, kids1, mv);
      PrunedMembers(m1, kids1, mv);
      PrunedRanked(m1, kids1, rank, mv);
      UnlinkedRoot(m1, root, kids1, rank, mv);
    }
  }

  lemma UnlinkedApart(m: Mem, root: int, kids: Kids, rank: map<int, nat>, x: int)
    requires Rooted(m, root, kids, rank) && 0 <= x < |m| && Forest(Unlinked(m, x), kids)
    requires m[x].prev != root && m[x].next != root && m[x].parent !in kids
    ensures Rooted(Unlinked(m, x), root, kids, rank)
  {}

  lemma UnlinkedRoot(m: Mem, root: int, kids: Kids, rank: map<int, nat>, x: int)
    requires Rooted(m, root, kids, rank) && Listed(m, kids, x)
    requires Forest(Unlinked(m, x), Pruned(kids, m[x].parent, x)) && Ranked(Pruned(kids, m[x].parent, x), rank)
    ensures Rooted(Unlinked(m, x), root, Pruned(kids, m[x].parent, x), rank)
  {
    hide Forest, Ranked;
    RootedForest(m, root, kids, rank);
    RootOnTop(m, root, kids, rank);
    RootKept(m, root, kids, x);
  }

  // ------------------------------------------------------------------ putting the moved node back

  /** Moving a node below a node that is not under it keeps the forest: everything under it gets a larger rank. */
  ghost function Raised(m: Mem, kids: Kids, rank: map<int, nat>, mv: int, np: int): (r: map<int, nat>)
    requires Forest(m, kids) && Ranked(kids, rank) && np in kids
  {
    map x | x in kids :: if Under(m, kids, rank, mv, x) then rank[x] + rank[np] + 1 else rank[x]
  }

  lemma AttachedRanked(m: Mem, kids: Kids, rank: map<int, nat>, mv: int, np: int)
    requires Forest(m, kids) && Ranked(kids, rank) && np in kids && mv in kids && Top(kids, mv)
    requires !Under(m, kids, rank, mv, np)
    ensures Ranked(Grown(kids, np, mv), Raised(m, kids, rank, mv, np))
  {
    hide Forest;
    var rank', kids' := Raised(m, kids, rank, mv, np), Grown(kids, np, mv);
    forall n, c | n in kids' && c in kids'[n] ensures c in rank' && rank'[n] < rank'[c] {
      if c in kids[n] {
        UnderStep(m, kids, rank, mv, n, c);
      } else {
        assert n == np && c == mv;
      }
    }
  }

  lemma AttachedRooted(m: Mem, root: int, kids: Kids, rank: map<int, nat>, mv: int, np: int, name: string)
    requires Rooted(m, root, kids, rank) && np in kids && mv in kids && Top(kids, mv) && mv != root && mv != np
    requires !Under(m, kids, rank, mv, np)
    ensures 0 <= mv < |m| && 0 <= np < |m|
    ensures Rooted(Attached(m, mv, np, name), root, Grown(kids, np, mv), Raised(m, kids, rank, mv, np))
  {
    hide Forest, Laid, Raised, Under;
    NotOwnChild(kids, rank, np);
    AttachedForest(m, kids, mv, np, name);
    AttachedRanked(m, kids, rank, mv, np);
    RootOnTop(m, root, kids, rank);
    HeadListed(m, kids, np);
  }

  /** The part of the forest that is not under mv. */
  ghost function Outside(m: Mem, kids: Kids, rank: map<int, nat>, mv: int): (r: Kids)
    requires Forest(m, kids) && Ranked(kids, rank)
  {
    map n | n in kids && !Under(m, kids, rank, mv, n) :: kids[n]
  }

  /** Moving a node below one of its own descendants strands the whole subtree; the rest is untouched. */
  lemma StrandedRooted(m: Mem, root: int, kids: Kids, rank: map<int, nat>, mv: int, np: int, name: string)
    requires Rooted(m, root, kids, rank) && np in kids && mv in kids && Top(kids, mv) && mv != root
    requires Under(m, kids, rank, mv, np)
    ensures 0 <= mv < |m| && 0 <= np < |m|
    ensures Rooted(Attached(m, mv, np, name), root, Outside(m, kids, rank, mv), rank)
  {
    hide Forest, Laid, Under;
    InRange(m, kids, mv);
    InRange(m, kids, np);
    RootOnTop(m, root, kids, rank);
    HeadListed(m, kids, np);
    var m', kids' := Attached(m, mv, np, name), Outside(m, kids, rank, mv);
    assert mv !in kids' by { UnderSelf(m, kids, rank, mv); }
    if kids[np] != [] { UnderStep(m, kids, rank, mv, np, kids[np][0]); }
    forall n | n in kids' ensures Laid(m', n, kids'[n]) && forall c :: c in kids'[n] ==> c in kids' {
      RootedLaid(m, root, kids, rank, n);
      forall c | c in kids[n] ensures c in kids' {
        assert c != mv;
        UnderStep(m, kids, rank, mv, n, c);
      }
      SameLaid(m, m', n, kids[n]);
    }
    assert Forest(m', kids') by { ForestOf(m', kids'); }
  }

  lemma UnderSelf(m: Mem, kids: Kids, rank: map<int, nat>, a: int)
    requires Forest(m, kids) && Ranked(kids, rank) && a in kids
    ensures Under(m, kids, rank, a, a)
  {}

  lemma ForestOf(m: Mem, kids: Kids)
    requires forall n :: n in kids ==> Laid(m, n, kids[n]) && forall c :: c in kids[n] ==> c in kids
    ensures Forest(m, kids)
  {}

  // ------------------------------------------------------------------ the whole call

  /** Taking the two nodes out does not change what is under the moved node, except below the replaced one. */
  lemma {:induction false} UnderDetached(m: Mem, root: int, kids: Kids, rank: map<int, nat>, np: int, e: int, mv: int,
                                         x: int)
    requires Movable(m, root, kids, rank, np, e, mv) && x in kids
    requires e == NULL || !Under(m, kids, rank, e, x)
    requires (e == NULL || 0 <= e < |m|) && 0 <= mv < |m|
    requires Rooted(Detached(m, e, mv), root, DetachedKids(m, kids, np, e, mv), rank)
    ensures x in DetachedKids(m, kids, np, e, mv)
    ensures Under(Detached(m, e, mv), DetachedKids(m, kids, np, e, mv), rank, mv, x) <==> Under(m, kids, rank, mv, x)
    decreases rank[x]
  {
    hide Laid, Detached, DetachedKids;
    DetachedRooted(m, root, kids, rank, np, e, mv);
    Places(m, root, kids, rank, np, e, mv);
    InRange(m, kids, x);
    if e != NULL { UnderSelf(m, kids, rank, e); }
    DetachedParent(m, e, mv, x);
    if Listed(m, kids, x) && x != mv { UnderDetached(m, root, kids, rank, np, e, mv, m[x].parent); }
  }

  lemma DetachedParent(m: Mem, e: int, mv: int, x: int)
    requires (e == NULL || 0 <= e < |m|) && 0 <= mv < |m| && 0 <= x < |m| && x != e
    ensures Detached(m, e, mv)[x].parent == m[x].parent
    ensures Detached(m, e, mv)[x].name == m[x].name && Detached(m, e, mv)[x].dir == m[x].dir
  {}

  /** The replaced node is never above its own parent. */
  lemma NotUnderReplaced(m: Mem, root: int, kids: Kids, rank: map<int, nat>, np: int, e: int, mv: int)
    requires Movable(m, root, kids, rank, np, e, mv)
    ensures e == NULL || !Under(m, kids, rank, e, np)
  {
    Places(m, root, kids, rank, np, e, mv);
    if e != NULL && Under(m, kids, rank, e, np) { UnderRank(m, kids, rank, e, np); }
  }

  function Renamed(m: Mem, np: int, e: int, mv: int, name: string): (r: Mem)
    requires (e == NULL || 0 <= e < |m|) && 0 <= mv < |m| && 0 <= np < |m|
    ensures |r| == |m|
  {
    Attached(Detached(m, e, mv), mv, np, name)
  }

  /** The tree after a rename: without the moved subtree when it was moved below itself. */
  ghost function RenamedKids(m: Mem, root: int, kids: Kids, rank: map<int, nat>, np: int, e: int, mv: int): Kids
    requires Movable(m, root, kids, rank, np, e, mv)
    requires (e == NULL || 0 <= e < |m|) && 0 <= mv < |m|
    requires Rooted(Detached(m, e, mv), root, DetachedKids(m, kids, np, e, mv), rank)
    requires np in DetachedKids(m, kids, np, e, mv)
  {
    if Under(m, kids, rank, mv, np) then Outside(Detached(m, e, mv), DetachedKids(m, kids, np, e, mv), rank, mv)
    else Grown(DetachedKids(m, kids, np, e, mv), np, mv)
  }

  ghost function RenamedRank(m: Mem, root: int, kids: Kids, rank: map<int, nat>, np: int, e: int, mv: int)
    : map<int, nat>
    requires Movable(m, root, kids, rank, np, e, mv)
    requires (e == NULL || 0 <= e < |m|) && 0 <= mv < |m|
    requires Rooted(Detached(m, e, mv), root, DetachedKids(m, kids, np, e, mv), rank)
    requires np in DetachedKids(m, kids, np, e, mv)
  {
    if Under(m, kids, rank, mv, np) then rank
    else Raised(Detached(m, e, mv), DetachedKids(m, kids, np, e, mv), rank, mv, np)
  }

  /** ramfs_rename keeps the invariant, wherever the destination is. */
  lemma RenamedRooted(m: Mem, root: int, kids: Kids, rank: map<int, nat>, np: int, e: int, mv: int, name: string)
    requires Movable(m, root, kids, rank, np, e, mv)
    ensures (e == NULL || 0 <= e < |m|) && 0 <= mv < |m| && 0 <= np < |m|
    ensures Rooted(Detached(m, e, mv), root, DetachedKids(m, kids, np, e, mv), rank)
    ensures np in DetachedKids(m, kids, np, e, mv)
    ensures Rooted(Renamed(m, np, e, mv, name), root, RenamedKids(m, root, kids, rank, np, e, mv),
                   RenamedRank(m, root, kids, rank, np, e, mv))
    ensures RenamedKids(m, root, kids, rank, np, e, mv).Keys <= kids.Keys
  {
    hide Forest, Laid, Detached, DetachedKids, Under, Rooted, Attached;
    Places(m, root, kids, rank, np, e, mv);
    DetachedRooted(m, root, kids, rank, np, e, mv);
    NotUnderReplaced(m, root, kids, rank, np, e, mv);
    UnderDetached(m, root, kids, rank, np, e, mv, np);
    var m2, kids2 := Detached(m, e, mv), DetachedKids(m, kids, np, e, mv);
    RootedForest(m, root, kids, rank);
    RootedForest(m2, root, kids2, rank);
    if Under(m, kids, rank, mv, np) {
      StrandedRooted(m2, root, kids2, rank, mv, np, name);
    } else {
      AttachedRooted(m2, root, kids2, rank, mv, np, name);
    }
  }
}
