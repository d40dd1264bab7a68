/**
 The node array of RamFS as one value. Pointers are indices, NULL is -1. `Forest` says that a set of nodes, with a
 list of children for each, is laid out in the pointer fields; the lemmas say what each pointer edit lays out.
 */
module DirTree {
  import opened Sequences

  const NULL := -1

  datatype Node = Node(name: string, dir: bool, parent: int, children: int, next: int, prev: int)

  type Mem = seq<Node>

  type Kids = map<int, seq<int>>

  // ------------------------------------------------------------------ layout

  function Head(l: seq<int>): int {
    if l == [] then NULL else l[0]
  }

  ghost predicate Addresses(m: Mem, l: seq<int>) {
    forall i :: 0 <= i < |l| ==> 0 <= l[i] < |m|
  }

  /** `l` is a doubly linked, null-terminated list of nodes whose parent is p. */
  ghost predicate Siblings(m: Mem, p: int, l: seq<int>) {
    && NoDup(l) && Addresses(m, l)
    && (forall i :: 0 <= i < |l| ==> m[l[i]].parent == p)
    && (l != [] ==> m[l[0]].prev == NULL && m[l[|l| - 1]].next == NULL)
    && (forall i, j :: 0 <= i < j < |l| && j == i + 1 ==> m[l[i]].next == l[j] && m[l[j]].prev == l[i])
  }

  ghost predicate Laid(m: Mem, p: int, l: seq<int>) {
    0 <= p < |m| && m[p].children == Head(l) && Siblings(m, p, l)
  }

  /** Every node of `kids` has its list laid out, and the lists stay inside `kids`. */
  ghost predicate Forest(m: Mem, kids: Kids) {
    forall n :: n in kids ==> Laid(m, n, kids[n]) && forall c :: c in kids[n] ==> c in kids
  }

  /** Numbers that grow from parent to child: there is no cycle. */
  ghost predicate Ranked(kids: Kids, rank: map<int, nat>) {
    && (forall n :: n in kids ==> n in rank)
    && (forall n :: n in kids ==> forall c :: c in kids[n] ==> c in rank && rank[n] < rank[c])
  }

  /** c stands in some list. */
  ghost predicate Listed(m: Mem, kids: Kids, c: int) {
    0 <= c < |m| && m[c].parent in kids && c in kids[m[c].parent]
  }

  /** A node has one parent: the one its pointer names. */
  lemma OneParent(m: Mem, kids: Kids, n: int, c: int)
    requires Forest(m, kids) && n in kids && c in kids[n]
    ensures Listed(m, kids, c) && m[c].parent == n && c in kids
  {
    assert Laid(m, n, kids[n]);
  }

  /** A node is not its own child. */
  lemma NotOwnChild(kids: Kids, rank: map<int, nat>, n: int)
    requires Ranked(kids, rank) && n in kids
    ensures n !in kids[n]
  {}

  // ------------------------------------------------------------------ pointer edits

  /** Joining the neighbours of e: the common part of ramfs_free_node and ramfs_rename. */
  function Unlinked(m: Mem, e: int): (r: Mem)
    requires 0 <= e < |m|
    ensures |r| == |m|
  {
    seq(|m|, i requires 0 <= i < |m| =>
      m[i].(next := if i == m[e].prev then m[e].next else m[i].next,
            prev := if i == m[e].next then m[e].prev else m[i].prev,
            children := if i == m[e].parent && m[i].children == e then m[e].next else m[i].children))
  }

  /** ramfs_free_node. */
  function Freed(m: Mem, e: int): (r: Mem)
    requires 0 <= e < |m|
    ensures |r| == |m|
  {
    Unlinked(m, e)[e := Node(m[e].name, m[e].dir, NULL, NULL, NULL, NULL)]
  }

  /** Putting c before the children of p, under a name. */
  function Attached(m: Mem, c: int, p: int, name: string): (r: Mem)
    requires 0 <= c < |m| && 0 <= p < |m|
    ensures |r| == |m|
  {
    seq(|m|, i requires 0 <= i < |m| =>
      if i == c then Node(name, m[c].dir, p, m[c].children, m[p].children, NULL)
      else m[i].(children := if i == p then c else m[i].children,
                 prev := if i == m[p].children then c else m[i].prev))
  }

  /** A node fresh from ramfs_alloc_node, given its kind. */
  function Allocated(m: Mem, c: int, dir: bool): (r: Mem)
    requires 0 <= c < |m|
    ensures |r| == |m|
  {
    m[c := Node("", dir, NULL, NULL, NULL, NULL)]
  }

  // ------------------------------------------------------------------ one list

  lemma SameSiblings(m: Mem, m': Mem, p: int, l: seq<int>)
    requires Siblings(m, p, l) && |m'| == |m|
    requires forall i :: 0 <= i < |l| ==> Addresses(m, l) && m'[l[i]].parent == m[l[i]].parent
                                          && m'[l[i]].next == m[l[i]].next && m'[l[i]].prev == m[l[i]].prev
    ensures Siblings(m', p, l)
  {}

  /** What the links of l[i] point to. */
  lemma Neighbours(m: Mem, p: int, l: seq<int>, i: nat)
    requires Siblings(m, p, l) && i < |l|
    ensures Addresses(m, l)
    ensures m[l[i]].prev == if i == 0 then NULL else l[i - 1]
    ensures m[l[i]].next == if i == |l| - 1 then NULL else l[i + 1]
  {
    if i > 0 { assert m[l[i]].prev == l[i - 1]; }
    if i < |l| - 1 { assert m[l[i]].next == l[i + 1]; }
  }

  lemma UnlinkedFields(m: Mem, p: int, l: seq<int>, i: nat, k: nat)
    requires Siblings(m, p, l) && i < |l| && k < |l| && k != i && Addresses(m, l)
    ensures var g := Unlinked(m, l[i]);
            && g[l[k]].parent == p
            && g[l[k]].next == (if k + 1 == i then (if i + 1 < |l| then l[i + 1] else NULL) else m[l[k]].next)
            && g[l[k]].prev == (if k == i + 1 then (if i > 0 then l[i - 1] else NULL) else m[l[k]].prev)
  {
    Neighbours(m, p, l, i);
    assert l[k] != l[i];
  }

  lemma UnlinkedAt(m: Mem, p: int, l: seq<int>, i: nat, k: nat)
    requires Siblings(m, p, l) && i < |l| && k < |l| - 1 && Addresses(m, l)
    ensures var g, r := Unlinked(m, l[i]), Drop(l, i);
            && 0 <= r[k] < |g| && g[r[k]].parent == p
            && g[r[k]].next == (if k + 1 < |r| then r[k + 1] else NULL)
            && g[r[k]].prev == (if k > 0 then r[k - 1] else NULL)
  {
    hide Unlinked;
    var j := if k < i then k else k + 1;
    UnlinkedFields(m, p, l, i, j);
    Neighbours(m, p, l, j);
  }

  lemma UnlinkedSiblings(m: Mem, p: int, l: seq<int>, i: nat)
    requires Siblings(m, p, l) && i < |l|
    ensures Addresses(m, l) && Siblings(Unlinked(m, l[i]), p, Drop(l, i))
  {
    DropMembers(l, i);
    var g, r := Unlinked(m, l[i]), Drop(l, i);
    hide Unlinked, Drop;
    forall a | 0 <= a < |r| ensures 0 <= r[a] < |g| && g[r[a]].parent == p {
      UnlinkedAt(m, p, l, i, a);
    }
    forall a, b | 0 <= a < b < |r| && b == a + 1 ensures g[r[a]].next == r[b] && g[r[b]].prev == r[a] {
      UnlinkedAt(m, p, l, i, a);
      UnlinkedAt(m, p, l, i, b);
    }
    if r != [] {
      UnlinkedAt(m, p, l, i, 0);
      UnlinkedAt(m, p, l, i, |r| - 1);
    }
  }

  lemma AttachedSiblings(m: Mem, p: int, l: seq<int>, c: int, name: string)
    requires Laid(m, p, l) && 0 <= c < |m| && c !in l && p !in l && c != p
    ensures Laid(Attached(m, c, p, name), p, [c] + l)
  {
    var g, r := Attached(m, c, p, name), [c] + l;
    assert forall k :: 0 <= k < |l| ==>
        && g[l[k]].parent == p && g[l[k]].next == m[l[k]].next
        && g[l[k]].prev == (if k == 0 then c else m[l[k]].prev);
    assert forall k :: 0 < k < |r| ==> r[k] == l[k - 1];
  }

  // ------------------------------------------------------------------ the whole forest

  /** `kids` after e left the list of its parent p. */
  function Pruned(kids: Kids, p: int, e: int): (r: Kids)
    requires p in kids
    ensures r.Keys == kids.Keys
  {
    kids[p := Without(kids[p], e)]
  }

  lemma PrunedMembers(m: Mem, kids: Kids, e: int)
    requires Forest(m, kids) && Listed(m, kids, e)
    ensures forall n :: n in kids ==> forall c :: c in Pruned(kids, m[e].parent, e)[n] <==> c in kids[n] && c != e
  {
    var p := m[e].parent;
    var l := kids[p];
    assert Laid(m, p, l);
    var i :| 0 <= i < |l| && l[i] == e;
    WithoutIsDrop(l, i);
    DropMembers(l, i);
    forall n | n in kids && n != p ensures e !in kids[n] {
      if e in kids[n] { OneParent(m, kids, n, e); }
    }
  }

  /** Nodes of other lists are not neighbours of e. */
  lemma OtherLists(m: Mem, kids: Kids, e: int, n: int, c: int)
    requires Forest(m, kids) && Listed(m, kids, e) && n in kids && n != m[e].parent && c in kids[n]
    ensures c != e && c != m[e].prev && c != m[e].next
  {
    var l := kids[m[e].parent];
    assert Laid(m, m[e].parent, l) && Laid(m, n, kids[n]);
    var i :| 0 <= i < |l| && l[i] == e;
    Neighbours(m, m[e].parent, l, i);
  }

  lemma UnlinkedLaid(m: Mem, p: int, l: seq<int>, e: int)
    requires Laid(m, p, l) && e in l && p !in l
    ensures Addresses(m, l) && Laid(Unlinked(m, e), p, Without(l, e))
  {
    var i :| 0 <= i < |l| && l[i] == e;
    WithoutIsDrop(l, i);
    UnlinkedSiblings(m, p, l, i);
    Neighbours(m, p, l, i);
    assert i > 0 ==> l[0] != l[i];
    assert m[e].parent == p;
  }

  lemma UnlinkedForest(m: Mem, kids: Kids, e: int)
    requires Forest(m, kids) && Listed(m, kids, e) && m[e].parent !in kids[m[e].parent]
    ensures Forest(Unlinked(m, e), Pruned(kids, m[e].parent, e))
  {
    hide Laid;
    var p, m' := m[e].parent, Unlinked(m, e);
    var kids' := Pruned(kids, p, e);
    PrunedMembers(m, kids, e);
    UnlinkedLaid(m, p, kids[p], e);
    forall n | n in kids && n != p ensures Laid(m', n, kids'[n]) {
      forall c | c in kids[n] ensures c != m[e].prev && c != m[e].next { OtherLists(m, kids, e, n, c); }
      SameLaid(m, m', n, kids[n]);
    }
  }

  lemma SameLaid(m: Mem, m': Mem, p: int, l: seq<int>)
    requires Laid(m, p, l) && |m'| == |m| && (0 <= p < |m| ==> m'[p].children == m[p].children)
    requires forall c :: c in l && 0 <= c < |m| ==>
                           m'[c].parent == m[c].parent && m'[c].next == m[c].next && m'[c].prev == m[c].prev
    ensures Laid(m', p, l)
  {
    forall i | 0 <= i < |l| ensures l[i] in l {}
    SameSiblings(m, m', p, l);
  }

  lemma FreedForest(m: Mem, kids: Kids, e: int)
    requires Forest(m, kids) && Listed(m, kids, e) && m[e].parent !in kids[m[e].parent]
    ensures Forest(Freed(m, e), Pruned(kids, m[e].parent, e) - {e})
  {
    hide Laid;
    var m1, kids1 := Unlinked(m, e), Pruned(kids, m[e].parent, e);
    UnlinkedForest(m, kids, e);
    PrunedMembers(m, kids, e);
    forall n | n in kids1 - {e} ensures Laid(Freed(m, e), n, kids1[n]) {
      SameLaid(m1, Freed(m, e), n, kids1[n]);
    }
  }

  /** Unlinking a node that stands in no list, beside nodes that stand in none, changes no list. */
  lemma UnlinkedTop(m: Mem, kids: Kids, e: int)
    requires Forest(m, kids) && 0 <= e < |m| && m[e].parent !in kids
    requires forall n :: n in kids ==> m[e].prev !in kids[n] && m[e].next !in kids[n]
    ensures Forest(Unlinked(m, e), kids)
  {
    hide Laid;
    forall n | n in kids ensures Laid(Unlinked(m, e), n, kids[n]) {
      SameLaid(m, Unlinked(m, e), n, kids[n]);
    }
  }

  ghost predicate Top(kids: Kids, c: int) {
    forall n :: n in kids ==> c !in kids[n]
  }

  /** `kids` after c was put first under p. */
  function Grown(kids: Kids, p: int, c: int): (r: Kids)
    requires p in kids
    ensures r.Keys == kids.Keys
  {
    kids[p := [c] + kids[p]]
  }

  lemma AttachedForest(m: Mem, kids: Kids, c: int, p: int, name: string)
    requires Forest(m, kids) && c in kids && p in kids && c != p && Top(kids, c) && p !in kids[p]
    ensures 0 <= c < |m| && 0 <= p < |m| && Forest(Attached(m, c, p, name), Grown(kids, p, c))
  {
    assert Laid(m, c, kids[c]) && Laid(m, p, kids[p]);
    var m' := Attached(m, c, p, name);
    AttachedSiblings(m, p, kids[p], c, name);
    forall n | n in kids && n != p ensures Laid(m', n, kids[n]) {
      forall x | x in kids[n] ensures x != m[p].children && x != c { OneParent(m, kids, n, x); }
      SameLaid(m, m', n, kids[n]);
    }
  }

  lemma AllocatedForest(m: Mem, kids: Kids, c: int, dir: bool)
    requires Forest(m, kids) && 0 <= c < |m| && c !in kids
    ensures Forest(Allocated(m, c, dir), kids[c := []]) && Top(kids[c := []], c)
  {
    hide Laid;
    var m' := Allocated(m, c, dir);
    assert Laid(m', c, []) by { BlankLaid(m', c); }
    forall n | n in kids ensures Laid(m', n, kids[n]) && c !in kids[n] {
      SameLaid(m, m', n, kids[n]);
    }
  }

  lemma BlankLaid(m: Mem, c: int)
    requires 0 <= c < |m| && m[c].children == NULL
    ensures Laid(m, c, [])
  {}

  // ------------------------------------------------------------------ ancestors

  /** The whole invariant of the linked nodes: a forest, without cycles, with the root on top. */
  ghost predicate Rooted(m: Mem, root: int, kids: Kids, rank: map<int, nat>) {
    && Forest(m, kids) && Ranked(kids, rank)
    && root in kids && 0 <= root < |m| && m[root].dir
    && m[root].parent == NULL && m[root].next == NULL && m[root].prev == NULL
  }

  /** x is a or stands somewhere below it. */
  ghost predicate Under(m: Mem, kids: Kids, rank: map<int, nat>, a: int, x: int)
    requires Forest(m, kids) && Ranked(kids, rank) && x in kids
    decreases rank[x]
  {
    x == a || (Listed(m, kids, x) && Under(m, kids, rank, a, m[x].parent))
  }

  lemma UnderStep(m: Mem, kids: Kids, rank: map<int, nat>, a: int, n: int, c: int)
    requires Forest(m, kids) && Ranked(kids, rank) && n in kids && c in kids[n]
    ensures c in kids && (Under(m, kids, rank, a, c) <==> c == a || Under(m, kids, rank, a, n))
  {
    OneParent(m, kids, n, c);
  }

  lemma {:induction false} UnderRank(m: Mem, kids: Kids, rank: map<int, nat>, a: int, x: int)
    requires Forest(m, kids) && Ranked(kids, rank) && a in kids && x in kids
    requires Under(m, kids, rank, a, x)
    ensures x == a || rank[a] < rank[x]
    decreases rank[x]
  {
    if x != a { UnderRank(m, kids, rank, a, m[x].parent); }
  }

  /** Every node at or above x is under whatever x is not hidden from: being under is transitive. */
  lemma {:induction false} UnderTrans(m: Mem, kids: Kids, rank: map<int, nat>, a: int, b: int, x: int)
    requires Forest(m, kids) && Ranked(kids, rank) && b in kids && x in kids
    requires Under(m, kids, rank, a, b) && Under(m, kids, rank, b, x)
    ensures Under(m, kids, rank, a, x)
    decreases rank[x]
  {
    if x != b { UnderTrans(m, kids, rank, a, b, m[x].parent); }
  }

  /** The root stands in no list, so it is under nothing but itself. */
  lemma RootOnTop(m: Mem, root: int, kids: Kids, rank: map<int, nat>)
    requires Rooted(m, root, kids, rank)
    ensures Top(kids, root) && NULL !in kids
    ensures forall a :: a != root ==> !Under(m, kids, rank, a, root)
  {
    forall n | n in kids ensures 0 <= n && root !in kids[n] {
      assert Laid(m, n, kids[n]);
      if root in kids[n] { OneParent(m, kids, n, root); }
    }
    assert !Listed(m, kids, root);
  }

  // ------------------------------------------------------------------ what each edit does to the invariant

  lemma PrunedRanked(m: Mem, kids: Kids, rank: map<int, nat>, e: int)
    requires Forest(m, kids) && Listed(m, kids, e) && Ranked(kids, rank)
    ensures Ranked(Pruned(kids, m[e].parent, e), rank)
  {
    PrunedMembers(m, kids, e);
  }

  lemma FreedRooted(m: Mem, root: int, kids: Kids, rank: map<int, nat>, e: int)
    requires Rooted(m, root, kids, rank) && Listed(m, kids, e)
    ensures Rooted(Freed(m, e), root, Pruned(kids, m[e].parent, e) - {e}, rank)
  {
    hide Forest, Laid, Without;
    NotOwnChild(kids, rank, m[e].parent);
    FreedForest(m, kids, e);
    PrunedRanked(m, kids, rank, e);
    RootOnTop(m, root, kids, rank);
    RootKept(m, root, kids, e);
  }

  /** Unlinking a listed node stores nothing into the root but its list head. */
  lemma RootKept(m: Mem, root: int, kids: Kids, e: int)
    requires Forest(m, kids) && Listed(m, kids, e) && Top(kids, root) && 0 <= root < |m|
    ensures root != e && Unlinked(m, e)[root] == m[root].(children := Unlinked(m, e)[root].children)
    ensures Freed(m, e)[root] == Unlinked(m, e)[root]
  {
    var p := m[e].parent;
    assert Laid(m, p, kids[p]);
    var i :| 0 <= i < |kids[p]| && kids[p][i] == e;
    Neighbours(m, p, kids[p], i);
  }

  /** A new first child. */
  function Created(m: Mem, c: int, p: int, dir: bool, name: string): (r: Mem)
    requires 0 <= c < |m| && 0 <= p < |m|
    ensures |r| == |m|
  {
    Attached(Allocated(m, c, dir), c, p, name)
  }

  lemma CreatedRooted(m: Mem, root: int, kids: Kids, rank: map<int, nat>, c: int, p: int, dir: bool, name: string)
    requires Rooted(m, root, kids, rank) && 0 <= c < |m| && c !in kids && p in kids
    ensures 0 <= p < |m| && c in rank[c := rank[p] + 1]
    ensures Rooted(Created(m, c, p, dir, name), root, Grown(kids[c := []], p, c), rank[c := rank[p] + 1])
  {
    hide Laid;
    assert 0 <= p < |m| by { InRange(m, kids, p); }
    var m1, kids1 := Allocated(m, c, dir), kids[c := []];
    AllocatedForest(m, kids, c, dir);
    NotOwnChild(kids, rank, p);
    AttachedForest(m1, kids1, c, p, name);
    RootOnTop(m, root, kids, rank);
    HeadListed(m1, kids1, p);
    assert forall n :: n in kids ==> c !in kids[n];
  }

  lemma InRange(m: Mem, kids: Kids, n: int)
    requires Forest(m, kids) && n in kids
    ensures 0 <= n < |m|
  {
    assert Laid(m, n, kids[n]);
  }

  lemma HeadListed(m: Mem, kids: Kids, p: int)
    requires Forest(m, kids) && p in kids
    ensures 0 <= p < |m| && m[p].children == Head(kids[p])
  {
    assert Laid(m, p, kids[p]);
  }
}
