/**
 Tasks and semaphores as the kernel stores them.  A `Link` is what the fields of one task hold;
 the predicates below say when such fields, taken together, spell out a list.
 */
module Tasks {
  import opened Sequences

  datatype TaskState = Runnable | Running | Sleeping | Blocked | Stopped

  datatype Link = Link(next: Task?, prev: Task?, state: TaskState, wake: nat)

  type Links = map<Task, Link>

  /** `struct task`: one pair of link fields serves every list the task can be on. */
  class Task {
    const priority: nat
    var state: TaskState
    var next: Task?
    var prev: Task?
    var wakeTime: nat

    /** A freshly created task: zeroed links, entered nowhere. */
    constructor (priority: nat, state: TaskState)
      ensures this.priority == priority && Fields() == Link(null, null, state, 0)
    {
      this.priority, this.state, next, prev, wakeTime := priority, state, null, null, 0;
    }

    function Fields(): Link
      reads this
    {
      Link(next, prev, state, wakeTime)
    }
  }

  /** The address of a semaphore. */
  type Semaphore = nat

  const LEVELS: nat := 32

  /** The run queue a task belongs to: its priority, clamped to PRIORITY_MAX. */
  function Level(t: Task): (p: nat)
    ensures p < LEVELS
    ensures t.priority < LEVELS ==> p == t.priority
    ensures t.priority >= LEVELS ==> p == LEVELS - 1
  {
    if t.priority > 31 then 31 else t.priority
  }

  // ------------------------------------------------------------------ lists in link fields

  /** The tasks of `l` are all in `state`. */
  predicate InState(f: Links, l: seq<Task>, state: TaskState) {
    forall i :: 0 <= i < |l| ==> l[i] in f && f[l[i]].state == state
  }

  /** `head` starts a null-terminated chain of `next` fields that visits exactly `l`. */
  ghost predicate Chain(f: Links, head: Task?, l: seq<Task>) {
    && (forall i :: 0 <= i < |l| ==> l[i] in f)
    && (l == [] ==> head == null)
    && (l != [] ==> head == l[0] && f[l[|l| - 1]].next == null)
    && (forall i, j :: 0 <= i < j < |l| && j == i + 1 ==> f[l[i]].next == l[j])
  }

  /** A chain whose `prev` fields mirror its `next` fields. */
  ghost predicate TwoWay(f: Links, head: Task?, l: seq<Task>) {
    && Chain(f, head, l)
    && (l != [] ==> f[l[0]].prev == null)
    && (forall i, j :: 0 <= i < j < |l| && j == i + 1 ==> f[l[j]].prev == l[i])
  }

  lemma SameLinks(f: Links, g: Links)
    requires f.Keys == g.Keys && forall t :: t in f ==> f[t] == g[t]
    ensures f == g
  {
  }

  /** The fields after `t` was put, in `state`, before `head`. */
  function Front(f: Links, head: Task?, t: Task, state: TaskState): Links
    requires t in f
  {
    map u | u in f :: if u == t then Link(head, null, state, f[t].wake)
                      else f[u].(prev := if u == head then t else f[u].prev)
  }

  /** The fields after the neighbours of `t` were joined and its own links cleared. */
  function Cut(f: Links, t: Task): Links
    requires t in f
  {
    map u | u in f :: if u == t then f[t].(next := null, prev := null)
                      else f[u].(next := if u == f[t].prev then f[t].next else f[u].next,
                                 prev := if u == f[t].next then f[t].prev else f[u].prev)
  }

  lemma FrontWired(f: Links, head: Task?, t: Task, l: seq<Task>, state: TaskState)
    requires TwoWay(f, head, l) && NoDup(l) && t in f && t !in l && InState(f, l, state)
    ensures TwoWay(Front(f, head, t, state), t, [t] + l)
    ensures InState(Front(f, head, t, state), [t] + l, state)
    ensures Front(f, head, t, state).Keys == f.Keys
    ensures forall u :: u in f && u != t && u !in l ==> Front(f, head, t, state)[u] == f[u]
  {
  }

  /** What the links of `l[i]` point to. */
  lemma Neighbours(f: Links, h: Task?, l: seq<Task>, i: nat)
    requires TwoWay(f, h, l) && NoDup(l) && i < |l|
    ensures f[l[i]].prev == if i == 0 then null else l[i - 1]
    ensures f[l[i]].next == if i == |l| - 1 then null else l[i + 1]
    ensures h == l[i] <==> i == 0
  {
    if i > 0 { assert f[l[i]].prev == l[i - 1]; }
    if i < |l| - 1 { assert f[l[i]].next == l[i + 1]; }
  }

  /** Unlinking `l[i]` stores into tasks of `l` only. */
  lemma CutFrame(f: Links, h: Task?, l: seq<Task>, i: nat)
    requires TwoWay(f, h, l) && NoDup(l) && i < |l|
    ensures Cut(f, l[i]).Keys == f.Keys
    ensures forall t :: t in f && t !in l ==> Cut(f, l[i])[t] == f[t]
  {
    Neighbours(f, h, l, i);
  }

  /** Joining the neighbours of `l[i]` leaves a well-formed list without it. */
  lemma CutWired(f: Links, h: Task?, l: seq<Task>, i: nat, state: TaskState)
    requires TwoWay(f, h, l) && NoDup(l) && i < |l| && InState(f, l, state)
    ensures TwoWay(Cut(f, l[i]), if i == 0 then f[l[i]].next else h, Drop(l, i))
    ensures InState(Cut(f, l[i]), Drop(l, i), state)
  {
    Neighbours(f, h, l, i);
    var g, r := Cut(f, l[i]), Drop(l, i);
    assert forall k :: 0 <= k < |l| && k != i ==>
        && l[k] in g && g[l[k]].state == state
        && g[l[k]].next == (if k == i - 1 then f[l[i]].next else f[l[k]].next)
        && g[l[k]].prev == (if k == i + 1 then f[l[i]].prev else f[l[k]].prev);
    assert forall k :: 0 <= k < |r| ==> r[k] == if k < i then l[k] else l[k + 1];
  }

  lemma ChainFront(f: Links, h: Task?, t: Task, l: seq<Task>, state: TaskState)
    requires Chain(f, h, l) && InState(f, l, state) && t in f && f[t].next == h && f[t].state == state
    ensures Chain(f, t, [t] + l) && InState(f, [t] + l, state)
  {
  }

  lemma ChainRest(f: Links, h: Task?, l: seq<Task>, state: TaskState)
    requires Chain(f, h, l) && InState(f, l, state) && l != []
    ensures h == l[0] && Chain(f, f[l[0]].next, l[1..]) && InState(f, l[1..], state)
  {
  }

  /** Fields that agree on the tasks of `l` spell out the same list. */
  lemma SameFields(f: Links, g: Links, h: Task?, l: seq<Task>, state: TaskState)
    requires forall t :: t in l && t in f ==> t in g && g[t] == f[t]
    ensures Chain(f, h, l) ==> Chain(g, h, l)
    ensures TwoWay(f, h, l) ==> TwoWay(g, h, l)
    ensures InState(f, l, state) ==> InState(g, l, state)
  {
  }
}
