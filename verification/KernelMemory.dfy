/**
 The kernel's memory as one value: queue heads, the fields of every task, the fields of every
 semaphore.  `Wired` says that this memory lays out a given scheduler state; the lemmas say
 that the stores of each list operation lay out the state that operation should produce.
 */
module KernelMemory {
  import opened Sequences
  import opened Tasks
  import opened SchedulerModel

  datatype Sem = Sem(count: int, waiters: Task?)

  datatype Mem = Mem(heads: seq<Task?>, sleep: Task?, link: Links, sems: map<Semaphore, Sem>)

  ghost predicate RunWired(m: Mem, a: Sched) {
    && |m.heads| == LEVELS && |a.rq| == LEVELS
    && (forall p :: 0 <= p < LEVELS ==> TwoWay(m.link, m.heads[p], a.rq[p]) && InState(m.link, a.rq[p], Runnable))
  }

  ghost predicate SleepWired(m: Mem, a: Sched) {
    && TwoWay(m.link, m.sleep, a.sq) && InState(m.link, a.sq, Sleeping)
    && (forall t :: t in a.sq ==> t in m.link && t in a.wake && a.wake[t] == m.link[t].wake)
  }

  ghost predicate WaitWired(m: Mem, a: Sched) {
    && m.sems.Keys == a.wl.Keys
    && (forall n :: n in a.wl ==> Chain(m.link, m.sems[n].waiters, a.wl[n]) && InState(m.link, a.wl[n], Blocked))
    && (forall n :: n in a.wl ==> n in a.count && m.sems[n].count == a.count[n])
  }

  /** Every list of `a` is laid out in the fields, and its tasks are in the list's state. */
  ghost predicate Wired(m: Mem, a: Sched) {
    RunWired(m, a) && SleepWired(m, a) && WaitWired(m, a)
  }

  // ------------------------------------------------------------------ run queues

  /** Stores into tasks that appear at level `p` alone leave the other lists laid out. */
  lemma LevelStored(m: Mem, a: Sched, p: nat, h: Task?, f: Links, l: seq<Task>)
    requires Wired(m, a) && p < LEVELS
    requires forall t :: t in m.link && !OnlyAt(a, t, p) ==> t in f && f[t] == m.link[t]
    requires TwoWay(f, h, l) && InState(f, l, Runnable)
    ensures Wired(m.(heads := m.heads[p := h], link := f), a.(rq := a.rq[p := l]))
  {
    forall q | 0 <= q < LEVELS && q != p ensures TwoWay(f, m.heads[q], a.rq[q]) && InState(f, a.rq[q], Runnable) {
      SameFields(m.link, f, m.heads[q], a.rq[q], Runnable);
    }
    SameFields(m.link, f, m.sleep, a.sq, Sleeping);
    forall n | n in a.wl ensures Chain(f, m.sems[n].waiters, a.wl[n]) && InState(f, a.wl[n], Blocked) {
      SameFields(m.link, f, m.sems[n].waiters, a.wl[n], Blocked);
    }
  }

  /** The stores of task_enqueue. */
  function Enqueued(m: Mem, t: Task): Mem
    requires |m.heads| == LEVELS && t in m.link
  {
    m.(heads := m.heads[Level(t) := t], link := Front(m.link, m.heads[Level(t)], t, Runnable))
  }

  lemma EnqueueWired(m: Mem, a: Sched, t: Task)
    requires Wired(m, a) && CanPush(a, t) && t in m.link
    ensures Wired(Enqueued(m, t), a.(rq := Push(a.rq, t)))
  {
    var p := Level(t);
    var h, l := m.heads[p], a.rq[p];
    assert h != null ==> h in l;
    FrontWired(m.link, h, t, l, Runnable);
    LevelStored(m, a, p, t, Front(m.link, h, t, Runnable), [t] + l);
  }

  /** The stores of task_dequeue. */
  function Dequeued(m: Mem, t: Task): Mem
    requires |m.heads| == LEVELS && t in m.link
  {
    var p := Level(t);
    m.(heads := if m.link[t].prev == null then m.heads[p := m.link[t].next] else m.heads, link := Cut(m.link, t))
  }

  lemma DequeueWired(m: Mem, a: Sched, p: nat, i: nat)
    requires Wired(m, a) && LevelApart(a, p) && i < |a.rq[p]| && Level(a.rq[p][i]) == p
    ensures Wired(Dequeued(m, a.rq[p][i]), a.(rq := a.rq[p := Drop(a.rq[p], i)]))
  {
    var h, l := m.heads[p], a.rq[p];
    Neighbours(m.link, h, l, i);
    CutWired(m.link, h, l, i, Runnable);
    CutFrame(m.link, h, l, i);
    LevelStored(m, a, p, if i == 0 then m.link[l[i]].next else h, Cut(m.link, l[i]), Drop(l, i));
    assert m.heads == m.heads[p := h];
  }

  lemma HeadSet(m: Mem, a: Sched, p: nat)
    requires Wired(m, a) && p < LEVELS
    ensures m.heads[p] == if a.rq[p] == [] then null else a.rq[p][0]
  {
  }

  /** What dequeuing the head of the highest non-empty level does. */
  lemma HeadLeaves(m: Mem, a: Sched)
    requires Wired(m, a) && Lists(a) && Top(a.rq, LEVELS - 1) >= 0
    ensures var t := Next(a);
            && Queued(a, t) && t in m.link && m.link[t].prev == null && m.heads[Level(t)] == t
            && (m.link[t].next != null ==> m.link[t].next in m.link && m.link[t].next != t)
            && Wired(Dequeued(m, t), a.(rq := Popped(a.rq)))
            && (forall u :: u in m.link && !Queued(a, u) ==> Dequeued(m, t).link[u] == m.link[u])
            && Dequeued(m, t).link[t].prev == null && Dequeued(m, t).link.Keys == m.link.Keys
  {
    var p := Top(a.rq, LEVELS - 1);
    var l := a.rq[p];
    assert l[0] in l && Level(l[0]) == p && TwoWay(m.link, m.heads[p], l);
    LevelsApart(a);
    assert Levelled(a.rq);
    hide Wired, Lists, OnlyAt;
    Neighbours(m.link, m.heads[p], l, 0);
    CutFrame(m.link, m.heads[p], l, 0);
    DequeueWired(m, a, p, 0);
    assert Drop(l, 0) == l[1..];
    if |l| > 1 { assert l[1] in m.link; }
    assert forall u :: u in l ==> Queued(a, u);
  }

  // ------------------------------------------------------------------ the sleep queue

  /** Stores into tasks that are on no run queue and wait nowhere leave those lists laid out. */
  lemma SleepStored(m: Mem, a: Sched, h: Task?, f: Links, l: seq<Task>, w: map<Task, nat>)
    requires Wired(m, a)
    requires forall t :: t in m.link && !AsleepAtMost(a, t) ==> t in f && f[t] == m.link[t]
    requires TwoWay(f, h, l) && InState(f, l, Sleeping)
    requires forall t :: t in l ==> t in f && t in w && w[t] == f[t].wake
    ensures Wired(m.(sleep := h, link := f), a.(sq := l, wake := w))
  {
    forall q | 0 <= q < LEVELS ensures TwoWay(f, m.heads[q], a.rq[q]) && InState(f, a.rq[q], Runnable) {
      SameFields(m.link, f, m.heads[q], a.rq[q], Runnable);
    }
    forall n | n in a.wl ensures Chain(f, m.sems[n].waiters, a.wl[n]) && InState(f, a.wl[n], Blocked) {
      SameFields(m.link, f, m.sems[n].waiters, a.wl[n], Blocked);
    }
  }

  /** The stores of task_sleep before it calls schedule(). */
  function PutToSleep(m: Mem, t: Task, wake: nat): Mem
    requires t in m.link
  {
    m.(sleep := t, link := Front(m.link[t := m.link[t].(wake := wake)], m.sleep, t, Sleeping))
  }

  lemma SleepWiredAfter(m: Mem, a: Sched, t: Task, wake: nat)
    requires Wired(m, a) && NoDup(a.sq) && t in m.link && t !in a.sq && AsleepAtMost(a, t)
    requires forall u :: u in a.sq ==> AsleepAtMost(a, u)
    ensures Wired(PutToSleep(m, t, wake), a.(sq := [t] + a.sq, wake := a.wake[t := wake]))
  {
    var f := m.link[t := m.link[t].(wake := wake)];
    SameFields(m.link, f, m.sleep, a.sq, Sleeping);
    FrontWired(f, m.sleep, t, a.sq, Sleeping);
    assert m.sleep != null ==> m.sleep in a.sq;
    SleepStored(m, a, t, PutToSleep(m, t, wake).link, [t] + a.sq, a.wake[t := wake]);
  }

  /** The stores that take a task out of the sleep queue. */
  function Unslept(m: Mem, t: Task): Mem
    requires t in m.link
  {
    m.(sleep := if m.sleep == t then m.link[t].next else m.sleep, link := Cut(m.link, t))
  }

  lemma UnsleptCleared(m: Mem, t: Task)
    requires t in m.link
    ensures var r := Unslept(m, t);
            r.link[t := m.link[t]][t := m.link[t].(next := null, prev := null)] == r.link
  {
  }

  lemma UnsleptWired(m: Mem, a: Sched, i: nat)
    requires Wired(m, a) && NoDup(a.sq) && i < |a.sq|
    requires forall u :: u in a.sq ==> AsleepAtMost(a, u)
    ensures Wired(Unslept(m, a.sq[i]), a.(sq := Drop(a.sq, i)))
  {
    Neighbours(m.link, m.sleep, a.sq, i);
    CutWired(m.link, m.sleep, a.sq, i, Sleeping);
    CutFrame(m.link, m.sleep, a.sq, i);
    DropMembers(a.sq, i);
    var u := Unslept(m, a.sq[i]);
    SleepStored(m, a, u.sleep, u.link, Drop(a.sq, i), a.wake);
  }

  // ------------------------------------------------------------------ tasks on no list

  /** Storing into a task that no list holds changes no list. */
  lemma LooseStored(m: Mem, a: Sched, t: Task, k: Link)
    requires Wired(m, a) && AsleepAtMost(a, t) && t !in a.sq
    ensures Wired(m.(link := m.link[t := k]), a)
  {
    var f := m.link[t := k];
    SameFields(m.link, f, m.sleep, a.sq, Sleeping);
    SleepStored(m, a, m.sleep, f, a.sq, a.wake);
  }

  // ------------------------------------------------------------------ waiter lists

  /** The stores of semaphore_wait before it calls schedule(). */
  function PutToWait(m: Mem, t: Task, n: Semaphore): Mem
    requires t in m.link && n in m.sems
  {
    m.(link := m.link[t := m.link[t].(next := m.sems[n].waiters, state := Blocked)],
       sems := m.sems[n := m.sems[n].(waiters := t)])
  }

  lemma WaitWiredAfter(m: Mem, a: Sched, t: Task, n: Semaphore)
    requires Wired(m, a) && t in m.link && n in a.wl && AsleepAtMost(a, t) && t !in a.sq
    ensures Wired(PutToWait(m, t, n), a.(wl := a.wl[n := [t] + a.wl[n]]))
  {
    var k := m.link[t].(next := m.sems[n].waiters, state := Blocked);
    LooseStored(m, a, t, k);
    var f, l := m.link[t := k], a.wl[n];
    assert Chain(f, m.sems[n].waiters, l) && InState(f, l, Blocked);
    ChainFront(f, m.sems[n].waiters, t, l, Blocked);
    hide Chain, TwoWay, InState, RunWired, SleepWired;
  }

  /** Advancing `waiters` past the first waiter. */
  lemma UnwaitWired(m: Mem, a: Sched, n: Semaphore)
    requires Wired(m, a) && n in a.wl && a.wl[n] != []
    ensures m.sems[n].waiters == a.wl[n][0]
    ensures Wired(m.(sems := m.sems[n := m.sems[n].(waiters := m.link[a.wl[n][0]].next)]),
                  a.(wl := a.wl[n := a.wl[n][1..]]))
  {
    var l := a.wl[n];
    ChainRest(m.link, m.sems[n].waiters, l, Blocked);
    hide Chain, TwoWay, InState, RunWired, SleepWired;
  }

  // ------------------------------------------------------------------ schedule()

  /** The task to run next is on no list once it has been popped. */
  lemma NextLoose(a: Sched)
    requires Lists(a)
    ensures var b := a.(rq := Popped(a.rq));
            && Lists(b) && Levelled(b.rq) && AsleepAtMost(b, Next(a)) && Next(a) !in b.sq
            && forall u :: Queued(b, u) <==> Queued(a, u) && u != Next(a)
  {
    var b := a.(rq := Popped(a.rq));
    PoppedLevelled(a.rq);
    NextIsFree(a);
    forall u | Queued(b, u) ensures Queued(a, u) && u != Next(a) {}
    forall n | n in b.wl ensures Apart(b, b.wl[n]) { assert Apart(a, a.wl[n]); }
    forall q | 0 <= q < LEVELS ensures Next(a) !in b.rq[q] {
      assert Next(a) in b.rq[q] ==> Queued(b, Next(a));
    }
  }

  /** Marking `t` RUNNING and, if `prev` is still marked so, requeueing `prev`. */
  function Switched(m: Mem, next: Task, prev: Task?): Mem
    requires next in m.link && |m.heads| == LEVELS
  {
    var f := m.link[next := m.link[next].(state := Running)];
    if prev != null && prev in f && prev != next && f[prev].state == Running
    then Enqueued(m.(link := f[prev := f[prev].(state := Runnable)]), prev) else m.(link := f)
  }

  lemma SwitchWired(m: Mem, a: Sched, next: Task, prev: Task?)
    requires Wired(m, a) && Lists(a) && next in m.link && next != prev
    requires AsleepAtMost(a, next) && next !in a.sq
    requires prev != null ==> prev in m.link && (m.link[prev].state == Running ==> !OnList(a, prev))
    ensures Wired(Switched(m, next, prev),
                  if prev != null && m.link[prev].state == Running then a.(rq := Push(a.rq, prev)) else a)
  {
    var m1 := m.(link := m.link[next := m.link[next].(state := Running)]);
    LooseStored(m, a, next, m.link[next].(state := Running));
    if prev != null && m.link[prev].state == Running {
      UnlistedCanPush(a, prev);
      LooseStored(m1, a, prev, m1.link[prev].(state := Runnable));
      EnqueueWired(m1.(link := m1.link[prev := m1.link[prev].(state := Runnable)]), a, prev);
    }
  }

  lemma SwitchFrame(m: Mem, a: Sched, next: Task, prev: Task?)
    requires Wired(m, a) && Levelled(a.rq) && next in m.link && next != prev && !Queued(a, next)
    ensures var f := Switched(m, next, prev).link;
            && f.Keys == m.link.Keys && f[next] == m.link[next].(state := Running)
            && forall u :: u in f && u != next && u != prev && !Queued(a, u) ==> f[u] == m.link[u]
  {
    if prev != null {
      var p := Level(prev);
      HeadSet(m, a, p);
      assert m.heads[p] != null ==> m.heads[p] in a.rq[p] && Queued(a, m.heads[p]);
      hide Wired, Levelled;
    }
  }

  // ------------------------------------------------------------------ the whole invariant

  /** Every task is known to be somewhere; the idle task, before its first run, is RUNNABLE and
      on no list. */
  ghost predicate Accounted(m: Mem, a: Sched) {
    && (forall t :: t in m.link ==> Placed(a, t) || t == a.idle)
    && a.idle in m.link
    && (!Placed(a, a.idle) ==> m.link[a.idle].state == Runnable && m.link[a.idle].prev == null)
  }

  /** Memory lays out `a`; the running task is the one marked RUNNING, no list holds it and its
      `prev` link is clear. */
  ghost predicate Fit(m: Mem, a: Sched) {
    && Sound(a) && Wired(m, a) && Accounted(m, a)
    && (a.cur != null ==> a.cur in m.link && m.link[a.cur].state == Running && m.link[a.cur].prev == null)
  }

  /** What schedule() may be called with: the running task is still marked RUNNING and on no
      list, or already parked on a list other than a run queue. */
  ghost predicate Ready(m: Mem, a: Sched) {
    && |a.rq| == LEVELS == |m.heads| && Lists(a) && Wired(m, a) && Accounted(m, a)
    && (a.cur != null ==> a.cur in m.link && !Queued(a, a.cur))
    && (a.cur != null && m.link[a.cur].state == Running ==> Sound(a) && m.link[a.cur].prev == null)
    && (a.cur != null && m.link[a.cur].state != Running ==> a.cur != a.idle && OnList(a, a.cur))
  }

  predicate Requeue(m: Mem, a: Sched) {
    a.cur != null && a.cur in m.link && m.link[a.cur].state == Running
  }

  /** The stores of scheduler_pick_next. */
  function Picked(m: Mem, a: Sched): Mem
    requires |a.rq| == LEVELS && |m.heads| == LEVELS && Next(a) in m.link
  {
    if Top(a.rq, LEVELS - 1) < 0 then m else Dequeued(m, Next(a))
  }

  /** The stores of schedule(). */
  function Scheduled(m: Mem, a: Sched): Mem
    requires |a.rq| == LEVELS && |m.heads| == LEVELS && Next(a) in m.link
  {
    if Next(a) == a.cur then Picked(m, a) else Switched(Picked(m, a), Next(a), a.cur)
  }

  lemma PopWired(m: Mem, a: Sched)
    requires Wired(m, a) && Lists(a) && a.idle in m.link
    ensures Next(a) in m.link
    ensures |a.rq| == LEVELS == |m.heads|
    ensures var d := Picked(m, a);
            && Wired(d, a.(rq := Popped(a.rq)))
            && d.link.Keys == m.link.Keys
            && (forall u :: u in d.link && !Queued(a, u) ==> d.link[u] == m.link[u])
            && (if Top(a.rq, LEVELS - 1) >= 0 then d.link[Next(a)].prev == null
                else Next(a) == a.idle && !OnList(a, a.idle))
  {
    assert |a.rq| == LEVELS;
    hide Wired, Lists, Dequeued;
    NextIsFree(a);
    if Top(a.rq, LEVELS - 1) >= 0 {
      HeadLeaves(m, a);
    } else {
      assert a.rq == Popped(a.rq);
    }
  }

  lemma SwitchFit(d: Mem, a: Sched, requeue: bool)
    requires |a.rq| == LEVELS && a.cur != Next(a) && Next(a) in d.link && (requeue ==> a.cur != null)
    requires var b := a.(rq := Popped(a.rq));
             && Wired(d, b) && Lists(b) && AsleepAtMost(b, Next(a)) && Next(a) !in b.sq
    requires a.cur != null ==> a.cur in d.link
    requires requeue <==> a.cur != null && d.link[a.cur].state == Running
    requires requeue ==> !Queued(a.(rq := Popped(a.rq)), a.cur) && a.cur !in a.sq && !Waiting(a, a.cur)
    ensures Wired(Switched(d, Next(a), a.cur), Dispatch(a, requeue))
  {
    SwitchWired(d, a.(rq := Popped(a.rq)), Next(a), a.cur);
  }

  /** schedule() turns memory that is ready for it into memory that fits the dispatched state. */
  lemma ScheduleFit(m: Mem, a: Sched)
    requires Ready(m, a)
    ensures Next(a) in m.link
    ensures Fit(Scheduled(m, a), Dispatch(a, Requeue(m, a)))
  {
    hide Wired, Lists, Levelled, Next, Popped, Top, Picked, Switched, AsleepAtMost;
    var next, requeue := Next(a), Requeue(m, a);
    DispatchSound(a, requeue);
    NextLoose(a);
    PopWired(m, a);
    var d := Picked(m, a);
    if next != a.cur {
      SwitchFit(d, a, requeue);
      SwitchFrame(d, a.(rq := Popped(a.rq)), next, a.cur);
    }
  }

  /** The pointers schedule() dereferences are tasks it knows. */
  lemma SchedulePointers(m: Mem, a: Sched)
    requires Ready(m, a)
    ensures |a.rq| == LEVELS && Lists(a) && Wired(m, a)
    ensures a.idle in m.link && Next(a) in m.link && (a.cur != null ==> a.cur in m.link)
    ensures var d := Picked(m, a);
            && |d.heads| == LEVELS && d.link.Keys == m.link.Keys
            && (a.cur != null && d.heads[Level(a.cur)] != null ==>
                  d.heads[Level(a.cur)] in d.link && d.heads[Level(a.cur)] != a.cur)
  {
    NextLoose(a);
    PopWired(m, a);
    if a.cur != null {
      var d := Picked(m, a);
      var b, p := a.(rq := Popped(a.rq)), Level(a.cur);
      HeadSet(d, b, p);
      if d.heads[p] != null {
        assert d.heads[p] in b.rq[p] && Queued(b, d.heads[p]) && TwoWay(d.link, d.heads[p], b.rq[p]);
      }
    }
  }

  // ------------------------------------------------------------------ a task that is nowhere

  /** As `Fit`, except that `t` is known to the kernel but in no place. */
  ghost predicate FitBut(m: Mem, a: Sched, t: Task) {
    && Sound(a) && Wired(m, a)
    && t in m.link && !Placed(a, t) && t != a.idle
    && (forall u :: u in m.link ==> Placed(a, u) || u == a.idle || u == t)
    && a.idle in m.link
    && (!Placed(a, a.idle) ==> m.link[a.idle].state == Runnable && m.link[a.idle].prev == null)
    && (a.cur != null ==> a.cur in m.link && m.link[a.cur].state == Running && m.link[a.cur].prev == null)
  }

  lemma Loose(a: Sched, t: Task)
    requires Lists(a) && !OnList(a, t)
    ensures AsleepAtMost(a, t) && t !in a.sq
  {
    forall q | 0 <= q < LEVELS ensures t !in a.rq[q] { assert t in a.rq[q] ==> Queued(a, t); }
    forall n | n in a.wl ensures t !in a.wl[n] { assert t in a.wl[n] ==> Waiting(a, t); }
  }

  lemma FitButStored(m: Mem, a: Sched, t: Task, k: Link)
    requires FitBut(m, a, t)
    ensures FitBut(m.(link := m.link[t := k]), a, t)
  {
    Loose(a, t);
    LooseStored(m, a, t, k);
    hide Wired, Lists;
  }

  /** task_enqueue puts such a task in its place. */
  lemma EnterFit(m: Mem, a: Sched, t: Task)
    requires FitBut(m, a, t)
    ensures |m.heads| == LEVELS == |a.rq|
    ensures m.heads[Level(t)] != null ==> m.heads[Level(t)] in m.link && m.heads[Level(t)] != t
    ensures Fit(Enqueued(m, t), a.(rq := Push(a.rq, t)))
  {
    UnlistedCanPush(a, t);
    EnqueueWired(m, a, t);
    PushLists(a, t);
    var p := Level(t);
    HeadSet(m, a, p);
    assert m.heads[p] != null ==> m.heads[p] in a.rq[p] && Queued(a, m.heads[p]) && TwoWay(m.link, m.heads[p], a.rq[p]);
    hide Wired, Lists;
  }

  /** The run queue a waiter is put into does not hold it yet. */
  lemma WaiterHead(m: Mem, a: Sched, t: Task)
    requires Fit(m, a) && Waiting(a, t)
    ensures |m.heads| == LEVELS == |a.rq| && t in m.link
    ensures m.heads[Level(t)] != null ==> m.heads[Level(t)] in m.link && m.heads[Level(t)] != t
  {
    var p := Level(t);
    var n :| n in a.wl && t in a.wl[n];
    var i :| 0 <= i < |a.wl[n]| && a.wl[n][i] == t;
    assert Apart(a, a.wl[n]) && !Queued(a, t) && InState(m.link, a.wl[n], Blocked);
    HeadSet(m, a, p);
    assert m.heads[p] != null ==> m.heads[p] in a.rq[p] && TwoWay(m.link, m.heads[p], a.rq[p]);
  }

  lemma SleepersLoose(a: Sched)
    requires Lists(a)
    ensures forall u :: u in a.sq ==> AsleepAtMost(a, u)
  {
    forall u | u in a.sq ensures AsleepAtMost(a, u) {
      forall q | 0 <= q < LEVELS ensures u !in a.rq[q] { assert u in a.rq[q] ==> Queued(a, u); }
      forall n | n in a.wl ensures u !in a.wl[n] { assert Apart(a, a.wl[n]); }
    }
  }

  lemma SleeperFacts(m: Mem, a: Sched, i: nat)
    requires Wired(m, a) && Lists(a) && i < |a.sq|
    ensures TwoWay(m.link, m.sleep, a.sq) && NoDup(a.sq) && InState(m.link, a.sq, Sleeping)
    ensures a.sq[i] in m.link && m.link[a.sq[i]].state == Sleeping && a.idle !in a.sq
    ensures a.sq[i] in a.wake && a.wake[a.sq[i]] == m.link[a.sq[i]].wake
    ensures var k := m.link[a.sq[i]];
            && (k.prev != null ==> k.prev in m.link && k.prev != a.sq[i])
            && (k.next != null ==> k.next in m.link && k.next != a.sq[i])
            && k.next == (if i + 1 < |a.sq| then a.sq[i + 1] else null)
  {
    assert a.sq[i] in a.sq;
    Neighbours(m.link, m.sleep, a.sq, i);
    if i > 0 { assert a.sq[i - 1] in m.link; }
    if i + 1 < |a.sq| { assert a.sq[i + 1] in m.link; }
  }

  /** Unlinking a sleeper leaves it nowhere. */
  lemma UnsleptBut(m: Mem, a: Sched, i: nat)
    requires Fit(m, a) && i < |a.sq|
    ensures a.sq[i] in m.link
    ensures FitBut(Unslept(m, a.sq[i]), a.(sq := Drop(a.sq, i)), a.sq[i])
  {
    hide Wired, Lists, TwoWay, InState, Cut, AsleepAtMost, Queued, Waiting;
    SleepersLoose(a);
    SleeperFacts(m, a, i);
    UnsleptWired(m, a, i);
    DropSleeper(a, i);
    CutFrame(m.link, m.sleep, a.sq, i);
  }

  lemma WaiterFacts(m: Mem, a: Sched, n: Semaphore)
    requires Wired(m, a) && Lists(a) && n in a.wl && a.wl[n] != []
    ensures n in m.sems && a.wl[n][0] in m.link && m.link[a.wl[n][0]].state == Blocked
    ensures a.wl[n][0] != a.idle && Waiting(a, a.wl[n][0])
  {
    assert a.wl[n][0] in a.wl[n] && Apart(a, a.wl[n]) && InState(m.link, a.wl[n], Blocked);
  }

  /** Advancing a waiter list leaves its first task nowhere. */
  lemma UnwaitBut(m: Mem, a: Sched, n: Semaphore)
    requires Fit(m, a) && n in a.wl && a.wl[n] != []
    ensures var t := a.wl[n][0];
            && n in m.sems && m.sems[n].waiters == t && t in m.link && m.link[t].state == Blocked
            && FitBut(m.(sems := m.sems[n := m.sems[n].(waiters := m.link[t].next)]),
                      a.(wl := a.wl[n := a.wl[n][1..]]), t)
  {
    hide Wired, Lists, Queued;
    WaiterFacts(m, a, n);
    UnwaitWired(m, a, n);
    UnwaitLists(a, n);
    hide Waiting;
  }

  lemma SleepHead(m: Mem, a: Sched)
    requires Wired(m, a)
    ensures m.sleep != null ==> m.sleep in a.sq && m.sleep in m.link
  {
  }

  /** After the stores of task_sleep, memory is ready for schedule(). */
  lemma SleepReady(m: Mem, a: Sched, w: nat, n: Mem, b: Sched)
    requires Fit(m, a) && a.cur != null && a.cur != a.idle && |a.rq| == LEVELS == |m.heads|
    requires n == PutToSleep(m, a.cur, w) && b == a.(sq := [a.cur] + a.sq, wake := a.wake[a.cur := w])
    ensures m.sleep != null ==> m.sleep in m.link && m.sleep != a.cur
    ensures Ready(n, b) && !Requeue(n, b)
  {
    SleepHead(m, a);
    assert NoDup(a.sq) && a.idle !in a.sq;
    hide Wired, Lists, AsleepAtMost, Queued, Waiting, NoDup;
    SleepersLoose(a);
    Loose(a, a.cur);
    SleepWiredAfter(m, a, a.cur, w);
    ParkAsleep(a, b);
    assert OnList(b, b.cur);
    hide OnList;
  }

  /** After the stores of semaphore_wait, memory is ready for schedule(). */
  lemma WaitReady(m: Mem, a: Sched, n: Semaphore, k: Mem, b: Sched)
    requires Fit(m, a) && a.cur != null && a.cur != a.idle && n in a.wl && n in m.sems && |a.rq| == LEVELS == |m.heads|
    requires k == PutToWait(m, a.cur, n) && b == a.(wl := a.wl[n := [a.cur] + a.wl[n]])
    ensures Ready(k, b) && !Requeue(k, b)
  {
    hide Wired, Lists, AsleepAtMost, Queued, Waiting;
    Loose(a, a.cur);
    WaitWiredAfter(m, a, a.cur, n);
    ParkWaiting(a, n, b);
    assert OnList(b, b.cur);
    hide OnList;
  }

  lemma FitFacts(m: Mem, a: Sched)
    requires Fit(m, a)
    ensures |a.rq| == LEVELS == |m.heads| && m.sems.Keys == a.wl.Keys
    ensures a.cur != null ==> a.cur in m.link && m.link[a.cur].prev == null
  {
  }

  lemma FitSound(m: Mem, a: Sched)
    requires Fit(m, a)
    ensures Sound(a)
  {
  }

  lemma FitIsReady(m: Mem, a: Sched)
    requires Fit(m, a)
    ensures Ready(m, a) && |a.rq| == LEVELS && (Requeue(m, a) <==> a.cur != null)
  {
  }

  /** A task's state names the one place it is in. */
  lemma StateNamesPlace(m: Mem, a: Sched, t: Task)
    requires Fit(m, a) && t in m.link
    ensures m.link[t].state == Running <==> t == a.cur
    ensures m.link[t].state == Sleeping <==> t in a.sq
    ensures m.link[t].state == Blocked <==> Waiting(a, t)
    ensures m.link[t].state == Runnable <==> Queued(a, t) || (t == a.idle && !Placed(a, t))
    ensures m.link[t].state != Stopped
  {
    if Queued(a, t) {
      var l := a.rq[Level(t)];
      var i :| 0 <= i < |l| && l[i] == t;
      assert InState(m.link, l, Runnable);
    } else if t in a.sq {
      var i :| 0 <= i < |a.sq| && a.sq[i] == t;
    } else if Waiting(a, t) {
      var n :| n in a.wl && t in a.wl[n];
      var i :| 0 <= i < |a.wl[n]| && a.wl[n][i] == t;
      assert InState(m.link, a.wl[n], Blocked) && Apart(a, a.wl[n]);
    }
  }

  lemma SleeperOfFit(m: Mem, a: Sched, i: nat)
    requires Fit(m, a) && i < |a.sq|
    ensures NoDup(a.sq) && a.sq[i] in m.link && |a.rq| == LEVELS
    ensures var k := m.link[a.sq[i]];
            && (k.prev != null ==> k.prev in m.link && k.prev != a.sq[i])
            && (k.next != null ==> k.next in m.link && k.next != a.sq[i])
            && k.next == (if i + 1 < |a.sq| then a.sq[i + 1] else null)
    ensures a.sq[i] in a.wake && a.wake[a.sq[i]] == m.link[a.sq[i]].wake
  {
    SleeperFacts(m, a, i);
  }

  /** A task unknown so far is nowhere. */
  lemma NewIsLoose(m: Mem, a: Sched, t: Task, k: Link)
    requires Fit(m, a) && t !in m.link
    ensures FitBut(m.(link := m.link[t := k]), a, t)
  {
    NotListed(m, a, t);
    Loose(a, t);
    LooseStored(m, a, t, k);
    hide Wired, Lists;
  }

  lemma NotListed(m: Mem, a: Sched, t: Task)
    requires Wired(m, a) && t !in m.link
    ensures !OnList(a, t)
  {
    assert forall p, i :: 0 <= p < LEVELS && 0 <= i < |a.rq[p]| ==> a.rq[p][i] in m.link;
    assert forall n, i :: n in a.wl && 0 <= i < |a.wl[n]| ==> a.wl[n][i] in m.link;
  }

  lemma FitButFacts(m: Mem, a: Sched, t: Task)
    requires FitBut(m, a, t)
    ensures t in m.link && |a.rq| == LEVELS == |m.heads|
  {
  }

  lemma TickCountIsNoList(m: Mem, a: Sched, now: nat)
    requires Fit(m, a) && now < WORD
    ensures Fit(m, a.(tick := now))
  {
    hide Lists, Wired, OnList;
    NewTick(a, now);
    WiredSame(m, a, a.(tick := now));
  }

  lemma WiredSame(m: Mem, a: Sched, b: Sched)
    requires Wired(m, a) && b == a.(cur := b.cur, tick := b.tick)
    ensures Wired(m, b)
  {
    hide TwoWay, Chain, InState;
  }

  lemma SleepHeadOfFit(m: Mem, a: Sched)
    requires Fit(m, a)
    ensures m.sleep == if a.sq == [] then null else a.sq[0]
  {
  }

  lemma InitWired(m: Mem, a: Sched, n: Semaphore, v: int)
    requires Wired(m, a) && (n in a.wl ==> a.wl[n] == [])
    ensures Wired(m.(sems := m.sems[n := Sem(v, null)]), SemInit(a, n, v))
  {
    assert Chain(m.link, null, []) && InState(m.link, [], Blocked);
    hide TwoWay, Chain, InState;
  }

  /** semaphore_init on a semaphore nobody waits for. */
  lemma InitFit(m: Mem, a: Sched, n: Semaphore, v: int)
    requires Fit(m, a) && (n in a.wl ==> a.wl[n] == [])
    ensures Fit(m.(sems := m.sems[n := Sem(v, null)]), SemInit(a, n, v))
  {
    hide Wired, Sound, Placed;
    InitWired(m, a, n, v);
    InitSound(a, n, v);
  }

  /** semaphore_init under waiters leaves tasks the kernel knows in no place. */
  lemma InitUnfit(m: Mem, a: Sched, n: Semaphore, v: int)
    requires Fit(m, a) && n in a.wl && a.wl[n] != []
    ensures !Fit(m.(sems := m.sems[n := Sem(v, null)]), SemInit(a, n, v))
  {
    var t := a.wl[n][0];
    assert t in a.wl[n] && Apart(a, a.wl[n]) && InState(m.link, a.wl[n], Blocked);
    InitForgets(a, n, v, t);
    hide Wired, Sound, Placed, SemInit;
  }

  lemma CountWired(m: Mem, a: Sched, n: Semaphore, v: int)
    requires Wired(m, a) && n in a.wl && n in m.sems
    ensures Wired(m.(sems := m.sems[n := m.sems[n].(count := v)]), a.(count := a.count[n := v]))
  {
    hide TwoWay, Chain, InState;
  }

  /** A semaphore's count changes without its waiters. */
  lemma CountFit(m: Mem, a: Sched, n: Semaphore, v: int)
    requires Fit(m, a) && n in a.wl && n in m.sems
    ensures Fit(m.(sems := m.sems[n := m.sems[n].(count := v)]), a.(count := a.count[n := v]))
  {
    hide Wired, Lists, OnList;
    CountWired(m, a, n, v);
    NewCount(a, n, v);
  }

  lemma SemCount(m: Mem, a: Sched, n: Semaphore)
    requires Fit(m, a) && n in a.wl
    ensures n in m.sems && n in a.count && m.sems[n].count == a.count[n]
    ensures m.sems[n].waiters == if a.wl[n] == [] then null else a.wl[n][0]
  {
    assert Chain(m.link, m.sems[n].waiters, a.wl[n]);
  }

  /** The tasks the kernel knows are those in some place, and the idle task. */
  lemma KnownIfPlaced(m: Mem, a: Sched, t: Task)
    requires Fit(m, a)
    ensures t in m.link <==> Placed(a, t) || t == a.idle
  {
    if t !in m.link { NotListed(m, a, t); }
  }
}
