/**
 The scheduler and the semaphores as one value: which list holds which task, and what every
 kernel call does to those lists.  The Kernel class carries this value as its abstract state.
 */
module SchedulerModel {
  import opened Sequences
  import opened Tasks

  const WORD: nat := 0x1_0000_0000

  /** Arithmetic in uint32_t. */
  function Wrap(x: nat): (r: nat)
    ensures r < WORD
    ensures x < WORD ==> r == x
  {
    x % WORD
  }

  /** `rq` run queues by level, `sq` sleep queue, `wl` waiters of each semaphore, `cur` the
      running task, `wake` the recorded wake times. */
  datatype Sched = Sched(
    rq: seq<seq<Task>>, sq: seq<Task>, wl: map<Semaphore, seq<Task>>, count: map<Semaphore, int>,
    wake: map<Task, nat>, cur: Task?, tick: nat, idle: Task)

  // ------------------------------------------------------------------ places

  predicate Queued(s: Sched, t: Task) {
    Level(t) < |s.rq| && t in s.rq[Level(t)]
  }

  predicate Waiting(s: Sched, t: Task) {
    exists m :: m in s.wl && t in s.wl[m]
  }

  predicate OnList(s: Sched, t: Task) {
    Queued(s, t) || t in s.sq || Waiting(s, t)
  }

  /** The tasks the kernel has somewhere: in a queue, on a waiter list or running. */
  predicate Placed(s: Sched, t: Task) {
    OnList(s, t) || t == s.cur
  }

  predicate Levelled(rq: seq<seq<Task>>) {
    && |rq| == LEVELS
    && (forall p :: 0 <= p < LEVELS ==> NoDup(rq[p]))
    && (forall p, t :: 0 <= p < LEVELS && t in rq[p] ==> Level(t) == p)
  }

  predicate Disjoint(a: seq<Task>, b: seq<Task>) {
    forall t :: t in a ==> t !in b
  }

  /** The waiter list `w` shares no task with the run and sleep queues. */
  predicate Apart(s: Sched, w: seq<Task>) {
    forall t :: t in w ==> !Queued(s, t) && t !in s.sq && t != s.idle
  }

  /** No task is on two lists or twice on one; and, so that it can be run whenever nothing is queued,
      the idle task neither sleeps nor waits. */
  ghost predicate Lists(s: Sched) {
    && Levelled(s.rq)
    && s.tick < WORD
    && NoDup(s.sq)
    && (forall t :: t in s.sq ==> !Queued(s, t) && t in s.wake && t != s.idle)
    && (forall m :: m in s.wl ==> m in s.count && NoDup(s.wl[m]) && Apart(s, s.wl[m]))
    && (forall m, n :: m in s.wl && n in s.wl && m != n ==> Disjoint(s.wl[m], s.wl[n]))
  }

  /** Besides, the running task is on no list: no task is in two places. */
  ghost predicate Sound(s: Sched) {
    && Lists(s)
    && (s.cur != null ==> !OnList(s, s.cur))
  }

  // ------------------------------------------------------------------ operations

  function Push(rq: seq<seq<Task>>, t: Task): seq<seq<Task>>
    requires |rq| == LEVELS
  {
    rq[Level(t) := [t] + rq[Level(t)]]
  }

  /** The highest level at or below `p` with a task in it, or -1. */
  function Top(rq: seq<seq<Task>>, p: int): (r: int)
    requires |rq| == LEVELS && -1 <= p < LEVELS
    ensures -1 <= r <= p
    ensures r >= 0 ==> rq[r] != []
    ensures forall q :: r < q <= p ==> rq[q] == []
    decreases p
  {
    if p < 0 || rq[p] != [] then p else Top(rq, p - 1)
  }

  function Next(s: Sched): Task
    requires |s.rq| == LEVELS
  {
    var p := Top(s.rq, LEVELS - 1);
    if p < 0 then s.idle else s.rq[p][0]
  }

  function Popped(rq: seq<seq<Task>>): seq<seq<Task>>
    requires |rq| == LEVELS
  {
    var p := Top(rq, LEVELS - 1);
    if p < 0 then rq else rq[p := rq[p][1..]]
  }

  /** schedule(): `requeue` says whether the outgoing task is still marked RUNNING. */
  function Dispatch(s: Sched, requeue: bool): Sched
    requires |s.rq| == LEVELS
    requires requeue ==> s.cur != null
  {
    var next := Next(s);
    var rq := Popped(s.rq);
    if next == s.cur then s.(rq := rq)
    else s.(cur := next, rq := if requeue then Push(rq, s.cur) else rq)
  }

  function Yield(s: Sched): Sched
    requires |s.rq| == LEVELS
  {
    Dispatch(s, s.cur != null)
  }

  function Sleep(s: Sched, ticks: nat): Sched
    requires |s.rq| == LEVELS
  {
    if s.cur == null then s else
    Dispatch(s.(sq := [s.cur] + s.sq, wake := s.wake[s.cur := Wrap(s.tick + ticks)]), false)
  }

  /** task_wake: a task that waits is queued where it stands, still on its waiter list. */
  function Wake(s: Sched, t: Task): Sched
    requires |s.rq| == LEVELS
  {
    if t in s.sq then s.(sq := Without(s.sq, t), rq := Push(s.rq, t))
    else if Waiting(s, t) then s.(rq := Push(s.rq, t))
    else s
  }

  predicate Due(wake: map<Task, nat>, t: Task, now: nat) {
    t in wake && now >= wake[t]
  }

  /** The sleepers a tick leaves asleep. */
  function Rest(l: seq<Task>, wake: map<Task, nat>, now: nat): (r: seq<Task>)
    ensures forall t :: t in r ==> t in l && !Due(wake, t, now)
    ensures forall t :: t in l && !Due(wake, t, now) ==> t in r
    ensures NoDup(l) ==> NoDup(r)
  {
    if l == [] then [] else
    var r := Rest(l[1..], wake, now);
    if Due(wake, l[0], now) then r else [l[0]] + r
  }

  /** The run queues after a tick has moved every due sleeper, in sleep-queue order. */
  function Release(rq: seq<seq<Task>>, l: seq<Task>, wake: map<Task, nat>, now: nat): (r: seq<seq<Task>>)
    requires |rq| == LEVELS
    ensures |r| == LEVELS
    decreases |l|
  {
    if l == [] then rq
    else Release(if Due(wake, l[0], now) then Push(rq, l[0]) else rq, l[1..], wake, now)
  }

  function Tick(s: Sched): Sched
    requires |s.rq| == LEVELS
  {
    var now := Wrap(s.tick + 1);
    s.(tick := now, sq := Rest(s.sq, s.wake, now), rq := Release(s.rq, s.sq, s.wake, now))
  }

  /** Half-way through the sweep of a tick at time `now` that began in state `a`: the first `i`
      sleepers of `s` stay, the others are still to be looked at. */
  predicate Sweep(s: Sched, a: Sched, now: nat, i: nat) {
    && |a.rq| == |s.rq| == LEVELS && i <= |s.sq|
    && s == a.(tick := now, sq := s.sq, rq := s.rq)
    && s.sq[..i] + Rest(s.sq[i..], a.wake, now) == Rest(a.sq, a.wake, now)
    && Release(s.rq, s.sq[i..], a.wake, now) == Release(a.rq, a.sq, a.wake, now)
  }

  lemma SweepStart(a: Sched, s: Sched, now: nat)
    requires |a.rq| == LEVELS && s == a.(tick := now)
    ensures Sweep(s, a, now, 0)
  {
    assert s.sq[0..] == s.sq;
  }

  lemma SweepDue(s: Sched, a: Sched, now: nat, i: nat)
    requires Sweep(s, a, now, i) && i < |s.sq| && Due(a.wake, s.sq[i], now)
    ensures Sweep(s.(sq := Drop(s.sq, i), rq := Push(s.rq, s.sq[i])), a, now, i)
  {
    var r := Drop(s.sq, i);
    assert r[..i] == s.sq[..i] && r[i..] == s.sq[i..][1..];
  }

  lemma StayFirst(rq: seq<seq<Task>>, x: Task, rest: seq<Task>, wake: map<Task, nat>, now: nat)
    requires |rq| == LEVELS && !Due(wake, x, now)
    ensures Rest([x] + rest, wake, now) == [x] + Rest(rest, wake, now)
    ensures Release(rq, [x] + rest, wake, now) == Release(rq, rest, wake, now)
  {
    assert ([x] + rest)[1..] == rest;
  }

  lemma SweepStay(s: Sched, a: Sched, now: nat, i: nat)
    requires Sweep(s, a, now, i) && i < |s.sq| && !Due(a.wake, s.sq[i], now)
    ensures Sweep(s, a, now, i + 1)
  {
    hide Rest, Release;
    var x, rest := s.sq[i], s.sq[i + 1..];
    assert s.sq[i..] == [x] + rest;
    StayFirst(s.rq, x, rest, a.wake, now);
    assert s.sq[..i + 1] == s.sq[..i] + [x];
  }

  lemma SweepDone(s: Sched, a: Sched)
    requires Sweep(s, a, Wrap(a.tick + 1), |s.sq|)
    ensures s == Tick(a)
  {
    assert s.sq[|s.sq|..] == [] && s.sq[..|s.sq|] == s.sq;
  }

  function SemInit(s: Sched, m: Semaphore, v: int): Sched {
    s.(wl := s.wl[m := []], count := s.count[m := v])
  }

  function SemWait(s: Sched, m: Semaphore): Sched
    requires |s.rq| == LEVELS && m in s.wl && m in s.count
  {
    if s.cur == null then s
    else if s.count[m] > 0 then s.(count := s.count[m := s.count[m] - 1])
    else Dispatch(s.(wl := s.wl[m := [s.cur] + s.wl[m]]), false)
  }

  function SemSignal(s: Sched, m: Semaphore): Sched
    requires |s.rq| == LEVELS && m in s.wl && m in s.count
  {
    if s.wl[m] == [] then s.(count := s.count[m := s.count[m] + 1])
    else s.(wl := s.wl[m := s.wl[m][1..]], rq := Push(s.rq, s.wl[m][0]))
  }

  // ------------------------------------------------------------------ runs

  datatype Event =
    | EnterE(task: Task) | YieldE | SleepE(ticks: nat) | WakeE(task: Task) | TickE
    | InitE(sem: Semaphore, value: int) | WaitE(sem: Semaphore) | SignalE(sem: Semaphore)

  /** What a caller must respect: enter a task once, initialise a semaphore before use and never
      under its waiters, do not put the idle task to sleep, and wake a waiter only through its
      semaphore.  InitSound and the lemmas of IdleTask say what breaks otherwise. */
  predicate Enabled(s: Sched, e: Event) {
    && |s.rq| == LEVELS
    && match e
       case EnterE(t) => !Placed(s, t) && t != s.idle
       case SleepE(n) => n < WORD && s.cur != s.idle
       case WakeE(t) => Placed(s, t) && !Waiting(s, t)
       case InitE(m, _) => m in s.wl ==> s.wl[m] == []
       case WaitE(m) => m in s.wl && m in s.count && (s.cur == s.idle ==> s.count[m] > 0)
       case SignalE(m) => m in s.wl && m in s.count
       case _ => true
  }

  function Step(s: Sched, e: Event): Sched
    requires Enabled(s, e)
  {
    match e
    case EnterE(t) => s.(rq := Push(s.rq, t))
    case YieldE => Yield(s)
    case SleepE(n) => Sleep(s, n)
    case WakeE(t) => Wake(s, t)
    case TickE => Tick(s)
    case InitE(m, v) => SemInit(s, m, v)
    case WaitE(m) => SemWait(s, m)
    case SignalE(m) => SemSignal(s, m)
  }

  /** Each event of `es` is enabled when its turn comes. */
  predicate Legal(s: Sched, es: seq<Event>)
    decreases |es|
  {
    es != [] ==> Enabled(s, es[0]) && Legal(Step(s, es[0]), es[1..])
  }

  function Run(s: Sched, es: seq<Event>): Sched
    requires Legal(s, es)
    decreases |es|
  {
    if es == [] then s else Run(Step(s, es[0]), es[1..])
  }

  // ------------------------------------------------------------------ every step keeps Sound

  lemma PushLevelled(rq: seq<seq<Task>>, t: Task)
    requires Levelled(rq) && t !in rq[Level(t)]
    ensures Levelled(Push(rq, t))
    ensures forall u :: u in Push(rq, t)[Level(u)] <==> u == t || u in rq[Level(u)]
  {
  }

  lemma PushLists(s: Sched, t: Task)
    requires Lists(s) && !OnList(s, t)
    ensures Lists(s.(rq := Push(s.rq, t)))
    ensures forall u :: OnList(s.(rq := Push(s.rq, t)), u) <==> u == t || OnList(s, u)
  {
    PushLevelled(s.rq, t);
    var r := s.(rq := Push(s.rq, t));
    forall m | m in r.wl ensures Apart(r, r.wl[m]) { assert Apart(s, s.wl[m]); }
  }

  lemma PushQueues(s: Sched, t: Task)
    requires |s.rq| == LEVELS
    ensures Queued(s.(rq := Push(s.rq, t)), t)
  {
  }

  lemma PoppedLevelled(rq: seq<seq<Task>>)
    requires Levelled(rq)
    ensures Levelled(Popped(rq))
    ensures var p := Top(rq, LEVELS - 1);
            forall u :: u in Popped(rq)[Level(u)] <==> u in rq[Level(u)] && !(p >= 0 && u == rq[p][0])
  {
    var p := Top(rq, LEVELS - 1);
    if p >= 0 {
      var l := rq[p];
      assert l == [l[0]] + l[1..];
      forall u | u in rq[Level(u)] && u != l[0] ensures u in Popped(rq)[Level(u)] {
        if Level(u) == p { assert u in l[1..]; }
      }
    }
  }

  lemma {:induction false} ReleaseLevelled(rq: seq<seq<Task>>, l: seq<Task>, wake: map<Task, nat>, now: nat)
    requires Levelled(rq) && NoDup(l)
    requires forall t :: t in l ==> t !in rq[Level(t)]
    ensures Levelled(Release(rq, l, wake, now))
    ensures forall u :: u in Release(rq, l, wake, now)[Level(u)] <==>
                        u in rq[Level(u)] || (u in l && Due(wake, u, now))
    decreases |l|
  {
    if l != [] {
      assert l == [l[0]] + l[1..];
      if Due(wake, l[0], now) {
        PushLevelled(rq, l[0]);
        ReleaseLevelled(Push(rq, l[0]), l[1..], wake, now);
      } else {
        ReleaseLevelled(rq, l[1..], wake, now);
      }
    }
  }

  lemma NextIsFree(s: Sched)
    requires Lists(s)
    ensures Next(s) == s.idle || Queued(s, Next(s))
    ensures !Waiting(s, Next(s)) && Next(s) !in s.sq
  {
    var p := Top(s.rq, LEVELS - 1);
    if p >= 0 { assert Queued(s, s.rq[p][0]); }
  }

  lemma PopLists(s: Sched, b: Sched)
    requires Lists(s) && b == s.(rq := Popped(s.rq))
    ensures Lists(b)
    ensures forall u :: Queued(b, u) <==> Queued(s, u) && u != Next(s)
    ensures forall u :: OnList(b, u) <==> OnList(s, u) && u != Next(s)
  {
    NextIsFree(s);
    PoppedLevelled(s.rq);
    forall m | m in b.wl ensures Apart(b, b.wl[m]) { assert Apart(s, s.wl[m]); }
  }

  lemma CurIsNoList(s: Sched, c: Task)
    requires Lists(s)
    ensures var r := s.(cur := c); Lists(r) && forall u :: OnList(r, u) <==> OnList(s, u)
  {
    var r := s.(cur := c);
    forall m | m in r.wl ensures Apart(r, r.wl[m]) { assert Apart(s, s.wl[m]); }
  }

  lemma NewTick(s: Sched, now: nat)
    requires Lists(s) && now < WORD
    ensures var r := s.(tick := now); Lists(r) && forall u :: OnList(r, u) <==> OnList(s, u)
  {
    var r := s.(tick := now);
    forall m | m in r.wl ensures Apart(r, r.wl[m]) { assert Apart(s, s.wl[m]); }
  }

  lemma NewCount(s: Sched, n: Semaphore, v: int)
    requires Lists(s)
    ensures var r := s.(count := s.count[n := v]); Lists(r) && forall u :: OnList(r, u) <==> OnList(s, u)
  {
    var r := s.(count := s.count[n := v]);
    forall m | m in r.wl ensures Apart(r, r.wl[m]) { assert Apart(s, s.wl[m]); }
  }

  lemma DispatchSound(s: Sched, requeue: bool)
    requires Lists(s) && (s.cur != null ==> !Queued(s, s.cur))
    requires if requeue then s.cur != null && Sound(s) else s.cur == null || s.cur != s.idle
    ensures var r := Dispatch(s, requeue);
            Sound(r) && r.cur == Next(s) && r.sq == s.sq && r.wl == s.wl && r.idle == s.idle
    ensures Next(s) == s.idle || Queued(s, Next(s))
    ensures forall u :: Placed(Dispatch(s, requeue), u) <==>
                        OnList(s, u) || (requeue && u == s.cur) || u == Next(s)
  {
    var b := s.(rq := Popped(s.rq));
    assert |s.rq| == |b.rq| == LEVELS;
    hide Lists, Popped, Top, Waiting;
    NextIsFree(s);
    PopLists(s, b);
    hide Queued, Next;
    if Next(s) != s.cur {
      if requeue {
        PushLists(b, s.cur);
        CurIsNoList(b.(rq := Push(b.rq, s.cur)), Next(s));
      } else {
        CurIsNoList(b, Next(s));
      }
    }
    hide OnList;
  }

  /** The running task linked into the sleep queue, before schedule() is called. */
  lemma ParkAsleep(s: Sched, t: Sched)
    requires Sound(s) && s.cur != null && s.cur != s.idle
    requires t == s.(sq := [s.cur] + s.sq, wake := t.wake)
    requires s.cur in t.wake && forall u :: u in s.wake ==> u in t.wake
    ensures Lists(t) && !Queued(t, t.cur)
    ensures forall u :: OnList(t, u) <==> Placed(s, u)
  {
    assert forall m :: m in t.wl ==> Apart(t, t.wl[m]) by {
      forall m | m in t.wl ensures Apart(t, t.wl[m]) {
        assert Apart(s, s.wl[m]) && s.cur !in s.wl[m];
      }
    }
  }

  /** The running task linked into a waiter list, before schedule() is called. */
  lemma ParkWaiting(s: Sched, m: Semaphore, t: Sched)
    requires Sound(s) && s.cur != null && s.cur != s.idle && m in s.wl
    requires t == s.(wl := s.wl[m := [s.cur] + s.wl[m]])
    ensures Lists(t) && !Queued(t, t.cur)
    ensures forall u :: OnList(t, u) <==> Placed(s, u)
  {
    assert forall n :: n in s.wl ==> s.cur !in s.wl[n];
    forall n | n in t.wl ensures NoDup(t.wl[n]) && Apart(t, t.wl[n]) {
      assert Apart(s, s.wl[n]);
    }
    forall k, n | k in t.wl && n in t.wl && k != n ensures Disjoint(t.wl[k], t.wl[n]) {
      assert Disjoint(s.wl[k], s.wl[n]);
    }
    assert forall u :: Queued(t, u) <==> Queued(s, u);
    assert Lists(t);
    hide Lists, Queued;
    WaitersAfter(s, m, t);
  }

  lemma WaitersAfter(s: Sched, m: Semaphore, t: Sched)
    requires s.cur != null && m in s.wl && t == s.(wl := s.wl[m := [s.cur] + s.wl[m]])
    ensures forall u :: Waiting(t, u) <==> Waiting(s, u) || u == s.cur
  {
    forall u | Waiting(s, u) ensures Waiting(t, u) {
      var n :| n in s.wl && u in s.wl[n];
      assert n in t.wl && u in t.wl[n];
    }
    assert m in t.wl && s.cur in t.wl[m];
  }

  lemma UnwaitLists(s: Sched, m: Semaphore)
    requires Lists(s) && m in s.wl && s.wl[m] != []
    ensures var r := s.(wl := s.wl[m := s.wl[m][1..]]);
            Lists(r) && forall u :: OnList(r, u) <==> OnList(s, u) && u != s.wl[m][0]
  {
    var l, r := s.wl[m], s.(wl := s.wl[m := s.wl[m][1..]]);
    DropMembers(l, 0);
    assert l[1..] == Drop(l, 0) && l[0] in l;
    forall n | n in r.wl ensures Apart(r, r.wl[n]) && l[0] !in r.wl[n] {
      assert Apart(s, s.wl[n]);
    }
    forall u | Waiting(s, u) && u != l[0] ensures Waiting(r, u) {
      var n :| n in s.wl && u in s.wl[n];
      assert n in r.wl && u in r.wl[n];
    }
  }

  lemma SignalSound(s: Sched, m: Semaphore)
    requires Sound(s) && m in s.wl
    ensures var r := SemSignal(s, m);
            && Sound(r) && r.idle == s.idle
            && (s.wl[m] != [] ==> Queued(r, s.wl[m][0]) && m in r.wl && s.wl[m] == [s.wl[m][0]] + r.wl[m])
            && (forall u :: Placed(s, u) <==> Placed(r, u))
  {
    if s.wl[m] != [] {
      UnwaitLists(s, m);
      assert s.wl[m][0] in s.wl[m];
      PushLists(s.(wl := s.wl[m := s.wl[m][1..]]), s.wl[m][0]);
    }
  }

  lemma DropSleeper(a: Sched, i: nat)
    requires Lists(a) && i < |a.sq|
    ensures var b := a.(sq := Drop(a.sq, i));
            Lists(b) && forall u :: OnList(b, u) <==> OnList(a, u) && u != a.sq[i]
  {
    DropMembers(a.sq, i);
    var b := a.(sq := Drop(a.sq, i));
    assert a.sq[i] in a.sq;
    forall n | n in b.wl ensures Apart(b, b.wl[n]) && a.sq[i] !in b.wl[n] { assert Apart(a, a.wl[n]); }
  }

  /** Waking loses no task, and keeps every task in one place exactly when it was not waiting. */
  lemma WakeSound(s: Sched, t: Task)
    requires Sound(s)
    ensures var r := Wake(s, t);
            && (Sound(r) <==> !Waiting(s, t)) && r.idle == s.idle
            && (forall u :: Placed(s, u) <==> Placed(r, u))
  {
    if t in s.sq {
      AsleepNotWaiting(s, t);
      var i :| 0 <= i < |s.sq| && s.sq[i] == t;
      WithoutIsDrop(s.sq, i);
      assert OnList(s, t);
      hide Lists, Queued, Waiting;
      DropSleeper(s, i);
      PushLists(s.(sq := Drop(s.sq, i)), t);
    } else if Waiting(s, t) {
      QueuedWaiter(s, t);
    }
  }

  lemma AsleepNotWaiting(s: Sched, t: Task)
    requires Lists(s) && t in s.sq
    ensures !Waiting(s, t)
  {
    forall m | m in s.wl ensures t !in s.wl[m] { assert Apart(s, s.wl[m]); }
  }

  /** A task queued while it waits is on two lists. */
  lemma QueuedWaiter(s: Sched, t: Task)
    requires Lists(s) && Waiting(s, t)
    ensures var r := s.(rq := Push(s.rq, t)); !Lists(r) && forall u :: OnList(s, u) <==> OnList(r, u)
  {
    var r := s.(rq := Push(s.rq, t));
    var m :| m in s.wl && t in s.wl[m];
    assert Apart(s, s.wl[m]) && Queued(r, t) && t in r.wl[m];
    assert !Apart(r, r.wl[m]);
    PushLevelled(s.rq, t);
    assert forall u :: Waiting(s, u) <==> Waiting(r, u);
  }

  /** Dispatching from a state in which the running task of `s` has been parked on a list. */
  lemma ParkedDispatch(s: Sched, t: Sched)
    requires Lists(t) && t.cur != null && !Queued(t, t.cur) && t.cur != t.idle && t.idle == s.idle
    requires forall u :: OnList(t, u) <==> Placed(s, u)
    ensures var r := Dispatch(t, false);
            && Sound(r) && r.idle == s.idle
            && (forall u :: Placed(s, u) ==> Placed(r, u))
            && (forall u :: Placed(r, u) ==> Placed(s, u) || u == s.idle)
  {
    assert |t.rq| == LEVELS;
    hide Lists, Dispatch, Queued, Waiting, Next, Placed, OnList;
    DispatchSound(t, false);
    ListedIfQueued(t, Next(t));
  }

  lemma ListedIfQueued(s: Sched, u: Task)
    ensures Queued(s, u) ==> OnList(s, u)
  {
  }

  /** Sleeping keeps the invariant, with its rule that the idle task is on no list, exactly when the
      caller is not the idle task; an idle task that sleeps goes on running, on the sleep queue,
      exactly when nothing is queued. */
  lemma SleepSound(s: Sched, n: nat)
    requires Sound(s)
    ensures var r := Sleep(s, n);
            && (Sound(r) <==> s.cur != s.idle)
            && (s.cur == s.idle ==> (r.cur in r.sq <==> Top(s.rq, LEVELS - 1) < 0))
            && r.idle == s.idle
            && (s.cur != s.idle ==> forall u :: Placed(s, u) ==> Placed(r, u))
            && (s.cur != s.idle ==> forall u :: Placed(r, u) ==> Placed(s, u) || u == s.idle)
  {
    hide Wrap;
    if s.cur == s.idle {
      IdleSleeps(s, n);
    } else if s.cur != null {
      var t := s.(sq := [s.cur] + s.sq, wake := s.wake[s.cur := Wrap(s.tick + n)]);
      assert Sleep(s, n) == Dispatch(t, false);
      ParkAsleep(s, t);
      hide Sleep, Dispatch, Lists, Placed, OnList;
      ParkedDispatch(s, t);
    }
  }

  lemma IdleSleeps(s: Sched, n: nat)
    requires Sound(s) && s.cur == s.idle
    ensures var r := Sleep(s, n);
            && !Lists(r) && r.idle == s.idle
            && (r.cur in r.sq <==> Top(s.rq, LEVELS - 1) < 0)
  {
    var p, r := Top(s.rq, LEVELS - 1), Sleep(s, n);
    assert s.idle in r.sq;
    if p >= 0 { assert Queued(s, s.rq[p][0]); }
  }

  /** Waiting keeps the invariant, with its rule that the idle task is on no list, exactly when the
      caller need not block or is not the idle task. */
  lemma WaitSound(s: Sched, m: Semaphore)
    requires Sound(s) && m in s.wl
    ensures m in s.count
    ensures var r := SemWait(s, m);
            && (Sound(r) <==> s.cur != s.idle || s.count[m] > 0)
            && r.idle == s.idle
            && (s.cur != s.idle || s.count[m] > 0 ==> forall u :: Placed(s, u) ==> Placed(r, u))
            && (s.cur != s.idle || s.count[m] > 0 ==> forall u :: Placed(r, u) ==> Placed(s, u) || u == s.idle)
  {
    if s.cur != null && s.count[m] <= 0 {
      if s.cur == s.idle {
        IdleWaits(s, m);
      } else {
        var t := s.(wl := s.wl[m := [s.cur] + s.wl[m]]);
        ParkWaiting(s, m, t);
        ParkedDispatch(s, t);
        hide Sound, Placed;
      }
    }
  }

  lemma IdleWaits(s: Sched, m: Semaphore)
    requires Sound(s) && m in s.wl && m in s.count && s.cur == s.idle && s.count[m] <= 0
    ensures !Lists(SemWait(s, m)) && SemWait(s, m).idle == s.idle
  {
    var r := SemWait(s, m);
    assert r.wl[m][0] == s.idle && s.idle in r.wl[m];
    assert !Apart(r, r.wl[m]);
  }

  lemma YieldSound(s: Sched)
    requires Sound(s)
    ensures var r := Yield(s);
            && Sound(r) && r.idle == s.idle
            && (forall u :: Placed(s, u) ==> Placed(r, u))
            && (forall u :: Placed(r, u) ==> Placed(s, u) || u == s.idle)
  {
    assert |s.rq| == LEVELS;
    hide Lists, Dispatch, Waiting;
    DispatchSound(s, s.cur != null);
  }

  /** Initialising a semaphore moves no task exactly when none waits on it; its waiters, if any,
      are in no place afterwards. */
  lemma InitSound(s: Sched, m: Semaphore, v: int)
    requires Sound(s)
    ensures var r := SemInit(s, m, v);
            && Sound(r)
            && ((forall u :: Placed(s, u) <==> Placed(r, u)) <==> !(m in s.wl && s.wl[m] != []))
  {
    hide Lists, Waiting, SemInit;
    InitLists(s, m, v);
    if m in s.wl && s.wl[m] != [] {
      InitForgets(s, m, v, s.wl[m][0]);
    } else {
      InitMovesNone(s, m, v);
    }
  }

  lemma InitLists(s: Sched, m: Semaphore, v: int)
    requires Lists(s)
    ensures var r := SemInit(s, m, v); Lists(r) && r.cur == s.cur && forall u :: OnList(r, u) ==> OnList(s, u)
  {
    var r := SemInit(s, m, v);
    forall n | n in r.wl ensures Apart(r, r.wl[n]) { assert n in s.wl ==> Apart(s, s.wl[n]); }
  }

  lemma InitMovesNone(s: Sched, m: Semaphore, v: int)
    requires m in s.wl ==> s.wl[m] == []
    ensures forall u :: OnList(SemInit(s, m, v), u) <==> OnList(s, u)
    ensures SemInit(s, m, v).cur == s.cur
  {
    var r := SemInit(s, m, v);
    forall u | Waiting(s, u) ensures Waiting(r, u) {
      var n :| n in s.wl && u in s.wl[n];
      assert n in r.wl && u in r.wl[n];
    }
  }

  lemma InitForgets(s: Sched, m: Semaphore, v: int, t: Task)
    requires Sound(s) && m in s.wl && t in s.wl[m]
    ensures Placed(s, t) && !Placed(SemInit(s, m, v), t)
  {
    var r := SemInit(s, m, v);
    assert Waiting(s, t) && Apart(s, s.wl[m]);
    forall n | n in r.wl ensures t !in r.wl[n] {
      assert n != m ==> Disjoint(s.wl[n], s.wl[m]);
    }
  }

  lemma TickSound(s: Sched)
    requires Sound(s)
    ensures Sound(Tick(s)) && Tick(s).idle == s.idle
    ensures forall u :: Placed(s, u) <==> Placed(Tick(s), u)
  {
    ReleaseLevelled(s.rq, s.sq, s.wake, Wrap(s.tick + 1));
    var r := Tick(s);
    forall m | m in r.wl ensures Apart(r, r.wl[m]) { assert Apart(s, s.wl[m]); }
  }

  /** Every kernel call keeps all lists duplicate-free and pairwise disjoint, and no task is
      lost or invented: exactly the entered task, or the idle task on its first run, is new. */
  lemma StepSound(s: Sched, e: Event)
    requires Sound(s) && Enabled(s, e)
    ensures Sound(Step(s, e)) && Step(s, e).idle == s.idle
    ensures forall u :: Placed(s, u) || e == EnterE(u) ==> Placed(Step(s, e), u)
    ensures forall u :: Placed(Step(s, e), u) ==> Placed(s, u) || u == s.idle || e == EnterE(u)
  {
    hide Lists, Queued, Yield, Sleep, Wake, Tick, SemWait, SemSignal;
    match e {
      case EnterE(t) => PushLists(s, t);
      case YieldE => YieldSound(s);
      case SleepE(n) => SleepSound(s, n);
      case WakeE(t) => WakeSound(s, t);
      case TickE => TickSound(s);
      case InitE(m, v) => InitSound(s, m, v);
      case WaitE(m) => WaitSound(s, m);
      case SignalE(m) => SignalSound(s, m);
    }
  }

  // ------------------------------------------------------------------ who is where

  /** `t` is on no run queue except possibly that at level `p`, does not sleep and does not wait. */
  predicate OnlyAt(s: Sched, t: Task, p: nat) {
    && |s.rq| == LEVELS && t !in s.sq
    && (forall q :: 0 <= q < LEVELS && q != p ==> t !in s.rq[q])
    && (forall m :: m in s.wl ==> t !in s.wl[m])
  }

  /** `t` is on no run queue and waits nowhere. */
  predicate AsleepAtMost(s: Sched, t: Task) {
    && |s.rq| == LEVELS
    && (forall q :: 0 <= q < LEVELS ==> t !in s.rq[q])
    && (forall m :: m in s.wl ==> t !in s.wl[m])
  }

  /** The run queue at level `p` repeats nothing and shares nothing with another list. */
  predicate LevelApart(s: Sched, p: nat) {
    && |s.rq| == LEVELS && p < LEVELS && NoDup(s.rq[p])
    && (forall u :: u in s.rq[p] ==> OnlyAt(s, u, p))
  }

  /** `t` is nowhere, and nothing at its level is anywhere else. */
  predicate CanPush(s: Sched, t: Task) {
    OnlyAt(s, t, Level(t)) && t !in s.rq[Level(t)] && LevelApart(s, Level(t))
  }

  lemma LevelsApart(s: Sched)
    requires Lists(s)
    ensures forall p :: 0 <= p < LEVELS ==> LevelApart(s, p)
  {
    forall p, u | 0 <= p < LEVELS && u in s.rq[p] ensures OnlyAt(s, u, p) {
      assert Queued(s, u);
      forall m | m in s.wl ensures u !in s.wl[m] { assert Apart(s, s.wl[m]); }
    }
  }

  lemma UnlistedCanPush(s: Sched, t: Task)
    requires Lists(s) && !OnList(s, t)
    ensures CanPush(s, t)
  {
    LevelsApart(s);
  }
}
