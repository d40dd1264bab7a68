/** The scheduler and the semaphores over real link fields. */
module Scheduler {
  import opened Sequences
  import opened Tasks
  import opened SchedulerModel
  import opened KernelMemory

  class Kernel {
    var runnableQueue: array<Task?>
    var sleepQueue: Task?
    var current: Task?
    var tickCount: nat
    const idle: Task
    ghost var tasks: set<Task>
    var sems: map<Semaphore, Sem>
    ghost var s: Sched

    ghost function TaskFields(): Links
      reads this`tasks, tasks
    {
      map t | t in tasks :: t.Fields()
    }

    ghost function Image(): Mem
      reads this, runnableQueue, tasks
    {
      Mem(runnableQueue[..], sleepQueue, TaskFields(), sems)
    }

    /** The link fields spell out `s`. */
    ghost predicate Valid()
      reads this, runnableQueue, tasks
    {
      runnableQueue.Length == LEVELS && s.tick == tickCount && s.idle == idle && s.cur == current && Fit(Image(), s)
    }

    /** scheduler_init, with the idle task in place. */
    constructor (idle: Task)
      requires idle.state == Runnable && idle.prev == null
      ensures Valid() && fresh(runnableQueue) && tasks == {idle} && sems == map[]
      ensures s == Sched(seq(LEVELS, _ => []), [], map[], map[], map[], null, 0, idle)
    {
      this.idle := idle;
      runnableQueue := new Task?[LEVELS](_ => null);
      sleepQueue, current, tickCount := null, null, 0;
      tasks, sems := {idle}, map[];
      s := Sched(seq(LEVELS, _ => []), [], map[], map[], map[], null, 0, idle);
    }

    /** task_enqueue: whatever the task's links held, it becomes the head of its run queue. */
    method TaskEnqueue(t: Task)
      requires runnableQueue.Length == LEVELS && t in tasks
      requires runnableQueue[Level(t)] != null ==> runnableQueue[Level(t)] in tasks - {t}
      modifies runnableQueue, tasks
      ensures Image() == Enqueued(old(Image()), t)
    {
      var prio := Level(t);
      ghost var m := Image();
      t.next := runnableQueue[prio];
      t.prev := null;
      if runnableQueue[prio] != null {
        runnableQueue[prio].prev := t;
      }
      runnableQueue[prio] := t;
      t.state := Runnable;
      assert runnableQueue[..] == m.heads[prio := t];
      assert TaskFields() == Front(m.link, m.heads[prio], t, Runnable);
      hide Front, TaskFields, Level;
    }

    /** task_dequeue: unlinks a task from anywhere in its run queue and clears its links. */
    method TaskDequeue(t: Task)
      requires runnableQueue.Length == LEVELS && t in tasks
      requires t.prev != null ==> t.prev in tasks - {t}
      requires t.next != null ==> t.next in tasks - {t}
      modifies runnableQueue, tasks
      ensures Image() == Dequeued(old(Image()), t)
    {
      var prio := Level(t);
      ghost var m := Image();
      assert m.link[t] == t.Fields();
      if t.prev != null {
        t.prev.next := t.next;
      } else {
        runnableQueue[prio] := t.next;
      }
      if t.next != null {
        t.next.prev := t.prev;
      }
      t.next, t.prev := null, null;
      assert runnableQueue[..] == if m.link[t].prev == null then m.heads[prio := m.link[t].next] else m.heads;
      assert TaskFields() == Cut(m.link, t);
      hide Cut, TaskFields, Level;
    }

    /** The stores by which task_wake and scheduler_tick take a task out of the sleep queue. */
    method UnlinkSleeper(t: Task)
      requires t in tasks
      requires t.prev != null ==> t.prev in tasks - {t}
      requires t.next != null ==> t.next in tasks - {t}
      modifies this`sleepQueue, tasks
      ensures var m := Unslept(old(Image()), t);
              Image() == m.(link := m.link[t := old(t.Fields())])
    {
      ghost var m := Image();
      assert m.link[t] == t.Fields();
      JoinSleepers(t);
      if sleepQueue == t { sleepQueue := t.next; }
      hide Cut, TaskFields;
    }

    /** Its neighbours in the sleep queue are linked to each other. */
    method JoinSleepers(t: Task)
      requires t in tasks
      requires t.prev != null ==> t.prev in tasks - {t}
      requires t.next != null ==> t.next in tasks - {t}
      modifies tasks
      ensures TaskFields() == Cut(old(TaskFields()), t)[t := old(t.Fields())]
      ensures t.next == old(t.next)
    {
      ghost var l := TaskFields();
      assert l[t] == t.Fields();
      if t.prev != null { t.prev.next := t.next; }
      if t.next != null { t.next.prev := t.prev; }
      SameLinks(TaskFields(), Cut(l, t)[t := l[t]]);
    }

    /** scheduler_pick_next: the head of the highest non-empty run queue leaves it. */
    method PickNext(ghost a: Sched) returns (t: Task?)
      requires |a.rq| == runnableQueue.Length == LEVELS && Lists(a) && Wired(Image(), a) && Next(a) in tasks
      modifies runnableQueue, tasks
      ensures t == if Top(a.rq, LEVELS - 1) < 0 then null else Next(a)
      ensures Image() == Picked(old(Image()), a)
    {
      hide Wired, Lists, Dequeued, Popped, Queued;
      ghost var m := Image();
      var prio := LEVELS - 1;
      while prio >= 0 && runnableQueue[prio] == null
        invariant -1 <= prio < LEVELS && |a.rq| == LEVELS && Top(a.rq, prio) == Top(a.rq, LEVELS - 1)
        modifies {}
      {
        HeadSet(m, a, prio);
        prio := prio - 1;
      }
      if prio < 0 { return null; }
      HeadSet(m, a, prio);
      HeadLeaves(m, a);
      t := runnableQueue[prio];
      assert t.Fields() == m.link[t];
      TaskDequeue(t);
    }

    /** The stores of schedule() once the next task is known to differ from the running one. */
    method SwitchTo(next: Task, prev: Task?)
      requires runnableQueue.Length == LEVELS && next in tasks && next != prev
      requires prev != null ==> prev in tasks
      requires prev != null && runnableQueue[Level(prev)] != null ==> runnableQueue[Level(prev)] in tasks - {prev}
      modifies this`current, runnableQueue, tasks
      ensures Image() == Switched(old(Image()), next, prev) && current == next
    {
      ghost var m := Image();
      current := next;
      next.state := Running;
      assert TaskFields() == m.link[next := m.link[next].(state := Running)];
      if prev != null && prev.state == Running {
        ghost var n := Image();
        prev.state := Runnable;
        assert TaskFields() == n.link[prev := n.link[prev].(state := Runnable)];
        TaskEnqueue(prev);
      }
    }

    /** schedule(), called with the running task either still RUNNING or already parked. */
    method Schedule()
      requires runnableQueue.Length == LEVELS && s.tick == tickCount && s.idle == idle && s.cur == current
      requires Ready(Image(), s)
      modifies this`current, this`s, runnableQueue, tasks
      ensures Valid() && s == Dispatch(old(s), Requeue(old(Image()), old(s)))
    {
      hide Ready, Fit, Wired, Lists, Switched, Picked, Top, Popped, Push;
      ghost var m, a := Image(), s;
      ScheduleFit(m, a);
      SchedulePointers(m, a);
      var prev := current;
      var next := PickNext(a);
      if next == null { next := idle; }
      if next != prev {
        SwitchTo(next, prev);
      }
      s := Dispatch(a, Requeue(m, a));
    }

    /** task_yield, and the second half of the timer interrupt. */
    method TaskYield()
      requires Valid()
      modifies this`current, this`s, runnableQueue, tasks
      ensures Valid() && s == Yield(old(s))
    {
      FitIsReady(Image(), s);
      hide Fit, Ready, Dispatch;
      Schedule();
    }

    /** task_sleep.  The idle task never calls it. */
    method TaskSleep(ticks: nat)
      requires Valid() && current != idle
      modifies this`current, this`sleepQueue, this`s, runnableQueue, tasks
      ensures Valid() && s == Sleep(old(s), ticks)
    {
      hide Fit, Ready, Dispatch, Front, Wrap, PutToSleep;
      if current == null { return; }
      ghost var m, a := Image(), s;
      FitFacts(m, a);
      var w := Wrap(tickCount + ticks);
      ghost var n, b := PutToSleep(m, a.cur, w), a.(sq := [a.cur] + a.sq, wake := a.wake[a.cur := w]);
      SleepReady(m, a, w, n, b);
      StoreAsleep(w);
      s := b;
      Schedule();
    }

    /** The stores of task_sleep. */
    method StoreAsleep(w: nat)
      requires current != null && current in tasks && current.prev == null
      requires sleepQueue != null ==> sleepQueue in tasks && sleepQueue != current
      modifies this`sleepQueue, tasks
      ensures Image() == PutToSleep(old(Image()), current, w)
    {
      ghost var m := Image();
      current.wakeTime := w;
      current.state := Sleeping;
      current.next := sleepQueue;
      if sleepQueue != null { sleepQueue.prev := current; }
      sleepQueue := current;
      assert TaskFields() == Front(m.link[current := m.link[current].(wake := w)], m.sleep, current, Sleeping);
    }

    /** Puts a task that is nowhere into its run queue. */
    method EnterQueue(t: Task)
      requires runnableQueue.Length == LEVELS && FitBut(Image(), s, t)
      modifies this`s, runnableQueue, tasks
      ensures |old(s).rq| == LEVELS && Fit(Image(), s) && s == old(s).(rq := Push(old(s).rq, t))
    {
      hide FitBut, Fit, Enqueued, Push, Cut, Front;
      ghost var m, a := Image(), s;
      EnterFit(m, a, t);
      FitButFacts(m, a, t);
      TaskEnqueue(t);
      s := a.(rq := Push(a.rq, t));
    }

    /** A new task is made known to the scheduler. */
    method Enter(t: Task)
      requires Valid() && t !in tasks
      modifies this`s, this`tasks, runnableQueue, tasks, t
      ensures Valid() && tasks == old(tasks) + {t}
      ensures |old(s).rq| == LEVELS && s == old(s).(rq := Push(old(s).rq, t))
    {
      hide FitBut, Fit, Push;
      ghost var m := Image();
      NewIsLoose(m, s, t, t.Fields());
      tasks := tasks + {t};
      assert TaskFields() == m.link[t := t.Fields()];
      EnterQueue(t);
    }

    /** task_wake, with `detached` for a waiter its semaphore has let go of.  A task still on a
        waiter list is queued as well, and then no list state describes the links. */
    method TaskWake(t: Task, ghost detached: bool)
      requires runnableQueue.Length == LEVELS
      requires if detached then FitBut(Image(), s, t) && t.state == Blocked else Fit(Image(), s) && t in tasks
      modifies this`s, this`sleepQueue, runnableQueue, tasks
      ensures |old(s).rq| == LEVELS
      ensures s == if detached then old(s).(rq := Push(old(s).rq, t)) else Wake(old(s), t)
      ensures if !detached && Waiting(old(s), t) then t in old(Image()).link && |old(Image()).heads| == LEVELS
                && Image() == Enqueued(old(Image()), t) && !Sound(s)
              else Fit(Image(), s)
    {
      hide FitBut, Fit, Enqueued, Unslept, Waiting, Queued, Placed, Push, Cut, Sound, Front;
      ghost var m, a := Image(), s;
      if detached {
        FitButFacts(m, a, t);
      } else {
        FitFacts(m, a);
        StateNamesPlace(m, a, t);
        FitSound(m, a);
        WakeSound(a, t);
      }
      if t.state == Sleeping {
        ghost var i :| 0 <= i < |a.sq| && a.sq[i] == t;
        WakeSleeper(t, i);
      } else if t.state == Blocked {
        if detached { EnterFit(m, a, t); } else { WaiterHead(m, a, t); }
        TaskEnqueue(t);
        s := a.(rq := Push(a.rq, t));
      }
    }

    /** The SLEEPING branch of task_wake. */
    method WakeSleeper(t: Task, ghost i: nat)
      requires runnableQueue.Length == LEVELS && Fit(Image(), s) && i < |s.sq| && t == s.sq[i]
      modifies this`s, this`sleepQueue, runnableQueue, tasks
      ensures |old(s).rq| == LEVELS && Fit(Image(), s) && s == Wake(old(s), t)
    {
      hide FitBut, Fit, Enqueued, Push, Cut;
      ghost var m, a := Image(), s;
      SleeperOfFit(m, a, i);
      UnsleptBut(m, a, i);
      WithoutIsDrop(a.sq, i);
      FitButStored(Unslept(m, t), a.(sq := Drop(a.sq, i)), t, m.link[t]);
      hide Unslept;
      UnlinkSleeper(t);
      s := a.(sq := Drop(a.sq, i));
      EnterQueue(t);
    }

    /** The stores of scheduler_tick that take a due task out of the sleep queue. */
    method UnlinkDue(t: Task)
      requires t in tasks
      requires t.prev != null ==> t.prev in tasks - {t}
      requires t.next != null ==> t.next in tasks - {t}
      modifies this`sleepQueue, tasks
      ensures Image() == Unslept(old(Image()), t)
    {
      hide Unslept, Cut;
      ghost var m := Image();
      UnsleptCleared(m, t);
      assert m.link[t] == t.Fields();
      UnlinkSleeper(t);
      ghost var f := TaskFields();
      t.prev, t.next := null, null;
      SameLinks(TaskFields(), f[t := m.link[t].(next := null, prev := null)]);
    }

    /** The body of scheduler_tick's loop for a sleeper that is due. */
    method ReleaseSleeper(t: Task, ghost i: nat)
      requires runnableQueue.Length == LEVELS && Fit(Image(), s) && i < |s.sq| && t == s.sq[i]
      modifies this`s, this`sleepQueue, runnableQueue, tasks
      ensures |old(s).rq| == LEVELS && Fit(Image(), s)
      ensures s == old(s).(sq := Drop(old(s).sq, i), rq := Push(old(s).rq, t))
    {
      hide FitBut, Fit, Push, Unslept;
      ghost var m, a := Image(), s;
      SleeperOfFit(m, a, i);
      UnsleptBut(m, a, i);
      UnlinkDue(t);
      s := a.(sq := Drop(a.sq, i));
      EnterQueue(t);
    }

    /** scheduler_tick, without the network's share of it. */
    method SchedulerTick()
      requires Valid()
      modifies this`tickCount, this`s, this`sleepQueue, runnableQueue, tasks
      ensures Valid() && s == Tick(old(s))
    {
      hide Fit, Push, Wrap, Sweep, Rest, Release, Tick;
      FitFacts(Image(), s);
      ghost var a := s;
      tickCount := Wrap(tickCount + 1);
      ghost var now, i := tickCount, 0;
      TickCountIsNoList(Image(), s, now);
      s := s.(tick := now);
      SweepStart(a, s, now);
      SleepHeadOfFit(Image(), s);
      var t := sleepQueue;
      while t != null
        invariant i <= |s.sq| && t == (if i < |s.sq| then s.sq[i] else null)
        invariant runnableQueue.Length == LEVELS && Fit(Image(), s) && Sweep(s, a, now, i)
        invariant tickCount == now && s.tick == now && s.idle == idle && s.cur == current && s.wake == a.wake
        decreases |s.sq| - i
      {
        SleeperOfFit(Image(), s, i);
        var next := t.next;
        if tickCount >= t.wakeTime {
          SweepDue(s, a, now, i);
          ReleaseSleeper(t, i);
        } else {
          SweepStay(s, a, now, i);
          i := i + 1;
        }
        t := next;
      }
      SweepDone(s, a);
    }

    /** semaphore_init.  The link fields still lay out the lists exactly when nobody was waiting. */
    method SemaphoreInit(n: Semaphore, value: int)
      requires Valid()
      modifies this`s, this`sems
      ensures s == SemInit(old(s), n, value) && sems == old(sems)[n := Sem(value, null)]
      ensures Valid() <==> !(n in old(s).wl && old(s).wl[n] != [])
    {
      hide Fit;
      if n in s.wl && s.wl[n] != [] { InitUnfit(Image(), s, n, value); } else { InitFit(Image(), s, n, value); }
      sems := sems[n := Sem(value, null)];
      s := SemInit(s, n, value);
    }

    /** semaphore_wait.  The idle task may call it only if it need not block. */
    method SemaphoreWait(n: Semaphore)
      requires Valid() && n in s.wl && n in s.count && (current == idle ==> s.count[n] > 0)
      modifies this`current, this`s, this`sems, runnableQueue, tasks
      ensures Valid() && |old(s).rq| == LEVELS && s == SemWait(old(s), n)
    {
      hide Fit, Ready, Dispatch, PutToWait, Requeue;
      ghost var m, a := Image(), s;
      FitFacts(m, a);
      SemCount(m, a, n);
      if current == null { return; }
      if sems[n].count > 0 {
        CountFit(m, a, n, sems[n].count - 1);
        sems := sems[n := sems[n].(count := sems[n].count - 1)];
        s := a.(count := a.count[n := a.count[n] - 1]);
        return;
      }
      ghost var b := a.(wl := a.wl[n := [a.cur] + a.wl[n]]);
      WaitReady(m, a, n, PutToWait(m, current, n), b);
      StoreWaiting(n);
      s := b;
      Schedule();
    }

    /** The stores of semaphore_wait when the count is used up. */
    method StoreWaiting(n: Semaphore)
      requires current != null && current in tasks && n in sems
      modifies this`sems, tasks
      ensures Image() == PutToWait(old(Image()), current, n)
    {
      ghost var m := Image();
      current.next := sems[n].waiters;
      sems := sems[n := sems[n].(waiters := current)];
      current.state := Blocked;
      assert TaskFields() == m.link[current := m.link[current].(next := m.sems[n].waiters, state := Blocked)];
    }

    /** semaphore_signal. */
    method SemaphoreSignal(n: Semaphore)
      requires Valid() && n in s.wl && n in s.count
      modifies this`s, this`sems, this`sleepQueue, runnableQueue, tasks
      ensures Valid() && |old(s).rq| == LEVELS && s == SemSignal(old(s), n)
      ensures old(s).wl[n] != [] ==> Queued(s, old(s).wl[n][0])
    {
      hide Fit, FitBut, Push;
      ghost var m, a := Image(), s;
      FitFacts(m, a);
      SemCount(m, a, n);
      if sems[n].waiters != null {
        var t := sems[n].waiters;
        UnwaitBut(m, a, n);
        sems := sems[n := sems[n].(waiters := t.next)];
        s := a.(wl := a.wl[n := a.wl[n][1..]]);
        PushQueues(s, t);
        TaskWake(t, true);
      } else {
        CountFit(m, a, n, sems[n].count + 1);
        sems := sems[n := sems[n].(count := sems[n].count + 1)];
        s := a.(count := a.count[n := a.count[n] + 1]);
      }
    }

    static function Entering(es: seq<Event>): set<Task> {
      set e | e in es && e.EnterE? :: e.task
    }

    /** Any enabled kernel call does to the link fields what its step does to the lists. */
    method Execute(e: Event)
      requires Valid() && Enabled(s, e)
      modifies this`current, this`sleepQueue, this`tickCount, this`sems, this`tasks, this`s
      modifies runnableQueue, tasks, Entering([e])
      ensures Valid() && s == Step(old(s), e) && tasks == old(tasks) + Entering([e])
    {
      hide Fit, Yield, Sleep, Tick, SemInit, SemWait, SemSignal, Placed, Push;
      match e {
        case EnterE(t) =>
          assert e in [e];
          KnownIfPlaced(Image(), s, t);
          Enter(t);
        case YieldE => TaskYield();
        case SleepE(n) => TaskSleep(n);
        case WakeE(t) =>
          KnownIfPlaced(Image(), s, t);
          FitFacts(Image(), s);
          TaskWake(t, false);
        case TickE => SchedulerTick();
        case InitE(m, v) => SemaphoreInit(m, v);
        case WaitE(m) => SemaphoreWait(m);
        case SignalE(m) => SemaphoreSignal(m);
      }
    }

    /** Every run of kernel calls: the link fields follow the lists step by step. */
    method Play(es: seq<Event>)
      requires Valid() && Legal(s, es)
      modifies this`current, this`sleepQueue, this`tickCount, this`sems, this`tasks, this`s
      modifies runnableQueue, tasks, Entering(es)
      ensures Valid() && s == Run(old(s), es) && tasks == old(tasks) + Entering(es)
    {
      hide Fit, Enabled, Step;
      for i := 0 to |es|
        invariant Valid() && Legal(s, es[i..]) && Run(s, es[i..]) == Run(old(s), es)
        invariant tasks == old(tasks) + Entering(es[..i])
      {
        assert es[i..][1..] == es[i + 1..] && es[..i + 1] == es[..i] + [es[i]];
        Execute(es[i]);
      }
      assert es[..|es|] == es;
    }
  }
}
