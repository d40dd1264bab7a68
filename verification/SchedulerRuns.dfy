/** What holds over whole runs of the scheduler. */
module SchedulerRuns {
  import opened Sequences
  import opened Tasks
  import opened SchedulerModel

  /** In every run no task is in two places or twice in one, and none is lost or invented. */
  lemma {:induction false} RunConserves(s: Sched, es: seq<Event>)
    requires Sound(s) && Legal(s, es)
    ensures Sound(Run(s, es)) && Run(s, es).idle == s.idle
    ensures forall u :: Placed(s, u) || EnterE(u) in es ==> Placed(Run(s, es), u)
    ensures forall u :: Placed(Run(s, es), u) ==> Placed(s, u) || u == s.idle || EnterE(u) in es
    decreases |es|
  {
    hide Sound, Placed, Enabled, Step;
    if es != [] {
      StepSound(s, es[0]);
      RunConserves(Step(s, es[0]), es[1..]);
    }
  }

  // ------------------------------------------------------------------ sleeping

  function Ticks(es: seq<Event>): nat {
    if es == [] then 0 else Ticks(es[1..]) + if es[0].TickE? then 1 else 0
  }

  /** `k` ticks after tick `t`, the counter has reached the wake time `w`. */
  predicate DueAt(t: nat, w: nat, k: nat) {
    Wrap(t + k) >= w
  }

  /** Of the ticks after tick `t`, the `d`-th is the first that reaches the wake time `w`. */
  predicate FirstDue(t: nat, w: nat, d: nat) {
    d >= 1 && DueAt(t, w, d) && forall k :: 1 <= k < d ==> !DueAt(t, w, k)
  }

  /** One step of a run leaves a sleeper asleep unless it wakes it or the tick makes it due. */
  lemma StepKeepsSleeper(s: Sched, e: Event, t: Task)
    requires Sound(s) && Enabled(s, e) && t in s.sq && t in s.wake && e != WakeE(t)
    requires e.TickE? ==> !Due(s.wake, t, Wrap(s.tick + 1))
    ensures var r := Step(s, e);
            && t in r.sq && t in r.wake && r.wake[t] == s.wake[t]
            && r.tick == if e.TickE? then Wrap(s.tick + 1) else s.tick
  {
    match e {
      case SleepE(n) => assert s.cur == null || s.cur != t;
      case WakeE(u) =>
        if u in s.sq {
          var i :| 0 <= i < |s.sq| && s.sq[i] == u;
          WithoutIsDrop(s.sq, i);
          DropMembers(s.sq, i);
        }
      case _ =>
    }
  }

  lemma {:induction false} StaysAsleep(s: Sched, es: seq<Event>, t: Task)
    requires Sound(s) && Legal(s, es) && t in s.sq && t in s.wake && WakeE(t) !in es
    requires forall k :: 1 <= k <= Ticks(es) ==> !DueAt(s.tick, s.wake[t], k)
    ensures var r := Run(s, es);
            && Sound(r) && t in r.sq && t in r.wake && r.wake[t] == s.wake[t]
            && r.tick == Wrap(s.tick + Ticks(es))
    decreases |es|
  {
    hide Sound, Step, Enabled, Wrap;
    if es == [] {
      TickBound(s);
    } else {
      var e, r := es[0], Step(s, es[0]);
      if e.TickE? { assert !DueAt(s.tick, s.wake[t], 1); }
      StepSound(s, e);
      StepKeepsSleeper(s, e, t);
      forall k | 1 <= k <= Ticks(es[1..]) ensures !DueAt(r.tick, r.wake[t], k) {
        WrapTwice(s.tick, k);
        if e.TickE? { assert !DueAt(s.tick, s.wake[t], k + 1); } else { assert !DueAt(s.tick, s.wake[t], k); }
      }
      WrapTwice(s.tick, Ticks(es[1..]));
      StaysAsleep(r, es[1..], t);
    }
  }

  lemma TickBound(s: Sched)
    requires Sound(s)
    ensures s.tick < WORD && |s.rq| == LEVELS && NoDup(s.sq)
  {
  }

  lemma WrapTwice(t: nat, k: nat)
    ensures Wrap(Wrap(t + 1) + k) == Wrap(t + 1 + k)
  {
  }

  /** In any run not otherwise waking it, a task that called task_sleep(n) sleeps through every
      tick before the first one that reaches its wake time, and that one queues it. */
  lemma SleepsUntilDue(s: Sched, n: nat, d: nat, es: seq<Event>)
    requires Sound(s) && s.cur != null && s.cur != s.idle && n < WORD && FirstDue(s.tick, Wrap(s.tick + n), d)
    requires Legal(Sleep(s, n), es) && WakeE(s.cur) !in es && Ticks(es) < d
    ensures var r := Run(Sleep(s, n), es);
            && s.cur in r.sq && |r.rq| == LEVELS
            && (Ticks(es) == d - 1 ==> Queued(Tick(r), s.cur) && s.cur !in Tick(r).sq)
  {
    hide Sound, Wrap, Queued, Tick;
    TickBound(s);
    var t, a, w := s.cur, Sleep(s, n), Wrap(s.tick + n);
    StepSound(s, SleepE(n));
    FallsAsleep(s, n);
    StaysAsleep(a, es, t);
    var r := Run(a, es);
    TickBound(r);
    if Ticks(es) == d - 1 {
      WrapNext(s.tick, d - 1);
      assert DueAt(s.tick, w, d);
      TickReleases(r, t);
    }
  }

  lemma FallsAsleep(s: Sched, n: nat)
    requires Sound(s) && s.cur != null
    ensures var r := Sleep(s, n);
            s.cur in r.sq && r.tick == s.tick && s.cur in r.wake && r.wake[s.cur] == Wrap(s.tick + n)
  {
  }

  lemma TickReleases(s: Sched, t: Task)
    requires Sound(s) && t in s.sq && Due(s.wake, t, Wrap(s.tick + 1))
    ensures Queued(Tick(s), t) && t !in Tick(s).sq
  {
    ReleaseLevelled(s.rq, s.sq, s.wake, Wrap(s.tick + 1));
  }

  lemma WrapNext(t: nat, k: nat)
    ensures Wrap(Wrap(t + k) + 1) == Wrap(t + k + 1)
  {
  }

  /** That first tick is the one the caller asked for exactly when the counter does not wrap on
      the way, or wraps with the very next tick. */
  lemma DueWhenAsked(t: nat, n: nat)
    requires t < WORD && n < WORD
    ensures var d := if n == 0 then 1 else n;
            FirstDue(t, Wrap(t + n), d) <==> t + d < WORD || (t == WORD - 1 && n >= 1)
  {
    var d := if n == 0 then 1 else n;
    if t + d >= WORD && !(t == WORD - 1 && n >= 1) {
      if n >= 2 {
        assert DueAt(t, Wrap(t + n), 1);
      } else {
        assert !DueAt(t, Wrap(t + n), 1);
      }
    }
  }

  // ------------------------------------------------------------------ waking

  /** The sleepers of level `p` that are due, the one that went to sleep first in front. */
  function DueAtLevel(l: seq<Task>, wake: map<Task, nat>, now: nat, p: nat): seq<Task> {
    if l == [] then []
    else DueAtLevel(l[1..], wake, now, p) + if Due(wake, l[0], now) && Level(l[0]) == p then [l[0]] else []
  }

  /** Sleepers released by one tick are queued before all others of their level, in the order they went to sleep. */
  lemma {:induction false} ReleaseOrder(rq: seq<seq<Task>>, l: seq<Task>, wake: map<Task, nat>, now: nat, p: nat)
    requires |rq| == LEVELS && p < LEVELS
    ensures Release(rq, l, wake, now)[p] == DueAtLevel(l, wake, now, p) + rq[p]
    decreases |l|
  {
    if l != [] {
      ReleaseOrder(if Due(wake, l[0], now) then Push(rq, l[0]) else rq, l[1..], wake, now, p);
    }
  }

  /** task_wake moves a sleeper, and no other task, from the sleep queue to the front of its run queue.  A task that
      waits is queued and goes on waiting; any other task stays where it is. */
  lemma WakeMoves(s: Sched, t: Task)
    requires Sound(s)
    ensures var r := Wake(s, t);
            && |r.rq| == LEVELS && r.cur == s.cur && r.wl == s.wl && r.count == s.count
            && (t in s.sq ==> t !in r.sq && !Queued(s, t) && r.rq[Level(t)] == [t] + s.rq[Level(t)])
            && (forall u :: u != t ==> (u in r.sq <==> u in s.sq) && (Queued(r, u) <==> Queued(s, u)))
            && (t !in s.sq ==> r.sq == s.sq && (Queued(r, t) <==> Queued(s, t) || Waiting(s, t)))
  {
    if t in s.sq {
      var i :| 0 <= i < |s.sq| && s.sq[i] == t;
      WithoutIsDrop(s.sq, i);
      DropMembers(s.sq, i);
    }
  }

  // ------------------------------------------------------------------ who runs

  /** `t` is first in its run queue, and no task of a higher level is queued. */
  predicate Foremost(s: Sched, t: Task) {
    && Level(t) < |s.rq| && s.rq[Level(t)] != [] && s.rq[Level(t)][0] == t
    && forall p :: Level(t) < p < |s.rq| ==> s.rq[p] == []
  }

  predicate NoneQueued(s: Sched) {
    forall p :: 0 <= p < |s.rq| ==> s.rq[p] == []
  }

  /** A call that ends in schedule(); before the first task runs only a yield does. */
  predicate Schedules(s: Sched, e: Event) {
    e.YieldE? || (s.cur != null && (e.SleepE? || (e.WaitE? && e.sem in s.count && s.count[e.sem] <= 0)))
  }

  lemma NextForemost(s: Sched)
    requires Levelled(s.rq)
    ensures if NoneQueued(s) then Next(s) == s.idle else Foremost(s, Next(s))
  {
    var p := Top(s.rq, LEVELS - 1);
    if p >= 0 { assert s.rq[p][0] in s.rq[p]; }
  }

  /** Such a call hands the CPU to the foremost queued task, or to the idle task if none is queued; the caller goes to
      the front of its run queue, the sleep queue or the waiter list, as it asked.  No other call changes who runs. */
  lemma ForemostRuns(s: Sched, e: Event)
    requires Sound(s) && Enabled(s, e)
    ensures var r := Step(s, e);
            if !Schedules(s, e) then r.cur == s.cur
            else && (if NoneQueued(s) then r.cur == s.idle else Foremost(s, r.cur))
                 && (s.cur != null && r.cur != s.cur ==>
                       match e
                       case SleepE(_) => r.sq == [s.cur] + s.sq && !Queued(r, s.cur)
                       case WaitE(m) => m in r.wl && r.wl[m] == [s.cur] + s.wl[m] && !Queued(r, s.cur)
                       case YieldE =>
                         Level(s.cur) < |r.rq| && r.rq[Level(s.cur)] != [] && r.rq[Level(s.cur)][0] == s.cur
                       case _ => true)
  {
    hide Wrap, Release, Rest, Without, Top, Placed;
    NextForemost(s);
    PoppedLevelled(s.rq);
  }

  lemma TopIs(rq: seq<seq<Task>>, p: int, r: int)
    requires |rq| == LEVELS && 0 <= r <= p < LEVELS && rq[r] != [] && forall q :: r < q <= p ==> rq[q] == []
    ensures Top(rq, p) == r
  {
  }

  /** Three consecutive schedules of a running task equal one: from the first switch on, the
      whole scheduler state alternates between two values. */
  lemma PeriodTwo(s: Sched)
    requires Sound(s) && s.cur != null
    ensures |Yield(s).rq| == LEVELS && |Yield(Yield(s)).rq| == LEVELS
    ensures Yield(Yield(Yield(s))) == Yield(s)
  {
    var A, p := s.cur, Top(s.rq, LEVELS - 1);
    var s1 := Yield(s);
    if p < 0 {
      NobodyQueued(s);
    } else {
      var B := s.rq[p][0];
      PushPop(s.rq);
      assert B in s.rq[p] && Queued(s, B) && s1 == s.(cur := B, rq := Push(Popped(s.rq), A));
      StepSound(s, YieldE);
      SecondSwitch(s, s1, p);
    }
  }

  /** With nothing queued, the running and the idle task take turns. */
  lemma NobodyQueued(s: Sched)
    requires Sound(s) && s.cur != null && Top(s.rq, LEVELS - 1) < 0
    ensures |Yield(s).rq| == LEVELS && |Yield(Yield(s)).rq| == LEVELS
    ensures Yield(Yield(Yield(s))) == Yield(s)
  {
    var A, s1 := s.cur, Yield(s);
    if A != s.idle {
      TopIs(s1.rq, LEVELS - 1, Level(A));
      var s2 := Yield(s1);
      assert s2.rq[Level(A)] == if Level(s.idle) == Level(A) then [s.idle] else [];
      TopIs(s2.rq, LEVELS - 1, Level(s.idle));
    }
  }

  /** Putting the picked task back where it came from undoes the pick. */
  lemma PushPop(rq: seq<seq<Task>>)
    requires Levelled(rq) && Top(rq, LEVELS - 1) >= 0
    ensures Push(Popped(rq), rq[Top(rq, LEVELS - 1)][0]) == rq
  {
    var p := Top(rq, LEVELS - 1);
    assert rq[p][0] in rq[p];
    assert rq[p] == [rq[p][0]] + rq[p][1..];
  }

  lemma SecondSwitch(s: Sched, s1: Sched, p: nat)
    requires Sound(s) && Sound(s1) && s.cur != null && p == Top(s.rq, LEVELS - 1)
    requires s1 == s.(cur := s.rq[p][0], rq := Push(Popped(s.rq), s.cur))
    ensures |Yield(s1).rq| == LEVELS && Yield(Yield(s1)) == s1
  {
    var A, B, q := s.cur, s.rq[p][0], Top(s1.rq, LEVELS - 1);
    assert B in s.rq[p] && Level(B) == p;
    assert s1.rq[Level(A)] != [];
    var C := s1.rq[q][0];
    assert C in s1.rq[q] && Queued(s1, C) && C != B;
    var s2 := Yield(s1);
    PushPop(s.rq);
    PushPop(s1.rq);
    if q == Level(A) {
      assert Popped(s1.rq) == Popped(s.rq);
      assert s2 == s;
    } else {
      TopIs(s2.rq, LEVELS - 1, p);
      assert s2.rq[p][0] == B;
      assert Popped(s2.rq) == Popped(s1.rq);
    }
  }

  /** After a switch, only the task just switched out can outrank the running one. */
  lemma OnlyLoserOutranks(s: Sched, t: Task)
    requires Sound(s) && s.cur != null && Yield(s).cur != s.cur
    requires Queued(Yield(s), t) && Level(t) > Level(Yield(s).cur)
    ensures t == s.cur
  {
    var p := Top(s.rq, LEVELS - 1);
    if p >= 0 {
      assert s.rq[p][0] in s.rq[p];
      PoppedLevelled(s.rq);
    }
  }

  /** A run in which tasks only yield or are ticked, and no tick ends a sleep. */
  predicate Quiet(s: Sched, es: seq<Event>)
    decreases |es|
  {
    es != [] ==>
      && |s.rq| == LEVELS
      && (es[0].YieldE? || (es[0].TickE? && Rest(s.sq, s.wake, Wrap(s.tick + 1)) == s.sq))
      && Quiet(Step(s, es[0]), es[1..])
  }

  function Yields(es: seq<Event>): nat {
    if es == [] then 0 else Yields(es[1..]) + if es[0].YieldE? then 1 else 0
  }

  /** The two states the scheduler alternates between, and the one it starts in. */
  function After(s: Sched, k: nat): Sched
    requires |s.rq| == LEVELS && |Yield(s).rq| == LEVELS
  {
    if k == 0 then s else if k % 2 == 1 then Yield(s) else Yield(Yield(s))
  }

  lemma {:induction false} NobodyDue(rq: seq<seq<Task>>, l: seq<Task>, wake: map<Task, nat>, now: nat)
    requires |rq| == LEVELS && forall t :: t in l ==> !Due(wake, t, now)
    ensures Release(rq, l, wake, now) == rq
  {
    if l != [] { NobodyDue(rq, l[1..], wake, now); }
  }

  lemma YieldIgnoresTick(s: Sched, now: nat)
    requires |s.rq| == LEVELS
    ensures Yield(s.(tick := now)) == Yield(s).(tick := now)
    ensures |Yield(s).rq| == LEVELS
  {
  }

  /** While tasks only yield or are ticked, the scheduler state is determined by the parity of
      the number of yields, so at most three distinct tasks ever run, however many are queued. */
  lemma {:induction false} QuietRun(s: Sched, es: seq<Event>)
    requires Sound(s) && s.cur != null && Legal(s, es) && Quiet(s, es)
    ensures |s.rq| == LEVELS && |Yield(s).rq| == LEVELS && |Yield(Yield(s)).rq| == LEVELS
    ensures Run(s, es) == After(s, Yields(es)).(tick := Wrap(s.tick + Ticks(es)))
    ensures Run(s, es).cur in {s.cur, Yield(s).cur, Yield(Yield(s)).cur}
    decreases |es|
  {
    hide Sound, Wrap, Dispatch, Release, Rest;
    TickBound(s);
    PeriodTwo(s);
    if es != [] {
      var r := Step(s, es[0]);
      StepSound(s, es[0]);
      QuietStep(s, es[0]);
      QuietRun(r, es[1..]);
      if es[0].TickE? {
        var now := Wrap(s.tick + 1);
        WrapTwice(s.tick, Ticks(es[1..]));
        YieldIgnoresTick(s, now);
        YieldIgnoresTick(Yield(s), now);
      }
    }
  }

  lemma QuietStep(s: Sched, e: Event)
    requires Sound(s) && s.cur != null && |s.rq| == LEVELS
    requires e.YieldE? || (e.TickE? && Rest(s.sq, s.wake, Wrap(s.tick + 1)) == s.sq)
    ensures Enabled(s, e) && Step(s, e).cur != null
    ensures Step(s, e) == if e.YieldE? then Yield(s) else s.(tick := Wrap(s.tick + 1))
    ensures Step(s, e).tick == if e.YieldE? then s.tick else Wrap(s.tick + 1)
  {
    if e.TickE? {
      NobodyDue(s.rq, s.sq, s.wake, Wrap(s.tick + 1));
    }
  }
}
