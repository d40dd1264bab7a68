/** What the semaphores do for their callers: who is woken, who is blocked, and how often, over every run. */
module Semaphores {
  import opened Sequences
  import opened Tasks
  import opened SchedulerModel

  // ------------------------------------------------------------------ one call

  /** Where a task is does not differ between the two states. */
  predicate SamePlace(s: Sched, r: Sched, u: Task) {
    && (Queued(r, u) <==> Queued(s, u)) && (u in r.sq <==> u in s.sq) && (Waiting(r, u) <==> Waiting(s, u))
    && (u == r.cur <==> u == s.cur)
  }

  /** A signal with tasks waiting moves the one that came last to the front of its run queue, and nothing else;
      with none waiting it raises the count by one and moves no task. */
  lemma SignalWakes(s: Sched, m: Semaphore)
    requires Sound(s) && m in s.wl
    ensures m in s.count
    ensures var r := SemSignal(s, m);
            && |r.rq| == LEVELS && m in r.wl && m in r.count
            && (forall n :: n in s.wl && n != m ==> n in r.wl && r.wl[n] == s.wl[n])
            && (forall n :: n in s.count && n != m ==> n in r.count && r.count[n] == s.count[n])
            && if s.wl[m] == [] then
                 r.count[m] == s.count[m] + 1 && r.wl[m] == [] && forall u :: SamePlace(s, r, u)
               else
                 var t := s.wl[m][0];
                 && r.count[m] == s.count[m] && s.wl[m] == [t] + r.wl[m]
                 && Waiting(s, t) && !Waiting(r, t) && !Queued(s, t) && r.rq[Level(t)] == [t] + s.rq[Level(t)]
                 && forall u :: u != t ==> SamePlace(s, r, u)
  {
    var r := SemSignal(s, m);
    if s.wl[m] != [] {
      var l, t := s.wl[m], s.wl[m][0];
      assert l == [t] + l[1..] && t in l && Apart(s, l);
      assert NoDup(l);
      DropMembers(l, 0);
      assert Drop(l, 0) == l[1..];
      forall n | n in r.wl ensures t !in r.wl[n] { assert n != m ==> Disjoint(s.wl[m], s.wl[n]); }
      forall u | u != t ensures SamePlace(s, r, u) {
        forall n | n in s.wl ensures u in r.wl[n] <==> u in s.wl[n] { assert n == m ==> (u in l <==> u in l[1..]); }
        assert Waiting(r, u) <==> Waiting(s, u) by { OthersWait(s, r, u); }
      }
    }
  }

  lemma OthersWait(s: Sched, r: Sched, u: Task)
    requires r.wl.Keys == s.wl.Keys && forall n :: n in s.wl ==> (u in r.wl[n] <==> u in s.wl[n])
    ensures Waiting(r, u) <==> Waiting(s, u)
  {
    if Waiting(s, u) { var n :| n in s.wl && u in s.wl[n]; assert n in r.wl && u in r.wl[n]; }
    if Waiting(r, u) { var n :| n in r.wl && u in r.wl[n]; assert n in s.wl && u in s.wl[n]; }
  }

  /** A wait by the running task takes one from a positive count and moves no task; otherwise it blocks the caller, in
      front of those that wait already, and the caller goes on running only as the idle task with nothing queued. */
  lemma WaitBlocks(s: Sched, m: Semaphore)
    requires Sound(s) && m in s.wl && s.cur != null
    ensures m in s.count
    ensures var r := SemWait(s, m);
            && m in r.wl && m in r.count && r.sq == s.sq
            && (forall n :: n in s.wl && n != m ==> n in r.wl && r.wl[n] == s.wl[n])
            && (forall n :: n in s.count && n != m ==> n in r.count && r.count[n] == s.count[n])
            && if s.count[m] > 0 then
                 r.count[m] == s.count[m] - 1 && r.wl[m] == s.wl[m] && forall u :: SamePlace(s, r, u)
               else
                 && r.count[m] == s.count[m] && r.wl[m] == [s.cur] + s.wl[m]
                 && Waiting(r, s.cur) && !Queued(r, s.cur)
                 && (r.cur == s.cur <==> s.cur == s.idle && Top(s.rq, LEVELS - 1) < 0)
  {
    var r := SemWait(s, m);
    if s.count[m] <= 0 {
      assert s.cur in r.wl[m];
      PoppedLevelled(s.rq);
      var p := Top(s.rq, LEVELS - 1);
      if p >= 0 { assert s.rq[p][0] in s.rq[p] && Queued(s, s.rq[p][0]); }
    }
  }

  // ------------------------------------------------------------------ every run

  function Signals(es: seq<Event>, m: Semaphore): nat {
    if es == [] then 0 else Signals(es[1..], m) + if es[0] == SignalE(m) then 1 else 0
  }

  /** The calls of semaphore_wait made while a task runs; before the first dispatch a wait does nothing. */
  function Waits(s: Sched, es: seq<Event>, m: Semaphore): nat
    requires Legal(s, es)
    decreases |es|
  {
    if es == [] then 0
    else (if es[0] == WaitE(m) && s.cur != null then 1 else 0) + Waits(Step(s, es[0]), es[1..], m)
  }

  predicate Initialises(e: Event, m: Semaphore) {
    e.InitE? && e.sem == m
  }

  /** A positive count and waiters do not occur together. */
  predicate NoneWaitInVain(s: Sched, m: Semaphore) {
    m in s.wl && m in s.count && (s.count[m] > 0 ==> s.wl[m] == [])
  }

  lemma DispatchKeeps(s: Sched, requeue: bool)
    requires |s.rq| == LEVELS && (requeue ==> s.cur != null)
    ensures Dispatch(s, requeue).wl == s.wl && Dispatch(s, requeue).count == s.count
  {
  }

  lemma StepBalance(s: Sched, e: Event, m: Semaphore)
    requires Enabled(s, e) && NoneWaitInVain(s, m) && !Initialises(e, m)
    ensures var r := Step(s, e);
            && NoneWaitInVain(r, m) && (s.count[m] >= 0 ==> r.count[m] >= 0)
            && r.count[m] - |r.wl[m]| == s.count[m] - |s.wl[m]| + (if e == SignalE(m) then 1 else 0)
                                         - (if e == WaitE(m) && s.cur != null then 1 else 0)
            && (|r.wl[m]| <= |s.wl[m]| ==> r.wl[m] == s.wl[m][|s.wl[m]| - |r.wl[m]|..])
            && (|r.wl[m]| > |s.wl[m]| ==> r.wl[m][|r.wl[m]| - |s.wl[m]|..] == s.wl[m])
  {
    hide Dispatch, Push, Wrap, Release, Rest, Without, Placed;
    match e {
      case YieldE => DispatchKeeps(s, s.cur != null);
      case SleepE(n) =>
        if s.cur != null {
          DispatchKeeps(s.(sq := [s.cur] + s.sq, wake := s.wake[s.cur := Wrap(s.tick + n)]), false);
        }
      case WaitE(n) =>
        if s.cur != null && s.count[n] <= 0 { DispatchKeeps(s.(wl := s.wl[n := [s.cur] + s.wl[n]]), false); }
      case _ =>
    }
  }

  /** In every run, the count less the number of waiters is what it was, plus the signals, less the waits; and nobody
      waits while the count is positive. */
  lemma {:induction false} RunBalance(s: Sched, es: seq<Event>, m: Semaphore)
    requires Legal(s, es) && NoneWaitInVain(s, m) && forall e :: e in es ==> !Initialises(e, m)
    ensures var r := Run(s, es);
            && NoneWaitInVain(r, m) && (s.count[m] >= 0 ==> r.count[m] >= 0)
            && r.count[m] - |r.wl[m]| == s.count[m] - |s.wl[m]| + Signals(es, m) - Waits(s, es, m)
    decreases |es|
  {
    hide Step, Enabled, NoneWaitInVain;
    if es != [] {
      StepBalance(s, es[0], m);
      RunBalance(Step(s, es[0]), es[1..], m);
    }
  }

  /** From an initialisation with any value, in every run until the next: the balance of signals and waits decides how
      many tasks wait and what the count is, if the value is not negative.  A negative value breaks that rule before
      the first call, when nobody waits yet. */
  lemma InitialisedBalance(s: Sched, m: Semaphore, v: int, es: seq<Event>)
    requires Sound(s) && Legal(SemInit(s, m, v), es) && forall e :: e in es ==> !Initialises(e, m)
    ensures var r, b := Run(SemInit(s, m, v), es), v + Signals(es, m) - Waits(SemInit(s, m, v), es, m);
            && m in r.wl && m in r.count && r.count[m] - |r.wl[m]| == b && (r.count[m] > 0 ==> r.wl[m] == [])
            && (v >= 0 ==> r.count[m] == (if b > 0 then b else 0) && |r.wl[m]| == if b > 0 then 0 else -b)
    ensures v < 0 ==> |SemInit(s, m, v).wl[m]| != -v
  {
    RunBalance(SemInit(s, m, v), es, m);
  }

  /** `d` tasks came to wait before the one at depth `d`. */
  function AtDepth(l: seq<Task>, d: nat): Task
    requires d < |l|
  {
    l[|l| - 1 - d]
  }

  /** More than `d` tasks wait at every moment of the run. */
  predicate AlwaysDeeper(s: Sched, es: seq<Event>, m: Semaphore, d: nat)
    requires Legal(s, es)
    decreases |es|
  {
    m in s.wl && |s.wl[m]| > d && (es != [] ==> AlwaysDeeper(Step(s, es[0]), es[1..], m, d))
  }

  /** Last in, first out: a blocked task stays blocked in every run in which the waiters never dwindle to those that
      came before it, whatever signals there are. */
  lemma {:induction false} LastComesFirst(s: Sched, es: seq<Event>, m: Semaphore, d: nat)
    requires Legal(s, es) && NoneWaitInVain(s, m) && forall e :: e in es ==> !Initialises(e, m)
    requires AlwaysDeeper(s, es, m, d)
    ensures var r := Run(s, es); m in r.wl && d < |r.wl[m]| && AtDepth(r.wl[m], d) == AtDepth(s.wl[m], d)
    decreases |es|
  {
    hide Step, Enabled, NoneWaitInVain;
    if es != [] {
      StepBalance(s, es[0], m);
      var r := Step(s, es[0]);
      assert AtDepth(r.wl[m], d) == AtDepth(s.wl[m], d);
      LastComesFirst(r, es[1..], m, d);
    }
  }
}
