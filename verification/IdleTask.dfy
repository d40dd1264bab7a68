/**
 Which calls put a task in two places when the idle task sleeps or blocks.  `OnePlace` is the list
 invariant without the rule that keeps the idle task off the lists; the last lemma is the reason
 for that rule.
 */
module IdleTask {
  import opened Sequences
  import opened Tasks
  import opened SchedulerModel

  /** The waiter list `w` shares no task with the run and sleep queues. */
  predicate Separate(s: Sched, w: seq<Task>) {
    forall t :: t in w ==> !Queued(s, t) && t !in s.sq
  }

  /** No task is on two lists or twice on one. */
  ghost predicate Spread(s: Sched) {
    && Levelled(s.rq) && NoDup(s.sq)
    && (forall t :: t in s.sq ==> !Queued(s, t))
    && (forall m :: m in s.wl ==> NoDup(s.wl[m]) && Separate(s, s.wl[m]))
    && (forall m, n :: m in s.wl && n in s.wl && m != n ==> Disjoint(s.wl[m], s.wl[n]))
  }

  /** And the running task is on none: no task is in two places. */
  ghost predicate OnePlace(s: Sched) {
    Spread(s) && (s.cur != null ==> !OnList(s, s.cur))
  }

  lemma SoundIsOnePlace(s: Sched)
    requires Sound(s)
    ensures OnePlace(s)
  {
    forall m | m in s.wl ensures Separate(s, s.wl[m]) { assert Apart(s, s.wl[m]); }
  }

  // ------------------------------------------------------------------ list operations

  lemma PopSpread(s: Sched, b: Sched)
    requires Spread(s) && b == s.(rq := Popped(s.rq), cur := b.cur)
    ensures Spread(b)
    ensures forall u :: Queued(b, u) <==> Queued(s, u) && !(Top(s.rq, LEVELS - 1) >= 0 && u == Next(s))
  {
    PoppedLevelled(s.rq);
    forall m | m in b.wl ensures Separate(b, b.wl[m]) { assert Separate(s, s.wl[m]); }
  }

  lemma PushSpread(s: Sched, t: Task, b: Sched)
    requires Spread(s) && !OnList(s, t) && b == s.(rq := Push(s.rq, t))
    ensures Spread(b) && forall u :: OnList(b, u) <==> u == t || OnList(s, u)
  {
    PushLevelled(s.rq, t);
    forall m | m in b.wl ensures Separate(b, b.wl[m]) {
      assert Separate(s, s.wl[m]);
      assert t in s.wl[m] ==> Waiting(s, t);
    }
  }

  /** The task picked from a run queue is on no other list. */
  lemma PickedAlone(s: Sched)
    requires Spread(s) && Top(s.rq, LEVELS - 1) >= 0
    ensures Queued(s, Next(s)) && Next(s) !in s.sq && !Waiting(s, Next(s))
  {
    var p := Top(s.rq, LEVELS - 1);
    assert s.rq[p][0] in s.rq[p];
    forall m | m in s.wl ensures Next(s) !in s.wl[m] { assert Separate(s, s.wl[m]); }
  }

  /** schedule() by an idle task that has just put itself on a list: it is picked again, and so runs on
      that list, exactly when nothing is queued. */
  lemma DispatchParkedIdle(t: Sched)
    requires Spread(t) && t.cur == t.idle && OnList(t, t.idle) && !Queued(t, t.idle)
    ensures OnePlace(Dispatch(t, false)) <==> Top(t.rq, LEVELS - 1) >= 0
  {
    var r := Dispatch(t, false);
    if Top(t.rq, LEVELS - 1) >= 0 {
      PickedAlone(t);
      PopSpread(t, r);
    } else {
      assert r == t;
    }
  }

  // ------------------------------------------------------------------ the calls

  /** task_sleep puts a task in two places exactly when the idle task calls it with nothing queued. */
  lemma SleepOnePlace(s: Sched, n: nat)
    requires Sound(s)
    ensures OnePlace(Sleep(s, n)) <==> !(s.cur == s.idle && Top(s.rq, LEVELS - 1) < 0)
  {
    hide Wrap;
    if s.cur == s.idle {
      var t := s.(sq := [s.cur] + s.sq, wake := s.wake[s.cur := Wrap(s.tick + n)]);
      SoundIsOnePlace(s);
      SleeperSpread(s, t);
      DispatchParkedIdle(t);
    } else {
      SleepSound(s, n);
      SoundIsOnePlace(Sleep(s, n));
    }
  }

  lemma SleeperSpread(s: Sched, t: Sched)
    requires OnePlace(s) && s.cur != null && t == s.(sq := [s.cur] + s.sq, wake := t.wake)
    ensures Spread(t) && OnList(t, s.cur) && !Queued(t, s.cur)
  {
    assert !Waiting(s, s.cur);
    forall m | m in t.wl ensures Separate(t, t.wl[m]) { assert Separate(s, s.wl[m]); }
  }

  /** semaphore_wait puts a task in two places exactly when it blocks the idle task with nothing queued. */
  lemma WaitOnePlace(s: Sched, m: Semaphore)
    requires Sound(s) && m in s.wl
    ensures m in s.count
    ensures OnePlace(SemWait(s, m)) <==> !(s.cur == s.idle && s.count[m] <= 0 && Top(s.rq, LEVELS - 1) < 0)
  {
    if s.cur == s.idle && s.count[m] <= 0 {
      var t := s.(wl := s.wl[m := [s.cur] + s.wl[m]]);
      SoundIsOnePlace(s);
      WaiterSpread(s, m, t);
      DispatchParkedIdle(t);
    } else {
      WaitSound(s, m);
      SoundIsOnePlace(SemWait(s, m));
    }
  }

  lemma WaiterSpread(s: Sched, m: Semaphore, t: Sched)
    requires OnePlace(s) && s.cur != null && m in s.wl && t == s.(wl := s.wl[m := [s.cur] + s.wl[m]])
    ensures Spread(t) && OnList(t, s.cur) && !Queued(t, s.cur)
  {
    assert !Waiting(s, s.cur);
    forall n | n in t.wl ensures NoDup(t.wl[n]) && Separate(t, t.wl[n]) { assert Separate(s, s.wl[n]); }
    forall k, n | k in t.wl && n in t.wl && k != n ensures Disjoint(t.wl[k], t.wl[n]) {
      assert Disjoint(s.wl[k], s.wl[n]);
    }
    assert m in t.wl && s.cur in t.wl[m];
  }

  /** task_wake puts a task in two places exactly when the task waits on a semaphore. */
  lemma WakeOnePlace(s: Sched, t: Task)
    requires Sound(s)
    ensures OnePlace(Wake(s, t)) <==> !Waiting(s, t)
  {
    WakeSound(s, t);
    if Waiting(s, t) {
      if t in s.sq { AsleepNotWaiting(s, t); }
      var m :| m in s.wl && t in s.wl[m];
      var r := Wake(s, t);
      assert Queued(r, t) && t in r.wl[m];
      assert !Separate(r, r.wl[m]);
    } else {
      SoundIsOnePlace(Wake(s, t));
    }
  }

  /** Why the idle task must stay off the lists: with it on one, the next yield that finds nothing
      queued runs it there.  Any other yield keeps every task in one place. */
  lemma YieldOnePlace(s: Sched)
    requires OnePlace(s)
    ensures OnePlace(Yield(s)) <==> !(Top(s.rq, LEVELS - 1) < 0 && OnList(s, s.idle))
  {
    var p, r := Top(s.rq, LEVELS - 1), Yield(s);
    var b := s.(rq := Popped(s.rq));
    PopSpread(s, b);
    if p >= 0 { PickedAlone(s); }
    if Next(s) != s.cur && s.cur != null {
      assert !OnList(b, s.cur);
      PushSpread(b, s.cur, b.(rq := Push(b.rq, s.cur)));
      SpreadCur(b.(rq := Push(b.rq, s.cur)), r);
    } else {
      SpreadCur(b, r);
    }
  }

  lemma SpreadCur(s: Sched, r: Sched)
    requires Spread(s) && r == s.(cur := r.cur)
    ensures Spread(r) && forall u :: OnList(r, u) <==> OnList(s, u)
  {
    forall m | m in r.wl ensures Separate(r, r.wl[m]) { assert Separate(s, s.wl[m]); }
  }
}
