/**
 The recursive mutex.  mutex_lock tests and takes the lock with interrupts masked, so an attempt
 is one step; mutex_unlock is not masked, so each of its loads and stores is a step of its own
 and any other task may run between two of them.
 */
module Mutex {
  import opened Options

  type Tid = nat

  datatype Cell = Cell(locked: bool, owner: Option<Tid>, count: int)

  /** Where a task stands: outside, retrying the test-and-set, or inside mutex_unlock past the
      owner test, past the load of `count`, past its store, or past the store of `owner`. */
  datatype Pc = Outside | Spinning | Owns | Loaded(count: int) | Dropped | Disowned

  datatype Op = Lock | Retry | TestOwner | LoadCount | StoreCount | ClearOwner | Release

  datatype Move = Move(t: Tid, op: Op)

  /** `got` and `gave` count the locks each task has obtained and given back. */
  datatype World = World(cell: Cell, pc: map<Tid, Pc>, got: map<Tid, nat>, gave: map<Tid, nat>)

  function PcOf(w: World, t: Tid): Pc {
    if t in w.pc then w.pc[t] else Outside
  }

  function Count(m: map<Tid, nat>, t: Tid): nat {
    if t in m then m[t] else 0
  }

  /** Locks obtained and not yet given back. */
  function Depth(w: World, t: Tid): int {
    Count(w.got, t) - Count(w.gave, t)
  }

  // ------------------------------------------------------------------ the code's steps

  /** One masked attempt of mutex_lock, up to the first test-and-set; the flag says whether it
      obtained the lock. */
  function Attempt(c: Cell, t: Tid): (Cell, bool) {
    if c.locked && c.owner == Some(t) then (c.(count := c.count + 1), true) else TestAndSet(c, t)
  }

  function TestAndSet(c: Cell, t: Tid): (Cell, bool) {
    if c.locked then (c, false) else (Cell(true, Some(t), 1), true)
  }

  predicate Enabled(w: World, m: Move) {
    match m.op
    case Lock => PcOf(w, m.t) == Outside
    case Retry => PcOf(w, m.t) == Spinning
    case TestOwner => PcOf(w, m.t) == Outside
    case LoadCount => PcOf(w, m.t) == Owns
    case StoreCount => PcOf(w, m.t).Loaded?
    case ClearOwner => PcOf(w, m.t) == Dropped
    case Release => PcOf(w, m.t) == Disowned
  }

  function Tried(w: World, t: Tid, a: (Cell, bool)): World {
    if a.1 then w.(cell := a.0, pc := w.pc[t := Outside], got := w.got[t := Count(w.got, t) + 1])
    else w.(cell := a.0, pc := w.pc[t := Spinning])
  }

  function Step(w: World, m: Move): World
    requires Enabled(w, m)
  {
    var t, c := m.t, w.cell;
    match m.op
    case Lock => Tried(w, t, Attempt(c, t))
    case Retry => Tried(w, t, TestAndSet(c, t))
    case TestOwner => if c.owner == Some(t) then w.(pc := w.pc[t := Owns]) else w
    case LoadCount => w.(pc := w.pc[t := Loaded(c.count)])
    case StoreCount =>
      var n := w.pc[t].count - 1;
      World(c.(count := n), w.pc[t := if n > 0 then Outside else Dropped], w.got, w.gave[t := Count(w.gave, t) + 1])
    case ClearOwner => w.(cell := c.(owner := None), pc := w.pc[t := Disowned])
    case Release => w.(cell := c.(locked := false), pc := w.pc[t := Outside])
  }

  predicate Legal(w: World, ms: seq<Move>)
    decreases |ms|
  {
    ms != [] ==> Enabled(w, ms[0]) && Legal(Step(w, ms[0]), ms[1..])
  }

  function Run(w: World, ms: seq<Move>): World
    requires Legal(w, ms)
    decreases |ms|
  {
    if ms == [] then w else Run(Step(w, ms[0]), ms[1..])
  }

  /** mutex_init. */
  const FRESH := World(Cell(false, None, 0), map[], map[], map[])

  // ------------------------------------------------------------------ safety

  predicate Away(w: World, t: Tid) {
    Depth(w, t) == 0 && PcOf(w, t) in {Outside, Spinning}
  }

  /** `h` is the one task that has the lock, or is in the middle of giving it up. */
  predicate HeldBy(w: World, h: Tid) {
    && w.cell.locked
    && (match PcOf(w, h)
        case Outside => w.cell.owner == Some(h) && w.cell.count == Depth(w, h) > 0
        case Spinning => false
        case Owns => w.cell.owner == Some(h) && w.cell.count == Depth(w, h) > 0
        case Loaded(n) => w.cell.owner == Some(h) && n == w.cell.count == Depth(w, h) > 0
        case Dropped => w.cell.owner == Some(h) && Depth(w, h) == 0
        case Disowned => w.cell.owner == None && Depth(w, h) == 0)
  }

  ghost predicate Inv(w: World) {
    if w.cell.locked
    then exists h: Tid :: HeldBy(w, h) && forall t: Tid :: t != h ==> Away(w, t)
    else w.cell.owner == None && forall t: Tid :: Away(w, t)
  }

  /** A move touches the program counter and the counts of the task that makes it only. */
  lemma StepFrame(w: World, m: Move, t: Tid)
    requires Enabled(w, m) && t != m.t
    ensures PcOf(Step(w, m), t) == PcOf(w, t) && Depth(Step(w, m), t) == Depth(w, t)
  {
  }

  lemma StepByHolder(w: World, m: Move)
    requires HeldBy(w, m.t) && Enabled(w, m)
    ensures var r := Step(w, m);
            if r.cell.locked then HeldBy(r, m.t) else r.cell.owner == None && Away(r, m.t)
  {
  }

  lemma StepByOther(w: World, m: Move, h: Tid)
    requires HeldBy(w, h) && h != m.t && Away(w, m.t) && Enabled(w, m)
    ensures Step(w, m).cell == w.cell && Away(Step(w, m), m.t)
  {
  }

  lemma StepWhenFree(w: World, m: Move)
    requires !w.cell.locked && w.cell.owner == None && Away(w, m.t) && Enabled(w, m)
    ensures var r := Step(w, m);
            if m.op in {Lock, Retry} then HeldBy(r, m.t) && r.cell.count == 1
            else !r.cell.locked && r.cell.owner == None && Away(r, m.t)
  {
  }

  lemma StepInv(w: World, m: Move)
    requires Inv(w) && Enabled(w, m)
    ensures Inv(Step(w, m))
  {
    hide Step, Enabled, PcOf, Depth;
    var r := Step(w, m);
    forall t: Tid | t != m.t ensures Away(w, t) ==> Away(r, t) { StepFrame(w, m, t); }
    if w.cell.locked {
      var h: Tid :| HeldBy(w, h) && forall t: Tid :: t != h ==> Away(w, t);
      if m.t == h {
        StepByHolder(w, m);
      } else {
        StepByOther(w, m, h);
        StepFrame(w, m, h);
        assert HeldBy(r, h);
      }
    } else {
      StepWhenFree(w, m);
    }
  }

  /** In every interleaving at most one task holds the mutex; its `count` is its locks minus its
      unlocks; and the mutex is free only when no task has a lock outstanding. */
  lemma {:induction false} MutualExclusion(w: World, ms: seq<Move>)
    requires Inv(w) && Legal(w, ms)
    ensures var r := Run(w, ms);
            && (forall t: Tid, u: Tid :: Depth(r, t) > 0 && Depth(r, u) > 0 ==> t == u)
            && (forall t: Tid :: Depth(r, t) > 0 ==>
                  r.cell.locked && r.cell.owner == Some(t) && r.cell.count == Depth(r, t))
            && (!r.cell.locked ==> forall t: Tid :: Depth(r, t) == 0)
            && Inv(r)
    decreases |ms|
  {
    if ms == [] {
      if w.cell.locked {
        var h: Tid :| HeldBy(w, h) && forall t: Tid :: t != h ==> Away(w, t);
        assert forall t: Tid :: Depth(w, t) > 0 ==> t == h by {
          forall t: Tid | Depth(w, t) > 0 ensures t == h { assert t != h ==> Away(w, t); }
        }
      } else {
        assert forall t: Tid :: Away(w, t) ==> Depth(w, t) == 0;
      }
    } else {
      StepInv(w, ms[0]);
      MutualExclusion(Step(w, ms[0]), ms[1..]);
    }
  }

  lemma FreshInv()
    ensures Inv(FRESH)
  {
    assert forall t: Tid :: Away(FRESH, t);
  }

  // ------------------------------------------------------------------ the calls, uninterrupted

  /** What mutex_unlock leaves when nothing runs in between. */
  function Unlocked(c: Cell, t: Tid): Cell {
    if c.owner != Some(t) then c
    else if c.count - 1 > 0 then c.(count := c.count - 1)
    else Cell(false, None, c.count - 1)
  }

  /** The moves of one mutex_unlock from start to end. */
  function UnlockMoves(c: Cell, t: Tid): seq<Move> {
    if c.owner != Some(t) then [Move(t, TestOwner)]
    else [Move(t, TestOwner), Move(t, LoadCount), Move(t, StoreCount)]
         + if c.count - 1 > 0 then [] else [Move(t, ClearOwner), Move(t, Release)]
  }

  lemma UnlockIsItsMoves(w: World, t: Tid)
    requires PcOf(w, t) == Outside
    ensures Legal(w, UnlockMoves(w.cell, t)) && Run(w, UnlockMoves(w.cell, t)).cell == Unlocked(w.cell, t)
    ensures PcOf(Run(w, UnlockMoves(w.cell, t)), t) == Outside
  {
    var m0, m1, m2 := Move(t, TestOwner), Move(t, LoadCount), Move(t, StoreCount);
    var m3, m4 := Move(t, ClearOwner), Move(t, Release);
    var w1 := Step(w, m0);
    if w.cell.owner != Some(t) {
      RunFirst(w, m0, []);
    } else {
      var w2 := Step(w1, m1);
      var w3 := Step(w2, m2);
      var rest: seq<Move> := [];
      if w.cell.count - 1 <= 0 {
        var w4 := Step(w3, m3);
        RunFirst(w4, m4, []);
        RunFirst(w3, m3, [m4]);
        rest := [m3, m4];
      }
      RunFirst(w2, m2, rest);
      RunFirst(w1, m1, [m2] + rest);
      RunFirst(w, m0, [m1] + ([m2] + rest));
      assert UnlockMoves(w.cell, t) == [m0] + ([m1] + ([m2] + rest));
      hide Step, Enabled;
    }
  }

  lemma RunFirst(w: World, m: Move, rest: seq<Move>)
    requires Enabled(w, m) && Legal(Step(w, m), rest)
    ensures Legal(w, [m] + rest) && Run(w, [m] + rest) == Run(Step(w, m), rest)
  {
    assert ([m] + rest)[1..] == rest;
  }

  // ------------------------------------------------------------------ what the callers get

  /** An attempt fails if and only if the mutex is locked and the task is not its owner; a failed one changes nothing
      and leaves the task retrying.  On a free mutex it makes the task the owner, once; otherwise once more. */
  lemma AttemptOutcome(w: World, m: Move)
    requires Inv(w) && Enabled(w, m) && m.op in {Lock, Retry}
    ensures var r, fails := Step(w, m), w.cell.locked && w.cell.owner != Some(m.t);
            if fails then r.cell == w.cell && PcOf(r, m.t) == Spinning && Depth(r, m.t) == Depth(w, m.t)
            else && PcOf(r, m.t) == Outside && Depth(r, m.t) == Depth(w, m.t) + 1
                 && r.cell.locked && r.cell.owner == Some(m.t)
                 && r.cell.count == if w.cell.locked then w.cell.count + 1 else 1
  {
    if w.cell.locked {
      var h: Tid :| HeldBy(w, h) && forall t: Tid :: t != h ==> Away(w, t);
    }
  }

  /** An uninterrupted mutex_unlock by the holder gives back one lock, and frees the mutex with the last; by any other
      task it changes nothing. */
  lemma UnlockOutcome(w: World, t: Tid)
    requires Inv(w) && PcOf(w, t) == Outside
    ensures Legal(w, UnlockMoves(w.cell, t))
    ensures var r := Run(w, UnlockMoves(w.cell, t));
            && Inv(r) && PcOf(r, t) == Outside
            && if Depth(w, t) == 0 then r.cell == w.cell && Depth(r, t) == 0
               else && Depth(r, t) == Depth(w, t) - 1 >= 0
                    && (Depth(w, t) == 1 ==> !r.cell.locked && r.cell.owner == None)
                    && (Depth(w, t) > 1 ==> r.cell == w.cell.(count := w.cell.count - 1))
  {
    hide Inv, UnlockMoves;
    UnlockIsItsMoves(w, t);
    MutualExclusion(w, UnlockMoves(w.cell, t));
    DepthIsCount(w, t);
    DepthIsCount(Run(w, UnlockMoves(w.cell, t)), t);
  }

  /** A task at no point of a call has locks outstanding exactly when it is the owner, and `count` of them. */
  lemma DepthIsCount(w: World, t: Tid)
    requires Inv(w) && PcOf(w, t) == Outside
    ensures Depth(w, t) >= 0 && (Depth(w, t) > 0 <==> w.cell.owner == Some(t))
    ensures w.cell.owner == Some(t) ==> w.cell.locked && w.cell.count == Depth(w, t)
  {
    if w.cell.locked {
      var h: Tid :| HeldBy(w, h) && forall u: Tid :: u != h ==> Away(w, u);
      assert t != h ==> Away(w, t);
    } else {
      assert Away(w, t);
    }
  }

  lemma {:induction false} RunJoin(w: World, a: seq<Move>, b: seq<Move>)
    requires Legal(w, a) && Legal(Run(w, a), b)
    ensures Legal(w, a + b) && Run(w, a + b) == Run(Run(w, a), b)
    decreases |a|
  {
    if a == [] {
      assert a + b == b;
    } else {
      assert (a + b)[1..] == a[1..] + b;
      RunJoin(Step(w, a[0]), a[1..], b);
    }
  }

  lemma {:induction false} LockTimes(w: World, t: Tid, n: nat) returns (ms: seq<Move>)
    requires Inv(w) && PcOf(w, t) == Outside && (!w.cell.locked || w.cell.owner == Some(t))
    ensures Legal(w, ms) && ms == seq(n, _ => Move(t, Lock))
    ensures var r := Run(w, ms);
            && Inv(r) && PcOf(r, t) == Outside && Depth(r, t) == Depth(w, t) + n
            && (n > 0 ==> r.cell.locked && r.cell.owner == Some(t))
    decreases n
  {
    hide Inv, Step, Depth, PcOf;
    if n == 0 {
      ms := [];
    } else {
      var m := Move(t, Lock);
      StepInv(w, m);
      AttemptOutcome(w, m);
      ms := LockTimes(Step(w, m), t, n - 1);
      RunFirst(w, m, ms);
      ms := [m] + ms;
    }
  }

  lemma {:induction false} UnlockTimes(w: World, t: Tid, n: nat) returns (ms: seq<Move>)
    requires Inv(w) && PcOf(w, t) == Outside && Depth(w, t) >= n
    ensures Legal(w, ms) && forall i :: 0 <= i < |ms| ==> ms[i].t == t && ms[i].op !in {Lock, Retry}
    ensures Inv(Run(w, ms)) && PcOf(Run(w, ms), t) == Outside && Depth(Run(w, ms), t) == Depth(w, t) - n
    decreases n
  {
    hide Inv, Depth, PcOf, Run, Legal;
    if n == 0 {
      ms := [];
      RunNone(w);
    } else {
      var one := UnlockMoves(w.cell, t);
      UnlockOutcome(w, t);
      ms := UnlockTimes(Run(w, one), t, n - 1);
      RunJoin(w, one, ms);
      ms := one + ms;
    }
  }

  lemma RunNone(w: World)
    ensures Legal(w, []) && Run(w, []) == w
  {}

  lemma {:induction false} RunFrame(w: World, ms: seq<Move>, t: Tid, u: Tid)
    requires Legal(w, ms) && u != t && forall i :: 0 <= i < |ms| ==> ms[i].t == t
    ensures PcOf(Run(w, ms), u) == PcOf(w, u) && Depth(Run(w, ms), u) == Depth(w, u)
    decreases |ms|
  {
    hide Step, Enabled;
    if ms != [] {
      StepFrame(w, ms[0], u);
      RunFrame(Step(w, ms[0]), ms[1..], t, u);
    }
  }

  /** A task that has given back every lock it took from a free mutex has left the mutex free. */
  lemma FreeAfter(w: World, ms: seq<Move>, t: Tid)
    requires Inv(w) && !w.cell.locked && Legal(w, ms) && forall i :: 0 <= i < |ms| ==> ms[i].t == t
    requires PcOf(Run(w, ms), t) == Outside && Depth(Run(w, ms), t) == 0
    ensures Inv(Run(w, ms)) && !Run(w, ms).cell.locked
  {
    hide Run, Legal;
    MutualExclusion(w, ms);
    var r := Run(w, ms);
    if r.cell.locked {
      var h: Tid :| HeldBy(r, h) && forall t: Tid :: t != h ==> Away(r, t);
      assert Away(w, h);
      if h != t { RunFrame(w, ms, t, h); }
    }
  }

  /** From any state in which the mutex is free: a task that locks it n times and unlocks it n times leaves it free,
      and any task that then tries obtains it. */
  lemma LocksAndUnlocks(w: World, t: Tid, n: nat, u: Tid) returns (locks: seq<Move>, unlocks: seq<Move>)
    requires Inv(w) && !w.cell.locked && PcOf(w, t) == Outside && PcOf(w, u) in {Outside, Spinning}
    ensures locks == seq(n, _ => Move(t, Lock)) && Legal(w, locks + unlocks)
    ensures forall i :: 0 <= i < |unlocks| ==> unlocks[i].t == t && unlocks[i].op !in {Lock, Retry}
    ensures var r := Run(w, locks + unlocks);
            var next := Move(u, if PcOf(r, u) == Spinning then Retry else Lock);
            && Depth(r, t) == 0 && !r.cell.locked && Enabled(r, next)
            && Step(r, next).cell == Cell(true, Some(u), 1) && Depth(Step(r, next), u) == 1
  {
    hide Inv, Depth, Run, Legal, Step;
    locks := LockTimes(w, t, n);
    var a := Run(w, locks);
    FreeMeansNone(w, t);
    unlocks := UnlockTimes(a, t, n);
    RunJoin(w, locks, unlocks);
    FreeAfter(w, locks + unlocks, t);
    var r := Run(w, locks + unlocks);
    if u != t { RunFrame(w, locks + unlocks, t, u); }
    FreeMeansNone(r, u);
    AttemptOutcome(r, Move(u, if PcOf(r, u) == Spinning then Retry else Lock));
  }

  lemma FreeMeansNone(w: World, t: Tid)
    requires Inv(w) && !w.cell.locked
    ensures Depth(w, t) == 0
  {
    assert Away(w, t);
  }

  class RecursiveMutex {
    var locked: bool
    var owner: Option<Tid>
    var count: int

    function View(): Cell
      reads this
    {
      Cell(locked, owner, count)
    }

    constructor ()
      ensures View() == FRESH.cell
    {
      locked, owner, count := false, None, 0;
    }

    /** One pass of mutex_lock; when it returns false the caller yields and tries again. */
    method TryLock(current: Tid) returns (got: bool)
      modifies this
      ensures (View(), got) == Attempt(old(View()), current)
      ensures got <==> !old(locked) || old(owner) == Some(current)
      ensures got ==> locked && owner == Some(current) && count == if old(locked) then old(count) + 1 else 1
      ensures !got ==> View() == old(View())
    {
      if locked && owner == Some(current) {
        count := count + 1;
        return true;
      }
      var was := locked;
      locked := true;
      if was { return false; }
      owner := Some(current);
      count := 1;
      got := true;
    }

    method Unlock(current: Tid)
      modifies this
      ensures View() == Unlocked(old(View()), current)
    {
      if owner != Some(current) { return; }
      count := count - 1;
      if count > 0 { return; }
      owner := None;
      locked := false;
    }
  }
}
