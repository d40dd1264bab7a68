/**
 The DMA descriptor rings of the WiFi driver.  Each descriptor belongs to the CPU or to the DMA
 engine; in both rings one side appends at one end of a cyclic window and the other side takes
 from the other end.
 */
module WifiRings {
  import opened Checksum
  import opened Options

  datatype Owner = Cpu | Dma

  type Frame = seq<Byte>

  const DESCRIPTORS: nat := 8
  const BUF_SIZE: nat := 1536

  function Slot(start: nat, k: nat): (i: nat)
    ensures i < DESCRIPTORS
  {
    (start + k) % DESCRIPTORS
  }

  // ------------------------------------------------------------------ a queue in a window

  /** The descriptors marked `mark` are exactly the window of |q| slots from `start`, and they
      hold `q` in order. */
  predicate Holds(owner: seq<Owner>, buf: seq<Frame>, mark: Owner, start: nat, q: seq<Frame>) {
    && |owner| == |buf| == DESCRIPTORS && start < DESCRIPTORS && |q| <= DESCRIPTORS
    && (forall k :: 0 <= k < DESCRIPTORS ==> (owner[Slot(start, k)] == mark <==> k < |q|))
    && (forall k :: 0 <= k < |q| ==> buf[Slot(start, k)] == q[k])
  }

  lemma HoldsSized(owner: seq<Owner>, buf: seq<Frame>, mark: Owner, start: nat, q: seq<Frame>)
    requires Holds(owner, buf, mark, start, q)
    ensures |owner| == |buf| == DESCRIPTORS && start < DESCRIPTORS && |q| <= DESCRIPTORS
  {
  }

  lemma SlotsDiffer(start: nat, j: nat, k: nat)
    requires start < DESCRIPTORS && j < DESCRIPTORS && k < DESCRIPTORS && j != k
    ensures Slot(start, j) != Slot(start, k)
  {
  }

  lemma NextSlot(start: nat, k: nat)
    requires start < DESCRIPTORS
    ensures Slot(Slot(start, 1), k) == Slot(start, k + 1)
  {
  }

  lemma FullTurn(start: nat)
    requires start < DESCRIPTORS
    ensures Slot(start, DESCRIPTORS) == Slot(start, 0) == start
  {
  }

  /** The slot after the window is marked exactly when the window is the whole ring. */
  lemma FullIff(owner: seq<Owner>, buf: seq<Frame>, mark: Owner, start: nat, q: seq<Frame>)
    requires Holds(owner, buf, mark, start, q)
    ensures owner[Slot(start, |q|)] == mark <==> |q| == DESCRIPTORS
    ensures owner[start] == mark <==> q != []
  {
    FullTurn(start);
    assert owner[Slot(start, 0)] == mark <==> 0 < |q|;
    if |q| < DESCRIPTORS { assert owner[Slot(start, |q|)] == mark <==> |q| < |q|; }
  }

  lemma Append(owner: seq<Owner>, buf: seq<Frame>, mark: Owner, start: nat, q: seq<Frame>, f: Frame)
    requires Holds(owner, buf, mark, start, q) && |q| < DESCRIPTORS
    ensures var i := Slot(start, |q|); Holds(owner[i := mark], buf[i := f], mark, start, q + [f])
  {
    var n := |q|;
    var i := Slot(start, n);
    forall k | 0 <= k < DESCRIPTORS ensures owner[i := mark][Slot(start, k)] == mark <==> k < n + 1 {
      if k != n { SlotsDiffer(start, k, n); }
    }
    forall k | 0 <= k < n + 1 ensures buf[i := f][Slot(start, k)] == (q + [f])[k] {
      if k != n { SlotsDiffer(start, k, n); }
    }
  }

  lemma Behead(owner: seq<Owner>, buf: seq<Frame>, mark: Owner, start: nat, q: seq<Frame>, other: Owner)
    requires Holds(owner, buf, mark, start, q) && q != [] && other != mark
    ensures Holds(owner[start := other], buf, mark, Slot(start, 1), q[1..]) && buf[start] == q[0]
  {
    FullTurn(start);
    var r := owner[start := other];
    assert buf[Slot(start, 0)] == q[0];
    forall k | 0 <= k < DESCRIPTORS ensures r[Slot(Slot(start, 1), k)] == mark <==> k < |q| - 1 {
      NextSlot(start, k);
      if k + 1 < DESCRIPTORS {
        SlotsDiffer(start, 0, k + 1);
        assert owner[Slot(start, k + 1)] == mark <==> k + 1 < |q|;
      }
    }
    forall k | 0 <= k < |q| - 1 ensures buf[Slot(Slot(start, 1), k)] == q[1..][k] {
      NextSlot(start, k);
      assert buf[Slot(start, k + 1)] == q[k + 1];
    }
  }

  // ------------------------------------------------------------------ transmit

  /** `head` is tx_desc_head; `hw` is where the DMA engine works, in ring order. */
  datatype Tx = Tx(owner: seq<Owner>, buf: seq<Frame>, head: nat, hw: nat)

  datatype TxEvent = SendE(up: bool, frame: Frame) | DoneE

  /** wifi_transmit; the flag is whether the frame was accepted. */
  function Send(r: Tx, up: bool, f: Frame): (Tx, bool)
    requires |r.owner| == |r.buf| == DESCRIPTORS && r.head < DESCRIPTORS
  {
    if !up || |f| > BUF_SIZE || r.owner[r.head] == Dma then (r, false)
    else (r.(owner := r.owner[r.head := Dma], buf := r.buf[r.head := f], head := Slot(r.head, 1)), true)
  }

  /** The DMA engine completes the descriptor it is at, if that is its own. */
  function Complete(r: Tx): (Tx, Option<Frame>)
    requires |r.owner| == |r.buf| == DESCRIPTORS && r.hw < DESCRIPTORS
  {
    if r.owner[r.hw] != Dma then (r, None)
    else (r.(owner := r.owner[r.hw := Cpu], hw := Slot(r.hw, 1)), Some(r.buf[r.hw]))
  }

  /** The ring is the queue `q`, oldest frame first, ending at `head`. */
  predicate IsQueue(r: Tx, q: seq<Frame>) {
    Holds(r.owner, r.buf, Dma, r.hw, q) && r.head == Slot(r.hw, |q|)
  }

  lemma SendAppends(r: Tx, q: seq<Frame>, up: bool, f: Frame)
    requires IsQueue(r, q)
    ensures var (s, ok) := Send(r, up, f);
            && (ok <==> up && |f| <= BUF_SIZE && |q| < DESCRIPTORS)
            && IsQueue(s, if ok then q + [f] else q)
            && (forall i :: 0 <= i < DESCRIPTORS && r.owner[i] == Dma ==> s.owner[i] == Dma && s.buf[i] == r.buf[i])
  {
    FullIff(r.owner, r.buf, Dma, r.hw, q);
    if |q| < DESCRIPTORS {
      Append(r.owner, r.buf, Dma, r.hw, q, f);
      SlotPlusOne(r.hw, |q|);
    }
  }

  lemma SlotPlusOne(start: nat, n: nat)
    ensures Slot(Slot(start, n), 1) == Slot(start, n + 1)
  {
  }

  lemma CompleteBeheads(r: Tx, q: seq<Frame>)
    requires IsQueue(r, q)
    ensures var (s, out) := Complete(r);
            && out == (if q == [] then None else Some(q[0]))
            && IsQueue(s, if q == [] then q else q[1..])
  {
    FullIff(r.owner, r.buf, Dma, r.hw, q);
    if q != [] {
      Behead(r.owner, r.buf, Dma, r.hw, q, Cpu);
      NextSlot(r.hw, |q| - 1);
    }
  }

  /** A run of the ring: the state, the frames accepted and the frames completed. */
  function TxRun(r: Tx, es: seq<TxEvent>): (Tx, seq<Frame>, seq<Frame>)
    requires |r.owner| == |r.buf| == DESCRIPTORS && r.head < DESCRIPTORS && r.hw < DESCRIPTORS
    decreases |es|
  {
    if es == [] then (r, [], []) else
    match es[0]
    case SendE(up, f) =>
      var (s, ok) := Send(r, up, f);
      var (t, a, c) := TxRun(s, es[1..]);
      (t, if ok then [f] + a else a, c)
    case DoneE =>
      var (s, out) := Complete(r);
      var (t, a, c) := TxRun(s, es[1..]);
      (t, a, if out.Some? then [out.value] + c else c)
  }

  /** In every run the transmit ring is a FIFO of capacity eight: what was queued, followed by what
      is accepted, is what completes, followed by what is still queued. */
  lemma {:induction false} TxIsFifo(r: Tx, q: seq<Frame>, es: seq<TxEvent>) returns (left: seq<Frame>)
    requires IsQueue(r, q)
    ensures var (s, accepted, completed) := TxRun(r, es);
            IsQueue(s, left) && q + accepted == completed + left && |left| <= DESCRIPTORS
    decreases |es|
  {
    hide Holds, Slot, Send, Complete;
    QueueSize(r, q);
    if es == [] {
      left := q;
    } else {
      var (s, accepted, completed) := TxRun(r, es);
      match es[0] {
        case SendE(up, f) =>
          SendAppends(r, q, up, f);
          var (t, ok) := Send(r, up, f);
          QueueSize(t, if ok then q + [f] else q);
          left := TxIsFifo(t, if ok then q + [f] else q, es[1..]);
          if ok { assert q + accepted == (q + [f]) + TxRun(t, es[1..]).1; }
        case DoneE =>
          CompleteBeheads(r, q);
          var (t, out) := Complete(r);
          QueueSize(t, if q == [] then q else q[1..]);
          left := TxIsFifo(t, if q == [] then q else q[1..], es[1..]);
          if q != [] {
            assert q + accepted == [q[0]] + (q[1..] + accepted);
            assert completed + left == [q[0]] + (TxRun(t, es[1..]).2 + left);
          }
      }
    }
  }

  lemma QueueSize(r: Tx, q: seq<Frame>)
    requires IsQueue(r, q)
    ensures |q| <= DESCRIPTORS && |r.owner| == |r.buf| == DESCRIPTORS && r.head < DESCRIPTORS && r.hw < DESCRIPTORS
  {
  }

  const TX_INIT := Tx(seq(DESCRIPTORS, _ => Cpu), seq(DESCRIPTORS, _ => []), 0, 0)

  lemma TxInitEmpty()
    ensures IsQueue(TX_INIT, [])
  {
  }

  // ------------------------------------------------------------------ receive

  /** `head` is rx_desc_head; `hw` is where the DMA engine writes next; `count` and `waiting` are
      the semaphore; `token` says that the receive task is past its wait. */
  datatype Rx = Rx(owner: seq<Owner>, buf: seq<Frame>, head: nat, hw: nat, count: nat, waiting: bool, token: bool)

  datatype RxEvent = ArriveE(frame: Frame) | WaitE | TakeE

  predicate RxSized(r: Rx) {
    |r.owner| == |r.buf| == DESCRIPTORS && r.head < DESCRIPTORS && r.hw < DESCRIPTORS
  }

  /** The receive task waits only when it holds no token, and takes only with one. */
  predicate RxEnabled(r: Rx, e: RxEvent) {
    match e
    case ArriveE(_) => true
    case WaitE => !r.token && !r.waiting
    case TakeE => r.token
  }

  /** The engine fills its descriptor and the interrupt signals once; a frame that finds no
      descriptor is dropped without a signal. */
  function Arrive(r: Rx, f: Frame): Rx
    requires RxSized(r)
  {
    if r.owner[r.hw] != Dma then r else
    var s := r.(owner := r.owner[r.hw := Cpu], buf := r.buf[r.hw := f], hw := Slot(r.hw, 1));
    if s.waiting then s.(waiting := false, token := true) else s.(count := s.count + 1)
  }

  function RxStep(r: Rx, e: RxEvent): (Rx, Option<Frame>)
    requires RxSized(r)
  {
    match e
    case ArriveE(f) => (Arrive(r, f), None)
    case WaitE => (if r.count > 0 then r.(count := r.count - 1, token := true) else r.(waiting := true), None)
    case TakeE =>
      if r.owner[r.head] == Cpu
      then (r.(owner := r.owner[r.head := Dma], head := Slot(r.head, 1), token := false), Some(r.buf[r.head]))
      else (r.(token := false), None)
  }

  /** The frames completed and not yet taken are `q`, and there is a signal for each. */
  predicate Signalled(r: Rx, q: seq<Frame>) {
    && Holds(r.owner, r.buf, Cpu, r.head, q) && r.hw == Slot(r.head, |q|)
    && |q| == r.count + (if r.token then 1 else 0)
    && (r.waiting ==> r.count == 0 && !r.token)
  }

  function Arrived(r: Rx, q: seq<Frame>, e: RxEvent): seq<Frame> {
    if e.ArriveE? && |q| < DESCRIPTORS then [e.frame] else []
  }

  lemma ArriveSignalled(r: Rx, q: seq<Frame>, f: Frame)
    requires Signalled(r, q)
    ensures RxSized(r) && RxSized(Arrive(r, f))
    ensures Signalled(Arrive(r, f), if |q| < DESCRIPTORS then q + [f] else q)
  {
    FullIff(r.owner, r.buf, Cpu, r.head, q);
    hide Holds, Slot;
    HoldsSized(r.owner, r.buf, Cpu, r.head, q);
    if |q| < DESCRIPTORS {
      Append(r.owner, r.buf, Cpu, r.head, q, f);
      SlotPlusOne(r.head, |q|);
    }
  }

  lemma ArriveWakes(r: Rx, q: seq<Frame>, f: Frame)
    requires Signalled(r, q) && RxSized(r) && r.waiting
    ensures Arrive(r, f).token && !Arrive(r, f).waiting
  {
    FullIff(r.owner, r.buf, Cpu, r.head, q);
  }

  lemma TakeSignalled(r: Rx, q: seq<Frame>)
    requires Signalled(r, q) && r.token
    ensures RxSized(r) && RxSized(RxStep(r, TakeE).0)
    ensures q != [] && RxStep(r, TakeE).1 == Some(q[0]) && Signalled(RxStep(r, TakeE).0, q[1..])
  {
    FullIff(r.owner, r.buf, Cpu, r.head, q);
    hide Holds, Slot;
    HoldsSized(r.owner, r.buf, Cpu, r.head, q);
    Behead(r.owner, r.buf, Cpu, r.head, q, Dma);
    NextSlot(r.head, |q| - 1);
  }

  /** A receive pass never finds a descriptor the engine owns: it takes the oldest frame.  The task waits only while
      there is no frame, and the first to arrive lets it go on. */
  lemma RxStepSignalled(r: Rx, q: seq<Frame>, e: RxEvent)
    requires Signalled(r, q) && RxEnabled(r, e)
    ensures RxSized(r) && RxSized(RxStep(r, e).0)
    ensures e.TakeE? ==> q != [] && RxStep(r, e).1 == Some(q[0])
    ensures !e.TakeE? ==> RxStep(r, e).1 == None
    ensures e.WaitE? ==> if q == [] then RxStep(r, e).0.waiting else RxStep(r, e).0.token
    ensures e.ArriveE? && r.waiting ==> RxStep(r, e).0.token && !RxStep(r, e).0.waiting
    ensures Signalled(RxStep(r, e).0, if e.TakeE? then q[1..] else q + Arrived(r, q, e))
  {
    hide Holds, Slot, Arrive;
    HoldsSized(r.owner, r.buf, Cpu, r.head, q);
    match e {
      case ArriveE(f) =>
        ArriveSignalled(r, q, f);
        if r.waiting { ArriveWakes(r, q, f); }
        assert q + [] == q;
      case WaitE => assert q + [] == q;
      case TakeE => TakeSignalled(r, q);
    }
  }

  predicate RxLegal(r: Rx, es: seq<RxEvent>)
    requires RxSized(r)
    decreases |es|
  {
    es != [] ==> RxEnabled(r, es[0]) && RxLegal(RxStep(r, es[0]).0, es[1..])
  }

  /** A run: the state, the frames completed by the engine and the frames taken by the task. */
  function RxRun(r: Rx, es: seq<RxEvent>): (Rx, seq<Frame>, seq<Frame>)
    requires RxSized(r)
    decreases |es|
  {
    if es == [] then (r, [], []) else
    var (s, out) := RxStep(r, es[0]);
    var (t, done, taken) := RxRun(s, es[1..]);
    (t, if es[0].ArriveE? && r.owner[r.hw] == Dma then [es[0].frame] + done else done,
     if out.Some? then [out.value] + taken else taken)
  }

  /** In every run each completed frame is taken exactly once and in order: what was signalled,
      followed by what completes, is what is taken, followed by what is still signalled. */
  lemma {:induction false} RxInOrder(r: Rx, q: seq<Frame>, es: seq<RxEvent>) returns (left: seq<Frame>)
    requires Signalled(r, q) && RxSized(r) && RxLegal(r, es)
    ensures var (s, done, taken) := RxRun(r, es);
            && Signalled(s, left) && q + done == taken + left
            && |left| == s.count + (if s.token then 1 else 0)
    decreases |es|
  {
    hide Holds, Slot, RxStep, RxSized;
    if es == [] {
      left := q;
    } else {
      var e, s := es[0], RxStep(r, es[0]).0;
      RxStepSignalled(r, q, e);
      ArriveIffRoom(r, q);
      hide Signalled;
      var p := if e.TakeE? then q[1..] else q + Arrived(r, q, e);
      left := RxInOrder(s, p, es[1..]);
      var (t, done, taken) := RxRun(s, es[1..]);
      if e.TakeE? {
        assert q + done == [q[0]] + (q[1..] + done);
        assert ([q[0]] + taken) + left == [q[0]] + (taken + left);
      } else {
        assert p + done == q + (Arrived(r, q, e) + done);
        assert [] + done == done;
      }
    }
    SignalsCounted(RxRun(r, es).0, left);
  }

  lemma SignalsCounted(r: Rx, q: seq<Frame>)
    requires Signalled(r, q)
    ensures |q| == r.count + (if r.token then 1 else 0)
  {
  }

  lemma ArriveIffRoom(r: Rx, q: seq<Frame>)
    requires Signalled(r, q)
    ensures RxSized(r) && (r.owner[r.hw] == Dma <==> |q| < DESCRIPTORS)
  {
    FullIff(r.owner, r.buf, Cpu, r.head, q);
  }

  const RX_INIT := Rx(seq(DESCRIPTORS, _ => Dma), seq(DESCRIPTORS, _ => []), 0, 0, 0, false, false)

  lemma RxInitEmpty()
    ensures Signalled(RX_INIT, [])
  {
  }

  // ------------------------------------------------------------------ the code

  class TxRing {
    var owner: array<Owner>
    var buf: array<Frame>
    var head: nat
    var hw: nat

    ghost predicate Valid()
      reads this
    {
      owner.Length == buf.Length == DESCRIPTORS && head < DESCRIPTORS && hw < DESCRIPTORS
    }

    function View(): Tx
      reads this, owner, buf
    {
      Tx(owner[..], buf[..], head, hw)
    }

    /** The transmit part of wifi_dma_init. */
    constructor ()
      ensures Valid() && fresh(owner) && fresh(buf) && View() == TX_INIT
    {
      owner := new Owner[DESCRIPTORS](_ => Cpu);
      buf := new Frame[DESCRIPTORS](_ => []);
      head, hw := 0, 0;
    }

    /** wifi_transmit. */
    method Transmit(up: bool, frame: Frame) returns (ok: bool)
      requires Valid()
      modifies this`head, owner, buf
      ensures Valid() && (View(), ok) == Send(old(View()), up, frame)
    {
      if !up || |frame| > BUF_SIZE || owner[head] == Dma { return false; }
      buf[head] := frame;
      owner[head] := Dma;
      head := Slot(head, 1);
      ok := true;
    }
  }

  class RxRing {
    var owner: array<Owner>
    var buf: array<Frame>
    var head: nat

    ghost predicate Valid()
      reads this
    {
      owner.Length == buf.Length == DESCRIPTORS && head < DESCRIPTORS
    }

    constructor ()
      ensures Valid() && fresh(owner) && fresh(buf)
      ensures owner[..] == RX_INIT.owner && buf[..] == RX_INIT.buf && head == 0
    {
      owner := new Owner[DESCRIPTORS](_ => Dma);
      buf := new Frame[DESCRIPTORS](_ => []);
      head := 0;
    }

    /** The body of wifi_rx_task_func's loop after its wait. */
    method TakeFrame(ghost r: Rx) returns (out: Option<Frame>)
      requires Valid() && RxSized(r) && r.owner == owner[..] && r.buf == buf[..] && r.head == head
      modifies this`head, owner
      ensures Valid()
      ensures var (s, o) := RxStep(r, TakeE);
              out == o && owner[..] == s.owner && buf[..] == s.buf && head == s.head
    {
      if owner[head] != Cpu { return None; }
      out := Some(buf[head]);
      owner[head] := Dma;
      head := Slot(head, 1);
    }
  }
}
