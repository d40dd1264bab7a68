/** The ARP cache: sixteen slots, first-match lookup, a sweep every thousand ticks. */
module Arp {
  import opened Options

  type Ip = nat
  type Mac = nat

  datatype Entry = Entry(ip: Ip, mac: Mac, expire: nat, used: bool)

  type Table = seq<Entry>

  const SLOTS: nat := 16
  const LIFETIME: nat := 300
  const PERIOD: nat := 1000

  predicate Matches(e: Entry, ip: Ip) {
    e.used && e.ip == ip
  }

  /** arp_resolve. */
  function Lookup(t: Table, ip: Ip): Option<Mac> {
    if t == [] then None else if Matches(t[0], ip) then Some(t[0].mac) else Lookup(t[1..], ip)
  }

  /** The slot arp_input writes: the first that is free or already holds `ip`; |t| if there is none. */
  function Slot(t: Table, ip: Ip): (i: nat)
    ensures i <= |t|
    ensures i < |t| ==> !t[i].used || t[i].ip == ip
    ensures forall j :: 0 <= j < i ==> t[j].used && t[j].ip != ip
  {
    if t == [] || !t[0].used || t[0].ip == ip then 0 else 1 + Slot(t[1..], ip)
  }

  function Learn(t: Table, ip: Ip, mac: Mac, tick: nat): Table {
    var i := Slot(t, ip);
    if i < |t| then t[i := Entry(ip, mac, tick + LIFETIME, true)] else t
  }

  predicate Expired(e: Entry, tick: nat) {
    e.used && e.expire != 0 && tick > e.expire
  }

  function Sweep(t: Table, tick: nat): (r: Table)
    ensures |r| == |t|
    ensures forall i :: 0 <= i < |t| ==> r[i] == if Expired(t[i], tick) then t[i].(used := false) else t[i]
  {
    seq(|t|, i requires 0 <= i < |t| => if Expired(t[i], tick) then t[i].(used := false) else t[i])
  }

  // ------------------------------------------------------------------ between sweeps: a map

  lemma {:induction false} FirstMatch(t: Table, ip: Ip, i: nat)
    requires i < |t| && Matches(t[i], ip) && forall j :: 0 <= j < i ==> !Matches(t[j], ip)
    ensures Lookup(t, ip) == Some(t[i].mac)
  {
    if i > 0 { FirstMatch(t[1..], ip, i - 1); }
  }

  lemma {:induction false} NoMatch(t: Table, ip: Ip)
    requires forall j :: 0 <= j < |t| ==> !Matches(t[j], ip)
    ensures Lookup(t, ip) == None
  {
    if t != [] { NoMatch(t[1..], ip); }
  }

  lemma {:induction false} OtherKey(t: Table, i: nat, e: Entry, k: Ip)
    requires i < |t| && !Matches(t[i], k) && !Matches(e, k)
    ensures Lookup(t[i := e], k) == Lookup(t, k)
  {
    if i > 0 {
      assert t[i := e][1..] == t[1..][i - 1 := e];
      OtherKey(t[1..], i - 1, e, k);
    } else {
      assert t[i := e][1..] == t[1..];
    }
  }

  /** Learning is a map update: exactly the key learned changes, unless every slot is taken by
      another address, and then nothing does. */
  lemma LearnIsUpdate(t: Table, ip: Ip, mac: Mac, tick: nat, k: Ip)
    ensures Lookup(Learn(t, ip, mac, tick), k) ==
            if k == ip && Slot(t, ip) < |t| then Some(mac) else Lookup(t, k)
    ensures Slot(t, ip) == |t| <==> forall j :: 0 <= j < |t| ==> t[j].used && t[j].ip != ip
    ensures Slot(t, ip) == |t| ==> Lookup(t, ip) == None
  {
    var i, r := Slot(t, ip), Learn(t, ip, mac, tick);
    if i < |t| {
      if k == ip { FirstMatch(r, ip, i); } else { OtherKey(t, i, r[i], k); }
    } else {
      NoMatch(t, ip);
    }
  }

  // ------------------------------------------------------------------ over whole runs: ageing

  /** The cache with two histories: `now` counts all ticks, `at[i]` is when slot `i` was last learned. */
  datatype Cache = Cache(table: Table, tick: nat, now: nat, at: seq<nat>)

  datatype Event = LearnE(ip: Ip, mac: Mac) | TickE

  function Step(c: Cache, e: Event): Cache
    requires |c.at| == |c.table|
  {
    match e
    case LearnE(ip, mac) =>
      var i := Slot(c.table, ip);
      c.(table := Learn(c.table, ip, mac, c.tick), at := if i < |c.at| then c.at[i := c.now] else c.at)
    case TickE =>
      if c.tick + 1 >= PERIOD
      then c.(table := Sweep(c.table, c.tick + 1), tick := 0, now := c.now + 1)
      else c.(tick := c.tick + 1, now := c.now + 1)
  }

  function Run(c: Cache, es: seq<Event>): (r: Cache)
    requires |c.at| == |c.table|
    ensures |r.at| == |r.table| == |c.table|
    decreases |es|
  {
    if es == [] then c else Run(Step(c, es[0]), es[1..])
  }

  /** The stored expiry tells when slot `i` was last learned; if that was in an earlier period, it
      was in the last 300 ticks of it. */
  predicate Aged(c: Cache, i: nat)
    requires i < |c.table| == |c.at|
  {
    c.table[i].used ==>
      && c.at[i] <= c.now
      && c.table[i].expire == LIFETIME + c.at[i] % PERIOD
      && (c.at[i] / PERIOD == c.now / PERIOD || Late(c.at[i]))
  }

  /** In the last 300 ticks of a period. */
  predicate Late(at: nat) {
    at % PERIOD >= PERIOD - LIFETIME
  }

  predicate Inv(c: Cache) {
    |c.at| == |c.table| && c.tick == c.now % PERIOD && forall i :: 0 <= i < |c.table| ==> Aged(c, i)
  }

  lemma StepInv(c: Cache, e: Event)
    requires Inv(c)
    ensures Inv(Step(c, e))
  {
    var r := Step(c, e);
    forall i | 0 <= i < |r.table| ensures Aged(r, i) {
      assert Aged(c, i);
    }
  }

  lemma {:induction false} RunInv(c: Cache, es: seq<Event>)
    requires Inv(c)
    ensures Inv(Run(c, es))
    decreases |es|
  {
    if es != [] {
      StepInv(c, es[0]);
      RunInv(Step(c, es[0]), es[1..]);
    }
  }

  /** In every run, an entry that disappears was last learned more than 300 ticks before. */
  lemma NoEarlyDrop(c: Cache, es: seq<Event>, e: Event, i: nat)
    requires Inv(c) && i < |c.table|
    ensures var r := Run(c, es);
            r.table[i].used && !Step(r, e).table[i].used ==> e == TickE && Step(r, e).now - r.at[i] > LIFETIME
  {
    RunInv(c, es);
    assert Aged(Run(c, es), i);
  }

  /** No learning of `es` writes slot `i`. */
  predicate Unwritten(c: Cache, es: seq<Event>, i: nat)
    requires |c.at| == |c.table|
    decreases |es|
  {
    es != [] ==> (es[0].LearnE? ==> Slot(c.table, es[0].ip) != i) && Unwritten(Step(c, es[0]), es[1..], i)
  }

  /** Nobody writes a free slot: it stays free. */
  lemma {:induction false} StaysFree(c: Cache, es: seq<Event>, i: nat)
    requires |c.at| == |c.table| && i < |c.table| && !c.table[i].used && Unwritten(c, es, i)
    ensures !Run(c, es).table[i].used
    decreases |es|
  {
    if es != [] { StaysFree(Step(c, es[0]), es[1..], i); }
  }

  /** Over every run that does not learn it again: an entry is there until the next sweep after it was
      last learned, and beyond it, for ever, exactly if that was in the last 300 ticks of a period. */
  lemma {:induction false} Lifetime(c: Cache, es: seq<Event>, i: nat)
    requires Inv(c) && i < |c.table| && c.table[i].used && Unwritten(c, es, i)
    ensures var r := Run(c, es);
            && (r.table[i].used <==> c.at[i] / PERIOD == r.now / PERIOD || Late(c.at[i]))
            && (r.table[i].used ==> r.table[i] == c.table[i] && r.at[i] == c.at[i])
            && c.now <= r.now
    decreases |es|
  {
    assert Aged(c, i);
    if es != [] {
      var d := Step(c, es[0]);
      StepInv(c, es[0]);
      if d.table[i].used {
        Lifetime(d, es[1..], i);
      } else {
        StaysFree(d, es[1..], i);
        NowGrows(d, es[1..]);
      }
    }
  }

  lemma {:induction false} NowGrows(c: Cache, es: seq<Event>)
    requires |c.at| == |c.table|
    ensures c.now <= Run(c, es).now
    decreases |es|
  {
    if es != [] { NowGrows(Step(c, es[0]), es[1..]); }
  }

  // ------------------------------------------------------------------ duplicates

  /** No address is held by two slots. */
  predicate Unique(t: Table) {
    forall i, j :: 0 <= i < j < |t| && t[i].used && t[j].used ==> t[i].ip != t[j].ip
  }

  /** A free slot precedes the one that holds `ip`. */
  predicate HoleBefore(t: Table, ip: Ip) {
    exists i, j :: 0 <= i < j < |t| && !t[i].used && Matches(t[j], ip)
  }

  /** Learning makes a second slot for an address exactly when a free slot precedes its first. */
  lemma LearnDuplicates(t: Table, ip: Ip, mac: Mac, tick: nat)
    requires Unique(t)
    ensures Unique(Learn(t, ip, mac, tick)) <==> !HoleBefore(t, ip)
  {
    var s, r := Slot(t, ip), Learn(t, ip, mac, tick);
    if HoleBefore(t, ip) {
      var i, j :| 0 <= i < j < |t| && !t[i].used && Matches(t[j], ip);
      assert s <= i && r[s].used && r[j].used && r[s].ip == r[j].ip;
    } else if s < |t| {
      forall i, j | 0 <= i < j < |r| && r[i].used && r[j].used ensures r[i].ip != r[j].ip {
        if i == s { assert t[j].ip == ip ==> Matches(t[j], ip); }
      }
    }
  }

  /** With no duplicates, a sweep forgets exactly the addresses whose entry has expired. */
  lemma SweepForgets(t: Table, tick: nat, ip: Ip)
    requires Unique(t)
    ensures Lookup(Sweep(t, tick), ip)
            == if exists i :: 0 <= i < |t| && Matches(t[i], ip) && Expired(t[i], tick) then None else Lookup(t, ip)
  {
    var r := Sweep(t, tick);
    if i :| 0 <= i < |t| && Matches(t[i], ip) {
      if Expired(t[i], tick) {
        NoMatch(r, ip);
      } else {
        FirstMatch(t, ip, i);
        FirstMatch(r, ip, i);
      }
    } else {
      NoMatch(t, ip);
      NoMatch(r, ip);
    }
  }

  lemma {:induction false} LookupSplit(a: Table, b: Table, ip: Ip)
    ensures Lookup(a + b, ip) == if Lookup(a, ip) != None then Lookup(a, ip) else Lookup(b, ip)
  {
    if a == [] {
      assert a + b == b;
    } else {
      assert (a + b)[1..] == a[1..] + b;
      LookupSplit(a[1..], b, ip);
    }
  }

  /** What the next sweep leaves of an answer just learned: the answer itself if it was learned in the
      last 300 ticks, otherwise whatever lasting entry for the address stands behind it. */
  lemma AfterSweep(t: Table, ip: Ip, mac: Mac, tick: nat)
    requires tick < PERIOD
    ensures var s := Slot(t, ip);
            Lookup(Sweep(Learn(t, ip, mac, tick), PERIOD), ip)
            == if s == |t| then None
               else if tick >= PERIOD - LIFETIME then Some(mac)
               else Lookup(Sweep(t[s + 1..], PERIOD), ip)
  {
    var s, l := Slot(t, ip), Learn(t, ip, mac, tick);
    var r := Sweep(l, PERIOD);
    if s == |t| {
      NoMatch(r, ip);
    } else if tick >= PERIOD - LIFETIME {
      FirstMatch(r, ip, s);
    } else {
      NoMatch(r[..s + 1], ip);
      assert r == r[..s + 1] + Sweep(t[s + 1..], PERIOD);
      LookupSplit(r[..s + 1], Sweep(t[s + 1..], PERIOD), ip);
    }
  }

  /** An entry for `ip` that outlives the next sweep. */
  predicate Lasts(e: Entry, ip: Ip) {
    Matches(e, ip) && !Expired(e, PERIOD)
  }

  /** Slot j is the first after slot s with such an entry, and it holds another answer. */
  predicate StaleAt(t: Table, ip: Ip, mac: Mac, s: int, j: int) {
    && s < j && 0 <= j < |t| && Lasts(t[j], ip) && t[j].mac != mac
    && forall k :: s < k < j && 0 <= k ==> !Lasts(t[k], ip)
  }

  /** A lookup that succeeds returns what the first match holds. */
  lemma {:induction false} LookupFirst(t: Table, ip: Ip) returns (j: nat)
    requires Lookup(t, ip) != None
    ensures j < |t| && Matches(t[j], ip) && Lookup(t, ip) == Some(t[j].mac)
    ensures forall k :: 0 <= k < j ==> !Matches(t[k], ip)
  {
    if Matches(t[0], ip) {
      j := 0;
    } else {
      var i := LookupFirst(t[1..], ip);
      j := i + 1;
      assert forall k :: 1 <= k < j ==> t[k] == t[1..][k - 1];
    }
  }

  lemma SweptAnswer(t: Table, ip: Ip, mac: Mac)
    ensures Lookup(Sweep(t, PERIOD), ip) in {None, Some(mac)} <==> !exists j :: StaleAt(t, ip, mac, -1, j)
  {
    var r := Sweep(t, PERIOD);
    if Lookup(r, ip) !in {None, Some(mac)} {
      var j := LookupFirst(r, ip);
      assert StaleAt(t, ip, mac, -1, j);
    }
    if j :| StaleAt(t, ip, mac, -1, j) { FirstMatch(r, ip, j); }
  }

  /** A replaced answer comes back at the next sweep exactly when the new one was learned in the first
      700 ticks and the first entry for the address behind it that outlives the sweep holds another. */
  lemma StaleIff(t: Table, ip: Ip, mac: Mac, tick: nat)
    requires tick < PERIOD
    ensures Lookup(Sweep(Learn(t, ip, mac, tick), PERIOD), ip) in {None, Some(mac)}
            <==> !(tick < PERIOD - LIFETIME && exists j :: StaleAt(t, ip, mac, Slot(t, ip), j))
  {
    hide Learn, Sweep, Lookup;
    AfterSweep(t, ip, mac, tick);
    var s := Slot(t, ip);
    if s < |t| {
      var rest := t[s + 1..];
      SweptAnswer(rest, ip, mac);
      forall j ensures StaleAt(rest, ip, mac, -1, j) <==> StaleAt(t, ip, mac, s, j + s + 1) {
        ShiftStale(t, rest, ip, mac, s, j);
      }
      if j :| StaleAt(t, ip, mac, s, j) { assert StaleAt(rest, ip, mac, -1, j - s - 1); }
    }
  }

  lemma ShiftStale(t: Table, rest: Table, ip: Ip, mac: Mac, s: nat, j: int)
    requires s < |t| && rest == t[s + 1..]
    ensures StaleAt(rest, ip, mac, -1, j) <==> StaleAt(t, ip, mac, s, j + s + 1)
  {
    if 0 <= j < |rest| {
      assert rest[j] == t[j + s + 1];
      if forall k :: -1 < k < j && 0 <= k ==> !Lasts(rest[k], ip) {
        forall k | s < k < j + s + 1 ensures !Lasts(t[k], ip) { assert t[k] == rest[k - s - 1]; }
      }
      if forall k :: s < k < j + s + 1 && 0 <= k ==> !Lasts(t[k], ip) {
        forall k | 0 <= k < j ensures !Lasts(rest[k], ip) { assert rest[k] == t[k + s + 1]; }
      }
    }
  }

  function TickTimes(k: nat): (es: seq<Event>)
    ensures |es| == k
  {
    if k == 0 then [] else [TickE] + TickTimes(k - 1)
  }

  lemma {:induction false} RunAppend(c: Cache, es: seq<Event>, fs: seq<Event>)
    requires |c.at| == |c.table|
    ensures Run(c, es + fs) == Run(Run(c, es), fs)
    decreases |es|
  {
    if es == [] {
      assert es + fs == fs;
    } else {
      assert (es + fs)[1..] == es[1..] + fs;
      RunAppend(Step(c, es[0]), es[1..], fs);
    }
  }

  lemma {:induction false} QuietTicks(c: Cache, k: nat)
    requires |c.at| == |c.table| && c.tick + k < PERIOD
    ensures Run(c, TickTimes(k)) == c.(tick := c.tick + k, now := c.now + k)
    decreases k
  {
    if k > 0 {
      assert ([TickE] + TickTimes(k - 1))[1..] == TickTimes(k - 1);
      QuietTicks(Step(c, TickE), k - 1);
    }
  }

  /** Ticking up to and through the sweep. */
  lemma TicksToSweep(c: Cache, k: nat)
    requires |c.at| == |c.table| && k > 0 && c.tick + k == PERIOD
    ensures Run(c, TickTimes(k - 1) + [TickE]) == c.(table := Sweep(c.table, PERIOD), tick := 0, now := c.now + k)
  {
    RunAppend(c, TickTimes(k - 1), [TickE]);
    QuietTicks(c, k - 1);
    assert [TickE][1..] == [];
  }

  /** Learning, then ticking up to and through the next sweep. */
  function UntilSweep(c: Cache, ip: Ip, mac: Mac): seq<Event>
    requires c.tick < PERIOD
  {
    [LearnE(ip, mac)] + (TickTimes(PERIOD - 1 - c.tick) + [TickE])
  }

  lemma UntilSweepRun(c: Cache, ip: Ip, mac: Mac)
    requires |c.at| == |c.table| && c.tick < PERIOD
    ensures Run(c, UntilSweep(c, ip, mac)).table == Sweep(Learn(c.table, ip, mac, c.tick), PERIOD)
  {
    hide Sweep, Learn, Slot, TickTimes;
    var e, d := [LearnE(ip, mac)], Step(c, LearnE(ip, mac));
    assert e[1..] == [] && Run(c, e) == Run(d, []);
    RunAppend(c, e, TickTimes(PERIOD - 1 - c.tick) + [TickE]);
    TicksToSweep(d, PERIOD - c.tick);
  }

  /** Slot j holds an entry for `ip` last learned in the last 300 ticks of some period. */
  predicate LateMatch(c: Cache, j: int, ip: Ip) {
    0 <= j < |c.table| == |c.at| && Matches(c.table[j], ip) && Late(c.at[j])
  }

  /** It is the first such slot after slot s, and it holds another answer. */
  predicate LateAnswer(c: Cache, ip: Ip, mac: Mac, s: int, j: int) {
    s < j && LateMatch(c, j, ip) && c.table[j].mac != mac && forall k :: s < k < j ==> !LateMatch(c, k, ip)
  }

  /** In every reachable state: an answer that is learned is replaced by another at the next sweep exactly
      when it is learned in the first 700 ticks of a period while, of the entries for the address behind
      the slot it takes, the first from the last 300 ticks of some period holds another answer. */
  lemma StaleReturns(c: Cache, ip: Ip, mac: Mac)
    requires Inv(c)
    ensures Lookup(Run(c, UntilSweep(c, ip, mac)).table, ip) in {None, Some(mac)}
            <==> !(!Late(c.now) && exists j :: LateAnswer(c, ip, mac, Slot(c.table, ip), j))
  {
    hide Lookup, Run, Sweep, Learn, UntilSweep;
    UntilSweepRun(c, ip, mac);
    StaleIff(c.table, ip, mac, c.tick);
    forall j | 0 <= j < |c.table| ensures Lasts(c.table[j], ip) <==> LateMatch(c, j, ip) {
      assert Aged(c, j);
    }
    forall j ensures StaleAt(c.table, ip, mac, Slot(c.table, ip), j) <==> LateAnswer(c, ip, mac, Slot(c.table, ip), j) {
    }
  }

  lemma LearnInto(c: Cache, ip: Ip, mac: Mac, i: nat)
    requires |c.at| == |c.table| && i < |c.table| && (!c.table[i].used || c.table[i].ip == ip)
    requires forall j :: 0 <= j < i ==> c.table[j].used && c.table[j].ip != ip
    ensures var r := Run(c, [LearnE(ip, mac)]);
            r == c.(table := c.table[i := Entry(ip, mac, c.tick + LIFETIME, true)], at := c.at[i := c.now])
  {
    assert [LearnE(ip, mac)][1..] == [];
    var s := Slot(c.table, ip);
    assert !(s < i) && !(i < s);
  }

  const EMPTY := Cache(seq(SLOTS, _ => Entry(0, 0, 0, false)), 0, 0, seq(SLOTS, _ => 0))

  lemma EmptyInv()
    ensures Inv(EMPTY)
  {
    forall i | 0 <= i < SLOTS ensures Aged(EMPTY, i) {}
  }

  /** A run after which the slots are free but for slot 1, which holds an entry that will never expire. */
  lemma HoleBeforeImmortal() returns (es: seq<Event>)
    ensures var r := Run(EMPTY, es);
            && r.tick == 0 && |r.table| == SLOTS && |r.at| == SLOTS && r.at[1] == 800
            && r.table[1] == Entry(1, 11, 1100, true)
            && forall i :: 0 <= i < SLOTS && i != 1 ==> !r.table[i].used
  {
    hide Run, Step, TickTimes;
    LearnInto(EMPTY, 2, 9, 0);
    var a, b, d, e := [LearnE(2, 9)], TickTimes(800), [LearnE(1, 11)], TickTimes(199) + [TickE];
    var c1 := Run(EMPTY, a);
    QuietTicks(c1, 800);
    var c2 := Run(c1, b);
    LearnInto(c2, 1, 11, 1);
    var c3 := Run(c2, d);
    TicksToSweep(c3, 200);
    RunAppend(EMPTY, a, b);
    RunAppend(EMPTY, a + b, d);
    RunAppend(EMPTY, a + b + d, e);
    es := a + b + d + e;
  }

  /** It does happen: address 1 is learned as 11, then as 22, and after the next sweep it resolves to
      an answer that is neither missing nor 22.  Nor is the free slot needed: learned once more, now over
      a slot of its own, the address goes stale in the same way. */
  lemma StaleAnswer() returns (es: seq<Event>)
    ensures var c := Run(EMPTY, es);
            var d := Run(c, [LearnE(1, 22)]);
            && Inv(c) && Inv(d) && d.tick == c.tick && Lookup(d.table, 1) == Some(22)
            && Lookup(Run(c, UntilSweep(c, 1, 22)).table, 1) !in {None, Some(22)}
            && Slot(d.table, 1) == 0 && d.table[0].used
            && Lookup(Run(d, UntilSweep(d, 1, 33)).table, 1) !in {None, Some(33)}
  {
    hide Run, Step, TickTimes, Lookup, UntilSweep;
    es := HoleBeforeImmortal();
    var c := Run(EMPTY, es);
    EmptyInv();
    RunInv(EMPTY, es);
    LearnInto(c, 1, 22, 0);
    var d := Run(c, [LearnE(1, 22)]);
    RunInv(c, [LearnE(1, 22)]);
    FirstMatch(d.table, 1, 0);
    assert Slot(c.table, 1) == 0 && Slot(d.table, 1) == 0 && d.now == c.now && !Late(c.now);
    assert LateAnswer(c, 1, 22, Slot(c.table, 1), 1) && LateAnswer(d, 1, 33, Slot(d.table, 1), 1);
    StaleReturns(c, 1, 22);
    StaleReturns(d, 1, 33);
  }

  // ------------------------------------------------------------------ the code

  class ArpCache {
    var table: array<Entry>
    var tick: nat

    ghost predicate Valid()
      reads this
    {
      table.Length == SLOTS && tick < PERIOD
    }

    constructor ()
      ensures Valid() && fresh(table) && table[..] == EMPTY.table && tick == 0
    {
      table := new Entry[SLOTS](_ => Entry(0, 0, 0, false));
      tick := 0;
    }

    /** The learning part of arp_input, for a request or reply with a sender address. */
    method LearnSender(spa: Ip, sha: Mac)
      requires Valid()
      modifies table
      ensures Valid()
      ensures table[..] == if spa == 0 then old(table[..]) else Learn(old(table[..]), spa, sha, tick)
    {
      if spa == 0 { return; }
      ghost var t := table[..];
      for i := 0 to SLOTS
        invariant table[..] == t
        invariant forall j :: 0 <= j < i ==> t[j].used && t[j].ip != spa
      {
        if !table[i].used || table[i].ip == spa {
          table[i] := Entry(spa, sha, tick + LIFETIME, true);
          return;
        }
      }
    }

    method Resolve(ip: Ip) returns (mac: Option<Mac>)
      requires Valid()
      ensures mac == Lookup(table[..], ip)
    {
      for i := 0 to SLOTS
        invariant forall j :: 0 <= j < i ==> !Matches(table[j], ip)
      {
        if table[i].used && table[i].ip == ip {
          FirstMatch(table[..], ip, i);
          return Some(table[i].mac);
        }
      }
      NoMatch(table[..], ip);
      mac := None;
    }

    /** net_tick. */
    method NetTick()
      requires Valid()
      modifies this`tick, table
      ensures Valid()
      ensures if old(tick) + 1 < PERIOD then tick == old(tick) + 1 && table[..] == old(table[..])
              else tick == 0 && table[..] == Sweep(old(table[..]), PERIOD)
    {
      tick := tick + 1;
      if tick >= PERIOD {
        for i := 0 to SLOTS
          invariant tick == PERIOD
          invariant forall j :: i <= j < SLOTS ==> table[j] == old(table[j])
          invariant forall j :: 0 <= j < i ==>
            table[j] == if Expired(old(table[j]), tick) then old(table[j]).(used := false) else old(table[j])
        {
          if table[i].used && table[i].expire != 0 && tick > table[i].expire {
            table[i] := table[i].(used := false);
          }
        }
        tick := 0;
      }
    }
  }
}
