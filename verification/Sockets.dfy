/** The socket list: creation, binding, closing and the lookup that delivers datagrams. */
module Sockets {
  import opened Options

  datatype Sock = Sock(id: nat, addr: nat, port: nat, bound: bool, refs: int)

  /** `list` in list order, newest first; `nextPort` is the ephemeral port counter. */
  datatype State = State(list: seq<Sock>, nextPort: nat)

  const FIRST_PORT: nat := 1024
  const LAST_PORT: nat := 65535

  const START := State([], FIRST_PORT)

  predicate Answers(s: Sock, addr: nat, port: nat) {
    s.bound && s.addr == addr && s.port == port
  }

  /** sock_find_udp. */
  function Find(l: seq<Sock>, addr: nat, port: nat): Option<nat> {
    if l == [] then None else if Answers(l[0], addr, port) then Some(l[0].id) else Find(l[1..], addr, port)
  }

  /** Some socket other than `id` is bound to the pair. */
  predicate Taken(l: seq<Sock>, id: nat, addr: nat, port: nat) {
    exists i :: 0 <= i < |l| && l[i].id != id && Answers(l[i], addr, port)
  }

  predicate Listed(l: seq<Sock>, id: nat) {
    exists i :: 0 <= i < |l| && l[i].id == id
  }

  function Put(l: seq<Sock>, id: nat, addr: nat, port: nat): (r: seq<Sock>)
    ensures |r| == |l|
    ensures forall i :: 0 <= i < |l| ==>
              r[i] == if l[i].id == id then l[i].(addr := addr, port := port, bound := true) else l[i]
  {
    seq(|l|, i requires 0 <= i < |l| =>
      if l[i].id == id then l[i].(addr := addr, port := port, bound := true) else l[i])
  }

  /** sock_bind on a listed socket; the flag is whether it succeeded. */
  function Bind(s: State, id: nat, addr: nat, port: nat): (State, bool) {
    if Taken(s.list, id, addr, port) then (s, false)
    else if port == 0 then
      var next := if s.nextPort + 1 > LAST_PORT then FIRST_PORT else s.nextPort + 1;
      (State(Put(s.list, id, addr, s.nextPort), next), true)
    else (s.(list := Put(s.list, id, addr, port)), true)
  }

  /** Where `id` is in the list; its length if nowhere. */
  function IndexOf(l: seq<Sock>, id: nat): (i: nat)
    ensures i <= |l| && (i < |l| <==> Listed(l, id))
    ensures i < |l| ==> l[i].id == id
    ensures forall j :: 0 <= j < i ==> l[j].id != id
  {
    if l == [] then 0 else if l[0].id == id then 0 else
    var k := IndexOf(l[1..], id);
    assert forall j :: 1 <= j < |l| ==> l[j] == l[1..][j - 1];
    assert k < |l[1..]| ==> l[k + 1].id == id;
    1 + k
  }

  function Unlinked(l: seq<Sock>, id: nat): seq<Sock> {
    var i := IndexOf(l, id);
    if i < |l| then l[..i] + l[i + 1..] else l
  }

  datatype Event = CreateE(id: nat) | BindE(id: nat, addr: nat, port: nat) | CloseE(id: nat)

  /** sock_create makes a new socket; the others act on a socket in the list. */
  predicate Enabled(s: State, e: Event) {
    match e
    case CreateE(id) => !Listed(s.list, id)
    case BindE(id, _, port) => Listed(s.list, id) && port <= LAST_PORT
    case CloseE(id) => Listed(s.list, id)
  }

  /** Sockets are created with one reference and nothing adds another, so a close unlinks. */
  function Step(s: State, e: Event): State {
    match e
    case CreateE(id) => s.(list := [Sock(id, 0, 0, false, 1)] + s.list)
    case BindE(id, addr, port) => Bind(s, id, addr, port).0
    case CloseE(id) => s.(list := Unlinked(s.list, id))
  }

  predicate Legal(s: State, es: seq<Event>)
    decreases |es|
  {
    es != [] ==> Enabled(s, es[0]) && Legal(Step(s, es[0]), es[1..])
  }

  function Run(s: State, es: seq<Event>): State
    decreases |es|
  {
    if es == [] then s else Run(Step(s, es[0]), es[1..])
  }

  // ------------------------------------------------------------------ one socket per pair

  /** No two bound sockets share an address and port. */
  predicate Distinct(l: seq<Sock>) {
    forall i, j :: 0 <= i < j < |l| && l[i].bound && l[j].bound ==> l[i].addr != l[j].addr || l[i].port != l[j].port
  }

  predicate Inv(s: State) {
    && FIRST_PORT <= s.nextPort <= LAST_PORT
    && (forall i, j :: 0 <= i < j < |s.list| ==> s.list[i].id != s.list[j].id)
    && (forall i :: 0 <= i < |s.list| && s.list[i].bound ==> 1 <= s.list[i].port <= LAST_PORT)
    && (forall i :: 0 <= i < |s.list| ==> s.list[i].refs == 1)
  }

  lemma UnlinkedAt(l: seq<Sock>, id: nat)
    ensures var r, i := Unlinked(l, id), IndexOf(l, id);
            && |r| == (if i < |l| then |l| - 1 else |l|)
            && forall j :: 0 <= j < |r| ==> r[j] == l[if j < i then j else j + 1]
  {
  }

  lemma CloseKeeps(s: State, id: nat)
    ensures Inv(s) ==> Inv(s.(list := Unlinked(s.list, id)))
    ensures Distinct(s.list) ==> Distinct(Unlinked(s.list, id))
  {
    var l, r, n := s.list, Unlinked(s.list, id), IndexOf(s.list, id);
    UnlinkedAt(l, id);
    hide Unlinked, IndexOf;
    forall i, j | 0 <= i < j < |r|
      ensures exists a, b :: 0 <= a < b < |l| && r[i] == l[a] && r[j] == l[b]
    {
      var a, b := if i < n then i else i + 1, if j < n then j else j + 1;
      assert r[i] == l[a] && r[j] == l[b];
    }
  }

  lemma StepInv(s: State, e: Event)
    requires Inv(s) && Enabled(s, e)
    ensures Inv(Step(s, e))
  {
    match e {
      case CreateE(id) =>
      case BindE(id, addr, port) =>
      case CloseE(id) =>
        hide Inv, Unlinked;
        CloseKeeps(s, id);
    }
  }

  /** A bind keeps every bound pair distinct exactly when it names a port, or the counter's port is
      free at that address. */
  lemma BindDistinct(s: State, id: nat, addr: nat, port: nat)
    requires Inv(s) && Distinct(s.list) && Listed(s.list, id)
    ensures var r := Bind(s, id, addr, port);
            Distinct(r.0.list) <==> port != 0 || !Taken(s.list, id, addr, s.nextPort)
  {
    var r := Bind(s, id, addr, port);
    if r.1 {
      var p := if port == 0 then s.nextPort else port;
      var k :| 0 <= k < |s.list| && s.list[k].id == id;
      assert r.0.list == Put(s.list, id, addr, p) && Answers(r.0.list[k], addr, p);
      if i :| 0 <= i < |s.list| && s.list[i].id != id && Answers(s.list[i], addr, p) {
        assert r.0.list[i] == s.list[i] && i != k;
      } else {
        forall i, j | 0 <= i < j < |s.list| && r.0.list[i].bound && r.0.list[j].bound
          ensures r.0.list[i].addr != r.0.list[j].addr || r.0.list[i].port != r.0.list[j].port
        {
        }
      }
    }
  }

  /** In every run whose binds name a port, no two bound sockets share a pair. */
  lemma {:induction false} NamedPortsDistinct(s: State, es: seq<Event>)
    requires Inv(s) && Distinct(s.list) && Legal(s, es)
    requires forall e :: e in es && e.BindE? ==> e.port != 0
    ensures Inv(Run(s, es)) && Distinct(Run(s, es).list)
    decreases |es|
  {
    if es != [] {
      StepInv(s, es[0]);
      match es[0] {
        case CreateE(id) =>
        case BindE(id, addr, port) => BindDistinct(s, id, addr, port);
        case CloseE(id) => CloseKeeps(s, id);
      }
      NamedPortsDistinct(Step(s, es[0]), es[1..]);
    }
  }

  lemma {:induction false} RunInv(s: State, es: seq<Event>)
    requires Inv(s) && Legal(s, es)
    ensures Inv(Run(s, es))
    decreases |es|
  {
    if es != [] {
      StepInv(s, es[0]);
      RunInv(Step(s, es[0]), es[1..]);
    }
  }

  /** How many binds of the run leave the port open. */
  function OpenBinds(es: seq<Event>): nat {
    if es == [] then 0 else OpenBinds(es[1..]) + if es[0].BindE? && es[0].port == 0 then 1 else 0
  }

  const PORTS: nat := LAST_PORT - FIRST_PORT + 1

  /** The counter goes through all ports from 1024 to 65535 in turn, one for each such bind. */
  lemma {:induction false} CounterCycles(s: State, es: seq<Event>)
    requires Inv(s) && Legal(s, es)
    ensures Run(s, es).nextPort == FIRST_PORT + (s.nextPort - FIRST_PORT + OpenBinds(es)) % PORTS
    decreases |es|
  {
    hide Step, Enabled;
    if es == [] {
      InvPort(s);
    } else {
      StepInv(s, es[0]);
      CounterStep(s, es[0], OpenBinds(es[1..]));
      CounterCycles(Step(s, es[0]), es[1..]);
    }
  }

  lemma InvPort(s: State)
    requires Inv(s)
    ensures FIRST_PORT <= s.nextPort <= LAST_PORT
  {
  }

  lemma CounterStep(s: State, e: Event, m: nat)
    requires Inv(s)
    ensures var k := if e.BindE? && e.port == 0 then 1 else 0;
            var n := Step(s, e).nextPort;
            FIRST_PORT <= n <= LAST_PORT && (n - FIRST_PORT + m) % PORTS == (s.nextPort - FIRST_PORT + k + m) % PORTS
  {
    if e.BindE? && e.port == 0 { assert !Taken(s.list, e.id, e.addr, 0); }
  }

  /** In every run a bind with port 0 succeeds, and the ports are handed out in turn from 1024 to 65535 and around:
      so no two of 64512 such binds in a row get the same. */
  lemma EphemeralRange(s: State, es: seq<Event>, id: nat, addr: nat)
    requires Inv(s) && Legal(s, es)
    ensures var (r, ok) := Bind(Run(s, es), id, addr, 0);
            ok && forall x :: x in r.list && x.id == id ==>
                    && x.bound && x.addr == addr
                    && x.port == FIRST_PORT + (s.nextPort - FIRST_PORT + OpenBinds(es)) % PORTS
  {
    RunInv(s, es);
    CounterCycles(s, es);
  }

  lemma RunFirst(s: State, e: Event, rest: seq<Event>)
    requires Enabled(s, e) && Legal(Step(s, e), rest)
    ensures Legal(s, [e] + rest) && Run(s, [e] + rest) == Run(Step(s, e), rest)
  {
    assert ([e] + rest)[1..] == rest;
  }

  /** That port is not checked: two sockets can end up bound to the same pair. */
  lemma EphemeralCollision()
    ensures var es := [CreateE(1), BindE(1, 7, 1024), CreateE(2), BindE(2, 7, 0)];
            Legal(START, es) && !Distinct(Run(START, es).list)
  {
    var e1, e2, e3, e4 := CreateE(1), BindE(1, 7, 1024), CreateE(2), BindE(2, 7, 0);
    var a := Step(START, e1);
    assert a.list == [Sock(1, 0, 0, false, 1)] && a.list[0].id == 1;
    var b := Step(a, e2);
    assert b.list == [Sock(1, 7, 1024, true, 1)];
    var c := Step(b, e3);
    assert c.list == [Sock(2, 0, 0, false, 1), Sock(1, 7, 1024, true, 1)] && c.list[0].id == 2;
    var d := Step(c, e4);
    assert d.list == [Sock(2, 7, 1024, true, 1), Sock(1, 7, 1024, true, 1)];
    assert Enabled(START, e1) && Enabled(a, e2) && Enabled(b, e3) && Enabled(c, e4);
    hide Step, Enabled;
    RunFirst(c, e4, []);
    RunFirst(b, e3, [e4]);
    RunFirst(a, e2, [e3, e4]);
    RunFirst(START, e1, [e2, e3, e4]);
    assert [e4] + [] == [e4] && [e3] + [e4] == [e3, e4] && [e2] + [e3, e4] == [e2, e3, e4];
    assert [e1] + [e2, e3, e4] == [e1, e2, e3, e4];
    assert d.list[0].bound && d.list[1].bound;
  }

  // ------------------------------------------------------------------ delivery

  /** What a lookup returns is bound to the pair, and it finds something whenever there is something. */
  lemma {:induction false} FindSound(l: seq<Sock>, addr: nat, port: nat)
    ensures Find(l, addr, port) == None <==> forall x :: x in l ==> !Answers(x, addr, port)
    ensures Find(l, addr, port) != None ==>
              exists x :: x in l && Answers(x, addr, port) && Find(l, addr, port) == Some(x.id)
  {
    if l != [] { FindSound(l[1..], addr, port); }
  }

  /** With distinct pairs the answer does not depend on the order of the list. */
  lemma FindOrderFree(l: seq<Sock>, k: seq<Sock>, addr: nat, port: nat)
    requires Distinct(l) && multiset(l) == multiset(k)
    ensures Find(l, addr, port) == Find(k, addr, port)
  {
    FindSound(l, addr, port);
    FindSound(k, addr, port);
    assert forall x :: x in l <==> x in multiset(l);
    assert forall x :: x in k <==> x in multiset(k);
    if Find(l, addr, port) != None && Find(k, addr, port) != None {
      var x :| x in l && Answers(x, addr, port) && Find(l, addr, port) == Some(x.id);
      var y :| y in k && Answers(y, addr, port) && Find(k, addr, port) == Some(y.id);
      assert y in l;
      var i :| 0 <= i < |l| && l[i] == x;
      var j :| 0 <= j < |l| && l[j] == y;
      assert i == j;
    }
  }

  /** The one socket bound to a pair is the one found. */
  lemma FindOnly(l: seq<Sock>, x: Sock, addr: nat, port: nat)
    requires x in l && Answers(x, addr, port) && forall y :: y in l && Answers(y, addr, port) ==> y.id == x.id
    ensures Find(l, addr, port) == Some(x.id)
  {
    FindSound(l, addr, port);
  }

  lemma {:induction false} FindSame(l: seq<Sock>, k: seq<Sock>, addr: nat, port: nat)
    requires |l| == |k| && forall i :: 0 <= i < |l| ==> k[i].id == l[i].id
    requires forall i :: 0 <= i < |l| ==> (Answers(l[i], addr, port) <==> Answers(k[i], addr, port))
    ensures Find(l, addr, port) == Find(k, addr, port)
  {
    if l != [] { FindSame(l[1..], k[1..], addr, port); }
  }

  /** A bind to a named port succeeds if and only if no other socket is bound to the pair, and then a lookup of the
      pair finds the socket; a refused bind changes nothing. */
  lemma BindOutcome(s: State, id: nat, addr: nat, port: nat)
    requires Listed(s.list, id) && port != 0
    ensures var (r, ok) := Bind(s, id, addr, port);
            && (ok <==> forall x :: x in s.list && x.id != id ==> !(x.bound && x.addr == addr && x.port == port))
            && (ok ==> Find(r.list, addr, port) == Some(id))
            && (!ok ==> r == s)
  {
    var (r, ok) := Bind(s, id, addr, port);
    if ok {
      var k :| 0 <= k < |s.list| && s.list[k].id == id;
      hide Find, Taken;
      assert Answers(r.list[k], addr, port);
      FindOnly(r.list, r.list[k], addr, port);
    }
  }

  /** The other pairs: none finds the socket any more, and those that did not find it find what they found. */
  lemma BindElsewhere(s: State, id: nat, addr: nat, port: nat, addr': nat, port': nat)
    requires Listed(s.list, id) && port != 0 && Bind(s, id, addr, port).1 && (addr', port') != (addr, port)
    ensures var l := Bind(s, id, addr, port).0.list;
            && Find(l, addr', port') != Some(id)
            && ((forall x :: x in s.list && x.id == id ==> !Answers(x, addr', port')) ==>
                  Find(l, addr', port') == Find(s.list, addr', port'))
  {
    var l := Bind(s, id, addr, port).0.list;
    hide Find, Taken;
    FindSound(l, addr', port');
    if forall x :: x in s.list && x.id == id ==> !Answers(x, addr', port') { FindSame(s.list, l, addr', port'); }
  }

  /** A new socket is bound to nothing: lookups find what they found. */
  lemma CreateOutcome(s: State, id: nat, addr: nat, port: nat)
    ensures var r := Step(s, CreateE(id)); Listed(r.list, id) && Find(r.list, addr, port) == Find(s.list, addr, port)
  {
    var r := Step(s, CreateE(id));
    assert r.list[0].id == id && r.list[1..] == s.list;
  }

  /** A closed socket is found by no lookup, and lookups that did not find it find what they found. */
  lemma CloseOutcome(s: State, id: nat, addr: nat, port: nat)
    requires Inv(s)
    ensures var r := Step(s, CloseE(id));
            && !Listed(r.list, id) && Find(r.list, addr, port) != Some(id)
            && (Find(s.list, addr, port) != Some(id) ==> Find(r.list, addr, port) == Find(s.list, addr, port))
  {
    var r := Step(s, CloseE(id));
    UnlinkedAt(s.list, id);
    FindSound(r.list, addr, port);
    var i := IndexOf(s.list, id);
    if i < |s.list| && Find(s.list, addr, port) != Some(id) { FindDrop(s.list, i, addr, port); }
  }

  lemma {:induction false} FindDrop(l: seq<Sock>, i: nat, addr: nat, port: nat)
    requires i < |l| && Find(l, addr, port) != Some(l[i].id)
    ensures Find(l[..i] + l[i + 1..], addr, port) == Find(l, addr, port)
  {
    if i == 0 {
      assert l[..0] + l[1..] == l[1..];
    } else {
      var r := l[..i] + l[i + 1..];
      assert r[0] == l[0] && r[1..] == l[1..][..i - 1] + l[1..][i..];
      if !Answers(l[0], addr, port) { FindDrop(l[1..], i - 1, addr, port); }
    }
  }

  // ------------------------------------------------------------------ the code

  class SocketTable {
    var list: seq<Sock>
    var nextPort: nat

    function View(): State
      reads this
    {
      State(list, nextPort)
    }

    constructor ()
      ensures View() == START
    {
      list, nextPort := [], FIRST_PORT;
    }

    method Create(id: nat)
      requires !Listed(list, id)
      modifies this
      ensures View() == Step(old(View()), CreateE(id))
    {
      list := [Sock(id, 0, 0, false, 1)] + list;
    }

    method BindTo(id: nat, addr: nat, port: nat) returns (ok: bool)
      requires Listed(list, id) && port <= LAST_PORT
      modifies this
      ensures (View(), ok) == Bind(old(View()), id, addr, port)
    {
      for i := 0 to |list|
        invariant unchanged(this)
        invariant forall j :: 0 <= j < i ==> !(list[j].id != id && Answers(list[j], addr, port))
      {
        if list[i].id != id && list[i].bound && list[i].port == port && list[i].addr == addr {
          return false;
        }
      }
      var chosen := port;
      if port == 0 {
        chosen := nextPort;
        nextPort := nextPort + 1;
        if nextPort > LAST_PORT { nextPort := FIRST_PORT; }
      }
      list := Put(list, id, addr, chosen);
      ok := true;
    }

    method Close(id: nat)
      requires Listed(list, id) && Inv(View())
      modifies this
      ensures View() == Step(old(View()), CloseE(id))
    {
      var i := 0;
      while list[i].id != id
        invariant i < |list| && unchanged(this)
        invariant forall j :: 0 <= j < i ==> list[j].id != id
        decreases |list| - i
      {
        assert i + 1 == |list| ==> !Listed(list, id);
        i := i + 1;
      }
      assert list[i].refs - 1 == 0;
      assert i == IndexOf(list, id);
      list := list[..i] + list[i + 1..];
    }

    method FindUdp(addr: nat, port: nat) returns (r: Option<nat>)
      ensures r == Find(list, addr, port)
    {
      var i := 0;
      while i < |list|
        invariant i <= |list| && Find(list[i..], addr, port) == Find(list, addr, port)
      {
        if list[i].bound && list[i].addr == addr && list[i].port == port {
          return Some(list[i].id);
        }
        assert list[i..][1..] == list[i + 1..];
        i := i + 1;
      }
      r := None;
    }
  }
}
