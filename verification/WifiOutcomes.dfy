/** What each event does to an association attempt, exactly, and when an attempt can succeed. */
module WifiOutcomes {
  import opened Checksum
  import opened WifiAssoc

  // ------------------------------------------------------------------ the way out of each phase

  /** A management frame for this station, or for all. */
  predicate Addressed(w: Wifi, e: Event) {
    e.FrameE? && |e.data| >= 24 && (e.data[4..10] == w.mac || e.data[4..10] == BROADCAST)
  }

  /** An authentication response long enough to be read. */
  predicate AuthResponse(w: Wifi, e: Event) {
    Addressed(w, e) && |e.data| >= 30 && 0xB0 <= e.data[0] <= 0xB3
  }

  predicate AssocResponse(w: Wifi, e: Event) {
    Addressed(w, e) && |e.data| >= 30 && 0x10 <= e.data[0] <= 0x13
  }

  /** The access point deauthenticates or disassociates the station. */
  predicate Dismissal(w: Wifi, e: Event) {
    Addressed(w, e) && (0xC0 <= e.data[0] <= 0xC3 || 0xA0 <= e.data[0] <= 0xA3) && e.data[10..16] == w.bssid
  }

  /** A deadline missed with no retry left. */
  predicate LastMiss(w: Wifi, e: Event) {
    e.MgmtE? && DeadlinePassed(w, e.now) && w.retries >= MAX_RETRIES
  }

  lemma BodyBytes(d: seq<Byte>)
    requires |d| >= 30
    ensures var b := d[24..];
            && b[0] == d[24] && b[1] == d[25] && b[2] == d[26] && b[3] == d[27] && b[4] == d[28] && b[5] == d[29]
    ensures d[24..30] == [0, 0, 2, 0, 0, 0] <==>
              Word(d[24], d[25]) == 0 && Word(d[26], d[27]) == 2 && Word(d[28], d[29]) == 0
    ensures Word(d[26], d[27]) == 0 <==> d[26] == 0 && d[27] == 0
  {
    assert d[24..30] == [d[24], d[25], d[26], d[27], d[28], d[29]];
  }

  /** AUTHENTICATING: a good response leads to ASSOCIATING with a fresh deadline and all retries, any other response
      and the last missed deadline fail the attempt, wifi_stop ends it, and nothing else leaves the phase. */
  lemma FromAuthenticating(w: Wifi, e: Event)
    requires w.phase == Authenticating
    ensures var r := Step(w, e);
            && (r.phase == Associating <==> GoodAuth(w, e))
            && (r.phase == Associating ==> r.retries == 0 && r.deadline == (e.now + 3000) % M32)
            && (r.phase == Failed <==> (AuthResponse(w, e) && !GoodAuth(w, e)) || LastMiss(w, e))
            && (r.phase == Down <==> e == StopE)
            && r.phase in {Authenticating, Associating, Failed, Down}
  {
    if e.FrameE? && |e.data| >= 30 { BodyBytes(e.data); }
  }

  /** ASSOCIATING: likewise, with success ending the attempt. */
  lemma FromAssociating(w: Wifi, e: Event)
    requires w.phase == Associating
    ensures var r := Step(w, e);
            && (r.phase == Associated <==> GoodAssoc(w, e))
            && (r.phase == Associated ==> r.retries == 0 && r.deadline == 0)
            && (r.phase == Failed <==> (AssocResponse(w, e) && !GoodAssoc(w, e)) || LastMiss(w, e))
            && (r.phase == Down <==> e == StopE)
            && r.phase in {Associating, Associated, Failed, Down}
  {
    if e.FrameE? && |e.data| >= 30 { BodyBytes(e.data); }
  }

  /** SCANNING: left at a missed deadline only, for AUTHENTICATING if the network has been heard, or for FAILED if it
      has not and no retry is left; and by wifi_stop. */
  lemma FromScanning(w: Wifi, e: Event)
    requires w.phase == Scanning
    ensures var r := Step(w, e);
            && (r.phase == Authenticating <==> e.MgmtE? && DeadlinePassed(w, e.now) && w.rssi != 0)
            && (r.phase == Authenticating ==> r.retries == w.retries && r.deadline == (e.now + 3000) % M32)
            && (r.phase == Failed <==> LastMiss(w, e) && w.rssi == 0)
            && (r.phase == Down <==> e == StopE)
            && r.phase in {Scanning, Authenticating, Failed, Down}
  {
  }

  /** ASSOCIATED: a dismissal from the access point fails the station, and one from anybody else does not; wifi_assoc
      on an open network starts an attempt; wifi_stop. */
  lemma FromAssociated(w: Wifi, e: Event)
    requires w.phase == Associated
    ensures var r := Step(w, e);
            && (r.phase == Failed <==> Dismissal(w, e))
            && (r.phase == Scanning <==> e.AssocE? && w.openNet)
            && (r.phase == Scanning ==> r.retries == 0 && r.deadline == (e.now + 5000) % M32)
            && (r.phase == Scanning ==> r.ssid <= e.ssid && |r.ssid| == if |e.ssid| > 32 then 32 else |e.ssid|)
            && (r.phase == Down <==> e == StopE)
            && r.phase in {Associated, Scanning, Failed, Down}
  {
  }

  /** What wifi_assoc returns: 0 if it starts an attempt, -1 if the driver is not up or already at it, -2 if the
      network is not open. */
  lemma AssocCode(w: Wifi, ssid: seq<Byte>, now: nat)
    ensures var (r, code) := Assoc(w, ssid, now);
            && (code == 0 <==> r.phase == Scanning && w.phase != Scanning)
            && (code == -1 <==> w.phase != Associated)
            && (code == -2 <==> w.phase == Associated && !w.openNet)
            && (code != 0 ==> r == w)
  {
  }

  /** A missed deadline that is not the last starts the phase's time over and uses up one retry. */
  lemma MissedOnce(w: Wifi, now: nat)
    requires Active(w) && DeadlinePassed(w, now) && w.retries < MAX_RETRIES && (w.phase == Scanning ==> w.rssi == 0)
    ensures var r := Step(w, MgmtE(now));
            && r.phase == w.phase && r.retries == w.retries + 1
            && r.deadline == (now + if w.phase == Scanning then 5000 else 3000) % M32
  {
  }

  /** DOWN is left by wifi_init only, and FAILED by wifi_stop only. */
  lemma FromRest(w: Wifi, e: Event)
    requires w.phase in {Down, Failed}
    ensures var r := Step(w, e);
            && (w.phase == Down && e.InitE? ==> r.phase == if e.ok then Associated else Failed)
            && (w.phase == Failed && e == StopE ==> r.phase == Down)
            && ((if w.phase == Down then !e.InitE? else e != StopE) ==> r.phase == w.phase)
  {
  }

  /** A failed attempt leaves no deadline and no retries behind, unless it is wifi_init that fails. */
  lemma FailureClears(w: Wifi, e: Event)
    requires Step(w, e).phase == Failed && w.phase !in {Failed, Down}
    ensures Step(w, e).deadline == 0 && Step(w, e).retries == 0
  {
  }

  // ------------------------------------------------------------------ being heard

  /** An information element: its number and its bytes. */
  datatype Element = Element(id: Byte, info: seq<Byte>)

  function Elements(es: seq<Element>): (b: seq<Byte>)
    requires forall x :: x in es ==> |x.info| < 256
  {
    if es == [] then [] else [es[0].id, |es[0].info|] + es[0].info + Elements(es[1..])
  }

  /** Element `i` carries the name; an empty name does not count in the last element. */
  predicate NamedAt(es: seq<Element>, ssid: seq<Byte>, i: int) {
    0 <= i < |es| && es[i] == Element(0, ssid) && (i < |es| - 1 || ssid != [])
  }

  ghost predicate Named(es: seq<Element>, ssid: seq<Byte>) {
    exists i :: NamedAt(es, ssid, i)
  }

  lemma FirstHeard(front: seq<Byte>, x: Element, tail: seq<Byte>, ssid: seq<Byte>)
    requires |x.info| < 256
    ensures var front' := front + ([x.id, |x.info|] + x.info);
            HeardFrom(front' + tail, ssid, |front|) <==>
              (x.info != [] || tail != []) && (x == Element(0, ssid) || HeardFrom(front' + tail, ssid, |front'|))
  {
    var p, n := |front|, |x.info|;
    var body := front + ([x.id, n] + x.info) + tail;
    assert body[p] == x.id && body[p + 1] == n && body[p + 2..p + 2 + n] == x.info;
  }

  lemma FirstNamed(es: seq<Element>, ssid: seq<Byte>)
    ensures Named(es, ssid) <==>
              es != [] && ((es[0] == Element(0, ssid) && (es[1..] != [] || ssid != [])) || Named(es[1..], ssid))
  {
    if es != [] {
      assert forall i :: NamedAt(es[1..], ssid, i) ==> NamedAt(es, ssid, i + 1);
      assert forall i :: i > 0 && NamedAt(es, ssid, i) ==> NamedAt(es[1..], ssid, i - 1);
      assert NamedAt(es, ssid, 0) <==> es[0] == Element(0, ssid) && (es[1..] != [] || ssid != []);
    }
  }

  lemma NothingHeard(front: seq<Byte>, ssid: seq<Byte>)
    ensures !HeardFrom(front + [], ssid, |front|)
  {
  }

  /** A probe response with any elements is taken for the network exactly when one of them carries its name; but an
      empty name is overlooked in the last. */
  lemma {:induction false} HeardIff(front: seq<Byte>, es: seq<Element>, ssid: seq<Byte>)
    requires forall x :: x in es ==> |x.info| < 256
    ensures HeardFrom(front + Elements(es), ssid, |front|) <==> Named(es, ssid)
    decreases |es|
  {
    hide HeardFrom, Named;
    FirstNamed(es, ssid);
    if es == [] {
      NothingHeard(front, ssid);
    } else {
      var x, rest := es[0], es[1..];
      var front' := front + ([x.id, |x.info|] + x.info);
      FirstHeard(front, x, Elements(rest), ssid);
      FirstNamed(rest, ssid);
      HeardIff(front', rest, ssid);
      assert Elements(rest) == [] <==> rest == [];
      assert front + Elements(es) == front' + Elements(rest);
    }
  }

  // ------------------------------------------------------------------ whether an attempt can succeed

  function Frame(kind: Byte, to: seq<Byte>, body: seq<Byte>): seq<Byte> {
    [kind, 0, 0, 0] + to + seq(14, _ => 0) + body
  }

  lemma FrameParts(kind: Byte, to: seq<Byte>, body: seq<Byte>)
    requires |to| == 6
    ensures var d := Frame(kind, to, body); |d| == 24 + |body| && d[0] == kind && d[4..10] == to && d[24..] == body
  {
  }

  lemma KeepsAddress(w: Wifi, e: Event)
    ensures Step(w, e).mac == w.mac
  {
  }

  /** A probe response that names the network, and a channel. */
  function Probe(to: seq<Byte>, ssid: seq<Byte>): seq<Byte>
    requires |ssid| < 256
  {
    Frame(0x50, to, seq(12, _ => 0) + Elements([Element(0, ssid), Element(3, [1])]))
  }

  lemma ProbeRaises(w: Wifi, now: nat)
    requires w.phase == Scanning && |w.mac| == 6 && |w.ssid| < 256
    ensures Step(w, FrameE(Probe(w.mac, w.ssid), now)) == w.(rssi := -50)
  {
    var es := [Element(0, w.ssid), Element(3, [1])];
    var front: seq<Byte> := seq(12, _ => 0);
    FrameParts(0x50, w.mac, front + Elements(es));
    assert NamedAt(es, w.ssid, 0);
    HeardIff(front, es, w.ssid);
    hide HeardFrom;
  }

  const AUTH_OK: seq<Byte> := [0, 0, 2, 0, 0, 0]
  const ASSOC_OK: seq<Byte> := [0, 0, 0, 0, 1, 0]

  lemma GoodAnswers(w: Wifi, now: nat)
    requires |w.mac| == 6
    ensures GoodAuth(w, FrameE(Frame(0xB0, w.mac, AUTH_OK), now))
    ensures GoodAssoc(w, FrameE(Frame(0x10, w.mac, ASSOC_OK), now))
  {
    FrameParts(0xB0, w.mac, AUTH_OK);
    FrameParts(0x10, w.mac, ASSOC_OK);
    var a, b := Frame(0xB0, w.mac, AUTH_OK), Frame(0x10, w.mac, ASSOC_OK);
    assert a[24..30] == a[24..] && b[26] == b[24..][2] && b[27] == b[24..][3];
  }

  /** Four events complete an attempt: the network answers the probe, the scan ends, and both responses come. */
  lemma Handshake(w: Wifi, t: nat) returns (es: seq<Event>)
    requires w.phase == Scanning && |w.mac| == 6 && |w.ssid| < 256 && DeadlinePassed(w, t)
    ensures Run(w, es).phase == Associated && StopE !in es && SameAttempt(w, es)
  {
    hide Step, DeadlinePassed, GoodAuth, GoodAssoc, Frame, Probe;
    var e1, e2 := FrameE(Probe(w.mac, w.ssid), t), MgmtE(t);
    var e3, e4 := FrameE(Frame(0xB0, w.mac, AUTH_OK), t), FrameE(Frame(0x10, w.mac, ASSOC_OK), t);
    ProbeRaises(w, t);
    var w1 := Step(w, e1);
    SameDeadline(w, w1, t);
    FromScanning(w1, e2);
    KeepsAddress(w1, e2);
    var w2 := Step(w1, e2);
    GoodAnswers(w2, t);
    FromAuthenticating(w2, e3);
    KeepsAddress(w2, e3);
    var w3 := Step(w2, e3);
    GoodAnswers(w3, t);
    FromAssociating(w3, e4);
    es := [];
    es := Before(w3, e4, es);
    es := Before(w2, e3, es);
    es := Before(w1, e2, es);
    es := Before(w, e1, es);
  }

  lemma SameDeadline(w: Wifi, v: Wifi, t: nat)
    requires w.deadline == v.deadline
    ensures DeadlinePassed(w, t) <==> DeadlinePassed(v, t)
  {
  }

  lemma Before(w: Wifi, e: Event, rest: seq<Event>) returns (es: seq<Event>)
    requires SameAttempt(Step(w, e), rest) && StopE !in rest && e != StopE && !e.AssocE?
    ensures SameAttempt(w, es) && StopE !in es && Run(w, es) == Run(Step(w, e), rest)
  {
    es := [e] + rest;
    assert es[1..] == rest;
  }

  /** A scan without a deadline never ends. */
  lemma {:induction false} ScansForEver(w: Wifi, es: seq<Event>)
    requires w.phase == Scanning && w.deadline == 0 && StopE !in es
    ensures Run(w, es).phase == Scanning && Run(w, es).deadline == 0
    decreases |es|
  {
    if es != [] {
      var e := es[0];
      assert Step(w, e).phase == Scanning && Step(w, e).deadline == 0;
      ScansForEver(Step(w, e), es[1..]);
    }
  }

  /** A successful wifi_assoc can lead to ASSOCIATED, without wifi_stop and within the attempt, exactly when its
      deadline does not fall on the wrap of the tick counter; if it does, the driver scans for ever. */
  lemma AssociatesIff(w: Wifi, ssid: seq<Byte>, now: nat)
    requires Assoc(w, ssid, now).1 == 0 && |w.mac| == 6 && now < M32
    ensures (exists es :: StopE !in es && SameAttempt(Assoc(w, ssid, now).0, es)
                          && Run(Assoc(w, ssid, now).0, es).phase == Associated)
            <==> now + SCAN_TIMEOUT != M32
  {
    var s := Assoc(w, ssid, now).0;
    assert s.phase == Scanning && s.mac == w.mac && |s.ssid| < 256;
    if now + SCAN_TIMEOUT == M32 {
      assert s.deadline == 0;
      forall es | StopE !in es ensures Run(s, es).phase == Scanning { ScansForEver(s, es); }
    } else {
      assert s.deadline != 0;
      var es := Handshake(s, s.deadline);
    }
  }
}
