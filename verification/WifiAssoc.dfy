/**
 The association machine of the WiFi driver.  One event is one pass of a task loop, one call of
 the driver's interface, or one received frame; `now` is the tick counter at that moment.
 */
module WifiAssoc {
  import opened Checksum

  /** WIFI_STATE_UP is the same value as ASSOCIATED, and ERROR the same as FAILED. */
  datatype Phase = Down | Init | Scanning | Authenticating | Associating | Associated | Failed

  datatype Wifi = Wifi(
    phase: Phase, retries: nat, deadline: nat, rssi: int,
    ssid: seq<Byte>, mac: seq<Byte>, bssid: seq<Byte>, openNet: bool)

  datatype Event =
    | InitE(ok: bool)
    | AssocE(ssid: seq<Byte>, now: nat)
    | FrameE(data: seq<Byte>, now: nat)
    | MgmtE(now: nat)
    | StopE

  const SCAN_TIMEOUT: nat := 5000
  const AUTH_TIMEOUT: nat := 3000
  const ASSOC_TIMEOUT: nat := 3000
  const MAX_RETRIES: nat := 3
  const SSID_MAX: nat := 32

  const PROBE_RESP: nat := 0x50
  const AUTH: nat := 0xB0
  const ASSOC_RESP: nat := 0x10
  const DISASSOC: nat := 0xA0
  const DEAUTH: nat := 0xC0
  const BROADCAST: seq<Byte> := [255, 255, 255, 255, 255, 255]

  // ------------------------------------------------------------------ the code's steps

  function SetPhase(w: Wifi, p: Phase): Wifi {
    if p == Failed then w.(phase := p, deadline := 0, retries := 0) else w.(phase := p)
  }

  function SetDeadline(w: Wifi, now: nat, ms: nat): Wifi {
    w.(deadline := (now + ms) % M32)
  }

  predicate DeadlinePassed(w: Wifi, now: nat) {
    w.deadline != 0 && now >= w.deadline
  }

  /** The tick counter k ticks after `now`. */
  function Later(now: nat, k: nat): nat {
    (now + k) % M32
  }

  /** The deadline passes ms ticks after it was set, and no sooner. */
  predicate PassesAsAsked(w: Wifi, now: nat, ms: nat) {
    var d := SetDeadline(w, now, ms);
    DeadlinePassed(d, Later(now, ms)) && forall k :: 0 <= k < ms ==> !DeadlinePassed(d, Later(now, k))
  }

  /** That is so exactly when the tick counter does not wrap on the way.  When it wraps to zero the
      deadline never passes, and otherwise it has passed at once. */
  lemma DeadlineWhenAsked(w: Wifi, now: nat, ms: nat)
    requires now < M32 && 0 < ms < M32
    ensures PassesAsAsked(w, now, ms) <==> now + ms < M32
    ensures now + ms == M32 <==> forall t: nat :: t < M32 ==> !DeadlinePassed(SetDeadline(w, now, ms), t)
    ensures now + ms > M32 ==> DeadlinePassed(SetDeadline(w, now, ms), now)
  {
    var d := SetDeadline(w, now, ms);
    if now + ms < M32 {
      assert DeadlinePassed(d, now + ms);
      forall k | 0 <= k < ms ensures !DeadlinePassed(d, Later(now, k)) { assert Later(now, k) == now + k; }
    } else if now + ms > M32 {
      assert Later(now, 0) == now && DeadlinePassed(d, now);
    } else {
      assert d.deadline == 0;
    }
  }

  /** One retry of the current phase, or failure after the third. */
  function RetryOrFail(w: Wifi, now: nat, ms: nat): Wifi {
    if w.retries < MAX_RETRIES then SetDeadline(w.(retries := w.retries + 1), now, ms) else SetPhase(w, Failed)
  }

  /** The body of wifi_mgmt_task_func's loop. */
  function MgmtStep(w: Wifi, now: nat): Wifi {
    if !DeadlinePassed(w, now) then w else
    match w.phase
    case Scanning =>
      if w.rssi == 0 then RetryOrFail(w, now, SCAN_TIMEOUT)
      else SetDeadline(SetPhase(w, Authenticating), now, AUTH_TIMEOUT)
    case Authenticating => RetryOrFail(w, now, AUTH_TIMEOUT)
    case Associating => RetryOrFail(w, now, ASSOC_TIMEOUT)
    case _ => w
  }

  function FrameType(b: Byte): nat { b / 4 * 4 }

  /** The information elements of a probe response, from position `p` of its body. */
  predicate HeardFrom(body: seq<Byte>, ssid: seq<Byte>, p: nat)
    decreases |body| - p
  {
    p + 2 < |body| &&
    var n := body[p + 1];
    || (body[p] == 0 && n == |ssid| && p + 2 + n <= |body| && body[p + 2..p + 2 + n] == ssid)
    || HeardFrom(body, ssid, p + 2 + n)
  }

  function ParseProbe(w: Wifi, body: seq<Byte>): Wifi {
    if |body| >= 12 && HeardFrom(body, w.ssid, 12) then w.(rssi := -50) else w
  }

  function ParseAuth(w: Wifi, body: seq<Byte>, now: nat): Wifi {
    if |body| < 6 then w
    else if Word(body[0], body[1]) == 0 && Word(body[2], body[3]) == 2 && Word(body[4], body[5]) == 0
    then SetDeadline(SetPhase(w.(retries := 0), Associating), now, ASSOC_TIMEOUT)
    else SetPhase(w, Failed)
  }

  function ParseAssoc(w: Wifi, body: seq<Byte>): Wifi {
    if |body| < 6 then w
    else if Word(body[2], body[3]) == 0 then SetPhase(w, Associated).(retries := 0, deadline := 0)
    else SetPhase(w, Failed)
  }

  /** wifi_process_mgmt_frame. */
  function ProcessFrame(w: Wifi, data: seq<Byte>, now: nat): Wifi {
    if |data| < 24 then w else
    var body, to, sender := data[24..], data[4..10], data[10..16];
    if to != w.mac && to != BROADCAST then w else
    var kind := FrameType(data[0]);
    if kind == PROBE_RESP then (if w.phase == Scanning then ParseProbe(w, body) else w)
    else if kind == AUTH then (if w.phase == Authenticating then ParseAuth(w, body, now) else w)
    else if kind == ASSOC_RESP then (if w.phase == Associating then ParseAssoc(w, body) else w)
    else if kind == DEAUTH || kind == DISASSOC then
      (if w.phase == Associated && sender == w.bssid then SetPhase(w, Failed) else w)
    else w
  }

  function Assoc(w: Wifi, ssid: seq<Byte>, now: nat): (Wifi, int) {
    if w.phase != Associated then (w, -1)
    else if !w.openNet then (w, -2)
    else
      var named := w.(ssid := if |ssid| > SSID_MAX then ssid[..SSID_MAX] else ssid, retries := 0);
      (SetDeadline(SetPhase(named, Scanning), now, SCAN_TIMEOUT), 0)
  }

  function InitStep(w: Wifi, ok: bool): Wifi {
    if w.phase != Down then w else if ok then SetPhase(w, Associated) else w.(phase := Failed)
  }

  function Step(w: Wifi, e: Event): Wifi {
    match e
    case InitE(ok) => InitStep(w, ok)
    case AssocE(ssid, now) => Assoc(w, ssid, now).0
    case FrameE(data, now) => ProcessFrame(w, data, now)
    case MgmtE(now) => MgmtStep(w, now)
    case StopE => if w.phase == Down then w else SetPhase(w, Down)
  }

  function Run(w: Wifi, es: seq<Event>): Wifi
    decreases |es|
  {
    if es == [] then w else Run(Step(w, es[0]), es[1..])
  }

  // ------------------------------------------------------------------ retries are bounded

  predicate Active(w: Wifi) {
    w.phase in {Scanning, Authenticating, Associating}
  }

  /** A pass of the management task that finds the deadline of an association attempt passed. */
  predicate Expires(w: Wifi, e: Event) {
    e.MgmtE? && Active(w) && DeadlinePassed(w, e.now)
  }

  /** An event that starts a new association attempt. */
  predicate Restarts(w: Wifi, e: Event) {
    e.AssocE? && Assoc(w, e.ssid, e.now).1 == 0
  }

  predicate SameAttempt(w: Wifi, es: seq<Event>)
    decreases |es|
  {
    es != [] ==> !Restarts(w, es[0]) && SameAttempt(Step(w, es[0]), es[1..])
  }

  function Expirations(w: Wifi, es: seq<Event>): nat
    decreases |es|
  {
    if es == [] then 0 else (if Expires(w, es[0]) then 1 else 0) + Expirations(Step(w, es[0]), es[1..])
  }

  /** A pass that uses up one of the three retries. */
  predicate Retry(w: Wifi, e: Event) {
    Expires(w, e) && w.retries < MAX_RETRIES && (w.phase == Scanning ==> w.rssi == 0)
  }

  function RetriesIn(p: Phase, w: Wifi, es: seq<Event>): nat
    decreases |es|
  {
    if es == [] then 0 else (if Retry(w, es[0]) && w.phase == p then 1 else 0) + RetriesIn(p, Step(w, es[0]), es[1..])
  }

  /** How many more deadlines an attempt can miss. */
  function Patience(w: Wifi): int {
    match w.phase
    case Scanning => 8 - w.retries
    case Authenticating => 7 - w.retries
    case Associating => 4 - w.retries
    case _ => 0
  }

  predicate Bounded(w: Wifi) {
    Active(w) ==> w.retries <= MAX_RETRIES
  }

  lemma StepPatience(w: Wifi, e: Event)
    requires Bounded(w)
    ensures Bounded(Step(w, e)) && Patience(w) >= 0
    ensures !Restarts(w, e) ==> (if Expires(w, e) then 1 else 0) + Patience(Step(w, e)) <= Patience(w)
  {
  }

  lemma {:induction false} PatienceRunsOut(w: Wifi, es: seq<Event>)
    requires Bounded(w) && SameAttempt(w, es)
    ensures Bounded(Run(w, es)) && Expirations(w, es) + Patience(Run(w, es)) <= Patience(w)
    decreases |es|
  {
    if es != [] {
      StepPatience(w, es[0]);
      PatienceRunsOut(Step(w, es[0]), es[1..]);
    }
  }

  /** From a successful wifi_assoc until the next, in any interleaving with frames and calls, at
      most eight deadlines are missed and the retry count never exceeds three. */
  lemma EightDeadlines(w: Wifi, ssid: seq<Byte>, now: nat, es: seq<Event>)
    requires Assoc(w, ssid, now).1 == 0 && SameAttempt(Assoc(w, ssid, now).0, es)
    ensures var s := Assoc(w, ssid, now).0;
            && Expirations(s, es) <= 8
            && (Active(Run(s, es)) ==> Run(s, es).retries <= MAX_RETRIES)
  {
    var s := Assoc(w, ssid, now).0;
    PatienceRunsOut(s, es);
    StepPatience(Run(s, es), StopE);
  }

  /** How many retries SCANNING and AUTHENTICATING still have between them. */
  function Shared(w: Wifi): int {
    if w.phase in {Scanning, Authenticating} then MAX_RETRIES - w.retries else 0
  }

  lemma StepShared(w: Wifi, e: Event)
    requires Bounded(w) && !Restarts(w, e)
    ensures Shared(w) >= 0 && Shared(Step(w, e)) >= 0
    ensures Shared(Step(w, e)) <= Shared(w)
    ensures Retry(w, e) && w.phase in {Scanning, Authenticating} ==> Shared(Step(w, e)) + 1 <= Shared(w)
  {
  }

  lemma {:induction false} SharedRunsOut(w: Wifi, es: seq<Event>)
    requires Bounded(w) && SameAttempt(w, es)
    ensures 0 <= RetriesIn(Scanning, w, es) + RetriesIn(Authenticating, w, es) <= Shared(w)
    decreases |es|
  {
    hide Step, Retry, Shared;
    if es == [] {
      StepShared(w, StopE);
    } else {
      StepPatience(w, es[0]);
      StepShared(w, es[0]);
      SharedRunsOut(Step(w, es[0]), es[1..]);
      OtherPhases(w);
    }
  }

  lemma OtherPhases(w: Wifi)
    ensures w.phase == Scanning || w.phase == Authenticating <==> w.phase in {Scanning, Authenticating}
  {
  }

  /** In every run of one attempt, SCANNING and AUTHENTICATING together retry at most three times: so
      AUTHENTICATING has all three only when SCANNING used none. */
  lemma RetriesShared(w: Wifi, ssid: seq<Byte>, now: nat, es: seq<Event>)
    requires Assoc(w, ssid, now).1 == 0 && SameAttempt(Assoc(w, ssid, now).0, es)
    ensures var s := Assoc(w, ssid, now).0;
            RetriesIn(Scanning, s, es) + RetriesIn(Authenticating, s, es) <= MAX_RETRIES
  {
    SharedRunsOut(Assoc(w, ssid, now).0, es);
  }

  /** A deadline missed on the tick. */
  lemma Miss(w: Wifi)
    requires w.phase in {Scanning, Authenticating, Associating} && 0 < w.deadline < M32 - 5000
    requires w.retries < MAX_RETRIES && (w.phase == Scanning ==> w.rssi == 0)
    ensures Step(w, MgmtE(w.deadline))
            == w.(retries := w.retries + 1, deadline := w.deadline + if w.phase == Scanning then 5000 else 3000)
    ensures Expires(w, MgmtE(w.deadline)) && Retry(w, MgmtE(w.deadline)) && !Restarts(w, MgmtE(w.deadline))
  {
  }

  /** Four deadlines missed in a row fail the attempt. */
  lemma FourMisses(w: Wifi) returns (es: seq<Event>)
    requires w.phase in {Authenticating, Associating} && 0 < w.deadline < M32 - 20000 && w.retries == 0
    ensures SameAttempt(w, es) && Expirations(w, es) == 4 && Run(w, es).phase == Failed
  {
    var w1 := w.(retries := 1, deadline := w.deadline + 3000);
    var w2 := w.(retries := 2, deadline := w.deadline + 6000);
    var w3 := w.(retries := 3, deadline := w.deadline + 9000);
    var last := Step(w3, MgmtE(w3.deadline));
    assert last.phase == Failed && Expires(w3, MgmtE(w3.deadline));
    Miss(w);
    Miss(w1);
    Miss(w2);
    hide Step, Expires, Restarts;
    es := Prefixed(w3, MgmtE(w3.deadline), []);
    es := Prefixed(w2, MgmtE(w2.deadline), es);
    es := Prefixed(w1, MgmtE(w1.deadline), es);
    es := Prefixed(w, MgmtE(w.deadline), es);
  }

  /** A station with an open network in range, before wifi_assoc. */
  function Ready(rssi: int): Wifi {
    Wifi(Associated, 0, 0, rssi, [], [1, 2, 3, 4, 5, 6], [1, 2, 3, 4, 5, 6], true)
  }

  /** Eight is reached after a successful wifi_assoc: one deadline missed in SCANNING, three in
      AUTHENTICATING before the response comes, four in ASSOCIATING. */
  lemma EightIsReached() returns (es: seq<Event>)
    ensures Assoc(Ready(-50), [], 0).1 == 0
    ensures var w := Assoc(Ready(-50), [], 0).0;
            && w.phase == Scanning && SameAttempt(w, es)
            && Expirations(w, es) == 8 && Run(w, es).phase == Failed
  {
    var w := Ready(-50).(phase := Scanning, deadline := 5000);
    assert Assoc(Ready(-50), [], 0) == (w, 0);
    var w1 := w.(phase := Authenticating, deadline := 8000);
    var w2 := w1.(retries := 1, deadline := 11000);
    var w3 := w1.(retries := 2, deadline := 14000);
    var w4 := w1.(retries := 3, deadline := 17000);
    var w5 := w4.(phase := Associating, retries := 0, deadline := 17000);
    hide Step, Expires, Retry, Restarts, Assoc;
    ScanDone(w);
    Miss(w1);
    Miss(w2);
    Miss(w3);
    AuthHeard(w4, 14000);
    es := FourMisses(w5);
    es := Prefixed(w4, FrameE(GOOD_AUTH, 14000), es);
    es := Prefixed(w3, MgmtE(w3.deadline), es);
    es := Prefixed(w2, MgmtE(w2.deadline), es);
    es := Prefixed(w1, MgmtE(w1.deadline), es);
    es := Prefixed(w, MgmtE(w.deadline), es);
  }

  /** A scan that heard the network goes on to authentication when its deadline passes. */
  lemma ScanDone(w: Wifi)
    requires w.phase == Scanning && w.rssi != 0 && 0 < w.deadline < M32 - 3000
    ensures Step(w, MgmtE(w.deadline)) == w.(phase := Authenticating, deadline := w.deadline + 3000)
    ensures var e := MgmtE(w.deadline); Expires(w, e) && !Retry(w, e) && !Restarts(w, e)
  {
  }

  /** An authentication response: algorithm 0, sequence 2, status 0. */
  const GOOD_AUTH: seq<Byte> := [0xB0, 0, 0, 0] + [1, 2, 3, 4, 5, 6] + seq(14, _ => 0) + [0, 0, 2, 0, 0, 0]

  lemma AuthHeard(w: Wifi, now: nat)
    requires w.phase == Authenticating && w.mac == [1, 2, 3, 4, 5, 6] && now < M32 - 3000
    ensures Step(w, FrameE(GOOD_AUTH, now)) == w.(phase := Associating, retries := 0, deadline := now + 3000)
    ensures !Expires(w, FrameE(GOOD_AUTH, now)) && !Restarts(w, FrameE(GOOD_AUTH, now))
  {
    assert GOOD_AUTH[24..] == [0, 0, 2, 0, 0, 0] && GOOD_AUTH[4..10] == w.mac && GOOD_AUTH[0] == 0xB0;
  }

  /** After b deadlines missed in a row, each on the tick. */
  function Missed(w: Wifi, b: nat): Wifi {
    w.(retries := w.retries + b, deadline := w.deadline + (if w.phase == Scanning then 5000 else 3000) * b)
  }

  lemma {:induction false} Misses(w: Wifi, b: nat, rest: seq<Event>) returns (es: seq<Event>)
    requires w.phase in {Scanning, Authenticating} && (w.phase == Scanning ==> w.rssi == 0)
    requires 0 < w.deadline < M32 - 5000 * (b + 1) && w.retries + b <= MAX_RETRIES
    requires SameAttempt(Missed(w, b), rest)
    ensures SameAttempt(w, es)
    ensures forall p :: RetriesIn(p, w, es) == RetriesIn(p, Missed(w, b), rest) + if p == w.phase then b else 0
    decreases b
  {
    hide Step, Retry, Expires, Restarts, SameAttempt, RetriesIn;
    if b == 0 {
      es := rest;
    } else {
      Miss(w);
      var w' := w.(retries := w.retries + 1, deadline := w.deadline + if w.phase == Scanning then 5000 else 3000);
      assert Missed(w', b - 1) == Missed(w, b);
      es := Misses(w', b - 1, rest);
      es := Prefixed(w, MgmtE(w.deadline), es);
    }
  }

  /** A probe response that carries the empty network name. */
  const PROBE: seq<Byte> :=
    [0x50, 0, 0, 0] + [1, 2, 3, 4, 5, 6] + seq(14, _ => 0) + seq(15, _ => 0)

  lemma ProbeHeard(w: Wifi)
    requires w.phase == Scanning && w.mac == [1, 2, 3, 4, 5, 6] && w.ssid == []
    ensures Step(w, FrameE(PROBE, 0)) == w.(rssi := -50)
    ensures !Retry(w, FrameE(PROBE, 0)) && !Restarts(w, FrameE(PROBE, 0))
  {
    var body := PROBE[24..];
    assert PROBE[4..10] == w.mac && PROBE[0] == 0x50 && |body| == 15;
    assert body[12] == 0 && body[13] == 0 && body[14..14] == [];
    assert HeardFrom(body, w.ssid, 12);
  }

  /** Any split of three retries or fewer does occur. */
  lemma RetriesReached(a: nat, b: nat) returns (es: seq<Event>)
    requires a + b <= MAX_RETRIES
    ensures Assoc(Ready(0), [], 0).1 == 0
    ensures var w := Assoc(Ready(0), [], 0).0;
            SameAttempt(w, es) && RetriesIn(Scanning, w, es) == a && RetriesIn(Authenticating, w, es) == b
  {
    var w := Assoc(Ready(0), [], 0).0;
    assert w == Ready(0).(phase := Scanning, deadline := 5000);
    var w1 := Missed(w, a);
    var w2 := w1.(rssi := -50);
    var e := MgmtE(w2.deadline);
    var w3 := w2.(phase := Authenticating, deadline := w2.deadline + 3000);
    ScanDone(w2);
    ProbeHeard(w1);
    hide Step, Retry, Restarts, Assoc;
    assert SameAttempt(Missed(w3, b), []) && forall p :: RetriesIn(p, Missed(w3, b), []) == 0;
    es := Misses(w3, b, []);
    es := Prefixed(w2, e, es);
    es := Prefixed(w1, FrameE(PROBE, 0), es);
    es := Misses(w, a, es);
  }

  lemma Prefixed(w: Wifi, e: Event, rest: seq<Event>) returns (es: seq<Event>)
    requires SameAttempt(Step(w, e), rest) && !Restarts(w, e)
    ensures SameAttempt(w, es) && Run(w, es) == Run(Step(w, e), rest)
    ensures Expirations(w, es) == (if Expires(w, e) then 1 else 0) + Expirations(Step(w, e), rest)
    ensures forall p :: RetriesIn(p, w, es)
                        == (if Retry(w, e) && w.phase == p then 1 else 0) + RetriesIn(p, Step(w, e), rest)
  {
    es := [e] + rest;
    assert es[1..] == rest;
  }

  // ------------------------------------------------------------------ how ASSOCIATED is reached

  /** An authentication response for this station: Open System, second message, success
      (section 12.3.3.2 of IEEE Std 802.11-2016). */
  predicate GoodAuth(w: Wifi, e: Event) {
    && e.FrameE? && |e.data| >= 30 && (e.data[4..10] == w.mac || e.data[4..10] == BROADCAST)
    && 0xB0 <= e.data[0] <= 0xB3
    && e.data[24..30] == [0, 0, 2, 0, 0, 0]
  }

  /** An association response for this station with status zero. */
  predicate GoodAssoc(w: Wifi, e: Event) {
    && e.FrameE? && |e.data| >= 30 && (e.data[4..10] == w.mac || e.data[4..10] == BROADCAST)
    && 0x10 <= e.data[0] <= 0x13
    && e.data[26] == 0 && e.data[27] == 0
  }

  function At(w: Wifi, es: seq<Event>, i: nat): Wifi
    requires i <= |es|
  {
    Run(w, es[..i])
  }

  lemma {:induction false} RunSnoc(w: Wifi, es: seq<Event>)
    requires es != []
    ensures Run(w, es) == Step(Run(w, es[..|es| - 1]), es[|es| - 1])
    decreases |es|
  {
    if |es| == 1 {
      assert es[1..] == [] && es[..0] == [];
    } else {
      assert es[..|es| - 1][1..] == es[1..][..|es| - 2];
      RunSnoc(Step(w, es[0]), es[1..]);
    }
  }

  /** ASSOCIATING is entered only by a good authentication response met in AUTHENTICATING. */
  lemma IntoAssociating(w: Wifi, e: Event)
    requires Step(w, e).phase == Associating && w.phase != Associating
    ensures w.phase == Authenticating && GoodAuth(w, e)
  {
    var d := e.data;
    assert d[24..][0] == d[24] && d[24..][1] == d[25] && d[24..][2] == d[26] && d[24..][3] == d[27];
    assert d[24..][4] == d[28] && d[24..][5] == d[29];
    assert d[24..30] == [d[24], d[25], d[26], d[27], d[28], d[29]];
  }

  /** ASSOCIATED is entered, other than by wifi_init, only by a good association response met in
      ASSOCIATING. */
  lemma IntoAssociated(w: Wifi, e: Event)
    requires Step(w, e).phase == Associated && w.phase != Associated && w.phase != Down
    ensures w.phase == Associating && GoodAssoc(w, e)
  {
    var d := e.data;
    assert d[24..][2] == d[26] && d[24..][3] == d[27];
  }

  lemma NeverDown(w: Wifi, e: Event)
    requires w.phase != Down && e != StopE
    ensures Step(w, e).phase != Down
    ensures w.phase == Failed ==> Step(w, e).phase == Failed
  {
  }

  /** FAILED is left only by wifi_stop. */
  lemma {:induction false} FailedIsFinal(w: Wifi, es: seq<Event>)
    requires w.phase == Failed && StopE !in es
    ensures Run(w, es).phase == Failed
    decreases |es|
  {
    if es != [] {
      NeverDown(w, es[0]);
      FailedIsFinal(Step(w, es[0]), es[1..]);
    }
  }

  /** Some earlier event was a good authentication response accepted in AUTHENTICATING. */
  ghost predicate AuthenticatedBefore(w: Wifi, es: seq<Event>, j: nat)
    requires j <= |es|
  {
    exists i :: 0 <= i < j && At(w, es, i).phase == Authenticating && GoodAuth(At(w, es, i), es[i])
  }

  lemma {:induction false} AssociatingMeansAuthenticated(w: Wifi, es: seq<Event>, j: nat)
    requires j <= |es| && w.phase != Associating && At(w, es, j).phase == Associating
    ensures AuthenticatedBefore(w, es, j)
  {
    assert es[..0] == [];
    if j > 0 {
      var last := At(w, es, j - 1);
      assert es[..j][..j - 1] == es[..j - 1];
      RunSnoc(w, es[..j]);
      if last.phase == Associating {
        AssociatingMeansAuthenticated(w, es, j - 1);
      } else {
        IntoAssociating(last, es[j - 1]);
      }
    }
  }

  lemma {:induction false} StaysUp(w: Wifi, es: seq<Event>, j: nat)
    requires w.phase != Down && StopE !in es && j <= |es|
    ensures At(w, es, j).phase != Down
  {
    if j == 0 {
      assert es[..0] == [];
    } else {
      StaysUp(w, es, j - 1);
      assert es[..j][..j - 1] == es[..j - 1];
      RunSnoc(w, es[..j]);
      NeverDown(At(w, es, j - 1), es[j - 1]);
    }
  }

  /** In every run from a successful wifi_assoc without wifi_stop, being ASSOCIATED again means
      that a good authentication response was accepted and, later, a good association response. */
  lemma {:induction false} AssociatedMeansHandshake(w: Wifi, es: seq<Event>, n: nat)
    requires w.phase == Scanning && StopE !in es && n <= |es| && At(w, es, n).phase == Associated
    ensures exists j :: 0 <= j < n && At(w, es, j).phase == Associating && GoodAssoc(At(w, es, j), es[j]) &&
                        AuthenticatedBefore(w, es, j)
  {
    assert es[..0] == [];
    if n > 0 {
      var last := At(w, es, n - 1);
      assert es[..n][..n - 1] == es[..n - 1];
      RunSnoc(w, es[..n]);
      if last.phase == Associated {
        AssociatedMeansHandshake(w, es, n - 1);
      } else {
        StaysUp(w, es, n - 1);
        IntoAssociated(last, es[n - 1]);
        AssociatingMeansAuthenticated(w, es, n - 1);
      }
    }
  }

  // ------------------------------------------------------------------ the code

  class Driver {
    var phase: Phase
    var retries: nat
    var deadline: nat
    var rssi: int
    var ssid: seq<Byte>
    var mac: seq<Byte>
    var bssid: seq<Byte>
    var openNet: bool

    function View(): Wifi
      reads this
    {
      Wifi(phase, retries, deadline, rssi, ssid, mac, bssid, openNet)
    }

    constructor (mac: seq<Byte>, bssid: seq<Byte>)
      ensures View() == Wifi(Down, 0, 0, 0, [], mac, bssid, true)
    {
      phase, retries, deadline, rssi, ssid := Down, 0, 0, 0, [];
      this.mac, this.bssid, openNet := mac, bssid, true;
    }

    method ChangePhase(p: Phase)
      modifies this
      ensures View() == SetPhase(old(View()), p)
    {
      phase := p;
      if p == Failed {
        deadline := 0;
        retries := 0;
      }
    }

    /** One pass of the management task's loop. */
    method MgmtPass(now: nat)
      modifies this
      ensures View() == Step(old(View()), MgmtE(now))
    {
      if deadline == 0 || now < deadline { return; }
      if phase == Scanning {
        if rssi == 0 {
          TryAgain(now, SCAN_TIMEOUT);
        } else {
          ChangePhase(Authenticating);
          deadline := (now + AUTH_TIMEOUT) % M32;
        }
      } else if phase == Authenticating {
        TryAgain(now, AUTH_TIMEOUT);
      } else if phase == Associating {
        TryAgain(now, ASSOC_TIMEOUT);
      }
    }

    method TryAgain(now: nat, ms: nat)
      modifies this
      ensures View() == RetryOrFail(old(View()), now, ms)
    {
      if retries < MAX_RETRIES {
        retries := retries + 1;
        deadline := (now + ms) % M32;
      } else {
        ChangePhase(Failed);
      }
    }

    /** The element loop of wifi_parse_probe_resp. */
    method Heard(body: seq<Byte>) returns (heard: bool)
      ensures heard <==> |body| >= 12 && HeardFrom(body, ssid, 12)
    {
      if |body| < 12 { return false; }
      var p := 12;
      heard := false;
      while p + 2 < |body|
        invariant p >= 12
        invariant heard || HeardFrom(body, ssid, p) <==> HeardFrom(body, ssid, 12)
        invariant heard ==> HeardFrom(body, ssid, 12)
        decreases |body| - p
      {
        var n := body[p + 1];
        if body[p] == 0 && n == |ssid| && p + 2 + n <= |body| && body[p + 2..p + 2 + n] == ssid {
          heard := true;
        }
        p := p + 2 + n;
      }
    }

    /** wifi_process_mgmt_frame. */
    method Receive(data: seq<Byte>, now: nat)
      modifies this
      ensures View() == Step(old(View()), FrameE(data, now))
    {
      if |data| < 24 { return; }
      if data[4..10] != mac && data[4..10] != BROADCAST { return; }
      var body, kind := data[24..], FrameType(data[0]);
      if kind == PROBE_RESP {
        if phase == Scanning {
          var heard := Heard(body);
          if heard { rssi := -50; }
        }
      } else if kind == AUTH {
        if phase == Authenticating && |body| >= 6 {
          if Word(body[0], body[1]) == 0 && Word(body[2], body[3]) == 2 && Word(body[4], body[5]) == 0 {
            retries := 0;
            ChangePhase(Associating);
            deadline := (now + ASSOC_TIMEOUT) % M32;
          } else {
            ChangePhase(Failed);
          }
        }
      } else if kind == ASSOC_RESP {
        if phase == Associating && |body| >= 6 {
          if Word(body[2], body[3]) == 0 {
            ChangePhase(Associated);
            retries := 0;
            deadline := 0;
          } else {
            ChangePhase(Failed);
          }
        }
      } else if kind == DEAUTH || kind == DISASSOC {
        if phase == Associated && data[10..16] == bssid { ChangePhase(Failed); }
      }
    }

    /** wifi_assoc. */
    method Associate(name: seq<Byte>, now: nat) returns (code: int)
      modifies this
      ensures (View(), code) == Assoc(old(View()), name, now)
    {
      if phase != Associated { return -1; }
      if !openNet { return -2; }
      ssid := if |name| > SSID_MAX then name[..SSID_MAX] else name;
      retries := 0;
      ChangePhase(Scanning);
      deadline := (now + SCAN_TIMEOUT) % M32;
      code := 0;
    }
  }
}
