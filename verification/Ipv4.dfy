/** The header ipv4_output writes and the tests ipv4_input makes on it. */
module Ipv4 {
  import opened Checksum

  function Hi(x: nat): Byte { x / 256 % 256 }

  function Lo(x: nat): Byte { x % 256 }

  function Address(a: nat): (b: seq<Byte>)
    ensures |b| == 4
  {
    [Hi(a / M16), Lo(a / M16), Hi(a), Lo(a)]
  }

  /** The header with its checksum field zero.  `len` is the packet length including the header;
      the 16-bit fields keep the low 16 bits of what they are given. */
  function Unchecked(len: nat, id: nat, proto: Byte, src: nat, dst: nat): (h: seq<Byte>)
    ensures |h| == 20 && h[0] == 0x45 && h[10] == 0 && h[11] == 0
  {
    Fixed(len, id, proto) + Address(src) + Address(dst)
  }

  function Fixed(len: nat, id: nat, proto: Byte): (h: seq<Byte>)
    ensures |h| == 12
  {
    [0x45, 0, Hi(len), Lo(len), Hi(id), Lo(id), 0x40, 0x00, 64, proto, 0, 0]
  }

  function Check(h: seq<Byte>): nat {
    0xFFFF - Fold(SumLE(h))
  }

  /** `h` with `c` stored, low byte first, in the checksum field. */
  function WithCheck(h: seq<Byte>, c: nat): seq<Byte>
    requires |h| >= 12
  {
    h[10 := Lo(c)][11 := Hi(c)]
  }

  function Ihl(h: seq<Byte>): nat
    requires |h| >= 1
  {
    h[0] % 16 * 4
  }

  function TotLen(h: seq<Byte>): nat
    requires |h| >= 4
  {
    Word(h[3], h[2])
  }

  /** The checksum test of ipv4_input on the memory from the packet's start. */
  predicate ChecksumOk(h: seq<Byte>)
    requires |h| >= 20 && |h| >= Ihl(h)
  {
    Word(h[10], h[11]) == Check(h[10 := 0][11 := 0][..Ihl(h)])
  }

  /** The tests of ipv4_input on the fields of a packet of `len` bytes.  The header length is not
      compared with `len`. */
  predicate FieldsOk(h: seq<Byte>, len: nat)
    requires |h| >= 20
  {
    len >= 20 && h[0] / 16 == 4 && Ihl(h) >= 20 && TotLen(h) <= len
  }

  /** All its tests, before it looks at the addresses. */
  predicate Accepts(h: seq<Byte>, len: nat)
    requires |h| >= 20 && |h| >= Ihl(h)
  {
    FieldsOk(h, len) && ChecksumOk(h)
  }

  /** A header length within the packet makes the packet alone decide: what follows it in memory is not read. */
  lemma PacketDecides(h: seq<Byte>, g: seq<Byte>, len: nat)
    requires |h| >= 20 && |g| >= 20 && Ihl(h) <= len <= |h| && len <= |g| && len >= 20
    requires h[..len] == g[..len]
    ensures Ihl(g) == Ihl(h) && (Accepts(h, len) <==> Accepts(g, len))
  {
    assert forall i :: 0 <= i < len ==> h[i] == h[..len][i] == g[..len][i] == g[i];
    var n := Ihl(h);
    assert h[10 := 0][11 := 0][..n] == g[10 := 0][11 := 0][..n];
  }

  // ------------------------------------------------------------------ the fields

  /** The value of two and of four bytes in network order. */
  function Net16(a: int, b: int): int { 256 * a + b }

  function Net32(a: int, b: int, c: int, d: int): int { 65536 * Net16(a, b) + Net16(c, d) }

  /** The fields of a header without options (section 3.1 of RFC 791), read off its bytes: version and length,
      type of service, total length, identification, "do not fragment", time to live, protocol and both addresses. */
  predicate Carries(h: seq<Byte>, len: nat, id: nat, proto: Byte, src: nat, dst: nat) {
    && |h| >= 20
    && h[0] == 0x45 && h[1] == 0
    && Net16(h[2], h[3]) == len % M16
    && Net16(h[4], h[5]) == id % M16
    && Net16(h[6], h[7]) == 0x4000
    && h[8] == 64 && h[9] == proto
    && Net32(h[12], h[13], h[14], h[15]) == src % M32
    && Net32(h[16], h[17], h[18], h[19]) == dst % M32
  }

  lemma BytesOfWord(x: nat)
    ensures Net16(Hi(x), Lo(x)) == x % M16
  {
    var q := x / 256;
    assert x == 256 * q + x % 256 && q == 256 * (q / 256) + q % 256;
    assert x == M16 * (q / 256) + (256 * (q % 256) + x % 256);
  }

  lemma BytesOfLong(a: nat)
    ensures M16 * (a / M16 % M16) + a % M16 == a % M32
  {
    var q, r := a / M16, a % M16;
    assert a == M16 * q + r && q == M16 * (q / M16) + q % M16;
    assert a == M32 * (q / M16) + (M16 * (q % M16) + r);
  }

  /** An address as stored reads back. */
  lemma AddressReads(a: nat)
    ensures var b := Address(a); Net32(b[0], b[1], b[2], b[3]) == a % M32
  {
    hide Hi, Lo;
    BytesOfWord(a / M16);
    BytesOfWord(a);
    BytesOfLong(a);
  }

  lemma HeaderFields(len: nat, id: nat, proto: Byte, src: nat, dst: nat)
    ensures Carries(Unchecked(len, id, proto, src, dst), len, id, proto, src, dst)
  {
    hide Hi, Lo, Address;
    var h := Unchecked(len, id, proto, src, dst);
    BytesOfWord(len);
    BytesOfWord(id);
    AddressReads(src);
    AddressReads(dst);
    assert h[..12] == Fixed(len, id, proto) && h[12..16] == Address(src) && h[16..20] == Address(dst);
  }

  /** The checksum field is no part of the others. */
  lemma CheckAside(h: seq<Byte>, g: seq<Byte>, len: nat, id: nat, proto: Byte, src: nat, dst: nat)
    requires |h| == |g| >= 20 && h[10 := 0][11 := 0] == g[10 := 0][11 := 0]
    ensures Carries(h, len, id, proto, src, dst) <==> Carries(g, len, id, proto, src, dst)
  {
    assert forall i :: 0 <= i < |h| && i != 10 && i != 11 ==> h[i] == h[10 := 0][11 := 0][i] == g[i];
  }

  /** The fields leave nothing open but the checksum. */
  lemma FieldsDetermine(h: seq<Byte>, g: seq<Byte>, len: nat, id: nat, proto: Byte, src: nat, dst: nat)
    requires |h| == |g| == 20
    requires Carries(h, len, id, proto, src, dst) && Carries(g, len, id, proto, src, dst)
    ensures h[10 := 0][11 := 0] == g[10 := 0][11 := 0]
  {
    hide Net16, Net32;
    SameBytes(h[2], h[3], g[2], g[3]);
    SameBytes(h[4], h[5], g[4], g[5]);
    SameBytes(h[6], h[7], g[6], g[7]);
    SameFour(h[12..16], g[12..16]);
    SameFour(h[16..20], g[16..20]);
    assert forall i :: 12 <= i < 16 ==> h[i] == h[12..16][i - 12] == g[12..16][i - 12] == g[i];
    assert forall i :: 16 <= i < 20 ==> h[i] == h[16..20][i - 16] == g[16..20][i - 16] == g[i];
  }

  lemma SameBytes(a: Byte, b: Byte, c: Byte, d: Byte)
    requires Net16(a, b) == Net16(c, d)
    ensures a == c && b == d
  {
  }

  lemma SameFour(a: seq<Byte>, b: seq<Byte>)
    requires |a| == |b| == 4
    requires Net32(a[0], a[1], a[2], a[3]) == Net32(b[0], b[1], b[2], b[3])
    ensures a == b
  {
    hide Net16;
    assert Net16(a[0], a[1]) == Net16(b[0], b[1]) && Net16(a[2], a[3]) == Net16(b[2], b[3]) by {
      Net16Small(a[2], a[3]);
      Net16Small(b[2], b[3]);
    }
    SameBytes(a[0], a[1], b[0], b[1]);
    SameBytes(a[2], a[3], b[2], b[3]);
  }

  lemma Net16Small(a: Byte, b: Byte)
    ensures 0 <= Net16(a, b) < 65536
  {
  }

  // ------------------------------------------------------------------ what ipv4_input does with a packet

  const ICMP: nat := 1
  const UDP: nat := 17
  const EVERYONE: nat := 0xFFFF_FFFF

  datatype Handler = Dropped | IcmpInput | UdpInput

  function Destination(h: seq<Byte>): nat
    requires |h| >= 20
  {
    M16 * Word(h[17], h[16]) + Word(h[19], h[18])
  }

  /** Which handler an interface with address `ip` gives the packet to. */
  function Route(h: seq<Byte>, len: nat, ip: nat): Handler
    requires |h| >= 20 && |h| >= Ihl(h)
  {
    if !Accepts(h, len) || (Destination(h) != ip && Destination(h) != EVERYONE) then Dropped
    else if h[9] == ICMP then IcmpInput
    else if h[9] == UDP then UdpInput
    else Dropped
  }

  /** What ipv4_output writes, ipv4_input on any interface hands to the handler of its protocol, if it has one and if
      the packet was sent to that interface's address or to everyone; and drops otherwise. */
  lemma OutputDelivered(len: nat, id: nat, proto: Byte, src: nat, dst: nat, ip: nat)
    requires len >= 20
    ensures var u := Unchecked(len, id, proto, src, dst);
            var h := WithCheck(u, Check(u));
            && |h| == 20 && Ihl(h) == 20 && Carries(h, len, id, proto, src, dst)
            && Route(h, len, ip) == if dst % M32 != ip && dst % M32 != 0xFFFF_FFFF then Dropped
                                    else if proto == 1 then IcmpInput else if proto == 17 then UdpInput else Dropped
  {
    hide Unchecked, Check, Accepts, Hi, Lo;
    var u := Unchecked(len, id, proto, src, dst);
    OutputAccepted(len, id, proto, src, dst);
    HeaderFields(len, id, proto, src, dst);
    CheckAside(u, WithCheck(u, Check(u)), len, id, proto, src, dst);
  }

  // ------------------------------------------------------------------ sums with one word changed

  /** The words of an even-length sequence outside word `k`. */
  lemma {:induction false} SumUpdate(h: seq<Byte>, k: nat, x: Byte, y: Byte)
    requires 2 * k + 1 < |h|
    ensures SumLE(h[2 * k := x][2 * k + 1 := y]) + Word(h[2 * k], h[2 * k + 1]) == SumLE(h) + Word(x, y)
  {
    var g := h[2 * k := x][2 * k + 1 := y];
    if k == 0 {
      assert g[2..] == h[2..];
    } else {
      assert g[2..] == h[2..][2 * (k - 1) := x][2 * (k - 1) + 1 := y];
      SumUpdate(h[2..], k - 1, x, y);
    }
  }

  lemma FirstByteCounts(h: seq<Byte>)
    requires |h| >= 2 && h[0] > 0
    ensures SumLE(h) > 0
  {
  }

  lemma FoldQuotient(s: nat) returns (q: int)
    requires s > 0
    ensures q >= 0 && s == 65535 * q + Fold(s) && 1 <= Fold(s) <= 65535
  {
    FoldClosed(s);
    q := (s - 1) / 65535;
  }

  lemma MultipleOf(d: int, k: int, e: int)
    requires d == 65535 * k + e && -65535 < e < 65535
    ensures d % 65535 == 0 <==> e == 0
  {
  }

  lemma FoldEqual(s: nat, t: nat)
    requires s > 0 && t > 0
    ensures Fold(s) == Fold(t) <==> (s - t) % 65535 == 0
  {
    hide Fold;
    var i := FoldQuotient(s);
    var j := FoldQuotient(t);
    MultipleOf(s - t, i - j, Fold(s) - Fold(t));
  }

  // ------------------------------------------------------------------ what is written is accepted

  /** The header ipv4_output leaves: it sums to 0xFFFF and passes every test of ipv4_input. */
  lemma OutputAccepted(len: nat, id: nat, proto: Byte, src: nat, dst: nat)
    requires len >= 20
    ensures var u := Unchecked(len, id, proto, src, dst);
            var h := WithCheck(u, Check(u));
            && |h| == 20 && Ihl(h) == 20 && Accepts(h, len) && Fold(SumLE(h)) == 0xFFFF
  {
    var u := Unchecked(len, id, proto, src, dst);
    var c := Check(u);
    var h := WithCheck(u, c);
    hide Unchecked, SumLE, Fold;
    assert Word(Lo(c), Hi(c)) == c;
    assert h[10 := 0][11 := 0][..20] == u;
    assert u[2] == h[2] && u[3] == h[3];
    LengthField(len, id, proto, src, dst);
    SumUpdate(u, 5, Lo(c), Hi(c));
    FoldOfComplement(u, h);
  }

  lemma LengthField(len: nat, id: nat, proto: Byte, src: nat, dst: nat)
    ensures TotLen(Unchecked(len, id, proto, src, dst)) == len % M16 <= len
  {
  }

  lemma FoldOfComplement(u: seq<Byte>, h: seq<Byte>)
    requires |u| >= 2 && u[0] > 0 && SumLE(h) == SumLE(u) + Check(u)
    ensures Fold(SumLE(h)) == 0xFFFF
  {
    hide Fold, SumLE;
    FirstByteCounts(u);
    var q := FoldQuotient(SumLE(u));
    FoldOfMultiple(q + 1);
  }

  lemma FoldOfMultiple(q: nat)
    requires q > 0
    ensures Fold(65535 * q) == 65535
  {
    hide Fold;
    var i := FoldQuotient(65535 * q);
    MultipleOf(65535 * q, q, 0);
    MultipleOf(65535 * q, i + 1, Fold(65535 * q) - 65535);
  }

  // ------------------------------------------------------------------ what is accepted

  lemma FoldsToOnes(s: nat, c: nat)
    requires s > 0 && c < M16
    ensures c == 0xFFFF - Fold(s) <==> Fold(s + c) == 0xFFFF && c != 0xFFFF
  {
    hide Fold;
    var q := FoldQuotient(s);
    var r := FoldQuotient(s + c);
    var f, g := Fold(s), Fold(s + c);
    assert f + c - g == 65535 * (r - q);
    if c == 0xFFFF - f {
      MultipleOf(s + c, q + 1, 0);
      MultipleOf(s + c, r + 1, g - 65535);
    }
  }

  /** Exactly which packets pass: IPv4, header and packet length as stated, and the words of the header add up to all
      ones in one's complement (section 1 of RFC 1071), unless the checksum field itself is all ones. */
  lemma AcceptsIff(h: seq<Byte>, len: nat)
    requires |h| >= 20 && |h| >= Ihl(h)
    ensures Accepts(h, len) <==>
              && len >= 20 && 0x45 <= h[0] <= 0x4F && Net16(h[2], h[3]) <= len
              && Fold(SumLE(h[..Ihl(h)])) == 0xFFFF && !(h[10] == 255 && h[11] == 255)
  {
    hide Fold, SumLE;
    if 0x45 <= h[0] <= 0x4F {
      var n := Ihl(h);
      var z: seq<Byte> := h[10 := 0][11 := 0][..n];
      assert z[10 := h[10]][11 := h[11]] == h[..n];
      SumUpdate(z, 5, h[10], h[11]);
      FirstByteCounts(z);
      FoldsToOnes(SumLE(z), Word(h[10], h[11]));
    }
  }

  // ------------------------------------------------------------------ what is damaged is refused

  /** A header in which word `k` has been replaced. */
  function Damaged(h: seq<Byte>, k: nat, x: Byte, y: Byte): seq<Byte>
    requires 2 * k + 1 < |h|
  {
    h[2 * k := x][2 * k + 1 := y]
  }

  /** Replacing one word after the first of a header that passes the checksum test makes the test
      fail, except for an exchange of 0x0000 and 0xFFFF outside the checksum field. */
  lemma DamageDetected(h: seq<Byte>, k: nat, x: Byte, y: Byte)
    requires |h| >= 20 && h[0] > 0 && Ihl(h) >= 20 && |h| >= Ihl(h) && ChecksumOk(h)
    requires 1 <= k && 2 * k + 1 < Ihl(h) && Word(x, y) != Word(h[2 * k], h[2 * k + 1])
    ensures Ihl(Damaged(h, k, x, y)) == Ihl(h)
    ensures ChecksumOk(Damaged(h, k, x, y)) <==>
              k != 5 && {Word(x, y), Word(h[2 * k], h[2 * k + 1])} == {0x0000, 0xFFFF}
  {
    var n, g := Ihl(h), Damaged(h, k, x, y);
    var w, v := Word(h[2 * k], h[2 * k + 1]), Word(x, y);
    var z := h[10 := 0][11 := 0][..n];
    var zg := g[10 := 0][11 := 0][..n];
    if k == 5 {
      assert zg == z;
    } else {
      assert zg == z[2 * k := x][2 * k + 1 := y] && z[2 * k] == h[2 * k] && z[2 * k + 1] == h[2 * k + 1];
      hide Fold, SumLE, Word;
      SumUpdate(z, k, x, y);
      FirstByteCounts(z);
      FirstByteCounts(zg);
      FoldEqual(SumLE(zg), SumLE(z));
      assert SumLE(zg) - SumLE(z) == (v as int) - w;
      SixteenBits(v, w);
    }
  }

  lemma SixteenBits(v: nat, w: nat)
    requires v < M16 && w < M16 && v != w
    ensures (v as int - w) % 65535 == 0 <==> {v, w} == {0x0000, 0xFFFF}
  {
    if v == w + 65535 || w == v + 65535 {
    } else {
      MultipleOf(v as int - w, 0, v as int - w);
      assert {v, w} == {0, 65535} ==> v in {0, 65535} && w in {0, 65535};
    }
  }

  // ------------------------------------------------------------------ in place

  lemma Slices(s: seq<Byte>, p: nat)
    requires p + 20 <= |s|
    ensures s[p..p + 20] == s[p..p + 12] + s[p + 12..p + 16] + s[p + 16..p + 20]
  {}

  /** The stores of ipv4_output into the packet at `p`, up to the transmission. */
  method WriteHeader(buf: array<Byte>, p: nat, len: nat, id: nat, proto: Byte, src: nat, dst: nat)
    requires p + 20 <= buf.Length && len >= 20
    modifies buf
    ensures forall i :: 0 <= i < buf.Length && !(p <= i < p + 20) ==> buf[i] == old(buf[i])
    ensures var h := buf[p..p + 20]; Ihl(h) == 20 && Accepts(h, len) && Fold(SumLE(h)) == 0xFFFF
    ensures Carries(buf[p..p + 20], len, id, proto, src, dst)
  {
    hide SumLE, Fold, Fixed, Address;
    StoreFixed(buf, p, len, id, proto);
    StoreAddress(buf, p + 12, src);
    StoreAddress(buf, p + 16, dst);
    ghost var u := Unchecked(len, id, proto, src, dst);
    ghost var all := buf[..];
    Slices(all, p);
    assert buf[p..p + 20] == all[p..p + 20] && buf[p..p + 12] == all[p..p + 12];
    assert buf[p + 12..p + 16] == all[p + 12..p + 16] && buf[p + 16..p + 20] == all[p + 16..p + 20];
    hide Unchecked, Hi, Lo;
    assert buf[p..p + 20] == u;
    var c := Checksum16(buf, p, 20);
    assert c == Check(u);
    hide Check, Accepts, Ihl;
    OutputAccepted(len, id, proto, src, dst);
    buf[p + 10], buf[p + 11] := Lo(c), Hi(c);
    assert buf[p..p + 20] == WithCheck(u, c);
    OutputDelivered(len, id, proto, src, dst, dst % M32);
  }

  method StoreFixed(buf: array<Byte>, p: nat, len: nat, id: nat, proto: Byte)
    requires p + 20 <= buf.Length
    modifies buf
    ensures buf[p..p + 12] == Fixed(len, id, proto)
    ensures forall i :: 0 <= i < buf.Length && !(p <= i < p + 12) ==> buf[i] == old(buf[i])
  {
    hide Hi, Lo;
    buf[p], buf[p + 1] := 0x45, 0;
    buf[p + 2], buf[p + 3] := Hi(len), Lo(len);
    buf[p + 4], buf[p + 5] := Hi(id), Lo(id);
    buf[p + 6], buf[p + 7] := 0x40, 0x00;
    buf[p + 8], buf[p + 9] := 64, proto;
    buf[p + 10], buf[p + 11] := 0, 0;
  }

  method StoreAddress(buf: array<Byte>, p: nat, a: nat)
    requires p + 4 <= buf.Length
    modifies buf
    ensures buf[p..p + 4] == Address(a)
    ensures forall i :: 0 <= i < buf.Length && !(p <= i < p + 4) ==> buf[i] == old(buf[i])
  {
    buf[p], buf[p + 1], buf[p + 2], buf[p + 3] := Hi(a / M16), Lo(a / M16), Hi(a), Lo(a);
  }

  /** The tests of ipv4_input; reaching the checksum test zeroes the field in place. */
  method CheckHeader(buf: array<Byte>, p: nat, len: nat) returns (ok: bool)
    requires len >= 20 ==> p + 20 <= buf.Length
    requires len >= 20 && FieldsOk(buf[p..], len) ==> p + Ihl(buf[p..]) <= buf.Length
    modifies buf
    ensures ok <==> len >= 20 && FieldsOk(old(buf[p..]), len) && ChecksumOk(old(buf[p..]))
    ensures forall i :: 0 <= i < buf.Length && i != p + 10 && i != p + 11 ==> buf[i] == old(buf[i])
  {
    if len < 20 { return false; }
    ghost var h := buf[p..];
    var ihl := buf[p] % 16 * 4;
    if buf[p] / 16 != 4 || ihl < 20 || Word(buf[p + 3], buf[p + 2]) > len { return false; }
    var check := Word(buf[p + 10], buf[p + 11]);
    buf[p + 10], buf[p + 11] := 0, 0;
    assert buf[p..] == h[10 := 0][11 := 0];
    assert buf[p..p + ihl] == buf[p..][..ihl];
    var c := Checksum16(buf, p, ihl);
    ok := check == c;
  }

  /** ipv4_input up to the call of the handler; `data` is where the handler's part of the packet begins. */
  method Input(buf: array<Byte>, p: nat, len: nat, ip: nat) returns (r: Handler, data: nat)
    requires len >= 20 ==> p + 20 <= buf.Length
    requires len >= 20 && FieldsOk(buf[p..], len) ==> p + Ihl(buf[p..]) <= buf.Length
    modifies buf
    ensures r != Dropped ==> len >= 20 && FieldsOk(old(buf[p..]), len) && data == p + Ihl(old(buf[p..]))
    ensures len >= 20 && FieldsOk(old(buf[p..]), len) ==> r == Route(old(buf[p..]), len, ip)
    ensures forall i :: 0 <= i < buf.Length && i != p + 10 && i != p + 11 ==> buf[i] == old(buf[i])
  {
    hide ChecksumOk;
    r, data := Dropped, p;
    var ok := CheckHeader(buf, p, len);
    if !ok { return; }
    ghost var h := old(buf[p..]);
    assert forall i :: 0 <= i < 20 && i != 10 && i != 11 ==> h[i] == buf[p + i];
    var daddr := M16 * Word(buf[p + 17], buf[p + 16]) + Word(buf[p + 19], buf[p + 18]);
    if daddr != ip && daddr != EVERYONE { return; }
    data := p + buf[p] % 16 * 4;
    if buf[p + 9] == ICMP {
      r := IcmpInput;
    } else if buf[p + 9] == UDP {
      r := UdpInput;
    }
  }
}
