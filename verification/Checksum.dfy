/** The Internet checksum as kernel/net/net.c computes it on a little-endian machine. */
module Checksum {
  type Byte = x: int | 0 <= x < 256

  const M16: nat := 0x1_0000
  const M32: nat := 0x1_0000_0000

  /** A 16-bit word from its low and high byte. */
  function Word(lo: Byte, hi: Byte): (w: nat)
    ensures w < M16
  {
    var l: int, h: int := lo, hi;
    l + 256 * h
  }

  /** The words of `b` as a little-endian machine loads them; an odd last byte is a low byte. */
  function SumLE(b: seq<Byte>): nat {
    if b == [] then 0 else if |b| == 1 then b[0] else Word(b[0], b[1]) + SumLE(b[2..])
  }

  /** The sum of section 1 of RFC 1071: words in network order, an odd last byte padded on the right. */
  function SumBE(b: seq<Byte>): nat {
    if b == [] then 0 else if |b| == 1 then Word(0, b[0]) else Word(b[1], b[0]) + SumBE(b[2..])
  }

  function FoldOnce(s: nat): nat {
    s % M16 + s / M16
  }

  /** The end-around-carry loop. */
  function Fold(s: nat): (r: nat)
    ensures r < M16
    ensures s == 0 <==> r == 0
  {
    if s < M16 then s else Fold(FoldOnce(s))
  }

  function Swap(x: nat): (r: nat)
    requires x < M16
    ensures r < M16
  {
    (x % 256) * 256 + x / 256
  }

  // ------------------------------------------------------------------ the fold

  lemma ModUnique(x: int, q: int, r: int)
    requires x == q * 65535 + r && 0 <= r < 65535
    ensures x % 65535 == r
  {
  }

  lemma FoldOnceMod(s: nat)
    ensures (FoldOnce(s) - 1) % 65535 == (s - 1) % 65535
  {
    var q, r := s / M16, s % M16;
    assert s == q * M16 + r;
    var k := (s - 1) / 65535;
    ModUnique(FoldOnce(s) - 1, k - q, (s - 1) % 65535);
  }

  /** The fold in closed form: zero for zero, otherwise the residue modulo 65535 taken in 1..65535. */
  lemma {:induction false} FoldClosed(s: nat)
    ensures Fold(s) == if s == 0 then 0 else (s - 1) % 65535 + 1
  {
    if s >= M16 {
      FoldOnceMod(s);
      FoldClosed(FoldOnce(s));
    }
  }

  /** Two rounds fold any 32-bit sum. */
  lemma TwoRounds(s: nat)
    requires s < M32
    ensures FoldOnce(FoldOnce(s)) < M16
    ensures Fold(s) == FoldOnce(FoldOnce(s))
  {
    var a := FoldOnce(s);
    assert a <= 131070;
    FoldClosed(s);
    FoldClosed(FoldOnce(a));
    FoldOnceMod(s);
    FoldOnceMod(a);
    assert s == 0 <==> FoldOnce(a) == 0;
  }

  // ------------------------------------------------------------------ byte order

  function HighBytes(b: seq<Byte>): nat {
    if |b| < 2 then 0 else b[1] + HighBytes(b[2..])
  }

  lemma {:induction false} SumsCongruent(b: seq<Byte>)
    ensures 256 * SumLE(b) == SumBE(b) + 65535 * HighBytes(b)
    ensures SumLE(b) == 0 <==> SumBE(b) == 0
  {
    if |b| >= 2 { SumsCongruent(b[2..]); }
  }

  /** Residues in 1..65535 are determined by their class. */
  lemma SameResidue(x: nat, y: nat, j: int)
    requires 1 <= x <= 65535 && 1 <= y <= 65535 && x - y == 65535 * j
    ensures x == y
  {
  }

  /** Section 2(B) of RFC 1071: folding byte-swapped words is byte-swapping the fold. */
  lemma FoldSwaps(b: seq<Byte>)
    ensures Fold(SumBE(b)) == Swap(Fold(SumLE(b)))
  {
    var le, be := SumLE(b), SumBE(b);
    SumsCongruent(b);
    FoldClosed(le);
    FoldClosed(be);
    if le != 0 {
      var x, y := Fold(le), Fold(be);
      var i, j := (le - 1) / 65535, (be - 1) / 65535;
      assert le == 65535 * i + x && be == 65535 * j + y;
      assert 256 * x == Swap(x) + 65535 * (x / 256);
      SameResidue(y, Swap(x), 256 * i + x / 256 - j - HighBytes(b));
    }
  }

  // ------------------------------------------------------------------ checksum16

  lemma {:induction false} SumSmall(b: seq<Byte>)
    ensures SumLE(b) <= 65535 * ((|b| + 1) / 2)
  {
    if |b| >= 2 { SumSmall(b[2..]); }
  }

  /** Up to 131072 bytes the 32-bit accumulator does not overflow. */
  lemma SumFits(b: seq<Byte>)
    requires |b| <= 131072
    ensures SumLE(b) < M32
  {
    SumSmall(b);
  }

  lemma {:induction false} SumSplit(a: seq<Byte>, b: seq<Byte>)
    requires |a| % 2 == 0
    ensures SumLE(a + b) == SumLE(a) + SumLE(b)
  {
    if a == [] {
      assert a + b == b;
    } else {
      assert (a + b)[2..] == a[2..] + b;
      SumSplit(a[2..], b);
    }
  }

  /** Addition in uint32_t. */
  function Add32(x: nat, y: nat): (r: nat)
    ensures r < M32
    ensures x + y < M32 ==> r == x + y
  {
    (x + y) % M32
  }

  lemma Add32Add(x: nat, y: nat)
    ensures Add32(Add32(0, x), y) == Add32(0, x + y)
  {
  }

  /** One pass of the accumulation loop. */
  lemma SumStep(b: seq<Byte>, k: nat, w: seq<Byte>)
    requires k % 2 == 0 && k + |w| <= |b| && w == b[k..k + |w|]
    ensures Add32(Add32(0, SumLE(b[..k])), SumLE(w)) == Add32(0, SumLE(b[..k + |w|]))
  {
    assert b[..k + |w|] == b[..k] + w;
    SumSplit(b[..k], w);
    Add32Add(SumLE(b[..k]), SumLE(w));
  }

  /** checksum16 on `len` bytes from `off`, with its wrapping 32-bit accumulator. */
  method Checksum16(data: array<Byte>, off: nat, len: nat) returns (r: nat)
    requires off + len <= data.Length
    ensures r == 0xFFFF - Fold(Add32(0, SumLE(data[off..off + len])))
    ensures len <= 131072 ==> r == 0xFFFF - Fold(SumLE(data[off..off + len]))
  {
    hide Add32, SumLE, Fold;
    ghost var b := data[off..off + len];
    var sum, i := Add32(0, 0), 0;
    SumNothing();
    while len - 2 * i > 1
      invariant 0 <= 2 * i <= len
      invariant sum == Add32(0, SumLE(b[..2 * i]))
    {
      ghost var w := b[2 * i..2 * i + 2];
      assert w == [b[2 * i], b[2 * i + 1]];
      SumOfTwo(b[2 * i], b[2 * i + 1]);
      SumStep(b, 2 * i, w);
      sum := Add32(sum, Word(data[off + 2 * i], data[off + 2 * i + 1]));
      i := i + 1;
    }
    if len - 2 * i != 0 {
      assert b[2 * i..2 * i + 1] == [b[2 * i]];
      SumOfOne(b[2 * i]);
      SumStep(b, 2 * i, [b[2 * i]]);
      sum := Add32(sum, data[off + 2 * i]);
    }
    assert b[..len] == b;
    sum := EndAroundCarry(sum);
    r := 0xFFFF - sum;
    if len <= 131072 { SumFits(b); }
  }

  lemma SumNothing()
    ensures SumLE([]) == 0
  {
  }

  lemma SumOfOne(x: Byte)
    ensures SumLE([x]) == x
  {
  }

  lemma SumOfTwo(x: Byte, y: Byte)
    ensures SumLE([x, y]) == Word(x, y)
  {
    assert [x, y][2..] == [];
  }

  /** The second loop of checksum16. */
  method EndAroundCarry(s: nat) returns (sum: nat)
    ensures sum == Fold(s)
  {
    sum := s;
    while sum / M16 != 0
      invariant Fold(sum) == Fold(s)
      decreases sum
    {
      sum := sum % M16 + sum / M16;
    }
  }

  /** The two bytes a little-endian store of checksum16 writes are those a network-order store of
      the RFC's checksum would write. */
  lemma SameStoredBytes(b: seq<Byte>)
    ensures var le, be := 0xFFFF - Fold(SumLE(b)), 0xFFFF - Fold(SumBE(b));
            le % 256 == be / 256 && le / 256 == be % 256
  {
    hide Fold, SumLE, SumBE;
    FoldSwaps(b);
    ComplementSwap(Fold(SumLE(b)));
  }

  lemma ComplementSwap(x: nat)
    requires x < M16
    ensures var y := 0xFFFF - Swap(x); (0xFFFF - x) % 256 == y / 256 && (0xFFFF - x) / 256 == y % 256
  {
    var h, l := x / 256, x % 256;
    assert 0xFFFF - x == (255 - h) * 256 + (255 - l);
    assert 0xFFFF - Swap(x) == (255 - l) * 256 + (255 - h);
  }
}
