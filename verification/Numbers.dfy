/** Numbers as text: what the conversions of vsnprintf print, and what atoi and strtol read, on 32-bit int and long. */
module Numbers {
  const HALF: int := 0x8000_0000
  const WHOLE: int := 0x1_0000_0000

  type Int32 = x: int | -0x8000_0000 <= x < 0x8000_0000

  type UInt32 = x: int | 0 <= x < 0x1_0000_0000

  /** Two's complement wrap-around. */
  function Wrap(x: int): (r: Int32)
    ensures -HALF <= x < HALF ==> r == x
  {
    (x + HALF) % WHOLE - HALF
  }

  function Minus(x: int): int {
    -x
  }

  // ------------------------------------------------------------------ printing

  function DigitChar(d: int): char
    requires -9 <= d < 16
  {
    if d < 10 then ('0' as int + d) as char else ('a' as int + d - 10) as char
  }

  /** The digits of v, most significant first. */
  function Digits(v: nat, base: nat): (r: string)
    requires 2 <= base <= 16
    ensures r != ""
  {
    if v < base then [DigitChar(v)] else Digits(v / base, base) + [DigitChar(v % base)]
  }

  /** The same of a negative number, whose remainders under truncating division are negative. */
  function LowDigits(n: nat): (r: string)
    ensures r != ""
  {
    if n < 10 then [DigitChar(Minus(n))] else LowDigits(n / 10) + [DigitChar(Minus(n % 10))]
  }

  function Signed(v: Int32): string {
    if v < 0 then LowDigits(Minus(v)) else Digits(v, 10)
  }

  /** `%d`: negating the smallest int leaves it as it is. */
  function Decimal(v: Int32): string {
    if v < 0 then "-" + Signed(Wrap(Minus(v))) else Signed(v)
  }

  /** `%x`. */
  function Hex(v: UInt32): string {
    Digits(v, 16)
  }

  // ------------------------------------------------------------------ parsing

  /** A digit's value, or 36 for a character that is none. */
  function DigitOf(c: char): (d: nat)
    ensures d <= 36
  {
    if '0' <= c <= '9' then c as int - '0' as int
    else if 'a' <= c <= 'z' then c as int - 'a' as int + 10
    else if 'A' <= c <= 'Z' then c as int - 'A' as int + 10
    else 36
  }

  predicate IsDigit(c: char, base: int) {
    DigitOf(c) < 36 && DigitOf(c) < base
  }

  /** How many digits the text starts with. */
  function DigitCount(s: string, base: int): (n: nat)
    ensures n <= |s|
  {
    if s == "" || !IsDigit(s[0], base) then 0 else 1 + DigitCount(s[1..], base)
  }

  /** The accumulating loop, in 32 bits. */
  function Accumulate(val: Int32, s: string, base: int): (r: Int32)
    decreases |s|
  {
    if s == "" || !IsDigit(s[0], base) then val else Accumulate(Wrap(val * base + DigitOf(s[0])), s[1..], base)
  }

  function Blanks(s: string): (n: nat)
    ensures n <= |s|
  {
    if s == "" || !(s[0] == ' ' || s[0] == '\t') then 0 else 1 + Blanks(s[1..])
  }

  function SignLen(s: string): (n: nat)
    ensures n <= |s| && n <= 1
  {
    if s != "" && (s[0] == '-' || s[0] == '+') then 1 else 0
  }

  predicate Negative(s: string) {
    s != "" && s[0] == '-'
  }

  function Atoi(s: string): (r: Int32) {
    var t := s[Blanks(s)..];
    var val := Accumulate(0, t[SignLen(t)..], 10);
    if Negative(t) then Wrap(Minus(val)) else val
  }

  /** Base 0: 0x says 16, a leading 0 says 8, anything else 10. */
  function BaseOf(t: string, base: int): int {
    if base != 0 then base
    else if t == "" || t[0] != '0' then 10
    else if |t| > 1 && (t[1] == 'x' || t[1] == 'X') then 16
    else 8
  }

  function PrefixLen(t: string, base: int): (n: nat)
    ensures n <= |t|
  {
    if base == 0 && |t| > 1 && t[0] == '0' && (t[1] == 'x' || t[1] == 'X') then 2 else 0
  }

  /** Where strtol's digits start. */
  function Start(s: string, base: int): (n: nat)
    ensures n <= |s|
  {
    var t := s[Blanks(s)..];
    var u := t[SignLen(t)..];
    Blanks(s) + SignLen(t) + PrefixLen(u, base)
  }

  function Strtol(s: string, base: int): (r: Int32) {
    var t := s[Blanks(s)..];
    var val := Accumulate(0, s[Start(s, base)..], BaseOf(t[SignLen(t)..], base));
    if Negative(t) then Wrap(Minus(val)) else val
  }

  /** Where strtol stops. */
  function StrtolEnd(s: string, base: int): (n: nat)
    ensures n <= |s|
  {
    var t := s[Blanks(s)..];
    Start(s, base) + DigitCount(s[Start(s, base)..], BaseOf(t[SignLen(t)..], base))
  }

  // ------------------------------------------------------------------ round trips

  /** The number a text of digits stands for, continuing from x. */
  function Value(x: int, s: string, base: int): int
    decreases |s|
  {
    if s == "" then x else Value(x * base + DigitOf(s[0]), s[1..], base)
  }

  predicate AllDigits(s: string, base: int) {
    forall i :: 0 <= i < |s| ==> IsDigit(s[i], base)
  }

  lemma {:induction false} ValueLast(x: int, s: string, c: char, base: int)
    ensures Value(x, s + [c], base) == Value(x, s, base) * base + DigitOf(c)
    decreases |s|
  {
    if s == "" {
      assert (s + [c])[1..] == "";
    } else {
      assert (s + [c])[1..] == s[1..] + [c];
      ValueLast(x * base + DigitOf(s[0]), s[1..], c, base);
    }
  }

  lemma DigitRoundTrip(d: nat, base: nat)
    requires d < base <= 16
    ensures DigitOf(DigitChar(d)) == d && IsDigit(DigitChar(d), base)
    ensures DigitChar(d) != ' ' && DigitChar(d) != '\t' && DigitChar(d) != '-' && DigitChar(d) != '+'
  {}

  lemma DivMod(v: nat, b: nat)
    requires b > 0
    ensures v / b * b + v % b == v && 0 <= v % b < b
    ensures b >= 2 && v >= b ==> v / b < v
  {}

  lemma ValueOne(x: int, c: char, base: int)
    ensures Value(x, [c], base) == x * base + DigitOf(c)
  {
    assert [c][1..] == "";
  }

  lemma PushDigit(s: string, q: int, r: nat, base: nat)
    requires r < base <= 16 && Value(0, s, base) == q && AllDigits(s, base)
    ensures Value(0, s + [DigitChar(r)], base) == q * base + r && AllDigits(s + [DigitChar(r)], base)
  {
    hide Value, DigitOf, DigitChar, IsDigit;
    DigitRoundTrip(r, base);
    ValueLast(0, s, DigitChar(r), base);
  }

  lemma {:induction false} DigitsValue(v: nat, base: nat)
    requires 2 <= base <= 16
    ensures Value(0, Digits(v, base), base) == v && AllDigits(Digits(v, base), base)
    decreases v
  {
    hide Value, DigitOf, DigitChar, IsDigit, AllDigits;
    DivMod(v, base);
    if v < base {
      OneDigit(v, base);
    } else {
      var q, r := v / base, v % base;
      DigitsValue(q, base);
      PushDigit(Digits(q, base), q, r, base);
    }
  }

  /** Digits are printed in lower case and without leading zeros. */
  predicate Shaped(d: string) {
    (forall i :: 0 <= i < |d| ==> '0' <= d[i] <= '9' || 'a' <= d[i] <= 'f') && d != "" && (|d| > 1 ==> d[0] != '0')
  }

  lemma {:induction false} DigitsShaped(v: nat, base: nat)
    requires 2 <= base <= 16
    ensures Shaped(Digits(v, base)) && (v > 0 ==> Digits(v, base)[0] != '0')
    decreases v
  {
    DivMod(v, base);
    if v >= base {
      DigitsShaped(v / base, base);
      assert v / base > 0;
    }
  }

  lemma OneDigit(v: nat, base: nat)
    requires v < base <= 16
    ensures Value(0, [DigitChar(v)], base) == v && AllDigits([DigitChar(v)], base)
  {
    hide Value, DigitOf, DigitChar, IsDigit;
    DigitRoundTrip(v, base);
    ValueOne(0, DigitChar(v), base);
  }

  lemma WrapStep(x: int, base: int, d: int)
    ensures Wrap(Wrap(x) * base + d) == Wrap(x * base + d)
  {
    var k := (x + HALF) / WHOLE;
    assert Wrap(x) == x - k * WHOLE;
    assert Wrap(x) * base + d == (x * base + d) - (k * base) * WHOLE;
    WrapShift(x * base + d, -(k * base));
  }

  lemma WrapShift(x: int, k: int)
    ensures Wrap(x + k * WHOLE) == Wrap(x)
  {
    ModShift(x + HALF, k);
  }

  lemma ModShift(x: int, k: int)
    ensures (x + k * WHOLE) % WHOLE == x % WHOLE
  {
    var q, r := x / WHOLE, x % WHOLE;
    assert x + k * WHOLE == (q + k) * WHOLE + r;
  }

  /** The 32-bit loop computes the number, wrapped once at the end. */
  lemma {:induction false} AccumulateValue(x: int, s: string, base: int)
    requires AllDigits(s, base)
    ensures Accumulate(Wrap(x), s, base) == Wrap(Value(x, s, base)) && DigitCount(s, base) == |s|
    decreases |s|
  {
    hide Wrap, IsDigit, DigitOf;
    if s != "" {
      WrapStep(x, base, DigitOf(s[0]));
      AccumulateValue(x * base + DigitOf(s[0]), s[1..], base);
    }
  }

  /** A text that starts with a digit has neither blanks nor a sign. */
  lemma NoLead(s: string, base: nat)
    requires s != "" && base <= 16 && IsDigit(s[0], base)
    ensures Blanks(s) == 0 && SignLen(s) == 0 && !Negative(s) && s[0..] == s
  {}

  lemma AtoiDigits(v: nat, neg: bool)
    requires v < HALF
    ensures Atoi(if neg then "-" + Digits(v, 10) else Digits(v, 10)) == if neg then Minus(v) else v
  {
    hide Digits, Accumulate, Value, IsDigit, AllDigits;
    var d := Digits(v, 10);
    DigitsValue(v, 10);
    assert IsDigit(d[0], 10) by { FirstDigit(d, 10); }
    NoLead(d, 10);
    AccumulateValue(0, d, 10);
    if neg {
      var s := "-" + d;
      assert Blanks(s) == 0 && s[0..] == s && SignLen(s) == 1 && s[1..] == d;
    }
  }

  lemma FirstDigit(s: string, base: int)
    requires s != "" && AllDigits(s, base)
    ensures IsDigit(s[0], base)
  {}

  lemma {:induction false} LowDigitsFirst(n: nat)
    requires n > 0
    ensures LowDigits(n)[0] < '0'
  {
    if n >= 10 { LowDigitsFirst(n / 10); }
  }

  /** The characters printed for the smallest int are no digits. */
  lemma AtoiLow(n: nat)
    requires n > 0
    ensures Atoi("-" + LowDigits(n)) == 0
  {
    hide LowDigits;
    var d := LowDigits(n);
    var s := "-" + d;
    LowDigitsFirst(n);
    assert Blanks(s) == 0 && s[0..] == s && SignLen(s) == 1 && s[1..] == d;
    assert Accumulate(0, d, 10) == 0;
  }

  lemma DecimalIs(v: Int32)
    ensures v >= 0 ==> Decimal(v) == Digits(v, 10)
    ensures v < 0 && v != Minus(HALF) ==> Decimal(v) == "-" + Digits(Minus(v), 10)
    ensures v == Minus(HALF) ==> Decimal(v) == "-" + LowDigits(HALF)
  {
    hide Digits, LowDigits;
  }

  /** atoi undoes `%d` for every int but the smallest. */
  lemma AtoiUndoesDecimal(v: Int32)
    ensures Atoi(Decimal(v)) == v <==> v != Minus(HALF)
  {
    hide Digits, LowDigits, Atoi, Decimal;
    DecimalIs(v);
    if v >= 0 {
      AtoiDigits(v, false);
    } else if v != Minus(HALF) {
      AtoiDigits(Minus(v), true);
    } else {
      AtoiLow(HALF);
    }
  }

  /** strtol in base 16 undoes `%x` exactly for the values a long can hold, and reads the whole text. */
  lemma StrtolUndoesHex(v: UInt32)
    ensures Strtol(Hex(v), 16) == Wrap(v) && StrtolEnd(Hex(v), 16) == |Hex(v)|
    ensures Strtol(Hex(v), 16) == v <==> v < HALF
  {
    hide Digits, Accumulate, Value, IsDigit, AllDigits, DigitCount;
    var d := Digits(v, 16);
    DigitsValue(v, 16);
    assert IsDigit(d[0], 16) by { FirstDigit(d, 16); }
    NoLead(d, 16);
    AccumulateValue(0, d, 16);
  }

  // ------------------------------------------------------------------ every form of number

  predicate AllBlank(s: string) {
    forall i :: 0 <= i < |s| ==> s[i] == ' ' || s[i] == '\t'
  }

  /** No digit of the base comes first. */
  predicate NoDigitFirst(s: string, base: int) {
    s != "" ==> !IsDigit(s[0], base)
  }

  lemma {:induction false} BlanksOf(b: string, rest: string)
    requires AllBlank(b) && rest != "" && rest[0] != ' ' && rest[0] != '\t'
    ensures Blanks(b + rest) == |b| && (b + rest)[|b|..] == rest
  {
    if b == "" {
      assert b + rest == rest;
    } else {
      assert (b + rest)[1..] == b[1..] + rest;
      BlanksOf(b[1..], rest);
    }
  }

  /** The loop reads the digits, and stops at what follows them. */
  lemma {:induction false} AccumulateStops(x: int, d: string, rest: string, base: int)
    requires AllDigits(d, base) && NoDigitFirst(rest, base)
    ensures Accumulate(Wrap(x), d + rest, base) == Wrap(Value(x, d, base)) && DigitCount(d + rest, base) == |d|
    decreases |d|
  {
    hide Wrap, IsDigit, DigitOf;
    if d == "" {
      assert d + rest == rest;
    } else {
      assert (d + rest)[1..] == d[1..] + rest;
      WrapStep(x, base, DigitOf(d[0]));
      AccumulateStops(x * base + DigitOf(d[0]), d[1..], rest, base);
    }
  }

  lemma WrapMinus(x: int)
    ensures Wrap(Minus(Wrap(x))) == Wrap(Minus(x))
  {
    var k := (x + HALF) / WHOLE;
    assert Wrap(x) == x - k * WHOLE;
    WrapShift(Minus(x), k);
  }

  /** After blanks and at most one sign: where the number starts, and whether it is negative. */
  lemma SignOf(b: string, sign: string, rest: string)
    requires AllBlank(b) && sign in {"", "+", "-"} && rest != ""
    requires rest[0] != ' ' && rest[0] != '\t' && rest[0] != '-' && rest[0] != '+'
    ensures var s := b + (sign + rest);
            var t := s[Blanks(s)..];
            && Blanks(s) == |b| && SignLen(t) == |sign| && t[SignLen(t)..] == rest && (Negative(t) <==> sign == "-")
            && s[|b| + |sign|..] == rest
  {
    hide Blanks;
    BlanksOf(b, sign + rest);
    var s := b + (sign + rest);
    assert s[|b|..] == sign + rest;
    assert (sign + rest)[|sign|..] == rest;
    TailOf(s, |b|, |sign|);
  }

  /** atoi on blanks, a sign, decimal digits and anything after them: the number, wrapped to 32 bits. */
  lemma AtoiReads(b: string, sign: string, d: string, rest: string)
    requires AllBlank(b) && sign in {"", "+", "-"} && d != "" && AllDigits(d, 10) && NoDigitFirst(rest, 10)
    ensures Atoi(b + (sign + (d + rest))) == Wrap(if sign == "-" then Minus(Value(0, d, 10)) else Value(0, d, 10))
  {
    hide Accumulate, Blanks, Value, Wrap;
    FirstDigit(d, 10);
    assert (d + rest)[0] == d[0];
    SignOf(b, sign, d + rest);
    WrapZero();
    AccumulateStops(0, d, rest, 10);
    WrapMinus(Value(0, d, 10));
  }

  lemma WrapZero()
    ensures Wrap(0) == 0
  {}

  /** The base strtol takes for a number written with this prefix and these digits. */
  predicate Radix(prefix: string, d: string, rest: string, base: int, radix: int) {
    if base != 0 then prefix == "" && d != "" && radix == base
    else if prefix != "" then prefix in {"0x", "0X"} && radix == 16
    else if d != "" && d[0] == '0' then
      radix == 8 && (|d| > 1 || rest == "" || (rest[0] != 'x' && rest[0] != 'X'))
    else d != "" && radix == 10
  }

  lemma RadixIs(prefix: string, d: string, rest: string, base: int, radix: int)
    requires Radix(prefix, d, rest, base, radix) && AllDigits(d, radix)
    ensures var u := prefix + (d + rest);
            && u != "" && BaseOf(u, base) == radix && PrefixLen(u, base) == |prefix| && u[|prefix|..] == d + rest
            && u[0] != ' ' && u[0] != '\t' && u[0] != '-' && u[0] != '+'
  {
    var u := prefix + (d + rest);
    if prefix == "" {
      FirstDigit(d, radix);
      assert u == d + rest && u[0] == d[0];
      if |d| > 1 { assert u[1] == d[1] && IsDigit(d[1], radix); }
      if |d| == 1 && rest != "" { assert u[1] == rest[0]; }
    } else {
      assert u[0] == prefix[0] && u[1] == prefix[1];
    }
  }

  /** strtol on blanks, a sign, a prefix if the base is left open, digits and anything after them: the number in the
      base asked for or implied by the prefix, wrapped to 32 bits, and where it ends. */
  lemma StrtolReads(b: string, sign: string, prefix: string, d: string, rest: string, base: int, radix: int)
    requires AllBlank(b) && sign in {"", "+", "-"} && Radix(prefix, d, rest, base, radix)
    requires AllDigits(d, radix) && NoDigitFirst(rest, radix)
    ensures var s := b + (sign + (prefix + (d + rest)));
            && Strtol(s, base) == Wrap(if sign == "-" then Minus(Value(0, d, radix)) else Value(0, d, radix))
            && StrtolEnd(s, base) == |b| + |sign| + |prefix| + |d|
  {
    hide Accumulate, Blanks, Value, Wrap, DigitCount, BaseOf, PrefixLen;
    hide Radix, AllDigits, IsDigit, NoDigitFirst, AllBlank;
    var u := prefix + (d + rest);
    var s := b + (sign + u);
    RadixIs(prefix, d, rest, base, radix);
    SignOf(b, sign, u);
    WrapZero();
    AccumulateStops(0, d, rest, radix);
    WrapMinus(Value(0, d, radix));
    assert Start(s, base) == |b| + |sign| + |prefix|;
    TailOf(s, |b| + |sign|, |prefix|);
  }

  // ------------------------------------------------------------------ the parsers

  lemma SkipOne(s: string, p: nat)
    requires p < |s|
    ensures s[p..][1..] == s[p + 1..] && s[p..][0] == s[p]
  {}

  method SkipBlanks(s: string) returns (p: nat)
    ensures p == Blanks(s) && p <= |s|
  {
    p := 0;
    assert s[0..] == s;
    while p < |s| && (s[p] == ' ' || s[p] == '\t')
      invariant p <= |s| && Blanks(s) == p + Blanks(s[p..])
    {
      SkipOne(s, p);
      p := p + 1;
    }
  }

  lemma TailOf(s: string, b: nat, k: nat)
    requires b <= |s| && k <= |s| - b
    ensures s[b..][k..] == s[b + k..]
  {}

  /** atoi. */
  method ReadInt(s: string) returns (r: Int32)
    ensures r == Atoi(s)
  {
    hide Blanks, Accumulate, Wrap;
    var p, val, neg := 0, 0, false;
    p := SkipBlanks(s);
    ghost var t := s[p..];
    if p < |s| && s[p] == '-' { neg := true; p := p + 1; } else if p < |s| && s[p] == '+' { p := p + 1; }
    assert neg == Negative(t) && p == Blanks(s) + SignLen(t);
    TailOf(s, Blanks(s), SignLen(t));
    ghost var goal := Accumulate(0, s[p..], 10);
    while p < |s| && '0' <= s[p] <= '9'
      invariant p <= |s| && -HALF <= val < HALF && Accumulate(val, s[p..], 10) == goal
    {
      AccumulateDigit(val, s, p, 10);
      val := Wrap(val * 10 + (s[p] as int - '0' as int));
      p := p + 1;
    }
    AccumulateEnd(val, s, p, 10);
    r := if neg then Wrap(Minus(val)) else val;
  }

  lemma AccumulateDigit(val: Int32, s: string, p: nat, base: int)
    requires p < |s| && IsDigit(s[p], base)
    ensures Accumulate(val, s[p..], base) == Accumulate(Wrap(val * base + DigitOf(s[p])), s[p + 1..], base)
    ensures DigitCount(s[p..], base) == 1 + DigitCount(s[p + 1..], base)
  {
    SkipOne(s, p);
  }

  lemma AccumulateEnd(val: Int32, s: string, p: nat, base: int)
    requires p <= |s| && (p < |s| ==> !IsDigit(s[p], base))
    ensures Accumulate(val, s[p..], base) == val && DigitCount(s[p..], base) == 0
  {}

  method ReadBase(s: string, p: nat, base: int) returns (radix: int, q: nat)
    requires p <= |s|
    ensures radix == BaseOf(s[p..], base) && q == p + PrefixLen(s[p..], base) && q <= |s|
  {
    radix, q := base, p;
    if radix == 0 {
      if p < |s| && s[p] == '0' {
        if p + 1 < |s| && (s[p + 1] == 'x' || s[p + 1] == 'X') { radix := 16; q := p + 2; } else { radix := 8; }
      } else {
        radix := 10;
      }
    }
  }

  /** The digit loop of strtol. */
  method ReadDigits(s: string, start: nat, radix: int) returns (val: Int32, p: nat)
    requires start <= |s|
    ensures val == Accumulate(0, s[start..], radix) && p == start + DigitCount(s[start..], radix)
  {
    hide Accumulate, Wrap, DigitCount;
    p, val := start, 0;
    while p < |s|
      invariant start <= p <= |s| && -HALF <= val < HALF
      invariant Accumulate(val, s[p..], radix) == Accumulate(0, s[start..], radix)
      invariant p + DigitCount(s[p..], radix) == start + DigitCount(s[start..], radix)
    {
      var digit := DigitOf(s[p]);
      if digit == 36 || digit >= radix { break; }
      AccumulateDigit(val, s, p, radix);
      val := Wrap(val * radix + digit);
      p := p + 1;
    }
    AccumulateEnd(val, s, p, radix);
  }

  /** strtol. */
  method ReadLong(s: string, base: int) returns (r: Int32, end: nat)
    ensures r == Strtol(s, base) && end == StrtolEnd(s, base)
  {
    hide Blanks, Accumulate, Wrap, DigitCount, BaseOf, PrefixLen;
    var p, neg, radix, val;
    neg := false;
    p := SkipBlanks(s);
    ghost var t := s[p..];
    if p < |s| && s[p] == '-' { neg := true; p := p + 1; } else if p < |s| && s[p] == '+' { p := p + 1; }
    assert neg == Negative(t) && p == Blanks(s) + SignLen(t);
    TailOf(s, Blanks(s), SignLen(t));
    radix, p := ReadBase(s, p, base);
    val, end := ReadDigits(s, p, radix);
    r := if neg then Wrap(Minus(val)) else val;
  }
}
