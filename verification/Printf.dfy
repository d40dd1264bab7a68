/** vsnprintf: a full rendering of format and arguments, and the bounded writer that stores a prefix of it. */
module Printf {
  import opened Numbers

  /** One variable argument. */
  datatype Arg = Str(s: string) | NullStr | Int(v: Int32) | Unsigned(u: UInt32) | Chr(c: char)

  /** Conversions that consume an argument. */
  predicate Takes(c: char) {
    c == 's' || c == 'd' || c == 'i' || c == 'x' || c == 'c'
  }

  predicate Matches(c: char, a: Arg) {
    match a
    case Str(_) => c == 's'
    case NullStr => c == 's'
    case Int(_) => c == 'd' || c == 'i'
    case Unsigned(_) => c == 'x'
    case Chr(_) => c == 'c'
  }

  function Text(a: Arg): string {
    match a
    case Str(s) => s
    case NullStr => "(null)"
    case Int(v) => Decimal(v)
    case Unsigned(u) => Hex(u)
    case Chr(c) => [c]
  }

  /** As long as there is room, every `%` is followed by a character and the arguments are of the kinds asked for. */
  predicate Typed(f: string, args: seq<Arg>, room: int)
    decreases |f|
  {
    if f == "" || room <= 0 then true
    else if f[0] != '%' then Typed(f[1..], args, room - 1)
    else if |f| == 1 then false
    else if Takes(f[1]) then args != [] && Matches(f[1], args[0]) && Typed(f[2..], args[1..], room - |Text(args[0])|)
    else Typed(f[2..], args, room - 1)
  }

  /** The whole output, were there room, up to a conversion without an argument for it. */
  function Full(f: string, args: seq<Arg>): string
    decreases |f|
  {
    if f == "" then ""
    else if f[0] != '%' then [f[0]] + Full(f[1..], args)
    else if |f| == 1 then ""
    else if !Takes(f[1]) then [f[1]] + Full(f[2..], args)
    else if args == [] || !Matches(f[1], args[0]) then ""
    else Text(args[0]) + Full(f[2..], args[1..])
  }

  function Min(a: nat, b: nat): (r: nat)
    ensures r <= a && r <= b && (r == a || r == b)
  {
    if a < b then a else b
  }

  function Reversed(s: string): (r: string)
    ensures |r| == |s|
  {
    if s == "" then "" else Reversed(s[1..]) + [s[0]]
  }

  lemma {:induction false} ReversedLast(s: string, c: char)
    ensures Reversed(s + [c]) == [c] + Reversed(s)
  {
    if s == "" {
      assert (s + [c])[1..] == "";
    } else {
      assert (s + [c])[1..] == s[1..] + [c];
      ReversedLast(s[1..], c);
    }
  }

  // ------------------------------------------------------------------ digits

  /** Truncating division, as C has it. */
  function Quot(v: int): int {
    if v < 0 then Minus(Minus(v) / 10) else v / 10
  }

  function Rem(v: int): (r: int)
    ensures -9 <= r <= 9
  {
    if v < 0 then Minus(Minus(v) % 10) else v % 10
  }

  /** What is still to be filled in. */
  function Pending(v: Int32): string {
    if v == 0 then "" else Signed(v)
  }

  lemma SignedStep(v: Int32)
    ensures -HALF <= Quot(v) < HALF && Signed(v) == Pending(Quot(v)) + [DigitChar(Rem(v))]
  {}

  function Pow(b: nat, k: nat): nat {
    if k == 0 then 1 else b * Pow(b, k - 1)
  }

  lemma {:induction false} DigitsShort(v: nat, base: nat, k: nat)
    requires 2 <= base <= 16 && k >= 1 && v < Pow(base, k)
    ensures |Digits(v, base)| <= k
    decreases v
  {
    if v >= base {
      PowOne(base);
      DivBound(v, base, Pow(base, k - 1));
      DigitsShort(v / base, base, k - 1);
    }
  }

  lemma PowOne(b: nat)
    ensures Pow(b, 1) == b
  {
    assert Pow(b, 1) == b * Pow(b, 0);
  }

  lemma Scaled(b: nat, p: nat, q: nat)
    requires p <= q
    ensures b * p <= q * b
  {}

  lemma DivBound(v: nat, b: nat, p: nat)
    requires b >= 2 && v < b * p
    ensures v / b < p && (v >= b ==> v / b < v)
  {
    var q := v / b;
    assert v == q * b + v % b;
    if q >= p { Scaled(b, p, q); }
  }

  lemma {:induction false} LowDigitsLength(n: nat)
    ensures |LowDigits(n)| == |Digits(n, 10)|
  {
    if n >= 10 { LowDigitsLength(n / 10); }
  }

  lemma PowTen()
    ensures Pow(10, 10) == 10_000_000_000
  {
    assert Pow(10, 5) == 100_000;
    assert Pow(10, 10) == 10 * (10 * (10 * (10 * (10 * Pow(10, 5)))));
  }

  lemma PowSixteen()
    ensures Pow(16, 8) == WHOLE
  {
    assert Pow(16, 4) == 0x1_0000;
    assert Pow(16, 8) == 16 * (16 * (16 * (16 * Pow(16, 4))));
  }

  /** Ten characters hold any int, eight any unsigned. */
  lemma SignedShort(v: Int32)
    ensures |Signed(v)| <= 10
  {
    hide Digits, LowDigits, Pow;
    PowTen();
    if v < 0 {
      LowDigitsLength(Minus(v));
      DigitsShort(Minus(v), 10, 10);
    } else {
      DigitsShort(v, 10, 10);
    }
  }

  lemma HexShort(v: UInt32)
    ensures |Hex(v)| <= 8
  {
    hide Digits, Pow;
    PowSixteen();
    DigitsShort(v, 16, 8);
  }

  /** The digit loop of `%d`: least significant first. */
  method FillDecimal(val: Int32, num: array<char>) returns (n: nat)
    requires num.Length == 16
    modifies num
    ensures n <= 16 && Reversed(num[..n]) == Signed(val)
  {
    hide Signed, Quot, Rem, Reversed;
    SignedShort(val);
    SignedStep(val);
    num[0] := DigitChar(Rem(val));
    var v := Quot(val);
    n := 1;
    assert num[..1] == "" + [num[0]];
    ReversedLast("", num[0]);
    ReversedEmpty();
    while v != 0
      invariant 1 <= n <= 16 && -HALF <= v < HALF
      invariant Pending(v) + Reversed(num[..n]) == Signed(val)
      invariant n + |Pending(v)| == |Signed(val)|
      decreases |Pending(v)|
    {
      SignedStep(v);
      num[n] := DigitChar(Rem(v));
      assert num[..n + 1] == num[..n] + [num[n]];
      ReversedLast(num[..n], num[n]);
      v := Quot(v);
      n := n + 1;
    }
  }

  lemma ReversedEmpty()
    ensures Reversed("") == ""
  {}

  function PendingHex(v: UInt32): string {
    if v == 0 then "" else Hex(v)
  }

  lemma HexStep(v: UInt32)
    ensures 0 <= v / 16 < WHOLE && 0 <= v % 16 < 16 && Hex(v) == PendingHex(v / 16) + [DigitChar(v % 16)]
  {}

  /** The digit loop of `%x`. */
  method FillHex(val: UInt32, num: array<char>) returns (n: nat)
    requires num.Length == 16
    modifies num
    ensures n <= 16 && Reversed(num[..n]) == Hex(val)
  {
    hide Hex, Reversed;
    HexShort(val);
    HexStep(val);
    num[0] := DigitChar(val % 16);
    var v := val / 16;
    n := 1;
    assert num[..1] == "" + [num[0]];
    ReversedLast("", num[0]);
    ReversedEmpty();
    while v != 0
      invariant 1 <= n <= 16 && 0 <= v < WHOLE
      invariant PendingHex(v) + Reversed(num[..n]) == Hex(val)
      invariant n + |PendingHex(v)| == |Hex(val)|
      decreases |PendingHex(v)|
    {
      HexStep(v);
      num[n] := DigitChar(v % 16);
      assert num[..n + 1] == num[..n] + [num[n]];
      ReversedLast(num[..n], num[n]);
      v := v / 16;
      n := n + 1;
    }
  }

  // ------------------------------------------------------------------ bounded writing

  /** `text` was appended at p as far as it fits below cap. */
  ghost predicate Appended(was: string, now: string, p: nat, p': nat, cap: nat, text: string) {
    && |was| == |now| && p <= p' <= |now| && p' == Min(p + |text|, cap)
    && now == was[..p] + text[..p' - p] + was[p'..]
  }

  /** The buffer with the first j characters of `text` stored at p. */
  function Written(was: string, p: nat, text: string, j: nat): (r: string)
    requires p + j <= |was| && j <= |text|
    ensures |r| == |was|
  {
    was[..p] + text[..j] + was[p + j..]
  }

  lemma OneMore(was: string, p: nat, text: string, j: nat)
    requires p + j < |was| && j < |text|
    ensures Written(was, p, text, j)[p + j := text[j]] == Written(was, p, text, j + 1)
  {}

  lemma NothingYet(was: string, p: nat, text: string)
    requires p <= |was|
    ensures Written(was, p, text, 0) == was
  {}

  lemma AllWritten(was: string, p: nat, text: string, j: nat, cap: nat)
    requires p + j <= cap <= |was| && j <= |text| && p + j == Min(p + |text|, cap)
    ensures Appended(was, Written(was, p, text, j), p, p + j, cap, text)
  {}

  method PutString(s: string, str: array<char>, p: nat, cap: nat) returns (p': nat)
    requires p <= cap <= str.Length
    modifies str
    ensures Appended(old(str[..]), str[..], p, p', cap, s)
  {
    hide Written, Appended;
    ghost var was := str[..];
    var i := 0;
    p' := p;
    NothingYet(was, p, s);
    while i < |s| && p' < cap
      invariant i <= |s| && p' == p + i && p' <= cap
      invariant str[..] == Written(was, p, s, i)
    {
      OneMore(was, p, s, i);
      str[p'] := s[i];
      p' := p' + 1;
      i := i + 1;
    }
    AllWritten(was, p, s, i, cap);
  }

  /** The digits, taken from the end of the buffer. */
  method PutDigits(num: array<char>, n: nat, str: array<char>, p: nat, cap: nat) returns (p': nat)
    requires p <= cap <= str.Length && n <= num.Length && num != str
    modifies str
    ensures Appended(old(str[..]), str[..], p, p', cap, Reversed(num[..n]))
  {
    hide Reversed, Written, Appended;
    ghost var was, text := str[..], Reversed(num[..n]);
    var k := n;
    p' := p;
    NothingYet(was, p, text);
    while k > 0 && p' < cap
      invariant 0 <= k <= n && p' == p + (n - k) && p' <= cap
      invariant str[..] == Written(was, p, text, n - k)
    {
      k := k - 1;
      ReversedAt(num[..n], n - 1 - k);
      OneMore(was, p, text, n - 1 - k);
      str[p'] := num[k];
      p' := p' + 1;
    }
    AllWritten(was, p, text, n - k, cap);
  }

  lemma {:induction false} ReversedAt(s: string, i: nat)
    requires i < |s|
    ensures Reversed(s)[i] == s[|s| - 1 - i]
  {
    if i < |s| - 1 { ReversedAt(s[1..], i); }
  }

  /** Two appends are one, also when the first fills the room. */
  lemma AppendedTwice(a: string, b: string, c: string, p: nat, q: nat, r: nat, cap: nat, s: string, t: string)
    requires p <= cap <= |a| && Appended(a, b, p, q, cap, s) && Appended(b, c, q, r, cap, t)
    ensures Appended(a, c, p, r, cap, s + t)
  {
    assert b[..q] == a[..p] + s[..q - p];
    assert b[r..] == a[r..];
    if q < cap {
      assert s[..q - p] == s;
      assert (s + t)[..r - p] == s + t[..r - q];
    } else {
      assert (s + t)[..r - p] == s[..q - p];
    }
    assert c == a[..p] + (s + t)[..r - p] + a[r..];
  }

  /** One `%d`. */
  method PutDecimal(val: Int32, str: array<char>, p: nat, cap: nat) returns (p': nat)
    requires p <= cap <= str.Length
    modifies str
    ensures Appended(old(str[..]), str[..], p, p', cap, Decimal(val))
  {
    hide Appended, Signed, Reversed, Wrap;
    var num := new char[16];
    var neg, v, q := false, val, p;
    if v < 0 { neg := true; v := Wrap(Minus(v)); }
    var n := FillDecimal(v, num);
    ghost var was := str[..];
    if neg {
      q := PutString("-", str, p, cap);
    } else {
      AppendedNone(was, p, cap);
    }
    ghost var mid := str[..];
    AppendedWithin(was, mid, p, q, cap, if neg then "-" else "");
    p' := PutDigits(num, n, str, q, cap);
    AppendedTwice(was, mid, str[..], p, q, p', cap, if neg then "-" else "", Signed(v));
    assert "" + Signed(v) == Signed(v);
  }

  lemma AppendedNone(a: string, p: nat, cap: nat)
    requires p <= cap <= |a|
    ensures Appended(a, a, p, p, cap, "")
  {}

  lemma AppendedWithin(a: string, b: string, p: nat, q: nat, cap: nat, s: string)
    requires p <= cap <= |a| && Appended(a, b, p, q, cap, s)
    ensures q <= cap <= |b|
  {}

  /** One argument, by its conversion. */
  method PutArg(c: char, a: Arg, str: array<char>, p: nat, cap: nat) returns (p': nat)
    requires p <= cap <= str.Length && Takes(c) && Matches(c, a)
    modifies str
    ensures Appended(old(str[..]), str[..], p, p', cap, Text(a))
  {
    hide Appended, Decimal, Hex, Reversed;
    if c == 's' {
      p' := PutString(if a.NullStr? then "(null)" else a.s, str, p, cap);
    } else if c == 'd' || c == 'i' {
      p' := PutDecimal(a.v, str, p, cap);
    } else if c == 'x' {
      var num := new char[16];
      var n := FillHex(a.u, num);
      p' := PutDigits(num, n, str, p, cap);
    } else {
      p' := PutString([a.c], str, p, cap);
    }
  }

  /** The next conversion or plain character of the format. */
  lemma FullStep(f: string, i: nat, args: seq<Arg>, k: nat, room: int)
    requires i < |f| && k <= |args| && room > 0 && Typed(f[i..], args[k..], room)
    ensures f[i] != '%' ==>
              && Typed(f[i + 1..], args[k..], room - 1)
              && Full(f[i..], args[k..]) == [f[i]] + Full(f[i + 1..], args[k..])
    ensures f[i] == '%' ==> i + 1 < |f|
    ensures f[i] == '%' && Takes(f[i + 1]) ==>
              && k < |args| && Matches(f[i + 1], args[k])
              && Typed(f[i + 2..], args[k + 1..], room - |Text(args[k])|)
              && Full(f[i..], args[k..]) == Text(args[k]) + Full(f[i + 2..], args[k + 1..])
    ensures f[i] == '%' && !Takes(f[i + 1]) ==>
              && Typed(f[i + 2..], args[k..], room - 1)
              && Full(f[i..], args[k..]) == [f[i + 1]] + Full(f[i + 2..], args[k..])
  {
    hide Text;
    var g, b := f[i..], args[k..];
    assert g[0] == f[i] && g[1..] == f[i + 1..];
    if f[i] == '%' {
      assert g[1] == f[i + 1] && g[2..] == f[i + 2..];
      if Takes(g[1]) { assert b[0] == args[k] && b[1..] == args[k + 1..]; }
    }
  }

  lemma FullEnd(f: string, args: seq<Arg>)
    ensures f == "" ==> Full(f, args) == ""
  {}

  lemma Stored(was: string, mid: string, r: nat, cap: nat, done: string, rest: string)
    requires cap < |was| && r <= cap && Appended(was, mid, 0, r, cap, done) && (r < cap ==> rest == "")
    ensures |mid| == |was| && r == Min(|done + rest|, cap)
    ensures mid[r := '\0'] == (done + rest)[..r] + ['\0'] + was[r + 1..]
  {
    assert (done + rest)[..r] == done[..r];
  }

  /** One turn of the loop: a plain character or a conversion. */
  method PutNext(str: array<char>, cap: nat, r: nat, format: string, f: nat, args: seq<Arg>, k: nat)
    returns (r': nat, f': nat, k': nat, ghost text: string)
    requires r < cap <= str.Length && f < |format| && k <= |args| && Typed(format[f..], args[k..], cap - r)
    modifies str
    ensures f < f' <= |format| && k' <= |args| && Typed(format[f'..], args[k'..], cap - r - |text|)
    ensures Full(format[f..], args[k..]) == text + Full(format[f'..], args[k'..])
    ensures Appended(old(str[..]), str[..], r, r', cap, text)
  {
    hide Full, Typed, Takes, Matches, Text, Appended;
    FullStep(format, f, args, k, cap - r);
    f', k' := f, k;
    if format[f'] == '%' {
      f' := f' + 1;
      if Takes(format[f']) {
        text := Text(args[k]);
        r' := PutArg(format[f'], args[k], str, r, cap);
        k' := k + 1;
      } else {
        text := [format[f']];
        r' := PutString([format[f']], str, r, cap);
      }
    } else {
      text := [format[f']];
      r' := PutString([format[f']], str, r, cap);
    }
    f' := f' + 1;
  }

  /** While there is room, everything so far was stored. */
  lemma AppendedAll(a: string, b: string, q: nat, cap: nat, s: string)
    requires Appended(a, b, 0, q, cap, s) && q < cap
    ensures q == |s|
  {}

  /** One turn of the loop continues what was stored before it. */
  lemma Continued(was: string, mid: string, now: string, q: nat, r: nat, cap: nat, done: string, text: string,
                  rest: string)
    requires cap <= |was| && Appended(was, mid, 0, q, cap, done) && Appended(mid, now, q, r, cap, text)
    ensures Appended(was, now, 0, r, cap, done + text) && r <= cap && |done + text| == |done| + |text|
    ensures done + (text + rest) == (done + text) + rest
  {
    hide Appended;
    AppendedTwice(was, mid, now, 0, q, r, cap, done, text);
    AppendedWithin(was, now, 0, r, cap, done + text);
  }

  /** vsnprintf: the longest prefix of the full rendering that fits, then a terminator. */
  method Vsnprintf(str: array<char>, size: nat, format: string, args: seq<Arg>) returns (r: nat)
    requires 1 <= size <= str.Length && Typed(format, args, size - 1)
    modifies str
    ensures var full := Full(format, args);
            && r == Min(|full|, size - 1)
            && str[..] == full[..r] + ['\0'] + old(str[..])[r + 1..]
  {
    hide Full, Typed, Appended, Min, Takes, Matches, Text, Complete;
    ghost var was, done := str[..], "";
    var cap, f, k := size - 1, 0, 0;
    r := 0;
    assert format[0..] == format && args[0..] == args && done + Full(format, args) == Full(format, args);
    AppendedNone(was, 0, cap);
    while f < |format| && r < cap
      invariant f <= |format| && k <= |args| && r <= cap
      invariant Typed(format[f..], args[k..], cap - |done|) && done + Full(format[f..], args[k..]) == Full(format, args)
      invariant Appended(was, str[..], 0, r, cap, done)
      decreases |format| - f
    {
      ghost var mid, q, text := str[..], r, "";
      AppendedAll(was, mid, r, cap, done);
      r, f, k, text := PutNext(str, cap, r, format, f, args, k);
      Continued(was, mid, str[..], q, r, cap, done, text, Full(format[f..], args[k..]));
      done := done + text;
    }
    if r < cap { FullEnd(format[f..], args[k..]); }
    Stored(was, str[..], r, cap, done, Full(format[f..], args[k..]));
    str[r] := '\0';
  }

  lemma OneConversion(c: char, a: Arg)
    requires Takes(c) && Matches(c, a)
    ensures Full(['%', c], [a]) == Text(a) && forall room: int :: Typed(['%', c], [a], room)
  {
    hide Text;
    var f := ['%', c];
    assert f[2..] == "" && [a][1..] == [] && Text(a) + "" == Text(a);
  }

  /** Printing a number and reading it back: exactly when every int but the smallest, and when the long can hold it. */
  lemma PrintThenRead(v: Int32, u: UInt32)
    ensures Atoi(Full(['%', 'd'], [Int(v)])) == v <==> v != Minus(HALF)
    ensures Strtol(Full(['%', 'x'], [Unsigned(u)]), 16) == u <==> u < HALF
  {
    hide Full, Atoi, Strtol, Decimal, Hex;
    OneConversion('d', Int(v));
    OneConversion('x', Unsigned(u));
    AtoiUndoesDecimal(v);
    StrtolUndoesHex(u);
  }

  /** The format asks for just these arguments, and no `%` ends it. */
  predicate Complete(f: string, args: seq<Arg>)
    decreases |f|
  {
    if f == "" then args == []
    else if f[0] != '%' then Complete(f[1..], args)
    else |f| > 1 && if Takes(f[1]) then args != [] && Matches(f[1], args[0]) && Complete(f[2..], args[1..])
                    else Complete(f[2..], args)
  }

  /** Formats one after the other print one after the other. */
  lemma {:induction false} FullJoin(f: string, a: seq<Arg>, g: string, b: seq<Arg>)
    requires Complete(f, a)
    ensures Full(f + g, a + b) == Full(f, a) + Full(g, b)
    decreases |f|
  {
    hide Text;
    if f == "" {
      assert f + g == g && a + b == b;
    } else if f[0] != '%' {
      assert (f + g)[1..] == f[1..] + g;
      FullJoin(f[1..], a, g, b);
    } else {
      assert (f + g)[2..] == f[2..] + g && (f + g)[1] == f[1];
      if Takes(f[1]) {
        assert (a + b)[1..] == a[1..] + b;
        FullJoin(f[2..], a[1..], g, b);
      } else {
        FullJoin(f[2..], a, g, b);
      }
    }
  }

  /** Text without `%` prints as it is. */
  lemma {:induction false} PlainText(t: string)
    requires '%' !in t
    ensures Complete(t, []) && Full(t, []) == t
  {
    if t != "" { PlainText(t[1..]); }
  }

  /** What each conversion prints: strings and characters as they are, "(null)" for a null pointer, a number as digits
      that stand for it, in lower case and without leading zeros, with a sign in front, unless it is the smallest int;
      and after `%` any other character for itself. */
  lemma Conversions(s: string, c: char, v: Int32, u: UInt32, x: char)
    requires !Takes(x)
    ensures Complete("%s", [Str(s)]) && Full("%s", [Str(s)]) == s
    ensures Complete("%s", [NullStr]) && Full("%s", [NullStr]) == "(null)"
    ensures Complete("%c", [Chr(c)]) && Full("%c", [Chr(c)]) == [c]
    ensures Complete(['%', x], []) && Full(['%', x], []) == [x]
    ensures Complete("%x", [Unsigned(u)])
    ensures var d := Full("%x", [Unsigned(u)]); Shaped(d) && AllDigits(d, 16) && Value(0, d, 16) == u
    ensures Complete("%d", [Int(v)]) && Full("%d", [Int(v)]) == Full("%i", [Int(v)])
    ensures var t := Full("%d", [Int(v)]);
            v != Minus(HALF) ==>
            if v < 0 then t != "" && t[0] == '-' && Shaped(t[1..]) && AllDigits(t[1..], 10)
                          && Value(0, t[1..], 10) == Minus(v)
            else Shaped(t) && AllDigits(t, 10) && Value(0, t, 10) == v
  {
    hide Full, Text, AllDigits, Value, Digits, Shaped;
    OneComplete('s', Str(s));
    OneComplete('s', NullStr);
    OneComplete('c', Chr(c));
    OneComplete('x', Unsigned(u));
    OneComplete('d', Int(v));
    OneComplete('i', Int(v));
    Texts(s, c, v, u);
    OneEscape(x);
    DecimalIs(v);
    DigitsValue(u, 16);
    DigitsShaped(u, 16);
    if v < 0 {
      DigitsValue(Minus(v), 10);
      DigitsShaped(Minus(v), 10);
      assert v != Minus(HALF) ==> Decimal(v)[1..] == Digits(Minus(v), 10);
    } else {
      DigitsValue(v, 10);
      DigitsShaped(v, 10);
    }
  }

  lemma Texts(s: string, c: char, v: Int32, u: UInt32)
    ensures Text(Str(s)) == s && Text(NullStr) == "(null)" && Text(Chr(c)) == [c]
    ensures Text(Int(v)) == Decimal(v) && Text(Unsigned(u)) == Digits(u, 16)
  {}

  lemma OneComplete(c: char, a: Arg)
    requires Takes(c) && Matches(c, a)
    ensures Complete(['%', c], [a]) && Full(['%', c], [a]) == Text(a)
  {
    hide Text;
    var f := ['%', c];
    assert f[2..] == "" && [a][1..] == [];
    OneConversion(c, a);
  }

  lemma OneEscape(x: char)
    requires !Takes(x)
    ensures Complete(['%', x], []) && Full(['%', x], []) == [x]
  {
    var f := ['%', x];
    assert f[2..] == "";
  }
}
