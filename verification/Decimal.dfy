// printf("%d") of os/src/kernel_print.cpp, with its output as a character sequence, and
// atol of os/src/string.cpp. Signed arithmetic wraps as on the target; C leaves it undefined.
module Decimal {

  type int32 = x: int | -0x8000_0000 <= x < 0x8000_0000
  type int64 = x: int | -0x8000_0000_0000_0000 <= x < 0x8000_0000_0000_0000

  const INT_MIN: int32 := -0x8000_0000

  function Wrap32(x: int): int32 {
    (x + 0x8000_0000) % 0x1_0000_0000 - 0x8000_0000
  }

  function Wrap64(x: int): int64 {
    (x + 0x8000_0000_0000_0000) % 0x1_0000_0000_0000_0000 - 0x8000_0000_0000_0000
  }

  // C division and remainder truncate toward zero.
  function TruncDiv10(x: int): int {
    if x >= 0 then x / 10 else -((-x) / 10)
  }

  function TruncMod10(x: int): (r: int)
    ensures -10 < r < 10
  {
    if x >= 0 then x % 10 else -((-x) % 10)
  }

  // The character r places after the character 0.
  function DigitChar(r: int): char
    requires -10 < r < 10
  {
    (48 + r) as char
  }

  // The decimal digits of n, most significant first, without leading zeros.
  function Digits(n: nat): string {
    if n < 10 then [DigitChar(n)] else Digits(n / 10) + [DigitChar(n % 10)]
  }

  // What printf("%d", num) emits. Negating the most negative int gives it back, and its
  // last digit is then computed as -8.
  function Rendering(num: int32): string {
    if num == INT_MIN then ['-', '(']
    else if num < 0 then ['-'] + Digits(-num)
    else Digits(num)
  }

  function Reversed(s: string): (r: string)
    ensures |r| == |s|
  {
    if s == [] then [] else Reversed(s[1..]) + [s[0]]
  }

  lemma {:induction false} ReversedAppend(s: string, c: char)
    ensures Reversed(s + [c]) == [c] + Reversed(s)
  {
    if s == [] {
      assert s + [c] == [c];
    } else {
      ReversedAppend(s[1..], c);
      assert (s + [c])[1..] == s[1..] + [c];
    }
  }

  function Pow10(n: nat): (p: nat)
    ensures p >= 1
  {
    if n == 0 then 1 else 10 * Pow10(n - 1)
  }

  // The sign and the absolute value that the conversion continues with.
  lemma SignAndDigits(arg: int32)
    ensures var num := if arg < 0 then Wrap32(-(arg as int)) else arg;
            Rendering(arg) == (if arg < 0 then ['-'] else [])
                              + (if num < 0 then [DigitChar(TruncMod10(num))] else Digits(num))
  {
    hide Digits;
    if arg == INT_MIN { assert 0x8000_0000 % 10 == 8; }
  }

  // The text by cases, and the digits in base ten with no leading zero.
  lemma RenderingCases(n: int32)
    ensures n >= 0 ==> Rendering(n) == Digits(n)
    ensures -0x8000_0000 < n < 0 ==> Rendering(n) == ['-'] + Digits(-n)
    ensures n == -0x8000_0000 ==> Rendering(n) == ['-', '(']
  {
  }

  // The %d case of printf; used is the number of buffer slots that are written.
  method PrintD(arg: int32) returns (out: string, ghost used: nat)
    ensures out == Rendering(arg)
    ensures arg >= 0 ==> out == Digits(arg)
    ensures -0x8000_0000 < arg < 0 ==> out == ['-'] + Digits(-arg)
    ensures arg == -0x8000_0000 ==> out == ['-', '(']
    ensures used <= 10
  {
    SignAndDigits(arg);
    hide Digits, Rendering, Wrap32, TruncMod10, DigitChar;
    var num := arg;
    out := [];
    if num < 0 {
      out := out + ['-'];
      num := Wrap32(-(num as int));
    }
    ghost var sign := out;
    var buffer, i := FillBuffer(num);
    used := i;
    ghost var filled := buffer[..used];
    assert sign + Reversed(filled) == Rendering(arg);
    hide Reversed;
    while i > 0
      invariant 0 <= i <= used && buffer[..used] == filled
      invariant out + Reversed(buffer[..i]) == sign + Reversed(filled)
    {
      i := i - 1;
      ReversedAppend(buffer[..i], buffer[i]);
      assert buffer[..i + 1] == buffer[..i] + [buffer[i]];
      out := out + [buffer[i]];
    }
    assert buffer[..0] == [];
    RenderingCases(arg);
  }

  lemma DigitsStep(n: nat)
    ensures Digits(n) == (if n / 10 > 0 then Digits(n / 10) else []) + [DigitChar(n % 10)]
    ensures Digits(n) == (if n / 10 > 0 then Digits(n / 10) else []) + [(48 + n % 10) as char]
  {
  }

  lemma Pow10Step(x: nat, n: nat)
    requires n > 0 && x < Pow10(n)
    ensures x / 10 < Pow10(n - 1)
  {
  }

  // One more digit in the buffer.
  lemma NextDigit(n: nat, written: string, k: nat)
    requires k > 0 && n < Pow10(k)
    ensures var c := DigitChar(TruncMod10(n));
      && TruncDiv10(n) < Pow10(k - 1)
      && Reversed(written + [c]) == [c] + Reversed(written)
      && Digits(n) + Reversed(written)
         == (if TruncDiv10(n) > 0 then Digits(TruncDiv10(n)) else []) + Reversed(written + [c])
  {
    DigitsStep(n);
    Pow10Step(n, k);
    hide Digits, Pow10;
    ReversedAppend(written, DigitChar(TruncMod10(n)));
  }

  // The digit loop of printf, which runs at least once and writes the lowest digit first.
  // A negative num, which is what negating the most negative int leaves, stops after one step.
  method FillBuffer(arg: int32) returns (buffer: array<char>, i: nat)
    ensures fresh(buffer) && buffer.Length == 12 && 0 < i <= 10
    ensures Reversed(buffer[..i]) == if arg < 0 then [DigitChar(TruncMod10(arg))] else Digits(arg)
  {
    FirstDigit(arg);
    hide Digits, Reversed, Pow10, TruncDiv10, TruncMod10, DigitChar;
    buffer := new char[12];
    var num: int := arg;
    buffer[0] := DigitChar(TruncMod10(num));
    assert buffer[..1] == [buffer[0]];
    i := 1;
    num := TruncDiv10(num);
    while num > 0
      invariant 0 < i <= 10
      invariant num > 0 ==> arg >= 0 && num < Pow10(10 - i)
      invariant arg < 0 ==> Reversed(buffer[..i]) == [DigitChar(TruncMod10(arg))]
      invariant arg >= 0 ==> Digits(arg) == (if num > 0 then Digits(num) else []) + Reversed(buffer[..i])
    {
      if i == 10 { Pow10Zero(); }
      ghost var before := buffer[..i];
      NextDigit(num, before, 10 - i);
      DivDecreases(num);
      buffer[i] := DigitChar(TruncMod10(num));
      assert buffer[..i + 1] == before + [buffer[i]];
      i := i + 1;
      num := TruncDiv10(num);
    }
  }

  lemma FirstDigit(arg: int32)
    ensures var c := DigitChar(TruncMod10(arg));
      && Reversed([c]) == [c]
      && (arg < 0 ==> TruncDiv10(arg) <= 0)
      && (arg >= 0 ==> TruncDiv10(arg) < Pow10(9)
                       && Digits(arg) == (if TruncDiv10(arg) > 0 then Digits(TruncDiv10(arg)) else []) + [c])
  {
    if arg >= 0 {
      assert Pow10(10) == 10_000_000_000;
      Pow10Step(arg, 10);
      DigitsStep(arg);
    }
  }

  lemma DivDecreases(n: int)
    requires n > 0
    ensures 0 <= TruncDiv10(n) < n
  {
  }

  lemma Pow10Zero()
    ensures Pow10(0) == 1
  {
  }

  // --- atol ---

  // The digit loop: each character shifts the result by one decimal place and adds its
  // distance from the character 0, and both operations wrap.
  function Accumulate(res: int64, s: string): int64
    decreases s
  {
    if s == [] then res
    else Accumulate(Wrap64(Wrap64(res * 10) + (s[0] as int - 48)), s[1..])
  }

  function SkipSpaces(s: string): string {
    if s != [] && s[0] == ' ' then SkipSpaces(s[1..]) else s
  }

  // What atol computes for the characters before the terminating NUL.
  function Parse(str: string): int64 {
    var s := SkipSpaces(str);
    if s != [] && s[0] == '-' then Wrap64(-(Accumulate(0, s[1..]) as int))
    else if s != [] && s[0] == '+' then Accumulate(0, s[1..])
    else Accumulate(0, s)
  }

  const NUL: char := 0 as char

  // mem is the memory from str on; its first NUL is at position n.
  method Atol(mem: seq<char>, ghost n: nat) returns (result: int64)
    requires n < |mem| && mem[n] == NUL && NUL !in mem[..n]
    ensures result == Parse(mem[..n])
    ensures forall k: nat, v: nat :: v < 0x8000_0000_0000_0000 ==>
      && (mem[..n] == Spaces(k) + Digits(v) ==> result == v)
      && (mem[..n] == Spaces(k) + ['+'] + Digits(v) ==> result == v)
      && (mem[..n] == Spaces(k) + ['-'] + Digits(v) ==> result == -(v as int))
  {
    hide Digits, Spaces;
    var str := 0;
    var res: int64 := 0;
    var sign := false;
    while mem[str] == ' '
      invariant 0 <= str <= n
      invariant SkipSpaces(mem[..n]) == SkipSpaces(mem[str..n])
      decreases n - str
    {
      assert mem[str..n][1..] == mem[str + 1..n];
      str := str + 1;
    }
    assert SkipSpaces(mem[..n]) == mem[str..n];
    if mem[str] == '-' || mem[str] == '+' {
      sign := mem[str] == '-';
      assert mem[str..n][1..] == mem[str + 1..n];
      str := str + 1;
    }
    ghost var digits := mem[str..n];
    while mem[str] != NUL
      invariant 0 <= str <= n
      invariant Accumulate(0, digits) == Accumulate(res, mem[str..n])
      decreases n - str
    {
      assert mem[str..n][1..] == mem[str + 1..n];
      res := Wrap64(res * 10);
      res := Wrap64(res + (mem[str] as int - 48));
      str := str + 1;
    }
    assert str == n;
    result := if sign then Wrap64(-(res as int)) else res;
    assert result == Parse(mem[..n]);
    hide Parse;
    ParseNumbers(mem[..n]);
  }

  // --- What the parser means ---

  function Spaces(k: nat): (r: string)
    ensures |r| == k && forall i :: 0 <= i < k ==> r[i] == ' '
  {
    seq(k, i => ' ')
  }

  // The value of a text as a decimal numeral, each character standing for its distance from
  // the character 0.
  function Value(s: string): int {
    if s == [] then 0 else Value(s[..|s| - 1]) * 10 + (s[|s| - 1] as int - 48)
  }

  lemma WrapShift(x: int, k: int)
    ensures Wrap64(x + k * 0x1_0000_0000_0000_0000) == Wrap64(x)
  {
  }

  lemma WrapDigit(v: int, d: int)
    ensures Wrap64(Wrap64(Wrap64(v) * 10) + d) == Wrap64(v * 10 + d)
  {
    var k := (v + 0x8000_0000_0000_0000) / 0x1_0000_0000_0000_0000;
    assert Wrap64(v) == v - k * 0x1_0000_0000_0000_0000;
    var x := Wrap64(v) * 10;
    var l := (x + 0x8000_0000_0000_0000) / 0x1_0000_0000_0000_0000;
    assert Wrap64(x) == x - l * 0x1_0000_0000_0000_0000;
    assert Wrap64(x) + d == v * 10 + d + (-10 * k - l) * 0x1_0000_0000_0000_0000;
    WrapShift(v * 10 + d, -10 * k - l);
  }

  // Wrapping at every step is wrapping the value once.
  lemma {:induction false} AccumulateWraps(s: string)
    ensures Accumulate(0, s) == Wrap64(Value(s))
  {
    if s == [] {
      assert Value(s) == 0;
    } else {
      var n := |s| - 1;
      assert s == s[..n] + [s[n]];
      AccumulateWraps(s[..n]);
      AccumulateAppend(0, s[..n], s[n]);
      hide Accumulate, Wrap64;
      WrapDigit(Value(s[..n]), s[n] as int - 48);
    }
  }

  lemma {:induction false} SkipsSpaces(k: nat, s: string)
    requires s == [] || s[0] != ' '
    ensures SkipSpaces(Spaces(k) + s) == s
  {
    if k == 0 {
      assert Spaces(0) + s == s;
    } else {
      SkipsSpaces(k - 1, s);
      assert (Spaces(k) + s)[1..] == Spaces(k - 1) + s;
    }
  }

  lemma ParsePlain(t: string, s: string)
    requires SkipSpaces(t) == s && (s == [] || s[0] !in {' ', '+', '-'})
    ensures Parse(t) == Accumulate(0, s)
  {
  }

  lemma ParseSign(t: string, c: char, s: string)
    requires SkipSpaces(t) == [c] + s
    ensures c == '+' ==> Parse(t) == Accumulate(0, s)
    ensures c == '-' ==> Parse(t) == Wrap64(-(Accumulate(0, s) as int))
  {
    assert ([c] + s)[1..] == s;
    hide Accumulate, SkipSpaces, Wrap64;
  }

  // Spaces are skipped, one sign is read, and the rest has its value modulo 2^64.
  lemma ParseSigned(k: nat, c: char, s: string)
    requires c in {'+', '-'}
    ensures c == '+' ==> Parse(Spaces(k) + [c] + s) == Wrap64(Value(s))
    ensures c == '-' ==> Parse(Spaces(k) + [c] + s) == Wrap64(-Value(s))
  {
    var t := Spaces(k) + [c] + s;
    assert t == Spaces(k) + ([c] + s);
    SkipsSpaces(k, [c] + s);
    hide Spaces, SkipSpaces, Accumulate, Value, Parse, Wrap64;
    ParseSign(t, c, s);
    AccumulateWraps(s);
    WrapNegated(Value(s));
  }

  lemma ParseUnsigned(k: nat, s: string)
    requires s == [] || s[0] !in {' ', '+', '-'}
    ensures Parse(Spaces(k) + s) == Wrap64(Value(s))
  {
    hide Spaces, SkipSpaces, Accumulate, Value, Parse, Wrap64;
    SkipsSpaces(k, s);
    ParsePlain(Spaces(k) + s, s);
    AccumulateWraps(s);
  }

  lemma WrapNegated(v: int)
    ensures Wrap64(-(Wrap64(v) as int)) == Wrap64(-v)
  {
    var k := (v + 0x8000_0000_0000_0000) / 0x1_0000_0000_0000_0000;
    assert Wrap64(v) == v - k * 0x1_0000_0000_0000_0000;
    WrapShift(-v, k);
  }

  lemma {:induction false} DigitsValue(v: nat)
    ensures Value(Digits(v)) == v
    ensures Digits(v) != [] && Digits(v)[0] !in {' ', '+', '-'}
  {
    DigitsStep(v);
    if v < 10 {
      assert Digits(v)[..0] == [];
    } else {
      DigitsValue(v / 10);
      assert Digits(v)[..|Digits(v)| - 1] == Digits(v / 10);
    }
  }

  lemma ParseNumber(k: nat, v: nat)
    requires v < 0x8000_0000_0000_0000
    ensures Parse(Spaces(k) + Digits(v)) == v
    ensures Parse(Spaces(k) + ['+'] + Digits(v)) == v
    ensures Parse(Spaces(k) + ['-'] + Digits(v)) == -(v as int)
  {
    hide Parse, Digits, Value, Spaces;
    DigitsValue(v);
    ParseUnsigned(k, Digits(v));
    ParseSigned(k, '+', Digits(v));
    ParseSigned(k, '-', Digits(v));
  }

  lemma ParseNumbers(t: string)
    ensures forall k: nat, v: nat :: v < 0x8000_0000_0000_0000 ==>
      && (t == Spaces(k) + Digits(v) ==> Parse(t) == v)
      && (t == Spaces(k) + ['+'] + Digits(v) ==> Parse(t) == v)
      && (t == Spaces(k) + ['-'] + Digits(v) ==> Parse(t) == -(v as int))
  {
    hide Parse, Digits, Spaces;
    forall k: nat, v: nat | v < 0x8000_0000_0000_0000
      ensures (t == Spaces(k) + Digits(v) ==> Parse(t) == v)
      ensures (t == Spaces(k) + ['+'] + Digits(v) ==> Parse(t) == v)
      ensures (t == Spaces(k) + ['-'] + Digits(v) ==> Parse(t) == -(v as int))
    {
      ParseNumber(k, v);
    }
  }

  // --- The round trip ---

  lemma {:induction false} AccumulateAppend(res: int64, s: string, c: char)
    ensures Accumulate(res, s + [c]) == Wrap64(Wrap64(Accumulate(res, s) * 10) + (c as int - 48))
    decreases s
  {
    if s == [] {
      assert (s + [c])[1..] == [];
    } else {
      AccumulateAppend(Wrap64(Wrap64(res * 10) + (s[0] as int - 48)), s[1..], c);
      assert (s + [c])[1..] == s[1..] + [c];
    }
  }

  lemma LastDigit(n: nat)
    requires n < 0x8000_0000_0000_0000
    ensures Wrap64(Wrap64(n / 10 * 10) + (DigitChar(n % 10) as int - 48)) == n
  {
    assert n == n / 10 * 10 + n % 10;
  }

  // The digits of n have value n, as far as a long can hold it.
  lemma {:induction false} AccumulateDigits(n: nat)
    requires n < 0x8000_0000_0000_0000
    ensures Accumulate(0, Digits(n)) == n
  {
    if n < 10 {
      assert Digits(n)[1..] == [];
    } else {
      AccumulateDigits(n / 10);
      AccumulateAppend(0, Digits(n / 10), DigitChar(n % 10));
      hide Accumulate, Wrap64;
      LastDigit(n);
    }
  }

  // No leading zero, digits only, and at most k of them below 10^k.
  lemma {:induction false} DigitsShape(n: nat, k: nat)
    requires 0 < k && n < Pow10(k)
    ensures 1 <= |Digits(n)| <= k
    ensures n > 0 ==> Digits(n)[0] != '0'
    ensures forall i :: 0 <= i < |Digits(n)| ==> '0' <= Digits(n)[i] <= '9'
  {
    if n >= 10 {
      Pow10Step(n, k);
      if k == 1 { Pow10Zero(); }
      DigitsShape(n / 10, k - 1);
    }
  }

  // atol reads back what printf("%d") wrote, for every int except the most negative one.
  lemma RoundTrip(n: int32)
    ensures Parse(Rendering(n)) == n <==> n != INT_MIN
  {
    if n == INT_MIN {
      MinIsMisread();
    } else {
      var d: nat := if n < 0 then -(n as int) else n;
      assert Pow10(10) == 10_000_000_000;
      DigitsShape(d, 10);
      AccumulateDigits(d);
      hide Accumulate, Digits, Pow10, Parse;
      ParseDigits(Digits(d), d);
    }
  }

  // Reading a digit string of value d, with or without a minus sign in front.
  lemma ParseDigits(s: string, d: int)
    requires s != [] && '0' <= s[0] <= '9' && 0 <= d <= 0x8000_0000 && Accumulate(0, s) == d
    ensures Parse(s) == d && Parse(['-'] + s) == -d
  {
    hide Accumulate;
    assert (['-'] + s)[1..] == s;
    assert Wrap64(-d) == -d;
  }

  lemma MinIsMisread()
    ensures Parse(Rendering(INT_MIN)) == 8
  {
    var s: string := ['-', '('];
    assert s[1..] == ['('];
    assert Accumulate(0, ['(']) == Accumulate(-8, []);
  }
}
