/**
  * The kernel's formatter: integers to text, and bounded printf-style output
  * into a caller's buffer.
  */
module Formatter {
  import opened Values

  // ---- digits ----

  const INT64_MIN := -0x8000_0000_0000_0000
  const INT64_MAX := 0x7FFF_FFFF_FFFF_FFFF
  const TWO64 := 0x1_0000_0000_0000_0000
  const TWO32 := 0x1_0000_0000

  function DigitChar(d: int, ten: char): char
    requires 0 <= d < 36 && (ten == 'a' || ten == 'A')
  {
    if d > 9 then (d - 10 + ten as int) as char else (d + '0' as int) as char
  }

  function Quot(v: nat, base: nat): (q: nat)
    requires 2 <= base
    ensures v > 0 ==> q < v
    ensures q == 0 <==> v < base
  {
    QuotLess(v, base);
    v / base
  }

  function Rem(v: nat, base: nat): (r: nat)
    requires 2 <= base
    ensures r < base
  {
    v % base
  }

  lemma QuotLess(v: nat, base: nat)
    requires 2 <= base
    ensures 0 <= v / base && (v > 0 ==> v / base < v) && (v / base == 0 <==> v < base)
  {
    var q, r := v / base, v % base;
    assert v == q * base + r;
    MulMono(q, 2, base);
    if q > 0 { MulMono(base, 1, q); }
  }

  lemma QuotRem(v: nat, base: nat)
    requires 2 <= base
    ensures Quot(v, base) * base + Rem(v, base) == v && (v < base ==> Rem(v, base) == v)
  {
    QuotLess(v, base);
    if v < base { assert v / base == 0 && 0 * base == 0; }
  }

  /** The digits of v, most significant first. */
  function Digits(v: nat, base: nat, ten: char): (s: string)
    requires 2 <= base <= 36 && (ten == 'a' || ten == 'A')
    ensures s != []
    decreases v
  {
    if v < base then [DigitChar(v, ten)] else Digits(Quot(v, base), base, ten) + [DigitChar(Rem(v, base), ten)]
  }

  /** The digits of v, least significant first; none for 0. */
  function LowDigits(v: nat, base: nat, ten: char): string
    requires 2 <= base <= 36 && (ten == 'a' || ten == 'A')
    decreases v
  {
    if v == 0 then [] else [DigitChar(Rem(v, base), ten)] + LowDigits(Quot(v, base), base, ten)
  }

  function Rev(s: string): (r: string)
    ensures |r| == |s|
  {
    seq(|s|, k requires 0 <= k < |s| => s[|s| - 1 - k])
  }

  lemma RevSnoc(s: string, c: char)
    ensures Rev(s + [c]) == [c] + Rev(s) && Rev([c] + s) == Rev(s) + [c]
  {}

  lemma {:induction false} RevLowDigits(v: nat, base: nat, ten: char)
    requires 2 <= base <= 36 && (ten == 'a' || ten == 'A') && v > 0
    ensures Rev(LowDigits(v, base, ten)) == Digits(v, base, ten)
    decreases v
  {
    hide Quot, Rem, DigitChar;
    RevSnoc(LowDigits(Quot(v, base), base, ten), DigitChar(Rem(v, base), ten));
    QuotRem(v, base);
    if v < base {
      assert Rev([]) == [];
    } else {
      RevLowDigits(Quot(v, base), base, ten);
    }
  }

  /** The two's-complement bits of num. */
  function Bits64(num: int): nat
    requires INT64_MIN <= num <= INT64_MAX
  {
    if num < 0 then num + TWO64 else num
  }

  /** What itoa writes: only base 10 knows a sign. */
  function ItoaText(num: int, base: nat): string
    requires INT64_MIN <= num <= INT64_MAX && 2 <= base <= 36
  {
    if num < 0 && base == 10 then "-" + Digits(-num, base, 'a') else Digits(Bits64(num), base, 'a')
  }

  // ---- what a text denotes ----

  function DigitValue(c: char): int {
    if '0' <= c <= '9' then c as int - '0' as int
    else if 'a' <= c <= 'z' then c as int - 'a' as int + 10
    else c as int - 'A' as int + 10
  }

  function Value(s: string, base: nat): int {
    if s == [] then 0 else Value(s[..|s| - 1], base) * base + DigitValue(s[|s| - 1])
  }

  /** The number a text stands for, with an optional sign. */
  function Denotes(s: string, base: nat): int {
    if s != [] && s[0] == '-' then -Value(s[1..], base) else Value(s, base)
  }

  lemma DigitRead(d: int, ten: char)
    requires 0 <= d < 36 && (ten == 'a' || ten == 'A')
    ensures DigitValue(DigitChar(d, ten)) == d && DigitChar(d, ten) != '-' && DigitChar(d, ten) != '\0'
  {}

  lemma {:induction false} DigitsValue(v: nat, base: nat, ten: char)
    requires 2 <= base <= 36 && (ten == 'a' || ten == 'A')
    ensures Value(Digits(v, base, ten), base) == v && Digits(v, base, ten)[0] != '-' && '\0' !in Digits(v, base, ten)
    decreases v
  {
    hide Quot, Rem, DigitChar, DigitValue;
    var s := Digits(v, base, ten);
    QuotRem(v, base);
    if v < base {
      DigitRead(v, ten);
      assert s[..0] == [];
    } else {
      DigitsValue(Quot(v, base), base, ten);
      DigitRead(Rem(v, base), ten);
      assert s[..|s| - 1] == Digits(Quot(v, base), base, ten);
    }
  }

  /** The base-10 text denotes the number, for every 64-bit integer including the least. */
  lemma ItoaDenotes(num: int)
    requires INT64_MIN <= num <= INT64_MAX
    ensures Denotes(ItoaText(num, 10), 10) == num
  {
    if num < 0 {
      DigitsValue(-num, 10, 'a');
      assert ItoaText(num, 10)[1..] == Digits(-num, 10, 'a');
    } else {
      DigitsValue(num, 10, 'a');
    }
  }

  /** In any other base the text denotes the number's bits. */
  lemma ItoaOtherBase(num: int, base: nat)
    requires INT64_MIN <= num <= INT64_MAX && 2 <= base <= 36 && base != 10
    ensures Denotes(ItoaText(num, base), base) == Bits64(num)
  {
    DigitsValue(Bits64(num), base, 'a');
  }

  // ---- in a buffer ----

  /** Reverses the first n characters in place. */
  method Reverse(buffer: array<char>, n: nat)
    requires n <= buffer.Length
    modifies buffer
    ensures buffer[..n] == Rev(old(buffer[..n])) && buffer[n..] == old(buffer[n..])
  {
    var start, end := 0, n - 1;
    while start < end
      invariant 0 <= start <= n && end == n - 1 - start
      invariant forall k :: 0 <= k < n ==> buffer[k] == old(buffer[..n])[if start <= k <= end then k else n - 1 - k]
      invariant buffer[n..] == old(buffer[n..])
      decreases end - start
    {
      buffer[start], buffer[end] := buffer[end], buffer[start];
      start := start + 1;
      end := end - 1;
    }
  }

  lemma LowNone(base: nat, ten: char)
    requires 2 <= base <= 36 && (ten == 'a' || ten == 'A')
    ensures LowDigits(0, base, ten) == []
  {}

  lemma LowNext(before: string, v: nat, base: nat, ten: char)
    requires 2 <= base <= 36 && (ten == 'a' || ten == 'A') && v > 0
    ensures before + LowDigits(v, base, ten)
      == before + [DigitChar(Rem(v, base), ten)] + LowDigits(Quot(v, base), base, ten)
  {
    hide Quot, Rem, DigitChar;
  }

  /** Writes the digits of v backwards from the start of the buffer. */
  method PutLowDigits(v: nat, base: nat, ten: char, buffer: array<char>) returns (n: nat)
    requires 2 <= base <= 36 && (ten == 'a' || ten == 'A') && |LowDigits(v, base, ten)| <= buffer.Length
    modifies buffer
    ensures n == |LowDigits(v, base, ten)| && buffer[..n] == LowDigits(v, base, ten) && buffer[n..] == old(buffer[n..])
  {
    hide Quot, Rem, DigitChar, LowDigits;
    n := 0;
    var value := v;
    LowNone(base, ten);
    while value != 0
      invariant n <= buffer.Length && buffer[..n] + LowDigits(value, base, ten) == LowDigits(v, base, ten)
      invariant buffer[n..] == old(buffer[n..])
      decreases value
    {
      ghost var before := buffer[..n];
      LowNext(before, value, base, ten);
      assert buffer[n..][1..] == buffer[n + 1..] == old(buffer[n..])[1..] == old(buffer[n + 1..]);
      buffer[n] := DigitChar(Rem(value, base), ten);
      ghost var now := before + [DigitChar(Rem(value, base), ten)];
      assert buffer[..n + 1] == now;
      value := Quot(value, base);
      n := n + 1;
      assert now + LowDigits(value, base, ten) == LowDigits(v, base, ten);
    }
  }

  /** Ends the text after its n backward characters and turns it round. */
  method EndText(buffer: array<char>, n: nat, ghost text: string)
    requires n < buffer.Length && Rev(buffer[..n]) == text
    modifies buffer
    ensures |text| == n && buffer[..n] == text && buffer[n] == '\0' && buffer[n + 1..] == old(buffer[n + 1..])
  {
    hide Rev;
    buffer[n] := '\0';
    assert buffer[..n] == old(buffer[..n]);
    ghost var tail := buffer[n..];
    assert tail[0] == '\0' && tail[1..] == old(buffer[n + 1..]);
    Reverse(buffer, n);
    assert buffer[n] == buffer[n..][0] && buffer[n + 1..] == buffer[n..][1..];
  }

  /** num as a NUL-terminated text at the start of the buffer; the rest of the buffer is untouched. */
  method Itoa(num: int, base: nat, buffer: array<char>)
    requires INT64_MIN <= num <= INT64_MAX && 2 <= base <= 36 && |ItoaText(num, base)| < buffer.Length
    modifies buffer
    ensures var n := |ItoaText(num, base)|;
      buffer[..n] == ItoaText(num, base) && buffer[n] == '\0' && buffer[n + 1..] == old(buffer[n + 1..])
  {
    hide Quot, Rem, Digits, LowDigits, Rev;
    if num == 0 {
      DigitsZero(base, 'a');
      buffer[0] := '0';
      buffer[1] := '\0';
    } else {
      var negative := num < 0 && base == 10;
      var value: nat := if negative then -(num + 1) + 1 else Bits64(num);
      RevLowDigits(value, base, 'a');
      ghost var low := LowDigits(value, base, 'a');
      RevSnoc(low, '-');
      var n := PutLowDigits(value, base, 'a', buffer);
      if negative {
        assert buffer[n..][1..] == buffer[n + 1..] == old(buffer[n..])[1..];
        buffer[n] := '-';
        n := n + 1;
        assert buffer[..n] == low + ['-'];
        assert buffer[n..] == old(buffer[n..]);
      }
      assert buffer[n..][1..] == buffer[n + 1..] && old(buffer[n..])[1..] == old(buffer[n + 1..]);
      EndText(buffer, n, ItoaText(num, base));
    }
  }

  lemma DigitsZero(base: nat, ten: char)
    requires 2 <= base <= 36 && (ten == 'a' || ten == 'A')
    ensures Digits(0, base, ten) == ['0']
  {}

  function HexText(num: nat): string {
    Digits(num, 16, 'A')
  }

  method ItoaHex(num: nat, buffer: array<char>)
    requires |HexText(num)| < buffer.Length
    modifies buffer
    ensures var n := |HexText(num)|;
      buffer[..n] == HexText(num) && buffer[n] == '\0' && buffer[n + 1..] == old(buffer[n + 1..])
  {
    if num == 0 {
      buffer[0] := '0';
      buffer[1] := '\0';
      assert HexText(num) == ['0'];
    } else {
      RevLowDigits(num, 16, 'A');
      var n := PutLowDigits(num, 16, 'A', buffer);
      EndText(buffer, n, HexText(num));
    }
  }

  /** The characters before the first NUL. */
  function CText(s: string): (r: string)
    ensures |r| <= |s| && '\0' !in r
  {
    if s == [] || s[0] == '\0' then [] else [s[0]] + CText(s[1..])
  }

  method Strlen(s: array<char>) returns (n: nat)
    requires '\0' in s[..]
    ensures n < s.Length && n == |CText(s[..])| && s[..n] == CText(s[..])
  {
    hide CText;
    n := 0;
    CTextStart(s[..]);
    while s[n] != '\0'
      invariant n < s.Length && s[..n] + CText(s[n..]) == CText(s[..]) && '\0' in s[n..]
      decreases s.Length - n
    {
      CTextNext(s[..], n);
      n := n + 1;
    }
    CTextEnd(s[..], n);
  }

  lemma CTextStart(s: string)
    requires s != []
    ensures s[..0] + CText(s[0..]) == CText(s) && s[0..] == s
  {
    hide CText;
    assert s[0..] == s;
  }

  lemma CTextNext(s: string, n: nat)
    requires n < |s| && s[n] != '\0' && '\0' in s[n..]
    ensures s[..n] + CText(s[n..]) == s[..n + 1] + CText(s[n + 1..])
    ensures n + 1 < |s| && '\0' in s[n + 1..]
  {
    assert s[n..][0] == s[n] && s[n..][1..] == s[n + 1..];
    assert CText(s[n..]) == [s[n]] + CText(s[n + 1..]);
    hide CText;
    assert s[..n + 1] == s[..n] + [s[n]];
  }

  lemma CTextEnd(s: string, n: nat)
    requires n < |s| && s[n] == '\0'
    ensures CText(s[n..]) == [] && s[..n] + [] == s[..n]
  {}

  // ---- text length ----

  function Ten(k: nat): nat {
    if k == 0 then 1 else 10 * Ten(k - 1)
  }

  lemma QuotTen(v: nat, base: nat, t: nat)
    requires base >= 10 && v < 10 * t
    ensures Quot(v, base) < t
  {
    hide Quot, Rem;
    QuotRem(v, base);
    MulMono(Quot(v, base), 10, base);
  }

  lemma {:induction false} DigitsShort(v: nat, base: nat, ten: char, k: nat)
    requires 10 <= base <= 36 && (ten == 'a' || ten == 'A') && k > 0 && v < Ten(k)
    ensures |Digits(v, base, ten)| <= k
    decreases k
  {
    hide Quot, Rem, DigitChar;
    if v < base {
    } else {
      assert k > 1 by { assert Ten(1) == 10 * Ten(0); }
      QuotTen(v, base, Ten(k - 1));
      DigitsShort(Quot(v, base), base, ten, k - 1);
    }
  }

  lemma Ten20()
    ensures TWO64 < Ten(20)
  {
    assert Ten(4) == 10000 by { assert Ten(2) == 10 * Ten(1) && Ten(1) == 10 * Ten(0); }
    assert Ten(8) == 1_0000_0000 by { assert Ten(6) == 10 * Ten(5) && Ten(5) == 10 * Ten(4); }
    assert Ten(12) == 1_0000_0000_0000 by { assert Ten(10) == 10 * Ten(9) && Ten(9) == 10 * Ten(8); }
    assert Ten(16) == 1_0000_0000_0000_0000 by { assert Ten(14) == 10 * Ten(13) && Ten(13) == 10 * Ten(12); }
    assert Ten(20) == 1_0000_0000_0000_0000_0000 by { assert Ten(18) == 10 * Ten(17) && Ten(17) == 10 * Ten(16); }
  }

  // ---- formats ----

  /** One variadic slot, as the number or the pointer it would be read as; a null pointer has no text. */
  datatype Arg = Arg(bits: nat, isNull: bool, text: string)

  function ArgAt(args: seq<Arg>, k: nat): Arg {
    if k < |args| then args[k] else Arg(0, true, [])
  }

  /** What stands between a percent sign and the conversion character at position at. */
  datatype Directive = Directive(pad: char, width: nat, isLong: bool, at: nat)

  function At(f: string, i: nat): char {
    if i < |f| then f[i] else '\0'
  }

  function SkipWidth(f: string, i: nat): (j: nat)
    ensures i <= j && (i <= |f| ==> j <= |f|)
    decreases |f| - i
  {
    if i < |f| && IsNum(f[i]) then SkipWidth(f, i + 1) else i
  }

  function WidthOf(f: string, i: nat, w: nat): nat
    decreases |f| - i
  {
    if i < |f| && IsNum(f[i]) then WidthOf(f, i + 1, w * 10 + (f[i] as int - '0' as int)) else w
  }

  function SkipLong(f: string, i: nat): (j: nat)
    ensures i <= j && (i <= |f| ==> j <= |f|)
  {
    if At(f, i) != 'l' then i else if At(f, i + 1) != 'l' then i + 1 else i + 2
  }

  function ParseDirective(f: string, i: nat): (d: Directive)
    ensures i <= d.at && (i <= |f| ==> d.at <= |f|)
  {
    var j := if At(f, i) == '0' then i + 1 else i;
    var k := SkipWidth(f, j);
    Directive(if j > i then '0' else ' ', WidthOf(f, j, 0), At(f, k) == 'l', SkipLong(f, k))
  }

  predicate IsNumber(c: char) { c == 'u' || c == 'd' || c == 'x' || c == 'X' || c == 'p' }

  /** The 64-bit value read for a numeric conversion: without a long modifier the upper half is cleared. */
  function NumberRead(c: char, isLong: bool, bits: nat): nat {
    if c == 'p' || isLong then bits % TWO64 else bits % TWO32
  }

  function Signed64(v: nat): (r: int)
    requires v < TWO64
    ensures INT64_MIN <= r <= INT64_MAX
  {
    if v > INT64_MAX then v - TWO64 else v
  }

  function NumberText(c: char, isLong: bool, bits: nat): string {
    var v := NumberRead(c, isLong, bits);
    if c == 'p' || c == 'x' || c == 'X' then HexText(v) else ItoaText(Signed64(v), 10)
  }

  function Repeat(c: char, n: int): string {
    if n <= 0 then [] else seq(n, _ => c)
  }

  function Padded(s: string, pad: char, width: nat): string {
    Repeat(pad, width - |s|) + s
  }

  function CharOf(bits: nat): char {
    (bits % 256) as char
  }

  /** The text of one conversion, and whether it takes an argument. */
  function Converted(c: char, d: Directive, a: Arg): string {
    if IsNumber(c) then Padded(NumberText(c, d.isLong, a.bits), d.pad, d.width)
    else if c == 's' then if a.isNull then "(null)" else CText(a.text)
    else if c == 'c' then [CharOf(a.bits)]
    else if c == '%' then ['%']
    else []
  }

  predicate TakesArg(c: char) {
    IsNumber(c) || c == 's' || c == 'c'
  }

  /** The whole output from position i of the format and argument k on. */
  function Render(f: string, i: nat, args: seq<Arg>, k: nat): string
    decreases |f| - i
  {
    if i >= |f| || f[i] == '\0' then []
    else if f[i] != '%' then [f[i]] + Render(f, i + 1, args, k)
    else
      var d := ParseDirective(f, i + 1);
      var c := At(f, d.at);
      Converted(c, d, ArgAt(args, k))
        + Render(f, if c == '\0' then d.at else d.at + 1, args, if TakesArg(c) then k + 1 else k)
  }

  // ---- bounded output ----

  /** n characters written so far are the start of the whole output; until the limit, the rest is still to come. */
  ghost predicate SoFar(whole: string, out: string, rest: string, max: nat) {
    |out| <= max && (if |out| < max then whole == out + rest else out <= whole)
  }

  /** Copies as much of the text as fits. */
  method PutText(buffer: array<char>, at: nat, max: nat, text: string) returns (n: nat)
    requires at <= max && Min(max, at + |text|) <= buffer.Length
    modifies buffer
    ensures n == Min(max, at + |text|) && buffer[..n] == old(buffer[..at]) + text[..n - at]
      && buffer[n..] == old(buffer[n..])
  {
    n := at;
    while n < max && n - at < |text|
      invariant at <= n <= Min(max, at + |text|) && buffer[..n] == old(buffer[..at]) + text[..n - at]
        && buffer[n..] == old(buffer[n..])
    {
      ghost var before := buffer[..n];
      assert buffer[n..][1..] == buffer[n + 1..] == old(buffer[n..])[1..] == old(buffer[n + 1..]);
      buffer[n] := text[n - at];
      assert buffer[..n + 1] == before + [text[n - at]];
      n := n + 1;
    }
  }

  lemma SoFarPut(whole: string, out: string, text: string, rest: string, max: nat, out': string)
    requires SoFar(whole, out, text + rest, max) && |out| < max
    requires |out'| == Min(max, |out| + |text|) && out' == out + text[..|out'| - |out|]
    ensures SoFar(whole, out', rest, max)
  {
    assert out + (text + rest) == (out + text) + rest;
    if |out'| < max { assert text[..|text|] == text; } else { assert out' <= out + text; }
  }

  /** Reads the flags, width and length modifier that start at i. */
  method ReadDirective(f: string, i: nat) returns (d: Directive)
    ensures d == ParseDirective(f, i)
  {
    var pad, j := ' ', i;
    if At(f, j) == '0' {
      pad := '0';
      j := j + 1;
    }
    var start := j;
    var width: nat := 0;
    while j < |f| && IsNum(f[j])
      invariant start <= j && SkipWidth(f, start) == SkipWidth(f, j) && WidthOf(f, start, 0) == WidthOf(f, j, width)
      decreases |f| - j
    {
      width := width * 10 + (f[j] as int - '0' as int);
      j := j + 1;
    }
    var isLong := At(f, j) == 'l';
    d := Directive(pad, width, isLong, SkipLong(f, j));
  }

  lemma NumberTextShort(c: char, isLong: bool, bits: nat)
    ensures |NumberText(c, isLong, bits)| < 63 && '\0' !in NumberText(c, isLong, bits)
  {
    hide Digits, Ten, Quot, Rem;
    Ten20();
    var v := NumberRead(c, isLong, bits);
    if c == 'p' || c == 'x' || c == 'X' {
      DigitsShort(v, 16, 'A', 20);
      DigitsValue(v, 16, 'A');
    } else {
      var n := Signed64(v);
      var m := if n < 0 then -n else n;
      DigitsShort(m, 10, 'a', 20);
      DigitsValue(m, 10, 'a');
      if n < 0 { assert ItoaText(n, 10) == ['-'] + Digits(m, 10, 'a'); }
    }
  }

  lemma {:induction false} CTextIs(s: string, n: nat)
    requires n < |s| && s[n] == '\0' && '\0' !in s[..n]
    ensures CText(s) == s[..n]
    decreases n
  {
    if n == 0 {
    } else {
      assert s[..n][0] == s[0] && s[..n][1..] == s[1..][..n - 1];
      CTextIs(s[1..], n - 1);
    }
  }

  /** A padded number, as far as it fits. */
  method PutNumber(buffer: array<char>, at: nat, max: nat, c: char, d: Directive, bits: nat) returns (n: nat)
    requires IsNumber(c) && at <= max
      && Min(max, at + |Padded(NumberText(c, d.isLong, bits), d.pad, d.width)|) <= buffer.Length
    modifies buffer
    ensures var text := Padded(NumberText(c, d.isLong, bits), d.pad, d.width);
      n == Min(max, at + |text|) && buffer[..n] == old(buffer[..at]) + text[..n - at] && buffer[n..] == old(buffer[n..])
  {
    hide CText, ItoaText, HexText, Rev, Repeat;
    var temp := new char[64];
    var v := NumberRead(c, d.isLong, bits);
    ghost var t := NumberText(c, d.isLong, bits);
    NumberTextShort(c, d.isLong, bits);
    if c == 'p' || c == 'x' || c == 'X' {
      ItoaHex(v, temp);
    } else {
      Itoa(Signed64(v), 10, temp);
    }
    assert temp[..][..|t|] == temp[..|t|] == t && temp[..][|t|] == '\0';
    CTextIs(temp[..], |t|);
    var len := Strlen(temp);
    RepeatSize(d.pad, d.width - len);
    ghost var pad := Repeat(d.pad, d.width - len);
    n := PutText(buffer, at, max, Repeat(d.pad, d.width - len));
    ghost var mid := n;
    assert buffer[..mid] == old(buffer[..at]) + pad[..mid - at];
    n := PutText(buffer, n, max, temp[..len]);
    TwoPuts(old(buffer[..at]), pad, t, at, mid, n, max, buffer[..n]);
    assert old(buffer[mid..])[n - mid..] == old(buffer[n..]);
  }

  lemma RepeatSize(c: char, n: int)
    ensures |Repeat(c, n)| == if n <= 0 then 0 else n
  {}

  lemma TwoPuts(before: string, x: string, y: string, at: nat, mid: nat, n: nat, max: nat, out: string)
    requires |before| == at <= max && mid == Min(max, at + |x|) && n == Min(max, mid + |y|)
    requires out == (before + x[..mid - at]) + y[..n - mid]
    ensures n == Min(max, at + |x + y|) && out == before + (x + y)[..n - at]
  {
    if mid == at + |x| { assert (x + y)[..n - at] == x + y[..n - mid]; }
    else { assert (x + y)[..n - at] == x[..n - at]; }
  }

  /** One conversion, as far as it fits; there is room for at least one character. */
  method PutConverted(buffer: array<char>, at: nat, max: nat, c: char, d: Directive, a: Arg) returns (n: nat)
    requires at < max && Min(max, at + |Converted(c, d, a)|) <= buffer.Length
    modifies buffer
    ensures var text := Converted(c, d, a);
      n == Min(max, at + |text|) && buffer[..n] == old(buffer[..at]) + text[..n - at] && buffer[n..] == old(buffer[n..])
  {
    hide CText, NumberText, Padded;
    n := at;
    if IsNumber(c) {
      n := PutNumber(buffer, at, max, c, d, a.bits);
    } else if c == 's' {
      n := PutText(buffer, at, max, if a.isNull then "(null)" else CText(a.text));
    } else if c == 'c' || c == '%' {
      n := PutText(buffer, at, max, [if c == 'c' then CharOf(a.bits) else '%']);
    }
  }

  /** Formats into at most size bytes, the last one a NUL; the text is the start of the whole output. */
  method Vsnprintf(buffer: array<char>, size: nat, f: string, args: seq<Arg>) returns (n: nat)
    requires size <= buffer.Length || |Render(f, 0, args, 0)| < buffer.Length
    modifies buffer
    ensures size == 0 ==> n == 0 && buffer[..] == old(buffer[..])
    ensures size > 0 ==> n == Min(size - 1, |Render(f, 0, args, 0)|) < buffer.Length
    ensures size > 0 ==>
      buffer[..n] == Render(f, 0, args, 0)[..n] && buffer[n] == '\0' && buffer[n + 1..] == old(buffer[n + 1..])
  {
    hide Render, SoFar;
    n := 0;
    if size > 0 {
      ghost var whole := Render(f, 0, args, 0);
      var max := size - 1;
      var i, k := 0, 0;
      SoFarNone(whole, max);
      while n < max && i < |f| && f[i] != '\0'
        invariant n < buffer.Length && n <= max && i <= |f|
        invariant SoFar(whole, buffer[..n], Render(f, i, args, k), max)
        invariant buffer[n..] == old(buffer[n..])
        decreases |f| - i
      {
        n, i, k := PutNext(buffer, n, size, f, i, args, k, whole, old(buffer[..]));
      }
      if n < max { RenderEnd(f, i, args, k); }
      SoFarAll(whole, buffer[..n], Render(f, i, args, k), max);
      assert buffer[n..][1..] == buffer[n + 1..] == old(buffer[n..])[1..] == old(buffer[n + 1..]);
      ghost var out := buffer[..n];
      buffer[n] := '\0';
      assert buffer[..n] == out;
    }
  }

  /** One turn of the main loop: an ordinary character or a directive. */
  method PutNext(buffer: array<char>, at: nat, size: nat, f: string, i: nat, args: seq<Arg>, k: nat,
      ghost whole: string, ghost before: string)
      returns (n: nat, i': nat, k': nat)
    requires at < size - 1 && at < buffer.Length == |before| && (size <= buffer.Length || |whole| < buffer.Length)
    requires i < |f| && f[i] != '\0' && SoFar(whole, buffer[..at], Render(f, i, args, k), size - 1)
    requires buffer[at..] == before[at..]
    modifies buffer
    ensures n < buffer.Length && n <= size - 1 && i < i' <= |f| && buffer[n..] == before[n..]
    ensures SoFar(whole, buffer[..n], Render(f, i', args, k'), size - 1)
  {
    hide ParseDirective, Converted, Render, SoFar;
    var max := size - 1;
    ghost var out := buffer[..at];
    ghost var text;
    if f[i] != '%' {
      text, i', k' := [f[i]], i + 1, k;
      RenderPlain(f, i, args, k);
      RoomFor(whole, out, text, Render(f, i', args, k'), max, buffer.Length, size);
      n := PutText(buffer, at, max, [f[i]]);
    } else {
      var d := ReadDirective(f, i + 1);
      var c := At(f, d.at);
      text := Converted(c, d, ArgAt(args, k));
      i', k' := if c == '\0' then d.at else d.at + 1, if TakesArg(c) then k + 1 else k;
      RenderDirective(f, i, args, k);
      RoomFor(whole, out, text, Render(f, i', args, k'), max, buffer.Length, size);
      n := PutConverted(buffer, at, max, c, d, ArgAt(args, k));
    }
    SoFarPut(whole, out, text, Render(f, i', args, k'), max, buffer[..n]);
    TailLater(before[at..], at, n, before);
    TailLater(old(buffer[at..]), at, n, old(buffer[..]));
  }

  lemma RenderPlain(f: string, i: nat, args: seq<Arg>, k: nat)
    requires i < |f| && f[i] != '\0' && f[i] != '%'
    ensures Render(f, i, args, k) == [f[i]] + Render(f, i + 1, args, k)
  {}

  lemma RenderDirective(f: string, i: nat, args: seq<Arg>, k: nat)
    requires i < |f| && f[i] == '%'
    ensures var d := ParseDirective(f, i + 1);
      var c := At(f, d.at);
      i < d.at <= |f| && (c != '\0' ==> d.at < |f|)
      && Render(f, i, args, k) == Converted(c, d, ArgAt(args, k))
        + Render(f, if c == '\0' then d.at else d.at + 1, args, if TakesArg(c) then k + 1 else k)
  {
    hide Converted;
  }

  lemma RenderEnd(f: string, i: nat, args: seq<Arg>, k: nat)
    requires i >= |f| || f[i] == '\0'
    ensures Render(f, i, args, k) == []
  {}

  lemma SoFarNone(whole: string, max: nat)
    ensures SoFar(whole, [], whole, max)
  {
    assert [] + whole == whole;
  }

  lemma SoFarAll(whole: string, out: string, rest: string, max: nat)
    requires SoFar(whole, out, rest, max) && (|out| < max ==> rest == [])
    ensures |out| == Min(max, |whole|) && out == whole[..|out|]
  {}

  lemma TailLater(tail: string, n: nat, n': nat, all: string)
    requires n <= n' <= |all| && tail == all[n..]
    ensures tail[n' - n..] == all[n'..]
  {}

  lemma RoomFor(whole: string, out: string, text: string, rest: string, max: nat, length: nat, size: nat)
    requires SoFar(whole, out, text + rest, max) && |out| < max && size == max + 1
      && (size <= length || |whole| < length)
    ensures Min(max, |out| + |text|) < length
  {
    assert |out + (text + rest)| == |out| + |text| + |rest|;
  }

  /** With no limit given the whole output is written. */
  method Vsprintf(buffer: array<char>, f: string, args: seq<Arg>) returns (n: nat)
    requires |Render(f, 0, args, 0)| < buffer.Length && |Render(f, 0, args, 0)| < TWO64 - 1
    modifies buffer
    ensures n == |Render(f, 0, args, 0)| && buffer[..n] == Render(f, 0, args, 0) && buffer[n] == '\0'
  {
    hide Render;
    n := Vsnprintf(buffer, TWO64 - 1, f, args);
    assert Render(f, 0, args, 0)[..n] == Render(f, 0, args, 0);
  }

  // ---- which numbers print as themselves ----

  /** A long %d prints every 64-bit integer. */
  lemma LongDecimal(v: int)
    requires INT64_MIN <= v <= INT64_MAX
    ensures Denotes(NumberText('d', true, Bits64(v)), 10) == v
  {
    hide Digits, ItoaText, Denotes;
    ItoaDenotes(v);
    assert Signed64(NumberRead('d', true, Bits64(v))) == v;
  }

  /** A plain %d prints a 32-bit integer as itself exactly when it is not negative. */
  lemma PlainDecimal(v: int)
    requires -0x8000_0000 <= v < 0x8000_0000
    ensures Denotes(NumberText('d', false, v % TWO32), 10) == v <==> v >= 0
  {
    hide Digits, ItoaText, Denotes;
    ItoaDenotes(v % TWO32);
    assert Signed64(NumberRead('d', false, v % TWO32)) == v % TWO32;
  }

  /** -1 as a plain %d reads as its unsigned bits. */
  lemma PlainDecimalFails()
    ensures Denotes(NumberText('d', false, (-1) % TWO32), 10) == 4294967295
  {
    hide Digits, ItoaText, Denotes;
    ItoaDenotes(4294967295);
    assert Signed64(NumberRead('d', false, (-1) % TWO32)) == 4294967295;
  }

  /** A long %u prints an unsigned value as itself exactly when its top bit is clear. */
  lemma LongUnsigned(v: nat)
    requires v < TWO64
    ensures Denotes(NumberText('u', true, v), 10) == v <==> v <= INT64_MAX
  {
    hide Digits, ItoaText, Denotes;
    ItoaDenotes(Signed64(v));
    assert NumberRead('u', true, v) == v;
  }

  /** The largest unsigned value as a long %u reads as -1. */
  lemma LongUnsignedFails()
    ensures Denotes(NumberText('u', true, TWO64 - 1), 10) == -1
  {
    hide Digits, ItoaText, Denotes;
    ItoaDenotes(-1);
    assert Signed64(NumberRead('u', true, TWO64 - 1)) == -1;
  }

  /** Hexadecimal prints every value. */
  lemma Hexadecimal(v: nat)
    requires v < TWO64
    ensures Denotes(NumberText('x', true, v), 16) == v && Denotes(NumberText('p', false, v), 16) == v
  {
    hide Digits, Value;
    DigitsValue(v, 16, 'A');
    assert NumberRead('x', true, v) == v && NumberRead('p', false, v) == v;
  }
}
