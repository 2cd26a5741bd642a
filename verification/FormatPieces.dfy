/**
  * A format as the pieces it is written from, and what each piece prints: the
  * output of the formatter described without its scanner.
  */
module FormatPieces {
  import opened Values
  import opened Formatter

  /** Ordinary text, or a directive: percent, an optional zero flag, width digits, up to two l and a conversion. */
  datatype Piece = Plain(text: string) | Spec(zero: bool, digits: string, longs: nat, conv: char)

  /** The text is read back as this piece. */
  predicate Legal(p: Piece) {
    match p
    case Plain(text) => '%' !in text && '\0' !in text
    case Spec(zero, digits, longs, conv) =>
      (forall i :: 0 <= i < |digits| ==> '0' <= digits[i] <= '9') && (zero || digits == [] || digits[0] != '0')
      && longs <= 2 && conv != '\0' && (longs == 0 ==> !('0' <= conv <= '9')) && (longs < 2 ==> conv != 'l')
  }

  function Longs(n: nat): (s: string)
    ensures |s| == n
  {
    seq(n, _ => 'l')
  }

  function Written(p: Piece): string {
    match p
    case Plain(text) => text
    case Spec(zero, digits, longs, conv) => "%" + (if zero then "0" else "") + digits + Longs(longs) + [conv]
  }

  function WrittenAll(ps: seq<Piece>): string {
    if ps == [] then [] else Written(ps[0]) + WrittenAll(ps[1..])
  }

  function Concat(outs: seq<string>): string {
    if outs == [] then [] else outs[0] + Concat(outs[1..])
  }

  /** The conversions that use up an argument. */
  predicate Consumes(p: Piece) {
    p.Spec? && p.conv in "duxXpsc"
  }

  /** The arguments used by the first n pieces. */
  function Used(ps: seq<Piece>, n: nat): nat
    requires n <= |ps|
  {
    if n == 0 then 0 else Used(ps, n - 1) + if Consumes(ps[n - 1]) then 1 else 0
  }

  // ---- what a piece prints ----

  /** Digits of the base without a leading zero. */
  predicate Canonical(d: string, base: nat) {
    d != [] && (d[0] == '0' ==> |d| == 1)
    && forall i :: 0 <= i < |d| ==> ('0' <= d[i] <= '9' || 'A' <= d[i] <= 'F') && DigitValue(d[i]) < base
  }

  /** The one way to write v in this base, with a minus sign if it is negative. */
  predicate IsNumeral(t: string, v: int, base: nat) {
    t != [] && Denotes(t, base) == v && (v < 0 ==> t[0] == '-') && Canonical(if v < 0 then t[1..] else t, base)
  }

  /** v is written at the right end of its column, which is at least width wide. */
  ghost predicate Aligned(out: string, v: int, base: nat, pad: char, width: int) {
    exists k :: 0 <= k <= |out| && (forall i :: 0 <= i < k ==> out[i] == pad) && IsNumeral(out[k..], v, base)
      && (k > 0 ==> |out| == width) && |out| >= width
  }

  /** The low half of an argument, and an argument as a signed number. */
  function Low(bits: nat): nat { bits % 0x1_0000_0000 }

  function Whole(bits: nat): nat { bits % 0x1_0000_0000_0000_0000 }

  function AsSigned(bits: nat): int {
    if Whole(bits) < 0x8000_0000_0000_0000 then Whole(bits) else Whole(bits) - 0x1_0000_0000_0000_0000
  }

  ghost predicate Prints(p: Piece, a: Arg, out: string) {
    match p
    case Plain(text) => out == text
    case Spec(zero, digits, longs, conv) =>
      var pad, width := if zero then '0' else ' ', Value(digits, 10);
      if conv == 'd' || conv == 'u' then
        Aligned(out, if longs > 0 then AsSigned(a.bits) else Low(a.bits), 10, pad, width)
      else if conv == 'x' || conv == 'X' then
        Aligned(out, if longs > 0 then Whole(a.bits) else Low(a.bits), 16, pad, width)
      else if conv == 'p' then Aligned(out, Whole(a.bits), 16, pad, width)
      else if conv == 's' then
        if a.isNull then out == "(null)"
        else out <= a.text && '\0' !in out && (|out| == |a.text| || a.text[|out|] == '\0')
      else if conv == 'c' then |out| == 1 && out[0] as int == a.bits % 256
      else if conv == '%' then out == "%"
      else out == ""
  }

  // ---- numbers ----

  lemma {:induction false} DigitsCanonical(v: nat, base: nat, ten: char)
    requires 2 <= base <= 16 && (ten == 'a' || ten == 'A') && (base > 10 ==> ten == 'A')
    ensures Canonical(Digits(v, base, ten), base) && (Digits(v, base, ten)[0] == '0' ==> v == 0)
    decreases v
  {
    hide Quot, Rem, DigitValue;
    if v < base {
      DigitLegal(v, base, ten);
    } else {
      DigitsCanonical(Quot(v, base), base, ten);
      DigitLegal(Rem(v, base), base, ten);
    }
  }

  lemma DigitLegal(d: nat, base: nat, ten: char)
    requires d < base && 2 <= base <= 16 && (ten == 'a' || ten == 'A') && (base > 10 ==> ten == 'A')
    ensures var c := DigitChar(d, ten);
      ('0' <= c <= '9' || 'A' <= c <= 'F') && DigitValue(c) < base && (c == '0' <==> d == 0)
  {}

  lemma DecimalNumeral(v: int)
    requires INT64_MIN <= v <= INT64_MAX
    ensures IsNumeral(ItoaText(v, 10), v, 10)
  {
    hide Digits, DigitValue, Denotes;
    ItoaDenotes(v);
    var m := if v < 0 then -v else v;
    DigitsCanonical(m, 10, 'a');
    var t := ItoaText(v, 10);
    if v < 0 { assert t == ['-'] + Digits(m, 10, 'a') && t[1..] == Digits(m, 10, 'a'); }
  }

  lemma HexNumeral(v: nat)
    ensures IsNumeral(HexText(v), v, 16)
  {
    hide Digits, DigitValue, Value;
    DigitsValue(v, 16, 'A');
    DigitsCanonical(v, 16, 'A');
  }

  lemma DigitInjective(a: char, b: char)
    requires ('0' <= a <= '9' || 'A' <= a <= 'F') && ('0' <= b <= '9' || 'A' <= b <= 'F')
    ensures DigitValue(a) == DigitValue(b) ==> a == b
  {}

  lemma QuotientUnique(p: int, q: int, base: nat, c: int, d: int)
    requires 0 <= c < base && 0 <= d < base && p * base + c == q * base + d
    ensures p == q && c == d
  {
    assert (p - q) * base == p * base - q * base;
    MultipleFar(p - q, base);
  }

  lemma {:induction false} ValuePositive(d: string, base: nat)
    requires 1 <= base && Canonical(d, base) && d[0] != '0'
    ensures Value(d, base) > 0
  {
    assert DigitValue('0') == 0;
    hide DigitValue;
    var n := |d| - 1;
    if n == 0 {
      DigitInjective(d[0], '0');
      assert d[..0] == [];
    } else {
      ValuePositive(d[..n], base);
      MulMono(base, 1, Value(d[..n], base));
    }
  }

  /** Two texts without leading zeros that have the same value are the same. */
  lemma {:induction false} DigitsUnique(d: string, e: string, base: nat)
    requires 2 <= base && Canonical(d, base) && Canonical(e, base) && Value(d, base) == Value(e, base)
    ensures d == e
    decreases |d|
  {
    var m, n := |d| - 1, |e| - 1;
    assert 0 <= DigitValue(d[m]) < base && 0 <= DigitValue(e[n]) < base;
    hide DigitValue, Value;
    ValueLast(d, base);
    ValueLast(e, base);
    QuotientUnique(Value(d[..m], base), Value(e[..n], base), base, DigitValue(d[m]), DigitValue(e[n]));
    DigitInjective(d[m], e[n]);
    assert d == d[..m] + [d[m]] && e == e[..n] + [e[n]];
    if m > 0 { ValuePositive(d[..m], base); } else { ValueNone(d); }
    if n > 0 { ValuePositive(e[..n], base); } else { ValueNone(e); }
    NoValue(base);
    if m > 0 && n > 0 { DigitsUnique(d[..m], e[..n], base); }
  }

  lemma ValueLast(d: string, base: nat)
    requires d != []
    ensures Value(d, base) == Value(d[..|d| - 1], base) * base + DigitValue(d[|d| - 1])
  {}

  lemma NoValue(base: nat)
    ensures Value([], base) == 0
  {}

  /** A number has one numeral. */
  lemma NumeralUnique(t: string, u: string, v: int, base: nat)
    requires 2 <= base && IsNumeral(t, v, base) && IsNumeral(u, v, base)
    ensures t == u
  {
    NumeralDigits(t, v, base);
    NumeralDigits(u, v, base);
    hide IsNumeral, Canonical;
    if v < 0 {
      DigitsUnique(t[1..], u[1..], base);
      assert t == ['-'] + t[1..] && u == ['-'] + u[1..];
    } else {
      DigitsUnique(t, u, base);
    }
  }

  lemma NumeralDigits(t: string, v: int, base: nat)
    requires IsNumeral(t, v, base)
    ensures t != [] && (v < 0 ==> t[0] == '-')
    ensures var d := if v < 0 then t[1..] else t; Canonical(d, base) && Value(d, base) == if v < 0 then -v else v
  {
    hide Value;
    if v >= 0 { assert '0' <= t[0] <= 'F'; }
  }

  lemma PaddedAligned(t: string, v: int, base: nat, pad: char, width: nat)
    requires IsNumeral(t, v, base)
    ensures Aligned(Padded(t, pad, width), v, base, pad, width)
  {
    hide IsNumeral;
    var out := Padded(t, pad, width);
    var k := |out| - |t|;
    assert out[k..] == t;
  }

  lemma NumberPrints(p: Piece, a: Arg, at: nat)
    requires p.Spec? && p.conv in "duxXp"
    ensures Value(p.digits, 10) >= 0 ==>
      Prints(p, a, Converted(p.conv, Directive(if p.zero then '0' else ' ', Value(p.digits, 10), p.longs > 0, at), a))
  {
    hide IsNumeral, Aligned, Padded, Digits, ItoaText, HexText, Value;
    if Value(p.digits, 10) >= 0 {
      var w: nat, pad := Value(p.digits, 10), if p.zero then '0' else ' ';
      var v := NumberRead(p.conv, p.longs > 0, a.bits);
      assert v == if p.conv == 'p' || p.longs > 0 then Whole(a.bits) else Low(a.bits);
      if p.conv == 'd' || p.conv == 'u' {
        DecimalNumeral(Signed64(v));
        assert Signed64(v) == if p.longs > 0 then AsSigned(a.bits) else Low(a.bits);
        PaddedAligned(ItoaText(Signed64(v), 10), Signed64(v), 10, pad, w);
      } else {
        HexNumeral(v);
        PaddedAligned(HexText(v), v, 16, pad, w);
      }
    }
  }

  lemma {:induction false} CTextStops(s: string)
    ensures CText(s) <= s && '\0' !in CText(s) && (|CText(s)| == |s| || s[|CText(s)|] == '\0')
  {
    if s == [] || s[0] == '\0' {
    } else {
      CTextStops(s[1..]);
      assert s == [s[0]] + s[1..];
    }
  }

  lemma ConvertedPrints(p: Piece, a: Arg, at: nat)
    requires p.Spec? && Value(p.digits, 10) >= 0
    ensures Prints(p, a,
      Converted(p.conv, Directive(if p.zero then '0' else ' ', Value(p.digits, 10), p.longs > 0, at), a))
  {
    hide Aligned, Padded, NumberText, CText, Value;
    if p.conv in "duxXp" {
      NumberPrints(p, a, at);
    } else {
      CTextStops(a.text);
    }
  }

  // ---- reading a written directive ----

  lemma {:induction false} ValueNat(digits: string)
    requires forall i :: 0 <= i < |digits| ==> '0' <= digits[i] <= '9'
    ensures Value(digits, 10) >= 0
  {
    if digits == [] {
    } else {
      ValueNat(digits[..|digits| - 1]);
    }
  }

  /** digits stand in f from j on, and something else follows. */
  predicate DigitsAt(f: string, j: nat, digits: string) {
    j + |digits| <= |f| && f[j..j + |digits|] == digits && (forall i :: 0 <= i < |digits| ==> IsNum(digits[i]))
    && (j + |digits| < |f| ==> !IsNum(f[j + |digits|]))
  }

  lemma {:induction false} WidthReads(f: string, j: nat, digits: string, n: nat)
    requires DigitsAt(f, j, digits) && n <= |digits| && Value(digits[..n], 10) >= 0
    ensures SkipWidth(f, j + n) == j + |digits| && WidthOf(f, j + n, Value(digits[..n], 10)) == Value(digits, 10)
    decreases |digits| - n
  {
    if n == |digits| {
      assert digits[..n] == digits;
    } else {
      assert f[j + n] == f[j..j + |digits|][n] == digits[n];
      var d := digits[..n + 1];
      assert d[..n] == digits[..n] && d[n] == digits[n];
      WidthReads(f, j, digits, n + 1);
    }
  }

  /** A directive is written at i, after its percent sign. */
  predicate SpecAt(f: string, i: nat, p: Piece) {
    p.Spec? && Legal(p) && i < |f| && f[i] == '%' && i + |Written(p)| <= |f| && f[i..i + |Written(p)|] == Written(p)
  }

  /** Where the digits start. */
  function DigitsFrom(i: nat, p: Piece): nat
    requires p.Spec?
  {
    if p.zero then i + 2 else i + 1
  }

  /** The parts of the directive, each where it stands. */
  predicate PartsAt(f: string, i: nat, p: Piece) {
    p.Spec? && Legal(p)
    && var j := DigitsFrom(i, p);
      var k := j + |p.digits|;
      k + p.longs < |f| && (p.zero ==> f[i + 1] == '0') && f[j..k] == p.digits
      && (forall q :: k <= q < k + p.longs ==> f[q] == 'l') && f[k + p.longs] == p.conv
  }

  lemma SpecParts(f: string, i: nat, p: Piece)
    requires SpecAt(f, i, p)
    ensures PartsAt(f, i, p) && i + |Written(p)| == DigitsFrom(i, p) + |p.digits| + p.longs + 1
  {
    hide Legal;
    var w := Written(p);
    var j := DigitsFrom(i, p);
    var k := j + |p.digits|;
    assert forall q :: i <= q < i + |w| ==> f[q] == f[i..i + |w|][q - i];
    assert |w| == k + p.longs + 1 - i;
    assert w[j - i..k - i] == p.digits;
    forall q | k <= q < k + p.longs ensures f[q] == 'l' { assert w[q - i] == Longs(p.longs)[q - k]; }
  }

  lemma PartsDigits(f: string, i: nat, p: Piece)
    requires PartsAt(f, i, p)
    ensures DigitsAt(f, DigitsFrom(i, p), p.digits)
  {}

  lemma PartsFlag(f: string, i: nat, p: Piece)
    requires PartsAt(f, i, p)
    ensures At(f, i + 1) == '0' <==> p.zero
  {
    if !p.zero && p.digits != [] { assert f[i + 1] == f[i + 1..i + 1 + |p.digits|][0] == p.digits[0]; }
  }

  lemma PartsLong(f: string, i: nat, p: Piece)
    requires PartsAt(f, i, p)
    ensures var k := DigitsFrom(i, p) + |p.digits|;
      SkipLong(f, k) == k + p.longs < |f| && f[k + p.longs] == p.conv && (At(f, k) == 'l' <==> p.longs > 0)
  {}

  lemma PartsWidth(f: string, i: nat, p: Piece)
    requires PartsAt(f, i, p)
    ensures var j := DigitsFrom(i, p);
      SkipWidth(f, j) == j + |p.digits| && 0 <= Value(p.digits, 10) == WidthOf(f, j, 0)
  {
    PartsDigits(f, i, p);
    hide PartsAt, SkipWidth, WidthOf, Value;
    ValueNat(p.digits);
    ValueNone(p.digits);
    WidthReads(f, DigitsFrom(i, p), p.digits, 0);
  }

  lemma ValueNone(s: string)
    ensures s[..0] == [] && Value(s[..0], 10) == 0
  {}

  lemma SpecReads(f: string, i: nat, p: Piece)
    requires SpecAt(f, i, p)
    ensures var at := i + |Written(p)| - 1;
      Value(p.digits, 10) >= 0 && at < |f| && f[at] == p.conv
      && ParseDirective(f, i + 1) == Directive(if p.zero then '0' else ' ', Value(p.digits, 10), p.longs > 0, at)
  {
    hide SpecAt, PartsAt, Value, SkipWidth, WidthOf, SkipLong, Written;
    SpecParts(f, i, p);
    PartsFlag(f, i, p);
    PartsWidth(f, i, p);
    PartsLong(f, i, p);
  }

  // ---- the whole output ----

  lemma {:induction false} RenderText(f: string, i: nat, text: string, args: seq<Arg>, k: nat)
    requires '%' !in text && '\0' !in text && i + |text| <= |f| && f[i..i + |text|] == text
    ensures Render(f, i, args, k) == text + Render(f, i + |text|, args, k)
    decreases |text|
  {
    hide Render;
    if text == [] {
      assert [] + Render(f, i, args, k) == Render(f, i, args, k);
    } else {
      var rest := text[1..];
      TextParts(f, i, text);
      RenderPlain(f, i, args, k);
      RenderText(f, i + 1, rest, args, k);
      var end := Render(f, i + |text|, args, k);
      assert [text[0]] + (rest + end) == ([text[0]] + rest) + end;
    }
  }

  lemma TextParts(f: string, i: nat, text: string)
    requires text != [] && i + |text| <= |f| && f[i..i + |text|] == text && '%' !in text && '\0' !in text
    ensures f[i] == text[0] && text[0] != '%' && text[0] != '\0' && text == [text[0]] + text[1..]
    ensures f[i + 1..i + 1 + |text[1..]|] == text[1..] && '%' !in text[1..] && '\0' !in text[1..]
  {
    assert f[i] == f[i..i + |text|][0] && text[0] in text;
    assert f[i + 1..i + 1 + |text[1..]|] == f[i..i + |text|][1..];
  }

  lemma RenderSpec(f: string, i: nat, p: Piece, args: seq<Arg>, k: nat) returns (out: string)
    requires SpecAt(f, i, p)
    ensures Prints(p, ArgAt(args, k), out)
    ensures Render(f, i, args, k) == out + Render(f, i + |Written(p)|, args, if Consumes(p) then k + 1 else k)
  {
    hide Written, Render, Prints, Converted, Value, ParseDirective;
    SpecReads(f, i, p);
    RenderDirective(f, i, args, k);
    var d := ParseDirective(f, i + 1);
    out := Converted(p.conv, d, ArgAt(args, k));
    ConvertedPrints(p, ArgAt(args, k), d.at);
    assert TakesArg(p.conv) <==> Consumes(p);
  }

  lemma RenderPiece(f: string, i: nat, p: Piece, args: seq<Arg>, k: nat) returns (out: string)
    requires Legal(p) && i + |Written(p)| <= |f| && f[i..i + |Written(p)|] == Written(p)
    ensures Prints(p, ArgAt(args, k), out)
    ensures Render(f, i, args, k) == out + Render(f, i + |Written(p)|, args, if Consumes(p) then k + 1 else k)
  {
    hide Render;
    if p.Plain? {
      RenderText(f, i, p.text, args, k);
      out := p.text;
    } else {
      assert f[i] == f[i..i + |Written(p)|][0] == '%';
      out := RenderSpec(f, i, p, args, k);
    }
  }

  lemma {:induction false} UsedFrom(ps: seq<Piece>, n: nat)
    requires ps != [] && n < |ps|
    ensures Used(ps, n + 1) == (if Consumes(ps[0]) then 1 else 0) + Used(ps[1..], n)
  {
    if n == 0 {
      assert Used(ps, 1) == Used(ps, 0) + if Consumes(ps[0]) then 1 else 0;
    } else {
      UsedFrom(ps, n - 1);
    }
  }

  /** Each piece printed its text, the arguments taken from k on. */
  ghost predicate AllPrint(ps: seq<Piece>, args: seq<Arg>, k: nat, outs: seq<string>) {
    |outs| == |ps| && forall n :: 0 <= n < |ps| ==> Prints(ps[n], ArgAt(args, k + Used(ps, n)), outs[n])
  }

  lemma UsedNone(ps: seq<Piece>)
    ensures Used(ps, 0) == 0
  {}

  lemma AllPrintMore(ps: seq<Piece>, args: seq<Arg>, k: nat, out: string, outs: seq<string>)
    requires ps != [] && Prints(ps[0], ArgAt(args, k), out)
    requires AllPrint(ps[1..], args, if Consumes(ps[0]) then k + 1 else k, outs)
    ensures AllPrint(ps, args, k, [out] + outs)
  {
    UsedNone(ps);
    hide Prints, Consumes, ArgAt, Used;
    var all := [out] + outs;
    forall n | 0 <= n < |ps| ensures Prints(ps[n], ArgAt(args, k + Used(ps, n)), all[n]) {
      if n > 0 {
        UsedFrom(ps, n - 1);
        assert ps[n] == ps[1..][n - 1] && all[n] == outs[n - 1];
      }
    }
  }

  lemma {:induction false} RenderFrom(f: string, i: nat, ps: seq<Piece>, args: seq<Arg>, k: nat)
      returns (outs: seq<string>)
    requires (forall n :: 0 <= n < |ps| ==> Legal(ps[n])) && i + |WrittenAll(ps)| <= |f|
      && f[i..i + |WrittenAll(ps)|] == WrittenAll(ps)
    ensures AllPrint(ps, args, k, outs)
    ensures Render(f, i, args, k) == Concat(outs) + Render(f, i + |WrittenAll(ps)|, args, k + Used(ps, |ps|))
    decreases |ps|
  {
    hide Legal, Prints, Render, Written, Consumes, AllPrint, Used;
    if ps == [] {
      outs := [];
      NonePrint(args, k);
    } else {
      var w, rest := Written(ps[0]), WrittenAll(ps[1..]);
      assert |w + rest| == |w| + |rest|;
      SliceParts(f, i, w, rest);
      var k' := if Consumes(ps[0]) then k + 1 else k;
      var out := RenderPiece(f, i, ps[0], args, k);
      var more := RenderFrom(f, i + |w|, ps[1..], args, k');
      outs := [out] + more;
      AllPrintMore(ps, args, k, out, more);
      UsedFrom(ps, |ps| - 1);
      assert outs[1..] == more;
      var end := Render(f, i + |w| + |rest|, args, k + Used(ps, |ps|));
      assert out + (Concat(more) + end) == (out + Concat(more)) + end;
    }
  }

  lemma NonePrint(args: seq<Arg>, k: nat)
    ensures AllPrint([], args, k, []) && Used([], 0) == 0
  {}

  lemma SliceParts(f: string, i: nat, a: string, b: string)
    requires i + |a + b| <= |f| && f[i..i + |a + b|] == a + b
    ensures f[i..i + |a|] == a && f[i + |a|..i + |a| + |b|] == b
  {
    assert f[i..i + |a|] == f[i..i + |a + b|][..|a|];
    assert f[i + |a|..i + |a| + |b|] == f[i..i + |a + b|][|a|..];
  }

  /**
    * The output of a format is what its pieces print, one after the other; the i-th directive that takes an
    * argument prints argument i.
    */
  lemma RenderPieces(ps: seq<Piece>, args: seq<Arg>) returns (outs: seq<string>)
    requires forall n :: 0 <= n < |ps| ==> Legal(ps[n])
    ensures Render(WrittenAll(ps), 0, args, 0) == Concat(outs)
    ensures AllPrint(ps, args, 0, outs)
  {
    hide Legal, Prints, Render, AllPrint, Used;
    var f := WrittenAll(ps);
    assert f[0..0 + |f|] == f;
    outs := RenderFrom(f, 0, ps, args, 0);
    RenderEnd(f, |f|, args, Used(ps, |ps|));
  }

  // ---- every format is written this way ----

  /** The format is over at i: nothing is left, or a NUL, or a directive without its conversion. */
  predicate Ends(f: string, i: nat) {
    i >= |f| || f[i] == '\0' || (f[i] == '%' && At(f, ParseDirective(f, i + 1).at) == '\0')
  }

  lemma EndsSilent(f: string, i: nat, args: seq<Arg>, k: nat)
    requires Ends(f, i)
    ensures Render(f, i, args, k) == []
  {
    hide ParseDirective, Render;
    if i >= |f| || f[i] == '\0' {
      RenderEnd(f, i, args, k);
    } else {
      RenderDirective(f, i, args, k);
      RenderEnd(f, ParseDirective(f, i + 1).at, args, k);
    }
  }

  lemma {:induction false} WidthEnds(f: string, j: nat)
    requires j <= |f|
    ensures var k := SkipWidth(f, j);
      (forall q :: j <= q < k ==> IsNum(f[q])) && (k < |f| ==> !IsNum(f[k]))
    decreases |f| - j
  {
    if j < |f| && IsNum(f[j]) {
      WidthEnds(f, j + 1);
    } else {
    }
  }

  /** The directive that stands at i, as a piece. */
  lemma ReadPiece(f: string, i: nat) returns (p: Piece)
    requires i < |f| && f[i] == '%' && At(f, ParseDirective(f, i + 1).at) != '\0'
    ensures p.Spec? && Legal(p) && i + |Written(p)| <= |f| && f[i..i + |Written(p)|] == Written(p)
  {
    var at := ParseDirective(f, i + 1).at;
    var zero := At(f, i + 1) == '0';
    var j: nat := if zero then i + 2 else i + 1;
    WidthEnds(f, j);
    hide ParseDirective, SkipWidth;
    var k := SkipWidth(f, j);
    assert at == SkipLong(f, k) < |f|;
    p := Spec(zero, f[j..k], at - k, f[at]);
    PieceLegal(f, zero, j, k, at);
    hide Legal, Written;
    PieceText(f, i, zero, j, k, at);
  }

  lemma PieceLegal(f: string, zero: bool, j: nat, k: nat, at: nat)
    requires j <= k <= at < |f| && at == SkipLong(f, k) && f[at] != '\0' && (!zero ==> At(f, j) != '0')
    requires (forall q :: j <= q < k ==> IsNum(f[q])) && !IsNum(f[k])
    ensures Legal(Spec(zero, f[j..k], at - k, f[at])) && forall q :: k <= q < at ==> f[q] == 'l'
  {
    var d := f[j..k];
    assert forall i :: 0 <= i < |d| ==> d[i] == f[j + i];
  }

  lemma PieceText(f: string, i: nat, zero: bool, j: nat, k: nat, at: nat)
    requires i < j <= k <= at < |f| && f[i] == '%' && j == (if zero then i + 2 else i + 1) && (zero ==> f[i + 1] == '0')
    requires forall q :: k <= q < at ==> f[q] == 'l'
    ensures var w := Written(Spec(zero, f[j..k], at - k, f[at])); i + |w| == at + 1 && f[i..at + 1] == w
  {
    var head := if zero then "%0" else "%";
    assert f[i..j] == head;
    assert f[k..at] == Longs(at - k);
    assert f[i..at + 1] == f[i..j] + f[j..k] + f[k..at] + [f[at]];
    assert head == "%" + if zero then "0" else "";
  }

  lemma {:induction false} Cover(f: string, i: nat) returns (ps: seq<Piece>)
    requires i <= |f|
    ensures (forall n :: 0 <= n < |ps| ==> Legal(ps[n])) && i + |WrittenAll(ps)| <= |f|
    ensures f[i..i + |WrittenAll(ps)|] == WrittenAll(ps) && Ends(f, i + |WrittenAll(ps)|)
    decreases |f| - i
  {
    hide Ends, ParseDirective;
    if Ends(f, i) {
      ps := [];
    } else {
      var p := NextPiece(f, i);
      hide Legal, Written;
      var more := Cover(f, i + |Written(p)|);
      ps := [p] + more;
      assert ps[1..] == more;
      SliceJoin(f, i, Written(p), WrittenAll(more));
    }
  }

  lemma NextPiece(f: string, i: nat) returns (p: Piece)
    requires !Ends(f, i)
    ensures Legal(p) && |Written(p)| > 0 && i + |Written(p)| <= |f| && f[i..i + |Written(p)|] == Written(p)
  {
    hide ParseDirective;
    if f[i] == '%' {
      p := ReadPiece(f, i);
    } else {
      p := Plain([f[i]]);
      assert f[i..i + 1] == [f[i]];
    }
  }

  lemma SliceJoin(f: string, i: nat, a: string, b: string)
    requires i + |a| + |b| <= |f| && f[i..i + |a|] == a && f[i + |a|..i + |a| + |b|] == b
    ensures f[i..i + |a + b|] == a + b
  {
    assert f[i..i + |a| + |b|] == f[i..i + |a|] + f[i + |a|..i + |a| + |b|];
  }

  /**
    * Every format is made of pieces, up to its end, and its output is what they print; the i-th directive
    * that takes an argument prints argument i.
    */
  lemma FormatPrints(f: string, args: seq<Arg>) returns (ps: seq<Piece>, outs: seq<string>)
    ensures (forall n :: 0 <= n < |ps| ==> Legal(ps[n])) && WrittenAll(ps) <= f && Ends(f, |WrittenAll(ps)|)
    ensures Render(f, 0, args, 0) == Concat(outs) && AllPrint(ps, args, 0, outs)
  {
    hide Legal, Ends, Render, AllPrint, Used;
    ps := Cover(f, 0);
    assert f[0..0 + |WrittenAll(ps)|] == f[..|WrittenAll(ps)|];
    outs := RenderFrom(f, 0, ps, args, 0);
    EndsSilent(f, |WrittenAll(ps)|, args, 0 + Used(ps, |ps|));
  }
}
