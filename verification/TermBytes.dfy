/**
  * The bytes a program writes reach the handlers: control sequences with their
  * arguments, escapes of two and three bytes, and plain control codes.
  */
module TermBytes {
  import opened Values
  import opened TermModel
  import opened TermInvariant
  import opened TermRun
  import opened TermLaws

  const IN_CSI := NO_ESC.(start := true, csi := true)

  lemma PutsNext(e: Env, t: Term, u: int, us: seq<int>)
    ensures Puts(e, t, [u] + us) == Puts(e, Putc(e, t, u), us)
  {
    hide Putc;
    assert ([u] + us)[1..] == us;
  }

  lemma PutsOne(e: Env, t: Term, u: int)
    ensures Puts(e, t, [u]) == Putc(e, t, u)
  {
    hide Putc;
    PutsNext(e, t, u, []);
    assert [u] + [] == [u];
  }

  // ---- control sequences ----

  lemma StartsEscape(e: Env, t: Term)
    requires t.esc == NO_ESC
    ensures Putc(e, t, 0x1b) == t.(csi := NO_CSI, esc := NO_ESC.(start := true))
  {
    hide Print, Escape, StrHandle, NewLine, SetChar, PutTab, MoveTo, Send;
    assert Low8(0x1b) == 0x1b && IsControl(0x1b) && !IsC1(0x1b);
    assert ControlCode(e, t, 0x1b) == t.(csi := NO_CSI, esc := NO_ESC.(start := true));
  }

  lemma Opens(e: Env, t: Term)
    requires t.esc == NO_ESC
    ensures Puts(e, t, [0x1b, 0x5b]) == t.(csi := NO_CSI, esc := IN_CSI)
  {
    StartsEscape(e, t);
    OpensBracket(e, t.(csi := NO_CSI, esc := NO_ESC.(start := true)));
    hide Putc;
    PutsNext(e, t, 0x1b, [0x5b]);
    assert [0x1b] + [0x5b] == [0x1b, 0x5b];
    PutsOne(e, Putc(e, t, 0x1b), 0x5b);
  }

  lemma OpensBracket(e: Env, t: Term)
    requires t.esc == NO_ESC.(start := true)
    ensures Putc(e, t, 0x5b) == t.(esc := IN_CSI)
  {
    hide Print, CollectCsi, Control, ScrollUp, ScrollDown, Reset, NewLine, StrHandle;
    assert Low8(0x5b) == 0x5b;
    assert Putc(e, t, 0x5b) == Escape(e, t, 0x5b) == EscHandle(e, t, 0x5b);
  }

  lemma Collects(e: Env, t: Term, u: Byte)
    requires t.esc == IN_CSI && 0x20 <= u < 0x40 && |t.csi.buf| + 1 < ESC_BUF_SIZ - 1
    ensures Putc(e, t, u) == t.(csi := t.csi.(buf := t.csi.buf + [u]))
  {
    hide CsiHandle, CsiParse, Print, Control;
  }

  predicate AreParameters(s: seq<Byte>) {
    forall i :: 0 <= i < |s| ==> 0x20 <= s[i] < 0x40
  }

  lemma {:induction false} CollectsAll(e: Env, t: Term, s: seq<Byte>)
    requires t.esc == IN_CSI && AreParameters(s) && |t.csi.buf| + |s| < ESC_BUF_SIZ - 1
    ensures Puts(e, t, s) == t.(csi := t.csi.(buf := t.csi.buf + s))
    decreases |s|
  {
    hide Putc;
    if s == [] {
      assert t.csi.buf + s == t.csi.buf;
    } else {
      Collects(e, t, s[0]);
      CollectsAll(e, Putc(e, t, s[0]), s[1..]);
      assert t.csi.buf + [s[0]] + s[1..] == t.csi.buf + s;
      assert [s[0]] + s[1..] == s;
      PutsNext(e, t, s[0], s[1..]);
    }
  }

  function Power10(k: nat): nat {
    if k == 0 then 1 else 10 * Power10(k - 1)
  }

  lemma {:induction false} DigitsLength(n: nat, k: nat)
    requires k >= 1 && n < Power10(k)
    ensures |Digits(n)| <= k && forall i :: 0 <= i < |Digits(n)| ==> IsDigit(Digits(n)[i])
    decreases k
  {
    if n < 10 {
    } else {
      assert k > 1 by { assert Power10(1) == 10 * Power10(0); }
      DigitsLength(n / 10, k - 1);
    }
  }

  lemma TenDigits()
    ensures Power10(10) == 10_000_000_000
  {
    assert Power10(0) == 1 && Power10(1) == 10 && Power10(2) == 100 && Power10(3) == 1000;
    assert Power10(4) == 10000 && Power10(5) == 100000 && Power10(6) == 1000000 && Power10(7) == 10000000;
    assert Power10(8) == 100000000 && Power10(9) == 1000000000;
  }

  lemma {:induction false} TextLength(args: seq<nat>)
    requires args != [] && forall i :: 0 <= i < |args| ==> args[i] < 0x8000_0000
    ensures |Text(args)| <= 11 * |args| && AreParameters(Text(args))
    decreases |args|
  {
    TenDigits();
    DigitsLength(args[0], 10);
    hide Digits, Power10;
    if |args| == 1 {
    } else {
      TextLength(args[1..]);
    }
  }

  /** A control sequence as a program writes it. */
  function Sequence(priv: bool, args: seq<nat>, f: Byte): seq<int>
    requires args != []
  {
    [0x1b, 0x5b] + Prefix(priv) + Text(args) + [f]
  }

  predicate AreArguments(args: seq<nat>) {
    0 < |args| <= ESC_ARG_SIZ && forall i :: 0 <= i < |args| ==> args[i] < 0x8000_0000
  }

  lemma Finishes(e: Env, t: Term, s: seq<Byte>, f: Byte)
    requires t.esc == NO_ESC && AreParameters(s) && |s| < 200 && 0x40 <= f <= 0x7e
    ensures Puts(e, t, [0x1b, 0x5b] + s + [f]) == CsiHandle(e, t.(csi := CsiParse(NO_CSI.(buf := s + [f]))))
  {
    hide Putc, CsiHandle, CsiParse, Puts;
    var a := Puts(e, t, [0x1b, 0x5b]);
    var b := Puts(e, a, s);
    Opens(e, t);
    CollectsAll(e, a, s);
    assert [] + s == s;
    PutsAppend(e, t, [0x1b, 0x5b], s + [f]);
    PutsAppend(e, a, s, [f]);
    PutsOne(e, b, f);
    LastByte(e, b, f);
    assert [0x1b, 0x5b] + s + [f] == [0x1b, 0x5b] + (s + [f]);
  }

  /** It reaches the handler with those arguments, from every state outside a sequence. */
  lemma SequenceHandled(e: Env, t: Term, priv: bool, args: seq<nat>, f: Byte) returns (c: Csi)
    requires t.esc == NO_ESC && AreArguments(args) && 0x40 <= f <= 0x7e
    ensures ReadAs(c, args, f, priv) && |c.buf| < ESC_BUF_SIZ - 1
    ensures Puts(e, t, Sequence(priv, args, f)) == CsiHandle(e, t.(csi := c))
  {
    hide CsiHandle, CsiParse, Puts, Text, ReadAs;
    TextLength(args);
    CsiRoundTrip(args, f, priv);
    var s := Prefix(priv) + Text(args);
    Finishes(e, t, s, f);
    c := CsiParse(NO_CSI.(buf := s + [f]));
    CsiParsed(NO_CSI.(buf := s + [f]));
    assert [0x1b, 0x5b] + s + [f] == Sequence(priv, args, f);
  }

  /** Without arguments the handler gets a single zero. */
  lemma BareHandled(e: Env, t: Term, f: Byte) returns (c: Csi)
    requires t.esc == NO_ESC && 0x40 <= f <= 0x7e
    ensures ReadAs(c, [0], f, false) && |c.buf| < ESC_BUF_SIZ - 1
    ensures Puts(e, t, [0x1b, 0x5b, f]) == CsiHandle(e, t.(csi := c))
  {
    hide CsiHandle, Puts;
    Finishes(e, t, [], f);
    assert [] + [f] == [f] && [0x1b, 0x5b] + [] + [f] == [0x1b, 0x5b, f];
    c := CsiParse(NO_CSI.(buf := [f]));
    BareParsed(f);
  }

  lemma BareParsed(f: Byte)
    requires 0x40 <= f <= 0x7e
    ensures ReadAs(CsiParse(NO_CSI.(buf := [f])), [0], f, false)
  {
    assert Strtol([f], 0) == Number(0, 0);
    assert ParseArgs([f], 0, 0) == Args([0], 0);
  }

  lemma ReadParts(c: Csi, args: seq<nat>, f: Byte, priv: bool)
    requires ReadAs(c, args, f, priv) && args != []
    ensures c.mode0 == f && c.priv == priv && |c.arg| == ESC_ARG_SIZ && c.narg == |args| && c.arg[..|args|] == args
    ensures c.arg[0] == args[0] && c.arg[1] == if |args| > 1 then args[1] else 0
  {}

  // ---- escapes and control codes ----

  /** ESC and a byte that ends the sequence. */
  lemma EscapeHandled(e: Env, t: Term, f: Byte)
    requires t.esc == NO_ESC && 0x30 <= f <= 0x7e && !EscContinues(f)
    ensures Puts(e, t, [0x1b, f])
      == EscHandle(e, t.(csi := NO_CSI, esc := NO_ESC.(start := true)), f).(esc := NO_ESC)
  {
    StartsEscape(e, t);
    var v := t.(csi := NO_CSI, esc := NO_ESC.(start := true));
    EscapeLast(e, v, f);
    hide Putc, EscHandle;
    PutsNext(e, t, 0x1b, [f]);
    assert [0x1b] + [f] == [0x1b, f];
    PutsOne(e, v, f);
  }

  lemma EscapeLast(e: Env, t: Term, f: Byte)
    requires t.esc == NO_ESC.(start := true) && 0x30 <= f <= 0x7e && !EscContinues(f)
    ensures Putc(e, t, f) == EscHandle(e, t, f).(esc := NO_ESC)
  {
    hide EscHandle, Print, CollectCsi, Control;
    assert Low8(f) == f && !IsControl(f);
  }

  /** ESC, a byte that selects what follows, and the byte it applies to. */
  lemma EscapeThree(e: Env, t: Term, a: Byte, b: Byte)
    requires t.esc == NO_ESC && (a == 0x23 || a == 0x25 || 0x28 <= a <= 0x2b) && 0x20 <= b <= 0x7e
    ensures Puts(e, t, [0x1b, a, b]) == (
      if a == 0x23 then DecTest(t.(csi := NO_CSI), b)
      else if a == 0x25 then DefUtf8(t.(csi := NO_CSI), b)
      else DefTran(e, t.(csi := NO_CSI, icharset := a - 0x28), b)).(esc := NO_ESC)
  {
    StartsEscape(e, t);
    var v := t.(csi := NO_CSI, esc := NO_ESC.(start := true));
    SelectByte(e, v, a);
    var w := Putc(e, v, a);
    SelectedByte(e, w, b);
    hide Putc, DecTest, DefUtf8, DefTran;
    PutsNext(e, t, 0x1b, [a, b]);
    PutsNext(e, v, a, [b]);
    PutsOne(e, w, b);
    assert [0x1b] + [a, b] == [0x1b, a, b] && [a] + [b] == [a, b];
    SelectedSame(e, t, a, b);
  }

  function Selected(a: Byte): EscState {
    if a == 0x23 then NO_ESC.(start := true, test := true)
    else if a == 0x25 then NO_ESC.(start := true, utf8 := true)
    else NO_ESC.(start := true, altCharset := true)
  }

  lemma SelectByte(e: Env, t: Term, a: Byte)
    requires t.esc == NO_ESC.(start := true) && (a == 0x23 || a == 0x25 || 0x28 <= a <= 0x2b)
    ensures Putc(e, t, a) == t.(esc := Selected(a), icharset := if a >= 0x28 then a - 0x28 else t.icharset)
  {
    hide Print, CollectCsi, Control, ScrollUp, ScrollDown, Reset, NewLine, StrHandle;
    assert Low8(a) == a && !IsControl(a);
    assert Putc(e, t, a) == EscHandle(e, t, a);
  }

  lemma SelectedByte(e: Env, t: Term, b: Byte)
    requires t.esc.start && !t.esc.csi && !t.esc.str && 0x20 <= b <= 0x7e
    requires t.esc.utf8 || t.esc.altCharset || t.esc.test
    ensures Putc(e, t, b) == (if t.esc.utf8 then DefUtf8(t, b) else if t.esc.altCharset then DefTran(e, t, b)
      else DecTest(t, b)).(esc := NO_ESC)
  {
    hide Print, CollectCsi, Control, DefUtf8, DefTran, DecTest;
    assert Low8(b) == b && !IsControl(b);
  }

  lemma SelectedSame(e: Env, t: Term, a: Byte, b: Byte)
    ensures DecTest(t.(csi := NO_CSI, esc := Selected(a)), b).(esc := NO_ESC)
      == DecTest(t.(csi := NO_CSI), b).(esc := NO_ESC)
    ensures DefUtf8(t.(csi := NO_CSI, esc := Selected(a)), b).(esc := NO_ESC)
      == DefUtf8(t.(csi := NO_CSI), b).(esc := NO_ESC)
    ensures DefTran(e, t.(csi := NO_CSI, esc := Selected(a), icharset := a - 0x28), b).(esc := NO_ESC)
      == DefTran(e, t.(csi := NO_CSI, icharset := a - 0x28), b).(esc := NO_ESC)
  {}

  /** A control code outside any sequence; the last printed rune is forgotten unless a sequence opens. */
  lemma ControlHandled(e: Env, t: Term, c: Byte)
    requires t.esc == NO_ESC && (IsC0(c) || (IsC1(c) && !t.mode.utf8))
    ensures Putc(e, t, c) == var v := ControlCode(e, t, c); if v.esc == NO_ESC then v.(lastc := 0) else v
  {
    hide ControlCode, Print, Escape;
    assert Low8(c) == c;
  }
}
