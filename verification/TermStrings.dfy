/** String sequences: what is inside one reaches the string handler whole and nothing else. */
module TermStrings {
  import opened Values
  import opened Utf8
  import opened TermModel
  import opened TermRun
  import opened TermBytes
  import opened TermStream

  /** DCS, title, OSC, PM and APC, by the letter after ESC. */
  predicate OpensString(f: Byte) {
    f == 0x50 || f == 0x6b || f == 0x5d || f == 0x5e || f == 0x5f
  }

  const IN_STRING := NO_ESC.(start := true, str := true)

  lemma StringOpens(e: Env, t: Term, f: Byte)
    requires t.esc == NO_ESC && OpensString(f)
    ensures Puts(e, t, [0x1b, f]) == t.(csi := NO_CSI, esc := IN_STRING, str := Str(f, [], STR_BUF_SIZ))
  {
    StartsEscape(e, t);
    var v := t.(csi := NO_CSI, esc := NO_ESC.(start := true));
    OpensWith(e, v, f);
    hide Putc;
    PutsNext(e, t, 0x1b, [f]);
    PutsOne(e, v, f);
    assert [0x1b] + [f] == [0x1b, f];
  }

  lemma OpensWith(e: Env, t: Term, f: Byte)
    requires t.esc == NO_ESC.(start := true) && OpensString(f)
    ensures Putc(e, t, f) == t.(esc := IN_STRING, str := Str(f, [], STR_BUF_SIZ))
  {
    hide Print, CollectCsi, Control, ScrollUp, ScrollDown, Reset, NewLine, StrHandle;
    assert Low8(f) == f && !IsControl(f);
    assert Putc(e, t, f) == EscHandle(e, t, f);
  }

  // ---- collecting ----

  const HUGE := 0x3FFF_FFFF_FFFF_FF00

  /** The buffer has not grown past need. */
  predicate Sized(s: Str) {
    s.siz <= STR_BUF_SIZ || s.siz <= 2 * |s.buf|
  }

  lemma PutFits(s: Str, b: seq<Byte>)
    requires Sized(s) && |s.buf| + |b| < HUGE
    ensures StrPut(s, b).buf == s.buf + b && StrPut(s, b).kind == s.kind && Sized(StrPut(s, b))
  {}

  lemma RawIsEncoded(t: Term, u: int)
    requires t.mode.utf8 && IsScalar(u)
    ensures RawBytes(t, u) == Encode(u)
  {
    if u < 127 { EncodeTable(u); }
  }

  /** Inside a string every rune that does not end it is stored as its bytes, and nothing else happens. */
  lemma {:induction false} StringCollects(e: Env, t: Term, us: seq<int>)
    requires t.esc.str && t.mode.utf8 && Sized(t.str) && |t.str.buf| + 4 * |us| < HUGE
    requires forall i :: 0 <= i < |us| ==> IsScalar(us[i]) && !EndsStr(us[i])
    ensures var u := Puts(e, t, us);
      u == t.(str := u.str) && u.str.buf == t.str.buf + EncodeAll(us) && u.str.kind == t.str.kind && Sized(u.str)
    decreases |us|
  {
    hide StrPut, Encode, Sized, RawBytes;
    if us == [] {
      assert t.str.buf + [] == t.str.buf;
    } else {
      RawIsEncoded(t, us[0]);
      PutFits(t.str, Encode(us[0]));
      var v := t.(str := StrPut(t.str, Encode(us[0])));
      CollectsOne(e, t, us[0]);
      hide Putc;
      StringCollects(e, v, us[1..]);
      assert t.str.buf + Encode(us[0]) + EncodeAll(us[1..]) == t.str.buf + EncodeAll(us);
    }
  }

  lemma CollectsOne(e: Env, t: Term, u: int)
    requires t.esc.str && !EndsStr(u)
    ensures Putc(e, t, u) == t.(str := StrPut(t.str, RawBytes(t, u)))
  {
    hide StrPut, RawBytes, Control, Escape, Print;
  }

  // ---- ending ----

  /** The string is handed over; a change of colours asks for a full redraw. */
  function HandedOver(e: Env, t: Term): Term {
    if e.recolours(t.str.kind, t.str.buf) then FullDirt(t) else t
  }

  lemma BellEnds(e: Env, t: Term)
    requires t.esc == IN_STRING
    ensures Puts(e, t, [0x07]) == HandedOver(e, t).(esc := NO_ESC, lastc := 0)
  {
    PutsOne(e, t, 0x07);
    hide MarkedRows, Escape, Print, StrPut;
    assert Low8(0x07) == 0x07 && IsControl(0x07) && !IsC1(0x07) && EndsStr(0x07);
    var v := t.(esc := t.esc.(start := false, str := false, strEnd := true));
    BellCode(e, v);
    hide ControlCode;
  }

  lemma BellCode(e: Env, t: Term)
    requires t.esc == NO_ESC.(strEnd := true)
    ensures ControlCode(e, t, 0x07) == HandedOver(e, t).(esc := NO_ESC)
  {
    hide MarkedRows, PutTab, MoveTo, NewLine, SetChar;
    assert ControlCode(e, t, 0x07) == EndStr(StrHandle(e, t));
  }

  lemma TerminatorEnds(e: Env, t: Term)
    requires t.esc == IN_STRING
    ensures Puts(e, t, [0x1b, 0x5c]) == HandedOver(e, t).(esc := NO_ESC, csi := NO_CSI)
  {
    hide MarkedRows, Putc;
    var v := t.(csi := NO_CSI, esc := NO_ESC.(start := true, strEnd := true));
    EscapeInString(e, t);
    BackslashEnds(e, v);
    PutsNext(e, t, 0x1b, [0x5c]);
    PutsOne(e, v, 0x5c);
    assert [0x1b] + [0x5c] == [0x1b, 0x5c];
  }

  lemma EscapeInString(e: Env, t: Term)
    requires t.esc == IN_STRING
    ensures Putc(e, t, 0x1b) == t.(csi := NO_CSI, esc := NO_ESC.(start := true, strEnd := true))
  {
    hide Print, Escape, StrHandle, NewLine, SetChar, PutTab, MoveTo, Send, StrPut;
    assert Low8(0x1b) == 0x1b && IsControl(0x1b) && !IsC1(0x1b) && EndsStr(0x1b);
    var v := t.(esc := t.esc.(start := false, str := false, strEnd := true));
    assert ControlCode(e, v, 0x1b) == v.(csi := NO_CSI, esc := NO_ESC.(start := true, strEnd := true));
  }

  lemma BackslashEnds(e: Env, t: Term)
    requires t.esc == NO_ESC.(start := true, strEnd := true)
    ensures Putc(e, t, 0x5c) == HandedOver(e, t).(esc := NO_ESC)
  {
    hide Print, CollectCsi, Control, ScrollUp, ScrollDown, Reset, NewLine, MarkedRows, StrPut;
    assert Low8(0x5c) == 0x5c && !IsControl(0x5c);
    assert EscHandle(e, t, 0x5c) == StrHandle(e, t);
  }

  /**
    * A whole string sequence, ended by BEL or ESC \: the handler gets the letter and exactly the bytes between,
    * and the screen, the cursor and the modes stay as they were.
    */
  lemma StringSequence(e: Env, t: Term, f: Byte, us: seq<int>, bell: bool) returns (s: Str)
    requires t.esc == NO_ESC && t.mode.utf8 && OpensString(f) && 4 * |us| < HUGE
    requires forall i :: 0 <= i < |us| ==> IsScalar(us[i]) && !EndsStr(us[i])
    ensures s.kind == f && s.buf == EncodeAll(us)
    ensures var u := Puts(e, t, [0x1b, f] + us + (if bell then [0x07] else [0x1b, 0x5c]));
      u == (if e.recolours(f, EncodeAll(us)) then FullDirt(t) else t).(csi := NO_CSI, str := s, lastc := u.lastc)
  {
    hide Putc, Puts, EncodeAll, MarkedRows;
    var end := if bell then [0x07] else [0x1b, 0x5c];
    var a := Puts(e, t, [0x1b, f]);
    StringOpens(e, t, f);
    StringCollects(e, a, us);
    var b := Puts(e, a, us);
    s := b.str;
    assert [] + EncodeAll(us) == EncodeAll(us);
    PutsAppend(e, t, [0x1b, f], us + end);
    PutsAppend(e, a, us, end);
    assert [0x1b, f] + us + end == [0x1b, f] + (us + end);
    if bell { BellEnds(e, b); } else { TerminatorEnds(e, b); }
  }
}
