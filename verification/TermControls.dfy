/** What each control code and two-byte escape does to the cursor, the lines and the tables. */
module TermControls {
  import opened Values
  import opened TermModel
  import opened TermInvariant
  import opened TermRun
  import opened TermLaws
  import opened TermBytes
  import opened TermMotion
  import opened TermEdits
  import opened TermTabs

  /** Nothing on the screen or about the cursor has changed. */
  predicate Unmoved(t: Term, u: Term) {
    u == t.(csi := u.csi, lastc := u.lastc)
  }

  // ---- the collector plays no part ----

  /** The same screen with the escape state and the collector given. */
  function Aside(t: Term, c: Csi, s: EscState): Term {
    t.(csi := c, esc := s)
  }

  lemma ClearAside(t: Term, x1: int, y1: int, x2: int, y2: int, c: Csi, s: EscState)
    ensures ClearRegion(Aside(t, c, s), x1, y1, x2, y2) == Aside(ClearRegion(t, x1, y1, x2, y2), c, s)
  {
    hide ClearedGrid, MarkedRows, Limit;
  }

  lemma ScrollAside(t: Term, orig: int, n: int, c: Csi, s: EscState)
    ensures ScrollUp(Aside(t, c, s), orig, n) == Aside(ScrollUp(t, orig, n), c, s)
  {
    hide ClearRegion, ShiftedUp, MarkedRows, RowAt, Limit;
    var k := Limit(n, 0, t.bot - orig + 1);
    ClearAside(t, 0, orig, t.col - 1, orig + k - 1, c, s);
  }

  // ---- single control codes ----

  lemma CodeDoes(e: Env, t: Term)
    ensures ControlCode(e, t, 0x08) == MoveTo(t, t.c.x - 1, t.c.y) && ControlCode(e, t, 0x0d) == MoveTo(t, 0, t.c.y)
    ensures ControlCode(e, t, 0x0e) == t.(charset := 1) && ControlCode(e, t, 0x0f) == t.(charset := 0)
    ensures forall c :: c in {0x0a, 0x0b, 0x0c} ==> ControlCode(e, t, c) == NewLine(t, t.mode.crlf)
    ensures forall c :: c in {0x00, 0x05, 0x11, 0x13, 0x7f} ==> ControlCode(e, t, c) == t
  {
    hide MoveTo, NewLine, PutTab, StrHandle, SetChar;
  }

  lemma CodePut(e: Env, t: Term, c: Byte)
    requires t.esc == NO_ESC && (IsC0(c) || (IsC1(c) && !t.mode.utf8))
    ensures Puts(e, t, [c]) == var v := ControlCode(e, t, c); if v.esc == NO_ESC then v.(lastc := 0) else v
  {
    hide ControlCode, Putc;
    PutsOne(e, t, c);
    ControlHandled(e, t, c);
  }

  /** Backspace and carriage return. */
  lemma ReturnMoves(e: Env, t: Term, back: bool)
    requires Inv(t) && t.esc == NO_ESC
    ensures var u := Puts(e, t, [if back then 0x08 else 0x0d]);
      CursorAt(t.(lastc := 0), u, if back then NotBefore(t.c.x - 1, 0) else 0, t.c.y)
  {
    hide Inv, ControlCode, Puts;
    Bounds(t);
    CodePut(e, t, if back then 0x08 else 0x0d);
    CodeDoes(e, t);
  }

  /** Shift out and shift in choose between the first two tables. */
  lemma ShiftChooses(e: Env, t: Term, out: bool)
    requires t.esc == NO_ESC
    ensures Puts(e, t, [if out then 0x0e else 0x0f]) == t.(charset := if out then 1 else 0, lastc := 0)
  {
    hide ControlCode, Puts;
    CodePut(e, t, if out then 0x0e else 0x0f);
    CodeDoes(e, t);
  }

  /** NUL, ENQ, XON, XOFF and DEL do nothing. */
  lemma IgnoredCodes(e: Env, t: Term, c: Byte)
    requires t.esc == NO_ESC && c in {0x00, 0x05, 0x11, 0x13, 0x7f}
    ensures Unmoved(t, Puts(e, t, [c]))
  {
    hide ControlCode, Puts;
    CodePut(e, t, c);
    CodeDoes(e, t);
  }

  /** In UTF-8 mode the eight-bit control codes are ignored. */
  lemma HighCodesIgnored(e: Env, t: Term, c: Byte)
    requires t.esc == NO_ESC && 0x80 <= c <= 0x9f && t.mode.utf8
    ensures Puts(e, t, [c]) == t
  {
    hide ControlCode;
    PutsOne(e, t, c);
  }

  /** SUB shows a question mark under the cursor, which stays. */
  lemma SubstituteShows(e: Env, t: Term)
    requires Inv(t) && t.esc == NO_ESC
    ensures var u := Puts(e, t, [0x1a]);
      u.c == t.c && u.line == PutRow(t.line, t.c.y, t.line[t.c.y][t.c.x := Glyph(0x3f, t.c.attr, false)])
  {
    Bounds(t);
    InvShape(t);
    CodePut(e, t, 0x1a);
    SubstituteCode(e, t);
    SetCharLine(t, 0x3f);
    assert Translate(t, 0x3f) == 0x3f;
    hide Inv, ControlCode, Puts, SetChar, PutRow, Translate, Shaped;
    assert SetChar(t, 0x3f, t.c.attr, t.c.x, t.c.y).c == t.c;
  }

  lemma SubstituteCode(e: Env, t: Term)
    ensures var s, u := SetChar(t, 0x3f, t.c.attr, t.c.x, t.c.y), ControlCode(e, t, 0x1a);
      u.line == s.line && u.c == t.c
  {}

  // ---- line feeds ----

  /** The cursor goes down a row, to column x; at the bottom margin the region scrolls instead. */
  ghost predicate FedLine(t: Term, u: Term, x: int) {
    if t.c.y == t.bot then
      u.c == t.c.(x := x, wrapNext := false) && RowsMove(t, u.(c := t.c, lastc := t.lastc, esc := t.esc), t.top, 1)
    else CursorAt(t, u.(lastc := t.lastc, esc := t.esc), x, NotPast(t.c.y + 1, LastRow(t)))
  }

  lemma NewLineFeeds(t: Term, first: bool)
    requires Inv(t)
    ensures FedLine(t, NewLine(t, first), if first then 0 else t.c.x)
  {
    Bounds(t);
    if t.c.y == t.bot { ScrollRows(t, t.top, 1); }
    ScrollOnly(t, t.top, 1);
    hide Inv, ScrollUp, Moves;
  }

  lemma FedOther(t: Term, u: Term, c: Csi, s: EscState, lastc: int, x: int)
    requires FedLine(t.(csi := c, esc := s), u, x)
    ensures FedLine(t, u.(lastc := lastc, esc := t.esc), x)
  {
    hide Moves;
  }

  lemma FedForgets(t: Term, u: Term, x: int)
    requires FedLine(t, u, x)
    ensures FedLine(t, u.(lastc := 0), x)
  {
    hide Moves;
  }

  /** Line feed, vertical tab and form feed; with newline mode on they return to the first column too. */
  lemma LineFeeds(e: Env, t: Term, c: Byte)
    requires Inv(t) && t.esc == NO_ESC && c in {0x0a, 0x0b, 0x0c}
    ensures FedLine(t, Puts(e, t, [c]), if t.mode.crlf then 0 else t.c.x)
  {
    hide Inv, ControlCode, Puts, FedLine;
    CodePut(e, t, c);
    CodeDoes(e, t);
    NewLineFeeds(t, t.mode.crlf);
    FedForgets(t, NewLine(t, t.mode.crlf), if t.mode.crlf then 0 else t.c.x);
    NewLineKeeps(t, t.mode.crlf);
  }

  lemma NewLineKeeps(t: Term, first: bool)
    ensures NewLine(t, first).esc == t.esc && NewLine(t, first).lastc == t.lastc
  {}

  // ---- escapes ----

  lemma IndexDoes(e: Env, t: Term)
    ensures EscHandle(e, t, 0x44) == if t.c.y == t.bot then ScrollUp(t, t.top, 1) else MoveTo(t, t.c.x, t.c.y + 1)
    ensures EscHandle(e, t, 0x4d) == if t.c.y == t.top then ScrollDown(t, t.top, 1) else MoveTo(t, t.c.x, t.c.y - 1)
  {
    hide NewLine, ScrollUp, ScrollDown, MoveTo, Reset, Send;
  }

  lemma EscapeDoes(e: Env, t: Term)
    ensures EscHandle(e, t, 0x45) == NewLine(t, true)
    ensures EscHandle(e, t, 0x5a) == Send(t, Identify) && EscHandle(e, t, 0x63) == Reset(e, t)
    ensures EscHandle(e, t, 0x6e) == t.(charset := 2) && EscHandle(e, t, 0x6f) == t.(charset := 3)
  {
    hide NewLine, ScrollUp, ScrollDown, MoveTo, Reset, Send;
  }

  const STARTED := NO_ESC.(start := true)

  lemma StartedInv(t: Term)
    requires Inv(t)
    ensures Inv(t.(csi := NO_CSI, esc := STARTED))
  {}

  /** ESC E: to the start of the next line. */
  lemma NextLine(e: Env, t: Term)
    requires Inv(t) && t.esc == NO_ESC
    ensures FedLine(t, Puts(e, t, [0x1b, 0x45]), 0)
  {
    hide Inv, Puts, EscHandle, FedLine;
    var v := t.(csi := NO_CSI, esc := STARTED);
    StartedInv(t);
    EscapeHandled(e, t, 0x45);
    EscapeDoes(e, v);
    NewLineFeeds(v, true);
    NewLineKeeps(v, true);
    FedOther(t, NewLine(v, true), NO_CSI, STARTED, t.lastc, 0);
  }

  /** ESC D: a row down, scrolling at the bottom margin. */
  lemma IndexMoves(e: Env, t: Term)
    requires Inv(t) && t.esc == NO_ESC
    ensures var u := Puts(e, t, [0x1b, 0x44]);
      if t.c.y == t.bot then RowsMove(t, u, t.top, 1)
      else CursorAt(t, u, t.c.x, NotPast(t.c.y + 1, LastRow(t)))
  {
    hide Inv, Puts, EscHandle, ScrollUp, ScrollDown, Moves;
    var v := t.(csi := NO_CSI, esc := STARTED);
    StartedInv(t);
    Bounds(t);
    EscapeHandled(e, t, 0x44);
    IndexDoes(e, v);
    if t.c.y == t.bot { ScrollRows(v, t.top, 1); }
  }

  /** ESC M: a row up, scrolling at the top margin. */
  lemma ReverseIndexMoves(e: Env, t: Term)
    requires Inv(t) && t.esc == NO_ESC
    ensures var u := Puts(e, t, [0x1b, 0x4d]);
      if t.c.y == t.top then RowsMove(t, u, t.top, -1)
      else CursorAt(t, u, t.c.x, NotBefore(t.c.y - 1, FirstRow(t)))
  {
    hide Inv, Puts, EscHandle, ScrollUp, ScrollDown, Moves;
    var v := t.(csi := NO_CSI, esc := STARTED);
    StartedInv(t);
    Bounds(t);
    EscapeHandled(e, t, 0x4d);
    IndexDoes(e, v);
    if t.c.y == t.top { ScrollRows(v, t.top, 1); }
  }

  /** Outside UTF-8 mode NEL, HTS and DECID are the escapes with the letter 0x40 below. */
  lemma HighCodes(e: Env, t: Term, c: Byte)
    requires t.esc == NO_ESC && !t.mode.utf8 && c in {0x85, 0x88, 0x9a}
    ensures Puts(e, t, [c]) == Puts(e, t, [0x1b, c - 0x40]).(csi := t.csi, lastc := 0)
  {
    hide ControlCode, EscHandle, Puts, NewLine;
    CodePut(e, t, c);
    EscapeHandled(e, t, c - 0x40);
    HighDoes(e, t);
    EscapeDoes(e, t.(csi := NO_CSI, esc := STARTED));
    StopEscaped(e, t.(csi := NO_CSI, esc := STARTED));
    NewLineKeeps(t, true);
    NewLineOther(t);
    hide SetTab, Send;
    assert t.(csi := NO_CSI, esc := STARTED) == Aside(t, NO_CSI, STARTED);
    HighOther(t);
  }

  lemma HighOther(t: Term)
    ensures SetTab(Aside(t, NO_CSI, STARTED), true) == Aside(SetTab(t, true), NO_CSI, STARTED)
    ensures Send(Aside(t, NO_CSI, STARTED), Identify) == Aside(Send(t, Identify), NO_CSI, STARTED)
    ensures SetTab(t, true).esc == t.esc && SetTab(t, true).csi == t.csi
    ensures Send(t, Identify).esc == t.esc && Send(t, Identify).csi == t.csi
    ensures NewLine(t, true).csi == t.csi
  {
    hide ScrollUp;
    ScrollOnly(t, t.top, 1);
  }

  lemma HighDoes(e: Env, t: Term)
    ensures ControlCode(e, t, 0x85) == EndStr(NewLine(t, true)) && ControlCode(e, t, 0x88) == EndStr(SetTab(t, true))
    ensures ControlCode(e, t, 0x9a) == EndStr(Send(t, Identify))
  {
    hide NewLine, SetTab, Send, EndStr;
  }

  lemma NewLineOther(t: Term)
    ensures NewLine(Aside(t, NO_CSI, STARTED), true) == Aside(NewLine(t, true), NO_CSI, STARTED)
  {
    hide ScrollUp;
    ScrollAside(t, t.top, 1, NO_CSI, STARTED);
    ScrollOnly(t, t.top, 1);
  }

  /** ESC n and ESC o choose the third and fourth table. */
  lemma LockChooses(e: Env, t: Term, third: bool)
    requires t.esc == NO_ESC
    ensures Puts(e, t, [0x1b, if third then 0x6e else 0x6f]) == t.(csi := NO_CSI, charset := if third then 2 else 3)
  {
    hide Puts, EscHandle;
    EscapeHandled(e, t, if third then 0x6e else 0x6f);
    EscapeDoes(e, t.(csi := NO_CSI, esc := STARTED));
  }

  // ---- printing in insert mode ----

  /** With room to the right, the cells from the cursor on move over and the rune goes in the gap. */
  lemma PrintInserts(e: Env, t: Term, u: int, x: int)
    requires Inv(t) && Width(e, t, u) == 1 && t.mode.insert && !(t.mode.wrap && t.c.wrapNext) && t.c.x + 1 < t.col
    requires 0 <= x < t.col
    ensures var v := Print(e, t, u);
      |v.line| == t.row && |v.line[t.c.y]| == t.col
      && (forall y :: 0 <= y < t.row && y != t.c.y ==> v.line[y] == t.line[y])
      && v.line[t.c.y][x] == (
        if x < t.c.x then t.line[t.c.y][x]
        else if x == t.c.x then Glyph(Translate(t, u), t.c.attr, false)
        else t.line[t.c.y][x - 1])
      && v.c == t.c.(x := t.c.x + 1, wrapNext := false)
  {
    Bounds(t);
    InvShape(t);
    var r := ShiftedRight(t.line[t.c.y], t.c.x, 1);
    var o := OpenCell(WrapLine(t), 1);
    assert o == t.(line := t.line[t.c.y := r]);
    var s := SetChar(o, u, t.c.attr, t.c.x, t.c.y).(lastc := u);
    assert s.line == t.line[t.c.y := r[t.c.x := Glyph(Translate(t, u), t.c.attr, false)]];
    hide SetChar, OpenCell, WrapLine, Width, Translate, Inv;
    assert Print(e, t, u) == Advance(s, 1);
  }
}
