/**
  * What every step of the terminal keeps: the cursor, the scroll region and the
  * collectors stay in bounds, and a row that looks different is marked dirty.
  */
module TermInvariant {
  import opened Values
  import opened TermModel

  predicate Shaped(s: Grid, row: int, col: int) {
    |s| == row && forall y :: 0 <= y < row ==> |s[y]| == col
  }

  predicate Screens(t: Term) {
    1 <= t.row && 1 <= t.col && Shaped(t.line, t.row, t.col) && Shaped(t.alt, t.row, t.col)
    && |t.dirty| == t.row && |t.tabs| == t.col
  }

  predicate Placed(t: Term) {
    0 <= t.c.x < t.col && 0 <= t.c.y < t.row && 0 <= t.top <= t.bot < t.row
    && (t.c.origin ==> t.top <= t.c.y <= t.bot)
  }

  predicate Collected(t: Term) {
    |t.csi.buf| <= ESC_BUF_SIZ - 1 && (t.esc.start ==> |t.csi.buf| < ESC_BUF_SIZ - 1)
    && |t.csi.arg| == ESC_ARG_SIZ && t.csi.narg <= ESC_ARG_SIZ
    && t.str.siz <= SIZE_MAX
    && (t.esc.str || t.esc.strEnd ==> STR_BUF_SIZ <= t.str.siz && |t.str.buf| < t.str.siz)
  }

  predicate Tables(t: Term) {
    |t.trantbl| == 4 && 0 <= t.charset < 4 && 0 <= t.icharset < 4
    && (t.lastc != 0 ==> !IsControl(t.lastc))
  }

  /** The run invariant. */
  predicate Inv(t: Term) {
    Screens(t) && Placed(t) && Collected(t) && Tables(t)
  }

  /** The same drawn text and attributes; the wrap mark is not drawn. */
  predicate SameLook(r: Row, r': Row) {
    |r| == |r'| && forall x :: 0 <= x < |r| ==> r[x].u == r'[x].u && r[x].attr == r'[x].attr
  }

  /** From t to t' the size and the last drawn cursor stay, and clean rows were clean and look the same. */
  predicate Quiet(t: Term, t': Term) {
    t.row == t'.row && t.col == t'.col && t.ocx == t'.ocx && t.ocy == t'.ocy
    && |t.line| == |t'.line| == |t.dirty| == |t'.dirty|
    && forall y :: 0 <= y < |t'.dirty| && !t'.dirty[y] ==> !t.dirty[y] && SameLook(t.line[y], t'.line[y])
  }

  /** One well-behaved step. */
  predicate Goes(t: Term, t': Term) {
    Inv(t') && Quiet(t, t')
  }

  lemma Stay(t: Term)
    requires Inv(t)
    ensures Goes(t, t)
  {}

  lemma Then(a: Term, b: Term, c: Term)
    requires Goes(a, b) && Goes(b, c)
    ensures Goes(a, c)
  {
    hide Inv;
  }

  // ---- one lemma per operation ----

  lemma DirtGoes(t: Term, a: int, b: int)
    requires Inv(t)
    ensures Goes(t, SetDirt(t, a, b))
  {}

  lemma ClearGoes(t: Term, x1: int, y1: int, x2: int, y2: int)
    requires Inv(t)
    ensures Goes(t, ClearRegion(t, x1, y1, x2, y2))
  {}

  lemma MoveGoes(t: Term, x: int, y: int)
    requires Screens(t) && Collected(t) && Tables(t) && 0 <= t.top <= t.bot < t.row
    ensures Goes(t, MoveTo(t, x, y))
  {}

  lemma SaveGoes(t: Term)
    requires Inv(t)
    ensures Goes(t, SaveCursor(t))
  {}

  lemma LoadGoes(t: Term)
    requires Inv(t)
    ensures Goes(t, LoadCursor(t))
  {}

  lemma SwapGoes(t: Term)
    requires Inv(t)
    ensures Goes(t, SwapScreen(t))
  {}

  /** Rows orig to bot are all dirty, so any change among them is tracked. */
  predicate Covered(t: Term, orig: int, bot: int) {
    |t.dirty| == t.row && forall y :: 0 <= y < t.row && orig <= y <= bot ==> t.dirty[y]
  }

  /** What the two scrolls do before they move lines. */
  function UpPrepared(t: Term, orig: int, k: int): Term {
    SetDirt(ClearRegion(t, 0, orig, t.col - 1, orig + k - 1), orig + k, t.bot)
  }

  function DownPrepared(t: Term, orig: int, k: int): Term {
    ClearRegion(SetDirt(t, orig, t.bot - k), 0, t.bot - k + 1, t.col - 1, t.bot)
  }

  lemma UpPreparedGoes(t: Term, orig: int, k: int)
    requires Inv(t) && 0 <= orig <= t.bot && 0 <= k <= t.bot - orig + 1
    ensures Goes(t, UpPrepared(t, orig, k)) && UpPrepared(t, orig, k).bot == t.bot
  {
    var v := ClearRegion(t, 0, orig, t.col - 1, orig + k - 1);
    ClearGoes(t, 0, orig, t.col - 1, orig + k - 1);
    DirtGoes(v, orig + k, t.bot);
    Then(t, v, SetDirt(v, orig + k, t.bot));
  }

  lemma DownPreparedGoes(t: Term, orig: int, k: int)
    requires Inv(t) && 0 <= orig <= t.bot && 0 <= k <= t.bot - orig + 1
    ensures Goes(t, DownPrepared(t, orig, k)) && DownPrepared(t, orig, k).bot == t.bot
  {
    var v := SetDirt(t, orig, t.bot - k);
    DirtGoes(t, orig, t.bot - k);
    ClearGoes(v, 0, t.bot - k + 1, t.col - 1, t.bot);
    Then(t, v, ClearRegion(v, 0, t.bot - k + 1, t.col - 1, t.bot));
  }

  lemma PreparedCovered(t: Term, orig: int, k: int)
    requires Inv(t) && 0 <= orig <= t.bot && 0 <= k <= t.bot - orig + 1
    ensures Covered(UpPrepared(t, orig, k), orig, t.bot) && Covered(DownPrepared(t, orig, k), orig, t.bot)
  {}

  lemma ShiftUpGoes(t: Term, orig: int, k: int)
    requires Inv(t) && 0 <= orig <= t.bot && 0 <= k <= t.bot - orig + 1 && Covered(t, orig, t.bot)
    ensures Goes(t, t.(line := ShiftedUp(t.line, orig, t.bot, k, RowAt(t.line, orig))))
  {
    var s := ShiftedUp(t.line, orig, t.bot, k, RowAt(t.line, orig));
    assert Shaped(s, t.row, t.col);
    forall y | 0 <= y < t.row && !t.dirty[y]
      ensures s[y] == t.line[y]
    {
      assert !(orig <= y <= t.bot);
    }
  }

  lemma ShiftDownGoes(t: Term, orig: int, k: int)
    requires Inv(t) && 0 <= orig <= t.bot && 0 <= k <= t.bot - orig + 1 && Covered(t, orig, t.bot)
    ensures Goes(t, t.(line := ShiftedDown(t.line, orig, t.bot, k, RowAt(t.line, t.bot))))
  {
    var s := ShiftedDown(t.line, orig, t.bot, k, RowAt(t.line, t.bot));
    assert Shaped(s, t.row, t.col);
    forall y | 0 <= y < t.row && !t.dirty[y]
      ensures s[y] == t.line[y]
    {
      assert !(orig <= y <= t.bot);
    }
  }

  lemma GoesInv(t: Term, t': Term)
    requires Goes(t, t')
    ensures Inv(t') && t'.row == t.row && t'.col == t.col
  {}

  lemma ScrollUpGoes(t: Term, orig: int, n: int)
    requires Inv(t) && 0 <= orig <= t.bot
    ensures Goes(t, ScrollUp(t, orig, n))
  {
    hide ClearRegion, SetDirt, Goes, Quiet, Inv, Covered, ShiftedUp, RowAt;
    var k := Limit(n, 0, t.bot - orig + 1);
    var u := UpPrepared(t, orig, k);
    UpPreparedGoes(t, orig, k);
    PreparedCovered(t, orig, k);
    GoesInv(t, u);
    ShiftUpGoes(u, orig, k);
    Then(t, u, ScrollUp(t, orig, n));
  }

  lemma ScrollDownGoes(t: Term, orig: int, n: int)
    requires Inv(t) && 0 <= orig <= t.bot
    ensures Goes(t, ScrollDown(t, orig, n))
  {
    hide ClearRegion, SetDirt, Goes, Quiet, Inv, Covered, ShiftedDown, RowAt;
    var k := Limit(n, 0, t.bot - orig + 1);
    var u := DownPrepared(t, orig, k);
    DownPreparedGoes(t, orig, k);
    PreparedCovered(t, orig, k);
    GoesInv(t, u);
    ShiftDownGoes(u, orig, k);
    Then(t, u, ScrollDown(t, orig, n));
  }

  lemma NewLineGoes(t: Term, first: bool)
    requires Inv(t)
    ensures Goes(t, NewLine(t, first))
  {
    hide ScrollUp, MoveTo;
    Stay(t);
    ScrollUpGoes(t, t.top, 1);
    var u := if t.c.y == t.bot then ScrollUp(t, t.top, 1) else t;
    var x, y := if first then 0 else t.c.x, if t.c.y == t.bot then t.c.y else t.c.y + 1;
    MoveGoes(u, x, y);
    Then(t, u, MoveTo(u, x, y));
  }

  lemma DeleteCharGoes(t: Term, n: int)
    requires Inv(t)
    ensures Goes(t, DeleteChar(t, n))
  {}

  lemma InsertBlankGoes(t: Term, n: int)
    requires Inv(t)
    ensures Goes(t, InsertBlank(t, n))
  {}

  lemma SetCharGoes(t: Term, u: int, attr: Attr, x: int, y: int)
    requires Inv(t)
    ensures Goes(t, SetChar(t, u, attr, x, y))
  {}

  lemma DecTestGoes(t: Term, c: Byte)
    requires Inv(t)
    ensures Goes(t, DecTest(t, c))
  {}

  lemma PutTabGoes(t: Term, n: int)
    requires Inv(t)
    ensures Goes(t, PutTab(t, n))
  {}

  // ---- reset, modes and CSI ----

  lemma HomeGoes(e: Env, t: Term)
    requires Inv(t)
    ensures Goes(t, Home(e, t))
  {}

  lemma ResetScreenGoes(t: Term)
    requires Inv(t)
    ensures Goes(t, ResetScreen(t))
  {
    hide MoveTo, SaveCursor, ClearRegion, SwapScreen, Goes, Quiet, Placed, Collected, Tables, Shaped;
    var a := MoveTo(t, 0, 0);
    MoveGoes(t, 0, 0) by { assert 0 <= t.top <= t.bot < t.row by { PlacedRegion(t); } }
    GoesInv(t, a);
    SaveGoes(a);
    var b := SaveCursor(a);
    Then(t, a, b);
    GoesInv(t, b);
    ClearGoes(b, 0, 0, t.col - 1, t.row - 1);
    var c := ClearRegion(b, 0, 0, t.col - 1, t.row - 1);
    Then(t, b, c);
    GoesInv(t, c);
    SwapGoes(c);
    Then(t, c, SwapScreen(c));
  }

  lemma PlacedRegion(t: Term)
    requires Placed(t)
    ensures 0 <= t.top <= t.bot < t.row
  {}

  lemma ResetGoes(e: Env, t: Term)
    requires Inv(t)
    ensures Goes(t, Reset(e, t))
  {
    hide Home, ResetScreen, Goes, Inv;
    var a := Home(e, t);
    HomeGoes(e, t);
    GoesInv(t, a);
    ResetScreenGoes(a);
    Then(t, a, ResetScreen(a));
    GoesInv(t, ResetScreen(a));
    ResetScreenGoes(ResetScreen(a));
    Then(t, ResetScreen(a), Reset(e, t));
  }

  lemma SaveOrLoadGoes(t: Term, save: bool)
    requires Inv(t)
    ensures Goes(t, SaveOrLoad(t, save))
  {
    hide SaveCursor, LoadCursor, Goes, Inv;
    SaveGoes(t);
    LoadGoes(t);
  }

  lemma AltScreenGoes(t: Term, set_: bool)
    requires Inv(t)
    ensures Goes(t, AltScreen(t, set_))
  {
    hide ClearRegion, SwapScreen, Goes, Inv;
    Stay(t);
    ClearGoes(t, 0, 0, t.col - 1, t.row - 1);
    var u := if t.mode.alt then ClearRegion(t, 0, 0, t.col - 1, t.row - 1) else t;
    GoesInv(t, u);
    SwapGoes(u);
    Then(t, u, SwapScreen(u));
  }

  lemma OriginGoes(t: Term, on: bool)
    requires Inv(t)
    ensures Goes(t, MoveATo(t.(c := t.c.(origin := on)), 0, 0))
  {}

  lemma RegionGoes(t: Term, a: int, b: int)
    requires Inv(t)
    ensures Goes(t, MoveATo(SetScroll(t, a, b), 0, 0))
  {}

  lemma MoveAGoes(t: Term, x: int, y: int)
    requires Inv(t)
    ensures Goes(t, MoveATo(t, x, y))
  {}

  lemma ModeGoes(t: Term, m: Mode)
    requires Inv(t)
    ensures Goes(t, t.(mode := m))
  {}

  lemma SetPrivateGoes(e: Env, t: Term, set_: bool, arg: int)
    requires Inv(t)
    ensures Goes(t, SetPrivate(e, t, set_, arg))
  {
    hide MoveATo, SaveOrLoad, AltScreen, Goes, Inv;
    Stay(t);
    OriginGoes(t, set_);
    ModeGoes(t, t.mode.(wrap := set_));
    AltScreenGoes(t, set_);
    SaveOrLoadGoes(t, set_);
    var a := SaveOrLoad(t, set_);
    GoesInv(t, a);
    AltScreenGoes(a, set_);
    var b := AltScreen(a, set_);
    Then(t, a, b);
    GoesInv(t, b);
    SaveOrLoadGoes(b, set_);
    Then(t, b, SaveOrLoad(b, set_));
  }

  lemma SetPublicGoes(t: Term, set_: bool, arg: int)
    requires Inv(t)
    ensures Goes(t, SetPublic(t, set_, arg))
  {
    hide Goes, Inv;
    Stay(t);
    ModeGoes(t, t.mode.(insert := set_));
    ModeGoes(t, t.mode.(echo := !set_));
    ModeGoes(t, t.mode.(crlf := set_));
  }

  lemma {:induction false} SetModesGoes(e: Env, t: Term, priv: bool, set_: bool, args: seq<int>)
    requires Inv(t)
    ensures Goes(t, SetModes(e, t, priv, set_, args))
    decreases |args|
  {
    hide SetPrivate, SetPublic, Goes, Inv;
    Stay(t);
    if args == [] {
    } else {
      SetPrivateGoes(e, t, set_, args[0]);
      SetPublicGoes(t, set_, args[0]);
      var u := if priv then SetPrivate(e, t, set_, args[0]) else SetPublic(t, set_, args[0]);
      GoesInv(t, u);
      SetModesGoes(e, u, priv, set_, args[1..]);
      Then(t, u, SetModes(e, u, priv, set_, args[1..]));
    }
  }

  lemma EraseDisplayGoes(t: Term, how: int)
    requires Inv(t)
    ensures Goes(t, EraseDisplay(t, how))
  {
    hide ClearRegion, Goes, Inv;
    Stay(t);
    ClearGoes(t, 0, 0, t.col - 1, t.row - 1);
    ClearGoes(t, t.c.x, t.c.y, t.col - 1, t.c.y);
    ClearGoes(t, 0, 0, t.col - 1, t.c.y - 1);
    var a := ClearRegion(t, t.c.x, t.c.y, t.col - 1, t.c.y);
    GoesInv(t, a);
    ClearGoes(a, 0, t.c.y + 1, t.col - 1, t.row - 1);
    Then(t, a, ClearRegion(a, 0, t.c.y + 1, t.col - 1, t.row - 1));
    var b := if t.c.y > 1 then ClearRegion(t, 0, 0, t.col - 1, t.c.y - 1) else t;
    GoesInv(t, b);
    ClearGoes(b, 0, t.c.y, t.c.x, t.c.y);
    Then(t, b, ClearRegion(b, 0, t.c.y, t.c.x, t.c.y));
  }

  lemma EraseLineGoes(t: Term, how: int)
    requires Inv(t)
    ensures Goes(t, EraseLine(t, how))
  {
    hide ClearRegion, Goes, Inv;
    Stay(t);
    ClearGoes(t, t.c.x, t.c.y, t.col - 1, t.c.y);
    ClearGoes(t, 0, t.c.y, t.c.x, t.c.y);
    ClearGoes(t, 0, t.c.y, t.col - 1, t.c.y);
  }

  lemma SendGoes(t: Term, r: Reply)
    requires Inv(t)
    ensures Goes(t, Send(t, r))
  {}

  lemma SetTabGoes(t: Term, on: bool)
    requires Inv(t)
    ensures Goes(t, SetTab(t, on))
  {}

  lemma ClearTabsGoes(t: Term)
    requires Inv(t)
    ensures Goes(t, ClearTabs(t))
  {}

  lemma LineOpsGo(t: Term, n: int)
    requires Inv(t)
    ensures Goes(t, InsertBlankLine(t, n)) && Goes(t, DeleteLine(t, n))
    ensures Goes(t, ScrollUp(t, t.top, n)) && Goes(t, ScrollDown(t, t.top, n))
  {
    hide ScrollUp, ScrollDown, Goes, Screens, Collected, Tables;
    Stay(t);
    ScrollUpGoes(t, t.top, n);
    ScrollDownGoes(t, t.top, n);
    if t.top <= t.c.y <= t.bot {
      ScrollUpGoes(t, t.c.y, n);
      ScrollDownGoes(t, t.c.y, n);
    }
  }

  lemma AttrGoes(t: Term, a: Attr)
    requires Inv(t)
    ensures Goes(t, t.(c := t.c.(attr := a)))
  {}

  // ---- printing ----

  lemma WrapMarkGoes(t: Term)
    requires Inv(t)
    ensures Goes(t, t.(line := PutRow(t.line, t.c.y,
      PutCell(RowAt(t.line, t.c.y), t.c.x, CellAt(t.line, t.c.x, t.c.y).(wrap := true)))))
  {}

  lemma WrapLineGoes(t: Term)
    requires Inv(t)
    ensures Goes(t, WrapLine(t))
  {
    hide NewLine, Goes, Inv, PutRow, PutCell, RowAt, CellAt;
    Stay(t);
    WrapMarkGoes(t);
    var u := t.(line := PutRow(t.line, t.c.y,
      PutCell(RowAt(t.line, t.c.y), t.c.x, CellAt(t.line, t.c.x, t.c.y).(wrap := true))));
    GoesInv(t, u);
    NewLineGoes(u, true);
    Then(t, u, NewLine(u, true));
  }

  /** Opening a gap leaves its row unmarked, but the rune that fills it marks that row. */
  lemma OpenAndSetGoes(t: Term, w: int, u: int)
    requires Inv(t) && !IsControl(u)
    ensures var v := OpenCell(t, w);
      Goes(t, SetChar(v, u, v.c.attr, v.c.x, v.c.y).(lastc := u))
  {}

  lemma AdvanceGoes(t: Term, w: int)
    requires Inv(t)
    ensures Goes(t, Advance(t, w))
  {}

  lemma PrintGoes(e: Env, t: Term, u: int)
    requires Inv(t) && !IsControl(u) && Narrow(e)
    ensures Goes(t, Print(e, t, u))
  {
    hide WrapLine, OpenCell, SetChar, Advance, Goes, Inv, Width;
    var w := Width(e, t, u);
    var a := WrapLine(t);
    WrapLineGoes(t);
    GoesInv(t, a);
    OpenAndSetGoes(a, w, u);
    var v := OpenCell(a, w);
    var b := SetChar(v, u, v.c.attr, v.c.x, v.c.y).(lastc := u);
    Then(t, a, b);
    GoesInv(t, b);
    AdvanceGoes(b, w);
    Then(t, b, Advance(b, w));
  }

  lemma InvLast(t: Term)
    requires Inv(t)
    ensures t.lastc != 0 ==> !IsControl(t.lastc)
  {}

  lemma PrintLast(e: Env, t: Term, u: int)
    ensures Print(e, t, u).lastc == u
  {}

  lemma {:induction false} RepeatGoes(e: Env, t: Term, n: int)
    requires Inv(t) && t.lastc != 0 && Narrow(e)
    ensures Goes(t, Repeat(e, t, n))
    decreases n
  {
    hide Print, Goes, Inv;
    Stay(t);
    if n <= 0 {
    } else {
      InvLast(t);
      var u := Print(e, t, t.lastc);
      PrintGoes(e, t, t.lastc);
      PrintLast(e, t, t.lastc);
      GoesInv(t, u);
      RepeatGoes(e, u, n - 1);
      Then(t, u, Repeat(e, u, n - 1));
    }
  }

  lemma CsiHandleGoes(e: Env, t: Term)
    requires Inv(t) && Narrow(e)
    ensures Goes(t, CsiHandle(e, t))
  {
    hide Goes, Inv, MoveTo, MoveATo, InsertBlank, DeleteChar, PutTab, EraseDisplay, EraseLine, ClearTabs, Repeat;
    hide ScrollUp, ScrollDown, InsertBlankLine, DeleteLine, SetModes, ClearRegion, Send, SetScroll, SaveCursor,
      LoadCursor;
    hide Limit, Default, Arg0, Arg1, Min;
    var n := Default(Arg0(t), 1);
    Stay(t);
    forall x, y ensures Goes(t, MoveTo(t, x, y)) { MoveFrom(t, x, y); }
    forall x, y ensures Goes(t, MoveATo(t, x, y)) { MoveAGoes(t, x, y); }
    forall k ensures Goes(t, PutTab(t, k)) { PutTabGoes(t, k); }
    forall r ensures Goes(t, Send(t, r)) { SendGoes(t, r); }
    forall on, args ensures Goes(t, SetModes(e, t, t.csi.priv, on, args)) { SetModesGoes(e, t, t.csi.priv, on, args); }
    InsertBlankGoes(t, n);
    DeleteCharGoes(t, n);
    EraseDisplayGoes(t, Arg0(t));
    EraseLineGoes(t, Arg0(t));
    ClearTabsGoes(t);
    LineOpsGo(t, n);
    ClearGoes(t, t.c.x, t.c.y, t.c.x + n - 1, t.c.y);
    SaveGoes(t);
    LoadGoes(t);
    ModeGoes(t, t.mode.(printer := false));
    ModeGoes(t, t.mode.(printer := true));
    RegionGoes(t, n - 1, Default(Arg1(t), t.row) - 1);
    AttrGoes(t, e.sgr(t.c.attr, t.csi.arg[..Min(t.csi.narg, |t.csi.arg|)])) by { MinLe(t.csi.narg, |t.csi.arg|); }
    if t.lastc != 0 { RepeatGoes(e, t, Limit(Arg0(t), 1, 65535)); }
  }

  lemma MinLe(a: nat, b: nat)
    ensures 0 <= Min(a, b) <= b
  {}

  lemma MoveFrom(t: Term, x: int, y: int)
    requires Inv(t)
    ensures Goes(t, MoveTo(t, x, y))
  {
    MoveGoes(t, x, y);
  }

  // ---- escape sequences ----

  lemma EndStrGoes(t: Term)
    requires Inv(t)
    ensures Goes(t, EndStr(t))
  {}

  lemma StrHandleGoes(e: Env, t: Term)
    requires Inv(t)
    ensures Goes(t, StrHandle(e, t))
  {}

  lemma StrSequenceGoes(t: Term, c: Byte)
    requires Inv(t)
    ensures Goes(t, StrSequence(t, c))
  {}

  lemma FreshEscGoes(t: Term)
    requires Inv(t)
    ensures Goes(t, t.(csi := NO_CSI, esc := t.esc.(csi := false, altCharset := false, test := false, start := true)))
    ensures Goes(t, t.(csi := NO_CSI))
  {}

  lemma CharsetGoes(t: Term, k: int)
    requires Inv(t) && 0 <= k < 4
    ensures Goes(t, t.(charset := k))
    ensures Goes(t, t.(icharset := k, esc := t.esc.(altCharset := true)))
  {}

  lemma FlagGoes(t: Term)
    requires Inv(t)
    ensures Goes(t, t.(esc := t.esc.(csi := true))) && Goes(t, t.(esc := t.esc.(test := true)))
    ensures Goes(t, t.(esc := t.esc.(utf8 := true))) && Goes(t, t.(esc := NO_ESC)) && Goes(t, t.(lastc := 0))
    ensures t.esc.str ==> Goes(t, t.(esc := t.esc.(start := false, str := false, strEnd := true)))
  {}

  lemma EndAfter(t: Term, u: Term)
    requires Goes(t, u)
    ensures Goes(t, EndStr(u)) && Goes(t, u.(esc := NO_ESC)) && Goes(t, u.(lastc := 0))
      && Goes(t, EndStr(u.(csi := NO_CSI)))
  {
    hide EndStr, Goes, Inv;
    GoesInv(t, u);
    EndStrGoes(u);
    Then(t, u, EndStr(u));
    FlagGoes(u);
    Then(t, u, u.(esc := NO_ESC));
    Then(t, u, u.(lastc := 0));
    FreshEscGoes(u);
    var v := u.(csi := NO_CSI);
    Then(t, u, v);
    GoesInv(t, v);
    EndStrGoes(v);
    Then(t, v, EndStr(v));
  }

  lemma ControlCodeGoes(e: Env, t: Term, c: Byte)
    requires Inv(t)
    ensures Goes(t, ControlCode(e, t, c))
  {
    hide Goes, Inv, MoveTo, PutTab, NewLine, EndStr, StrHandle, SetChar, SetTab, Send, StrSequence;
    Stay(t);
    PutTabGoes(t, 1);
    MoveFrom(t, t.c.x - 1, t.c.y);
    MoveFrom(t, 0, t.c.y);
    NewLineGoes(t, t.mode.crlf);
    NewLineGoes(t, true);
    StrHandleGoes(e, t);
    FreshEscGoes(t);
    CharsetGoes(t, 0);
    CharsetGoes(t, 1);
    SetCharGoes(t, 0x3f, t.c.attr, t.c.x, t.c.y);
    SetTabGoes(t, true);
    SendGoes(t, Identify);
    StrSequenceGoes(t, c);
    forall u | Goes(t, u)
      ensures Goes(t, EndStr(u)) && Goes(t, EndStr(u.(csi := NO_CSI)))
    {
      EndAfter(t, u);
    }
  }

  lemma EscHandleGoes(e: Env, t: Term, c: Byte)
    requires Inv(t)
    ensures Goes(t, EscHandle(e, t, c))
  {
    hide Goes, Inv, MoveTo, NewLine, StrHandle, SetTab, Send, StrSequence, ScrollUp, ScrollDown, Reset, SaveCursor,
      LoadCursor;
    Stay(t);
    FlagGoes(t);
    StrSequenceGoes(t, c);
    CharsetGoes(t, 0);
    CharsetGoes(t, 1);
    CharsetGoes(t, 2);
    CharsetGoes(t, 3);
    LineOpsGo(t, 1);
    MoveFrom(t, t.c.x, t.c.y + 1);
    MoveFrom(t, t.c.x, t.c.y - 1);
    NewLineGoes(t, true);
    SetTabGoes(t, true);
    SendGoes(t, Identify);
    ResetGoes(e, t);
    SaveGoes(t);
    LoadGoes(t);
    StrHandleGoes(e, t);
  }

  lemma DefGoes(e: Env, t: Term, c: Byte)
    requires Inv(t)
    ensures Goes(t, DefUtf8(t, c)) && Goes(t, DefTran(e, t, c))
  {}

  /** Parsing keeps the argument array at its fixed size. */
  lemma CsiParsed(c: Csi)
    requires |c.arg| == ESC_ARG_SIZ && c.narg <= ESC_ARG_SIZ
    ensures var p := CsiParse(c); p.buf == c.buf && |p.arg| == ESC_ARG_SIZ && p.narg <= ESC_ARG_SIZ
  {}

  lemma CollectGoes(e: Env, t: Term, u: int)
    requires Inv(t) && t.esc.start && Narrow(e)
    ensures Goes(t, CollectCsi(e, t, u))
  {
    hide CsiHandle, CsiParse, Quiet, Screens, Placed, Tables;
    var v := t.(csi := t.csi.(buf := t.csi.buf + [Low8(u)]));
    CsiParsed(v.csi);
    if 0x40 <= u <= 0x7e || |v.csi.buf| >= ESC_BUF_SIZ - 1 {
      var w := v.(esc := NO_ESC, csi := CsiParse(v.csi));
      CollectorGoes(t, w);
      CsiHandleGoes(e, w);
      Then(t, w, CsiHandle(e, w));
    } else {
      CollectorGoes(t, v);
    }
  }

  lemma CollectorGoes(t: Term, t': Term)
    requires Inv(t) && Collected(t') && t' == t.(csi := t'.csi, esc := t'.esc)
    ensures Goes(t, t')
  {}

  lemma EscapeGoes(e: Env, t: Term, u: int)
    requires Inv(t) && t.esc.start && Narrow(e)
    ensures Goes(t, Escape(e, t, u))
  {
    hide Goes, Inv, CollectCsi, DefUtf8, DefTran, DecTest, EscHandle;
    CollectGoes(e, t, u);
    DefGoes(e, t, Low8(u));
    DecTestGoes(t, Low8(u));
    EscHandleGoes(e, t, Low8(u));
    EndAfter(t, DefUtf8(t, Low8(u)));
    EndAfter(t, DefTran(e, t, Low8(u)));
    EndAfter(t, DecTest(t, Low8(u)));
    EndAfter(t, EscHandle(e, t, Low8(u)));
  }

  lemma ControlGoes(e: Env, t: Term, u: int)
    requires Inv(t)
    ensures Goes(t, Control(e, t, u))
  {
    hide Goes, Inv, ControlCode;
    Stay(t);
    ControlCodeGoes(e, t, Low8(u));
    EndAfter(t, ControlCode(e, t, Low8(u)));
  }

  lemma StrPutGoes(t: Term, b: seq<Byte>)
    requires Inv(t) && t.esc.str && |b| <= 4
    ensures Goes(t, t.(str := StrPut(t.str, b)))
  {}

  /** Every rune, in every state, keeps the invariant and marks every row it changes. */
  lemma PutcGoes(e: Env, t: Term, u: int)
    requires Inv(t) && Narrow(e)
    ensures Goes(t, Putc(e, t, u))
  {
    hide Goes, Inv, Control, Escape, Print, RawBytes, StrPut;
    if t.esc.str && !EndsStr(u) {
      StrPutGoes(t, RawBytes(t, u));
    } else {
      Stay(t);
      FlagGoes(t);
      var v := if t.esc.str then t.(esc := t.esc.(start := false, str := false, strEnd := true)) else t;
      GoesInv(t, v);
      ControlGoes(e, v, u);
      if IsControl(u) { Then(t, v, Control(e, v, u)); }
      else if v.esc.start { EscapeGoes(e, v, u); Then(t, v, Escape(e, v, u)); }
      else { PrintGoes(e, v, u); Then(t, v, Print(e, v, u)); }
    }
  }
}
