/**
  * What the editing sequences, as a program writes them, do to the cells: erasing,
  * inserting and deleting cells and lines, and scrolling.
  */
module TermEdits {
  import opened Values
  import opened TermModel
  import opened TermInvariant
  import opened TermRun
  import opened TermLaws
  import opened TermBytes
  import opened TermMotion

  /** A space in the cursor's colours, with no attribute and no wrap mark. */
  function Space(t: Term): Glyph {
    Glyph(0x20, Attr(0, t.c.attr.fg, t.c.attr.bg), false)
  }

  /** Exactly the cells of the area are spaces in the cursor's colours, and the cursor and the rest are as before. */
  ghost predicate Erases(t: Term, u: Term, area: (int, int) -> bool) {
    Shaped(u.line, t.row, t.col) && Shaped(t.line, t.row, t.col)
    && u == t.(line := u.line, dirty := u.dirty, csi := u.csi)
    && |u.dirty| == |t.dirty|
    && forall x, y :: 0 <= x < t.col && 0 <= y < t.row ==>
      u.line[y][x] == if area(x, y) then Space(t) else t.line[y][x]
  }

  lemma ClearErases(t: Term, x1: int, y1: int, x2: int, y2: int)
    requires Screens(t) && 0 <= x1 <= x2 && x1 < t.col && 0 <= y1 <= y2 < t.row
    ensures Erases(t, ClearRegion(t, x1, y1, x2, y2), (x, y) => x1 <= x <= x2 && y1 <= y <= y2)
  {}

  lemma ErasesBoth(t: Term, u: Term, v: Term, a: (int, int) -> bool, b: (int, int) -> bool)
    requires Erases(t, u, a) && Erases(u, v, b)
    ensures Erases(t, v, (x, y) => a(x, y) || b(x, y))
  {
    assert Space(u) == Space(t);
    hide Space;
  }

  lemma ErasesSame(t: Term, u: Term, a: (int, int) -> bool, b: (int, int) -> bool)
    requires Erases(t, u, a) && forall x, y :: 0 <= x < t.col && 0 <= y < t.row ==> a(x, y) == b(x, y)
    ensures Erases(t, u, b)
  {
    hide Space;
    forall x, y | 0 <= x < t.col && 0 <= y < t.row
      ensures u.line[y][x] == if b(x, y) then Space(t) else t.line[y][x]
    {
      assert a(x, y) == b(x, y);
    }
  }

  /** The cells that erase in display takes: from the cursor on, up to it, or all. */
  function DisplayArea(t: Term, how: nat): (int, int) -> bool {
    if how == 0 then (x, y) => y > t.c.y || (y == t.c.y && x >= t.c.x)
    else if how == 1 then (x, y) => (y < t.c.y && t.c.y > 1) || (y == t.c.y && x <= t.c.x)
    else if how == 2 then (x, y) => true
    else (x, y) => false
  }

  /** The cells that erase in line takes. */
  function LineArea(t: Term, how: nat): (int, int) -> bool {
    if how == 0 then (x, y) => y == t.c.y && x >= t.c.x
    else if how == 1 then (x, y) => y == t.c.y && x <= t.c.x
    else if how == 2 then (x, y) => y == t.c.y
    else (x, y) => false
  }

  lemma DisplayErases(t: Term, how: nat)
    requires Inv(t)
    ensures Erases(t, EraseDisplay(t, how), DisplayArea(t, how))
  {
    InvShape(t);
    hide Inv, Blank, Shaped;
    var u := EraseDisplay(t, how);
    if how == 0 {
      BelowErases(t);
    } else if how == 1 {
      AboveErases(t);
    } else if how == 2 {
      ClearErases(t, 0, 0, t.col - 1, t.row - 1);
      ErasesSame(t, u, (x, y) => 0 <= x <= t.col - 1 && 0 <= y <= t.row - 1, DisplayArea(t, how));
    } else {
      NothingErased(t);
      ErasesSame(t, u, (x, y) => false, DisplayArea(t, how));
    }
  }

  lemma NothingErased(t: Term)
    requires Screens(t)
    ensures Erases(t, t, (x, y) => false)
  {}

  lemma BelowErases(t: Term)
    requires Screens(t) && 0 <= t.c.x < t.col && 0 <= t.c.y < t.row
    ensures Erases(t, EraseDisplay(t, 0), DisplayArea(t, 0))
  {
    hide ClearRegion, Blank, Shaped;
    var u := ClearRegion(t, t.c.x, t.c.y, t.col - 1, t.c.y);
    var a: (int, int) -> bool := (x, y) => t.c.x <= x <= t.col - 1 && t.c.y <= y <= t.c.y;
    ClearErases(t, t.c.x, t.c.y, t.col - 1, t.c.y);
    if t.c.y < t.row - 1 {
      var b: (int, int) -> bool := (x, y) => 0 <= x <= t.col - 1 && t.c.y + 1 <= y <= t.row - 1;
      ErasesScreens(t, u, a);
      ClearErases(u, 0, t.c.y + 1, t.col - 1, t.row - 1);
      ErasesBoth(t, u, EraseDisplay(t, 0), a, b);
      ErasesSame(t, EraseDisplay(t, 0), (x, y) => a(x, y) || b(x, y), DisplayArea(t, 0));
    } else {
      ErasesSame(t, u, a, DisplayArea(t, 0));
    }
  }

  lemma AboveErases(t: Term)
    requires Screens(t) && 0 <= t.c.x < t.col && 0 <= t.c.y < t.row
    ensures Erases(t, EraseDisplay(t, 1), DisplayArea(t, 1))
  {
    hide ClearRegion, Blank, Shaped;
    var b: (int, int) -> bool := (x, y) => 0 <= x <= t.c.x && t.c.y <= y <= t.c.y;
    if t.c.y > 1 {
      var u := ClearRegion(t, 0, 0, t.col - 1, t.c.y - 1);
      var a: (int, int) -> bool := (x, y) => 0 <= x <= t.col - 1 && 0 <= y <= t.c.y - 1;
      ClearErases(t, 0, 0, t.col - 1, t.c.y - 1);
      ErasesScreens(t, u, a);
      ClearErases(u, 0, t.c.y, t.c.x, t.c.y);
      ErasesBoth(t, u, EraseDisplay(t, 1), a, b);
      ErasesSame(t, EraseDisplay(t, 1), (x, y) => a(x, y) || b(x, y), DisplayArea(t, 1));
    } else {
      ClearErases(t, 0, t.c.y, t.c.x, t.c.y);
      ErasesSame(t, EraseDisplay(t, 1), b, DisplayArea(t, 1));
    }
  }

  lemma ErasesScreens(t: Term, u: Term, a: (int, int) -> bool)
    requires Erases(t, u, a) && Screens(t)
    ensures Screens(u) && u.c == t.c && u.col == t.col && u.row == t.row
  {}

  lemma LineErases(t: Term, how: nat)
    requires Inv(t)
    ensures Erases(t, EraseLine(t, how), LineArea(t, how))
  {
    InvShape(t);
    hide Inv, Blank, Shaped, ClearRegion;
    var u, y := EraseLine(t, how), t.c.y;
    if how == 0 {
      ClearErases(t, t.c.x, y, t.col - 1, y);
      ErasesSame(t, u, (x, z) => t.c.x <= x <= t.col - 1 && y <= z <= y, LineArea(t, how));
    } else if how == 1 {
      ClearErases(t, 0, y, t.c.x, y);
      ErasesSame(t, u, (x, z) => 0 <= x <= t.c.x && y <= z <= y, LineArea(t, how));
    } else if how == 2 {
      ClearErases(t, 0, y, t.col - 1, y);
      ErasesSame(t, u, (x, z) => 0 <= x <= t.col - 1 && y <= z <= y, LineArea(t, how));
    } else {
      NothingErased(t);
      ErasesSame(t, u, (x, z) => false, LineArea(t, how));
    }
  }

  lemma EraseHandled(e: Env, t: Term)
    requires |t.csi.arg| == ESC_ARG_SIZ
    ensures t.csi.mode0 == 0x4a ==> CsiHandle(e, t) == EraseDisplay(t, t.csi.arg[0])
    ensures t.csi.mode0 == 0x4b ==> CsiHandle(e, t) == EraseLine(t, t.csi.arg[0])
    ensures t.csi.mode0 == 0x58 ==>
      CsiHandle(e, t) == ClearRegion(t, t.c.x, t.c.y, t.c.x + Default(t.csi.arg[0], 1) - 1, t.c.y)
  {
    hide EraseDisplay, EraseLine, ClearRegion;
  }

  lemma CsiInv(t: Term, c: Csi)
    requires Inv(t) && |c.arg| == ESC_ARG_SIZ && c.narg <= ESC_ARG_SIZ && |c.buf| < ESC_BUF_SIZ - 1
    ensures Inv(t.(csi := c))
  {}

  lemma ErasesOther(t: Term, c: Csi, u: Term, a: (int, int) -> bool)
    requires Erases(t.(csi := c), u, a)
    ensures Erases(t, u, a)
  {}

  /** J and K. */
  lemma EraseSequence(e: Env, t: Term, how: nat, display: bool)
    requires Inv(t) && t.esc == NO_ESC && AreArguments([how])
    ensures Erases(t, Puts(e, t, Sequence(false, [how], if display then 0x4a else 0x4b)),
      if display then DisplayArea(t, how) else LineArea(t, how))
  {
    hide Inv, CsiHandle, Puts, ReadAs, Erases, EraseDisplay, EraseLine, DisplayArea, LineArea;
    var f: Byte := if display then 0x4a else 0x4b;
    var c := SequenceHandled(e, t, false, [how], f);
    ReadParts(c, [how], f, false);
    CsiInv(t, c);
    var v := t.(csi := c);
    EraseHandled(e, v);
    AreasSame(t, c, how);
    if display {
      DisplayErases(v, how);
      ErasesOther(t, c, EraseDisplay(v, how), DisplayArea(v, how));
      ErasesSame(t, EraseDisplay(v, how), DisplayArea(v, how), DisplayArea(t, how));
    } else {
      LineErases(v, how);
      ErasesOther(t, c, EraseLine(v, how), LineArea(v, how));
      ErasesSame(t, EraseLine(v, how), LineArea(v, how), LineArea(t, how));
    }
  }

  lemma AreasSame(t: Term, c: Csi, how: nat)
    ensures forall x, y :: DisplayArea(t.(csi := c), how)(x, y) == DisplayArea(t, how)(x, y)
    ensures forall x, y :: LineArea(t.(csi := c), how)(x, y) == LineArea(t, how)(x, y)
  {}

  /** X: n cells from the cursor on. */
  lemma EraseCells(e: Env, t: Term, n: nat)
    requires Inv(t) && t.esc == NO_ESC && AreArguments([n])
    ensures Erases(t, Puts(e, t, Sequence(false, [n], 0x58)), (x, y) => y == t.c.y && t.c.x <= x < t.c.x + Count(n))
  {
    hide Inv, CsiHandle, Puts, ReadAs, Erases, ClearRegion;
    InvShape(t);
    var c := SequenceHandled(e, t, false, [n], 0x58);
    ReadParts(c, [n], 0x58, false);
    CsiInv(t, c);
    var v := t.(csi := c);
    InvShape(v);
    EraseHandled(e, v);
    var u := ClearRegion(v, t.c.x, t.c.y, t.c.x + Count(n) - 1, t.c.y);
    var a: (int, int) -> bool := (x, y) => t.c.x <= x <= t.c.x + Count(n) - 1 && t.c.y <= y <= t.c.y;
    ClearErases(v, t.c.x, t.c.y, t.c.x + Count(n) - 1, t.c.y);
    ErasesOther(t, c, u, a);
    ErasesSame(t, u, a, (x, y) => y == t.c.y && t.c.x <= x < t.c.x + Count(n));
  }

  // ---- cells and lines that move ----

  lemma EditHandled(e: Env, t: Term)
    requires |t.csi.arg| == ESC_ARG_SIZ
    ensures var n, f := Default(t.csi.arg[0], 1), t.csi.mode0;
      (f == 0x40 ==> CsiHandle(e, t) == InsertBlank(t, n)) && (f == 0x50 ==> CsiHandle(e, t) == DeleteChar(t, n))
      && (f == 0x4c ==> CsiHandle(e, t) == InsertBlankLine(t, n)) && (f == 0x4d ==> CsiHandle(e, t) == DeleteLine(t, n))
      && (f == 0x53 && !t.csi.priv ==> CsiHandle(e, t) == ScrollUp(t, t.top, n))
      && (f == 0x54 ==> CsiHandle(e, t) == ScrollDown(t, t.top, n))
  {
    hide InsertBlank, DeleteChar, InsertBlankLine, DeleteLine, ScrollUp, ScrollDown;
  }

  lemma InsertClips(t: Term, n: int)
    requires n > t.col - t.c.x >= 0
    ensures InsertBlank(t, n) == InsertBlank(t, t.col - t.c.x) && DeleteChar(t, n) == DeleteChar(t, t.col - t.c.x)
  {
    hide ClearRegion, PutRow, ShiftedLeft, ShiftedRight, RowAt;
  }

  /** @: n blanks at the cursor, the cells after it moved right. */
  lemma InsertSequence(e: Env, t: Term, n: nat, x: int)
    requires Inv(t) && t.esc == NO_ESC && AreArguments([n]) && 0 <= x < t.col
    ensures var u := Puts(e, t, Sequence(false, [n], 0x40));
      u.c == t.c && |u.line| == t.row && |u.line[t.c.y]| == t.col
      && (forall y :: 0 <= y < t.row && y != t.c.y ==> u.line[y] == t.line[y])
      && u.line[t.c.y][x] == if x < t.c.x then t.line[t.c.y][x]
        else if x < t.c.x + Count(n) then Space(t) else t.line[t.c.y][x - Count(n)]
  {
    hide Inv, CsiHandle, Puts, ReadAs, InsertBlank, DeleteChar;
    InvShape(t);
    var c := SequenceHandled(e, t, false, [n], 0x40);
    ReadParts(c, [n], 0x40, false);
    CsiInv(t, c);
    var v := t.(csi := c);
    InvShape(v);
    EditHandled(e, v);
    var k := NotPast(Count(n), t.col - t.c.x);
    if Count(n) > t.col - t.c.x { InsertClips(v, Count(n)); }
    InsertedRow(v, k);
    InsertedCell(v, k, x);
    InsertBlankGoes(v, k);
    RowsShaped(v, InsertBlank(v, k));
  }

  lemma RowsShaped(t: Term, u: Term)
    requires Goes(t, u) && u == t.(line := u.line, dirty := u.dirty) && Inv(t)
    ensures |u.line| == t.row && forall y :: 0 <= y < t.row ==> |u.line[y]| == t.col
  {}

  /** P: n cells at the cursor gone, the cells after them moved left. */
  lemma DeleteSequence(e: Env, t: Term, n: nat, x: int)
    requires Inv(t) && t.esc == NO_ESC && AreArguments([n]) && 0 <= x < t.col
    ensures var u := Puts(e, t, Sequence(false, [n], 0x50));
      u.c == t.c && |u.line| == t.row && |u.line[t.c.y]| == t.col
      && (forall y :: 0 <= y < t.row && y != t.c.y ==> u.line[y] == t.line[y])
      && u.line[t.c.y][x] == if x < t.c.x then t.line[t.c.y][x]
        else if x + Count(n) < t.col then t.line[t.c.y][x + Count(n)] else Space(t)
  {
    hide Inv, CsiHandle, Puts, ReadAs, InsertBlank, DeleteChar;
    InvShape(t);
    var c := SequenceHandled(e, t, false, [n], 0x50);
    ReadParts(c, [n], 0x50, false);
    CsiInv(t, c);
    var v := t.(csi := c);
    InvShape(v);
    EditHandled(e, v);
    var k := NotPast(Count(n), t.col - t.c.x);
    if Count(n) > t.col - t.c.x { InsertClips(v, Count(n)); }
    DeletedRow(v, k);
    DeletedCell(v, k, x);
    DeleteCharGoes(v, k);
    RowsShaped(v, DeleteChar(v, k));
  }

  /** Row i of the lines orig to bot shows what row i + n did, or is blank if that is not among them. */
  ghost predicate Moves(before: seq<Row>, after: seq<Row>, orig: int, bot: int, n: int, blank: Glyph) {
    |after| == |before|
    && forall i :: 0 <= i < |after| ==>
      if !(orig <= i <= bot) then after[i] == before[i]
      else if orig <= i + n <= bot && 0 <= i + n < |before| then after[i] == before[i + n]
      else IsBlankRow(after[i], blank)
  }

  /** Only the lines from orig to the bottom margin change, by moving n rows up (down if negative). */
  ghost predicate RowsMove(t: Term, u: Term, orig: int, n: int) {
    u == t.(line := u.line, dirty := u.dirty, csi := u.csi) && Moves(t.line, u.line, orig, t.bot, n, Space(t))
  }

  lemma ScrollRows(t: Term, orig: int, n: int)
    requires Inv(t) && 0 <= orig <= t.bot && n >= 1
    ensures RowsMove(t, ScrollUp(t, orig, n), orig, n) && RowsMove(t, ScrollDown(t, orig, n), orig, -n)
  {
    hide ScrollUp, ScrollDown, Inv, Moves;
    ScrollMoves(t, orig, n);
    ScrollOnly(t, orig, n);
  }

  lemma ScrollMoves(t: Term, orig: int, n: int)
    requires Inv(t) && 0 <= orig <= t.bot && n >= 1
    ensures Moves(t.line, ScrollUp(t, orig, n).line, orig, t.bot, n, Blank(t))
    ensures Moves(t.line, ScrollDown(t, orig, n).line, orig, t.bot, -n, Blank(t))
  {
    hide ScrollUp, ScrollDown, Inv, IsBlankRow, Blank;
    InvShape(t);
    Bounds(t);
    var k := NotPast(n, t.bot - orig + 1);
    if n > t.bot - orig + 1 { ScrollClips(t, orig, n); }
    ScrollUpShifts(t, orig, k);
    ScrollDownShifts(t, orig, k);
    ScrollOnly(t, orig, k);
  }

  lemma ScrollOnly(t: Term, orig: int, n: int)
    ensures var u := ScrollUp(t, orig, n); u == t.(line := u.line, dirty := u.dirty) && |u.line| == |t.line|
    ensures var u := ScrollDown(t, orig, n); u == t.(line := u.line, dirty := u.dirty) && |u.line| == |t.line|
  {}

  lemma RowsOther(t: Term, c: Csi, u: Term, orig: int, n: int)
    requires RowsMove(t.(csi := c), u, orig, n)
    ensures RowsMove(t, u, orig, n)
  {
    hide Moves;
  }

  /** How far rows move: a missing count is one. */
  function Rows(up: bool, n: nat): int {
    if up then Count(n) else 0 - Count(n)
  }

  /** S and T: the whole region scrolls. */
  lemma ScrollSequence(e: Env, t: Term, n: nat, up: bool)
    requires Inv(t) && t.esc == NO_ESC && AreArguments([n])
    ensures var u := Puts(e, t, Sequence(false, [n], if up then 0x53 else 0x54));
      RowsMove(t, u, t.top, Rows(up, n))
  {
    hide Inv, CsiHandle, Puts, ReadAs, RowsMove, ScrollUp, ScrollDown;
    Bounds(t);
    var f: Byte := if up then 0x53 else 0x54;
    var c := SequenceHandled(e, t, false, [n], f);
    ReadParts(c, [n], f, false);
    CsiInv(t, c);
    var v := t.(csi := c);
    EditHandled(e, v);
    ScrollRows(v, t.top, Count(n));
    RowsOther(t, c, CsiHandle(e, v), t.top, Rows(up, n));
  }

  /** L and M: lines open or close at the cursor, if it is inside the region. */
  lemma LinesSequence(e: Env, t: Term, n: nat, insert: bool)
    requires Inv(t) && t.esc == NO_ESC && AreArguments([n])
    ensures var u := Puts(e, t, Sequence(false, [n], if insert then 0x4c else 0x4d));
      if !(t.top <= t.c.y <= t.bot) then u == t.(csi := u.csi)
      else RowsMove(t, u, t.c.y, Rows(!insert, n))
  {
    hide Inv, CsiHandle, Puts, ReadAs, RowsMove, ScrollUp, ScrollDown;
    Bounds(t);
    var f: Byte := if insert then 0x4c else 0x4d;
    var c := SequenceHandled(e, t, false, [n], f);
    ReadParts(c, [n], f, false);
    CsiInv(t, c);
    var v := t.(csi := c);
    EditHandled(e, v);
    if t.top <= t.c.y <= t.bot {
      ScrollRows(v, t.c.y, Count(n));
      RowsOther(t, c, CsiHandle(e, v), t.c.y, Rows(!insert, n));
    }
  }
}
