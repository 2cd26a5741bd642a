/**
  * What the terminal's operations mean on the screen: shifts, insertions, saved
  * cursors, the alternate screen, and the CSI argument parser.
  */
module TermLaws {
  import opened Values
  import opened TermModel
  import opened TermInvariant
  import opened TermRun

  // ---- scrolling ----

  predicate IsBlankRow(r: Row, g: Glyph) {
    forall x :: 0 <= x < |r| ==> r[x] == g
  }

  /** Scrolling up by n moves row i + n to row i, blanks the last n rows and keeps the rest. */
  lemma ScrollUpShifts(t: Term, orig: int, n: int)
    requires Inv(t) && 0 <= orig <= t.bot && 1 <= n <= t.bot - orig + 1
    ensures var u := ScrollUp(t, orig, n);
      (forall i :: 0 <= i < t.row && !(orig <= i <= t.bot) ==> u.line[i] == t.line[i])
      && (forall i :: orig <= i <= t.bot - n ==> u.line[i] == t.line[i + n])
      && (forall i :: t.bot - n < i <= t.bot ==> IsBlankRow(u.line[i], Blank(t)))
  {
    hide ClearRegion, ScrollUp, ShiftedUp, Collected, Tables, Shaped, IsBlankRow, Blank;
    ScrolledUp(t, orig, n);
    ClearedRows(t, orig, orig + n - 1);
    var s := ClearRegion(t, 0, orig, t.col - 1, orig + n - 1).line;
    ShiftedUpRows(s, orig, t.bot, n, s[orig]);
  }

  lemma ScrolledUp(t: Term, orig: int, n: int)
    requires Inv(t) && 0 <= orig <= t.bot && 1 <= n <= t.bot - orig + 1
    ensures var s := ClearRegion(t, 0, orig, t.col - 1, orig + n - 1).line;
      |s| == t.row && ScrollUp(t, orig, n).line == ShiftedUp(s, orig, t.bot, n, s[orig])
  {
    hide ClearRegion, SetDirt, ShiftedUp, Collected, Tables, Shaped, Blank, IsBlankRow;
    ClearedRows(t, orig, orig + n - 1);
    SetDirtRows(ClearRegion(t, 0, orig, t.col - 1, orig + n - 1), orig + n, t.bot);
  }

  lemma ShiftedUpRows(s: Grid, orig: int, bot: int, n: int, r: Row)
    requires 0 <= orig <= bot < |s| && 1 <= n <= bot - orig + 1
    ensures var u := ShiftedUp(s, orig, bot, n, r);
      |u| == |s| && (forall i :: 0 <= i < |s| && !(orig <= i <= bot) ==> u[i] == s[i])
      && (forall i :: orig <= i <= bot - n ==> u[i] == s[i + n])
      && (forall i :: bot - n < i <= bot ==> u[i] == r)
  {}

  lemma ClearedRows(t: Term, a: int, b: int)
    requires Screens(t) && 0 <= a <= b < t.row
    ensures var u := ClearRegion(t, 0, a, t.col - 1, b);
      |u.line| == t.row && (forall i :: 0 <= i < t.row ==>
        if a <= i <= b then IsBlankRow(u.line[i], Blank(t)) else u.line[i] == t.line[i])
  {}

  lemma SetDirtRows(t: Term, a: int, b: int)
    ensures var u := SetDirt(t, a, b); u.line == t.line && u.col == t.col && u.row == t.row && Blank(u) == Blank(t)
    ensures Screens(t) ==> Screens(SetDirt(t, a, b))
  {}

  lemma ScrollDownShifts(t: Term, orig: int, n: int)
    requires Inv(t) && 0 <= orig <= t.bot && 1 <= n <= t.bot - orig + 1
    ensures var u := ScrollDown(t, orig, n);
      (forall i :: 0 <= i < t.row && !(orig <= i <= t.bot) ==> u.line[i] == t.line[i])
      && (forall i :: orig + n <= i <= t.bot ==> u.line[i] == t.line[i - n])
      && (forall i :: orig <= i < orig + n ==> IsBlankRow(u.line[i], Blank(t)))
  {
    hide ClearRegion, SetDirt, ScrollDown, ShiftedDown, Collected, Tables, Shaped, IsBlankRow, Blank;
    ScrolledDown(t, orig, n);
    SetDirtRows(t, orig, t.bot - n);
    var c := SetDirt(t, orig, t.bot - n);
    ClearedRows(c, t.bot - n + 1, t.bot);
    var s := ClearRegion(c, 0, t.bot - n + 1, t.col - 1, t.bot).line;
    ShiftedDownRows(s, orig, t.bot, n, s[t.bot]);
  }

  lemma ScrolledDown(t: Term, orig: int, n: int)
    requires Inv(t) && 0 <= orig <= t.bot && 1 <= n <= t.bot - orig + 1
    ensures var s := ClearRegion(SetDirt(t, orig, t.bot - n), 0, t.bot - n + 1, t.col - 1, t.bot).line;
      |s| == t.row && ScrollDown(t, orig, n).line == ShiftedDown(s, orig, t.bot, n, s[t.bot])
  {
    hide ClearRegion, SetDirt, ShiftedDown, Collected, Tables, Shaped, Blank, IsBlankRow;
    SetDirtRows(t, orig, t.bot - n);
    ClearedRows(SetDirt(t, orig, t.bot - n), t.bot - n + 1, t.bot);
  }

  lemma ShiftedDownRows(s: Grid, orig: int, bot: int, n: int, r: Row)
    requires 0 <= orig <= bot < |s| && 1 <= n <= bot - orig + 1
    ensures var u := ShiftedDown(s, orig, bot, n, r);
      |u| == |s| && (forall i :: 0 <= i < |s| && !(orig <= i <= bot) ==> u[i] == s[i])
      && (forall i :: orig + n <= i <= bot ==> u[i] == s[i - n])
      && (forall i :: orig <= i < orig + n ==> u[i] == r)
  {}

  /** Counts past the region behave as the whole region. */
  lemma ScrollClips(t: Term, orig: int, n: int)
    requires Inv(t) && 0 <= orig <= t.bot && n > t.bot - orig + 1
    ensures ScrollUp(t, orig, n) == ScrollUp(t, orig, t.bot - orig + 1)
    ensures ScrollDown(t, orig, n) == ScrollDown(t, orig, t.bot - orig + 1)
  {
    hide ClearRegion, SetDirt, ShiftedUp, ShiftedDown, RowAt;
  }

  /** A region whose bounds are swapped clears both bounding rows. */
  lemma SwappedBounds(t: Term, a: int)
    requires Screens(t) && 0 <= a <= t.row
    ensures var u := ClearRegion(t, 0, a, t.col - 1, a - 1);
      |u.line| == t.row && (forall i :: 0 <= i < t.row ==>
        if a - 1 <= i <= a then IsBlankRow(u.line[i], Blank(t)) else u.line[i] == t.line[i])
  {}

  /** A count below 1, which only a negative argument gives, moves nothing but clears row orig and the one above it. */
  lemma ScrollUpNone(t: Term, orig: int, n: int)
    requires Inv(t) && 0 <= orig <= t.bot && n <= 0
    ensures var u := ScrollUp(t, orig, n);
      |u.line| == t.row && forall i :: 0 <= i < t.row ==>
        if orig - 1 <= i <= orig then IsBlankRow(u.line[i], Blank(t)) else u.line[i] == t.line[i]
  {
    hide ClearRegion, SetDirt, Collected, Tables, Shaped;
    SwappedBounds(t, orig);
    SetDirtRows(ClearRegion(t, 0, orig, t.col - 1, orig - 1), orig, t.bot);
  }

  /** Scrolling down by such a count clears row bot and the one below it. */
  lemma ScrollDownNone(t: Term, orig: int, n: int)
    requires Inv(t) && 0 <= orig <= t.bot && n <= 0
    ensures var u := ScrollDown(t, orig, n);
      |u.line| == t.row && forall i :: 0 <= i < t.row ==>
        if t.bot <= i <= t.bot + 1 then IsBlankRow(u.line[i], Blank(t)) else u.line[i] == t.line[i]
  {
    hide ClearRegion, SetDirt, Collected, Tables, Shaped;
    SetDirtRows(t, orig, t.bot);
    SwappedBounds(SetDirt(t, orig, t.bot), t.bot + 1);
  }

  /** Scrolling down undoes scrolling up on every row that stayed in the region. */
  lemma ScrollBack(t: Term, orig: int, n: int)
    requires Inv(t) && 0 <= orig <= t.bot && 1 <= n <= t.bot - orig + 1
    ensures var u := ScrollDown(ScrollUp(t, orig, n), orig, n);
      forall i :: 0 <= i < t.row && !(orig <= i < orig + n) ==> u.line[i] == t.line[i]
  {
    var v := ScrollUp(t, orig, n);
    ScrollUpGoes(t, orig, n);
    assert v.bot == t.bot;
    ScrollUpShifts(t, orig, n);
    ScrollDownShifts(v, orig, n);
    hide ScrollUp, ScrollDown;
  }

  // ---- cells ----

  /** Deleting n cells undoes inserting n blanks, except for the n cells pushed off the right. */
  lemma InsertThenDelete(t: Term, n: int)
    requires Inv(t) && 1 <= n <= t.col - t.c.x
    ensures var u := DeleteChar(InsertBlank(t, n), n);
      (forall y :: 0 <= y < t.row && y != t.c.y ==> u.line[y] == t.line[y])
      && forall x :: 0 <= x < t.col ==>
        u.line[t.c.y][x] == if x < t.col - n then t.line[t.c.y][x] else Blank(t)
  {
    hide InsertBlank, DeleteChar, Goes, Inv;
    var v := InsertBlank(t, n);
    InsertBlankGoes(t, n);
    GoesInv(t, v);
    InvShape(t);
    InvShape(v);
    DeleteCharGoes(v, n);
    GoesInv(v, DeleteChar(v, n));
    InvShape(DeleteChar(v, n));
    InsertedRow(t, n);
    DeletedRow(v, n);
    var y := t.c.y;
    forall x | 0 <= x < t.col
      ensures DeleteChar(v, n).line[y][x] == if x < t.col - n then t.line[y][x] else Blank(t)
    {
      DeletedCell(v, n, x);
      if x < t.c.x { InsertedCell(t, n, x); } else if x < t.col - n { InsertedCell(t, n, x + n); }
    }
  }

  lemma InvShape(t: Term)
    requires Inv(t)
    ensures Screens(t) && 0 <= t.c.x < t.col && 0 <= t.c.y < t.row
  {}

  lemma InsertedRow(t: Term, n: int)
    requires Inv(t) && 1 <= n <= t.col - t.c.x
    ensures var u := InsertBlank(t, n);
      u == t.(line := u.line, dirty := u.dirty)
      && (forall y :: 0 <= y < t.row && y != t.c.y ==> u.line[y] == t.line[y])
      && forall x :: 0 <= x < t.col ==>
        u.line[t.c.y][x] == if x < t.c.x then t.line[t.c.y][x] else if x < t.c.x + n then Blank(t)
          else t.line[t.c.y][x - n]
  {
    var r := ShiftedRight(t.line[t.c.y], t.c.x, n);
    assert InsertBlank(t, n).line[t.c.y] == ClearedRow(r, t.c.x, t.c.x + n - 1, Blank(t));
  }

  lemma DeletedRow(t: Term, n: int)
    requires Inv(t) && 1 <= n <= t.col - t.c.x
    ensures var u := DeleteChar(t, n);
      u == t.(line := u.line, dirty := u.dirty)
      && (forall y :: 0 <= y < t.row && y != t.c.y ==> u.line[y] == t.line[y])
      && forall x :: 0 <= x < t.col ==>
        u.line[t.c.y][x] == if x < t.c.x then t.line[t.c.y][x] else if x < t.col - n then t.line[t.c.y][x + n]
          else Blank(t)
  {
    var r := ShiftedLeft(t.line[t.c.y], t.c.x, n);
    assert DeleteChar(t, n).line[t.c.y] == ClearedRow(r, t.col - n, t.col - 1, Blank(t));
  }

  lemma InsertedCell(t: Term, n: int, x: int)
    requires Inv(t) && 1 <= n <= t.col - t.c.x && 0 <= x < t.col
    ensures InsertBlank(t, n).line[t.c.y][x]
      == if x < t.c.x then t.line[t.c.y][x] else if x < t.c.x + n then Blank(t) else t.line[t.c.y][x - n]
  {
    InsertedRow(t, n);
  }

  lemma DeletedCell(t: Term, n: int, x: int)
    requires Inv(t) && 1 <= n <= t.col - t.c.x && 0 <= x < t.col
    ensures DeleteChar(t, n).line[t.c.y][x]
      == if x < t.c.x then t.line[t.c.y][x] else if x < t.col - n then t.line[t.c.y][x + n] else Blank(t)
  {
    DeletedRow(t, n);
  }

  /** A rune with room goes under the cursor, and nothing else on the screen changes. */
  lemma PrintPlaces(e: Env, t: Term, u: int)
    requires Inv(t) && Width(e, t, u) == 1 && !t.mode.insert && !(t.mode.wrap && t.c.wrapNext)
    ensures var v := Print(e, t, u);
      v.line == PutRow(t.line, t.c.y, t.line[t.c.y][t.c.x := Glyph(Translate(t, u), t.c.attr, false)])
      && v.c == (if t.c.x + 1 < t.col then t.c.(x := t.c.x + 1, wrapNext := false) else t.c.(wrapNext := true))
  {
    assert OpenCell(WrapLine(t), 1) == t;
    var s := SetChar(t, u, t.c.attr, t.c.x, t.c.y).(lastc := u);
    AdvanceCursor(s);
    hide Advance, SetChar, Width;
    assert Print(e, t, u) == Advance(s, 1);
    SetCharLine(t, u);
  }

  lemma AdvanceCursor(t: Term)
    requires Placed(t)
    ensures var v := Advance(t, 1);
      v.line == t.line
      && v.c == (if t.c.x + 1 < t.col then t.c.(x := t.c.x + 1, wrapNext := false) else t.c.(wrapNext := true))
  {}

  lemma SetCharLine(t: Term, u: int)
    requires Inv(t)
    ensures var v := SetChar(t, u, t.c.attr, t.c.x, t.c.y);
      v.c == t.c && v.row == t.row && v.col == t.col && v.top == t.top && v.bot == t.bot
      && v.line == PutRow(t.line, t.c.y, t.line[t.c.y][t.c.x := Glyph(Translate(t, u), t.c.attr, false)])
  {}

  /** The cell under the cursor with its wrap mark set. */
  function Marked(t: Term): Term {
    t.(line := PutRow(t.line, t.c.y,
      PutCell(RowAt(t.line, t.c.y), t.c.x, CellAt(t.line, t.c.x, t.c.y).(wrap := true))))
  }

  lemma MarkedCell(t: Term)
    requires Inv(t)
    ensures var m := Marked(t); Inv(m) && m.line[t.c.y][t.c.x] == t.line[t.c.y][t.c.x].(wrap := true)
  {
    WrapMarkGoes(t);
    GoesInv(t, Marked(t));
  }

  /** A wrap pending at the right edge is a new line followed by an ordinary print. */
  lemma WrappedPrint(e: Env, t: Term, u: int)
    requires Inv(t) && !t.mode.insert && t.mode.wrap && t.c.wrapNext
    ensures Print(e, t, u) == Print(e, NewLine(Marked(t), true), u)
  {
    var n := NewLine(Marked(t), true);
    MarkedCell(t);
    NewLineCursor(Marked(t));
    hide NewLine, Marked, SetChar, Advance;
    assert WrapLine(t) == n by { WrapIs(t); }
    assert WrapLine(n) == n;
  }

  lemma WrapIs(t: Term)
    requires t.mode.wrap && t.c.wrapNext
    ensures WrapLine(t) == NewLine(Marked(t), true)
  {
    hide NewLine;
  }

  /** With a wrap pending the rune starts the next line; at the bottom margin the region scrolls first. */
  lemma PrintWraps(e: Env, t: Term, u: int)
    requires Inv(t) && Width(e, t, u) == 1 && !t.mode.insert && t.mode.wrap && t.c.wrapNext && 1 < t.col
    ensures var v := Print(e, t, u);
      var y := if t.c.y == t.bot || t.c.y == t.row - 1 then t.c.y else t.c.y + 1;
      v.c.x == 1 && v.c.y == y && Shaped(v.line, t.row, t.col)
        && v.line[y][0] == Glyph(Translate(t, u), t.c.attr, false)
      && (t.c.y == t.bot && t.top < t.bot ==> v.line[y - 1][t.c.x] == t.line[y][t.c.x].(wrap := true))
  {
    var m := Marked(t);
    var n := NewLine(m, true);
    MarkedCell(t);
    NewLineGoes(m, true);
    GoesInv(m, n);
    NewLineCursor(m);
    WrappedPrint(e, t, u);
    PrintPlaces(e, n, u);
    if t.c.y == t.bot { ScrollUpShifts(m, m.top, 1); }
    hide ScrollUp, NewLine, Print, Collected, Tables, Goes;
  }

  lemma NewLineCursor(t: Term)
    requires Inv(t)
    ensures var u := NewLine(t, true);
      u == t.(line := u.line, dirty := u.dirty, c := u.c)
        && u.line == (if t.c.y == t.bot then ScrollUp(t, t.top, 1).line else t.line)
      && u.c == t.c.(wrapNext := false, x := 0, y := if t.c.y == t.bot || t.c.y == t.row - 1 then t.c.y else t.c.y + 1)
  {}

  // ---- erasing above the cursor ----

  /** Every cell before the cursor, on its row or above, is blank. */
  predicate ErasedAbove(t: Term, u: Term)
    requires Inv(t) && Shaped(u.line, t.row, t.col)
  {
    (forall y, x :: 0 <= y < t.c.y && 0 <= x < t.col ==> u.line[y][x] == Blank(t))
    && (forall x :: 0 <= x <= t.c.x ==> u.line[t.c.y][x] == Blank(t))
  }

  lemma EraseAboveRows(t: Term)
    requires Inv(t)
    ensures var u := EraseDisplay(t, 1);
      Shaped(u.line, t.row, t.col)
      && (forall x :: 0 <= x < t.col ==> u.line[t.c.y][x] == if x <= t.c.x then Blank(t) else t.line[t.c.y][x])
      && (forall y, x :: 0 <= y < t.c.y && 0 <= x < t.col ==>
           u.line[y][x] == if t.c.y > 1 then Blank(t) else t.line[y][x])
  {}

  /** Erase-above does what it says exactly when the cursor is not on the second row, or the first is blank already. */
  lemma EraseAboveExact(t: Term)
    requires Inv(t)
    ensures Shaped(EraseDisplay(t, 1).line, t.row, t.col)
    ensures ErasedAbove(t, EraseDisplay(t, 1)) <==> (t.c.y != 1 || IsBlankRow(t.line[0], Blank(t)))
  {
    EraseAboveRows(t);
    hide EraseDisplay;
    var u := EraseDisplay(t, 1);
    if t.c.y == 1 && ErasedAbove(t, u) {
      forall x | 0 <= x < t.col ensures t.line[0][x] == Blank(t) { assert u.line[0][x] == Blank(t); }
    }
  }

  /** Two rows of one cell, the cursor on the second. */
  function TwoRows(): Term {
    var a, c := Attr(0, 7, 0), Cursor(Attr(0, 7, 0), 0, 1, false, false);
    Term(2, 1, [[Glyph(0x58, a, false)], [Glyph(0x59, a, false)]], [[Glyph(0x20, a, false)], [Glyph(0x20, a, false)]],
         [false, false], c, c, c, 0, 0, 0, 1, Mode(true, false, false, false, false, false, true), NO_ESC,
         [CS_USA, CS_USA, CS_USA, CS_USA], 0, 0, [false], 0, NO_CSI, Str(0, [], 0), [])
  }

  /** A screen on which erase-above leaves a letter above the cursor. */
  lemma EraseAboveMisses()
    ensures Inv(TwoRows()) && Shaped(EraseDisplay(TwoRows(), 1).line, 2, 1)
    ensures !ErasedAbove(TwoRows(), EraseDisplay(TwoRows(), 1))
  {
    var t := TwoRows();
    assert t.line[0][0] != Blank(t);
    assert !IsBlankRow(t.line[0], Blank(t));
    EraseAboveExact(t);
  }

  // ---- saved cursors and the alternate screen ----

  /** Restoring a saved cursor brings it back, except for a pending wrap. */
  lemma CursorRoundTrip(t: Term)
    requires Inv(t)
    ensures LoadCursor(SaveCursor(t)).c == t.c.(wrapNext := false)
  {}

  /** After any steps that keep the region and the screen, restoring brings the cursor back. */
  lemma SavedCursorReturns(t: Term, u: Term)
    requires Inv(t) && Inv(u) && u.row == t.row && u.col == t.col && u.top == t.top && u.bot == t.bot
      && u.mode.alt == t.mode.alt
    requires (if t.mode.alt then u.saved1 else u.saved0) == t.c
    ensures LoadCursor(u).c == t.c.(wrapNext := false)
  {}

  /** Entering and leaving the alternate screen gives back the main screen and its cursor. */
  lemma AltRoundTrip(e: Env, t: Term)
    requires Inv(t) && e.allowAlt && !t.mode.alt
    ensures var u := SetPrivate(e, SetPrivate(e, t, true, 1049), false, 1049);
      u.line == t.line && u.mode == t.mode && u.c == t.c.(wrapNext := false)
      && forall y :: 0 <= y < t.row ==> u.dirty[y]
  {
    hide ClearedGrid;
    var a := SaveCursor(t);
    var b := SwapScreen(a);
    var c := SaveCursor(b);
    assert SetPrivate(e, t, true, 1049) == c;
    var d := LoadCursor(c);
    var f := ClearRegion(d, 0, 0, t.col - 1, t.row - 1);
    var g := SwapScreen(f);
    assert SetPrivate(e, c, false, 1049) == LoadCursor(g);
    assert g.line == t.line && g.saved0 == t.c;
  }

  // ---- resizing ----

  /**
    * Each new cell of either screen comes from the old one slid up so that the cursor's row
    * stays, or is blank: in the cursor's colours, or in those saved for the screen not shown.
    */
  lemma ResizeCells(e: Env, t: Term, col: int, row: int, x: int, y: int)
    requires Inv(t) && 1 <= col && 1 <= row && 0 <= x < col && 0 <= y < row
    ensures var u := Resize(e, t, col, row);
      var k := Slide(t, row);
      u.line[y][x] == (if x < t.col && y < t.row - k then t.line[y + k][x] else Blank(t))
      && u.alt[y][x] == (if x < t.col && y < t.row - k then t.alt[y + k][x] else OtherBlank(t))
  {}

  /** A blank in the colours of the cursor saved for the screen not shown. */
  function OtherBlank(t: Term): Glyph {
    var a := if t.mode.alt then t.saved0.attr else t.saved1.attr;
    Glyph(0x20, Attr(0, a.fg, a.bg), false)
  }

  // ---- CSI arguments ----

  function Digits(n: nat): seq<Byte> {
    if n < 10 then [0x30 + n] else Digits(n / 10) + [0x30 + n % 10]
  }

  /** Arguments as a program writes them: decimal, separated by semicolons. */
  function Text(args: seq<nat>): seq<Byte>
    requires args != []
  {
    if |args| == 1 then Digits(args[0]) else Digits(args[0]) + [0x3b] + Text(args[1..])
  }

  lemma {:induction false} DigitsDecimal(n: nat)
    ensures Digits(n) != [] && Decimal(Digits(n)) == n && forall i :: 0 <= i < |Digits(n)| ==> IsDigit(Digits(n)[i])
  {
    if n < 10 {
      assert Digits(n)[..0] == [];
    } else {
      DigitsDecimal(n / 10);
      assert Digits(n)[..|Digits(n)| - 1] == Digits(n / 10);
    }
  }

  lemma {:induction false} SkipRun(s: seq<Byte>, i: nat, j: nat)
    requires i <= j <= |s| && (forall k :: i <= k < j ==> IsDigit(s[k])) && (j < |s| ==> !IsDigit(s[j]))
    ensures SkipDigits(s, i) == j
    decreases j - i
  {
    if i < j { SkipRun(s, i + 1, j); }
  }

  lemma StrtolReads(pre: seq<Byte>, n: nat, post: seq<Byte>)
    requires post != [] ==> !IsDigit(post[0])
    ensures Strtol(pre + Digits(n) + post, |pre|) == Number(n, |pre| + |Digits(n)|)
  {
    var s := pre + Digits(n) + post;
    DigitsDecimal(n);
    SkipRun(s, |pre|, |pre| + |Digits(n)|);
    assert SkipSpace(s, |pre|) == |pre|;
    assert s[|pre|..|pre| + |Digits(n)|] == Digits(n);
  }

  /** One round of the argument loop. */
  lemma ParseStep(s: seq<Byte>, p: nat, k: nat, v: int, q: nat)
    requires p < |s| && k < ESC_ARG_SIZ && Strtol(s, p) == Number(v, q)
    ensures At(s, q) != 0x3b || k + 1 == ESC_ARG_SIZ ==> ParseArgs(s, p, k) == Args([ToArg(v)], q)
    ensures At(s, q) == 0x3b && k + 1 < ESC_ARG_SIZ ==>
      q < |s| && ParseArgs(s, p, k)
        == Args([ToArg(v)] + ParseArgs(s, q + 1, k + 1).arg, ParseArgs(s, q + 1, k + 1).next)
  {
    hide Strtol;
  }

  lemma {:induction false} ArgsRead(pre: seq<Byte>, k: nat, args: seq<nat>, final: Byte)
    requires args != [] && |args| + k <= ESC_ARG_SIZ && (forall i :: 0 <= i < |args| ==> args[i] < 0x8000_0000)
    requires 0x40 <= final <= 0x7e
    ensures ParseArgs(pre + Text(args) + [final], |pre|, k) == Args(args, |pre| + |Text(args)|)
    decreases |args|
  {
    hide Strtol, ParseArgs, Digits;
    var s := pre + Text(args) + [final];
    var d := Digits(args[0]);
    var q := |pre| + |d|;
    if |args| == 1 {
      StrtolReads(pre, args[0], [final]);
      ParseStep(s, |pre|, k, args[0], q);
      assert args == [args[0]];
    } else {
      var t := Text(args[1..]) + [final];
      assert s == pre + d + ([0x3b] + t) && s == (pre + d + [0x3b]) + Text(args[1..]) + [final];
      StrtolReads(pre, args[0], [0x3b] + t);
      ParseStep(s, |pre|, k, args[0], q);
      ArgsRead(pre + d + [0x3b], k + 1, args[1..], final);
      assert args == [args[0]] + args[1..];
    }
  }

  /** A question mark in front makes the sequence private. */
  function Prefix(priv: bool): seq<Byte> {
    if priv then [0x3f] else []
  }

  /** The arguments, the final byte and the private mark are these. */
  predicate ReadAs(c: Csi, args: seq<int>, final: Byte, priv: bool) {
    |args| <= ESC_ARG_SIZ && c.narg == |args| && c.arg == args + NO_ARGS[|args|..] && c.mode0 == final && c.mode1 == 0
      && c.priv == priv
  }

  /** Up to sixteen written arguments are read back exactly, with the final byte, private or not. */
  lemma CsiRoundTrip(args: seq<nat>, final: Byte, priv: bool)
    requires args != [] && |args| <= ESC_ARG_SIZ && (forall i :: 0 <= i < |args| ==> args[i] < 0x8000_0000)
    requires 0x40 <= final <= 0x7e
    ensures ReadAs(CsiParse(NO_CSI.(buf := Prefix(priv) + Text(args) + [final])), args, final, priv)
  {
    hide ParseArgs, Text, Prefix, At, CsiParse, ReadAs;
    ArgsRead(Prefix(priv), 0, args, final);
    TextStarts(args);
    FirstByte(priv, Text(args), final);
    ParsedIs(Prefix(priv) + Text(args), final, priv, args);
  }

  lemma FirstByte(priv: bool, t: seq<Byte>, final: Byte)
    requires t != [] && t[0] != 0x3f
    ensures At(Prefix(priv) + t + [final], 0) == 0x3f <==> priv
    ensures |Prefix(priv)| == if priv then 1 else 0
  {}

  lemma ParsedIs(t: seq<Byte>, final: Byte, priv: bool, args: seq<int>)
    requires (At(t + [final], 0) == 0x3f <==> priv) && |args| <= ESC_ARG_SIZ
    requires ParseArgs(t + [final], if priv then 1 else 0, 0) == Args(args, |t|)
    ensures ReadAs(CsiParse(NO_CSI.(buf := t + [final])), args, final, priv)
  {
    hide ParseArgs;
  }

  lemma TextStarts(args: seq<nat>)
    requires args != []
    ensures Text(args) != [] && Text(args)[0] != 0x3f
  {
    DigitsDecimal(args[0]);
  }

  lemma RepeatHandled(e: Env, t: Term, n: nat)
    requires t.csi.mode0 == 0x62 && t.csi.arg != [] && t.csi.arg[0] == n && t.lastc != 0
    ensures CsiHandle(e, t) == Repeat(e, t, Limit(n, 1, 65535))
  {
    hide Repeat;
  }

  /** The final byte of a sequence parses and handles what was collected. */
  lemma LastByte(e: Env, t: Term, f: Byte)
    requires t.esc.start && t.esc.csi && !t.esc.str && 0x40 <= f <= 0x7e
    ensures Putc(e, t, f) == CsiHandle(e, t.(esc := NO_ESC, csi := CsiParse(t.csi.(buf := t.csi.buf + [f]))))
  {
    hide CsiHandle, CsiParse, Print, Control;
  }

  /** The last byte of the sequence that asks for n more of the last rune gives it to tputc n times. */
  lemma RepeatSequence(e: Env, t: Term, n: nat)
    requires Inv(t) && t.esc.start && t.esc.csi && !t.esc.str && t.csi == NO_CSI.(buf := Text([n])) && t.lastc != 0
    requires n < 0x8000_0000
    ensures var v := t.(esc := NO_ESC, csi := CsiParse(NO_CSI.(buf := Text([n]) + [0x62])));
      Putc(e, t, 0x62) == PutTimes(e, v, t.lastc, Limit(n, 1, 65535))
  {
    hide CsiParse, Text, Repeat, PutTimes, Inv, CsiHandle, Putc;
    CsiRoundTrip([n], 0x62, false);
    assert Prefix(false) + Text([n]) == Text([n]);
    var v := t.(esc := NO_ESC, csi := CsiParse(NO_CSI.(buf := Text([n]) + [0x62])));
    InvLast(t);
    LastByte(e, t, 0x62);
    RepeatHandled(e, v, n);
    RepeatPuts(e, v, Limit(n, 1, 65535));
  }
}
