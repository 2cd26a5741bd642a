/**
  * What counts below one do: a negative argument reaches the operations, their
  * bounds come out swapped, and cells that should stay are blanked.
  */
module TermCounts {
  import opened Values
  import opened TermModel
  import opened TermInvariant
  import opened TermRun
  import opened TermLaws
  import opened TermBytes
  import opened TermEdits

  // ---- scrolling ----

  /** Rows outside the region from orig down are as they were. */
  predicate KeepsOutside(t: Term, u: Term, orig: int) {
    |u.line| == |t.line| && forall i :: 0 <= i < |t.line| && !(orig <= i <= t.bot) ==> u.line[i] == t.line[i]
  }

  lemma BlankRows(a: Row, b: Row, g: Glyph)
    requires |a| == |b| && IsBlankRow(b, g)
    ensures a == b <==> IsBlankRow(a, g)
  {
    if IsBlankRow(a, g) {
      forall x | 0 <= x < |a| ensures a[x] == b[x] {}
    }
  }

  lemma RowsWide(t: Term, u: Term, i: int)
    requires Goes(t, u) && Inv(t) && u.row == t.row && u.col == t.col && 0 <= i < t.row
    ensures |u.line| == |t.line| == t.row && |u.line[i]| == |t.line[i]| == t.col
  {}

  lemma ScrollSize(t: Term, orig: int, n: int)
    ensures var u := ScrollUp(t, orig, n); u.row == t.row && u.col == t.col
    ensures var u := ScrollDown(t, orig, n); u.row == t.row && u.col == t.col
  {
    hide ShiftedUp, ShiftedDown, RowAt, ClearedGrid, MarkedRows;
  }

  /** Scrolling up keeps the rows outside the region if and only if the count is at least 1 or the row above blank. */
  lemma ScrollUpExact(t: Term, orig: int, n: int)
    requires Inv(t) && 0 <= orig <= t.bot
    ensures KeepsOutside(t, ScrollUp(t, orig, n), orig)
      <==> n >= 1 || orig == 0 || IsBlankRow(t.line[orig - 1], Blank(t))
  {
    hide ScrollUp, Goes, IsBlankRow, Blank, Inv, Screens;
    var u := ScrollUp(t, orig, n);
    ScrollUpGoes(t, orig, n);
    ScrollSize(t, orig, n);
    InvRegion(t);
    InvShape(t);
    RowsWide(t, u, 0);
    if n >= 1 {
      ScrollUpKeeps(t, orig, n);
    } else {
      ScrollUpNone(t, orig, n);
      if orig > 0 {
        RowsWide(t, u, orig - 1);
        BlankRows(t.line[orig - 1], u.line[orig - 1], Blank(t));
      }
    }
  }

  lemma ScrollUpKeeps(t: Term, orig: int, n: int)
    requires Inv(t) && 0 <= orig <= t.bot && n >= 1 && |ScrollUp(t, orig, n).line| == |t.line|
    ensures KeepsOutside(t, ScrollUp(t, orig, n), orig)
  {
    hide ScrollUp;
    if n > t.bot - orig + 1 {
      ScrollClips(t, orig, n);
      ScrollUpShifts(t, orig, t.bot - orig + 1);
    } else {
      ScrollUpShifts(t, orig, n);
    }
  }

  /** Likewise for scrolling down and the row below the region. */
  lemma ScrollDownExact(t: Term, orig: int, n: int)
    requires Inv(t) && 0 <= orig <= t.bot
    ensures KeepsOutside(t, ScrollDown(t, orig, n), orig)
      <==> n >= 1 || t.bot == t.row - 1 || IsBlankRow(t.line[t.bot + 1], Blank(t))
  {
    hide ScrollDown, Goes, IsBlankRow, Blank, Inv, Screens;
    var u := ScrollDown(t, orig, n);
    ScrollDownGoes(t, orig, n);
    ScrollSize(t, orig, n);
    InvRegion(t);
    InvShape(t);
    RowsWide(t, u, 0);
    if n >= 1 {
      ScrollDownKeeps(t, orig, n);
    } else {
      ScrollDownNone(t, orig, n);
      if t.bot < t.row - 1 {
        RowsWide(t, u, t.bot + 1);
        BlankRows(t.line[t.bot + 1], u.line[t.bot + 1], Blank(t));
      }
    }
  }

  lemma InvRegion(t: Term)
    requires Inv(t)
    ensures 0 <= t.top <= t.bot < t.row
  {}

  lemma ScrollDownKeeps(t: Term, orig: int, n: int)
    requires Inv(t) && 0 <= orig <= t.bot && n >= 1 && |ScrollDown(t, orig, n).line| == |t.line|
    ensures KeepsOutside(t, ScrollDown(t, orig, n), orig)
  {
    hide ScrollDown;
    if n > t.bot - orig + 1 {
      ScrollClips(t, orig, n);
      ScrollDownShifts(t, orig, t.bot - orig + 1);
    } else {
      ScrollDownShifts(t, orig, n);
    }
  }

  // ---- inserting, deleting and erasing cells ----

  /** On the cursor's row the cells from a to b are blanked, and nothing else changes. */
  predicate Blanks(t: Term, u: Term, a: int, b: int) {
    |u.line| == |t.line| && 0 <= t.c.y < |t.line| && |u.line[t.c.y]| == |t.line[t.c.y]|
    && (forall y :: 0 <= y < |t.line| && y != t.c.y ==> u.line[y] == t.line[y])
    && forall x :: 0 <= x < |t.line[t.c.y]| ==> u.line[t.c.y][x] == if a <= x <= b then Blank(t) else t.line[t.c.y][x]
  }

  lemma ClearBlanks(t: Term, a: int, b: int)
    requires Screens(t) && 0 <= t.c.y < t.row && a <= b && 0 <= b && a < t.col
    ensures Blanks(t, ClearRegion(t, a, t.c.y, b, t.c.y), a, b) && Blanks(t, ClearRegion(t, b, t.c.y, a, t.c.y), a, b)
  {}

  lemma ShiftedByNone(t: Term)
    requires Screens(t) && 0 <= t.c.x < t.col && 0 <= t.c.y < t.row
    ensures ShiftedRight(RowAt(t.line, t.c.y), t.c.x, 0) == RowAt(t.line, t.c.y)
    ensures ShiftedLeft(RowAt(t.line, t.c.y), t.c.x, 0) == RowAt(t.line, t.c.y)
    ensures t.(line := PutRow(t.line, t.c.y, RowAt(t.line, t.c.y))) == t
  {}

  lemma InsertNoneIs(t: Term, n: int)
    requires Screens(t) && 0 <= t.c.x < t.col && 0 <= t.c.y < t.row && n <= 0
    ensures InsertBlank(t, n) == ClearRegion(t, t.c.x, t.c.y, t.c.x - 1, t.c.y)
  {
    hide ClearRegion, ShiftedRight, ShiftedLeft, PutRow, RowAt, Shaped;
    ShiftedByNone(t);
  }

  lemma DeleteNoneIs(t: Term, n: int)
    requires Screens(t) && 0 <= t.c.x < t.col && 0 <= t.c.y < t.row && n <= 0
    ensures DeleteChar(t, n) == ClearRegion(t, t.col, t.c.y, t.col - 1, t.c.y)
  {
    hide ClearRegion, ShiftedRight, ShiftedLeft, PutRow, RowAt, Shaped;
    ShiftedByNone(t);
  }

  /** Inserting fewer than one blank blanks the cursor's cell and the one before it. */
  lemma InsertNone(t: Term, n: int)
    requires Inv(t) && n <= 0
    ensures Blanks(t, InsertBlank(t, n), t.c.x - 1, t.c.x)
  {
    hide Inv, Screens, ClearRegion, InsertBlank, Blanks;
    InvShape(t);
    InsertNoneIs(t, n);
    ClearBlanks(t, t.c.x - 1, t.c.x);
  }

  /** Deleting fewer than one cell blanks the last one of the row. */
  lemma DeleteNone(t: Term, n: int)
    requires Inv(t) && n <= 0
    ensures Blanks(t, DeleteChar(t, n), t.col - 1, t.col)
  {
    hide Inv, Screens, ClearRegion, DeleteChar, Blanks;
    InvShape(t);
    DeleteNoneIs(t, n);
    ClearBlanks(t, t.col - 1, t.col);
  }

  /** Erasing fewer than one cell blanks backwards from the cursor. */
  lemma EraseNone(t: Term, n: int)
    requires Inv(t) && n <= 0
    ensures Blanks(t, ClearRegion(t, t.c.x, t.c.y, t.c.x + n - 1, t.c.y), t.c.x + n - 1, t.c.x)
  {
    InvShape(t);
    ClearBlanks(t, t.c.x + n - 1, t.c.x);
  }

  lemma BlanksSame(t: Term, u: Term, a: int, b: int)
    requires Blanks(t, u, a, b)
    ensures u.line == t.line
      <==> forall x :: 0 <= x < |t.line[t.c.y]| && a <= x <= b ==> t.line[t.c.y][x] == Blank(t)
  {
    hide Blank;
    var r, r' := t.line[t.c.y], u.line[t.c.y];
    if forall x :: 0 <= x < |r| && a <= x <= b ==> r[x] == Blank(t) {
      forall x | 0 <= x < |r| ensures r'[x] == r[x] {}
      assert r' == r;
    }
  }

  /** A count below one leaves the screen alone if and only if those cells are blank already. */
  lemma InsertNoneExact(t: Term, n: int)
    requires Inv(t) && n <= 0
    ensures InsertBlank(t, n).line == t.line
      <==> forall x :: 0 <= x < t.col && t.c.x - 1 <= x <= t.c.x ==> t.line[t.c.y][x] == Blank(t)
  {
    InvShape(t);
    InsertNone(t, n);
    hide Inv, InsertBlank, Blanks, Blank;
    BlanksSame(t, InsertBlank(t, n), t.c.x - 1, t.c.x);
  }

  lemma DeleteNoneExact(t: Term, n: int)
    requires Inv(t) && n <= 0
    ensures DeleteChar(t, n).line == t.line <==> t.line[t.c.y][t.col - 1] == Blank(t)
  {
    InvShape(t);
    DeleteNone(t, n);
    hide Inv, DeleteChar, Blanks, Blank;
    BlanksSame(t, DeleteChar(t, n), t.col - 1, t.col);
  }

  lemma EraseNoneExact(t: Term, n: int)
    requires Inv(t) && n <= 0
    ensures ClearRegion(t, t.c.x, t.c.y, t.c.x + n - 1, t.c.y).line == t.line
      <==> forall x :: 0 <= x < t.col && t.c.x + n - 1 <= x <= t.c.x ==> t.line[t.c.y][x] == Blank(t)
  {
    InvShape(t);
    EraseNone(t, n);
    hide Inv, ClearRegion, Blanks, Blank;
    BlanksSame(t, ClearRegion(t, t.c.x, t.c.y, t.c.x + n - 1, t.c.y), t.c.x + n - 1, t.c.x);
  }

  // ---- how such a count arrives ----

  lemma {:induction false} SkipsSpaces(s: seq<Byte>, i: nat, j: nat)
    requires i <= j <= |s| && forall k :: i <= k < j ==> s[k] == 0x20 || 0x09 <= s[k] <= 0x0d
    requires j < |s| ==> s[j] != 0x20 && !(0x09 <= s[j] <= 0x0d)
    ensures SkipSpace(s, i) == j
    decreases j - i
  {
    if i == j {
    } else {
      SkipsSpaces(s, i + 1, j);
    }
  }

  /** A number may have white space and a sign before it. */
  lemma SignedReads(spaces: seq<Byte>, sign: seq<Byte>, n: nat, post: seq<Byte>)
    requires forall k :: 0 <= k < |spaces| ==> spaces[k] == 0x20 || 0x09 <= spaces[k] <= 0x0d
    requires (sign == [] || sign == [0x2b] || sign == [0x2d]) && (post != [] ==> !IsDigit(post[0]))
    ensures Strtol(spaces + sign + Digits(n) + post, 0)
      == Number(if sign == [0x2d] then 0 - n else n, |spaces| + |sign| + |Digits(n)|)
  {
    var d := Digits(n);
    var s := spaces + sign + d + post;
    DigitsDecimal(n);
    hide Digits, Decimal, SkipSpace, SkipDigits;
    var j, k := |spaces|, |spaces| + |sign|;
    assert s[k] == d[0] && IsDigit(d[0]) && s[k..k + |d|] == d;
    assert sign != [] ==> s[j] == sign[0];
    SkipsSpaces(s, 0, j);
    assert forall q :: k <= q < k + |d| ==> s[q] == d[q - k];
    assert post != [] ==> s[k + |d|] == post[0];
    SkipRun(s, k, k + |d|);
  }

  lemma NegativeNumber(f: Byte)
    requires 0x40 <= f <= 0x7e
    ensures ParseArgs([0x2d, 0x31, f], 0, 0) == Args([-1], 2)
  {
    var s: seq<Byte> := [0x2d, 0x31, f];
    assert SkipDigits(s, 1) == 2 by { assert SkipDigits(s, 2) == 2; }
    assert s[1..2] == [0x31] && Decimal([0x31]) == 1 by { assert [0x31 as Byte][..0] == []; }
    assert Strtol(s, 0) == Number(-1, 2);
  }

  /** A minus sign and a digit are read as a negative argument. */
  lemma NegativeArgument(f: Byte)
    requires 0x40 <= f <= 0x7e
    ensures var c := CsiParse(NO_CSI.(buf := [0x2d, 0x31, f]));
      |c.arg| == ESC_ARG_SIZ && c.arg[0] == -1 && c.mode0 == f && !c.priv
  {
    NegativeNumber(f);
    hide ParseArgs;
  }

  /** ESC [ - 1 and a final byte reach the handler with that argument, from any state outside a sequence. */
  lemma NegativeSequence(e: Env, t: Term, f: Byte)
    requires t.esc == NO_ESC && 0x40 <= f <= 0x7e
    ensures Puts(e, t, [0x1b, 0x5b, 0x2d, 0x31, f])
      == CsiHandle(e, t.(csi := CsiParse(NO_CSI.(buf := [0x2d, 0x31, f]))))
  {
    hide CsiHandle, CsiParse, Puts;
    var s: seq<Byte> := [0x2d, 0x31];
    Finishes(e, t, s, f);
    assert s + [f] == [0x2d, 0x31, f] && [0x1b, 0x5b] + s + [f] == [0x1b, 0x5b, 0x2d, 0x31, f];
  }

  /** Two rows with a letter each, the scroll region being the second alone. */
  function SplitRows(): Term {
    TwoRows().(top := 1)
  }

  /** The bytes ESC [ - 1 S, sent to that screen, blank the row above its scroll region. */
  lemma NegativeScroll(e: Env)
    ensures Inv(SplitRows()) && SplitRows().line[0] == [Glyph(0x58, Attr(0, 7, 0), false)]
    ensures var u := Puts(e, SplitRows(), [0x1b, 0x5b, 0x2d, 0x31, 0x53]);
      !KeepsOutside(SplitRows(), u, 1) && |u.line| == 2 && IsBlankRow(u.line[0], Blank(SplitRows()))
  {
    hide CsiHandle, CsiParse, ScrollUp, Puts, Inv;
    var c := CsiParse(NO_CSI.(buf := [0x2d, 0x31, 0x53]));
    NegativeSequence(e, SplitRows(), 0x53);
    NegativeArgument(0x53);
    CsiParsed(NO_CSI.(buf := [0x2d, 0x31, 0x53]));
    SplitInv(c);
    EditHandled(e, SplitRows().(csi := c));
    SplitLoses(c);
  }

  lemma SplitLoses(c: Csi)
    requires Inv(SplitRows().(csi := c))
    ensures var u := ScrollUp(SplitRows().(csi := c), 1, -1);
      !KeepsOutside(SplitRows(), u, 1) && |u.line| == 2 && IsBlankRow(u.line[0], Blank(SplitRows()))
  {
    hide ScrollUp, Inv;
    var t := SplitRows();
    var v := t.(csi := c);
    assert t.line[0][0] != Blank(t) && Blank(v) == Blank(t);
    ScrollUpExact(v, 1, -1);
    ScrollUpNone(v, 1, -1);
  }

  lemma SplitInv(c: Csi)
    requires |c.arg| == ESC_ARG_SIZ && c.narg <= ESC_ARG_SIZ && |c.buf| <= ESC_BUF_SIZ - 1
    ensures Inv(SplitRows()) && Inv(SplitRows().(csi := c))
  {}

  lemma TwoInv(c: Csi)
    requires |c.arg| == ESC_ARG_SIZ && c.narg <= ESC_ARG_SIZ && |c.buf| <= ESC_BUF_SIZ - 1
    ensures Inv(TwoRows()) && Inv(TwoRows().(csi := c))
  {}

  /** ESC [ - 1 with @, P or X changes a screen of letters: nothing is inserted or deleted, but a letter is blanked. */
  lemma NegativeEdits(e: Env, f: Byte)
    requires f == 0x40 || f == 0x50 || f == 0x58
    ensures Inv(TwoRows()) && Puts(e, TwoRows(), [0x1b, 0x5b, 0x2d, 0x31, f]).line != TwoRows().line
  {
    hide CsiHandle, CsiParse, InsertBlank, DeleteChar, ClearRegion, Puts, Inv;
    var c := CsiParse(NO_CSI.(buf := [0x2d, 0x31, f]));
    var v := TwoRows().(csi := c);
    NegativeSequence(e, TwoRows(), f);
    NegativeArgument(f);
    CsiParsed(NO_CSI.(buf := [0x2d, 0x31, f]));
    TwoInv(c);
    EditHandled(e, v);
    EraseHandled(e, v);
    assert v.line[1][0] != Blank(v);
    if f == 0x40 { InsertNoneExact(v, -1); }
    else if f == 0x50 { DeleteNoneExact(v, -1); }
    else { EraseNoneExact(v, -1); }
  }
}
