/**
  * Where the cursor goes: each motion sequence, as a program writes it, moves the
  * cursor by its arguments, clamped to the screen or, in origin mode, to the region.
  */
module TermMotion {
  import opened Values
  import opened TermModel
  import opened TermInvariant
  import opened TermRun
  import opened TermLaws
  import opened TermBytes

  /** A missing or zero count means one. */
  function Count(n: nat): nat { if n == 0 then 1 else n }

  /** The cursor is at column x and row y without a pending wrap, and nothing else has changed. */
  predicate CursorAt(t: Term, u: Term, x: int, y: int) {
    u.c == t.c.(x := x, y := y, wrapNext := false) && u == t.(c := u.c, csi := u.csi)
  }

  /** The rows that motion stays in. */
  function FirstRow(t: Term): int { if t.c.origin then t.top else 0 }

  function LastRow(t: Term): int { if t.c.origin then t.bot else t.row - 1 }

  /** x no further than the given end. */
  function NotPast(x: int, last: int): int { if x <= last then x else last }

  function NotBefore(x: int, first: int): int { if x >= first then x else first }

  lemma Bounds(t: Term)
    requires Inv(t)
    ensures 0 <= t.c.x < t.col && 0 <= FirstRow(t) <= t.c.y <= LastRow(t) < t.row && 0 <= t.top <= t.bot < t.row
  {}

  /** H and f: row y, column x, counted from 1; in origin mode from the top of the region. */
  lemma PositionMoves(e: Env, t: Term, y: nat, x: nat, f: Byte)
    requires Inv(t) && t.esc == NO_ESC && AreArguments([y, x]) && (f == 0x48 || f == 0x66)
    ensures CursorAt(t, Puts(e, t, Sequence(false, [y, x], f)),
      NotPast(Count(x) - 1, t.col - 1), NotPast(FirstRow(t) + Count(y) - 1, LastRow(t)))
  {
    hide Inv, CsiHandle, Puts, ReadAs;
    Bounds(t);
    var c := SequenceHandled(e, t, false, [y, x], f);
    ReadParts(c, [y, x], f, false);
    PositionHandled(e, t.(csi := c));
  }

  lemma PositionHandled(e: Env, t: Term)
    requires |t.csi.arg| == ESC_ARG_SIZ && (t.csi.mode0 == 0x48 || t.csi.mode0 == 0x66)
    ensures CsiHandle(e, t) == MoveATo(t, Default(t.csi.arg[1], 1) - 1, Default(t.csi.arg[0], 1) - 1)
  {
    hide MoveATo;
  }

  /** On a screen without origin mode a position inside it is reached exactly. */
  lemma PositionReached(e: Env, t: Term, y: nat, x: nat)
    requires Inv(t) && t.esc == NO_ESC && !t.c.origin && 1 <= y <= t.row && 1 <= x <= t.col && AreArguments([y, x])
    ensures CursorAt(t, Puts(e, t, Sequence(false, [y, x], 0x48)), x - 1, y - 1)
  {
    hide Inv, Puts;
    PositionMoves(e, t, y, x, 0x48);
  }

  /** ESC [ H alone goes to the first column of the first row. */
  lemma PositionHome(e: Env, t: Term)
    requires Inv(t) && t.esc == NO_ESC
    ensures CursorAt(t, Puts(e, t, [0x1b, 0x5b, 0x48]), 0, FirstRow(t))
  {
    hide Inv, CsiHandle, Puts, ReadAs;
    Bounds(t);
    var c := BareHandled(e, t, 0x48);
    ReadParts(c, [0], 0x48, false);
    PositionHandled(e, t.(csi := c));
  }

  lemma MotionHandled(e: Env, t: Term)
    requires |t.csi.arg| == ESC_ARG_SIZ
    ensures var n, f := Default(t.csi.arg[0], 1), t.csi.mode0;
      (f == 0x41 ==> CsiHandle(e, t) == MoveTo(t, t.c.x, t.c.y - n))
      && (f == 0x42 || f == 0x65 ==> CsiHandle(e, t) == MoveTo(t, t.c.x, t.c.y + n))
      && (f == 0x43 || f == 0x61 ==> CsiHandle(e, t) == MoveTo(t, t.c.x + n, t.c.y))
      && (f == 0x44 ==> CsiHandle(e, t) == MoveTo(t, t.c.x - n, t.c.y))
      && (f == 0x45 ==> CsiHandle(e, t) == MoveTo(t, 0, t.c.y + n))
      && (f == 0x46 ==> CsiHandle(e, t) == MoveTo(t, 0, t.c.y - n))
      && (f == 0x47 || f == 0x60 ==> CsiHandle(e, t) == MoveTo(t, n - 1, t.c.y))
      && (f == 0x64 ==> CsiHandle(e, t) == MoveATo(t, t.c.x, n - 1))
  {
    hide MoveTo, MoveATo;
  }

  /** A: up. */
  lemma UpMoves(e: Env, t: Term, n: nat)
    requires Inv(t) && t.esc == NO_ESC && AreArguments([n])
    ensures CursorAt(t, Puts(e, t, Sequence(false, [n], 0x41)), t.c.x, NotBefore(t.c.y - Count(n), FirstRow(t)))
  {
    hide Inv, CsiHandle, Puts, ReadAs;
    Bounds(t);
    var c := SequenceHandled(e, t, false, [n], 0x41);
    ReadParts(c, [n], 0x41, false);
    MotionHandled(e, t.(csi := c));
  }

  /** B and e: down. */
  lemma DownMoves(e: Env, t: Term, n: nat, f: Byte)
    requires Inv(t) && t.esc == NO_ESC && AreArguments([n]) && (f == 0x42 || f == 0x65)
    ensures CursorAt(t, Puts(e, t, Sequence(false, [n], f)), t.c.x, NotPast(t.c.y + Count(n), LastRow(t)))
  {
    hide Inv, CsiHandle, Puts, ReadAs;
    Bounds(t);
    var c := SequenceHandled(e, t, false, [n], f);
    ReadParts(c, [n], f, false);
    MotionHandled(e, t.(csi := c));
  }

  /** C and a: right. */
  lemma RightMoves(e: Env, t: Term, n: nat, f: Byte)
    requires Inv(t) && t.esc == NO_ESC && AreArguments([n]) && (f == 0x43 || f == 0x61)
    ensures CursorAt(t, Puts(e, t, Sequence(false, [n], f)), NotPast(t.c.x + Count(n), t.col - 1), t.c.y)
  {
    hide Inv, CsiHandle, Puts, ReadAs;
    Bounds(t);
    var c := SequenceHandled(e, t, false, [n], f);
    ReadParts(c, [n], f, false);
    MotionHandled(e, t.(csi := c));
  }

  /** D: left. */
  lemma LeftMoves(e: Env, t: Term, n: nat)
    requires Inv(t) && t.esc == NO_ESC && AreArguments([n])
    ensures CursorAt(t, Puts(e, t, Sequence(false, [n], 0x44)), NotBefore(t.c.x - Count(n), 0), t.c.y)
  {
    hide Inv, CsiHandle, Puts, ReadAs;
    Bounds(t);
    var c := SequenceHandled(e, t, false, [n], 0x44);
    ReadParts(c, [n], 0x44, false);
    MotionHandled(e, t.(csi := c));
  }

  /** E and F: to the first column of a row further down or up. */
  lemma LineMoves(e: Env, t: Term, n: nat, down: bool)
    requires Inv(t) && t.esc == NO_ESC && AreArguments([n])
    ensures CursorAt(t, Puts(e, t, Sequence(false, [n], if down then 0x45 else 0x46)), 0,
      if down then NotPast(t.c.y + Count(n), LastRow(t)) else NotBefore(t.c.y - Count(n), FirstRow(t)))
  {
    hide Inv, CsiHandle, Puts, ReadAs;
    var f: Byte := if down then 0x45 else 0x46;
    Bounds(t);
    var c := SequenceHandled(e, t, false, [n], f);
    ReadParts(c, [n], f, false);
    MotionHandled(e, t.(csi := c));
  }

  /** G and `: to column n, counted from 1. */
  lemma ColumnMoves(e: Env, t: Term, n: nat, f: Byte)
    requires Inv(t) && t.esc == NO_ESC && AreArguments([n]) && (f == 0x47 || f == 0x60)
    ensures CursorAt(t, Puts(e, t, Sequence(false, [n], f)), NotPast(Count(n) - 1, t.col - 1), t.c.y)
  {
    hide Inv, CsiHandle, Puts, ReadAs;
    Bounds(t);
    var c := SequenceHandled(e, t, false, [n], f);
    ReadParts(c, [n], f, false);
    MotionHandled(e, t.(csi := c));
  }

  /** d: to row n, counted from 1; in origin mode from the top of the region. */
  lemma RowMoves(e: Env, t: Term, n: nat)
    requires Inv(t) && t.esc == NO_ESC && AreArguments([n])
    ensures CursorAt(t, Puts(e, t, Sequence(false, [n], 0x64)), t.c.x, NotPast(FirstRow(t) + Count(n) - 1, LastRow(t)))
  {
    hide Inv, CsiHandle, Puts, ReadAs;
    Bounds(t);
    var c := SequenceHandled(e, t, false, [n], 0x64);
    ReadParts(c, [n], 0x64, false);
    MotionHandled(e, t.(csi := c));
  }

  /** Going right and back left, down and back up, returns where nothing was clamped. */
  lemma ThereAndBack(e: Env, t: Term, n: nat)
    requires Inv(t) && t.esc == NO_ESC && AreArguments([n]) && n > 0
    ensures t.c.x + n < t.col ==>
      Puts(e, Puts(e, t, Sequence(false, [n], 0x43)), Sequence(false, [n], 0x44)).c == t.c.(wrapNext := false)
    ensures t.c.y + n <= LastRow(t) ==>
      Puts(e, Puts(e, t, Sequence(false, [n], 0x42)), Sequence(false, [n], 0x41)).c == t.c.(wrapNext := false)
  {
    hide Puts, Inv;
    Bounds(t);
    var r, b := Puts(e, t, Sequence(false, [n], 0x43)), Puts(e, t, Sequence(false, [n], 0x42));
    RightMoves(e, t, n, 0x43);
    DownMoves(e, t, n, 0x42);
    MovedInv(e, t, r, n, 0x43);
    MovedInv(e, t, b, n, 0x42);
    LeftMoves(e, r, n);
    UpMoves(e, b, n);
  }

  lemma MovedInv(e: Env, t: Term, u: Term, n: nat, f: Byte)
    requires Inv(t) && t.esc == NO_ESC && AreArguments([n]) && (f == 0x43 || f == 0x42)
    requires u == Puts(e, t, Sequence(false, [n], f))
    ensures Inv(u) && u.esc == NO_ESC
  {
    hide CsiHandle, Puts, ReadAs;
    var c := SequenceHandled(e, t, false, [n], f);
    ReadParts(c, [n], f, false);
    MotionHandled(e, t.(csi := c));
  }

  // ---- margins and saved positions ----

  lemma MarginHandled(e: Env, t: Term)
    requires |t.csi.arg| == ESC_ARG_SIZ && t.csi.mode0 == 0x72 && !t.csi.priv
    ensures CsiHandle(e, t)
      == MoveATo(SetScroll(t, Default(t.csi.arg[0], 1) - 1, Default(t.csi.arg[1], t.row) - 1), 0, 0)
  {
    hide MoveATo, SetScroll;
  }

  /** r: the rows from a to b, counted from 1, become the scroll region, and the cursor goes home. */
  lemma MarginsSet(e: Env, t: Term, a: nat, b: nat)
    requires Inv(t) && t.esc == NO_ESC && 1 <= a <= b <= t.row && AreArguments([a, b])
    ensures var u := Puts(e, t, Sequence(false, [a, b], 0x72));
      u == t.(top := a - 1, bot := b - 1, c := u.c, csi := u.csi)
      && u.c == t.c.(x := 0, y := if t.c.origin then a - 1 else 0, wrapNext := false)
  {
    hide Inv, CsiHandle, Puts, ReadAs;
    Bounds(t);
    var c := SequenceHandled(e, t, false, [a, b], 0x72);
    ReadParts(c, [a, b], 0x72, false);
    MarginHandled(e, t.(csi := c));
  }

  /** ESC [ r alone makes the whole screen the region. */
  lemma MarginsReset(e: Env, t: Term)
    requires Inv(t) && t.esc == NO_ESC
    ensures var u := Puts(e, t, [0x1b, 0x5b, 0x72]);
      u.top == 0 && u.bot == t.row - 1 && u.c == t.c.(x := 0, y := 0, wrapNext := false) && u.line == t.line
  {
    hide Inv, CsiHandle, Puts, ReadAs;
    Bounds(t);
    var c := BareHandled(e, t, 0x72);
    ReadParts(c, [0], 0x72, false);
    MarginHandled(e, t.(csi := c));
  }

  lemma SaveHandled(e: Env, t: Term)
    ensures t.csi.mode0 == 0x73 ==> CsiHandle(e, t) == SaveCursor(t)
    ensures t.csi.mode0 == 0x75 ==> CsiHandle(e, t) == LoadCursor(t)
  {
    hide SaveCursor, LoadCursor;
  }

  lemma SaveEscaped(e: Env, t: Term)
    ensures EscHandle(e, t, 0x37) == SaveCursor(t) && EscHandle(e, t, 0x38) == LoadCursor(t)
  {
    hide SaveCursor, LoadCursor;
  }

  /** How a program asks for the cursor to be saved or restored. */
  function SaveBytes(short: bool): seq<int> { if short then [0x1b, 0x37] else [0x1b, 0x5b, 0x73] }

  function LoadBytes(short: bool): seq<int> { if short then [0x1b, 0x38] else [0x1b, 0x5b, 0x75] }

  /** s and u, or ESC 7 and ESC 8: the cursor comes back from wherever it went meanwhile. */
  lemma SavedReturns(e: Env, t: Term, y: nat, x: nat, short: bool)
    requires Inv(t) && t.esc == NO_ESC && AreArguments([y, x])
    ensures var a := Puts(e, t, SaveBytes(short));
      var b := Puts(e, a, Sequence(false, [y, x], 0x48));
      Puts(e, b, LoadBytes(short)).c == t.c.(wrapNext := false)
  {
    hide Puts, Inv, SaveBytes, LoadBytes;
    var a := Puts(e, t, SaveBytes(short));
    SavedNow(e, t, short);
    SavedInv(t, a);
    PositionMoves(e, a, y, x, 0x48);
    var b := Puts(e, a, Sequence(false, [y, x], 0x48));
    LoadedNow(e, b, short);
    LoadsBack(t, b);
  }

  /** The saved cursor of the shown screen is the current one, and nothing else has changed. */
  predicate SavedHere(t: Term, u: Term) {
    u == t.(csi := u.csi, saved0 := u.saved0, saved1 := u.saved1)
    && (if t.mode.alt then u.saved1 == t.c && u.saved0 == t.saved0 else u.saved0 == t.c && u.saved1 == t.saved1)
  }

  lemma SavedNow(e: Env, t: Term, short: bool)
    requires Inv(t) && t.esc == NO_ESC
    ensures var a := Puts(e, t, SaveBytes(short));
      SavedHere(t, a) && |a.csi.arg| == ESC_ARG_SIZ && a.csi.narg <= ESC_ARG_SIZ && |a.csi.buf| < ESC_BUF_SIZ - 1
  {
    hide Puts, Inv, CsiHandle, EscHandle;
    if short {
      EscapeHandled(e, t, 0x37);
      SaveEscaped(e, t.(csi := NO_CSI, esc := NO_ESC.(start := true)));
    } else {
      var c := BareHandled(e, t, 0x73);
      SaveHandled(e, t.(csi := c));
    }
  }

  lemma SavedInv(t: Term, a: Term)
    requires Inv(t) && SavedHere(t, a)
    requires |a.csi.arg| == ESC_ARG_SIZ && a.csi.narg <= ESC_ARG_SIZ && |a.csi.buf| < ESC_BUF_SIZ - 1
    ensures Inv(a)
  {}

  lemma LoadedNow(e: Env, t: Term, short: bool)
    requires t.esc == NO_ESC
    ensures Puts(e, t, LoadBytes(short)).c == LoadCursor(t).c
  {
    hide Puts, CsiHandle, EscHandle;
    if short {
      EscapeHandled(e, t, 0x38);
      SaveEscaped(e, t.(csi := NO_CSI, esc := NO_ESC.(start := true)));
    } else {
      var c := BareHandled(e, t, 0x75);
      SaveHandled(e, t.(csi := c));
    }
  }

  lemma LoadsBack(t: Term, b: Term)
    requires Inv(t) && b.row == t.row && b.col == t.col && b.top == t.top && b.bot == t.bot && b.mode == t.mode
    requires (if t.mode.alt then b.saved1 else b.saved0) == t.c
    ensures LoadCursor(b).c == t.c.(wrapNext := false)
  {}
}
