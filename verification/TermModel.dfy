/**
  * The terminal as a value: two screens of glyphs, the cursor, the modes and the
  * escape-sequence collector, with one total function per operation. Operations
  * clip to the screen the way the C code does; where C would index outside the
  * screen nothing is written, and the class in Terminal.dfy proves that this
  * never arises.
  */
module TermModel {
  import opened Values
  import opened Utf8

  // ---- sizes and character classes ----

  const ESC_BUF_SIZ := 512
  const ESC_ARG_SIZ := 16
  const STR_BUF_SIZ := 512
  const SIZE_MAX := 0xFFFF_FFFF_FFFF_FFFF

  const BEL := 0x07
  const CAN := 0x18
  const SUB := 0x1a
  const ESC := 0x1b

  predicate IsC0(u: int) { 0 <= u <= 0x1f || u == 0x7f }

  predicate IsC1(u: int) { 0x80 <= u <= 0x9f }

  predicate IsControl(u: int) { IsC0(u) || IsC1(u) }

  function Low8(u: int): Byte { u % 256 }

  function Limit(x: int, a: int, b: int): int {
    if x < a then a else if x > b then b else x
  }

  function Max(a: int, b: int): int { if a < b then b else a }

  function Default(a: int, b: int): int { if a != 0 then a else b }

  // ---- state ----

  datatype Attr = Attr(mode: int, fg: int, bg: int)

  /** A screen cell; wrap is ATTR_WRAP, kept apart from the drawn attributes. */
  datatype Glyph = Glyph(u: int, attr: Attr, wrap: bool)

  type Row = seq<Glyph>

  type Grid = seq<Row>

  datatype Cursor = Cursor(attr: Attr, x: int, y: int, wrapNext: bool, origin: bool)

  datatype Mode = Mode(wrap: bool, insert: bool, alt: bool, crlf: bool, echo: bool, printer: bool, utf8: bool)

  datatype EscState = EscState(
    start: bool, csi: bool, str: bool, altCharset: bool, strEnd: bool, test: bool, utf8: bool)

  const NO_ESC := EscState(false, false, false, false, false, false, false)

  /** The CSI collector: raw bytes, then the parsed arguments and final bytes. */
  datatype Csi = Csi(buf: seq<Byte>, priv: bool, arg: seq<int>, narg: nat, mode0: Byte, mode1: Byte)

  const NO_ARGS: seq<int> := [0, 0, 0, 0, 0, 0, 0, 0, 0, 0, 0, 0, 0, 0, 0, 0]

  const NO_CSI := Csi([], false, NO_ARGS, 0, 0, 0)

  /** The string collector; siz is the allocated size of the buffer. */
  datatype Str = Str(kind: Byte, buf: seq<Byte>, siz: nat)

  /** What the terminal sends back to the child. */
  datatype Reply = Identify | StatusOk | Position(y: int, x: int)

  datatype Term = Term(
    row: int, col: int,
    line: Grid, alt: Grid, dirty: seq<bool>,
    c: Cursor, saved0: Cursor, saved1: Cursor,
    ocx: int, ocy: int, top: int, bot: int,
    mode: Mode, esc: EscState,
    trantbl: seq<int>, charset: int, icharset: int,
    tabs: seq<bool>, lastc: int,
    csi: Csi, str: Str, out: seq<Reply>)

  /**
    * What the code takes from outside: the display width of a rune, the effect of
    * an SGR sequence on the current attributes, whether a string sequence changed
    * a colour, the configured attributes and tab width, and the integer that
    * follows the two-entry charset table in memory.
    */
  datatype Env = Env(
    width: int -> int,
    sgr: (Attr, seq<int>) -> Attr,
    recolours: (Byte, seq<Byte>) -> bool,
    attr0: Attr, tabspaces: nat, allowAlt: bool, afterTable: int)

  // ---- rows and grids ----

  /** Cell x of the row becomes g. */
  function PutCell(r: Row, x: int, g: Glyph): (r': Row)
    ensures |r'| == |r|
  {
    if 0 <= x < |r| then r[x := g] else r
  }

  /** Cells x1 to x2 of the row become g. */
  function ClearedRow(r: Row, x1: int, x2: int, g: Glyph): Row {
    seq(|r|, x requires 0 <= x < |r| => if x1 <= x <= x2 then g else r[x])
  }

  /** Rows y1 to y2 have cells x1 to x2 replaced by g. */
  function ClearedGrid(s: Grid, x1: int, y1: int, x2: int, y2: int, g: Glyph): Grid {
    seq(|s|, y requires 0 <= y < |s| => if y1 <= y <= y2 then ClearedRow(s[y], x1, x2, g) else s[y])
  }

  function MarkedRows(d: seq<bool>, a: int, b: int): seq<bool> {
    seq(|d|, y requires 0 <= y < |d| => d[y] || a <= y <= b)
  }

  function PutRow(s: Grid, y: int, r: Row): Grid {
    if 0 <= y < |s| then s[y := r] else s
  }

  function RowAt(s: Grid, y: int): Row {
    if 0 <= y < |s| then s[y] else []
  }

  function CellAt(s: Grid, x: int, y: int): Glyph {
    if 0 <= y < |s| && 0 <= x < |s[y]| then s[y][x] else Glyph(0, Attr(0, 0, 0), false)
  }

  // ---- dirty rows and clearing ----

  function SetDirt(t: Term, a: int, b: int): Term {
    t.(dirty := MarkedRows(t.dirty, Limit(a, 0, t.row - 1), Limit(b, 0, t.row - 1)))
  }

  function FullDirt(t: Term): Term {
    SetDirt(t, 0, t.row - 1)
  }

  /** A cleared cell takes the cursor's colours. */
  function Blank(t: Term): Glyph {
    Glyph(0x20, Attr(0, t.c.attr.fg, t.c.attr.bg), false)
  }

  function ClearRegion(t: Term, x1: int, y1: int, x2: int, y2: int): Term {
    var xa, xb := Limit(Min(x1, x2), 0, t.col - 1), Limit(Max(x1, x2), 0, t.col - 1);
    var ya, yb := Limit(Min(y1, y2), 0, t.row - 1), Limit(Max(y1, y2), 0, t.row - 1);
    t.(line := ClearedGrid(t.line, xa, ya, xb, yb, Blank(t)), dirty := MarkedRows(t.dirty, ya, yb))
  }

  // ---- cursor ----

  function MoveTo(t: Term, x: int, y: int): Term {
    var miny, maxy := if t.c.origin then t.top else 0, if t.c.origin then t.bot else t.row - 1;
    t.(c := t.c.(wrapNext := false, x := Limit(x, 0, t.col - 1), y := Limit(y, miny, maxy)))
  }

  function MoveATo(t: Term, x: int, y: int): Term {
    MoveTo(t, x, y + if t.c.origin then t.top else 0)
  }

  function SetScroll(t: Term, a: int, b: int): Term {
    var a', b' := Limit(a, 0, t.row - 1), Limit(b, 0, t.row - 1);
    t.(top := Min(a', b'), bot := Max(a', b'))
  }

  function SaveCursor(t: Term): Term {
    if t.mode.alt then t.(saved1 := t.c) else t.(saved0 := t.c)
  }

  function LoadCursor(t: Term): Term {
    var s := if t.mode.alt then t.saved1 else t.saved0;
    MoveTo(t.(c := s), s.x, s.y)
  }

  function SwapScreen(t: Term): Term {
    FullDirt(t.(line := t.alt, alt := t.line, mode := t.mode.(alt := !t.mode.alt)))
  }

  // ---- scrolling ----

  /** Rows orig to bot move up by n; the n rows at the bottom become r. */
  function ShiftedUp(s: Grid, orig: int, bot: int, n: int, r: Row): Grid {
    seq(|s|, i requires 0 <= i < |s| =>
      if orig <= i <= bot - n && 0 <= i + n < |s| then s[i + n] else if orig <= i <= bot then r else s[i])
  }

  /** Rows orig to bot move down by n; the n rows at the top become r. */
  function ShiftedDown(s: Grid, orig: int, bot: int, n: int, r: Row): Grid {
    seq(|s|, i requires 0 <= i < |s| =>
      if orig + n <= i <= bot && 0 <= i - n < |s| then s[i - n] else if orig <= i <= bot then r else s[i])
  }

  function ScrollUp(t: Term, orig: int, n: int): Term {
    var k := Limit(n, 0, t.bot - orig + 1);
    var u := SetDirt(ClearRegion(t, 0, orig, t.col - 1, orig + k - 1), orig + k, t.bot);
    u.(line := ShiftedUp(u.line, orig, t.bot, k, RowAt(u.line, orig)))
  }

  function ScrollDown(t: Term, orig: int, n: int): Term {
    var k := Limit(n, 0, t.bot - orig + 1);
    var u := ClearRegion(SetDirt(t, orig, t.bot - k), 0, t.bot - k + 1, t.col - 1, t.bot);
    u.(line := ShiftedDown(u.line, orig, t.bot, k, RowAt(u.line, t.bot)))
  }

  function NewLine(t: Term, firstCol: bool): Term {
    var u := if t.c.y == t.bot then ScrollUp(t, t.top, 1) else t;
    MoveTo(u, if firstCol then 0 else t.c.x, if t.c.y == t.bot then t.c.y else t.c.y + 1)
  }

  function InsertBlankLine(t: Term, n: int): Term {
    if t.top <= t.c.y <= t.bot then ScrollDown(t, t.c.y, n) else t
  }

  function DeleteLine(t: Term, n: int): Term {
    if t.top <= t.c.y <= t.bot then ScrollUp(t, t.c.y, n) else t
  }

  // ---- cells of the cursor's row ----

  /** Cells from x on move right by n; the last n fall off. */
  function ShiftedRight(r: Row, x: int, n: int): Row {
    seq(|r|, i requires 0 <= i < |r| => if x + n <= i && 0 <= i - n < |r| then r[i - n] else r[i])
  }

  /** Cells from x + n on move left to x. */
  function ShiftedLeft(r: Row, x: int, n: int): Row {
    seq(|r|, i requires 0 <= i < |r| => if x <= i < |r| - n && 0 <= i + n then r[i + n] else r[i])
  }

  function DeleteChar(t: Term, n: int): Term {
    var k := Limit(n, 0, t.col - t.c.x);
    var u := t.(line := PutRow(t.line, t.c.y, ShiftedLeft(RowAt(t.line, t.c.y), t.c.x, k)));
    ClearRegion(u, t.col - k, t.c.y, t.col - 1, t.c.y)
  }

  function InsertBlank(t: Term, n: int): Term {
    var k := Limit(n, 0, t.col - t.c.x);
    var u := t.(line := PutRow(t.line, t.c.y, ShiftedRight(RowAt(t.line, t.c.y), t.c.x, k)));
    ClearRegion(u, t.c.x, t.c.y, t.c.x + k - 1, t.c.y)
  }

  /** The DEC special graphics for 0x41 to 0x7e; 0 means no replacement. */
  const GRAPHIC0: seq<int> :=
    [0x2191, 0x2193, 0x2192, 0x2190, 0x2588, 0x259A, 0x2603]
    + [0, 0, 0, 0, 0, 0, 0, 0]
    + [0, 0, 0, 0, 0, 0, 0, 0]
    + [0, 0, 0, 0, 0, 0, 0, 0x20]
    + [0x25C6, 0x2592, 0x2409, 0x240C, 0x240D, 0x240A, 0x00B0, 0x00B1]
    + [0x2424, 0x240B, 0x2518, 0x2510, 0x250C, 0x2514, 0x253C, 0x23BA]
    + [0x23BB, 0x2500, 0x23BC, 0x23BD, 0x251C, 0x2524, 0x2534, 0x252C]
    + [0x2502, 0x2264, 0x2265, 0x03C0, 0x2260, 0x00A3, 0x00B7]

  const CS_GRAPHIC0 := 0
  const CS_USA := 3

  function Translate(t: Term, u: int): int {
    if 0 <= t.charset < |t.trantbl| && t.trantbl[t.charset] == CS_GRAPHIC0
       && 0x41 <= u <= 0x7e && GRAPHIC0[u - 0x41] != 0
    then GRAPHIC0[u - 0x41] else u
  }

  function SetChar(t: Term, u: int, attr: Attr, x: int, y: int): Term {
    t.(line := PutRow(t.line, y, PutCell(RowAt(t.line, y), x, Glyph(Translate(t, u), attr, false))),
       dirty := MarkedRows(t.dirty, y, y))
  }

  function DecTest(t: Term, c: Byte): Term {
    if c == 0x38 then
      var g := Glyph(Translate(t, 0x45), t.c.attr, false);
      t.(line := ClearedGrid(t.line, 0, 0, t.col - 1, t.row - 1, g), dirty := MarkedRows(t.dirty, 0, t.row - 1))
    else t
  }

  // ---- tabs ----

  /** The first stop after x, or col. */
  function NextTab(tabs: seq<bool>, x: int): (r: int)
    requires 0 <= x < |tabs|
    ensures x < r <= |tabs|
    decreases |tabs| - x
  {
    if x + 1 < |tabs| && !tabs[x + 1] then NextTab(tabs, x + 1) else x + 1
  }

  /** The last stop before x, or 0. */
  function PrevTab(tabs: seq<bool>, x: int): (r: int)
    requires 0 < x <= |tabs|
    ensures 0 <= r < x
    decreases x
  {
    if x - 1 > 0 && !tabs[x - 1] then PrevTab(tabs, x - 1) else x - 1
  }

  function TabForward(tabs: seq<bool>, x: int, n: int): (r: int)
    requires 0 <= x <= |tabs|
    ensures x <= r <= |tabs|
    decreases |tabs| - x
  {
    if x < |tabs| && n > 0 then TabForward(tabs, NextTab(tabs, x), n - 1) else x
  }

  function TabBack(tabs: seq<bool>, x: int, n: int): (r: int)
    requires 0 <= x <= |tabs|
    ensures 0 <= r <= x
    decreases x
  {
    if x > 0 && n > 0 then TabBack(tabs, PrevTab(tabs, x), n - 1) else x
  }

  function PutTab(t: Term, n: int): Term {
    var x := Limit(t.c.x, 0, |t.tabs|);
    var x' := if n > 0 then TabForward(t.tabs, x, n) else TabBack(t.tabs, x, -n);
    t.(c := t.c.(x := Limit(x', 0, t.col - 1)))
  }

  function SetTab(t: Term, on: bool): Term {
    if 0 <= t.c.x < |t.tabs| then t.(tabs := t.tabs[t.c.x := on]) else t
  }

  /** Column x lies a positive number of n columns beyond p. */
  predicate IsStop(x: int, p: int, n: nat) {
    n > 0 && x > p && (x - p) % n == 0
  }

  /** A stop in every tabspaces-th column. */
  function DefaultTabs(col: int, tabspaces: nat): seq<bool> {
    seq(Max(col, 0), x requires 0 <= x => IsStop(x, 0, tabspaces))
  }

  // ---- reset ----

  function Home(e: Env, t: Term): Term {
    t.(c := Cursor(e.attr0, 0, 0, false, false), tabs := DefaultTabs(t.col, e.tabspaces),
       top := 0, bot := t.row - 1,
       mode := Mode(true, false, false, false, false, false, true),
       trantbl := [CS_USA, CS_USA, CS_USA, CS_USA], charset := 0)
  }

  function ResetScreen(t: Term): Term {
    SwapScreen(ClearRegion(SaveCursor(MoveTo(t, 0, 0)), 0, 0, t.col - 1, t.row - 1))
  }

  function Reset(e: Env, t: Term): Term {
    ResetScreen(ResetScreen(Home(e, t)))
  }

  // ---- modes ----

  /** Modes 47, 1047 and 1049: clear the alternate screen when leaving or re-entering it, then swap. */
  function AltScreen(t: Term, set_: bool): Term {
    var u := if t.mode.alt then ClearRegion(t, 0, 0, t.col - 1, t.row - 1) else t;
    if set_ != t.mode.alt then SwapScreen(u) else u
  }

  function SaveOrLoad(t: Term, save: bool): Term {
    if save then SaveCursor(t) else LoadCursor(t)
  }

  function SetPrivate(e: Env, t: Term, set_: bool, arg: int): Term {
    if arg == 6 then MoveATo(t.(c := t.c.(origin := set_)), 0, 0)
    else if arg == 7 then t.(mode := t.mode.(wrap := set_))
    else if arg == 1049 then
      if e.allowAlt then SaveOrLoad(AltScreen(SaveOrLoad(t, set_), set_), set_) else t
    else if arg == 47 || arg == 1047 then if e.allowAlt then AltScreen(t, set_) else t
    else if arg == 1048 then SaveOrLoad(t, set_)
    else t
  }

  function SetPublic(t: Term, set_: bool, arg: int): Term {
    if arg == 4 then t.(mode := t.mode.(insert := set_))
    else if arg == 12 then t.(mode := t.mode.(echo := !set_))
    else if arg == 20 then t.(mode := t.mode.(crlf := set_))
    else t
  }

  function SetModes(e: Env, t: Term, priv: bool, set_: bool, args: seq<int>): Term
    decreases |args|
  {
    if args == [] then t
    else
      var u := if priv then SetPrivate(e, t, set_, args[0]) else SetPublic(t, set_, args[0]);
      SetModes(e, u, priv, set_, args[1..])
  }

  // ---- CSI parsing ----

  /** The byte at i; the buffer ends in a NUL. */
  function At(s: seq<Byte>, i: nat): Byte {
    if i < |s| then s[i] else 0
  }

  predicate IsSpace(b: Byte) { b == 0x20 || 0x09 <= b <= 0x0d }

  predicate IsDigit(b: Byte) { 0x30 <= b <= 0x39 }

  function SkipSpace(s: seq<Byte>, i: nat): (j: nat)
    ensures i <= j && (i <= |s| ==> j <= |s|)
    decreases |s| - i
  {
    if i < |s| && IsSpace(s[i]) then SkipSpace(s, i + 1) else i
  }

  function SkipDigits(s: seq<Byte>, i: nat): (j: nat)
    ensures i <= j && (i <= |s| ==> j <= |s|)
    ensures i <= |s| ==> forall k :: i <= k < j ==> IsDigit(s[k])
    decreases |s| - i
  {
    if i < |s| && IsDigit(s[i]) then SkipDigits(s, i + 1) else i
  }

  function Decimal(s: seq<Byte>): int {
    if s == [] then 0 else Decimal(s[..|s| - 1]) * 10 + (s[|s| - 1] as int - 0x30)
  }

  datatype Number = Number(value: int, next: nat)

  /** strtol in base 10 at position i: no digits means value 0 and no progress. */
  function Strtol(s: seq<Byte>, i: nat): (n: Number)
    requires i <= |s|
    ensures i <= n.next <= |s|
  {
    var j := SkipSpace(s, i);
    var k := if At(s, j) == 0x2b || At(s, j) == 0x2d then j + 1 else j;
    var d := SkipDigits(s, k);
    if d == k then Number(0, i)
    else Number(if At(s, j) == 0x2d then -Decimal(s[k..d]) else Decimal(s[k..d]), d)
  }

  const LONG_MAX := 0x7FFF_FFFF_FFFF_FFFF
  const LONG_MIN := -0x8000_0000_0000_0000

  /** A parsed long as the argument array stores it: overflow is -1, the rest wraps to 32 bits. */
  function ToArg(v: int): int {
    if v >= LONG_MAX || v <= LONG_MIN then -1
    else (v + 0x8000_0000) % 0x1_0000_0000 - 0x8000_0000
  }

  datatype Args = Args(arg: seq<int>, next: nat)

  /** The arguments from p on, when k have already been stored. */
  function ParseArgs(s: seq<Byte>, p: nat, k: nat): (a: Args)
    requires p <= |s| && k < ESC_ARG_SIZ
    ensures |a.arg| + k <= ESC_ARG_SIZ && p <= a.next <= |s|
    decreases |s| - p
  {
    if p >= |s| then Args([], p)
    else
      var n := Strtol(s, p);
      if At(s, n.next) != 0x3b || k + 1 == ESC_ARG_SIZ then Args([ToArg(n.value)], n.next)
      else
        var r := ParseArgs(s, n.next + 1, k + 1);
        Args([ToArg(n.value)] + r.arg, r.next)
  }

  function CsiParse(c: Csi): Csi {
    var priv := At(c.buf, 0) == 0x3f;
    var p := if priv then 1 else 0;
    if p > |c.buf| then c.(narg := 0)
    else
      var a := ParseArgs(c.buf, p, 0);
      c.(priv := c.priv || priv, narg := |a.arg|,
         arg := a.arg + (if |a.arg| <= |c.arg| then c.arg[|a.arg|..] else []),
         mode0 := At(c.buf, a.next), mode1 := At(c.buf, a.next + 1))
  }

  // ---- CSI dispatch ----

  function Arg0(t: Term): int { if |t.csi.arg| > 0 then t.csi.arg[0] else 0 }

  function Arg1(t: Term): int { if |t.csi.arg| > 1 then t.csi.arg[1] else 0 }

  function EraseDisplay(t: Term, how: int): Term {
    match how
    case 0 =>
      var u := ClearRegion(t, t.c.x, t.c.y, t.col - 1, t.c.y);
      if t.c.y < t.row - 1 then ClearRegion(u, 0, t.c.y + 1, t.col - 1, t.row - 1) else u
    case 1 =>
      var u := if t.c.y > 1 then ClearRegion(t, 0, 0, t.col - 1, t.c.y - 1) else t;
      ClearRegion(u, 0, t.c.y, t.c.x, t.c.y)
    case 2 => ClearRegion(t, 0, 0, t.col - 1, t.row - 1)
    case _ => t
  }

  function EraseLine(t: Term, how: int): Term {
    match how
    case 0 => ClearRegion(t, t.c.x, t.c.y, t.col - 1, t.c.y)
    case 1 => ClearRegion(t, 0, t.c.y, t.c.x, t.c.y)
    case 2 => ClearRegion(t, 0, t.c.y, t.col - 1, t.c.y)
    case _ => t
  }

  function Send(t: Term, r: Reply): Term {
    t.(out := t.out + [r])
  }

  /** REP: the last printed rune n more times. */
  function Repeat(e: Env, t: Term, n: int): Term
    decreases n
  {
    if n <= 0 then t else Repeat(e, Print(e, t, t.lastc), n - 1)
  }

  function ClearTabs(t: Term): Term {
    if Arg0(t) == 0 then SetTab(t, false)
    else if Arg0(t) == 3 then t.(tabs := seq(|t.tabs|, _ => false))
    else t
  }

  function CsiHandle(e: Env, t: Term): Term {
    var n := Default(Arg0(t), 1);
    match t.csi.mode0 as int
    case 0x40 => InsertBlank(t, n)
    case 0x41 => MoveTo(t, t.c.x, t.c.y - n)
    case 0x42 => MoveTo(t, t.c.x, t.c.y + n)
    case 0x65 => MoveTo(t, t.c.x, t.c.y + n)
    case 0x69 =>
      if Arg0(t) == 4 then t.(mode := t.mode.(printer := false))
      else if Arg0(t) == 5 then t.(mode := t.mode.(printer := true))
      else t
    case 0x63 => if Arg0(t) == 0 then Send(t, Identify) else t
    case 0x62 => if t.lastc != 0 then Repeat(e, t, Limit(Arg0(t), 1, 65535)) else t
    case 0x43 => MoveTo(t, t.c.x + n, t.c.y)
    case 0x61 => MoveTo(t, t.c.x + n, t.c.y)
    case 0x44 => MoveTo(t, t.c.x - n, t.c.y)
    case 0x45 => MoveTo(t, 0, t.c.y + n)
    case 0x46 => MoveTo(t, 0, t.c.y - n)
    case 0x67 => ClearTabs(t)
    case 0x47 => MoveTo(t, n - 1, t.c.y)
    case 0x60 => MoveTo(t, n - 1, t.c.y)
    case 0x48 => MoveATo(t, Default(Arg1(t), 1) - 1, n - 1)
    case 0x66 => MoveATo(t, Default(Arg1(t), 1) - 1, n - 1)
    case 0x49 => PutTab(t, n)
    case 0x4a => EraseDisplay(t, Arg0(t))
    case 0x4b => EraseLine(t, Arg0(t))
    case 0x53 => if t.csi.priv then t else ScrollUp(t, t.top, n)
    case 0x54 => ScrollDown(t, t.top, n)
    case 0x4c => InsertBlankLine(t, n)
    case 0x6c => SetModes(e, t, t.csi.priv, false, t.csi.arg[..Min(t.csi.narg, |t.csi.arg|)])
    case 0x4d => DeleteLine(t, n)
    case 0x58 => ClearRegion(t, t.c.x, t.c.y, t.c.x + n - 1, t.c.y)
    case 0x50 => DeleteChar(t, n)
    case 0x5a => PutTab(t, -n)
    case 0x64 => MoveATo(t, t.c.x, n - 1)
    case 0x68 => SetModes(e, t, t.csi.priv, true, t.csi.arg[..Min(t.csi.narg, |t.csi.arg|)])
    case 0x6d => t.(c := t.c.(attr := e.sgr(t.c.attr, t.csi.arg[..Min(t.csi.narg, |t.csi.arg|)])))
    case 0x6e =>
      if Arg0(t) == 5 then Send(t, StatusOk)
      else if Arg0(t) == 6 then Send(t, Position(t.c.y + 1, t.c.x + 1))
      else t
    case 0x72 =>
      if t.csi.priv then t else MoveATo(SetScroll(t, n - 1, Default(Arg1(t), t.row) - 1), 0, 0)
    case 0x73 => SaveCursor(t)
    case 0x75 => LoadCursor(t)
    case _ => t
  }

  // ---- string sequences, control codes and two-byte escapes ----

  function StrHandle(e: Env, t: Term): Term {
    var u := t.(esc := t.esc.(str := false, strEnd := false));
    if e.recolours(t.str.kind, t.str.buf) then FullDirt(u) else u
  }

  function StrSequence(t: Term, c: Byte): Term {
    var kind := match c as int
      case 0x90 => 0x50
      case 0x9f => 0x5f
      case 0x9e => 0x5e
      case 0x9d => 0x5d
      case _ => c;
    t.(str := Str(kind, [], STR_BUF_SIZ), esc := t.esc.(str := true))
  }

  /** The end of tcontrolcode: the code interrupts a string sequence. */
  function EndStr(t: Term): Term {
    t.(esc := t.esc.(str := false, strEnd := false))
  }

  function ControlCode(e: Env, t: Term, c: Byte): Term {
    match c as int
    case 0x09 => PutTab(t, 1)
    case 0x08 => MoveTo(t, t.c.x - 1, t.c.y)
    case 0x0d => MoveTo(t, 0, t.c.y)
    case 0x0c => NewLine(t, t.mode.crlf)
    case 0x0b => NewLine(t, t.mode.crlf)
    case 0x0a => NewLine(t, t.mode.crlf)
    case 0x07 => EndStr(if t.esc.strEnd then StrHandle(e, t) else t)
    case 0x1b =>
      t.(csi := NO_CSI, esc := t.esc.(csi := false, altCharset := false, test := false, start := true))
    case 0x0e => t.(charset := 1)
    case 0x0f => t.(charset := 0)
    case 0x1a => EndStr(SetChar(t, 0x3f, t.c.attr, t.c.x, t.c.y).(csi := NO_CSI))
    case 0x18 => EndStr(t.(csi := NO_CSI))
    case 0x05 => t
    case 0x00 => t
    case 0x11 => t
    case 0x13 => t
    case 0x7f => t
    case 0x85 => EndStr(NewLine(t, true))
    case 0x88 => EndStr(SetTab(t, true))
    case 0x9a => EndStr(Send(t, Identify))
    case 0x90 => StrSequence(t, c)
    case 0x9d => StrSequence(t, c)
    case 0x9e => StrSequence(t, c)
    case 0x9f => StrSequence(t, c)
    case _ => EndStr(t)
  }

  /** The bytes after ESC that leave the sequence open. */
  predicate EscContinues(c: Byte) {
    c == 0x5b || c == 0x23 || c == 0x25
    || c == 0x50 || c == 0x5f || c == 0x5e || c == 0x5d || c == 0x6b
    || 0x28 <= c <= 0x2b
  }

  function EscHandle(e: Env, t: Term, c: Byte): Term {
    match c as int
    case 0x5b => t.(esc := t.esc.(csi := true))
    case 0x23 => t.(esc := t.esc.(test := true))
    case 0x25 => t.(esc := t.esc.(utf8 := true))
    case 0x50 => StrSequence(t, c)
    case 0x5f => StrSequence(t, c)
    case 0x5e => StrSequence(t, c)
    case 0x5d => StrSequence(t, c)
    case 0x6b => StrSequence(t, c)
    case 0x6e => t.(charset := 2)
    case 0x6f => t.(charset := 3)
    case 0x28 => t.(icharset := 0, esc := t.esc.(altCharset := true))
    case 0x29 => t.(icharset := 1, esc := t.esc.(altCharset := true))
    case 0x2a => t.(icharset := 2, esc := t.esc.(altCharset := true))
    case 0x2b => t.(icharset := 3, esc := t.esc.(altCharset := true))
    case 0x44 => if t.c.y == t.bot then ScrollUp(t, t.top, 1) else MoveTo(t, t.c.x, t.c.y + 1)
    case 0x45 => NewLine(t, true)
    case 0x48 => SetTab(t, true)
    case 0x4d => if t.c.y == t.top then ScrollDown(t, t.top, 1) else MoveTo(t, t.c.x, t.c.y - 1)
    case 0x5a => Send(t, Identify)
    case 0x63 => Reset(e, t)
    case 0x37 => SaveCursor(t)
    case 0x38 => LoadCursor(t)
    case 0x5c => if t.esc.strEnd then StrHandle(e, t) else t
    case _ => t
  }

  function DefUtf8(t: Term, c: Byte): Term {
    if c == 0x47 then t.(mode := t.mode.(utf8 := true))
    else if c == 0x40 then t.(mode := t.mode.(utf8 := false))
    else t
  }

  /** The table search also stops at the terminating NUL of "0B". */
  function DefTran(e: Env, t: Term, c: Byte): Term {
    if (c != 0x30 && c != 0x42 && c != 0) || !(0 <= t.icharset < |t.trantbl|) then t
    else
      var cs := if c == 0x30 then CS_GRAPHIC0 else if c == 0x42 then CS_USA else e.afterTable;
      t.(trantbl := t.trantbl[t.icharset := cs])
  }

  // ---- one rune ----

  /** No rune is two columns wide. */
  ghost predicate Narrow(e: Env) {
    forall u :: -1 <= e.width(u) <= 1
  }

  function Width(e: Env, t: Term, u: int): int {
    if u < 127 || !t.mode.utf8 then 1
    else if e.width(u) == -1 then 1 else e.width(u)
  }

  function RawBytes(t: Term, u: int): (s: seq<Byte>)
    ensures 1 <= |s| <= 4
  {
    if u < 127 || !t.mode.utf8 then [Low8(u)] else Encode(u)
  }

  /** Appends to the string buffer, doubling it when full; at the size limit the rune is dropped. */
  function StrPut(s: Str, b: seq<Byte>): Str {
    if |s.buf| + |b| < s.siz then s.(buf := s.buf + b)
    else if s.siz > (SIZE_MAX - 4) / 2 then s
    else s.(siz := s.siz * 2, buf := s.buf + b)
  }

  predicate EndsStr(u: int) {
    u == BEL || u == CAN || u == SUB || u == ESC || IsC1(u)
  }

  /** Marks the wrapped cell and moves on when the last column is already full. */
  function WrapLine(t: Term): Term {
    if t.mode.wrap && t.c.wrapNext then
      var r := RowAt(t.line, t.c.y);
      NewLine(t.(line := PutRow(t.line, t.c.y,
        PutCell(r, t.c.x, CellAt(t.line, t.c.x, t.c.y).(wrap := true)))), true)
    else t
  }

  function OpenCell(t: Term, w: int): Term {
    if t.mode.insert && t.c.x + w < t.col then
      t.(line := PutRow(t.line, t.c.y, ShiftedRight(RowAt(t.line, t.c.y), t.c.x, w)))
    else t
  }

  function Advance(t: Term, w: int): Term {
    if t.c.x + w < t.col then MoveTo(t, t.c.x + w, t.c.y) else t.(c := t.c.(wrapNext := true))
  }

  /** A printable rune at the cursor. */
  function Print(e: Env, t: Term, u: int): Term {
    var w := Width(e, t, u);
    var v := OpenCell(WrapLine(t), w);
    Advance(SetChar(v, u, v.c.attr, v.c.x, v.c.y).(lastc := u), w)
  }

  function Control(e: Env, t: Term, u: int): Term {
    if t.mode.utf8 && IsC1(u) then t
    else
      var v := ControlCode(e, t, Low8(u));
      if v.esc == NO_ESC then v.(lastc := 0) else v
  }

  function CollectCsi(e: Env, t: Term, u: int): Term {
    var v := t.(csi := t.csi.(buf := t.csi.buf + [Low8(u)]));
    if 0x40 <= u <= 0x7e || |v.csi.buf| >= ESC_BUF_SIZ - 1 then
      CsiHandle(e, v.(esc := NO_ESC, csi := CsiParse(v.csi)))
    else v
  }

  function Escape(e: Env, t: Term, u: int): Term {
    if t.esc.csi then CollectCsi(e, t, u)
    else if t.esc.utf8 then DefUtf8(t, Low8(u)).(esc := NO_ESC)
    else if t.esc.altCharset then DefTran(e, t, Low8(u)).(esc := NO_ESC)
    else if t.esc.test then DecTest(t, Low8(u)).(esc := NO_ESC)
    else if EscContinues(Low8(u)) then EscHandle(e, t, Low8(u))
    else EscHandle(e, t, Low8(u)).(esc := NO_ESC)
  }

  function Putc(e: Env, t: Term, u: int): Term {
    if t.esc.str && !EndsStr(u) then t.(str := StrPut(t.str, RawBytes(t, u)))
    else
      var v := if t.esc.str then t.(esc := t.esc.(start := false, str := false, strEnd := true)) else t;
      if IsControl(u) then Control(e, v, u)
      else if v.esc.start then Escape(e, v, u)
      else Print(e, v, u)
  }
}
