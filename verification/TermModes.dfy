/** Modes, replies, character tables, the alignment test and the full reset, by the sequences that ask for them. */
module TermModes {
  import opened Values
  import opened TermModel
  import opened TermInvariant
  import opened TermRun
  import opened TermLaws
  import opened TermBytes
  import opened TermMotion
  import opened TermEdits
  import opened TermControls

  // ---- modes ----

  /** h sets a mode and l resets it. */
  function Final(on: bool): Byte { if on then 0x68 else 0x6c }

  lemma ModesHandled(e: Env, t: Term)
    requires |t.csi.arg| == ESC_ARG_SIZ && t.csi.narg <= ESC_ARG_SIZ
    ensures t.csi.mode0 == 0x68 ==> CsiHandle(e, t) == SetModes(e, t, t.csi.priv, true, t.csi.arg[..t.csi.narg])
    ensures t.csi.mode0 == 0x6c ==> CsiHandle(e, t) == SetModes(e, t, t.csi.priv, false, t.csi.arg[..t.csi.narg])
  {
    hide SetModes;
  }

  lemma ModesSet(e: Env, t: Term, priv: bool, args: seq<nat>, on: bool) returns (c: Csi)
    requires t.esc == NO_ESC && AreArguments(args)
    ensures Puts(e, t, Sequence(priv, args, Final(on))) == SetModes(e, t, priv, on, args).(csi := c)
  {
    hide CsiHandle, Puts, ReadAs, SetModes;
    c := SequenceHandled(e, t, priv, args, Final(on));
    ReadParts(c, args, Final(on), priv);
    ModesHandled(e, t.(csi := c));
    SetModesCsi(e, t, priv, on, args, c);
  }

  /** The collector plays no part. */
  lemma {:induction false} SetModesCsi(e: Env, t: Term, priv: bool, on: bool, args: seq<int>, c: Csi)
    ensures SetModes(e, t.(csi := c), priv, on, args) == SetModes(e, t, priv, on, args).(csi := c)
    decreases |args|
  {
    hide SetPrivate, SetPublic;
    if args == [] {
    } else {
      SetOneCsi(e, t, on, args[0], c);
      SetModesCsi(e, if priv then SetPrivate(e, t, on, args[0]) else SetPublic(t, on, args[0]), priv, on, args[1..], c);
    }
  }

  lemma SetOneCsi(e: Env, t: Term, on: bool, n: int, c: Csi)
    ensures SetPrivate(e, t.(csi := c), on, n) == SetPrivate(e, t, on, n).(csi := c)
    ensures SetPublic(t.(csi := c), on, n) == SetPublic(t, on, n).(csi := c)
  {
    hide AltScreen, SaveOrLoad;
    AltAside(t, on, c);
    SaveAside(t, on, c);
    AltAside(SaveOrLoad(t, on), on, c);
    SaveAside(AltScreen(SaveOrLoad(t, on), on), on, c);
  }

  lemma AltAside(t: Term, on: bool, c: Csi)
    ensures AltScreen(t.(csi := c), on) == AltScreen(t, on).(csi := c)
  {
    hide ClearRegion, MarkedRows;
    ClearAside(t, 0, 0, t.col - 1, t.row - 1, c, t.esc);
    ClearKeeps(t);
  }

  lemma ClearKeeps(t: Term)
    ensures var u := ClearRegion(t, 0, 0, t.col - 1, t.row - 1); u == t.(line := u.line, dirty := u.dirty)
  {
    hide ClearedGrid, MarkedRows;
  }

  lemma SaveAside(t: Term, save: bool, c: Csi)
    ensures SaveOrLoad(t.(csi := c), save) == SaveOrLoad(t, save).(csi := c)
  {}

  lemma SetOneMode(e: Env, t: Term, priv: bool, on: bool, n: int)
    ensures SetModes(e, t, priv, on, [n]) == if priv then SetPrivate(e, t, on, n) else SetPublic(t, on, n)
  {
    hide SetPrivate, SetPublic;
    assert [n][1..] == [];
  }

  lemma {:induction false} SetModesJoin(e: Env, t: Term, priv: bool, on: bool, a: seq<int>, b: seq<int>)
    ensures SetModes(e, t, priv, on, a + b) == SetModes(e, SetModes(e, t, priv, on, a), priv, on, b)
    decreases |a|
  {
    hide SetPrivate, SetPublic;
    if a == [] {
      assert a + b == b;
    } else {
      assert (a + b)[1..] == a[1..] + b;
      SetModesJoin(e, if priv then SetPrivate(e, t, on, a[0]) else SetPublic(t, on, a[0]), priv, on, a[1..], b);
    }
  }

  lemma {:induction false} SetModesEsc(e: Env, t: Term, priv: bool, on: bool, args: seq<int>)
    ensures SetModes(e, t, priv, on, args).esc == t.esc
    decreases |args|
  {
    if args == [] {
    } else {
      var u := if priv then SetPrivate(e, t, on, args[0]) else SetPublic(t, on, args[0]);
      assert u.esc == t.esc;
      hide SetPrivate, SetPublic;
      SetModesEsc(e, u, priv, on, args[1..]);
    }
  }

  /** Several modes in one sequence are set one after the other. */
  lemma ModesInTurn(e: Env, t: Term, priv: bool, a: seq<nat>, b: seq<nat>, on: bool)
    requires t.esc == NO_ESC && AreArguments(a) && AreArguments(b) && AreArguments(a + b)
    ensures var u := Puts(e, t, Sequence(priv, a, Final(on)));
      Puts(e, t, Sequence(priv, a + b, Final(on))).(csi := NO_CSI)
        == Puts(e, u, Sequence(priv, b, Final(on))).(csi := NO_CSI)
  {
    hide Puts, SetModes, Sequence, AreArguments;
    var c := ModesSet(e, t, priv, a + b, on);
    var d := ModesSet(e, t, priv, a, on);
    var m := SetModes(e, t, priv, on, a);
    SetModesEsc(e, t, priv, on, a);
    var f := ModesSet(e, m.(csi := d), priv, b, on);
    SetModesCsi(e, m, priv, on, b, d);
    SetModesJoin(e, t, priv, on, a, b);
  }

  /** The public modes: 4 insert, 12 echo (off when set), 20 newline; no other number does anything. */
  lemma PublicMode(e: Env, t: Term, n: nat, on: bool)
    requires t.esc == NO_ESC && AreArguments([n])
    ensures var u := Puts(e, t, Sequence(false, [n], Final(on)));
      u == t.(csi := u.csi, mode := u.mode) && u.mode == t.mode.(
        insert := if n == 4 then on else t.mode.insert, echo := if n == 12 then !on else t.mode.echo,
        crlf := if n == 20 then on else t.mode.crlf)
  {
    hide Puts, SetModes, Sequence;
    var c := ModesSet(e, t, false, [n], on);
    SetOneMode(e, t, false, on, n);
  }

  /** Private mode 7: whether a full row wraps. */
  lemma WrapMode(e: Env, t: Term, on: bool)
    requires t.esc == NO_ESC
    ensures var u := Puts(e, t, Sequence(true, [7], Final(on))); u == t.(csi := u.csi, mode := t.mode.(wrap := on))
  {
    hide Puts, SetModes, Sequence;
    var c := ModesSet(e, t, true, [7], on);
    SetOneMode(e, t, true, on, 7);
  }

  /** Private mode 6: rows count from the region's top, and the cursor goes to the new first row. */
  lemma OriginMode(e: Env, t: Term, on: bool)
    requires Inv(t) && t.esc == NO_ESC
    ensures var u := Puts(e, t, Sequence(true, [6], Final(on)));
      u == t.(csi := u.csi, c := t.c.(origin := on, x := 0, y := if on then t.top else 0, wrapNext := false))
  {
    Bounds(t);
    hide Inv, Puts, SetModes, Sequence;
    var c := ModesSet(e, t, true, [6], on);
    SetOneMode(e, t, true, on, 6);
  }

  /** Private mode 1048 saves and restores the cursor as ESC 7 and ESC 8 do. */
  lemma CursorMode(e: Env, t: Term, on: bool)
    requires t.esc == NO_ESC
    ensures var u := Puts(e, t, Sequence(true, [1048], Final(on)));
      u.(csi := NO_CSI) == Puts(e, t, [0x1b, if on then 0x37 else 0x38]).(csi := NO_CSI)
  {
    hide Puts, SetModes, Sequence, EscHandle;
    var c := ModesSet(e, t, true, [1048], on);
    SetOneMode(e, t, true, on, 1048);
    EscapeHandled(e, t, if on then 0x37 else 0x38);
    SaveEscaped(e, t.(csi := NO_CSI, esc := STARTED));
  }

  /** Other private numbers do nothing. */
  lemma OtherModes(e: Env, t: Term, n: nat, on: bool)
    requires t.esc == NO_ESC && AreArguments([n]) && n !in {6, 7, 47, 1047, 1048, 1049}
    ensures var u := Puts(e, t, Sequence(true, [n], Final(on))); u == t.(csi := u.csi)
  {
    hide Puts, SetModes, Sequence;
    var c := ModesSet(e, t, true, [n], on);
    SetOneMode(e, t, true, on, n);
  }

  /** 47 and 1047 show the other screen as it is, unless it is shown already; it is blanked on the way out. */
  lemma ScreenMode(e: Env, t: Term, n: nat, on: bool)
    requires Inv(t) && t.esc == NO_ESC && (n == 47 || n == 1047)
    ensures var u := Puts(e, t, Sequence(true, [n], Final(on)));
      if !e.allowAlt then u == t.(csi := u.csi)
      else
        u.mode == t.mode.(alt := on) && u.c == t.c && u.top == t.top && u.bot == t.bot
        && (!t.mode.alt && on ==> u.line == t.alt && u.alt == t.line)
        && (!t.mode.alt && !on ==> u.line == t.line && u.alt == t.alt)
        && (t.mode.alt && !on ==> u.line == t.alt && AllBlank(t, u.alt))
        && (t.mode.alt && on ==> u.alt == t.alt && AllBlank(t, u.line))
  {
    hide Inv, Puts, SetModes, Sequence, ClearRegion, AllBlank, Shaped, AltScreen, SaveOrLoad;
    InvShape(t);
    var c := ModesSet(e, t, true, [n], on);
    SetOneMode(e, t, true, on, n);
    if t.mode.alt { BlanksAll(t); }
    AltScreenIs(t, on);
  }

  /** 1049 from the main screen: it is put away as it is, and the cursor saved for both screens. */
  lemma AlternateEntered(e: Env, t: Term)
    requires t.esc == NO_ESC && e.allowAlt && !t.mode.alt
    ensures var u := Puts(e, t, Sequence(true, [1049], Final(true)));
      u.line == t.alt && u.alt == t.line && u.mode == t.mode.(alt := true) && u.c == t.c
      && u.saved0 == t.c && u.saved1 == t.c && u.top == t.top && u.bot == t.bot
  {
    hide Puts, SetModes, Sequence, ClearRegion, MarkedRows;
    var c := ModesSet(e, t, true, [1049], true);
    SetOneMode(e, t, true, true, 1049);
  }

  /** 1049 reset on the alternate screen: the main screen and its saved cursor come back. */
  lemma AlternateLeft(e: Env, t: Term)
    requires t.esc == NO_ESC && e.allowAlt && t.mode.alt
    requires var s := t.saved0;
      0 <= s.x < t.col && (if s.origin then t.top else 0) <= s.y <= (if s.origin then t.bot else t.row - 1)
    ensures var u := Puts(e, t, Sequence(true, [1049], Final(false)));
      u.line == t.alt && u.mode == t.mode.(alt := false) && u.c == t.saved0.(wrapNext := false)
      && u.saved0 == t.saved0 && u.top == t.top && u.bot == t.bot
  {
    hide Puts, SetModes, Sequence, ClearRegion, MarkedRows;
    var c := ModesSet(e, t, true, [1049], false);
    SetOneMode(e, t, true, false, 1049);
    ClearKeeps(LoadCursor(t));
  }

  /** Every cell of the grid is a space in the cursor's colours. */
  predicate AllBlank(t: Term, g: Grid) {
    |g| == t.row && forall y :: 0 <= y < t.row ==> IsBlankRow(g[y], Space(t))
  }

  lemma BlanksAll(t: Term)
    requires Screens(t) && t.row > 0 && t.col > 0
    ensures AllBlank(t, ClearRegion(t, 0, 0, t.col - 1, t.row - 1).line)
  {}

  lemma AltScreenIs(t: Term, on: bool)
    ensures var k, u := ClearRegion(t, 0, 0, t.col - 1, t.row - 1).line, AltScreen(t, on);
      u.mode == t.mode.(alt := on) && u.c == t.c && u.top == t.top && u.bot == t.bot
      && (if on == t.mode.alt then u.alt == t.alt && u.line == (if on then k else t.line)
        else u.line == t.alt && u.alt == if on then t.line else k)
  {}

  // ---- replies ----

  lemma ReplyHandled(e: Env, t: Term)
    requires |t.csi.arg| == ESC_ARG_SIZ
    ensures t.csi.mode0 == 0x6e ==> CsiHandle(e, t) == (if t.csi.arg[0] == 5 then Send(t, StatusOk)
      else if t.csi.arg[0] == 6 then Send(t, Position(t.c.y + 1, t.c.x + 1)) else t)
    ensures t.csi.mode0 == 0x63 ==> CsiHandle(e, t) == if t.csi.arg[0] == 0 then Send(t, Identify) else t
    ensures t.csi.mode0 == 0x69 ==> CsiHandle(e, t) == t.(mode := t.mode.(printer :=
      if t.csi.arg[0] == 4 then false else if t.csi.arg[0] == 5 then true else t.mode.printer))
  {
    hide Send;
  }

  /** Only this has been sent to the program. */
  predicate Answers(t: Term, u: Term, replies: seq<Reply>) {
    u == t.(csi := u.csi, out := t.out + replies)
  }

  /** n: 5 asks for the status and 6 for the cursor's row and column, counted from 1. */
  lemma ReportAnswers(e: Env, t: Term, n: nat)
    requires t.esc == NO_ESC && AreArguments([n])
    ensures Answers(t, Puts(e, t, Sequence(false, [n], 0x6e)),
      if n == 5 then [StatusOk] else if n == 6 then [Position(t.c.y + 1, t.c.x + 1)] else [])
  {
    hide CsiHandle, Puts, ReadAs, Sequence;
    var c := SequenceHandled(e, t, false, [n], 0x6e);
    ReadParts(c, [n], 0x6e, false);
    ReplyHandled(e, t.(csi := c));
    assert t.out + [] == t.out;
  }

  /** The report names the position that H would go to: going there leaves the cursor where it is. */
  lemma ReportReturns(e: Env, t: Term)
    requires Inv(t) && t.esc == NO_ESC && !t.c.origin && AreArguments([t.c.y + 1, t.c.x + 1])
    ensures CursorAt(t, Puts(e, t, Sequence(false, [t.c.y + 1, t.c.x + 1], 0x48)), t.c.x, t.c.y)
  {
    Bounds(t);
    hide Inv, Puts, Sequence;
    PositionReached(e, t, t.c.y + 1, t.c.x + 1);
  }

  /** c and ESC Z: who the terminal is. */
  lemma IdentifyAnswers(e: Env, t: Term, n: nat)
    requires t.esc == NO_ESC && AreArguments([n])
    ensures Answers(t, Puts(e, t, Sequence(false, [n], 0x63)), if n == 0 then [Identify] else [])
    ensures Answers(t, Puts(e, t, [0x1b, 0x5a]), [Identify])
  {
    hide CsiHandle, Puts, ReadAs, Sequence, EscHandle;
    var c := SequenceHandled(e, t, false, [n], 0x63);
    ReadParts(c, [n], 0x63, false);
    ReplyHandled(e, t.(csi := c));
    assert t.out + [] == t.out;
    EscapeHandled(e, t, 0x5a);
    EscapeDoes(e, t.(csi := NO_CSI, esc := STARTED));
  }

  /** i: 5 starts copying to the printer and 4 stops it. */
  lemma PrinterMode(e: Env, t: Term, n: nat)
    requires t.esc == NO_ESC && AreArguments([n])
    ensures var u := Puts(e, t, Sequence(false, [n], 0x69));
      u == t.(csi := u.csi, mode := t.mode.(printer :=
        if n == 5 then true else if n == 4 then false else t.mode.printer))
  {
    hide CsiHandle, Puts, ReadAs, Sequence;
    var c := SequenceHandled(e, t, false, [n], 0x69);
    ReadParts(c, [n], 0x69, false);
    ReplyHandled(e, t.(csi := c));
  }

  // ---- character tables ----

  /** The line-drawing and symbol characters, by the letter that stands for each. */
  function Graphic(u: int): int {
    match u
    case 0x41 => 0x2191
    case 0x42 => 0x2193
    case 0x43 => 0x2192
    case 0x44 => 0x2190
    case 0x45 => 0x2588
    case 0x46 => 0x259A
    case 0x47 => 0x2603
    case 0x5f => 0x20
    case 0x60 => 0x25C6
    case 0x61 => 0x2592
    case 0x62 => 0x2409
    case 0x63 => 0x240C
    case 0x64 => 0x240D
    case 0x65 => 0x240A
    case 0x66 => 0xB0
    case 0x67 => 0xB1
    case 0x68 => 0x2424
    case 0x69 => 0x240B
    case 0x6a => 0x2518
    case 0x6b => 0x2510
    case 0x6c => 0x250C
    case 0x6d => 0x2514
    case 0x6e => 0x253C
    case 0x6f => 0x23BA
    case 0x70 => 0x23BB
    case 0x71 => 0x2500
    case 0x72 => 0x23BC
    case 0x73 => 0x23BD
    case 0x74 => 0x251C
    case 0x75 => 0x2524
    case 0x76 => 0x2534
    case 0x77 => 0x252C
    case 0x78 => 0x2502
    case 0x79 => 0x2264
    case 0x7a => 0x2265
    case 0x7b => 0x3C0
    case 0x7c => 0x2260
    case 0x7d => 0xA3
    case 0x7e => 0xB7
    case _ => u
  }

  lemma GraphicArrows(u: int)
    requires 0x41 <= u <= 0x47
    ensures (if GRAPHIC0[u - 0x41] != 0 then GRAPHIC0[u - 0x41] else u) == Graphic(u)
  {}

  lemma GraphicUnused(u: int)
    requires 0x48 <= u <= 0x5e
    ensures (if GRAPHIC0[u - 0x41] != 0 then GRAPHIC0[u - 0x41] else u) == Graphic(u)
  {}

  lemma GraphicSymbols(u: int)
    requires 0x5f <= u <= 0x67
    ensures (if GRAPHIC0[u - 0x41] != 0 then GRAPHIC0[u - 0x41] else u) == Graphic(u)
  {}

  lemma GraphicCorners(u: int)
    requires 0x68 <= u <= 0x6f
    ensures (if GRAPHIC0[u - 0x41] != 0 then GRAPHIC0[u - 0x41] else u) == Graphic(u)
  {}

  lemma GraphicLines(u: int)
    requires 0x70 <= u <= 0x77
    ensures (if GRAPHIC0[u - 0x41] != 0 then GRAPHIC0[u - 0x41] else u) == Graphic(u)
  {}

  lemma GraphicSigns(u: int)
    requires 0x78 <= u <= 0x7e
    ensures (if GRAPHIC0[u - 0x41] != 0 then GRAPHIC0[u - 0x41] else u) == Graphic(u)
  {}

  /** With the graphics in use, a letter shows as its graphic. */
  lemma GraphicShown(t: Term, u: int)
    requires 0 <= t.charset < |t.trantbl| && t.trantbl[t.charset] == 0
    ensures Translate(t, u) == Graphic(u)
  {
    if 0x41 <= u <= 0x47 { GraphicArrows(u); }
    if 0x48 <= u <= 0x5e { GraphicUnused(u); }
    if 0x5f <= u <= 0x67 { GraphicSymbols(u); }
    if 0x68 <= u <= 0x6f { GraphicCorners(u); }
    if 0x70 <= u <= 0x77 { GraphicLines(u); }
    if 0x78 <= u <= 0x7e { GraphicSigns(u); }
    if u < 0x41 || u > 0x7e { GraphicOutside(u); }
    hide Graphic;
  }

  lemma GraphicOutside(u: int)
    requires u < 0x41 || u > 0x7e
    ensures Graphic(u) == u
  {}

  /** ESC ( and its like put the graphics (0) or ASCII (B) in one of the four tables. */
  lemma TableChosen(e: Env, t: Term, i: int, graphics: bool)
    requires Inv(t) && t.esc == NO_ESC && 0 <= i < 4
    ensures |t.trantbl| == 4
    ensures Puts(e, t, [0x1b, 0x28 + i, if graphics then 0x30 else 0x42])
      == t.(csi := NO_CSI, icharset := i, trantbl := t.trantbl[i := if graphics then 0 else 3])
  {
    FourTables(t);
    hide Inv, Puts;
    EscapeThree(e, t, 0x28 + i, if graphics then 0x30 else 0x42);
  }

  lemma FourTables(t: Term)
    requires Inv(t)
    ensures |t.trantbl| == 4 && 0 <= t.charset < 4
  {}

  lemma GraphicPlaced(e: Env, t: Term, u: int)
    requires Inv(t) && 0 <= t.charset < |t.trantbl| && t.trantbl[t.charset] == 0 && u < 0x7f
    requires !t.mode.insert && !(t.mode.wrap && t.c.wrapNext)
    ensures |t.line| == t.row && 0 <= t.c.y < t.row && 0 <= t.c.x < |t.line[t.c.y]|
    ensures Print(e, t, u).line == PutRow(t.line, t.c.y, t.line[t.c.y][t.c.x := Glyph(Graphic(u), t.c.attr, false)])
  {
    Bounds(t);
    InvShape(t);
    hide Inv, Print, Translate, PutRow, Width, Graphic;
    GraphicShown(t, u);
    NarrowAscii(e, t, u);
    PrintPlaces(e, t, u);
  }

  /** A letter printed after choosing the graphics for the table in use appears as its graphic. */
  lemma GraphicPrinted(e: Env, t: Term, u: int)
    requires Inv(t) && t.esc == NO_ESC && t.charset == 0 && 0x20 <= u < 0x7f
    requires !t.mode.insert && !(t.mode.wrap && t.c.wrapNext)
    ensures |t.line| == t.row && 0 <= t.c.y < t.row && 0 <= t.c.x < |t.line[t.c.y]|
    ensures Print(e, Puts(e, t, [0x1b, 0x28, 0x30]), u).line
      == PutRow(t.line, t.c.y, t.line[t.c.y][t.c.x := Glyph(Graphic(u), t.c.attr, false)])
  {
    hide Inv, Puts, Print, PutRow, Graphic;
    FourTables(t);
    TableInv(t);
    var v := t.(csi := NO_CSI, icharset := 0, trantbl := t.trantbl[0 := 0]);
    assert Puts(e, t, [0x1b, 0x28, 0x30]) == v by {
      TableChosen(e, t, 0, true);
      assert [0x1b, 0x28 + 0, 0x30] == [0x1b, 0x28, 0x30];
    }
    GraphicPlaced(e, v, u);
  }

  lemma TableInv(t: Term)
    requires Inv(t) && |t.trantbl| == 4
    ensures Inv(t.(csi := NO_CSI, icharset := 0, trantbl := t.trantbl[0 := 0]))
  {}

  lemma NarrowAscii(e: Env, t: Term, u: int)
    requires u < 0x7f
    ensures Width(e, t, u) == 1
  {}

  /** ESC % G and ESC % @: UTF-8 on and off. */
  lemma Utf8Chosen(e: Env, t: Term, on: bool)
    requires t.esc == NO_ESC
    ensures Puts(e, t, [0x1b, 0x25, if on then 0x47 else 0x40]) == t.(csi := NO_CSI, mode := t.mode.(utf8 := on))
  {
    hide Puts;
    EscapeThree(e, t, 0x25, if on then 0x47 else 0x40);
  }

  /** ESC # 8 fills the screen with the letter E. */
  lemma AlignmentFills(e: Env, t: Term, x: int, y: int)
    requires Inv(t) && t.esc == NO_ESC && 0 <= x < t.col && 0 <= y < t.row
    ensures var u := Puts(e, t, [0x1b, 0x23, 0x38]);
      u.c == t.c && |u.line| == t.row && |u.line[y]| == t.col
      && u.line[y][x] == Glyph(Translate(t, 0x45), t.c.attr, false)
  {
    hide Inv, Puts, Translate;
    InvShape(t);
    EscapeThree(e, t, 0x23, 0x38);
    assert Translate(t.(csi := NO_CSI), 0x45) == Translate(t, 0x45) by { TranslateSame(t); }
  }

  lemma TranslateSame(t: Term)
    ensures Translate(t.(csi := NO_CSI), 0x45) == Translate(t, 0x45)
  {}

  // ---- reset ----

  /** ESC c: blank screens, the cursor at home, all modes, tables, margins and stops as they start. */
  lemma ResetState(e: Env, t: Term)
    requires Inv(t) && t.esc == NO_ESC
    ensures var u := Puts(e, t, [0x1b, 0x63]);
      u.row == t.row && u.col == t.col && u.esc == NO_ESC && u.c == Cursor(e.attr0, 0, 0, false, false)
      && u.saved0 == u.c && u.saved1 == u.c && u.top == 0 && u.bot == t.row - 1
      && u.mode == Mode(true, false, false, false, false, false, true)
      && u.trantbl == [3, 3, 3, 3] && u.charset == 0 && u.tabs == DefaultTabs(t.col, e.tabspaces)
      && AllBlank(u, u.line) && AllBlank(u, u.alt)
  {
    hide Inv, Puts, EscHandle;
    var v := t.(csi := NO_CSI, esc := STARTED);
    StartedInv(t);
    InvShape(v);
    EscapeHandled(e, t, 0x63);
    EscapeDoes(e, v);
    HomeIs(e, v);
    var a := Home(e, v);
    ResetOnce(a);
    var b := ResetScreen(a);
    ResetOnce(b);
  }

  lemma HomeIs(e: Env, t: Term)
    requires Screens(t)
    ensures Screens(Home(e, t))
  {}

  lemma ResetOnce(t: Term)
    requires Screens(t) && t.row > 0 && t.col > 0 && t.c == Cursor(t.c.attr, 0, 0, false, false)
    ensures var u := ResetScreen(t);
      Screens(u) && u.line == t.alt && AllBlank(t, u.alt) && u.mode == t.mode.(alt := !t.mode.alt) && u.c == t.c
      && u == t.(line := u.line, alt := u.alt, mode := u.mode, dirty := u.dirty,
        saved0 := if t.mode.alt then t.saved0 else t.c, saved1 := if t.mode.alt then t.c else t.saved1)
  {
    var s := SaveCursor(MoveTo(t, 0, 0));
    assert s == (if t.mode.alt then t.(saved1 := t.c) else t.(saved0 := t.c));
    BlanksAll(s);
  }
}
