/**
  * The terminal as the program keeps it: two arrays of line pointers into a
  * store of lines, updated in place. Each method is proved against the function
  * of the same operation in TermModel.dfy and TermRun.dfy.
  */
module Terminal {
  import opened Values
  import opened Utf8
  import opened TermModel
  import opened TermInvariant
  import opened TermRun

  type Ptr = nat

  /** The rows behind a list of pointers. */
  function Cells(mem: map<Ptr, Row>, ids: seq<Ptr>): Grid {
    seq(|ids|, i requires 0 <= i < |ids| => if ids[i] in mem then mem[ids[i]] else [])
  }

  /** All the pointers of two screens are different. */
  predicate Distinct(ids: seq<Ptr>, others: seq<Ptr>) {
    (forall i, j :: 0 <= i < j < |ids| ==> ids[i] != ids[j])
    && (forall i, j :: 0 <= i < j < |others| ==> others[i] != others[j])
    && (forall i, j :: 0 <= i < |ids| && 0 <= j < |others| ==> ids[i] != others[j])
  }

  /** The lists hold different pointers, exactly the allocated ones, all handed out before next. */
  ghost predicate Owns(mem: map<Ptr, Row>, next: Ptr, line: seq<Ptr>, alt: seq<Ptr>) {
    Distinct(line, alt) && (forall p :: p in mem <==> p in line || p in alt) && (forall p :: p in mem ==> p < next)
  }

  lemma CellsPut(mem: map<Ptr, Row>, ids: seq<Ptr>, others: seq<Ptr>, y: int, r: Row)
    requires Distinct(ids, others) && 0 <= y < |ids|
    ensures Cells(mem[ids[y] := r], ids) == Cells(mem, ids)[y := r]
    ensures Cells(mem[ids[y] := r], others) == Cells(mem, others)
  {}

  lemma CellIn(mem: map<Ptr, Row>, ids: seq<Ptr>, y: int)
    requires 0 <= y < |ids| && ids[y] in mem
    ensures Cells(mem, ids)[y] == mem[ids[y]]
  {}

  lemma ClearedNone(s: Grid, d: seq<bool>, x1: int, y1: int, x2: int, g: Glyph)
    ensures ClearedGrid(s, x1, y1, x2, y1 - 1, g) == s && MarkedRows(d, y1, y1 - 1) == d
  {}

  lemma ClearedMore(s: Grid, d: seq<bool>, x1: int, y1: int, x2: int, y: int, g: Glyph)
    requires y1 <= y < |s| && 0 <= y < |d|
    ensures ClearedGrid(s, x1, y1, x2, y - 1, g)[y] == s[y]
    ensures ClearedGrid(s, x1, y1, x2, y - 1, g)[y := ClearedRow(s[y], x1, x2, g)] == ClearedGrid(s, x1, y1, x2, y, g)
    ensures MarkedRows(d, y1, y - 1)[y := true] == MarkedRows(d, y1, y)
  {}

  class Display {
    var row: int
    var col: int
    var mem: map<Ptr, Row>
    var next: Ptr
    var line: seq<Ptr>
    var alt: seq<Ptr>
    var dirty: seq<bool>
    var c: Cursor
    var saved0: Cursor
    var saved1: Cursor
    var ocx: int
    var ocy: int
    var top: int
    var bot: int
    var mode: Mode
    var esc: EscState
    var trantbl: seq<int>
    var charset: int
    var icharset: int
    var tabs: seq<bool>
    var lastc: int
    var csi: Csi
    var str: Str
    var out: seq<Reply>
    const env: Env

    ghost function Model(): Term
      reads this
    {
      Term(row, col, Cells(mem, line), Cells(mem, alt), dirty, c, saved0, saved1, ocx, ocy, top, bot,
           mode, esc, trantbl, charset, icharset, tabs, lastc, csi, str, out)
    }

    /** The two screens hold 2 * row different lines, and no other line is allocated. */
    ghost predicate Owned()
      reads `row, `line, `alt, `mem, `next
    {
      |line| == |alt| == row && Owns(mem, next, line, alt)
    }

    ghost predicate Valid()
      reads this
    {
      Owned() && Inv(Model())
    }

    lemma ModelFields()
      ensures Model().row == row && Model().col == col && Model().c == c && Model().top == top && Model().bot == bot
      ensures Model().mode == mode && Model().esc == esc && Model().csi == csi && Model().str == str
        && Model().lastc == lastc
    {}

    lemma OwnedSize()
      requires Owned()
      ensures |Cells(mem, line)| == |Cells(mem, alt)| == |line| == |alt| == row
    {}

    // ---- dirty rows and clearing ----

    method Tsetdirt(top': int, bot': int)
      requires 1 <= row == |dirty|
      modifies `dirty
      ensures Model() == SetDirt(old(Model()), top', bot')
    {
      var a, b := Limit(top', 0, row - 1), Limit(bot', 0, row - 1);
      var i := a;
      while i <= b
        invariant a <= i && (i <= b + 1 || i == a)
        invariant dirty == MarkedRows(old(dirty), a, i - 1)
        decreases b - i
      {
        dirty := dirty[i := true];
        i := i + 1;
      }
    }

    method Tfulldirt()
      requires 1 <= row == |dirty|
      modifies `dirty
      ensures Model() == FullDirt(old(Model()))
    {
      Tsetdirt(0, row - 1);
    }

    /** The inner loop of tclearregion. */
    method ClearCells(p: Ptr, x1: int, x2: int, g: Glyph)
      requires p in mem && 0 <= x1 <= x2 < |mem[p]|
      modifies `mem
      ensures mem == old(mem)[p := ClearedRow(old(mem[p]), x1, x2, g)]
    {
      var x := x1;
      assert ClearedRow(mem[p], x1, x1 - 1, g) == mem[p];
      while x <= x2
        invariant x1 <= x <= x2 + 1
        invariant mem == old(mem)[p := ClearedRow(old(mem[p]), x1, x - 1, g)]
      {
        mem := mem[p := mem[p][x := g]];
        assert mem[p] == ClearedRow(old(mem[p]), x1, x, g);
        x := x + 1;
      }
    }

    method Tclearregion(x1: int, y1: int, x2: int, y2: int)
      requires Owned() && Screens(Model())
      modifies `mem, `dirty
      ensures mem.Keys == old(mem.Keys) && Owned()
      ensures Model() == ClearRegion(old(Model()), x1, y1, x2, y2)
    {
      hide ClearedGrid, ClearedRow, MarkedRows, Cells;
      var xa, xb := if x1 > x2 then x2 else x1, if x1 > x2 then x1 else x2;
      var ya, yb := if y1 > y2 then y2 else y1, if y1 > y2 then y1 else y2;
      xa, xb := Limit(xa, 0, col - 1), Limit(xb, 0, col - 1);
      ya, yb := Limit(ya, 0, row - 1), Limit(yb, 0, row - 1);
      var g := Glyph(0x20, Attr(0, c.attr.fg, c.attr.bg), false);
      ghost var s := old(Cells(mem, line));
      ClearedNone(s, dirty, xa, ya, xb, g);
      var y := ya;
      while y <= yb
        invariant ya <= y <= yb + 1
        invariant mem.Keys == old(mem.Keys)
        invariant dirty == MarkedRows(old(dirty), ya, y - 1) && |dirty| == row
        invariant Cells(mem, line) == ClearedGrid(s, xa, ya, xb, y - 1, g)
        invariant Cells(mem, alt) == old(Cells(mem, alt))
      {
        ClearedMore(s, old(dirty), xa, ya, xb, y, g);
        CellIn(mem, line, y);
        CellsPut(mem, line, alt, y, ClearedRow(s[y], xa, xb, g));
        dirty := dirty[y := true];
        ClearCells(line[y], xa, xb, g);
        y := y + 1;
      }
    }
  
    // ---- cursor ----

    method Tmoveto(x: int, y: int)
      modifies `c
      ensures Model() == MoveTo(old(Model()), x, y)
    {
      var miny, maxy := 0, row - 1;
      if c.origin {
        miny, maxy := top, bot;
      }
      c := c.(wrapNext := false);
      c := c.(x := Limit(x, 0, col - 1));
      c := c.(y := Limit(y, miny, maxy));
    }

    method Tmoveato(x: int, y: int)
      modifies `c
      ensures Model() == MoveATo(old(Model()), x, y)
    {
      Tmoveto(x, y + if c.origin then top else 0);
    }

    method Tsetscroll(t: int, b: int)
      modifies `top, `bot
      ensures Model() == SetScroll(old(Model()), t, b)
    {
      var t', b' := Limit(t, 0, row - 1), Limit(b, 0, row - 1);
      if t' > b' {
        t', b' := b', t';
      }
      top := t';
      bot := b';
    }

    method TcursorSave()
      modifies `saved0, `saved1
      ensures Model() == SaveCursor(old(Model()))
    {
      if mode.alt { saved1 := c; } else { saved0 := c; }
    }

    method TcursorLoad()
      modifies `c
      ensures Model() == LoadCursor(old(Model()))
    {
      c := if mode.alt then saved1 else saved0;
      Tmoveto(c.x, c.y);
    }

    method Tswapscreen()
      requires Owned() && 1 <= row == |dirty|
      modifies `line, `alt, `mode, `dirty
      ensures Owned() && line == old(alt) && alt == old(line)
      ensures Model() == SwapScreen(old(Model()))
    {
      hide Cells, MarkedRows;
      line, alt := alt, line;
      mode := mode.(alt := !mode.alt);
      Tfulldirt();
    }

    // ---- scrolling ----

    /** Exchanges the pointers of rows i and j. */
    method SwapLines(i: int, j: int)
      requires Owned() && 0 <= i < row && 0 <= j < row
      modifies `line
      ensures Owned() && multiset(line) == multiset(old(line))
      ensures Cells(mem, line) == Swapped(old(Cells(mem, line)), i, j)
    {
      hide Distinct, Cells, Swapped;
      SwappedIds(line, alt, i, j);
      SwappedCells(mem, line, i, j);
      line := line[i := line[j]][j := line[i]];
    }

    /** The loop of tscrollup, once the first k rows of the region are cleared. */
    method RaiseLines(orig: int, k: int)
      requires Owned() && 0 <= orig <= bot < row && 0 <= k <= bot - orig + 1
      requires Alike(Cells(mem, line), orig, orig + k - 1)
      modifies `line
      ensures Owned() && multiset(line) == multiset(old(line))
      ensures Cells(mem, line) == ShiftedUp(old(Cells(mem, line)), orig, bot, k, RowAt(old(Cells(mem, line)), orig))
    {
      hide Owned, ShiftedUp, Cells, PartUp, Swapped, RowAt, Alike;
      ghost var s := Cells(mem, line);
      OwnedSize();
      PartUpEnds(s, orig, bot, k);
      var i := orig;
      while i <= bot - k
        invariant orig <= i <= bot - k + 1
        invariant Owned() && multiset(line) == multiset(old(line))
        invariant Cells(mem, line) == PartUp(s, orig, k, i)
      {
        OwnedSize();
        PartUpStep(s, orig, bot, k, i);
        SwapLines(i, i + k);
        i := i + 1;
      }
    }

    method Tscrollup(orig: int, n: int)
      requires Owned() && Inv(Model()) && 0 <= orig <= bot
      modifies `mem, `dirty, `line
      ensures Owned() && mem.Keys == old(mem.Keys) && multiset(line) == multiset(old(line))
      ensures Model() == ScrollUp(old(Model()), orig, n)
    {
      hide Owned, Inv, Cells, ClearRegion, SetDirt, ShiftedUp, RowAt, Alike, Screens;
      ghost var t := Model();
      InvCursor(t);
      InvScreens(t);
      var k := Limit(n, 0, bot - orig + 1);
      ClearScreens(t, 0, orig, col - 1, orig + k - 1);
      ClearedAlike(t, orig, orig + k - 1);
      Tclearregion(0, orig, col - 1, orig + k - 1);
      SetDirtLine(Model(), orig + k, bot);
      Tsetdirt(orig + k, bot);
      RaiseLines(orig, k);
    }

    /** The loop of tscrolldown, once the last k rows of the region are cleared. */
    method LowerLines(orig: int, k: int)
      requires Owned() && 0 <= orig <= bot < row && 0 <= k <= bot - orig + 1
      requires Alike(Cells(mem, line), bot - k + 1, bot)
      modifies `line
      ensures Owned() && multiset(line) == multiset(old(line))
      ensures Cells(mem, line) == ShiftedDown(old(Cells(mem, line)), orig, bot, k, RowAt(old(Cells(mem, line)), bot))
    {
      hide Owned, ShiftedDown, Cells, PartDown, Swapped, RowAt, Alike;
      ghost var s := Cells(mem, line);
      OwnedSize();
      PartDownEnds(s, orig, bot, k);
      var i := bot;
      while i >= orig + k
        invariant orig + k - 1 <= i <= bot
        invariant Owned() && multiset(line) == multiset(old(line))
        invariant Cells(mem, line) == PartDown(s, bot, k, i)
      {
        OwnedSize();
        PartDownStep(s, orig, bot, k, i);
        SwapLines(i, i - k);
        i := i - 1;
      }
    }

    method Tscrolldown(orig: int, n: int)
      requires Owned() && Inv(Model()) && 0 <= orig <= bot
      modifies `mem, `dirty, `line
      ensures Owned() && mem.Keys == old(mem.Keys) && multiset(line) == multiset(old(line))
      ensures Model() == ScrollDown(old(Model()), orig, n)
    {
      hide Owned, Inv, Cells, ClearRegion, SetDirt, ShiftedDown, RowAt, Alike;
      ghost var t := Model();
      InvCursor(t);
      InvScreens(t);
      var k := Limit(n, 0, bot - orig + 1);
      SetDirtLine(t, orig, bot - k);
      Tsetdirt(orig, bot - k);
      ClearScreens(Model(), 0, bot - k + 1, col - 1, bot);
      ClearedAlike(Model(), bot - k + 1, bot);
      Tclearregion(0, bot - k + 1, col - 1, bot);
      LowerLines(orig, k);
    }

    method Tnewline(firstCol: bool)
      requires Valid()
      modifies `mem, `dirty, `line, `c
      ensures Owned() && Model() == NewLine(old(Model()), firstCol)
    {
      hide ScrollUp, MoveTo, Owned, Cells, Screens, Collected, Tables;
      var y := c.y;
      if y == bot {
        Tscrollup(top, 1);
      } else {
        y := y + 1;
      }
      Tmoveto(if firstCol then 0 else c.x, y);
    }

    method Tinsertblankline(n: int)
      requires Valid()
      modifies `mem, `dirty, `line
      ensures Owned() && Model() == InsertBlankLine(old(Model()), n)
    {
      hide ScrollDown, Owned, Cells, Screens, Collected, Tables;
      if top <= c.y <= bot {
        Tscrolldown(c.y, n);
      }
    }

    method Tdeleteline(n: int)
      requires Valid()
      modifies `mem, `dirty, `line
      ensures Owned() && Model() == DeleteLine(old(Model()), n)
    {
      hide ScrollUp, Owned, Cells, Screens, Collected, Tables;
      if top <= c.y <= bot {
        Tscrollup(c.y, n);
      }
    }

    // ---- cells ----

    /** Overwrites the line behind row y. */
    method PutLine(y: int, r: Row)
      requires Owned() && 0 <= y < row
      modifies `mem
      ensures Owned() && Model() == old(Model()).(line := PutRow(old(Model()).line, y, r))
    {
      hide Cells;
      OwnedSize();
      CellsPut(mem, line, alt, y, r);
      assert line[y] in mem;
      mem := mem[line[y] := r];
    }

    lemma LineAt(y: int)
      requires Owned() && 0 <= y < row
      ensures |line| == row && line[y] in mem && mem[line[y]] == RowAt(Model().line, y)
    {}

    method Tsetchar(u: int, attr: Attr, x: int, y: int)
      requires Valid() && 0 <= x < col && 0 <= y < row
      modifies `mem, `dirty
      ensures Owned() && Model() == SetChar(old(Model()), u, attr, x, y)
    {
      hide Owned, Cells, PutRow, RowAt, Collected, Placed;
      var u' := u;
      if trantbl[charset] == CS_GRAPHIC0 && 0x41 <= u <= 0x7e && GRAPHIC0[u - 0x41] != 0 {
        u' := GRAPHIC0[u - 0x41];
      }
      LineAt(y);
      RowWidth(Model(), y);
      MarkOne(dirty, y);
      dirty := dirty[y := true];
      PutLine(y, mem[line[y]][x := Glyph(u', attr, false)]);
    }

    method Tdeletechar(n: int)
      requires Valid()
      modifies `mem, `dirty
      ensures Owned() && Model() == DeleteChar(old(Model()), n)
    {
      hide Owned, Cells, PutRow, RowAt, Collected, Tables, ShiftedLeft, ClearRegion, Shaped;
      var k := Limit(n, 0, col - c.x);
      var dst, src := c.x, c.x + k;
      LineAt(c.y);
      RowWidth(Model(), c.y);
      var r := mem[line[c.y]];
      MovedLeft(r, dst, k);
      PutWidth(Model(), c.y, ShiftedLeft(r, dst, k));
      PutLine(c.y, r[..dst] + r[src..] + r[col - k..]);
      Tclearregion(col - k, c.y, col - 1, c.y);
    }

    method Tinsertblank(n: int)
      requires Valid()
      modifies `mem, `dirty
      ensures Owned() && Model() == InsertBlank(old(Model()), n)
    {
      hide Owned, Cells, PutRow, RowAt, Collected, Tables, ShiftedRight, ClearRegion, Shaped;
      var k := Limit(n, 0, col - c.x);
      var dst, src := c.x + k, c.x;
      LineAt(c.y);
      RowWidth(Model(), c.y);
      var r := mem[line[c.y]];
      MovedRight(r, src, k);
      PutWidth(Model(), c.y, ShiftedRight(r, src, k));
      PutLine(c.y, r[..dst] + r[src..col - k]);
      Tclearregion(src, c.y, dst - 1, c.y);
    }

    method Tdectest(ch: Byte)
      requires Valid()
      modifies `mem, `dirty
      ensures Owned() && Model() == DecTest(old(Model()), ch)
    {
      hide Owned, Model, Inv, Tested;
      if ch == 0x38 {
        ghost var t := Model();
        TestedEnds(t);
        ModelFields();
        InvCursor(t);
        var x := 0;
        while x < col
          invariant 0 <= x <= col
          invariant Valid() && Model() == Tested(t, x, 0)
        {
          TestedColumn(t, x);
          FillColumn(t, x);
          x := x + 1;
        }
      }
    }

    /** The inner loop of tdectest: an E in every row of one column. */
    method FillColumn(ghost t: Term, x: int)
      requires Inv(t) && 0 <= x < col && t.row == row && t.col == col
      requires Valid() && Model() == Tested(t, x, 0)
      modifies `mem, `dirty
      ensures Valid() && Model() == Tested(t, x, row)
    {
      hide Owned, Model, Inv, Tested, SetChar, Goes;
      InvCursor(t);
      var y := 0;
      while y < row
        invariant 0 <= y <= row
        invariant Valid() && Model() == Tested(t, x, y)
      {
        TestedStep(t, x, y);
        ModelFields();
        SetCharGoes(Model(), 0x45, c.attr, x, y);
        GoesInv(Model(), SetChar(Model(), 0x45, c.attr, x, y));
        Tsetchar(0x45, c.attr, x, y);
        y := y + 1;
      }
    }

    // ---- tabs ----

    method Tputtab(n: int)
      requires Valid()
      modifies `c
      ensures Model() == PutTab(old(Model()), n)
    {
      hide Owned, Cells, TabForward, TabBack;
      var x := c.x;
      if n > 0 {
        x := StopsRight(tabs, x, n);
      } else if n < 0 {
        x := StopsLeft(tabs, x, -n);
      } else {
        NoStops(tabs, x);
      }
      c := c.(x := Limit(x, 0, col - 1));
    }
  
    method Tsettab(on: bool)
      requires Valid()
      modifies `tabs
      ensures Model() == SetTab(old(Model()), on)
    {
      tabs := tabs[c.x := on];
    }

    // ---- reset and modes ----

    method Thome()
      requires Valid()
      modifies `c, `tabs, `top, `bot, `mode, `trantbl, `charset
      ensures Model() == Home(env, old(Model()))
    {
      hide Owned, Cells, Inv, DefaultTabs;
      InvTabs(Model());
      c := Cursor(env.attr0, 0, 0, false, false);
      SetDefaultTabs();
      top := 0;
      bot := row - 1;
      mode := Mode(true, false, false, false, false, false, true);
      trantbl := [CS_USA, CS_USA, CS_USA, CS_USA];
      charset := 0;
    }

    method Treset()
      requires Valid()
      modifies this
      ensures Valid() && Model() == Reset(env, old(Model()))
    {
      hide Owned, Cells, Home, ResetScreen, Goes, Inv;
      ghost var t := Model();
      HomeGoes(env, t);
      GoesInv(t, Home(env, t));
      Thome();
      ResetScreenGoes(Model());
      GoesInv(Model(), ResetScreen(Model()));
      ResetOne();
      ResetScreenGoes(Model());
      GoesInv(Model(), ResetScreen(Model()));
      ResetOne();
    }

    method SetDefaultTabs()
      requires |tabs| == col
      modifies `tabs
      ensures tabs == DefaultTabs(col, env.tabspaces)
    {
      hide IsStop;
      tabs := seq(col, _ => false);
      tabs := PutStops(tabs, 0, env.tabspaces);
    }

    method ResetOne()
      requires Owned() && Inv(Model())
      modifies `c, `saved0, `saved1, `mem, `dirty, `line, `alt, `mode
      ensures Owned() && Model() == ResetScreen(old(Model()))
    {
      hide Owned, Cells, MoveTo, SaveCursor, ClearRegion, SwapScreen, Goes, Placed, Collected, Tables, Shaped;
      MoveFrom(Model(), 0, 0);
      GoesInv(Model(), MoveTo(Model(), 0, 0));
      Tmoveto(0, 0);
      SaveGoes(Model());
      GoesInv(Model(), SaveCursor(Model()));
      TcursorSave();
      ClearGoes(Model(), 0, 0, col - 1, row - 1);
      GoesInv(Model(), ClearRegion(Model(), 0, 0, col - 1, row - 1));
      Tclearregion(0, 0, col - 1, row - 1);
      Tswapscreen();
    }

    method TcursorSaveOrLoad(save: bool)
      modifies `saved0, `saved1, `c
      ensures Model() == SaveOrLoad(old(Model()), save)
    {
      hide SaveCursor, LoadCursor, Cells;
      if save { TcursorSave(); } else { TcursorLoad(); }
    }

    method Taltscreen(set_: bool)
      requires Valid()
      modifies `mem, `dirty, `line, `alt, `mode
      ensures Owned() && Model() == AltScreen(old(Model()), set_)
    {
      hide Owned, Cells, ClearRegion, SwapScreen, Goes, Placed, Collected, Tables, Shaped;
      var alt := mode.alt;
      ClearGoes(Model(), 0, 0, col - 1, row - 1);
      GoesInv(Model(), ClearRegion(Model(), 0, 0, col - 1, row - 1));
      if alt {
        Tclearregion(0, 0, col - 1, row - 1);
      }
      if set_ != alt {
        Tswapscreen();
      }
    }

    method TsaveAndSwap(set_: bool)
      requires Valid()
      modifies `mem, `dirty, `line, `alt, `mode, `c, `saved0, `saved1
      ensures Owned() && Model() == SaveOrLoad(AltScreen(SaveOrLoad(old(Model()), set_), set_), set_)
    {
      hide Owned, Cells, SaveOrLoad, AltScreen, Goes, Inv;
      SaveOrLoadGoes(Model(), set_);
      GoesInv(Model(), SaveOrLoad(Model(), set_));
      TcursorSaveOrLoad(set_);
      Taltscreen(set_);
      TcursorSaveOrLoad(set_);
    }

    method Tsetprivate(set_: bool, arg: int)
      requires Valid()
      modifies this
      ensures Valid() && Model() == SetPrivate(env, old(Model()), set_, arg)
    {
      hide Owned, Cells, MoveATo, SaveOrLoad, AltScreen, Goes, Inv;
      ghost var t := Model();
      SetPrivateGoes(env, t, set_, arg);
      GoesInv(t, SetPrivate(env, t, set_, arg));
      if arg == 6 {
        c := c.(origin := set_);
        Tmoveato(0, 0);
      } else if arg == 7 {
        mode := mode.(wrap := set_);
      } else if arg == 1049 {
        if env.allowAlt { TsaveAndSwap(set_); }
      } else if arg == 47 || arg == 1047 {
        if env.allowAlt { Taltscreen(set_); }
      } else if arg == 1048 {
        TcursorSaveOrLoad(set_);
      }
    }

    method Tsetmode(priv: bool, set_: bool, args: seq<int>)
      requires Valid()
      modifies this
      ensures Valid() && Model() == SetModes(env, old(Model()), priv, set_, args)
    {
      hide Owned, Cells, SetPrivate, Inv, Goes;
      ghost var t := Model();
      var i := 0;
      while i < |args|
        invariant 0 <= i <= |args| && Valid()
        invariant SetModes(env, Model(), priv, set_, args[i..]) == SetModes(env, t, priv, set_, args)
      {
        assert args[i..][0] == args[i] && args[i..][1..] == args[i + 1..];
        SetPublicGoes(Model(), set_, args[i]);
        GoesInv(Model(), SetPublic(Model(), set_, args[i]));
        if priv {
          Tsetprivate(set_, args[i]);
        } else if args[i] == 4 {
          mode := mode.(insert := set_);
        } else if args[i] == 12 {
          mode := mode.(echo := !set_);
        } else if args[i] == 20 {
          mode := mode.(crlf := set_);
        }
        i := i + 1;
      }
    }

    // ---- CSI ----

    method Csiparse()
      requires |csi.arg| == ESC_ARG_SIZ
      modifies `csi
      ensures csi == CsiParse(old(csi))
    {
      hide Strtol, ParseArgs, Parsed, ToArg, At, SameTail;
      var p: nat := 0;
      ghost var c0 := csi;
      AtFirst(csi.buf);
      csi := csi.(narg := 0);
      if At(csi.buf, 0) == 0x3f {
        csi := csi.(priv := true);
        p := 1;
      }
      ghost var c1, p0 := csi, p;
      var done := false;
      ParsedNone(csi, p);
      TailStart(csi.arg);
      while !done && p < |csi.buf|
        invariant p <= |csi.buf| && csi.narg <= ESC_ARG_SIZ && (!done ==> csi.narg < ESC_ARG_SIZ)
        invariant csi == c1.(narg := csi.narg, arg := csi.arg)
        invariant |csi.arg| == ESC_ARG_SIZ && SameTail(csi.arg, c0.arg, csi.narg)
        invariant ParseArgs(csi.buf, p0, 0) == Parsed(csi, p, done)
        decreases !done, |csi.buf| - p
      {
        ParsedStep(csi, p);
        TailNext(csi.arg, c0.arg, csi.narg, ToArg(Strtol(csi.buf, p).value));
        var n := Strtol(csi.buf, p);
        csi := csi.(arg := csi.arg[csi.narg := ToArg(n.value)], narg := csi.narg + 1);
        p := n.next;
        if At(csi.buf, p) != 0x3b || csi.narg == ESC_ARG_SIZ {
          done := true;
        } else {
          p := p + 1;
        }
      }
      if !done { ParsedAll(csi, p); }
      ParsedDone(csi, p);
      csi := csi.(mode0 := At(csi.buf, p), mode1 := At(csi.buf, p + 1));
      TailJoins(csi.arg, c0.arg, csi.narg);
    }
  
    method TcleartabStops()
      requires Valid()
      modifies `tabs
      ensures Model() == ClearTabs(old(Model()))
    {
      hide Owned, Cells, Shaped;
      if csi.arg[0] == 0 {
        Tsettab(false);
      } else if csi.arg[0] == 3 {
        tabs := seq(col, _ => false);
      }
    }

    method TeraseDisplay(how: int)
      requires Valid()
      modifies `mem, `dirty
      ensures Owned() && Model() == EraseDisplay(old(Model()), how)
    {
      hide Owned, Cells, ClearRegion, Goes, Placed, Collected, Tables, Shaped;
      ghost var t := Model();
      if how == 0 {
        ClearGoes(t, c.x, c.y, col - 1, c.y);
        GoesInv(t, ClearRegion(t, c.x, c.y, col - 1, c.y));
        Tclearregion(c.x, c.y, col - 1, c.y);
        if c.y < row - 1 {
          Tclearregion(0, c.y + 1, col - 1, row - 1);
        }
      } else if how == 1 {
        if c.y > 1 {
          ClearGoes(t, 0, 0, col - 1, c.y - 1);
          GoesInv(t, ClearRegion(t, 0, 0, col - 1, c.y - 1));
          Tclearregion(0, 0, col - 1, c.y - 1);
        }
        Tclearregion(0, c.y, c.x, c.y);
      } else if how == 2 {
        Tclearregion(0, 0, col - 1, row - 1);
      }
    }

    method TeraseLine(how: int)
      requires Valid()
      modifies `mem, `dirty
      ensures Owned() && Model() == EraseLine(old(Model()), how)
    {
      hide Owned, Cells, ClearRegion, Placed, Collected, Tables, Shaped;
      if how == 0 {
        Tclearregion(c.x, c.y, col - 1, c.y);
      } else if how == 1 {
        Tclearregion(0, c.y, c.x, c.y);
      } else if how == 2 {
        Tclearregion(0, c.y, col - 1, c.y);
      }
    }

    /** The cursor and tab sequences of csihandle. */
    method CsiMove(f: Byte)
      requires Valid() && f == csi.mode0 && IsMove(f)
      modifies `c
      ensures Model() == CsiHandle(env, old(Model()))
    {
      hide Owned, Cells, MoveTo, MoveATo, PutTab, Screens, Placed, Tables;
      var n := Default(csi.arg[0], 1);
      if f == 0x41 { Tmoveto(c.x, c.y - n); }
      else if f == 0x42 || f == 0x65 { Tmoveto(c.x, c.y + n); }
      else if f == 0x43 || f == 0x61 { Tmoveto(c.x + n, c.y); }
      else if f == 0x44 { Tmoveto(c.x - n, c.y); }
      else if f == 0x45 { Tmoveto(0, c.y + n); }
      else if f == 0x46 { Tmoveto(0, c.y - n); }
      else if f == 0x47 || f == 0x60 { Tmoveto(n - 1, c.y); }
      else if f == 0x48 || f == 0x66 { Tmoveato(Default(csi.arg[1], 1) - 1, n - 1); }
      else if f == 0x49 { Tputtab(n); }
      else if f == 0x5a { Tputtab(-n); }
      else { Tmoveato(c.x, n - 1); }
    }

    /** The sequences of csihandle that change cells. */
    method CsiEdit(f: Byte)
      requires Valid() && f == csi.mode0 && IsEdit(f)
      modifies `mem, `dirty, `line
      ensures Owned() && Model() == CsiHandle(env, old(Model()))
    {
      hide Owned, Cells, InsertBlank, DeleteChar, EraseDisplay, EraseLine, ScrollUp, ScrollDown, InsertBlankLine,
        DeleteLine, ClearRegion, Shaped, Tables;
      var n := Default(csi.arg[0], 1);
      if f == 0x40 { Tinsertblank(n); }
      else if f == 0x4a { TeraseDisplay(csi.arg[0]); }
      else if f == 0x4b { TeraseLine(csi.arg[0]); }
      else if f == 0x53 { if !csi.priv { Tscrollup(top, n); } }
      else if f == 0x54 { Tscrolldown(top, n); }
      else if f == 0x4c { Tinsertblankline(n); }
      else if f == 0x4d { Tdeleteline(n); }
      else if f == 0x58 { Tclearregion(c.x, c.y, c.x + n - 1, c.y); }
      else { Tdeletechar(n); }
    }

    /** REP: outside any sequence, printing the last rune again is what tputc would do with it. */
    method Trepeat(n: int)
      requires Valid() && Narrow(env) && lastc != 0 && esc == NO_ESC
      modifies this
      ensures Valid() && Model() == Repeat(env, old(Model()), n) == PutTimes(env, old(Model()), old(lastc), n)
    {
      hide Owned, Cells, Print, Inv, Goes, PutTimes;
      ghost var t := Model();
      InvLast(t);
      RepeatPuts(env, t, n);
      var k := n;
      while k > 0
        invariant Valid() && lastc != 0
        invariant Repeat(env, Model(), k) == Repeat(env, t, n)
      {
        InvLast(Model());
        PrintLast(env, Model(), lastc);
        Tprint(lastc);
        k := k - 1;
      }
    }

    /** The sequences of csihandle that touch neither cells nor modes set by number. */
    method CsiState(f: Byte)
      requires Valid() && f == csi.mode0 && !IsMove(f) && !IsEdit(f) && f != 0x62 && f != 0x68 && f != 0x6c
      modifies `mode, `out, `tabs, `c, `top, `bot, `saved0, `saved1
      ensures Model() == CsiHandle(env, old(Model()))
    {
      hide Owned, Model, Inv, ClearTabs, MoveATo, SetScroll, SaveCursor, LoadCursor, Send;
      ModelFields();
      CsiSizes(Model());
      if f == 0x69 {
        if csi.arg[0] == 4 { SetMode(mode.(printer := false)); }
        else if csi.arg[0] == 5 { SetMode(mode.(printer := true)); }
      } else if f == 0x63 {
        if csi.arg[0] == 0 { Ttywrite(Identify); }
      } else if f == 0x67 {
        TcleartabStops();
      } else if f == 0x6d {
        SetCursor(c.(attr := env.sgr(c.attr, csi.arg[..csi.narg])));
      } else if f == 0x6e {
        if csi.arg[0] == 5 { Ttywrite(StatusOk); }
        else if csi.arg[0] == 6 { Ttywrite(Position(c.y + 1, c.x + 1)); }
      } else if f == 0x72 {
        if !csi.priv {
          Tsetscroll(Default(csi.arg[0], 1) - 1, Default(csi.arg[1], row) - 1);
          Tmoveato(0, 0);
        }
      } else if f == 0x73 {
        TcursorSave();
      } else if f == 0x75 {
        TcursorLoad();
      }
    }

    method SetMode(m: Mode)
      modifies `mode
      ensures Model() == old(Model()).(mode := m)
    {
      mode := m;
    }

    method SetCursor(x: Cursor)
      modifies `c
      ensures Model() == old(Model()).(c := x)
    {
      c := x;
    }

    method Csihandle()
      requires Valid() && Narrow(env) && esc == NO_ESC
      modifies this
      ensures Valid() && Model() == CsiHandle(env, old(Model()))
    {
      hide Owned, Cells, Inv, Goes, CsiHandle, Repeat, SetModes, Narrow;
      ghost var t := Model();
      CsiHandleGoes(env, t);
      GoesInv(t, CsiHandle(env, t));
      CsiSizes(t);
      CsiCases(env, t);
      var f := csi.mode0;
      if IsMove(f) {
        CsiMove(f);
      } else if IsEdit(f) {
        CsiEdit(f);
      } else if f == 0x62 {
        if lastc != 0 { Trepeat(Limit(csi.arg[0], 1, 65535)); }
      } else if f == 0x6c {
        Tsetmode(csi.priv, false, csi.arg[..csi.narg]);
      } else if f == 0x68 {
        Tsetmode(csi.priv, true, csi.arg[..csi.narg]);
      } else {
        CsiState(f);
      }
    }

    // ---- printing ----

    method Topen(width: int)
      requires Valid() && 0 <= width <= 1
      modifies `mem
      ensures Owned() && Model() == OpenCell(old(Model()), width)
    {
      hide Owned, Cells, PutRow, RowAt, Collected, Tables, Shaped, ShiftedRight;
      if mode.insert && c.x + width < col {
        LineAt(c.y);
        RowWidth(Model(), c.y);
        var r := mem[line[c.y]];
        MovedRight(r, c.x, width);
        PutLine(c.y, r[..c.x + width] + r[c.x..col - width]);
      }
    }

    method Tsetlast(u: int)
      modifies `lastc
      ensures Model() == old(Model()).(lastc := u)
    {
      lastc := u;
    }

    method Tadvance(width: int)
      modifies `c
      ensures Model() == Advance(old(Model()), width)
    {
      hide Owned, Cells, MoveTo;
      if c.x + width < col {
        Tmoveto(c.x + width, c.y);
      } else {
        c := c.(wrapNext := true);
      }
    }

    method Tprint(u: int)
      requires Valid() && Narrow(env) && !IsControl(u)
      modifies `mem, `dirty, `line, `c, `lastc
      ensures Valid() && Model() == Print(env, old(Model()), u)
    {
      hide Owned, Model, WrapLine, OpenCell, Advance, SetChar, Goes, Inv, Print, Width, Narrow;
      ghost var t := Model();
      ModelFields();
      PrintGoes(env, t, u);
      GoesInv(t, Print(env, t, u));
      PrintIs(env, t, u);
      WidthIs(env, t, u);
      var width := if u < 127 || !mode.utf8 then 1 else if env.width(u) == -1 then 1 else env.width(u);
      WrapLineGoes(t);
      GoesInv(t, WrapLine(t));
      OpenCellInv(WrapLine(t), width);
      Twrap();
      Topen(width);
      InvCursor(Model());
      ModelFields();
      Tsetchar(u, c.attr, c.x, c.y);
      Tsetlast(u);
      Tadvance(width);
    }

    method Twrap()
      requires Valid()
      modifies `mem, `dirty, `line, `c
      ensures Owned() && Model() == WrapLine(old(Model()))
    {
      hide Owned, Cells, NewLine, PutRow, PutCell, RowAt, CellAt, Goes, Collected, Tables, Shaped;
      ghost var t := Model();
      if mode.wrap && c.wrapNext {
        LineAt(c.y);
        RowWidth(t, c.y);
        WrapMarkGoes(t);
        CellOf(t, c.x, c.y);
        var r := mem[line[c.y]];
        PutLine(c.y, r[c.x := r[c.x].(wrap := true)]);
        GoesInv(t, Model());
        Tnewline(true);
      }
    }
  
    // ---- escape sequences ----

    method SetEsc(x: EscState)
      modifies `esc
      ensures Model() == old(Model()).(esc := x)
    {
      esc := x;
    }

    method Csireset()
      modifies `csi
      ensures Model() == old(Model()).(csi := NO_CSI)
    {
      csi := NO_CSI;
    }

    method SetCharset(k: int)
      modifies `charset
      ensures Model() == old(Model()).(charset := k)
    {
      charset := k;
    }

    method SetIcharset(k: int)
      modifies `icharset, `esc
      ensures Model() == old(Model()).(icharset := k, esc := old(esc).(altCharset := true))
    {
      icharset := k;
      esc := esc.(altCharset := true);
    }

    method Ttywrite(r: Reply)
      modifies `out
      ensures Model() == Send(old(Model()), r)
    {
      out := out + [r];
    }

    method Strhandle()
      requires Valid()
      modifies `esc, `dirty
      ensures Model() == StrHandle(env, old(Model()))
    {
      hide Owned, Cells, MarkedRows, Shaped;
      esc := esc.(str := false, strEnd := false);
      if env.recolours(str.kind, str.buf) {
        Tfulldirt();
      }
    }

    method Tstrsequence(ch: Byte)
      modifies `str, `esc
      ensures Model() == StrSequence(old(Model()), ch)
    {
      var kind := ch;
      if ch == 0x90 { kind := 0x50; }
      else if ch == 0x9f { kind := 0x5f; }
      else if ch == 0x9e { kind := 0x5e; }
      else if ch == 0x9d { kind := 0x5d; }
      str := Str(kind, [], STR_BUF_SIZ);
      esc := esc.(str := true);
    }

    method Tcontrolcode(ch: Byte)
      requires Valid()
      modifies this
      ensures Valid() && Model() == ControlCode(env, old(Model()), ch)
    {
      hide Owned, Model, Inv, Goes, MoveTo, PutTab, NewLine, StrHandle, SetChar, SetTab, Send, StrSequence;
      ghost var t := Model();
      ControlCodeGoes(env, t, ch);
      GoesInv(t, ControlCode(env, t, ch));
      InvCursor(t);
      ModelFields();
      var returns_ := false;
      if ch == 0x09 { Tputtab(1); returns_ := true; }
      else if ch == 0x08 { Tmoveto(c.x - 1, c.y); returns_ := true; }
      else if ch == 0x0d { Tmoveto(0, c.y); returns_ := true; }
      else if ch == 0x0c || ch == 0x0b || ch == 0x0a { Tnewline(mode.crlf); returns_ := true; }
      else if ch == 0x07 { if esc.strEnd { Strhandle(); } }
      else if ch == 0x1b {
        Csireset();
        SetEsc(esc.(csi := false, altCharset := false, test := false, start := true));
        returns_ := true;
      }
      else if ch == 0x0e || ch == 0x0f { SetCharset(1 - (ch - 0x0e)); returns_ := true; }
      else if ch == 0x1a { Tsetchar(0x3f, c.attr, c.x, c.y); Csireset(); }
      else if ch == 0x18 { Csireset(); }
      else if ch == 0x05 || ch == 0x00 || ch == 0x11 || ch == 0x13 || ch == 0x7f { returns_ := true; }
      else if ch == 0x85 { Tnewline(true); }
      else if ch == 0x88 { Tsettab(true); }
      else if ch == 0x9a { Ttywrite(Identify); }
      else if ch == 0x90 || ch == 0x9d || ch == 0x9e || ch == 0x9f { Tstrsequence(ch); returns_ := true; }
      if !returns_ {
        ModelFields();
        SetEsc(esc.(str := false, strEnd := false));
      }
    }

    method Eschandle(ch: Byte) returns (done: bool)
      requires Valid()
      modifies this
      ensures Valid() && Model() == EscHandle(env, old(Model()), ch) && done == !EscContinues(ch)
    {
      hide Owned, Model, Inv, Goes, MoveTo, NewLine, StrHandle, SetTab, Send, StrSequence, ScrollUp, ScrollDown, Reset,
        SaveCursor, LoadCursor;
      ghost var t := Model();
      EscHandleGoes(env, t, ch);
      GoesInv(t, EscHandle(env, t, ch));
      InvCursor(t);
      ModelFields();
      done := true;
      if ch == 0x5b { SetEsc(esc.(csi := true)); done := false; }
      else if ch == 0x23 { SetEsc(esc.(test := true)); done := false; }
      else if ch == 0x25 { SetEsc(esc.(utf8 := true)); done := false; }
      else if ch == 0x50 || ch == 0x5f || ch == 0x5e || ch == 0x5d || ch == 0x6b { Tstrsequence(ch); done := false; }
      else if ch == 0x6e || ch == 0x6f { SetCharset(2 + (ch - 0x6e)); }
      else if 0x28 <= ch <= 0x2b { SetIcharset(ch - 0x28); done := false; }
      else if ch == 0x44 { if c.y == bot { Tscrollup(top, 1); } else { Tmoveto(c.x, c.y + 1); } }
      else if ch == 0x45 { Tnewline(true); }
      else if ch == 0x48 { Tsettab(true); }
      else if ch == 0x4d { if c.y == top { Tscrolldown(top, 1); } else { Tmoveto(c.x, c.y - 1); } }
      else if ch == 0x5a { Ttywrite(Identify); }
      else if ch == 0x63 { Treset(); }
      else if ch == 0x37 { TcursorSave(); }
      else if ch == 0x38 { TcursorLoad(); }
      else if ch == 0x5c { if esc.strEnd { Strhandle(); } }
    }

    method Tdefutf8(ch: Byte)
      modifies `mode
      ensures Model() == DefUtf8(old(Model()), ch)
    {
      if ch == 0x47 { mode := mode.(utf8 := true); }
      else if ch == 0x40 { mode := mode.(utf8 := false); }
    }

    method Tdeftran(ch: Byte)
      requires |trantbl| == 4 && 0 <= icharset < 4
      modifies `trantbl
      ensures Model() == DefTran(env, old(Model()), ch)
    {
      hide Cells;
      if ch == 0x30 { trantbl := trantbl[icharset := CS_GRAPHIC0]; }
      else if ch == 0x42 { trantbl := trantbl[icharset := CS_USA]; }
      else if ch == 0 { trantbl := trantbl[icharset := env.afterTable]; }
    }

    /** The CSI part of tputc. */
    method Tcollect(u: int)
      requires Valid() && Narrow(env) && esc.start
      modifies this
      ensures Valid() && Model() == CollectCsi(env, old(Model()), u)
    {
      hide Owned, Model, Inv, Goes, CsiHandle, CsiParse, Narrow;
      ghost var t := Model();
      ModelFields();
      CollectGoes(env, t, u);
      GoesInv(t, CollectCsi(env, t, u));
      CollectedInv(t, u);
      CsiSizes(t);
      AppendCsi(Low8(u));
      ModelFields();
      if 0x40 <= u <= 0x7e || |csi.buf| >= ESC_BUF_SIZ - 1 {
        SetEsc(NO_ESC);
        ParseCsi();
        ModelFields();
        Csihandle();
      }
    }

    method AppendCsi(b: Byte)
      modifies `csi
      ensures Model() == old(Model()).(csi := old(csi).(buf := old(csi).buf + [b]))
    {
      csi := csi.(buf := csi.buf + [b]);
    }

    method ParseCsi()
      requires |csi.arg| == ESC_ARG_SIZ
      modifies `csi
      ensures Model() == old(Model()).(csi := CsiParse(old(csi)))
    {
      hide CsiParse, Cells;
      Csiparse();
    }

    method Tescape(u: int)
      requires Valid() && Narrow(env) && esc.start
      modifies this
      ensures Valid() && Model() == Escape(env, old(Model()), u)
    {
      hide Owned, Model, Inv, Goes, CollectCsi, DefUtf8, DefTran, DecTest, EscHandle, Narrow, EscContinues;
      ghost var t := Model();
      EscapeGoes(env, t, u) by { ModelFields(); }
      GoesInv(t, Escape(env, t, u));
      ModelFields();
      if esc.csi {
        Tcollect(u);
      } else {
        var done := true;
        if esc.utf8 { Tdefutf8(Low8(u)); }
        else if esc.altCharset { TablesOf(); Tdeftran(Low8(u)); }
        else if esc.test { Tdectest(Low8(u)); }
        else { done := Eschandle(Low8(u)); }
        if done { SetEsc(NO_ESC); }
      }
    }

    lemma TablesOf()
      requires Inv(Model())
      ensures |trantbl| == 4 && 0 <= icharset < 4
    {}

    /** The string part of tputc. */
    method Tcollectstr(u: int)
      modifies `str
      ensures Model() == old(Model()).(str := StrPut(old(str), RawBytes(old(Model()), u)))
    {
      hide Cells;
      var b: seq<Byte> := [Low8(u)];
      if !(u < 127 || !mode.utf8) { b := Utf8Encode(u); }
      if |str.buf| + |b| >= str.siz {
        if str.siz > (SIZE_MAX - 4) / 2 { return; }
        str := str.(siz := str.siz * 2);
      }
      str := str.(buf := str.buf + b);
    }

    method Tputc(u: int)
      requires Valid() && Narrow(env)
      modifies this
      ensures Valid() && Model() == Putc(env, old(Model()), u)
    {
      hide Owned, Model, Inv, Goes, Narrow, StrPut, RawBytes, ControlCode, Escape, Print;
      ghost var t := Model();
      PutcGoes(env, t, u);
      GoesInv(t, Putc(env, t, u));
      ModelFields();
      if esc.str && !EndsStr(u) {
        Tcollectstr(u);
      } else {
        if esc.str {
          FlagGoes(t);
          GoesInv(t, t.(esc := t.esc.(start := false, str := false, strEnd := true)));
          SetEsc(esc.(start := false, str := false, strEnd := true));
        }
        ModelFields();
        if IsControl(u) {
          if !(mode.utf8 && IsC1(u)) {
            Tcontrolcode(Low8(u));
            ModelFields();
            if esc == NO_ESC { Tsetlast(0); }
          }
        } else if esc.start {
          Tescape(u);
        } else {
          Tprint(u);
        }
      }
    }

    /** Puts one rune of an echo or of child output. */
    method Tshow(u: int, showCtrl: bool)
      requires Valid() && Narrow(env)
      modifies this
      ensures Valid() && Model() == Puts(env, old(Model()), Echoed(u, showCtrl))
    {
      hide Owned, Model, Inv, Putc, Puts, Narrow;
      ghost var t := Model();
      PutsOne(env, t, u);
      var v := u;
      if showCtrl && IsControl(u) {
        if u >= 0x80 {
          v := u - 0x80;
          PutsThree(env, t, 0x5e, 0x5b, v);
          Tputc(0x5e);
          Tputc(0x5b);
        } else if u != 0x0a && u != 0x0d && u != 0x09 {
          v := if u < 0x40 then u + 0x40 else u - 0x40;
          PutsTwo(env, t, 0x5e, v);
          Tputc(0x5e);
        }
      }
      Tputc(v);
    }

    /** Feeds what can be decoded and returns how many bytes were used. */
    method Twrite(buf: seq<Byte>, showCtrl: bool) returns (n: nat)
      requires Valid() && Narrow(env)
      modifies this
      ensures Valid() && n <= |buf|
      ensures Model() == Feed(env, old(Model()), buf, showCtrl).t
        && buf[n..] == Feed(env, old(Model()), buf, showCtrl).rest
    {
      hide Owned, Model, Inv, Putc, Puts, Narrow, Decode, Echoed;
      ghost var t := Model();
      n := 0;
      assert buf[0..] == buf;
      var more := true;
      while more && n < |buf|
        invariant n <= |buf| && Valid()
        invariant if more then SameEnd(Feed(env, Model(), buf[n..], showCtrl), Feed(env, t, buf, showCtrl))
          else Model() == Feed(env, t, buf, showCtrl).t && buf[n..] == Feed(env, t, buf, showCtrl).rest
        decreases more, |buf| - n
      {
        var rest := buf[n..];
        DecodeSize(rest);
        ModelFields();
        var u: int, size := rest[0], 1;
        if mode.utf8 { u, size := Utf8Decode(rest); }
        if size == 0 {
          more := false;
        } else {
          assert rest[size..] == buf[n + size..];
          Tshow(u, showCtrl);
          n := n + size;
        }
      }
    }
  
    // ---- resizing ----

    /** Frees the lines of both lists in turn; a line must be allocated to be freed. */
    method FreeLines(ids: seq<Ptr>, others: seq<Ptr>)
      requires |ids| == |others| && Distinct(ids, others)
      requires forall i :: 0 <= i < |ids| ==> ids[i] in mem && others[i] in mem
      modifies `mem
      ensures mem == old(mem) - Ids(ids) - Ids(others)
    {
      var i := 0;
      assert Ids(ids[..0]) == {} && Ids(others[..0]) == {};
      while i < |ids|
        invariant 0 <= i <= |ids|
        invariant mem == old(mem) - Ids(ids[..i]) - Ids(others[..i])
      {
        NotFreed(ids, others, i);
        mem := mem - {ids[i]};
        mem := mem - {others[i]};
        IdsNext(ids, i);
        IdsNext(others, i);
        i := i + 1;
      }
      assert ids[..|ids|] == ids && others[..|ids|] == others;
    }
  
    /** Drops rows so that the cursor's row is still there, and rows past the new height. */
    method Tslide(row': int)
      requires Owned() && 1 <= row' && 0 <= c.y <= Max(0, row - 1)
      modifies `mem, `line, `alt
      ensures Owns(mem, next, line, alt)
      ensures var k, m := Max(0, c.y - row' + 1), Min(row', row);
        0 <= k && k + m <= row && line == old(line)[k..k + m] && alt == old(alt)[k..k + m]
      ensures Within(mem, old(mem))
    {
      hide Owns, Distinct, Ids, MovedDown, Within;
      var k, m := Max(0, c.y - row' + 1), Min(row', row);
      MovedParts(line, k, row', m);
      MovedParts(alt, k, row', m);
      ghost var mem0, line0, alt0 := mem, line, alt;
      Freeable(mem, next, line, alt, 0, k);
      FreeLines(line[..k], alt[..k]);
      line := MovedDown(line, k, row');
      alt := MovedDown(alt, k, row');
      if k + row' < row {
        StillFreeable(mem0, next, line0, alt0, k, k + m);
        FreeLines(line[k + row'..], alt[k + row'..]);
      } else {
        NoneLeft(mem, line0[k + m..], alt0[k + m..]);
      }
      line := line[..m];
      alt := alt[..m];
      KeptOwns(mem0, next, line0, alt0, k, k + m);
      assert mem == mem0 - Ids(line0[..k]) - Ids(alt0[..k]) - Ids(line0[k + m..]) - Ids(alt0[k + m..]);
    }
  
    /** Reallocates every line to col' cells; cells past the old width hold junk. */
    method Twiden(mincol: int, col': int, junk: Glyph)
      requires |line| == |alt| && Owns(mem, next, line, alt) && 0 <= mincol <= col'
      requires Wide(mem, mincol)
      modifies `mem
      ensures Owns(mem, next, line, alt) && Refitted(old(mem), mem, mincol, col', junk)
    {
      hide Fitted, FittedMem, Ids, Distinct;
      var i := 0;
      NoneFitted(mem, mincol, col', junk);
      NoIds(line[..0]);
      NoIds(alt[..0]);
      assert Ids(line[..0]) + Ids(alt[..0]) == {};
      while i < |line|
        invariant 0 <= i <= |line|
        invariant mem == FittedMem(old(mem), Ids(line[..i]) + Ids(alt[..i]), mincol, col', junk)
      {
        NotFreed(line, alt, i);
        IdsNext(line, i);
        IdsNext(alt, i);
        ghost var d := Ids(line[..i]) + Ids(alt[..i]);
        FittedMore(old(mem), d, line[i], mincol, col', junk);
        FittedMore(old(mem), d + {line[i]}, alt[i], mincol, col', junk);
        mem := mem[line[i] := Fitted(mem[line[i]], mincol, col', junk)];
        mem := mem[alt[i] := Fitted(mem[alt[i]], mincol, col', junk)];
        i := i + 1;
        assert d + {line[i - 1]} + {alt[i - 1]} == Ids(line[..i]) + Ids(alt[..i]);
      }
      assert line[..i] == line && alt[..i] == alt;
      AllFitted(old(mem), next, line, alt, mincol, col', junk);
    }

    /** Allocates rows of junk until both screens have row' rows. */
    method Tgrow(row': int, col': nat, junk: Glyph)
      requires |line| == |alt| <= row' && Owns(mem, next, line, alt)
      modifies `mem, `next, `line, `alt
      ensures |line| == |alt| == row' && Owns(mem, next, line, alt)
      ensures old(line) <= line && old(alt) <= alt && Grown(old(mem), mem, old(next), col')
    {
      hide Distinct;
      while |line| < row'
        invariant |line| == |alt| <= row' && Owns(mem, next, line, alt) && next >= old(next)
        invariant old(line) <= line && old(alt) <= alt
        invariant Grown(old(mem), mem, old(next), col')
        decreases row' - |line|
      {
        OwnsMore(mem, next, line, alt, seq(col', _ => junk));
        mem := mem[next := seq(col', _ => junk)][next + 1 := seq(col', _ => junk)];
        line := line + [next];
        alt := alt + [next + 1];
        next := next + 2;
      }
    }

    method Ttabs(col': int)
      requires 1 <= col' && |tabs| == col && 0 <= col
      modifies `tabs
      ensures Model() == old(Model()).(tabs := ResizedTabs(old(Model()).tabs, col', env.tabspaces))
    {
      hide IsStop, Cells;
      if col' <= col {
        tabs := tabs[..col'];
      } else {
        var p := col - 1;
        while p > 0 && !tabs[p]
          invariant -1 <= p < col && tabs == old(tabs) && LastTab(tabs, col - 1) == LastTab(tabs, p)
          decreases p
        {
          p := p - 1;
        }
        tabs := tabs + seq(col' - col, _ => false);
        tabs := PutStops(tabs, p, env.tabspaces);
      }
    }

    /** Blanks what the old screen did not cover. */
    method TclearOutside(mincol: int, minrow: int)
      requires Owned() && Screens(Model())
      modifies `mem, `dirty
      ensures Owned() && Model() == ClearOutside(old(Model()), mincol, minrow)
    {
      hide Owned, Cells, ClearRegion, Shaped;
      ClearScreens(Model(), mincol, 0, col - 1, minrow - 1);
      if mincol < col && 0 < minrow {
        Tclearregion(mincol, 0, col - 1, minrow - 1);
      }
      if minrow < row {
        Tclearregion(0, minrow, col - 1, row - 1);
      }
    }
  
    /** The memory part of tresize: both screens get row' lines of col' cells, old cells first. */
    method Trealloc(row': int, col': int, junk: Glyph)
      requires Owned() && Resizable(Model()) && 1 <= row' && 1 <= col'
      modifies `mem, `next, `line, `alt
      ensures |line| == |alt| == row' && Owns(mem, next, line, alt)
      ensures KeptLines(old(line), old(alt), line, alt, old(next), Max(0, c.y - row' + 1), Min(row', row))
      ensures var t := old(Model());
        KeptCells(Cells(mem, line), t.line, Slide(t, row'), Min(col', col), Min(row', row), col', row')
        && KeptCells(Cells(mem, alt), t.alt, Slide(t, row'), Min(col', col), Min(row', row), col', row')
    {
      hide Owns, Cells, Distinct, Shaped, Fitted, KeptLines, KeptCells, Within, Wide, Refitted, Grown, Collected,
        Tables;
      ghost var t := Model();
      ghost var k, m := Max(0, c.y - row' + 1), Min(row', row);
      ghost var mincol := Min(col', col);
      ghost var mem0, line0, alt0, next0 := mem, line, alt, next;
      LineWidths(t, mem, next, line, alt, mincol);
      Tslide(row');
      ghost var mem1, line1, alt1 := mem, line, alt;
      WithinWide(mem1, mem0, mincol);
      Twiden(Min(col', col), col', junk);
      ghost var mem2 := mem;
      Tgrow(row', col', junk);
      FreshLines(mem2, mem, next0, next, line1, alt1, line, alt, line0, alt0, k, m, col');
      CellsKept(mem0, mem1, mem2, mem, next0, line0, line, k, m, mincol, col', row', junk) by {
        OwnedIn(mem0, next0, line0, alt0);
        OwnedIn(mem1, next0, line1, alt1);
        OwnedIn(mem, next, line, alt);
      }
      CellsKept(mem0, mem1, mem2, mem, next0, alt0, alt, k, m, mincol, col', row', junk) by {
        OwnedIn(mem0, next0, line0, alt0);
        OwnedIn(mem1, next0, line1, alt1);
        OwnedIn(mem, next, line, alt);
      }
    }
  
    method TfinishOne(mincol: int, minrow: int)
      requires Owned() && Screens(Model())
      modifies `mem, `dirty, `line, `alt, `mode, `c
      ensures Owned() && line == old(alt) && alt == old(line)
      ensures Screens(Model()) && Model() == FinishOne(old(Model()), mincol, minrow)
    {
      hide Owned, Model, ClearOutside, SwapScreen, LoadCursor, Screens;
      ghost var t := Model();
      FinishScreens(t, mincol, minrow);
      TclearOutside(mincol, minrow);
      ScreensDirty();
      Tswapscreen();
      TcursorLoad();
    }

    lemma ScreensDirty()
      requires Screens(Model())
      ensures 1 <= row == |dirty|
    {}

    /** The last part of tresize: both screens are cleared outside the old cells, with the cursor restored. */
    method Tfinish(mincol: int, minrow: int)
      requires Owned() && Screens(Model())
      modifies `mem, `dirty, `line, `alt, `mode, `c
      ensures Owned() && line == old(line) && alt == old(alt) && Model() == Finish(old(Model()), mincol, minrow)
    {
      hide Owned, Model, FinishOne, Screens;
      var c0 := c;
      ModelFields();
      TfinishOne(mincol, minrow);
      TfinishOne(mincol, minrow);
      SetCursor(c0);
    }

    method SetSize(col': int, row': int)
      requires 0 <= row'
      modifies `col, `row, `dirty
      ensures |dirty| == row == row' && Model() == old(Model()).(col := col', row := row', dirty := dirty)
    {
      var d := dirty;
      dirty := seq(row', i requires 0 <= i => i < |d| && d[i]);
      col := col';
      row := row';
    }

    method Tsize(col': int, row': int)
      requires 1 <= col' && 1 <= row' && |tabs| == col && 0 <= col
      modifies `dirty, `tabs, `col, `row, `top, `bot, `c
      ensures |dirty| == row == row'
      ensures Model() == Sized(env, old(Model()), col', row').(dirty := dirty)
    {
      hide Model, ResizedTabs, MoveTo, SetScroll;
      ghost var t := Model();
      Ttabs(col');
      SetSize(col', row');
      SizedDirty(t.(tabs := ResizedTabs(t.tabs, col', env.tabspaces), row := row', col := col'), dirty, row');
      Tsetscroll(0, row - 1);
      ModelFields();
      Tmoveto(c.x, c.y);
    }

    method Tresize(col': int, row': int, junk: Glyph)
      requires Owned() && Resizable(Model())
      modifies this
      ensures Owned() && Model() == Resize(env, old(Model()), col', row')
      ensures if col' < 1 || row' < 1 then line == old(line) && alt == old(alt) && mem == old(mem)
        else KeptLines(old(line), old(alt), line, alt, old(next), Slide(old(Model()), row'), Min(row', old(row)))
    {
      hide Owns, Cells, KeptLines, KeptCells, Sized, Finish, Resize, Shaped, Collected, Tables;
      ghost var t := Model();
      if col' < 1 || row' < 1 {
        NoResize(env, t, col', row');
      } else {
        var minrow, mincol := Min(row', row), Min(col', col);
        Trealloc(row', col', junk);
        ghost var u := Model();
        SizedOnly(env, t, u, col', row');
        Tsize(col', row');
        KeptShape(u.line, t.line, Slide(t, row'), mincol, minrow, col', row');
        KeptShape(u.alt, t.alt, Slide(t, row'), mincol, minrow, col', row');
        SizedScreens(env, t, Model(), Model().line, Model().alt, col', row');
        FinishIs(env, t, Model(), col', row');
        Tfinish(mincol, minrow);
      }
    }
  
    /** tnew: everything zero, then a resize and a reset. */
    constructor (e: Env, col': int, row': int, junk: Glyph)
      requires 1 <= col' && 1 <= row'
      ensures Valid() && env == e && Model() == Started(e, col', row')
    {
      env := e;
      row, col, mem, next, line, alt, dirty, tabs := 0, 0, map[], 0, [], [], [], [];
      c, saved0, saved1 := ZERO_CURSOR.(attr := Attr(0, e.attr0.fg, e.attr0.bg)), ZERO_CURSOR, ZERO_CURSOR;
      ocx, ocy, top, bot := 0, 0, 0, 0;
      mode, esc := Mode(false, false, false, false, false, false, false), NO_ESC;
      trantbl, charset, icharset, lastc := [0, 0, 0, 0], 0, 0, 0;
      csi, str, out := NO_CSI, Str(0, [], 0), [];
      new;
      assert Model() == Zero(e);
      StartedKeeps(e, col', row');
      hide Owned, Resizable, Resize, Zero;
      Tresize(col', row', junk);
      Treset();
    }

    // ---- drawing ----

    method Drawregion(win: Window)
      requires Valid() && Framed(win.pic, row, col)
      modifies `dirty, win
      ensures win.pic == DrawDirty(old(Model()), old(win.pic))
      ensures Model() == old(Model()).(dirty := seq(row, _ => false))
    {
      hide Owned, Cells, DrawnRow;
      ghost var t := Model();
      var y := 0;
      while y < row
        invariant 0 <= y <= row && |dirty| == row
        invariant forall j :: 0 <= j < row ==> dirty[j] == (j >= y && t.dirty[j])
        invariant |win.pic| == row
        invariant forall j :: 0 <= j < row ==>
          win.pic[j] == if j < y && t.dirty[j] then DrawnRow(t.line[j]) else old(win.pic)[j]
      {
        if dirty[y] {
          dirty := dirty[y := false];
          LineAt(y);
          win.Drawline(mem[line[y]], y);
        }
        y := y + 1;
      }
      assert dirty == seq(row, _ => false);
    }

    method Draw(win: Window, hidden: bool)
      requires Valid() && Framed(win.pic, row, col)
      modifies `dirty, `ocx, `ocy, win
      ensures World(Model(), win.pic) == TermRun.Draw(World(old(Model()), old(win.pic)), hidden)
    {
      hide Owned, Cells, DrawDirty, CellAt, RowAt, Framed, Collected, Tables, Shaped;
      ghost var t := Model();
      var ox, oy := Limit(ocx, 0, col - 1), Limit(ocy, 0, row - 1);
      LineAt(oy);
      CellOf(t, ox, oy);
      LineAt(c.y);
      CellOf(t, c.x, c.y);
      Drawregion(win);
      win.Drawcell(ox, oy, Cell(mem[line[oy]][ox].u, mem[line[oy]][ox].attr));
      if !hidden {
        win.Drawcell(c.x, c.y, UnderCursor(mem[line[c.y]][c.x].u, mem[line[c.y]][c.x].attr));
      }
      ocx := c.x;
      ocy := c.y;
    }
  }

  // ---- whole runs ----

  /** The two screens together hold different lines of memory, all of them allocated and none left over. */
  ghost predicate OwnsLines(d: Display)
    reads d
  {
    |d.line| == |d.alt| == d.row && Distinct(d.line, d.alt)
    && (forall p :: p in d.mem <==> p in d.line || p in d.alt) && forall p :: p in d.mem ==> |d.mem[p]| == d.col
  }

  lemma ValidOwns(d: Display)
    requires d.Valid()
    ensures OwnsLines(d)
  {
    forall p | p in d.mem ensures |d.mem[p]| == d.col {
      if p in d.line { LineWidth(d, d.line, p); } else { LineWidth(d, d.alt, p); }
    }
  }

  lemma LineWidth(d: Display, ids: seq<Ptr>, p: Ptr)
    requires d.Valid() && (ids == d.line || ids == d.alt) && p in ids && p in d.mem
    ensures |d.mem[p]| == d.col
  {
    var y :| 0 <= y < |ids| && ids[y] == p;
    assert Cells(d.mem, ids)[y] == d.mem[p];
  }

  /** One event, on the lines in memory and the window. */
  method Handle(d: Display, win: Window, ev: Event, junk: Glyph)
    requires d.Valid() && Narrow(d.env) && Tracked(World(d.Model(), win.pic))
    modifies d, win
    ensures d.Valid() && World(d.Model(), win.pic) == Happen(d.env, old(World(d.Model(), win.pic)), ev)
    ensures Tracked(World(d.Model(), win.pic))
  {
    hide Inv, Tracked, Putc, Resize, TermRun.Draw, Refit, Narrow;
    ghost var w := World(d.Model(), win.pic);
    HappenKeeps(d.env, w, ev);
    match ev
    case Rune(u) => d.Tputc(u);
    case Window(col, row, shown) =>
      InvResizable(d.Model());
      d.Tresize(col, row, junk);
      if 1 <= col && 1 <= row {
        win.pic := Refit(shown, row, col);
      }
    case Paint(hidden) =>
      TrackedFrame(w);
      d.Draw(win, hidden);
  }

  lemma InvResizable(t: Term)
    requires Inv(t)
    ensures Resizable(t)
  {}

  lemma TrackedFrame(w: World)
    requires Tracked(w)
    ensures Framed(w.pic, w.t.row, w.t.col)
  {}

  /**
    * A whole run of runes, resizes and redraws: the lines in memory do what the functions say,
    * each screen keeps lines of its own, and at the end a redraw of the dirty rows shows everything.
    */
  method Events(d: Display, win: Window, evs: seq<Event>, junk: Glyph)
    requires d.Valid() && Narrow(d.env) && Tracked(World(d.Model(), win.pic))
    modifies d, win
    ensures d.Valid() && OwnsLines(d)
    ensures World(d.Model(), win.pic) == Run(d.env, old(World(d.Model(), win.pic)), evs)
    ensures forall hidden :: var w := World(d.Model(), win.pic); TermRun.Draw(w, hidden) == Redraw(w, hidden)
  {
    hide Inv, Tracked, Happen, TermRun.Draw, Redraw, Narrow, OwnsLines;
    ghost var w := World(d.Model(), win.pic);
    var i := 0;
    while i < |evs|
      invariant 0 <= i <= |evs| && d.Valid() && Tracked(World(d.Model(), win.pic))
      invariant Run(d.env, World(d.Model(), win.pic), evs[i..]) == Run(d.env, w, evs)
    {
      assert evs[i..][0] == evs[i] && evs[i..][1..] == evs[i + 1..];
      Handle(d, win, evs[i], junk);
      i := i + 1;
    }
    ValidOwns(d);
    forall hidden ensures var v := World(d.Model(), win.pic); TermRun.Draw(v, hidden) == Redraw(v, hidden) {
      DrawIsRedraw(World(d.Model(), win.pic), hidden);
    }
  }

  /** What the window shows. */
  class Window {
    var pic: Picture

    method Drawline(r: Row, y: int)
      requires 0 <= y < |pic|
      modifies this
      ensures pic == old(pic)[y := DrawnRow(r)]
    {
      pic := pic[y := seq(|r|, x requires 0 <= x < |r| => Cell(r[x].u, r[x].attr))];
    }

    method Drawcell(x: int, y: int, p: Pixel)
      modifies this
      ensures pic == PutPixel(old(pic), x, y, p)
    {
      if 0 <= y < |pic| && 0 <= x < |pic[y]| {
        pic := pic[y := pic[y][x := p]];
      }
    }
  }

  /** The child's output: reads are appended to the bytes held back from the last one. */
  class Tty {
    const term: Display
    var held: seq<Byte>

    constructor (d: Display)
      ensures term == d && held == []
    {
      term := d;
      held := [];
    }

    method Ttyread(chunk: seq<Byte>)
      requires term.Valid() && Narrow(term.env)
      modifies this, term
      ensures term.Valid()
      ensures var f := Feed(term.env, old(term.Model()), old(held) + chunk, false);
        term.Model() == f.t && held == f.rest
      ensures |held| < 4
    {
      hide Feed;
      FeedHolds(term.env, term.Model(), held + chunk, false);
      var buf := held + chunk;
      var n := term.Twrite(buf, false);
      held := buf[n..];
    }
  }

  const ZERO_CURSOR := Cursor(Attr(0, 0, 0), 0, 0, false, false)

  /** The terminal before its first resize. */
  function Zero(e: Env): Term {
    Term(0, 0, [], [], [], ZERO_CURSOR.(attr := Attr(0, e.attr0.fg, e.attr0.bg)), ZERO_CURSOR, ZERO_CURSOR, 0, 0, 0, 0,
         Mode(false, false, false, false, false, false, false), NO_ESC, [0, 0, 0, 0], 0, 0, [], 0, NO_CSI,
           Str(0, [], 0), [])
  }

  function Started(e: Env, col: int, row: int): Term {
    Reset(e, Resize(e, Zero(e), col, row))
  }

  /** A new terminal satisfies the run invariant. */
  lemma StartedKeeps(e: Env, col: int, row: int)
    requires 1 <= col && 1 <= row
    ensures Resizable(Zero(e)) && Inv(Resize(e, Zero(e), col, row)) && Inv(Started(e, col, row))
  {
    ResizeFrom(e, Zero(e), col, row);
    var t := Resize(e, Zero(e), col, row);
    ResetGoes(e, t);
    GoesInv(t, Started(e, col, row));
  }

  lemma ResizeFrom(e: Env, t: Term, col: int, row: int)
    requires Resizable(t) && 1 <= col && 1 <= row
    ensures Inv(Resize(e, t, col, row))
  {}

  function Sized(e: Env, t: Term, col: int, row: int): Term
    requires 1 <= col
  {
    MoveTo(SetScroll(t.(row := row, col := col, tabs := ResizedTabs(t.tabs, col, e.tabspaces)), 0, row - 1), t.c.x,
      t.c.y)
  }

  function FinishOne(t: Term, mincol: int, minrow: int): Term {
    LoadCursor(SwapScreen(ClearOutside(t, mincol, minrow)))
  }

  function Finish(t: Term, mincol: int, minrow: int): Term {
    FinishOne(FinishOne(t, mincol, minrow), mincol, minrow).(c := t.c)
  }

  lemma SizedOnly(e: Env, t: Term, u: Term, col: int, row: int)
    requires 1 <= col && u == t.(line := u.line, alt := u.alt)
    ensures Sized(e, u, col, row) == Sized(e, t, col, row).(line := u.line, alt := u.alt)
  {}

  lemma SizedScreens(e: Env, t: Term, u: Term, line: Grid, alt: Grid, col: int, row: int)
    requires 1 <= col && 1 <= row && u == Sized(e, t, col, row).(line := line, alt := alt, dirty := u.dirty)
    requires Shaped(line, row, col) && Shaped(alt, row, col) && |u.dirty| == row
    ensures Screens(u)
  {}

  lemma SizedDirty(t: Term, d: seq<bool>, row: int)
    ensures SetScroll(t.(dirty := d), 0, row - 1).c == t.c
    ensures MoveTo(SetScroll(t.(dirty := d), 0, row - 1), t.c.x, t.c.y)
         == MoveTo(SetScroll(t, 0, row - 1), t.c.x, t.c.y).(dirty := d)
  {}

  lemma KeptShape(s: Grid, s0: Grid, k: int, mincol: int, minrow: int, col: int, row: int)
    requires KeptCells(s, s0, k, mincol, minrow, col, row)
    ensures Shaped(s, row, col)
  {}

  lemma OutsideScreens(t: Term, mincol: int, minrow: int)
    requires Screens(t)
    ensures Screens(ClearOutside(t, mincol, minrow))
  {
    hide ClearRegion, Screens;
    ClearScreens(t, mincol, 0, t.col - 1, minrow - 1);
    var u := if mincol < t.col && 0 < minrow then ClearRegion(t, mincol, 0, t.col - 1, minrow - 1) else t;
    ClearScreens(u, 0, minrow, t.col - 1, t.row - 1);
  }

  lemma FinishScreens(t: Term, mincol: int, minrow: int)
    requires Screens(t)
    ensures Screens(ClearOutside(t, mincol, minrow)) && Screens(FinishOne(t, mincol, minrow))
  {
    hide ClearOutside;
    OutsideScreens(t, mincol, minrow);
  }

  /** Clearing outside the kept cells gives the resized screen whatever junk was there. */
  lemma RegionCell(t: Term, x1: int, y1: int, x2: int, y2: int, x: int, y: int)
    requires Screens(t) && 0 <= x < t.col && 0 <= y < t.row
    requires 0 <= x1 <= x2 < t.col && 0 <= y1 <= y2 < t.row
    ensures var u := ClearRegion(t, x1, y1, x2, y2);
      Screens(u) && u.col == t.col && u.row == t.row && Blank(u) == Blank(t)
      && u.line[y][x] == if x1 <= x <= x2 && y1 <= y <= y2 then Blank(t) else t.line[y][x]
  {
    ClearScreens(t, x1, y1, x2, y2);
  }

  /** A cell after both clears of the grown border. */
  lemma OutsideCell(t: Term, mincol: int, minrow: int, x: int, y: int)
    requires Screens(t) && 0 <= x < t.col && 0 <= y < t.row && 0 <= minrow <= t.row && 0 <= mincol <= t.col
    ensures var u := ClearOutside(t, mincol, minrow);
      Screens(u) && u.col == t.col && u.row == t.row
      && u.line[y][x] == if x < mincol && y < minrow then t.line[y][x] else Blank(t)
  {
    hide ClearRegion, Blank;
    if mincol < t.col && 0 < minrow {
      RegionCell(t, mincol, 0, t.col - 1, minrow - 1, x, y);
    }
    var u := if mincol < t.col && 0 < minrow then ClearRegion(t, mincol, 0, t.col - 1, minrow - 1) else t;
    if minrow < t.row {
      RegionCell(u, 0, minrow, t.col - 1, t.row - 1, x, y);
    }
  }

  lemma OutsideCleared(t: Term, s0: Grid, k: int, mincol: int, minrow: int)
    requires Screens(t) && KeptCells(t.line, s0, k, mincol, minrow, t.col, t.row)
    ensures ClearOutside(t, mincol, minrow).line == ResizedGrid(s0, k, mincol, minrow, t.col, t.row, Blank(t))
  {
    hide ClearOutside, Blank;
    var v := ClearOutside(t, mincol, minrow);
    var r := ResizedGrid(s0, k, mincol, minrow, t.col, t.row, Blank(t));
    OutsideCell(t, mincol, minrow, 0, 0);
    forall y | 0 <= y < t.row
      ensures v.line[y] == r[y]
    {
      forall x | 0 <= x < t.col ensures v.line[y][x] == r[y][x] {
        OutsideCell(t, mincol, minrow, x, y);
      }
    }
  }

  lemma OutsideOnly(t: Term, mincol: int, minrow: int)
    ensures var u := ClearOutside(t, mincol, minrow);
      u == t.(line := u.line, dirty := u.dirty) && |u.dirty| == |t.dirty|
  {}

  lemma AllDirty(d: seq<bool>, row: int)
    requires |d| == row
    ensures MarkedRows(d, 0, row - 1) == seq(row, _ => true)
  {}

  /** One round of Finish on a screen with kept cells. */
  lemma FinishOneIs(t: Term, s0: Grid, k: int, mincol: int, minrow: int)
    requires Screens(t) && KeptCells(t.line, s0, k, mincol, minrow, t.col, t.row)
    ensures FinishOne(t, mincol, minrow)
         == LoadCursor(t.(line := t.alt, alt := ResizedGrid(s0, k, mincol, minrow, t.col, t.row, Blank(t)),
              mode := t.mode.(alt := !t.mode.alt), dirty := seq(t.row, _ => true)))
  {
    hide ClearOutside, ResizedGrid, MarkedRows, KeptCells, LoadCursor;
    OutsideCleared(t, s0, k, mincol, minrow);
    OutsideOnly(t, mincol, minrow);
    AllDirty(ClearOutside(t, mincol, minrow).dirty, t.row);
  }

  lemma FinishIs(e: Env, t: Term, u: Term, col: int, row: int)
    requires Resizable(t) && 1 <= col && 1 <= row && Screens(u)
    requires u == Sized(e, t, col, row).(line := u.line, alt := u.alt, dirty := u.dirty)
    requires KeptCells(u.line, t.line, Slide(t, row), Min(col, t.col), Min(row, t.row), col, row)
    requires KeptCells(u.alt, t.alt, Slide(t, row), Min(col, t.col), Min(row, t.row), col, row)
    ensures Finish(u, Min(col, t.col), Min(row, t.row)) == Resize(e, t, col, row)
  {
    var k, mc, mr := Slide(t, row), Min(col, t.col), Min(row, t.row);
    FinishScreens(u, mc, mr);
    hide FinishOne, ResizedGrid, KeptCells, ResizedTabs, Shaped, Slide, Collected, Tables;
    FinishOneIs(u, t.line, k, mc, mr);
    FinishOneIs(FinishOne(u, mc, mr), t.alt, k, mc, mr);
  }

  ghost predicate Within(a: map<Ptr, Row>, b: map<Ptr, Row>) {
    forall p :: p in a ==> p in b && a[p] == b[p]
  }

  ghost predicate Wide(mem: map<Ptr, Row>, mincol: int) {
    forall p :: p in mem ==> mincol <= |mem[p]|
  }

  ghost predicate Refitted(a: map<Ptr, Row>, b: map<Ptr, Row>, mincol: int, col: int, junk: Glyph)
    requires 0 <= mincol <= col && Wide(a, mincol)
  {
    a.Keys == b.Keys && forall p :: p in a ==> b[p] == Fitted(a[p], mincol, col, junk)
  }

  /** b has the lines of a and fresh lines of the given width. */
  ghost predicate Grown(a: map<Ptr, Row>, b: map<Ptr, Row>, next: Ptr, col: int) {
    (forall p :: p in a ==> p in b && b[p] == a[p]) && (forall p :: p in b && p !in a ==> p >= next && |b[p]| == col)
  }

  ghost predicate AllIn(ids: seq<Ptr>, mem: map<Ptr, Row>) {
    forall i :: 0 <= i < |ids| ==> ids[i] in mem
  }

  lemma WithinWide(a: map<Ptr, Row>, b: map<Ptr, Row>, mincol: int)
    requires Within(a, b) && Wide(b, mincol)
    ensures Wide(a, mincol)
  {}

  /** A terminal whose screens agree in size, possibly before its first resize. */
  predicate Resizable(t: Term) {
    Collected(t) && Tables(t) && 0 <= t.row && 0 <= t.col && Shaped(t.line, t.row, t.col) && Shaped(t.alt, t.row, t.col)
    && |t.tabs| == t.col && 0 <= t.c.y <= Max(0, t.row - 1)
  }

  /** Of the old lines, m from position k are kept in place; the rest of the new ones are fresh. */
  predicate KeptLines(line0: seq<Ptr>, alt0: seq<Ptr>, line: seq<Ptr>, alt: seq<Ptr>, next: Ptr, k: int, m: int) {
    0 <= k && 0 <= m && k + m <= |line0| == |alt0| && m <= |line| == |alt|
    && line[..m] == line0[k..k + m] && alt[..m] == alt0[k..k + m]
    && forall i :: m <= i < |line| ==> line[i] >= next && alt[i] >= next
  }

  /** The first mincol cells of the first minrow rows come from old rows k on. */
  predicate KeptCells(s: Grid, s0: Grid, k: int, mincol: int, minrow: int, col: int, row: int) {
    Shaped(s, row, col) && 0 <= k && 0 <= minrow <= row && 0 <= mincol <= col
    && k + minrow <= |s0| && (forall y :: 0 <= y < |s0| ==> mincol <= |s0[y]|)
    && forall y, x :: 0 <= y < minrow && 0 <= x < mincol ==> s[y][x] == s0[y + k][x]
  }

  lemma LineWidths(t: Term, mem: map<Ptr, Row>, next: Ptr, line: seq<Ptr>, alt: seq<Ptr>, mincol: int)
    requires t.line == Cells(mem, line) && t.alt == Cells(mem, alt) && Resizable(t) && mincol <= t.col
    requires Owns(mem, next, line, alt)
    ensures Wide(mem, mincol)
  {
    forall p | p in mem ensures |mem[p]| == t.col {
      if p in line {
        var i :| 0 <= i < |line| && line[i] == p;
        assert t.line[i] == mem[p];
      } else {
        var i :| 0 <= i < |alt| && alt[i] == p;
        assert t.alt[i] == mem[p];
      }
    }
  }

  lemma OwnedIn(mem: map<Ptr, Row>, next: Ptr, ids: seq<Ptr>, others: seq<Ptr>)
    requires Owns(mem, next, ids, others)
    ensures AllIn(ids, mem) && AllIn(others, mem)
  {}

  lemma FreshLines(mem: map<Ptr, Row>, mem': map<Ptr, Row>, next: Ptr, next': Ptr, line: seq<Ptr>, alt: seq<Ptr>,
                   line': seq<Ptr>, alt': seq<Ptr>, line0: seq<Ptr>, alt0: seq<Ptr>, k: int, m: int, col: int)
    requires Owns(mem, next, line, alt) && Owns(mem', next', line', alt') && line <= line' && alt <= alt'
    requires 0 <= k && 0 <= m && k + m <= |line0| == |alt0| && line == line0[k..k + m] && alt == alt0[k..k + m]
    requires |line'| == |alt'| && Grown(mem, mem', next, col)
    ensures KeptLines(line0, alt0, line', alt', next, k, m)
  {
    forall i | m <= i < |line'| ensures line'[i] >= next && alt'[i] >= next {
      assert line'[i] in mem' && alt'[i] in mem';
      assert forall j :: 0 <= j < m ==> line'[j] == line[j] && alt'[j] == alt[j];
      assert line'[i] !in line && line'[i] !in alt && alt'[i] !in line && alt'[i] !in alt;
    }
  }

  lemma CellsKept(mem0: map<Ptr, Row>, mem1: map<Ptr, Row>, mem2: map<Ptr, Row>, mem: map<Ptr, Row>, next: Ptr,
                  ids0: seq<Ptr>, ids: seq<Ptr>, k: int, m: int, mincol: int, col: int, row: int, junk: Glyph)
    requires 0 <= k && 0 <= m <= row == |ids| && k + m <= |ids0| && ids0[k..k + m] <= ids && 0 <= mincol <= col
    requires AllIn(ids0, mem0) && AllIn(ids0[k..k + m], mem1) && AllIn(ids, mem)
    requires Wide(mem0, mincol) && Within(mem1, mem0) && Wide(mem1, mincol)
    requires Refitted(mem1, mem2, mincol, col, junk) && Grown(mem2, mem, next, col)
    ensures KeptCells(Cells(mem, ids), Cells(mem0, ids0), k, mincol, m, col, row)
  {
    assert forall i :: 0 <= i < m ==> ids[i] == ids0[k..k + m][i] == ids0[k + i];
    forall i | 0 <= i < row ensures |Cells(mem, ids)[i]| == col {
      if ids[i] in mem2 { assert |mem2[ids[i]]| == col; }
    }
    forall y, x | 0 <= y < m && 0 <= x < mincol
      ensures Cells(mem, ids)[y][x] == Cells(mem0, ids0)[y + k][x]
    {
      assert ids[y] in mem1;
    }
  }

  /** Lines in done have been reallocated, the others not yet. */
  function FittedMem(mem: map<Ptr, Row>, done: set<Ptr>, mincol: int, col: int, junk: Glyph): map<Ptr, Row>
    requires 0 <= mincol <= col && forall p :: p in mem ==> mincol <= |mem[p]|
  {
    map p | p in mem :: if p in done then Fitted(mem[p], mincol, col, junk) else mem[p]
  }

  lemma NoneFitted(mem: map<Ptr, Row>, mincol: int, col: int, junk: Glyph)
    requires 0 <= mincol <= col && forall p :: p in mem ==> mincol <= |mem[p]|
    ensures FittedMem(mem, {}, mincol, col, junk) == mem
  {}

  lemma FittedMore(mem: map<Ptr, Row>, done: set<Ptr>, p: Ptr, mincol: int, col: int, junk: Glyph)
    requires 0 <= mincol <= col && (forall p :: p in mem ==> mincol <= |mem[p]|) && p in mem && p !in done
    ensures FittedMem(mem, done, mincol, col, junk).Keys == mem.Keys
      && FittedMem(mem, done, mincol, col, junk)[p] == mem[p]
    ensures FittedMem(mem, done, mincol, col, junk)[p := Fitted(mem[p], mincol, col, junk)]
         == FittedMem(mem, done + {p}, mincol, col, junk)
  {}

  lemma AllFitted(mem: map<Ptr, Row>, next: Ptr, ids: seq<Ptr>, others: seq<Ptr>, mincol: int, col: int, junk: Glyph)
    requires Owns(mem, next, ids, others) && 0 <= mincol <= col && forall p :: p in mem ==> mincol <= |mem[p]|
    ensures var m := FittedMem(mem, Ids(ids) + Ids(others), mincol, col, junk);
      m.Keys == mem.Keys && (forall p :: p in m ==> m[p] == Fitted(mem[p], mincol, col, junk))
        && Owns(m, next, ids, others)
  {}

  lemma ClearScreens(t: Term, x1: int, y1: int, x2: int, y2: int)
    requires Screens(t)
    ensures Screens(ClearRegion(t, x1, y1, x2, y2))
  {}

  function ClearOutside(t: Term, mincol: int, minrow: int): Term {
    var u := if mincol < t.col && 0 < minrow then ClearRegion(t, mincol, 0, t.col - 1, minrow - 1) else t;
    if minrow < t.row then ClearRegion(u, 0, minrow, t.col - 1, t.row - 1) else u
  }

  /** A line cut or extended to col cells. */
  function Fitted(r: Row, mincol: int, col: int, junk: Glyph): Row
    requires 0 <= mincol <= |r| && mincol <= col
  {
    r[..mincol] + seq(col - mincol, _ => junk)
  }

  lemma OwnsMore(mem: map<Ptr, Row>, next: Ptr, ids: seq<Ptr>, others: seq<Ptr>, r: Row)
    requires Owns(mem, next, ids, others)
    ensures Owns(mem[next := r][next + 1 := r], next + 2, ids + [next], others + [next + 1])
  {
    assert forall p :: p in ids ==> p in mem;
    assert forall p :: p in others ==> p in mem;
    assert forall i :: 0 <= i < |ids| ==> ids[i] in mem;
    assert forall i :: 0 <= i < |others| ==> others[i] in mem;
  }

  /** The list after n entries have been moved down from position k. */
  function MovedDown(ids: seq<Ptr>, k: int, n: int): seq<Ptr>
    requires k > 0 ==> 0 <= n && k + n <= |ids|
  {
    if k > 0 then ids[k..k + n] + ids[n..] else ids
  }

  lemma MovedParts(ids: seq<Ptr>, k: int, n: int, m: int)
    requires 0 <= k && 0 <= n && m == Min(n, |ids|) && k + m <= |ids| && (k > 0 ==> m == n)
    ensures |MovedDown(ids, k, n)| == |ids| && MovedDown(ids, k, n)[..m] == ids[k..k + m]
    ensures k + n < |ids| ==> m == n && MovedDown(ids, k, n)[k + n..] == ids[k + m..]
  {}

  lemma NoneLeft(mem: map<Ptr, Row>, ids: seq<Ptr>, others: seq<Ptr>)
    requires |ids| == |others| == 0
    ensures mem - Ids(ids) - Ids(others) == mem
  {
    assert Ids(ids) == {} && Ids(others) == {};
  }

  lemma Freeable(mem: map<Ptr, Row>, next: Ptr, ids: seq<Ptr>, others: seq<Ptr>, a: int, b: int)
    requires Owns(mem, next, ids, others) && |ids| == |others| && 0 <= a <= b <= |ids|
    ensures Distinct(ids[a..b], others[a..b])
    ensures forall i :: 0 <= i < b - a ==> ids[a..b][i] in mem && others[a..b][i] in mem
  {
    DistinctPart(ids, others, a, b);
  }

  lemma StillFreeable(mem: map<Ptr, Row>, next: Ptr, ids: seq<Ptr>, others: seq<Ptr>, a: int, b: int)
    requires Owns(mem, next, ids, others) && |ids| == |others| && 0 <= a <= b <= |ids|
    ensures Distinct(ids[b..], others[b..])
    ensures forall i :: 0 <= i < |ids| - b ==>
      ids[b..][i] in mem - Ids(ids[..a]) - Ids(others[..a]) && others[b..][i] in mem - Ids(ids[..a]) - Ids(others[..a])
  {
    DistinctPart(ids, others, b, |ids|);
    assert ids[b..|ids|] == ids[b..] && others[b..|ids|] == others[b..];
    StillThere(ids, others, a, b);
  }

  lemma DistinctPart(ids: seq<Ptr>, others: seq<Ptr>, a: int, b: int)
    requires Distinct(ids, others) && |ids| == |others| && 0 <= a <= b <= |ids|
    ensures Distinct(ids[a..b], others[a..b])
  {}

  lemma StillThere(ids: seq<Ptr>, others: seq<Ptr>, a: int, b: int)
    requires Distinct(ids, others) && |ids| == |others| && 0 <= a <= b <= |ids|
    ensures forall i :: b <= i < |ids| ==>
      ids[i] !in Ids(ids[..a]) && ids[i] !in Ids(others[..a]) && others[i] !in Ids(ids[..a])
        && others[i] !in Ids(others[..a])
  {}

  /** Freeing all but rows a to b - 1 leaves exactly those rows allocated. */
  lemma KeptOwns(mem: map<Ptr, Row>, next: Ptr, ids: seq<Ptr>, others: seq<Ptr>, a: int, b: int)
    requires Owns(mem, next, ids, others) && |ids| == |others| && 0 <= a <= b <= |ids|
    ensures var m := mem - Ids(ids[..a]) - Ids(others[..a]) - Ids(ids[b..]) - Ids(others[b..]);
      Owns(m, next, ids[a..b], others[a..b]) && Within(m, mem)
  {
    var m := mem - Ids(ids[..a]) - Ids(others[..a]) - Ids(ids[b..]) - Ids(others[b..]);
    DistinctPart(ids, others, a, b);
    forall p ensures p in m <==> p in ids[a..b] || p in others[a..b] {
      assert ids == ids[..a] + ids[a..b] + ids[b..] && others == others[..a] + others[a..b] + others[b..];
    }
  }

  function Ids(ids: seq<Ptr>): set<Ptr> {
    set p | p in ids
  }

  lemma NoIds(ids: seq<Ptr>)
    requires |ids| == 0
    ensures Ids(ids) == {}
  {}

  lemma IdsNext(ids: seq<Ptr>, i: int)
    requires 0 <= i < |ids|
    ensures Ids(ids[..i + 1]) == Ids(ids[..i]) + {ids[i]}
  {
    assert ids[..i + 1] == ids[..i] + [ids[i]];
  }

  lemma NotFreed(ids: seq<Ptr>, others: seq<Ptr>, i: int)
    requires Distinct(ids, others) && |ids| == |others| && 0 <= i < |ids|
    ensures ids[i] !in Ids(ids[..i]) && ids[i] !in Ids(others[..i]) && others[i] !in Ids(ids[..i])
      && others[i] !in Ids(others[..i])
    ensures ids[i] != others[i]
  {}

  lemma PutsOne(e: Env, t: Term, u: int)
    ensures Puts(e, t, [u]) == Putc(e, t, u)
  {
    hide Putc, Puts;
    assert [u][1..] == [];
    PutsUnfold(e, t, [u]);
    PutsNone(e, Putc(e, t, u));
  }

  lemma PutsTwo(e: Env, t: Term, u: int, v: int)
    ensures Puts(e, t, [u, v]) == Putc(e, Putc(e, t, u), v)
  {
    hide Putc, Puts;
    assert [u, v][1..] == [v];
    PutsUnfold(e, t, [u, v]);
    PutsOne(e, Putc(e, t, u), v);
  }

  lemma PutsThree(e: Env, t: Term, u: int, v: int, w: int)
    ensures Puts(e, t, [u, v, w]) == Putc(e, Putc(e, Putc(e, t, u), v), w)
  {
    hide Putc, Puts;
    assert [u, v, w][1..] == [v, w];
    PutsUnfold(e, t, [u, v, w]);
    PutsTwo(e, Putc(e, t, u), v, w);
  }

  lemma PutsUnfold(e: Env, t: Term, us: seq<int>)
    requires us != []
    ensures Puts(e, t, us) == Puts(e, Putc(e, t, us[0]), us[1..])
  {
    hide Putc;
  }

  predicate SameEnd(f: Fed, g: Fed) {
    f.t == g.t && f.rest == g.rest
  }

  predicate IsMove(f: Byte) {
    0x41 <= f <= 0x49 || f == 0x5a || f == 0x60 || f == 0x61 || f == 0x64 || f == 0x65 || f == 0x66
  }

  predicate IsEdit(f: Byte) {
    f == 0x40 || 0x4a <= f <= 0x4d || f == 0x50 || f == 0x53 || f == 0x54 || f == 0x58
  }

  /** After the last byte of a sequence the parsed collector is in bounds. */
  lemma CollectedInv(t: Term, u: int)
    requires Inv(t) && t.esc.start
    ensures var v := t.csi.(buf := t.csi.buf + [Low8(u)]); Inv(t.(esc := NO_ESC, csi := CsiParse(v)))
  {
    var v := t.(csi := t.csi.(buf := t.csi.buf + [Low8(u)]));
    CsiParsed(v.csi);
    hide CsiParse;
    CollectorGoes(t, v.(esc := NO_ESC, csi := CsiParse(v.csi)));
    GoesInv(t, v.(esc := NO_ESC, csi := CsiParse(v.csi)));
  }

  lemma InvCursor(t: Term)
    requires Inv(t)
    ensures 0 <= t.c.x < t.col && 0 <= t.c.y < t.row && 0 <= t.top <= t.bot < t.row
  {}

  lemma PrintIs(e: Env, t: Term, u: int)
    ensures var v := OpenCell(WrapLine(t), Width(e, t, u));
      Print(e, t, u) == Advance(SetChar(v, u, v.c.attr, v.c.x, v.c.y).(lastc := u), Width(e, t, u))
  {
    hide OpenCell, WrapLine, Advance, SetChar;
  }

  lemma WidthIs(e: Env, t: Term, u: int)
    requires Narrow(e)
    ensures Width(e, t, u) == if u < 127 || !t.mode.utf8 then 1 else if e.width(u) == -1 then 1 else e.width(u)
    ensures 0 <= Width(e, t, u) <= 1
  {}

  lemma CsiSizes(t: Term)
    requires Inv(t)
    ensures |t.csi.arg| == ESC_ARG_SIZ && t.csi.narg <= |t.csi.arg|
  {}

  /** Three of the sequences csihandle dispatches on. */
  lemma CsiCases(e: Env, t: Term)
    requires |t.csi.arg| == ESC_ARG_SIZ && t.csi.narg <= |t.csi.arg|
    ensures t.csi.mode0 == 0x62 ==>
      CsiHandle(e, t) == if t.lastc != 0 then Repeat(e, t, Limit(t.csi.arg[0], 1, 65535)) else t
    ensures t.csi.mode0 == 0x6c ==> CsiHandle(e, t) == SetModes(e, t, t.csi.priv, false, t.csi.arg[..t.csi.narg])
    ensures t.csi.mode0 == 0x68 ==> CsiHandle(e, t) == SetModes(e, t, t.csi.priv, true, t.csi.arg[..t.csi.narg])
  {
    hide Repeat, SetModes;
  }

  lemma CellOf(t: Term, x: int, y: int)
    requires Screens(t) && 0 <= x < t.col && 0 <= y < t.row
    ensures |RowAt(t.line, y)| == t.col && CellAt(t.line, x, y) == RowAt(t.line, y)[x]
    ensures forall g :: PutCell(RowAt(t.line, y), x, g) == RowAt(t.line, y)[x := g]
  {}

  lemma OpenCellInv(t: Term, w: int)
    requires Inv(t)
    ensures Inv(OpenCell(t, w))
  {}

  predicate SameTail(a: seq<int>, b: seq<int>, n: nat) {
    n <= |a| == |b| && a[n..] == b[n..]
  }

  lemma TailStart(a: seq<int>)
    ensures SameTail(a, a, 0)
  {}

  lemma TailNext(a: seq<int>, b: seq<int>, n: nat, v: int)
    requires SameTail(a, b, n) && n < |a|
    ensures SameTail(a[n := v], b, n + 1)
  {
    assert a[n := v][n + 1..] == a[n..][1..] && b[n + 1..] == b[n..][1..];
  }

  lemma TailJoins(a: seq<int>, b: seq<int>, n: nat)
    requires SameTail(a, b, n)
    ensures |a| == |b| && n <= |b| && a == a[..n] + b[n..]
  {}

  lemma AtFirst(s: seq<Byte>)
    ensures At(s, 0) == 0x3f ==> |s| >= 1
  {}

  lemma ParsedNone(c: Csi, p: nat)
    requires p <= |c.buf| && c.narg == 0 && |c.arg| == ESC_ARG_SIZ
    ensures Parsed(c, p, false) == ParseArgs(c.buf, p, 0)
  {
    assert c.arg[..0] + ParseArgs(c.buf, p, 0).arg == ParseArgs(c.buf, p, 0).arg;
  }

  lemma ParsedStep(c: Csi, p: nat)
    requires p < |c.buf| && c.narg < |c.arg| == ESC_ARG_SIZ
    ensures var n := Strtol(c.buf, p);
      var c' := c.(arg := c.arg[c.narg := ToArg(n.value)], narg := c.narg + 1);
      if At(c.buf, n.next) != 0x3b || c.narg + 1 == ESC_ARG_SIZ then Parsed(c, p, false) == Parsed(c', n.next, true)
      else n.next < |c.buf| && Parsed(c, p, false) == Parsed(c', n.next + 1, false)
  {
    hide Strtol, ToArg;
    var n := Strtol(c.buf, p);
    var c' := c.(arg := c.arg[c.narg := ToArg(n.value)], narg := c.narg + 1);
    assert c'.arg[..c'.narg] == c.arg[..c.narg] + [ToArg(n.value)];
    if !(At(c.buf, n.next) != 0x3b || c.narg + 1 == ESC_ARG_SIZ) {
      var r := ParseArgs(c.buf, n.next + 1, c.narg + 1);
      assert c.arg[..c.narg] + ([ToArg(n.value)] + r.arg) == (c.arg[..c.narg] + [ToArg(n.value)]) + r.arg;
    }
  }

  lemma ParsedAll(c: Csi, p: nat)
    requires p == |c.buf| && c.narg < |c.arg| == ESC_ARG_SIZ
    ensures Parsed(c, p, false) == Parsed(c, p, true)
  {
    assert c.arg[..c.narg] + [] == c.arg[..c.narg];
  }

  lemma ParsedDone(c: Csi, p: nat)
    requires p <= |c.buf| && c.narg <= |c.arg| == ESC_ARG_SIZ
    ensures Parsed(c, p, true) == Args(c.arg[..c.narg], p)
  {}

  /** The arguments stored so far, with those still to be read from p on. */
  ghost function Parsed(c: Csi, p: nat, done: bool): Args
    requires p <= |c.buf| && c.narg <= |c.arg| == ESC_ARG_SIZ && (!done ==> c.narg < ESC_ARG_SIZ)
  {
    if done then Args(c.arg[..c.narg], p)
    else
      var r := ParseArgs(c.buf, p, c.narg);
      Args(c.arg[..c.narg] + r.arg, r.next)
  }

  lemma Multiple(k: int, n: int)
    requires k >= 1 && n > 0
    ensures k * n >= n
  {
    assert k * n == (k - 1) * n + n;
  }

  lemma QuotientUnique(q: int, d: int, q': int, d': int, n: int)
    requires n > 0 && q * n + d == q' * n + d' && 0 <= d < n && 0 <= d' < n
    ensures d == d'
  {
    assert (q' - q) * n == q' * n - q * n && (q - q') * n == q * n - q' * n;
    if q < q' { Multiple(q' - q, n); } else if q > q' { Multiple(q - q', n); }
  }

  lemma SinceMultiple(i: int, x: int, n: int)
    requires 0 < n && i % n == 0 && i <= x < i + n
    ensures x % n == x - i
  {
    QuotientUnique(i / n, x - i, x / n, x % n, n);
  }

  lemma NextMultiple(i: int, n: int)
    requires 0 < n && i % n == 0
    ensures (i + n) % n == 0
  {
    assert (i / n + 1) * n == i + n;
    QuotientUnique(i / n + 1, 0, (i + n) / n, (i + n) % n, n);
  }

  lemma InvTabs(t: Term)
    requires Inv(t)
    ensures |t.tabs| == t.col
  {}

  lemma NoStops(tabs: seq<bool>, x: int)
    requires 0 <= x <= |tabs|
    ensures TabBack(tabs, x, 0) == x
  {}

  lemma StopsBetween(p0: int, p: int, x: int, n: nat)
    requires 0 < n && p0 < p && (p - p0) % n == 0 && p <= x < p + n
    ensures IsStop(x, p0, n) == (x == p)
  {
    SinceMultiple(p - p0, x - p0, n);
  }

  lemma StopsBefore(p0: int, x: int, n: nat)
    requires p0 < x < p0 + n
    ensures !IsStop(x, p0, n)
  {
    SinceMultiple(0, x - p0, n);
  }

  /** Sets every n-th column after p0. */
  method PutStops(tabs: seq<bool>, p0: int, n: nat) returns (r: seq<bool>)
    requires -1 <= p0
    ensures |r| == |tabs| && forall x :: 0 <= x < |tabs| ==> r[x] == (tabs[x] || IsStop(x, p0, n))
  {
    r := tabs;
    if n > 0 {
      var p := p0 + n;
      forall x | p0 < x < p0 + n ensures !IsStop(x, p0, n) { StopsBefore(p0, x, n); }
      NextMultiple(0, n);
      while p < |tabs|
        invariant p0 < p && (p - p0) % n == 0 && |r| == |tabs|
        invariant forall x :: 0 <= x < |tabs| ==> r[x] == (tabs[x] || (x < p && IsStop(x, p0, n)))
        decreases |tabs| - p
      {
        r := r[p := true];
        forall x | p <= x < p + n ensures IsStop(x, p0, n) == (x == p) { StopsBetween(p0, p, x, n); }
        NextMultiple(p - p0, n);
        p := p + n;
      }
    }
  }

  /** The loops of tputtab: n stops on from x0, or back from it. */
  method StopsRight(tabs: seq<bool>, x0: int, n: int) returns (x: int)
    requires 0 <= x0 <= |tabs|
    ensures x == TabForward(tabs, x0, n)
  {
    x := x0;
    var k := n;
    while x < |tabs| && k > 0
      invariant 0 <= x <= |tabs| && TabForward(tabs, x, k) == TabForward(tabs, x0, n)
    {
      k := k - 1;
      ghost var x1 := x;
      x := x + 1;
      while x < |tabs| && !tabs[x]
        invariant x1 < x <= |tabs|
        invariant NextTab(tabs, x1) == if x < |tabs| && !tabs[x] then NextTab(tabs, x) else x
      {
        x := x + 1;
      }
    }
  }

  method StopsLeft(tabs: seq<bool>, x0: int, n: int) returns (x: int)
    requires 0 <= x0 <= |tabs|
    ensures x == TabBack(tabs, x0, n)
  {
    x := x0;
    var k := n;
    while x > 0 && k > 0
      invariant 0 <= x <= |tabs| && TabBack(tabs, x, k) == TabBack(tabs, x0, n)
    {
      k := k - 1;
      ghost var x1 := x;
      x := x - 1;
      while x > 0 && !tabs[x]
        invariant 0 <= x < x1
        invariant PrevTab(tabs, x1) == if x > 0 && !tabs[x] then PrevTab(tabs, x) else x
      {
        x := x - 1;
      }
    }
  }

  lemma RowWidth(t: Term, y: int)
    requires Screens(t) && 0 <= y < t.row
    ensures |RowAt(t.line, y)| == t.col
  {}

  lemma PutWidth(t: Term, y: int, r: Row)
    requires Screens(t) && 0 <= y < t.row && |r| == t.col
    ensures Screens(t.(line := PutRow(t.line, y, r)))
  {}

  lemma MarkOne(d: seq<bool>, y: int)
    requires 0 <= y < |d|
    ensures MarkedRows(d, y, y) == d[y := true]
  {}

  lemma MovedLeft(r: Row, x: int, k: int)
    requires 0 <= x <= |r| && 0 <= k <= |r| - x
    ensures r[..x] + r[x + k..] + r[|r| - k..] == ShiftedLeft(r, x, k)
  {}

  lemma MovedRight(r: Row, x: int, k: int)
    requires 0 <= x <= |r| && 0 <= k <= |r| - x
    ensures r[..x + k] + r[x..|r| - k] == ShiftedRight(r, x, k)
  {}

  /** The alignment test after x whole columns and y cells of the next. */
  function Tested(t: Term, x: int, y: int): Term {
    var g := Glyph(Translate(t, 0x45), t.c.attr, false);
    t.(line := seq(|t.line|, j requires 0 <= j < |t.line| =>
         if j < y then ClearedRow(t.line[j], 0, x, g) else ClearedRow(t.line[j], 0, x - 1, g)),
       dirty := seq(|t.dirty|, j requires 0 <= j < |t.dirty| => t.dirty[j] || x > 0 || j < y))
  }

  lemma TestedEnds(t: Term)
    requires Inv(t)
    ensures Tested(t, 0, 0) == t && Tested(t, t.col, 0) == DecTest(t, 0x38)
  {
    assert forall j :: 0 <= j < t.row ==>
      ClearedRow(t.line[j], 0, -1, Glyph(Translate(t, 0x45), t.c.attr, false)) == t.line[j];
  }

  lemma TestedColumn(t: Term, x: int)
    requires Inv(t) && 0 <= x < t.col
    ensures Tested(t, x, t.row) == Tested(t, x + 1, 0)
  {}

  lemma TestedStep(t: Term, x: int, y: int)
    requires Inv(t) && 0 <= x < t.col && 0 <= y < t.row
    ensures var u := Tested(t, x, y); SetChar(u, 0x45, u.c.attr, x, y) == Tested(t, x, y + 1)
  {
    var g := Glyph(Translate(t, 0x45), t.c.attr, false);
    assert ClearedRow(t.line[y], 0, x - 1, g)[x := g] == ClearedRow(t.line[y], 0, x, g);
    assert SetChar(Tested(t, x, y), 0x45, t.c.attr, x, y).line == Tested(t, x, y + 1).line;
    assert SetChar(Tested(t, x, y), 0x45, t.c.attr, x, y).dirty == Tested(t, x, y + 1).dirty;
  }

  lemma SwappedIds(ids: seq<Ptr>, others: seq<Ptr>, i: int, j: int)
    requires Distinct(ids, others) && 0 <= i < |ids| && 0 <= j < |ids|
    ensures var ids' := ids[i := ids[j]][j := ids[i]];
      Distinct(ids', others) && multiset(ids') == multiset(ids) && forall p :: p in ids' <==> p in ids
  {
    var ids' := ids[i := ids[j]][j := ids[i]];
    forall p ensures p in ids' <==> p in ids {
      if p in ids {
        var k :| 0 <= k < |ids| && ids[k] == p;
        assert ids'[if k == i then j else if k == j then i else k] == p;
      }
    }
  }

  lemma SwappedCells(mem: map<Ptr, Row>, ids: seq<Ptr>, i: int, j: int)
    requires 0 <= i < |ids| && 0 <= j < |ids|
    ensures |Cells(mem, ids)| == |ids|
    ensures Cells(mem, ids[i := ids[j]][j := ids[i]]) == Swapped(Cells(mem, ids), i, j)
  {}

  function Swapped(s: Grid, i: int, j: int): Grid
    requires 0 <= i < |s| && 0 <= j < |s|
  {
    s[i := s[j]][j := s[i]]
  }

  /** Rows a to b hold the same text. */
  predicate Alike(s: Grid, a: int, b: int) {
    0 <= a && b < |s| && forall i :: a <= i <= b ==> s[i] == s[a]
  }

  lemma ClearedAlike(t: Term, a: int, b: int)
    requires Screens(t) && 0 <= a <= b + 1 <= t.row
    ensures Alike(ClearRegion(t, 0, a, t.col - 1, b).line, a, b)
  {
    if a <= b {
      var u := ClearRegion(t, 0, a, t.col - 1, b);
      forall i | a <= i <= b
        ensures u.line[i] == u.line[a]
      {
        assert u.line[i] == ClearedRow(t.line[i], 0, t.col - 1, Blank(t));
      }
    }
  }

  lemma InvScreens(t: Term)
    requires Inv(t)
    ensures Screens(t)
  {}

  lemma SetDirtLine(t: Term, a: int, b: int)
    ensures SetDirt(t, a, b) == t.(dirty := SetDirt(t, a, b).dirty) && |SetDirt(t, a, b).dirty| == |t.dirty|
  {}

  /** The screen when rows orig to i - 1 have come up by k; the cleared rows are now at i. */
  function PartUp(s: Grid, orig: int, k: int, i: int): Grid {
    seq(|s|, r requires 0 <= r < |s| =>
      if orig <= r < i && 0 <= r + k < |s| then s[r + k]
      else if i <= r < i + k && 0 <= orig < |s| then s[orig]
      else s[r])
  }

  lemma PartUpEnds(s: Grid, orig: int, bot: int, k: int)
    requires 0 <= orig <= bot < |s| && 0 <= k <= bot - orig + 1 && Alike(s, orig, orig + k - 1)
    ensures PartUp(s, orig, k, orig) == s
    ensures PartUp(s, orig, k, bot - k + 1) == ShiftedUp(s, orig, bot, k, RowAt(s, orig))
  {
    var p := PartUp(s, orig, k, orig);
    forall r | 0 <= r < |s| ensures p[r] == s[r] {}
  }

  lemma PartUpStep(s: Grid, orig: int, bot: int, k: int, i: int)
    requires 0 <= orig <= i <= bot - k && bot < |s| && 0 <= k
    ensures Swapped(PartUp(s, orig, k, i), i, i + k) == PartUp(s, orig, k, i + 1)
  {}

  /** The screen when rows i + 1 to bot have come down by k; the cleared rows now end at i. */
  function PartDown(s: Grid, bot: int, k: int, i: int): Grid {
    seq(|s|, r requires 0 <= r < |s| =>
      if i < r <= bot && 0 <= r - k < |s| then s[r - k] else if i - k < r <= i && 0 <= bot < |s| then s[bot] else s[r])
  }

  lemma PartDownEnds(s: Grid, orig: int, bot: int, k: int)
    requires 0 <= orig <= bot < |s| && 0 <= k <= bot - orig + 1 && Alike(s, bot - k + 1, bot)
    ensures PartDown(s, bot, k, bot) == s
    ensures PartDown(s, bot, k, orig + k - 1) == ShiftedDown(s, orig, bot, k, RowAt(s, bot))
  {
    var p := PartDown(s, bot, k, bot);
    forall r | 0 <= r < |s| ensures p[r] == s[r] {}
  }

  lemma PartDownStep(s: Grid, orig: int, bot: int, k: int, i: int)
    requires 0 <= orig && orig + k <= i <= bot < |s| && 0 <= k
    ensures Swapped(PartDown(s, bot, k, i), i, i - k) == PartDown(s, bot, k, i - 1)
  {}
}
