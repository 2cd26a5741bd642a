/**
  * Whole runs of the terminal: byte streams cut into reads, window resizes and
  * redraws in any order.
  */
module TermRun {
  import opened Values
  import opened Utf8
  import opened TermModel
  import opened TermInvariant

  // ---- resizing ----

  /** How many rows are dropped at the top so that the cursor's row stays on the screen. */
  function Slide(t: Term, row: int): int {
    Max(0, t.c.y - row + 1)
  }

  /** Old row y + k, cut or padded to col cells, as row y; rows from minrow on are blank. */
  function ResizedGrid(s: Grid, k: int, mincol: int, minrow: int, col: nat, row: nat, g: Glyph): Grid {
    seq(row, y requires 0 <= y =>
      seq(col, x requires 0 <= x =>
        if x < mincol && y < minrow && 0 <= y + k < |s| && x < |s[y + k]| then s[y + k][x] else g))
  }

  /** The last tab stop at or below x; column 0 and what lies before it count as one. */
  function LastTab(tabs: seq<bool>, x: int): int
    requires x < |tabs|
    decreases x
  {
    if x > 0 && !tabs[x] then LastTab(tabs, x - 1) else x
  }

  /** New columns get stops counted on from the last old one. */
  function ResizedTabs(tabs: seq<bool>, col: nat, tabspaces: nat): seq<bool> {
    if col <= |tabs| then tabs[..col]
    else
      var p := LastTab(tabs, |tabs| - 1);
      seq(col, x requires 0 <= x => (x < |tabs| && tabs[x]) || IsStop(x, p, tabspaces))
  }

  function Resize(e: Env, t: Term, col: int, row: int): Term {
    if col < 1 || row < 1 then t
    else
      var mincol, minrow := Min(col, t.col), Min(row, t.row);
      var u := MoveTo(SetScroll(t.(row := row, col := col), 0, row - 1), t.c.x, t.c.y);
      var other := (if t.mode.alt then t.saved0 else t.saved1).attr;
      u.(line := ResizedGrid(t.line, Slide(t, row), mincol, minrow, col, row, Blank(u)),
         alt := ResizedGrid(t.alt, Slide(t, row), mincol, minrow, col, row,
           Glyph(0x20, Attr(0, other.fg, other.bg), false)),
         dirty := seq(row, _ => true),
         tabs := ResizedTabs(t.tabs, col, e.tabspaces))
  }

  lemma ResizeKeeps(e: Env, t: Term, col: int, row: int)
    requires Inv(t)
    ensures Inv(Resize(e, t, col, row))
    ensures 1 <= col && 1 <= row ==> forall y :: 0 <= y < row ==> Resize(e, t, col, row).dirty[y]
  {}

  /** The cursor stays on the line it was on, and that line keeps its first cells. */
  lemma ResizeKeepsCursorLine(e: Env, t: Term, col: int, row: int, x: int)
    requires Inv(t) && 1 <= col && 1 <= row && 0 <= x < Min(col, t.col)
    ensures var u := Resize(e, t, col, row);
      u.c.y == t.c.y - Slide(t, row) && u.c.x == Min(t.c.x, col - 1) && u.line[u.c.y][x] == t.line[t.c.y][x]
  {}

  // ---- drawing ----

  datatype Pixel = Cell(u: int, attr: Attr) | UnderCursor(u: int, attr: Attr)

  type Picture = seq<seq<Pixel>>

  datatype World = World(t: Term, pic: Picture)

  predicate Framed(pic: Picture, row: int, col: int) {
    |pic| == row && forall y :: 0 <= y < row ==> |pic[y]| == col
  }

  function DrawnRow(r: Row): seq<Pixel> {
    seq(|r|, x requires 0 <= x < |r| => Cell(r[x].u, r[x].attr))
  }

  function PutPixel(pic: Picture, x: int, y: int, p: Pixel): Picture {
    if 0 <= y < |pic| && 0 <= x < |pic[y]| then pic[y := pic[y][x := p]] else pic
  }

  /** drawregion: only dirty rows are drawn. */
  function DrawDirty(t: Term, pic: Picture): Picture {
    seq(|pic|, y requires 0 <= y < |pic| =>
      if y < |t.dirty| && y < |t.line| && t.dirty[y] then DrawnRow(t.line[y]) else pic[y])
  }

  /** draw: dirty rows, then the old cursor cell, then the cursor unless it is hidden. */
  function Draw(w: World, hidden: bool): World {
    var t := w.t;
    var ox, oy := Limit(t.ocx, 0, t.col - 1), Limit(t.ocy, 0, t.row - 1);
    var og, g := CellAt(t.line, ox, oy), CellAt(t.line, t.c.x, t.c.y);
    var pic := PutPixel(DrawDirty(t, w.pic), ox, oy, Cell(og.u, og.attr));
    World(t.(dirty := seq(|t.dirty|, _ => false), ocx := t.c.x, ocy := t.c.y),
          if hidden then pic else PutPixel(pic, t.c.x, t.c.y, UnderCursor(g.u, g.attr)))
  }

  /** redraw: every row is dirty first. */
  function Redraw(w: World, hidden: bool): World {
    Draw(World(FullDirt(w.t), w.pic), hidden)
  }

  /** What the screen should show, without reference to what was drawn before. */
  function Shows(t: Term, hidden: bool, x: int, y: int): Pixel {
    var g := CellAt(t.line, x, y);
    if !hidden && x == t.c.x && y == t.c.y then UnderCursor(g.u, g.attr) else Cell(g.u, g.attr)
  }

  /** Rows not marked dirty are already drawn, but for the cell under the last cursor. */
  predicate Tracked(w: World) {
    Framed(w.pic, w.t.row, w.t.col)
    && |w.t.dirty| == |w.t.line| == w.t.row
    && (forall y, x :: 0 <= y < w.t.row && 0 <= x < w.t.col && x < |w.t.line[y]| && !w.t.dirty[y] ==>
         (x == w.t.ocx && y == w.t.ocy) || w.pic[y][x] == Cell(w.t.line[y][x].u, w.t.line[y][x].attr))
  }

  lemma GoesTracked(w: World, t': Term)
    requires Inv(w.t) && Tracked(w) && Goes(w.t, t')
    ensures Tracked(World(t', w.pic))
  {
    var t := w.t;
    forall y, x | 0 <= y < t'.row && 0 <= x < t'.col && !t'.dirty[y] && !(x == t'.ocx && y == t'.ocy)
      ensures w.pic[y][x] == Cell(t'.line[y][x].u, t'.line[y][x].attr)
    {
      assert SameLook(t.line[y], t'.line[y]);
      assert w.pic[y][x] == Cell(t.line[y][x].u, t.line[y][x].attr);
    }
  }

  lemma DirtyDrawn(w: World, x: int, y: int)
    requires Inv(w.t) && Tracked(w) && 0 <= y < w.t.row && 0 <= x < w.t.col
    ensures var p := DrawDirty(w.t, w.pic);
      Framed(p, w.t.row, w.t.col)
      && ((x == w.t.ocx && y == w.t.ocy) || p[y][x] == Cell(w.t.line[y][x].u, w.t.line[y][x].attr))
  {}

  lemma PixelPut(pic: Picture, row: int, col: int, x0: int, y0: int, p: Pixel, x: int, y: int)
    requires Framed(pic, row, col) && 0 <= y < row && 0 <= x < col
    ensures var q := PutPixel(pic, x0, y0, p);
      Framed(q, row, col) && q[y][x] == if x == x0 && y == y0 then p else pic[y][x]
  {}

  lemma CellIs(s: Grid, row: int, col: int, x: int, y: int)
    requires Shaped(s, row, col) && 0 <= y < row && 0 <= x < col
    ensures CellAt(s, x, y) == s[y][x]
  {}

  lemma DrawShowsAt(w: World, hidden: bool, x: int, y: int)
    requires Inv(w.t) && Tracked(w) && 0 <= y < w.t.row && 0 <= x < w.t.col
    ensures var p := Draw(w, hidden).pic; Framed(p, w.t.row, w.t.col) && p[y][x] == Shows(w.t, hidden, x, y)
  {
    hide Tracked, DrawDirty, PutPixel, CellAt, Framed, Placed, Collected, Tables, Shaped;
    var t := w.t;
    var ox, oy := Limit(t.ocx, 0, t.col - 1), Limit(t.ocy, 0, t.row - 1);
    var og, g := CellAt(t.line, ox, oy), CellAt(t.line, t.c.x, t.c.y);
    DirtyDrawn(w, x, y);
    CellIs(t.line, t.row, t.col, x, y);
    var p := DrawDirty(t, w.pic);
    PixelPut(p, t.row, t.col, ox, oy, Cell(og.u, og.attr), x, y);
    var q := PutPixel(p, ox, oy, Cell(og.u, og.attr));
    PixelPut(q, t.row, t.col, t.c.x, t.c.y, UnderCursor(g.u, g.attr), x, y);
  }

  /** Drawing only what is dirty gives the picture the screen should show. */
  lemma DrawShows(w: World, hidden: bool)
    requires Inv(w.t) && Tracked(w)
    ensures var p := Draw(w, hidden).pic;
      Framed(p, w.t.row, w.t.col)
      && forall y, x :: 0 <= y < w.t.row && 0 <= x < w.t.col ==> p[y][x] == Shows(w.t, hidden, x, y)
  {
    hide Draw, Tracked, Shows, Shaped, Placed, Collected, Tables;
    DrawShowsAt(w, hidden, 0, 0);
    forall y, x | 0 <= y < w.t.row && 0 <= x < w.t.col
      ensures Draw(w, hidden).pic[y][x] == Shows(w.t, hidden, x, y)
    {
      DrawShowsAt(w, hidden, x, y);
    }
  }

  lemma DrawKeeps(w: World, hidden: bool)
    requires Inv(w.t) && Tracked(w)
    ensures Inv(Draw(w, hidden).t) && Tracked(Draw(w, hidden))
  {
    DrawShows(w, hidden);
  }

  lemma FullDirtTracked(w: World)
    requires Inv(w.t) && Framed(w.pic, w.t.row, w.t.col)
    ensures Inv(FullDirt(w.t)) && Tracked(World(FullDirt(w.t), w.pic))
  {}

  /** Redrawing the dirty rows and redrawing every row leave the same picture and the same terminal. */
  lemma DrawIsRedraw(w: World, hidden: bool)
    requires Inv(w.t) && Tracked(w)
    ensures Draw(w, hidden) == Redraw(w, hidden)
  {
    var f := World(FullDirt(w.t), w.pic);
    FullDirtTracked(w);
    DrawShows(w, hidden);
    DrawShows(f, hidden);
    DrawnTerm(w, f, hidden);
    hide Draw, Tracked, Inv, FullDirt;
    var p, q := Draw(w, hidden).pic, Draw(f, hidden).pic;
    forall y, x | 0 <= y < w.t.row && 0 <= x < w.t.col
      ensures p[y][x] == q[y][x]
    {
      assert Shows(w.t, hidden, x, y) == Shows(f.t, hidden, x, y) by { FullDirtShows(w.t, hidden, x, y); }
    }
    SamePicture(p, q, w.t.row, w.t.col);
  }

  lemma FullDirtShows(t: Term, hidden: bool, x: int, y: int)
    ensures Shows(t, hidden, x, y) == Shows(FullDirt(t), hidden, x, y)
    ensures FullDirt(t).row == t.row && FullDirt(t).col == t.col
  {}

  lemma DrawnTerm(w: World, f: World, hidden: bool)
    requires f == World(FullDirt(w.t), w.pic)
    ensures Draw(w, hidden).t == Draw(f, hidden).t && f.t.row == w.t.row && f.t.col == w.t.col
  {
    assert seq(|w.t.dirty|, _ => false) == seq(|f.t.dirty|, _ => false);
  }

  lemma SamePicture(p: Picture, q: Picture, row: int, col: int)
    requires Framed(p, row, col) && Framed(q, row, col)
    requires forall y, x :: 0 <= y < row && 0 <= x < col ==> p[y][x] == q[y][x]
    ensures p == q
  {
    forall y | 0 <= y < row
      ensures p[y] == q[y]
    {
      assert forall x :: 0 <= x < col ==> p[y][x] == q[y][x];
    }
  }

  // ---- runs ----

  /** A rune for the terminal, a window resize with what the new window happens to show, or a redraw. */
  datatype Event = Rune(u: int) | Window(col: int, row: int, shown: Picture) | Paint(hidden: bool)

  /** A picture of the given size: shown where it reaches, anything elsewhere. */
  function Refit(shown: Picture, row: nat, col: nat): Picture {
    seq(row, y requires 0 <= y =>
      seq(col, x requires 0 <= x =>
        if y < |shown| && x < |shown[y]| then shown[y][x] else Cell(0, Attr(0, 0, 0))))
  }

  function Happen(e: Env, w: World, ev: Event): World {
    match ev
    case Rune(u) => World(Putc(e, w.t, u), w.pic)
    case Window(col, row, shown) =>
      World(Resize(e, w.t, col, row), if col < 1 || row < 1 then w.pic else Refit(shown, row, col))
    case Paint(hidden) => Draw(w, hidden)
  }

  function Run(e: Env, w: World, evs: seq<Event>): World
    decreases |evs|
  {
    if evs == [] then w else Run(e, Happen(e, w, evs[0]), evs[1..])
  }

  lemma ResizeTracked(e: Env, t: Term, col: int, row: int, shown: Picture)
    requires Inv(t) && 1 <= col && 1 <= row
    ensures Tracked(World(Resize(e, t, col, row), Refit(shown, row, col)))
  {
    ResizeKeeps(e, t, col, row);
    var u := Resize(e, t, col, row);
    assert Framed(Refit(shown, row, col), u.row, u.col);
  }

  lemma HappenKeeps(e: Env, w: World, ev: Event)
    requires Inv(w.t) && Tracked(w) && Narrow(e)
    ensures Inv(Happen(e, w, ev).t) && Tracked(Happen(e, w, ev))
  {
    hide Inv, Tracked, Putc, Resize, Draw, Goes, Refit;
    match ev
    case Rune(u) =>
      PutcGoes(e, w.t, u);
      GoesInv(w.t, Putc(e, w.t, u));
      GoesTracked(w, Putc(e, w.t, u));
    case Window(col, row, shown) =>
      ResizeKeeps(e, w.t, col, row);
      if 1 <= col && 1 <= row { ResizeTracked(e, w.t, col, row, shown); } else { NoResize(e, w.t, col, row); }
    case Paint(hidden) =>
      DrawKeeps(w, hidden);
  }

  lemma NoResize(e: Env, t: Term, col: int, row: int)
    requires col < 1 || row < 1
    ensures Resize(e, t, col, row) == t
  {}

  /**
    * Over every run of runes of width 0 or 1, resizes and redraws the bounds hold, and
    * at the end redrawing the dirty rows alone is as good as redrawing everything.
    */
  lemma {:induction false} RunKeeps(e: Env, w: World, evs: seq<Event>, hidden: bool)
    requires Inv(w.t) && Tracked(w) && Narrow(e)
    ensures var v := Run(e, w, evs); Inv(v.t) && Tracked(v) && Draw(v, hidden) == Redraw(v, hidden)
    decreases |evs|
  {
    hide Inv, Tracked, Happen, Draw, Redraw;
    if evs == [] {
      DrawIsRedraw(w, hidden);
    } else {
      HappenKeeps(e, w, evs[0]);
      RunKeeps(e, Happen(e, w, evs[0]), evs[1..], hidden);
    }
  }

  // ---- byte streams ----

  /** The terminal after some input, the bytes held back, and the runes tputc was given. */
  datatype Fed = Fed(t: Term, rest: seq<Byte>, runes: seq<int>)

  /** The runes that stand for u: a control shown by an echo becomes caret notation. */
  function Echoed(u: int, showCtrl: bool): seq<int> {
    if showCtrl && IsControl(u) then
      if u >= 0x80 then [0x5e, 0x5b, u - 0x80]
      else if u != 0x0a && u != 0x0d && u != 0x09 then [0x5e, if u < 0x40 then u + 0x40 else u - 0x40]
      else [u]
    else [u]
  }

  function Puts(e: Env, t: Term, us: seq<int>): Term
    decreases |us|
  {
    if us == [] then t else Puts(e, Putc(e, t, us[0]), us[1..])
  }

  /** twrite: decode while UTF-8 mode is on, byte by byte while it is off. */
  function Feed(e: Env, t: Term, s: seq<Byte>, showCtrl: bool): Fed
    decreases |s|
  {
    if s == [] then Fed(t, [], [])
    else
      var d := if t.mode.utf8 then Decode(s) else Decoded(s[0], 1);
      if d.size == 0 || d.size > |s| then Fed(t, s, [])
      else
        var us := Echoed(d.u, showCtrl);
        var f := Feed(e, Puts(e, t, us), s[d.size..], showCtrl);
        Fed(f.t, f.rest, us + f.runes)
  }

  /** Fewer than four bytes are ever held back, and only as the start of a longer sequence. */
  lemma {:induction false} FeedHolds(e: Env, t: Term, s: seq<Byte>, showCtrl: bool)
    ensures var f := Feed(e, t, s, showCtrl); |f.rest| < 4 && Incomplete(f.rest)
    decreases |s|
  {
    hide Putc, Decode;
    if s == [] {
    } else {
      DecodeSize(s);
      var d := if t.mode.utf8 then Decode(s) else Decoded(s[0], 1);
      if d.size != 0 { FeedHolds(e, Puts(e, t, Echoed(d.u, showCtrl)), s[d.size..], showCtrl); }
    }
  }

  lemma {:induction false} PutsAppend(e: Env, t: Term, us: seq<int>, vs: seq<int>)
    ensures Puts(e, t, us + vs) == Puts(e, Puts(e, t, us), vs)
    decreases |us|
  {
    hide Putc;
    if us == [] {
      assert us + vs == vs;
    } else {
      assert (us + vs)[1..] == us[1..] + vs;
      PutsAppend(e, Putc(e, t, us[0]), us[1..], vs);
    }
  }

  /** The terminal sees nothing but the runes. */
  lemma {:induction false} FeedPuts(e: Env, t: Term, s: seq<Byte>, showCtrl: bool)
    ensures var f := Feed(e, t, s, showCtrl); f.t == Puts(e, t, f.runes)
    decreases |s|
  {
    hide Putc, Decode, Puts, Echoed;
    PutsNone(e, t);
    if s == [] {
    } else {
      var d := if t.mode.utf8 then Decode(s) else Decoded(s[0], 1);
      if d.size != 0 && d.size <= |s| {
        var us := Echoed(d.u, showCtrl);
        var u := Puts(e, t, us);
        FeedPuts(e, u, s[d.size..], showCtrl);
        PutsAppend(e, t, us, Feed(e, u, s[d.size..], showCtrl).runes);
      }
    }
  }

  lemma PutsNone(e: Env, t: Term)
    ensures Puts(e, t, []) == t
  {}

  lemma {:induction false} PutsGoes(e: Env, t: Term, us: seq<int>)
    requires Inv(t) && Narrow(e)
    ensures Goes(t, Puts(e, t, us))
    decreases |us|
  {
    hide Putc, Goes, Inv;
    Stay(t);
    if us == [] {
    } else {
      PutcGoes(e, t, us[0]);
      GoesInv(t, Putc(e, t, us[0]));
      PutsGoes(e, Putc(e, t, us[0]), us[1..]);
      Then(t, Putc(e, t, us[0]), Puts(e, t, us));
    }
  }

  /** Every byte stream, valid UTF-8 or not, keeps the invariant and marks what it changes. */
  lemma FeedGoes(e: Env, t: Term, s: seq<Byte>, showCtrl: bool)
    requires Inv(t) && Narrow(e)
    ensures Goes(t, Feed(e, t, s, showCtrl).t)
  {
    hide Feed, Puts, Goes, Inv;
    FeedPuts(e, t, s, showCtrl);
    PutsGoes(e, t, Feed(e, t, s, showCtrl).runes);
  }

  /** Cutting the input in two changes neither the terminal, nor the runes, nor what is held back. */
  lemma {:induction false} FeedSplit(e: Env, t: Term, a: seq<Byte>, b: seq<Byte>, showCtrl: bool)
    ensures var f := Feed(e, t, a, showCtrl);
      var g := Feed(e, f.t, f.rest + b, showCtrl);
      Feed(e, t, a + b, showCtrl) == Fed(g.t, g.rest, f.runes + g.runes)
    decreases |a|
  {
    hide Putc, Decode, Puts, Echoed;
    if a == [] {
      assert [] + b == b == a + b;
      NoRunes(Feed(e, t, b, showCtrl));
    } else {
      var d := if t.mode.utf8 then Decode(a) else Decoded(a[0], 1);
      DecodeSize(a);
      if d.size == 0 {
        NoRunes(Feed(e, t, a + b, showCtrl));
      } else {
        DecodeExtend'(t, a, b);
        var u := Puts(e, t, Echoed(d.u, showCtrl));
        assert (a + b)[d.size..] == a[d.size..] + b;
        FeedSplit(e, u, a[d.size..], b, showCtrl);
        var f := Feed(e, u, a[d.size..], showCtrl);
        Assoc(Echoed(d.u, showCtrl), f.runes, Feed(e, f.t, f.rest + b, showCtrl).runes);
      }
    }
  }

  lemma NoRunes(f: Fed)
    ensures Fed(f.t, f.rest, [] + f.runes) == f
  {
    assert [] + f.runes == f.runes;
  }

  lemma Assoc(a: seq<int>, b: seq<int>, c: seq<int>)
    ensures (a + b) + c == a + (b + c)
  {}

  lemma DecodeExtend'(t: Term, a: seq<Byte>, b: seq<Byte>)
    requires a != [] && (t.mode.utf8 ==> Decode(a).size > 0)
    ensures (a + b)[0] == a[0] && (t.mode.utf8 ==> Decode(a + b) == Decode(a))
  {
    if t.mode.utf8 { DecodeExtend(a, b); }
  }

  function Joint(chunks: seq<seq<Byte>>): seq<Byte> {
    if chunks == [] then [] else chunks[0] + Joint(chunks[1..])
  }

  /** ttyread over successive reads: each chunk is appended to what was held back. */
  function FeedAll(e: Env, t: Term, held: seq<Byte>, chunks: seq<seq<Byte>>): Fed
    decreases |chunks|
  {
    if chunks == [] then Fed(t, held, [])
    else
      var f := Feed(e, t, held + chunks[0], false);
      var g := FeedAll(e, f.t, f.rest, chunks[1..]);
      Fed(g.t, g.rest, f.runes + g.runes)
  }

  lemma {:induction false} FeedRest(e: Env, t: Term, s: seq<Byte>, showCtrl: bool)
    ensures var f := Feed(e, t, s, showCtrl); Feed(e, f.t, f.rest, showCtrl) == Fed(f.t, f.rest, [])
    decreases |s|
  {
    hide Putc, Decode, Puts, Echoed;
    if s == [] {
    } else {
      var d := if t.mode.utf8 then Decode(s) else Decoded(s[0], 1);
      if d.size != 0 && d.size <= |s| {
        FeedRest(e, Puts(e, t, Echoed(d.u, showCtrl)), s[d.size..], showCtrl);
      }
    }
  }

  /** However the stream is cut into reads, tputc gets the same runes and the terminal ends the same. */
  lemma {:induction false} FeedChunks(e: Env, t: Term, held: seq<Byte>, chunks: seq<seq<Byte>>)
    requires Feed(e, t, held, false) == Fed(t, held, [])
    ensures FeedAll(e, t, held, chunks) == Feed(e, t, held + Joint(chunks), false)
    decreases |chunks|
  {
    hide Feed;
    if chunks == [] {
      assert held + Joint(chunks) == held;
    } else {
      var s := held + chunks[0];
      var f := Feed(e, t, s, false);
      FeedRest(e, t, s, false);
      FeedChunks(e, f.t, f.rest, chunks[1..]);
      FeedSplit(e, t, s, Joint(chunks[1..]), false);
      assert held + Joint(chunks) == s + Joint(chunks[1..]);
    }
  }

  // ---- repeating the last rune ----

  /** Outside any sequence, tputc prints a rune that is no control. */
  lemma PutcPrints(e: Env, t: Term, u: int)
    requires t.esc == NO_ESC && !IsControl(u)
    ensures Putc(e, t, u) == Print(e, t, u)
  {
    hide Print, Escape, Control;
  }

  function PutTimes(e: Env, t: Term, u: int, n: int): Term
    decreases n
  {
    if n <= 0 then t else PutTimes(e, Putc(e, t, u), u, n - 1)
  }

  lemma PrintKeepsEsc(e: Env, t: Term, u: int)
    ensures Print(e, t, u).esc == t.esc
  {}

  /** Outside any sequence, repeating the last rune is giving it to tputc that many times. */
  lemma {:induction false} RepeatPuts(e: Env, t: Term, n: int)
    requires t.esc == NO_ESC && !IsControl(t.lastc)
    ensures Repeat(e, t, n) == PutTimes(e, t, t.lastc, n)
    decreases n
  {
    hide Print, Putc;
    if n <= 0 {
    } else {
      var u := t.lastc;
      PutcPrints(e, t, u);
      PrintLast(e, t, u);
      PrintKeepsEsc(e, t, u);
      RepeatPuts(e, Print(e, t, u), n - 1);
    }
  }
}
