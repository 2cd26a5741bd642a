/** Tab stops: where a tab lands, how stops are set and cleared, and what a resize makes of them. */
module TermTabs {
  import opened Values
  import opened TermModel
  import opened TermInvariant
  import opened TermRun
  import opened TermLaws
  import opened TermBytes
  import opened TermMotion

  /** The stops after column a, up to column b. */
  function Stops(tabs: seq<bool>, a: int, b: int): nat
    decreases b - a
  {
    if b <= a then 0 else Stops(tabs, a, b - 1) + if 0 <= b < |tabs| && tabs[b] then 1 else 0
  }

  lemma {:induction false} StopsSplit(tabs: seq<bool>, a: int, b: int, c: int)
    requires a <= b <= c
    ensures Stops(tabs, a, c) == Stops(tabs, a, b) + Stops(tabs, b, c)
    decreases c - b
  {
    if b == c {
    } else {
      StopsSplit(tabs, a, b, c - 1);
    }
  }

  lemma {:induction false} NoStops(tabs: seq<bool>, a: int, b: int)
    requires forall i :: a < i <= b && 0 <= i < |tabs| ==> !tabs[i]
    ensures Stops(tabs, a, b) == 0
    decreases b - a
  {
    if b <= a {
    } else {
      NoStops(tabs, a, b - 1);
    }
  }

  lemma OneStop(tabs: seq<bool>, a: int, b: int)
    requires 0 <= a < b < |tabs| && tabs[b] && forall i :: a < i < b ==> !tabs[i]
    ensures Stops(tabs, a, b) == 1
  {
    NoStops(tabs, a, b - 1);
  }

  /** The least stop after x, or one past the last column. */
  lemma {:induction false} NextTabLeast(tabs: seq<bool>, x: int)
    requires 0 <= x < |tabs|
    ensures var r := NextTab(tabs, x); (r == |tabs| || tabs[r]) && forall i :: x < i < r ==> !tabs[i]
    decreases |tabs| - x
  {
    if x + 1 < |tabs| && !tabs[x + 1] {
      NextTabLeast(tabs, x + 1);
    } else {
    }
  }

  /** The greatest stop before x, or column 0. */
  lemma {:induction false} PrevTabGreatest(tabs: seq<bool>, x: int)
    requires 0 < x <= |tabs|
    ensures var r := PrevTab(tabs, x); (r == 0 || tabs[r]) && forall i :: r < i < x ==> !tabs[i]
    decreases x
  {
    if x - 1 > 0 && !tabs[x - 1] {
      PrevTabGreatest(tabs, x - 1);
    } else {
    }
  }

  /** Column r is the n-th stop after x, or there are fewer and r is one past the last column. */
  predicate NthAfter(tabs: seq<bool>, x: int, n: int, r: int) {
    x < r <= |tabs| && if 0 <= r < |tabs| then tabs[r] && Stops(tabs, x, r) == n else Stops(tabs, x, |tabs| - 1) < n
  }

  /** Column r is the n-th stop before x, or there are fewer after column 0 and r is 0. */
  predicate NthBefore(tabs: seq<bool>, x: int, n: int, r: int) {
    0 <= r < x <= |tabs| && if r > 0 then tabs[r] && Stops(tabs, r - 1, x - 1) == n else Stops(tabs, 0, x - 1) < n
  }

  lemma {:induction false} ForwardNth(tabs: seq<bool>, x: int, n: int)
    requires 0 <= x < |tabs| && n >= 1
    ensures NthAfter(tabs, x, n, TabForward(tabs, x, n))
    decreases n
  {
    hide NextTab, Stops;
    var y := NextTab(tabs, x);
    NextTabLeast(tabs, x);
    if y == |tabs| {
      NoStops(tabs, x, |tabs| - 1);
      assert TabForward(tabs, y, n - 1) == y;
    } else {
      OneStop(tabs, x, y);
      if n == 1 {
        assert TabForward(tabs, y, 0) == y;
      } else {
        ForwardNth(tabs, y, n - 1);
        var r := TabForward(tabs, y, n - 1);
        StopsSplit(tabs, x, y, if r < |tabs| then r else |tabs| - 1);
      }
    }
  }

  lemma {:induction false} BackNth(tabs: seq<bool>, x: int, n: int)
    requires 0 < x <= |tabs| && n >= 1
    ensures NthBefore(tabs, x, n, TabBack(tabs, x, n))
    decreases n
  {
    hide PrevTab, Stops;
    var y := PrevTab(tabs, x);
    PrevTabGreatest(tabs, x);
    if y == 0 {
      NoStops(tabs, 0, x - 1);
      assert TabBack(tabs, 0, n - 1) == 0;
    } else {
      NoStops(tabs, y, x - 1);
      OneStop(tabs, y - 1, y);
      StopsSplit(tabs, y - 1, y, x - 1);
      if n == 1 {
        assert TabBack(tabs, y, 0) == y;
      } else {
        BackNth(tabs, y, n - 1);
        var r := TabBack(tabs, y, n - 1);
        StopsSplit(tabs, if r > 0 then r - 1 else 0, y - 1, x - 1);
      }
    }
  }

  /** Only the cursor's column changes. */
  predicate ColumnAt(t: Term, u: Term, x: int) {
    u.c == t.c.(x := x) && u == t.(c := u.c, csi := u.csi, lastc := u.lastc)
  }

  lemma TabsWide(t: Term)
    requires Inv(t)
    ensures |t.tabs| == t.col && 0 <= t.c.x < t.col
  {}

  lemma PutTabMoves(t: Term, n: int)
    requires |t.tabs| == t.col && 0 <= t.c.x < t.col
    ensures n >= 1 ==> ColumnAt(t, PutTab(t, n), NotPast(TabForward(t.tabs, t.c.x, n), t.col - 1))
    ensures n <= -1 ==> ColumnAt(t, PutTab(t, n), TabBack(t.tabs, t.c.x, -n))
  {
    hide TabForward, TabBack;
  }

  lemma TabHandled(e: Env, t: Term)
    requires |t.csi.arg| == ESC_ARG_SIZ
    ensures t.csi.mode0 == 0x49 ==> CsiHandle(e, t) == PutTab(t, Default(t.csi.arg[0], 1))
    ensures t.csi.mode0 == 0x5a ==> CsiHandle(e, t) == PutTab(t, -Default(t.csi.arg[0], 1))
    ensures t.csi.mode0 == 0x67 ==> CsiHandle(e, t) == ClearTabs(t)
  {
    hide PutTab, ClearTabs;
  }

  /** The tab character goes to the next stop, or to the last column. */
  lemma TabMoves(e: Env, t: Term) returns (r: int)
    requires Inv(t) && t.esc == NO_ESC
    ensures NthAfter(t.tabs, t.c.x, 1, r) && ColumnAt(t, Puts(e, t, [0x09]), NotPast(r, t.col - 1))
  {
    TabsWide(t);
    hide Inv, Putc, Puts, TabForward, NthAfter;
    PutsOne(e, t, 0x09);
    ControlHandled(e, t, 0x09);
    TabCode(e, t);
    r := TabForward(t.tabs, t.c.x, 1);
    ForwardNth(t.tabs, t.c.x, 1);
    PutTabMoves(t, 1);
  }

  lemma TabCode(e: Env, t: Term)
    ensures ControlCode(e, t, 0x09) == PutTab(t, 1)
  {
    hide PutTab;
  }

  /** I: n stops forward. */
  lemma ForwardMoves(e: Env, t: Term, n: nat) returns (r: int)
    requires Inv(t) && t.esc == NO_ESC && AreArguments([n])
    ensures NthAfter(t.tabs, t.c.x, Count(n), r)
    ensures ColumnAt(t, Puts(e, t, Sequence(false, [n], 0x49)), NotPast(r, t.col - 1))
  {
    TabsWide(t);
    hide Inv, CsiHandle, Puts, ReadAs, TabForward, NthAfter, PutTab;
    var c := SequenceHandled(e, t, false, [n], 0x49);
    ReadParts(c, [n], 0x49, false);
    TabHandled(e, t.(csi := c));
    r := TabForward(t.tabs, t.c.x, Count(n));
    ForwardNth(t.tabs, t.c.x, Count(n));
    PutTabMoves(t.(csi := c), Count(n));
  }

  /** Z: n stops back; at column 0 it stays. */
  lemma BackMoves(e: Env, t: Term, n: nat) returns (r: int)
    requires Inv(t) && t.esc == NO_ESC && AreArguments([n])
    ensures if t.c.x == 0 then r == 0 else NthBefore(t.tabs, t.c.x, Count(n), r)
    ensures ColumnAt(t, Puts(e, t, Sequence(false, [n], 0x5a)), r)
  {
    TabsWide(t);
    hide Inv, CsiHandle, Puts, ReadAs, NthBefore, PutTab;
    var c := SequenceHandled(e, t, false, [n], 0x5a);
    ReadParts(c, [n], 0x5a, false);
    TabHandled(e, t.(csi := c));
    r := TabBack(t.tabs, t.c.x, Count(n));
    if t.c.x > 0 { BackNth(t.tabs, t.c.x, Count(n)); }
    PutTabMoves(t.(csi := c), 0 - Count(n));
  }

  // ---- setting and clearing ----

  /** Only the stops change. */
  ghost predicate TabsAre(t: Term, u: Term, tabs: seq<bool>) {
    u == t.(tabs := tabs, csi := u.csi)
  }

  /** ESC H puts a stop at the cursor; g takes it away, and 3 g takes them all away. */
  lemma StopSet(e: Env, t: Term)
    requires Inv(t) && t.esc == NO_ESC
    ensures |t.tabs| == t.col && 0 <= t.c.x < t.col && TabsAre(t, Puts(e, t, [0x1b, 0x48]), t.tabs[t.c.x := true])
  {
    TabsWide(t);
    hide Inv, Puts, EscHandle;
    EscapeHandled(e, t, 0x48);
    StopEscaped(e, t.(csi := NO_CSI, esc := NO_ESC.(start := true)));
  }

  lemma StopEscaped(e: Env, t: Term)
    ensures EscHandle(e, t, 0x48) == SetTab(t, true)
  {
    hide SetTab;
  }

  lemma ClearedStops(t: Term, how: nat)
    requires |t.csi.arg| == ESC_ARG_SIZ && t.csi.arg[0] == how && |t.tabs| == t.col && 0 <= t.c.x < t.col
    ensures ClearTabs(t) == t.(tabs :=
      if how == 0 then t.tabs[t.c.x := false] else if how == 3 then seq(t.col, _ => false) else t.tabs)
  {}

  lemma StopsCleared(e: Env, t: Term, how: nat)
    requires Inv(t) && t.esc == NO_ESC && AreArguments([how])
    ensures |t.tabs| == t.col && 0 <= t.c.x < t.col
    ensures TabsAre(t, Puts(e, t, Sequence(false, [how], 0x67)),
      if how == 0 then t.tabs[t.c.x := false] else if how == 3 then seq(t.col, _ => false) else t.tabs)
  {
    TabsWide(t);
    hide Inv, CsiHandle, Puts, ReadAs;
    var c := SequenceHandled(e, t, false, [how], 0x67);
    ReadParts(c, [how], 0x67, false);
    TabHandled(e, t.(csi := c));
    ClearedStops(t.(csi := c), how);
    hide ClearTabs;
  }

  // ---- initial stops and resizing ----

  /** After a reset every column that is a multiple of the tab width is a stop, but for column 0. */
  lemma DefaultStops(col: int, n: nat, x: int)
    requires 0 <= x < col
    ensures |DefaultTabs(col, n)| == col && (DefaultTabs(col, n)[x] <==> n > 0 && x > 0 && x % n == 0)
  {}

  lemma {:induction false} LastTabIs(tabs: seq<bool>, x: int, p: int)
    requires 0 <= p <= x < |tabs| && (p == 0 || tabs[p]) && forall i :: p < i <= x ==> !tabs[i]
    ensures LastTab(tabs, x) == p
    decreases x
  {
    if x == p {
    } else {
      LastTabIs(tabs, x - 1, p);
    }
  }

  /** Growing keeps the stops up to the last one, p, and goes on from it in steps of the tab width. */
  lemma GrownTabs(tabs: seq<bool>, col: nat, n: nat, p: int, x: int)
    requires 0 <= p < |tabs| < col && (p == 0 || tabs[p]) && (forall i :: p < i < |tabs| ==> !tabs[i]) && n > 0
    requires 0 <= x < col
    ensures var r := ResizedTabs(tabs, col, n);
      |r| == col && r[x] == if x <= p then tabs[x] else (x - p) % n == 0
  {
    LastTabIs(tabs, |tabs| - 1, p);
    hide LastTab;
    assert ResizedTabs(tabs, col, n)[x] == ((x < |tabs| && tabs[x]) || IsStop(x, p, n));
    hide ResizedTabs;
  }

  /** A terminal with the initial stops keeps them at every size. */
  lemma DefaultsGrow(col: nat, col': nat, n: nat)
    requires 1 <= col && n > 0
    ensures ResizedTabs(DefaultTabs(col, n), col', n) == DefaultTabs(col', n)
  {
    var tabs := DefaultTabs(col, n);
    if col' > col {
      var p := LastMultiple(col - 1, n);
      forall i | p < i < col ensures !tabs[i] { NotMultiple(p, i, n); }
      hide ResizedTabs, DefaultTabs;
      forall x | 0 <= x < col' ensures ResizedTabs(tabs, col', n)[x] == DefaultTabs(col', n)[x] {
        DefaultStops(col', n, x);
        if x < col { DefaultStops(col, n, x); }
        if p > 0 { DefaultStops(col, n, p); }
        DefaultStops(col, n, 0);
        GrownTabs(tabs, col', n, p, x);
        if x > p { MultipleShift(x, p, n); }
      }
      DefaultStops(col', n, 0);
    }
  }

  lemma LastMultiple(x: nat, n: nat) returns (p: nat)
    requires n > 0
    ensures p <= x < p + n && p % n == 0
  {
    p := x - x % n;
    MultipleShift(x, x % n, n);
    assert x == n * (x / n) + x % n;
    MultipleOf(n, x / n);
  }

  lemma MultipleOf(n: nat, k: nat)
    requires n > 0
    ensures (n * k) % n == 0
  {
    if k == 0 {
    } else {
      MultipleOf(n, k - 1);
      assert n * k == n * (k - 1) + n;
      AddOnce(n * (k - 1), n);
    }
  }

  lemma AddOnce(x: nat, n: nat)
    requires n > 0
    ensures (x + n) % n == x % n
  {
    var q, r := x / n, x % n;
    assert x == n * q + r;
    Remainder(x + n, n, q + 1, r);
  }

  lemma Remainder(x: nat, n: nat, q: nat, r: nat)
    requires n > 0 && r < n && x == n * q + r
    ensures x % n == r
  {
    assert x == n * (x / n) + x % n;
    assert (x / n - q) * n == r - x % n;
    MultipleFar(x / n - q, n);
  }

  lemma SmallRemainder(p: nat, n: nat)
    requires n > 0
    ensures p < n ==> p % n == p
  {}

  lemma {:induction false} MultipleShift(x: nat, p: nat, n: nat)
    requires p <= x && n > 0
    ensures p % n == 0 ==> ((x - p) % n == 0 <==> x % n == 0)
    decreases p
  {
    if p % n == 0 && p > 0 {
      SmallRemainder(p, n);
      AddOnce(p - n, n);
      AddOnce(x - n, n);
      MultipleShift(x - n, p - n, n);
    } else {
    }
  }

  lemma NotMultiple(p: nat, i: nat, n: nat)
    requires n > 0 && p % n == 0 && p < i < p + n
    ensures i % n != 0
  {
    MultipleShift(i, p, n);
    Remainder(i - p, n, 0, i - p);
  }
}
