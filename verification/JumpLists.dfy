/**
  * Forward jumps in the i386 back end. Until its target is known, the 32-bit
  * operand of a jump holds the position of the previous jump to the same label,
  * so that a label is a list threaded through the code bytes.
  */
module JumpLists {
  import opened Values

  const WORD := 0x1_0000_0000

  // ---- little-endian words ----

  function Word(d: seq<Byte>, s: int): int
    requires 0 <= s && s + 4 <= |d|
  {
    d[s] as int + 0x100 * (d[s + 1] as int + 0x100 * (d[s + 2] as int + 0x100 * (d[s + 3] as int)))
  }

  function PutWord(d: seq<Byte>, s: int, w: int): (r: seq<Byte>)
    requires 0 <= s && s + 4 <= |d|
    ensures |r| == |d|
  {
    d[s := ByteOf(w)][s + 1 := ByteOf(w / 0x100)]
     [s + 2 := ByteOf(w / 0x100 / 0x100)][s + 3 := ByteOf(w / 0x100 / 0x100 / 0x100)]
  }

  function ByteOf(w: int): Byte {
    w % 0x100
  }

  lemma PutWordReads(d: seq<Byte>, s: int, w: int)
    requires 0 <= s && s + 4 <= |d|
    ensures Word(PutWord(d, s, w), s) == w % WORD
  {
    Bytes4(w);
  }

  lemma Bytes4(w: int)
    ensures ByteOf(w) as int + 0x100 * (ByteOf(w / 0x100) as int + 0x100 * (ByteOf(w / 0x100 / 0x100) as int
      + 0x100 * (ByteOf(w / 0x100 / 0x100 / 0x100) as int))) == w % WORD
  {
    var a, b, c := w / 0x100, w / 0x100 / 0x100, w / 0x100 / 0x100 / 0x100;
    assert w - (w % 0x100 + 0x100 * (a % 0x100 + 0x100 * (b % 0x100 + 0x100 * (c % 0x100)))) == (c / 0x100) * WORD;
  }

  lemma PutWordKeeps(d: seq<Byte>, s: int, w: int, s': int)
    requires 0 <= s && s + 4 <= |d| && 0 <= s' && s' + 4 <= |d| && (s + 4 <= s' || s' + 4 <= s)
    ensures Word(PutWord(d, s, w), s') == Word(d, s')
  {}

  // ---- chains ----

  /** The word at s is w. */
  predicate WordIs(d: seq<Byte>, s: int, w: int) {
    1 <= s && s + 4 <= |d| && Word(d, s) == w
  }

  function NextOf(ch: seq<int>, i: int): int
    requires 0 <= i < |ch|
  {
    if i + 1 < |ch| then ch[i + 1] else 0
  }

  /** Each slot holds the position of the next one; the last holds 0. */
  predicate Linked(d: seq<Byte>, ch: seq<int>) {
    forall i :: 0 <= i < |ch| ==> WordIs(d, ch[i], NextOf(ch, i))
  }

  predicate Apart(s: int, s': int) {
    s + 4 <= s' || s' + 4 <= s
  }

  predicate Spaced(slots: set<int>) {
    forall s, s' :: s in slots && s' in slots && s != s' ==> Apart(s, s')
  }

  /** The operand that makes the jump with slot s go to a. */
  function Rel(a: int, s: int): int {
    (a - s - 4) % WORD
  }

  /** The slots of a chain, each filled with the distance from its end to a. */
  function Patched(d: seq<Byte>, ch: seq<int>, a: int): (r: seq<Byte>)
    requires forall i :: 0 <= i < |ch| ==> 0 <= ch[i] && ch[i] + 4 <= |d|
    ensures |r| == |d|
    decreases |ch|
  {
    if ch == [] then d else Patched(PutWord(d, ch[0], a - ch[0] - 4), ch[1..], a)
  }

  predicate AllApart(ch: seq<int>) {
    forall i, j :: 0 <= i < j < |ch| ==> Apart(ch[i], ch[j])
  }

  lemma {:induction false} PatchedKeeps(d: seq<Byte>, ch: seq<int>, a: int, s: int)
    requires forall i :: 0 <= i < |ch| ==> 0 <= ch[i] && ch[i] + 4 <= |d| && Apart(ch[i], s)
    requires 0 <= s && s + 4 <= |d|
    ensures Word(Patched(d, ch, a), s) == Word(d, s)
    decreases |ch|
  {
    hide Word, PutWord;
    if ch == [] {
    } else {
      PutWordKeeps(d, ch[0], a - ch[0] - 4, s);
      PatchedKeeps(PutWord(d, ch[0], a - ch[0] - 4), ch[1..], a, s);
    }
  }

  /** Patching sends every slot of the chain to a. */
  lemma {:induction false} PatchedReaches(d: seq<Byte>, ch: seq<int>, a: int, k: int)
    requires AllApart(ch) && (forall i :: 0 <= i < |ch| ==> 0 <= ch[i] && ch[i] + 4 <= |d|) && 0 <= k < |ch|
    ensures Word(Patched(d, ch, a), ch[k]) == Rel(a, ch[k])
    decreases |ch|
  {
    hide Word, PutWord;
    var d' := PutWord(d, ch[0], a - ch[0] - 4);
    if k == 0 {
      PutWordReads(d, ch[0], a - ch[0] - 4);
      PatchedKeeps(d', ch[1..], a, ch[0]);
    } else {
      PatchedReaches(d', ch[1..], a, k - 1);
    }
  }

  /** Patching changes no byte outside the chain's slots. */
  lemma {:induction false} PatchedOnly(d: seq<Byte>, ch: seq<int>, a: int, k: int)
    requires (forall i :: 0 <= i < |ch| ==> 0 <= ch[i] && ch[i] + 4 <= |d|) && 0 <= k < |d|
    requires forall i :: 0 <= i < |ch| ==> !(ch[i] <= k < ch[i] + 4)
    ensures Patched(d, ch, a)[k] == d[k]
    decreases |ch|
  {
    if ch == [] {
    } else {
      PatchedOnly(PutWord(d, ch[0], a - ch[0] - 4), ch[1..], a, k);
    }
  }

  /** A filled slot transfers control to its target: the next address plus the operand, modulo 2^32. */
  lemma SlotTarget(s: int, a: int)
    ensures (s + 4 + Rel(a, s)) % WORD == a % WORD
  {}

  // ---- labels ----

  /**
    * Every operand slot emitted so far, the open labels (first slot to chain), and
    * for the slots already patched the address they were sent to.
    */
  datatype Labels = Labels(slots: set<int>, live: map<int, seq<int>>, bound: map<int, int>)

  const NO_LABELS := Labels({}, map[], map[])

  /** 0 is the label no jump refers to. */
  predicate IsLabel(g: Labels, t: int) {
    t == 0 || t in g.live
  }

  function Chain(g: Labels, t: int): seq<int> {
    if t in g.live then g.live[t] else []
  }

  /** The slots lie inside the code and do not overlap. */
  predicate Placed(ind: int, g: Labels) {
    (forall s :: s in g.slots ==> 1 <= s && s + 4 <= ind) && Spaced(g.slots)
  }

  /** A chain starts at its label, visits no slot twice and is threaded through the bytes. */
  predicate Threaded(d: seq<Byte>, g: Labels, h: int)
    requires h in g.live
  {
    var ch := g.live[h];
    ch != [] && ch[0] == h && Linked(d, ch) && NoRepeat(ch) && Open(g, ch)
  }

  predicate NoRepeat(ch: seq<int>) {
    forall i, j :: 0 <= i < j < |ch| ==> ch[i] != ch[j]
  }

  predicate NoShare(a: seq<int>, b: seq<int>) {
    forall s :: s in a ==> s !in b
  }

  /** The slots of the chain are waiting for their target. */
  predicate Open(g: Labels, ch: seq<int>) {
    forall s :: s in ch ==> s in g.slots && s !in g.bound
  }

  predicate Disjoint(g: Labels) {
    forall h, h' :: h in g.live && h' in g.live && h != h' ==> NoShare(g.live[h], g.live[h'])
  }

  predicate Bound(d: seq<Byte>, g: Labels) {
    forall s :: s in g.bound ==> s in g.slots && 0 <= s && s + 4 <= |d| && Word(d, s) == Rel(g.bound[s], s)
  }

  /** No slot is lost: each is patched or lies on an open chain. */
  ghost predicate Covered(g: Labels) {
    forall s :: s in g.slots ==> s in g.bound || exists h :: h in g.live && s in g.live[h]
  }

  ghost predicate Holds(d: seq<Byte>, ind: int, g: Labels) {
    0 <= ind <= |d| && Placed(ind, g) && (forall h :: h in g.live ==> Threaded(d, g, h))
    && Disjoint(g) && Bound(d, g) && Covered(g)
  }

  /** A jump whose slot s now heads the chain of t. */
  function Opened(g: Labels, s: int, t: int): Labels {
    Labels(g.slots + {s}, (g.live - {t})[s := [s] + Chain(g, t)], g.bound)
  }

  /** The label's slots are patched to a. */
  function Closed(g: Labels, t: int, a: int): Labels {
    g.(live := g.live - {t}, bound := g.bound + map s | s in Chain(g, t) :: a)
  }

  /** The chain of n followed by that of t, as one label. */
  function Joined(g: Labels, n: int, t: int): Labels {
    g.(live := (g.live - {t})[n := Chain(g, n) + Chain(g, t)])
  }

  // ---- what keeps the labels ----

  predicate SameWords(d: seq<Byte>, d': seq<Byte>, slots: set<int>) {
    forall s :: s in slots ==> 0 <= s && s + 4 <= |d| && s + 4 <= |d'| && Word(d', s) == Word(d, s)
  }

  lemma LinkedAlso(d: seq<Byte>, d': seq<Byte>, ch: seq<int>)
    requires Linked(d, ch) && forall s :: s in ch ==>
      0 <= s && s + 4 <= |d| && s + 4 <= |d'| && Word(d', s) == Word(d, s)
    ensures Linked(d', ch)
  {
    forall i | 0 <= i < |ch| ensures WordIs(d', ch[i], NextOf(ch, i)) {
      assert WordIs(d, ch[i], NextOf(ch, i)) && ch[i] in ch;
    }
  }

  lemma ThreadedAlso(d: seq<Byte>, d': seq<Byte>, g: Labels, h: int)
    requires h in g.live && Threaded(d, g, h) && SameWords(d, d', g.slots)
    ensures Threaded(d', g, h)
  {
    hide Word, Linked;
    LinkedAlso(d, d', g.live[h]);
  }

  lemma SameHolds(d: seq<Byte>, ind: int, g: Labels, d': seq<Byte>, ind': int)
    requires Holds(d, ind, g) && ind <= ind' <= |d'| && SameWords(d, d', g.slots)
    ensures Holds(d', ind', g)
  {
    hide Word, Threaded, Disjoint, Covered;
    forall h | h in g.live ensures Threaded(d', g, h) { ThreadedAlso(d, d', g, h); }
  }

  /** Appending code leaves every label as it was. */
  lemma EmitHolds(d: seq<Byte>, ind: int, g: Labels, d': seq<Byte>, ind': int)
    requires Holds(d, ind, g) && ind <= ind' <= |d'| && d'[..ind] == d[..ind]
    ensures Holds(d', ind', g)
  {
    forall s | s in g.slots ensures 0 <= s && s + 4 <= ind && Word(d', s) == Word(d, s) {
      PrefixWord(d, d', ind, s);
    }
    hide Holds, Word;
    SameHolds(d, ind, g, d', ind') by { HoldsInd(d, ind, g); }
  }

  lemma HoldsInd(d: seq<Byte>, ind: int, g: Labels)
    requires Holds(d, ind, g)
    ensures 0 <= ind <= |d| && forall s :: s in g.slots ==> 1 <= s && s + 4 <= ind
  {}

  lemma PrefixWord(d: seq<Byte>, d': seq<Byte>, n: int, s: int)
    requires 0 <= s && s + 4 <= n <= |d| && n <= |d'| && d'[..n] == d[..n]
    ensures Word(d', s) == Word(d, s)
  {
    assert d'[s] == d'[..n][s] && d'[s + 1] == d'[..n][s + 1] && d'[s + 2] == d'[..n][s + 2]
      && d'[s + 3] == d'[..n][s + 3];
  }

  lemma OpenThreaded(d: seq<Byte>, ind: int, g: Labels, s: int, t: int, h: int)
    requires Holds(d, ind, g) && IsLabel(g, t) && 1 <= s && s + 4 <= ind
    requires s !in g.slots && Word(d, s) == t && h in Opened(g, s, t).live
    ensures Threaded(d, Opened(g, s, t), h)
  {
    var o := Opened(g, s, t);
    assert s !in g.bound;
    HeadsAreSlots(d, ind, g);
    if h != s {
      assert Threaded(d, g, h);
      hide Word, Linked, NoRepeat, Disjoint, Covered, Bound, Spaced;
      assert o.live[h] == g.live[h];
    } else {
      var b := Chain(g, t);
      if t in g.live { assert Threaded(d, g, t); } else { NoSlots(d, g, b); }
      hide Word, Linked, Disjoint, Covered, Bound, Spaced, Placed, Threaded;
      assert o.live[h] == [s] + b;
      assert Linked(d, b) && NoRepeat(b) && Open(g, b) && (b == [] <==> t == 0) && (b != [] ==> b[0] == t) by {
        if t in g.live { ThreadedParts(d, g, t); }
      }
      ConsLinked(d, s, b);
      JoinNoRepeat([s], b);
      NowThreaded(d, o, h);
    }
  }

  lemma ThreadedParts(d: seq<Byte>, g: Labels, h: int)
    requires h in g.live && Threaded(d, g, h)
    ensures var ch := g.live[h]; ch != [] && ch[0] == h && Linked(d, ch) && NoRepeat(ch) && Open(g, ch)
  {}

  lemma NowThreaded(d: seq<Byte>, g: Labels, h: int)
    requires h in g.live
    requires var ch := g.live[h]; ch != [] && ch[0] == h && Linked(d, ch) && NoRepeat(ch) && Open(g, ch)
    ensures Threaded(d, g, h)
  {}

  lemma ConsLinked(d: seq<Byte>, s: int, b: seq<int>)
    requires Linked(d, b) && WordIs(d, s, if b == [] then 0 else b[0])
    ensures Linked(d, [s] + b)
  {
    hide WordIs;
    var ch := [s] + b;
    forall i | 0 <= i < |ch| ensures WordIs(d, ch[i], NextOf(ch, i)) {
      if i > 0 { assert ch[i] == b[i - 1] && NextOf(ch, i) == NextOf(b, i - 1); }
    }
  }

  lemma OpenHolds(d: seq<Byte>, ind: int, g: Labels, s: int, t: int)
    requires Holds(d, ind, g) && IsLabel(g, t) && 1 <= s && s + 4 <= ind
    requires (forall x :: x in g.slots ==> x + 4 <= s) && Word(d, s) == t
    ensures Holds(d, ind, Opened(g, s, t))
  {
    hide Word, Linked, Disjoint, Covered, NoRepeat, Open;
    var o := Opened(g, s, t);
    assert s !in g.slots;
    HeadsAreSlots(d, ind, g);
    hide Threaded;
    forall h | h in o.live ensures Threaded(d, o, h) { OpenThreaded(d, ind, g, s, t, h); }
    OpenDisjoint(d, ind, g, s, t);
    OpenCovered(g, s, t);
  }

  lemma HeadsAreSlots(d: seq<Byte>, ind: int, g: Labels)
    requires Holds(d, ind, g)
    ensures forall h :: h in g.live ==> h in g.slots
  {
    hide Word, Linked, Disjoint, Covered, NoRepeat;
    forall h | h in g.live ensures h in g.slots { assert Threaded(d, g, h); assert h in g.live[h]; }
  }

  lemma OpenDisjoint(d: seq<Byte>, ind: int, g: Labels, s: int, t: int)
    requires Holds(d, ind, g) && IsLabel(g, t) && s !in g.slots
    ensures Disjoint(Opened(g, s, t))
  {
    hide Word, Linked, Bound, Covered, Spaced;
    var o := Opened(g, s, t);
    forall h, h' | h in o.live && h' in o.live && h != h' ensures NoShare(o.live[h], o.live[h']) {
      if h == s {
        assert Threaded(d, g, h') && s !in g.live[h'];
        if t in g.live { assert NoShare(g.live[t], g.live[h']); }
      } else if h' == s {
        assert Threaded(d, g, h) && s !in g.live[h];
        if t in g.live { assert NoShare(g.live[h], g.live[t]); }
      } else { assert NoShare(g.live[h], g.live[h']); }
    }
  }

  lemma OpenCovered(g: Labels, s: int, t: int)
    requires Covered(g) && s !in g.live
    ensures Covered(Opened(g, s, t))
  {
    var o := Opened(g, s, t);
    forall x | x in o.slots ensures x in o.bound || exists h :: h in o.live && x in o.live[h] {
      if x == s {
        assert x in o.live[s];
      } else if x !in g.bound {
        var h :| h in g.live && x in g.live[h];
        assert x in o.live[if h == t then s else h];
      }
    }
  }

  /** A chain none of whose words changed, among labels that still leave its slots open. */
  lemma ThreadedStill(d: seq<Byte>, d': seq<Byte>, g: Labels, g': Labels, h: int)
    requires h in g.live && Threaded(d, g, h) && h in g'.live && g'.live[h] == g.live[h] && |d'| == |d|
    requires forall s :: s in g.live[h] ==> 0 <= s && s + 4 <= |d| && Word(d', s) == Word(d, s)
    requires Open(g', g.live[h])
    ensures Threaded(d', g', h)
  {
    hide Word, Linked;
    LinkedAlso(d, d', g.live[h]);
  }

  lemma ChainFits(d: seq<Byte>, ind: int, g: Labels, h: int)
    requires Holds(d, ind, g) && h in g.live
    ensures Threaded(d, g, h) && AllApart(g.live[h])
    ensures forall i :: 0 <= i < |g.live[h]| ==> 1 <= g.live[h][i] && g.live[h][i] + 4 <= |d| && g.live[h][i] in g.slots
  {
    hide Word, Linked, Disjoint, Covered, Bound;
    var ch := g.live[h];
    assert Threaded(d, g, h);
    assert forall i :: 0 <= i < |ch| ==> ch[i] in ch;
  }

  /** A slot off the chain is apart from all of it. */
  lemma OffChain(d: seq<Byte>, ind: int, g: Labels, h: int, s: int)
    requires Holds(d, ind, g) && h in g.live && s in g.slots && s !in g.live[h]
    ensures 0 <= s && s + 4 <= |d| && forall i :: 0 <= i < |g.live[h]| ==> Apart(g.live[h][i], s)
  {
    hide Word, Linked, Disjoint, Covered, Bound;
    ChainFits(d, ind, g, h);
    var ch := g.live[h];
    forall i | 0 <= i < |ch| ensures Apart(ch[i], s) { assert ch[i] in ch; }
  }

  lemma CloseWord(d: seq<Byte>, ind: int, g: Labels, t: int, a: int, s: int)
    requires Holds(d, ind, g) && t in g.live && s in g.slots
    ensures (forall i :: 0 <= i < |g.live[t]| ==> 0 <= g.live[t][i] && g.live[t][i] + 4 <= |d|) && 0 <= s
      && s + 4 <= |d|
    ensures Word(Patched(d, g.live[t], a), s) == if s in g.live[t] then Rel(a, s) else Word(d, s)
  {
    hide Holds, Threaded, Word, Patched, Linked;
    ChainFits(d, ind, g, t);
    var ch := g.live[t];
    HoldsInd(d, ind, g);
    if s in ch {
      var k :| 0 <= k < |ch| && ch[k] == s;
      PatchedReaches(d, ch, a, k);
    } else {
      OffChain(d, ind, g, t, s);
      PatchedKeeps(d, ch, a, s);
    }
  }

  /** Patching one label binds its slots and leaves every other label as it was. */
  lemma CloseHolds(d: seq<Byte>, ind: int, g: Labels, t: int, a: int)
    requires Holds(d, ind, g) && t in g.live
    ensures forall i :: 0 <= i < |g.live[t]| ==> 0 <= g.live[t][i] && g.live[t][i] + 4 <= |d|
    ensures Holds(Patched(d, g.live[t], a), ind, Closed(g, t, a))
  {
    hide Word, Patched, Linked, Spaced, Covered, Disjoint, Threaded, Bound;
    ChainFits(d, ind, g, t);
    var d', o := Patched(d, g.live[t], a), Closed(g, t, a);
    forall h | h in o.live ensures Threaded(d', o, h) { CloseThreaded(d, ind, g, t, a, h); }
    CloseBound(d, ind, g, t, a);
    CloseCovered(g, t, a);
    CloseDisjoint(g, t, a);
  }

  lemma CloseDisjoint(g: Labels, t: int, a: int)
    requires Disjoint(g)
    ensures Disjoint(Closed(g, t, a))
  {
    hide NoShare;
    var o := Closed(g, t, a);
    assert forall h :: h in o.live ==> h in g.live && o.live[h] == g.live[h];
  }

  lemma CloseThreaded(d: seq<Byte>, ind: int, g: Labels, t: int, a: int, h: int)
    requires Holds(d, ind, g) && t in g.live && h in g.live && h != t
    requires forall i :: 0 <= i < |g.live[t]| ==> 0 <= g.live[t][i] && g.live[t][i] + 4 <= |d|
    ensures Threaded(Patched(d, g.live[t], a), Closed(g, t, a), h)
  {
    var d', o := Patched(d, g.live[t], a), Closed(g, t, a);
    assert Threaded(d, g, h) && NoShare(g.live[h], g.live[t]);
    ThreadedParts(d, g, h);
    CloseOpen(g, t, a, h);
    assert NoShare(g.live[h], g.live[t]) && Open(g, g.live[h]);
    hide Word, Patched, Linked, Holds, Rel, Threaded, Closed, Disjoint;
    forall s | s in g.live[h] ensures s in g.slots && 0 <= s && s + 4 <= |d| && Word(d', s) == Word(d, s) {
      CloseWord(d, ind, g, t, a, s);
    }
    ThreadedStill(d, d', g, o, h);
  }

  lemma CloseOpen(g: Labels, t: int, a: int, h: int)
    requires h in g.live && h != t && t in g.live && Open(g, g.live[h]) && NoShare(g.live[h], g.live[t])
    ensures var o := Closed(g, t, a); h in o.live && o.live[h] == g.live[h] && Open(o, g.live[h])
  {}

  lemma CloseBound(d: seq<Byte>, ind: int, g: Labels, t: int, a: int)
    requires Holds(d, ind, g) && t in g.live
    requires forall i :: 0 <= i < |g.live[t]| ==> 0 <= g.live[t][i] && g.live[t][i] + 4 <= |d|
    ensures Bound(Patched(d, g.live[t], a), Closed(g, t, a))
  {
    var d', o := Patched(d, g.live[t], a), Closed(g, t, a);
    assert Threaded(d, g, t);
    assert Open(g, g.live[t]);
    hide Word, Patched, Linked, Spaced, Covered, Disjoint, Rel, Threaded;
    forall s | s in o.bound ensures s in o.slots && 0 <= s && s + 4 <= |d'| && Word(d', s) == Rel(o.bound[s], s) {
      assert s in g.slots;
      CloseWord(d, ind, g, t, a, s);
    }
  }

  lemma CloseCovered(g: Labels, t: int, a: int)
    requires Covered(g)
    ensures Covered(Closed(g, t, a))
  {
    var o := Closed(g, t, a);
    forall x | x in o.slots ensures x in o.bound || exists h :: h in o.live && x in o.live[h] {
      if x !in g.bound {
        var h :| h in g.live && x in g.live[h];
        if h != t { assert h in o.live && x in o.live[h]; }
      }
    }
  }

  function Last(ch: seq<int>): int
    requires ch != []
  {
    ch[|ch| - 1]
  }

  lemma JoinWord(d: seq<Byte>, ind: int, g: Labels, n: int, t: int, s: int)
    requires Holds(d, ind, g) && n in g.live && s in g.slots && 0 <= t < WORD
    ensures g.live[n] != [] && 0 <= Last(g.live[n]) && Last(g.live[n]) + 4 <= |d| && 0 <= s && s + 4 <= |d|
    ensures Word(PutWord(d, Last(g.live[n]), t), s) == if s == Last(g.live[n]) then t else Word(d, s)
  {
    hide Word, PutWord, Linked, Disjoint, Covered, Bound;
    ChainFits(d, ind, g, n);
    var e := Last(g.live[n]);
    if s == e { PutWordReads(d, e, t); } else { assert Apart(e, s); PutWordKeeps(d, e, t, s); }
  }

  lemma JoinThreaded(d: seq<Byte>, d': seq<Byte>, g: Labels, n: int, t: int)
    requires n in g.live && Threaded(d, g, n) && |d'| == |d| && (t == 0 || (t in g.live && t != n && Threaded(d, g, t)))
    requires t in g.live ==> NoShare(g.live[n], g.live[t])
    requires 0 !in g.live
    requires forall s :: s in g.live[n] || s in Chain(g, t) ==>
      0 <= s && s + 4 <= |d| && Word(d', s) == if s == Last(g.live[n]) then t else Word(d, s)
    ensures Threaded(d', Joined(g, n, t), n)
  {
    hide Word, Linked, NoRepeat, NoShare, Open;
    var a, b := g.live[n], Chain(g, t);
    assert Joined(g, n, t).live[n] == a + b;
    if t == 0 {
      assert b == [];
      NoSlots(d, g, b);
    }
    JoinLinked(d, d', a, b, t);
    JoinOpen(g, Joined(g, n, t), a, b);
    JoinNoRepeat(a, b);
  }

  lemma NoSlots(d: seq<Byte>, g: Labels, b: seq<int>)
    requires b == []
    ensures Linked(d, b) && Open(g, b) && NoRepeat(b) && forall a: seq<int> :: NoShare(a, b)
  {}

  lemma JoinOpen(g: Labels, g': Labels, a: seq<int>, b: seq<int>)
    requires Open(g, a) && Open(g, b) && g'.slots == g.slots && g'.bound == g.bound
    ensures Open(g', a + b)
  {}

  lemma JoinNoRepeat(a: seq<int>, b: seq<int>)
    requires NoRepeat(a) && NoRepeat(b) && NoShare(a, b)
    ensures NoRepeat(a + b)
  {
    var ch := a + b;
    forall i, j | 0 <= i < j < |ch| ensures ch[i] != ch[j] {
      if i < |a| && j >= |a| { assert a[i] in a && b[j - |a|] in b; }
    }
  }

  lemma JoinLinked(d: seq<Byte>, d': seq<Byte>, a: seq<int>, b: seq<int>, t: int)
    requires a != [] && Linked(d, a) && Linked(d, b) && NoRepeat(a) && NoShare(a, b) && |d'| == |d|
    requires t == if b == [] then 0 else b[0]
    requires forall s :: s in a || s in b ==>
      0 <= s && s + 4 <= |d| && Word(d', s) == if s == Last(a) then t else Word(d, s)
    ensures Linked(d', a + b)
  {
    hide Word;
    var ch := a + b;
    forall i | 0 <= i < |ch| ensures WordIs(d', ch[i], NextOf(ch, i)) {
      if i < |a| {
        assert a[i] in a && WordIs(d, a[i], NextOf(a, i));
        if i + 1 < |a| { assert a[i] != a[|a| - 1]; }
      } else {
        var j := i - |a|;
        assert b[j] in b && Last(a) in a && WordIs(d, b[j], NextOf(b, j));
        assert NextOf(ch, i) == NextOf(b, j);
      }
    }
  }

  /** Threading t behind the chain of n makes one label of the two. */
  lemma JoinHolds(d: seq<Byte>, ind: int, g: Labels, n: int, t: int)
    requires Holds(d, ind, g) && n in g.live && IsLabel(g, t) && t != n && ind < WORD
    ensures g.live[n] != [] && 0 <= Last(g.live[n]) && Last(g.live[n]) + 4 <= |d|
    ensures Holds(PutWord(d, Last(g.live[n]), t), ind, Joined(g, n, t))
  {
    hide Word, PutWord, Linked, Spaced, Threaded, Bound, Covered, Disjoint;
    ChainFits(d, ind, g, n);
    HeadsAreSlots(d, ind, g);
    ThreadedParts(d, g, n);
    assert 0 !in g.live;
    var d', o := PutWord(d, Last(g.live[n]), t), Joined(g, n, t);
    forall h | h in o.live ensures Threaded(d', o, h) {
      if h == n { JoinedThreaded(d, ind, g, n, t); } else { OtherThreaded(d, ind, g, n, t, h); }
    }
    JoinDisjoint(g, n, t);
    JoinCovered(g, n, t);
    JoinBound(d, ind, g, n, t);
    assert Placed(ind, o) && 0 <= ind <= |d'|;
  }

  lemma JoinedThreaded(d: seq<Byte>, ind: int, g: Labels, n: int, t: int)
    requires Holds(d, ind, g) && n in g.live && IsLabel(g, t) && t != n && 0 !in g.live && ind < WORD
    requires g.live[n] != [] && 0 <= Last(g.live[n]) && Last(g.live[n]) + 4 <= |d|
    ensures Threaded(PutWord(d, Last(g.live[n]), t), Joined(g, n, t), n)
  {
    var d' := PutWord(d, Last(g.live[n]), t);
    assert Threaded(d, g, n) && Open(g, g.live[n]);
    HeadsAreSlots(d, ind, g);
    if t != 0 { assert Threaded(d, g, t) && NoShare(g.live[n], g.live[t]) && Open(g, g.live[t]); }
    hide Word, PutWord, Linked, Spaced, Threaded, Bound, Covered, Disjoint, NoShare;
    forall s | s in g.live[n] || s in Chain(g, t)
      ensures 0 <= s && s + 4 <= |d| && Word(d', s) == if s == Last(g.live[n]) then t else Word(d, s)
    {
      assert s in g.slots;
      JoinWord(d, ind, g, n, t, s);
    }
    JoinThreaded(d, d', g, n, t);
  }

  lemma OtherThreaded(d: seq<Byte>, ind: int, g: Labels, n: int, t: int, h: int)
    requires Holds(d, ind, g) && n in g.live && IsLabel(g, t) && h in g.live && h != n && h != t && 0 !in g.live
      && ind < WORD
    requires g.live[n] != [] && 0 <= Last(g.live[n]) && Last(g.live[n]) + 4 <= |d|
    ensures Threaded(PutWord(d, Last(g.live[n]), t), Joined(g, n, t), h)
  {
    var d', o := PutWord(d, Last(g.live[n]), t), Joined(g, n, t);
    assert Threaded(d, g, h) && NoShare(g.live[h], g.live[n]) && Open(g, g.live[h]);
    HeadsAreSlots(d, ind, g);
    assert Last(g.live[n]) in g.live[n];
    hide Word, PutWord, Linked, Spaced, Threaded, Bound, Covered, Disjoint;
    forall s | s in g.live[h] ensures 0 <= s && s + 4 <= |d| && Word(d', s) == Word(d, s) {
      JoinWord(d, ind, g, n, t, s);
    }
    ThreadedStill(d, d', g, o, h);
  }

  lemma JoinBound(d: seq<Byte>, ind: int, g: Labels, n: int, t: int)
    requires Holds(d, ind, g) && n in g.live && IsLabel(g, t) && 0 !in g.live && ind < WORD
    requires g.live[n] != [] && 0 <= Last(g.live[n]) && Last(g.live[n]) + 4 <= |d|
    ensures Bound(PutWord(d, Last(g.live[n]), t), Joined(g, n, t))
  {
    var d' := PutWord(d, Last(g.live[n]), t);
    assert Threaded(d, g, n);
    HeadsAreSlots(d, ind, g);
    assert Last(g.live[n]) in g.live[n] && Last(g.live[n]) !in g.bound;
    hide Word, PutWord, Linked, Spaced, Threaded, Covered, Disjoint, Rel;
    forall s | s in g.bound ensures Word(d', s) == Rel(g.bound[s], s) {
      JoinWord(d, ind, g, n, t, s);
    }
  }

  lemma JoinDisjoint(g: Labels, n: int, t: int)
    requires Disjoint(g) && n in g.live && t != n
    ensures Disjoint(Joined(g, n, t))
  {
    var o := Joined(g, n, t);
    forall h, h' | h in o.live && h' in o.live && h != h' ensures NoShare(o.live[h], o.live[h']) {
      if h == n {
        assert NoShare(g.live[n], g.live[h']);
        if t in g.live { assert NoShare(g.live[t], g.live[h']); }
      } else if h' == n {
        assert NoShare(g.live[h], g.live[n]);
        if t in g.live { assert NoShare(g.live[h], g.live[t]); }
      } else {
        assert NoShare(g.live[h], g.live[h']);
      }
    }
  }

  lemma JoinCovered(g: Labels, n: int, t: int)
    requires Covered(g) && n in g.live && t != n
    ensures Covered(Joined(g, n, t))
  {
    var o := Joined(g, n, t);
    forall x | x in o.slots ensures x in o.bound || exists h :: h in o.live && x in o.live[h] {
      if x !in g.bound {
        var h :| h in g.live && x in g.live[h];
        assert x in o.live[if h == t then n else h];
      }
    }
  }

  // ---- the code buffer ----

  /** The bytes of an opcode, least significant first, without leading zeros. */
  function OpBytes(c: nat): (r: seq<Byte>)
    ensures c > 0 ==> r != []
    decreases c
  {
    if c == 0 then [] else [ByteOf(c)] + OpBytes(c / 0x100)
  }

  function LittleEndian(v: int): (r: seq<Byte>)
    ensures |r| == 4
  {
    [ByteOf(v), ByteOf(v / 0x100), ByteOf(v / 0x100 / 0x100), ByteOf(v / 0x100 / 0x100 / 0x100)]
  }

  lemma LittleEndianReads(d: seq<Byte>, s: int, v: int)
    requires 0 <= s && s + 4 <= |d| && d[s..s + 4] == LittleEndian(v)
    ensures Word(d, s) == v % WORD
  {
    assert d[s] == d[s..s + 4][0] && d[s + 1] == d[s..s + 4][1] && d[s + 2] == d[s..s + 4][2]
      && d[s + 3] == d[s..s + 4][3];
    Bytes4(v);
  }

  /** What is on top of the value stack when a condition is tested. */
  datatype Value = Compared(op: int) | Jumps(inverted: bool, list: int) | Other

  class Code {
    var data: seq<Byte>
    var ind: int
    ghost var g: Labels

    ghost predicate Valid()
      reads this
    {
      Holds(data, ind, g)
    }

    constructor ()
      ensures Valid() && ind == 0 && g == NO_LABELS
    {
      data, ind, g := [], 0, NO_LABELS;
    }

    method G(c: int)
      requires Valid()
      modifies `data, `ind
      ensures Valid() && ind == old(ind) + 1 && data[..ind] == old(data)[..old(ind)] + [ByteOf(c)]
    {
      hide Holds;
      HoldsInd(data, ind, g);
      var d := data;
      if ind + 1 > |d| {
        d := d + seq(ind + 1 - |d|, _ => 0);
      }
      d := d[ind := ByteOf(c)];
      EmitHolds(data, ind, g, d, ind + 1);
      assert d[..ind + 1] == data[..ind] + [ByteOf(c)];
      data := d;
      ind := ind + 1;
    }

    method O(c: nat)
      requires Valid()
      modifies `data, `ind
      ensures Valid() && ind == old(ind) + |OpBytes(c)| && data[..ind] == old(data)[..old(ind)] + OpBytes(c)
    {
      hide Holds;
      HoldsInd(data, ind, g);
      var v: nat := c;
      ghost var done: seq<Byte> := [];
      while v != 0
        invariant Valid() && done + OpBytes(v) == OpBytes(c)
        invariant 0 <= ind <= |data| && ind == old(ind) + |done| && data[..ind] == old(data)[..old(ind)] + done
        decreases v
      {
        assert OpBytes(v) == [ByteOf(v)] + OpBytes(v / 0x100);
        G(v);
        done := done + [ByteOf(v)];
        v := v / 0x100;
        HoldsInd(data, ind, g);
      }
    }

    method GenLe32(v: int)
      requires Valid()
      modifies `data, `ind
      ensures Valid() && ind == old(ind) + 4 && data[..ind] == old(data)[..old(ind)] + LittleEndian(v)
    {
      hide Holds;
      HoldsInd(data, ind, g);
      G(v);
      G(v / 0x100);
      G(v / 0x100 / 0x100);
      G(v / 0x100 / 0x100 / 0x100);
    }

    /** An opcode and a 32-bit operand; returns the operand's position. */
    method Oad(c: nat, v: int) returns (s: int)
      requires Valid()
      modifies `data, `ind
      ensures Valid() && s == old(ind) + |OpBytes(c)| && ind == s + 4 <= |data|
      ensures data[..ind] == old(data)[..old(ind)] + OpBytes(c) + LittleEndian(v)
    {
      hide Holds;
      O(c);
      s := ind;
      GenLe32(v);
      HoldsInd(data, ind, g);
    }

    /** A jump to the open label t; the result is the label that now stands for it. */
    method Gjmp2(c: nat, t: int) returns (s: int)
      requires Valid() && IsLabel(g, t) && 0 < c && ind < WORD
      modifies this
      ensures Valid() && s == old(ind) + |OpBytes(c)| && ind == s + 4 && g == Opened(old(g), s, t)
      ensures data[..ind] == old(data)[..old(ind)] + OpBytes(c) + LittleEndian(t)
    {
      hide Holds, LittleEndian;
      ghost var g0, d0, i0 := g, data, ind;
      HoldsInd(data, ind, g);
      HeadsAreSlots(data, ind, g);
      s := Oad(c, t);
      assert data[s..s + 4] == data[..ind][s..s + 4] == LittleEndian(t);
      LittleEndianReads(data, s, t);
      assert 0 <= t < WORD;
      OpenHolds(data, ind, g, s, t);
      g := Opened(g, s, t);
    }

    method Gjmp(t: int) returns (s: int)
      requires Valid() && IsLabel(g, t) && ind < WORD
      modifies this
      ensures Valid() && s == old(ind) + 1 && ind == s + 4 && g == Opened(old(g), s, t)
      ensures data[..ind] == old(data)[..old(ind)] + [0xe9] + LittleEndian(t)
    {
      hide Holds, LittleEndian;
      assert OpBytes(0xe9) == [0xe9];
      s := Gjmp2(0xe9, t);
    }

    /** Sends every jump on the list of t to a. */
    method GsymAddr(t: int, a: int)
      requires Valid() && IsLabel(g, t)
      modifies this
      ensures Valid() && ind == old(ind) && g == Closed(old(g), t, a)
      ensures forall i :: 0 <= i < |Chain(old(g), t)| ==>
        0 <= Chain(old(g), t)[i] && Chain(old(g), t)[i] + 4 <= |old(data)|
      ensures data == Patched(old(data), Chain(old(g), t), a)
    {
      hide Holds, Patched, Linked, Closed, AllApart;
      ChainReady(data, ind, g, t, a);
      PatchList(t, a, Chain(g, t));
      g := Closed(g, t, a);
    }

    /** The walk along a list, overwriting each link once it has been read. */
    method PatchList(t: int, a: int, ghost ch: seq<int>)
      requires Linked(data, ch) && AllApart(ch) && t == (if ch == [] then 0 else ch[0])
      requires forall i :: 0 <= i < |ch| ==> 1 <= ch[i] && ch[i] + 4 <= |data|
      modifies `data
      ensures data == Patched(old(data), ch, a)
    {
      hide Word, PutWord, Patched, Linked, AllApart;
      var n := t;
      ghost var j := 0;
      assert ch[0..] == ch;
      while n != 0
        invariant 0 <= j <= |ch| && n == (if j < |ch| then ch[j] else 0) && |data| == |old(data)|
        invariant Linked(data, ch[j..]) && Patched(data, ch[j..], a) == Patched(old(data), ch, a)
        decreases |ch| - j
      {
        SuffixApart(ch, j);
        PatchStep(data, ch[j..], a);
        assert ch[j..][0] == ch[j] && ch[j..][1..] == ch[j + 1..];
        var next := Word(data, n);
        data := PutWord(data, n, a - n - 4);
        n := next;
        j := j + 1;
      }
      assert ch[j..] == [];
      PatchedNone(data, a);
    }

    method Gsym(t: int)
      requires Valid() && IsLabel(g, t)
      modifies this
      ensures Valid() && ind == old(ind) && g == Closed(old(g), t, ind)
      ensures forall i :: 0 <= i < |Chain(old(g), t)| ==>
        0 <= Chain(old(g), t)[i] && Chain(old(g), t)[i] + 4 <= |old(data)|
      ensures data == Patched(old(data), Chain(old(g), t), ind)
    {
      GsymAddr(t, ind);
    }

    /** Puts the list of t behind that of n, by walking n to its end. */
    method AppendList(n: int, t: int)
      requires Valid() && n in g.live && IsLabel(g, t) && t != n && ind < WORD
      modifies this
      ensures Valid() && ind == old(ind) && g == Joined(old(g), n, t)
      ensures var ch := old(g).live[n];
        ch != [] && 0 <= Last(ch) && Last(ch) + 4 <= |old(data)| && data == PutWord(old(data), Last(ch), t)
    {
      hide Holds, Word, PutWord, Linked, Threaded;
      ghost var ch := g.live[n];
      ChainFits(data, ind, g, n);
      ThreadedParts(data, g, n);
      JoinHolds(data, ind, g, n, t);
      LinkAt(data, ch, 0);
      var p := n;
      ghost var j := 0;
      var p1 := Word(data, p);
      while p1 != 0
        invariant 0 <= j < |ch| && p == ch[j] && p1 == NextOf(ch, j)
        modifies {}
        decreases |ch| - j
      {
        j := j + 1;
        LinkAt(data, ch, j);
        p := p1;
        p1 := Word(data, p);
      }
      assert p == Last(ch) by { LastNext(ch, j); }
      data := PutWord(data, p, t);
      g := Joined(g, n, t);
    }

    /**
      * Jumps to t when the tested condition is true (false when inv); returns the label that
      * now stands for t, and the code as it is after the jump of the inverted case.
      */
    method Gtst(inv: bool, t: int, v: Value) returns (r: int, ghost mid: seq<Byte>)
      requires Valid() && IsLabel(g, t) && ind < WORD - 1
      requires v.Compared? ==> 0x90 <= v.op <= 0x9f
      requires v.Jumps? ==> IsLabel(g, v.list) && (v.list != 0 ==> v.list != t)
      modifies this
      ensures Valid() && IsLabel(g, r)
      ensures v.Compared? ==> r == old(ind) + 2 && g == Opened(old(g), r, t)
      ensures v.Compared? ==> data[..ind] == old(data)[..old(ind)] + [0x0f, CondByte(v.op, inv)] + LittleEndian(t)
      ensures v.Compared? ==>
        ind == old(ind) + 6 <= |data| && data[old(ind)] == 0x0f && 0x80 <= data[old(ind) + 1] <= 0x8f
        && forall fl :: Taken(data[old(ind) + 1], fl) <==> Tested(v.op, fl) != inv
      ensures v.Jumps? && v.inverted == inv
        ==> ind == old(ind) && Chain(g, r) == Chain(old(g), v.list) + Chain(old(g), t)
      ensures v.Jumps? && v.inverted == inv && v.list == 0 ==> r == t && g == old(g) && data == old(data)
      ensures v.Jumps? && v.inverted == inv && v.list != 0 ==> r == v.list && g == Joined(old(g), v.list, t)
      ensures v.Jumps? && v.inverted == inv && v.list != 0 ==>
        var ch := old(g).live[v.list];
        ch != [] && 0 <= Last(ch) && Last(ch) + 4 <= |old(data)| && data == PutWord(old(data), Last(ch), t)
      ensures v.Jumps? && v.inverted != inv ==>
        r == old(ind) + 1 && ind == old(ind) + 5 && g == Closed(Opened(old(g), r, t), v.list, ind)
      ensures v.Jumps? && v.inverted != inv
        ==> ind <= |mid| && mid[..ind] == old(data)[..old(ind)] + [0xe9] + LittleEndian(t)
      ensures v.Jumps? && v.inverted != inv ==>
        var ch := Chain(Opened(old(g), r, t), v.list);
        (forall i :: 0 <= i < |ch| ==> 0 <= ch[i] && ch[i] + 4 <= |mid|) && data == Patched(mid, ch, ind)
      ensures v.Other? ==> r == t && g == old(g) && data == old(data) && ind == old(ind)
    {
      hide Holds, LittleEndian, Patched, Word, PutWord, Tested, Taken, CondByte;
      r, mid := t, data;
      HeadsAreSlots(data, ind, g);
      HoldsInd(data, ind, g);
      if v.Compared? {
        G(0x0f);
        assert OpBytes(CondByte(v.op, inv)) == [CondByte(v.op, inv)];
        HoldsInd(data, ind, g);
        ghost var was := data[..ind - 1];
        r := Gjmp2(CondByte(v.op, inv), t);
        HoldsInd(data, ind, g);
        assert data[..ind] == was + [0x0f, CondByte(v.op, inv)] + LittleEndian(t);
        assert data[ind - 6] == data[..ind][ind - 6] && data[ind - 5] == data[..ind][ind - 5];
      } else if v.Jumps? {
        if v.inverted == inv {
          if v.list != 0 {
            AppendList(v.list, t);
            r := v.list;
          }
        } else {
          r := Gjmp(t);
          mid := data;
          HeadsAreSlots(data, ind, g);
          HoldsInd(data, ind, g);
          Gsym(v.list);
        }
      }
    }
  }

  /** The flags a comparison leaves: carry, parity, zero, sign and overflow. */
  datatype Flags = Flags(c: bool, p: bool, z: bool, s: bool, o: bool)

  /** The sixteen conditions of the i386, by number. */
  predicate Condition(k: int, fl: Flags) {
    match k
    case 0 => fl.o
    case 1 => !fl.o
    case 2 => fl.c
    case 3 => !fl.c
    case 4 => fl.z
    case 5 => !fl.z
    case 6 => fl.c || fl.z
    case 7 => !fl.c && !fl.z
    case 8 => fl.s
    case 9 => !fl.s
    case 10 => fl.p
    case 11 => !fl.p
    case 12 => fl.s != fl.o
    case 13 => fl.s == fl.o
    case 14 => fl.z || fl.s != fl.o
    case 15 => !fl.z && fl.s == fl.o
    case _ => false
  }

  /** Whether the comparison the value stands for holds. */
  predicate Tested(op: int, fl: Flags) {
    Condition(op - 0x90, fl)
  }

  /** Whether the conditional jump with this second byte is taken. */
  predicate Taken(b: Byte, fl: Flags) {
    Condition(b - 0x80, fl)
  }

  /** The second byte of a conditional jump: the set-condition code less 16, its sense flipped by inv. */
  function CondByte(op: int, inv: bool): (b: Byte)
    requires 0x90 <= op <= 0x9f
    ensures 0x80 <= b <= 0x8f
    ensures forall fl :: Taken(b, fl) <==> Tested(op, fl) != inv
  {
    if !inv then op - 16 else if op % 2 == 0 then op - 15 else op - 17
  }

  lemma LinkAt(d: seq<Byte>, ch: seq<int>, j: int)
    requires Linked(d, ch) && 0 <= j < |ch|
    ensures 1 <= ch[j] && ch[j] + 4 <= |d| && Word(d, ch[j]) == NextOf(ch, j)
    ensures NextOf(ch, j) != 0 ==> j + 1 < |ch| && NextOf(ch, j) == ch[j + 1]
  {
    hide Word;
    assert WordIs(d, ch[j], NextOf(ch, j));
  }

  lemma LastNext(ch: seq<int>, j: int)
    requires 0 <= j < |ch| && NextOf(ch, j) == 0 && forall i :: 0 <= i < |ch| ==> 1 <= ch[i]
    ensures j == |ch| - 1
  {}

  lemma CloseNothing(d: seq<Byte>, ind: int, g: Labels, a: int)
    requires Holds(d, ind, g) && 0 !in g.live
    ensures Closed(g, 0, a) == g && Holds(Patched(d, Chain(g, 0), a), ind, Closed(g, 0, a))
      && Patched(d, Chain(g, 0), a) == d && Linked(d, Chain(g, 0)) && AllApart(Chain(g, 0))
  {}

  lemma SuffixApart(ch: seq<int>, j: int)
    requires AllApart(ch) && 0 <= j <= |ch|
    ensures AllApart(ch[j..])
  {}

  /** The chain of a label, ready to be walked, and what patching it leaves. */
  lemma ChainReady(d: seq<Byte>, ind: int, g: Labels, t: int, a: int)
    requires Holds(d, ind, g) && IsLabel(g, t)
    ensures var ch := Chain(g, t);
      Linked(d, ch) && AllApart(ch) && t == (if ch == [] then 0 else ch[0])
      && (forall i :: 0 <= i < |ch| ==> 1 <= ch[i] && ch[i] + 4 <= |d|)
      && Holds(Patched(d, ch, a), ind, Closed(g, t, a))
  {
    hide Holds, Word, Patched, Linked, Closed, AllApart, Threaded;
    HeadsAreSlots(d, ind, g);
    HoldsInd(d, ind, g);
    if t in g.live {
      ChainFits(d, ind, g, t);
      ThreadedParts(d, g, t);
      CloseHolds(d, ind, g, t, a);
    } else {
      CloseNothing(d, ind, g, a);
    }
  }

  lemma PatchedNone(d: seq<Byte>, a: int)
    ensures Patched(d, [], a) == d
  {}

  /** Reading the first slot before overwriting it gives the next one, and the rest of the chain survives. */
  lemma PatchStep(d: seq<Byte>, ch: seq<int>, a: int)
    requires ch != [] && Linked(d, ch) && AllApart(ch)
    ensures 1 <= ch[0] && ch[0] + 4 <= |d| && Word(d, ch[0]) == NextOf(ch, 0)
    ensures (forall i :: 0 <= i < |ch| ==> 0 <= ch[i] && ch[i] + 4 <= |d|)
    ensures var d' := PutWord(d, ch[0], a - ch[0] - 4);
      Linked(d', ch[1..]) && Patched(d', ch[1..], a) == Patched(d, ch, a)
  {
    hide Word, PutWord;
    var d' := PutWord(d, ch[0], a - ch[0] - 4);
    var r := ch[1..];
    assert WordIs(d, ch[0], NextOf(ch, 0));
    assert forall i :: 0 <= i < |ch| ==> WordIs(d, ch[i], NextOf(ch, i));
    forall i | 0 <= i < |r| ensures WordIs(d', r[i], NextOf(r, i)) {
      assert r[i] == ch[i + 1] && NextOf(r, i) == NextOf(ch, i + 1);
      PutWordKeeps(d, ch[0], a - ch[0] - 4, r[i]);
    }
  }

  // ---- whole runs ----

  /** The code so far with its labels. */
  datatype Buffer = Buffer(d: seq<Byte>, ind: int, g: Labels)

  datatype Action =
    | Emit(bytes: seq<Byte>)
    | Jump(c: nat, t: int)
    | Patch(t: int, a: int)
    | Append(n: int, t: int)

  ghost predicate Good(b: Buffer) {
    Holds(b.d, b.ind, b.g)
  }

  /** Labels are used once: a jump or a join takes over the label it is given. */
  predicate Enabled(b: Buffer, x: Action) {
    match x
    case Emit(_) => true
    case Jump(c, t) => c > 0 && IsLabel(b.g, t) && b.ind < WORD
    case Patch(t, _) => IsLabel(b.g, t)
    case Append(n, t) => n in b.g.live && IsLabel(b.g, t) && t != n && b.ind < WORD
  }

  function After(b: Buffer, x: Action): Buffer
    requires Good(b) && Enabled(b, x)
  {
    HoldsInd(b.d, b.ind, b.g);
    match x
    case Emit(bytes) => Buffer(b.d[..b.ind] + bytes, b.ind + |bytes|, b.g)
    case Jump(c, t) =>
      var s := b.ind + |OpBytes(c)|;
      Buffer(b.d[..b.ind] + OpBytes(c) + LittleEndian(t), s + 4, Opened(b.g, s, t))
    case Patch(t, a) =>
      if t in b.g.live then
        ChainFits(b.d, b.ind, b.g, t);
        Buffer(Patched(b.d, b.g.live[t], a), b.ind, Closed(b.g, t, a))
      else b
    case Append(n, t) =>
      JoinHolds(b.d, b.ind, b.g, n, t);
      Buffer(PutWord(b.d, Last(b.g.live[n]), t), b.ind, Joined(b.g, n, t))
  }

  lemma JumpHolds(d: seq<Byte>, ind: int, g: Labels, op: seq<Byte>, t: int)
    requires Holds(d, ind, g) && op != [] && IsLabel(g, t) && ind < WORD
    ensures Holds(d[..ind] + op + LittleEndian(t), ind + |op| + 4, Opened(g, ind + |op|, t))
  {
    hide Holds, LittleEndian;
    HoldsInd(d, ind, g);
    HeadsAreSlots(d, ind, g);
    var s := ind + |op|;
    var d' := d[..ind] + op + LittleEndian(t);
    assert d'[..ind] == d[..ind] && d'[s..s + 4] == LittleEndian(t);
    EmitHolds(d, ind, g, d', s + 4);
    LittleEndianReads(d', s, t);
    OpenHolds(d', s + 4, g, s, t);
  }

  lemma AfterGood(b: Buffer, x: Action)
    requires Good(b) && Enabled(b, x)
    ensures Good(After(b, x))
  {
    hide Holds, LittleEndian, Patched, PutWord, Opened, Closed, Joined;
    HoldsInd(b.d, b.ind, b.g);
    match x
    case Emit(bytes) =>
      assert (b.d[..b.ind] + bytes)[..b.ind] == b.d[..b.ind];
      EmitHolds(b.d, b.ind, b.g, b.d[..b.ind] + bytes, b.ind + |bytes|);
    case Jump(c, t) => JumpHolds(b.d, b.ind, b.g, OpBytes(c), t);
    case Patch(t, a) => if t in b.g.live { CloseHolds(b.d, b.ind, b.g, t, a); }
    case Append(n, t) => JoinHolds(b.d, b.ind, b.g, n, t);
  }

  lemma OpenNotBound(d: seq<Byte>, ind: int, g: Labels, t: int)
    requires Holds(d, ind, g)
    ensures forall s :: s in Chain(g, t) ==> s !in g.bound
  {
    hide Word, Linked, Disjoint, Covered, Placed, NoRepeat;
    if t in g.live { assert Threaded(d, g, t); }
  }

  ghost predicate Runs(b: Buffer, xs: seq<Action>)
    requires Good(b)
    decreases |xs|
  {
    xs == [] || (Enabled(b, xs[0]) && (AfterGood(b, xs[0]); Runs(After(b, xs[0]), xs[1..])))
  }

  ghost function Ran(b: Buffer, xs: seq<Action>): Buffer
    requires Good(b) && Runs(b, xs)
    decreases |xs|
  {
    if xs == [] then b else AfterGood(b, xs[0]); Ran(After(b, xs[0]), xs[1..])
  }

  /**
    * Over every run: labels stay disjoint acyclic chains covering all unpatched slots, and a slot
    * once patched keeps sending control to the same address.
    */
  lemma {:induction false} RunKeeps(b: Buffer, xs: seq<Action>)
    requires Good(b) && Runs(b, xs)
    ensures Good(Ran(b, xs)) && b.g.slots <= Ran(b, xs).g.slots
    ensures forall s :: s in b.g.bound ==> s in Ran(b, xs).g.bound && Ran(b, xs).g.bound[s] == b.g.bound[s]
    ensures forall s :: s in b.g.bound ==> WordIs(Ran(b, xs).d, s, Rel(b.g.bound[s], s))
    decreases |xs|
  {
    if xs == [] {
      BoundWords(b);
    } else {
      AfterGood(b, xs[0]);
      StepBound(b, xs[0]);
      RunKeeps(After(b, xs[0]), xs[1..]);
    }
  }

  lemma BoundWords(b: Buffer)
    requires Good(b)
    ensures forall s :: s in b.g.bound ==> WordIs(b.d, s, Rel(b.g.bound[s], s))
  {
    hide Word, Rel;
  }

  lemma StepBound(b: Buffer, x: Action)
    requires Good(b) && Enabled(b, x)
    ensures After(b, x).g.slots >= b.g.slots
    ensures forall s :: s in b.g.bound ==> s in After(b, x).g.bound && After(b, x).g.bound[s] == b.g.bound[s]
  {
    hide Holds, LittleEndian, Patched, PutWord;
    if x.Patch? { OpenNotBound(b.d, b.ind, b.g, x.t); }
  }

  // ---- the methods take these steps ----

  /** The code up to ind, whatever the buffer holds beyond it. */
  function View(d: seq<Byte>, ind: int, g: Labels): Buffer
    requires 0 <= ind <= |d|
  {
    Buffer(d[..ind], ind, g)
  }

  ghost predicate Does(b: Buffer, x: Action, b': Buffer) {
    Good(b) && Enabled(b, x) && b' == After(b, x)
  }

  lemma ViewGood(d: seq<Byte>, ind: int, g: Labels)
    requires Holds(d, ind, g)
    ensures 0 <= ind <= |d| && Good(View(d, ind, g))
  {
    hide Holds;
    HoldsInd(d, ind, g);
    EmitHolds(d, ind, g, d[..ind], ind);
  }

  lemma EmitDoes(d: seq<Byte>, ind: int, g: Labels, d': seq<Byte>, bytes: seq<Byte>)
    requires Holds(d, ind, g) && 0 <= ind <= |d| && ind + |bytes| <= |d'| && d'[..ind + |bytes|] == d[..ind] + bytes
    ensures Does(View(d, ind, g), Emit(bytes), View(d', ind + |bytes|, g))
  {
    ViewGood(d, ind, g);
    hide Holds;
    assert d[..ind][..ind] == d[..ind];
  }

  lemma JumpDoes(d: seq<Byte>, ind: int, g: Labels, d': seq<Byte>, c: nat, t: int)
    requires Holds(d, ind, g) && 0 <= ind <= |d| && c > 0 && IsLabel(g, t) && ind < WORD
    requires ind + |OpBytes(c)| + 4 <= |d'| && d'[..ind + |OpBytes(c)| + 4] == d[..ind] + OpBytes(c) + LittleEndian(t)
    ensures Does(View(d, ind, g), Jump(c, t), View(d', ind + |OpBytes(c)| + 4, Opened(g, ind + |OpBytes(c)|, t)))
  {
    ViewGood(d, ind, g);
    hide Holds, LittleEndian, Opened, IsLabel;
    assert d[..ind][..ind] == d[..ind];
  }

  lemma PutWordCut(d: seq<Byte>, ind: int, s: int, w: int)
    requires 0 <= s && s + 4 <= ind <= |d|
    ensures PutWord(d, s, w)[..ind] == PutWord(d[..ind], s, w)
  {}

  lemma {:induction false} PatchedCut(d: seq<Byte>, ind: int, ch: seq<int>, a: int)
    requires 0 <= ind <= |d| && forall i :: 0 <= i < |ch| ==> 0 <= ch[i] && ch[i] + 4 <= ind
    ensures Patched(d, ch, a)[..ind] == Patched(d[..ind], ch, a)
    decreases |ch|
  {
    hide PutWord;
    if ch == [] {
    } else {
      PutWordCut(d, ind, ch[0], a - ch[0] - 4);
      PatchedCut(PutWord(d, ch[0], a - ch[0] - 4), ind, ch[1..], a);
    }
  }

  lemma ChainInside(d: seq<Byte>, ind: int, g: Labels, t: int)
    requires Holds(d, ind, g)
    ensures forall i :: 0 <= i < |Chain(g, t)| ==> 0 <= Chain(g, t)[i] && Chain(g, t)[i] + 4 <= ind <= |d|
  {
    hide Holds;
    HoldsInd(d, ind, g);
    if t in g.live { ChainFits(d, ind, g, t); }
  }

  lemma PatchDoes(d: seq<Byte>, ind: int, g: Labels, t: int, a: int)
    requires Holds(d, ind, g) && 0 <= ind <= |d| && IsLabel(g, t)
    ensures forall i :: 0 <= i < |Chain(g, t)| ==> 0 <= Chain(g, t)[i] && Chain(g, t)[i] + 4 <= |d|
    ensures Does(View(d, ind, g), Patch(t, a), View(Patched(d, Chain(g, t), a), ind, Closed(g, t, a)))
  {
    ViewGood(d, ind, g);
    hide Holds, Patched, Closed;
    ChainInside(d, ind, g, t);
    PatchedCut(d, ind, Chain(g, t), a);
    HeadsAreSlots(d, ind, g);
    HoldsInd(d, ind, g);
    if t !in g.live { CloseNothing(d, ind, g, a); }
  }

  lemma AppendDoes(d: seq<Byte>, ind: int, g: Labels, n: int, t: int)
    requires Holds(d, ind, g) && 0 <= ind <= |d| && n in g.live && IsLabel(g, t) && t != n && ind < WORD
    ensures g.live[n] != [] && 0 <= Last(g.live[n]) && Last(g.live[n]) + 4 <= |d|
    ensures Does(View(d, ind, g), Append(n, t), View(PutWord(d, Last(g.live[n]), t), ind, Joined(g, n, t)))
  {
    ViewGood(d, ind, g);
    hide Holds, PutWord, Joined;
    JoinHolds(d, ind, g, n, t);
    ChainInside(d, ind, g, n);
    PutWordCut(d, ind, Last(g.live[n]), t);
  }

  /** One action, by the method that takes it. */
  method Act(code: Code, x: Action)
    requires code.Valid() && 0 <= code.ind <= |code.data| && Enabled(View(code.data, code.ind, code.g), x)
    modifies code
    ensures code.Valid() && 0 <= code.ind <= |code.data|
    ensures Does(old(View(code.data, code.ind, code.g)), x, View(code.data, code.ind, code.g))
  {
    hide Holds, Patched, PutWord, Opened, Closed, Joined, LittleEndian, Does;
    ghost var d, ind, g := code.data, code.ind, code.g;
    match x
    case Emit(bytes) =>
      var i := 0;
      while i < |bytes|
        invariant 0 <= i <= |bytes| && code.Valid() && code.g == g && code.ind == ind + i <= |code.data|
        invariant code.data[..code.ind] == d[..ind] + bytes[..i]
      {
        code.G(bytes[i]);
        ByteOfByte(bytes[i]);
        HoldsInd(code.data, code.ind, code.g);
        assert bytes[..i + 1] == bytes[..i] + [bytes[i]];
        i := i + 1;
      }
      assert bytes[..i] == bytes;
      EmitDoes(d, ind, g, code.data, bytes);
    case Jump(c, t) =>
      var s := code.Gjmp2(c, t);
      HoldsInd(code.data, code.ind, code.g);
      JumpDoes(d, ind, g, code.data, c, t);
    case Patch(t, a) =>
      PatchDoes(d, ind, g, t, a);
      code.GsymAddr(t, a);
      HoldsInd(code.data, code.ind, code.g);
    case Append(n, t) =>
      AppendDoes(d, ind, g, n, t);
      code.AppendList(n, t);
      HoldsInd(code.data, code.ind, code.g);
  }

  lemma ByteOfByte(b: Byte)
    ensures ByteOf(b) == b
  {}

  /** A whole run on the code buffer: every label stays an open chain of its own, and patched slots stay patched. */
  method ActAll(code: Code, xs: seq<Action>)
    requires code.Valid() && 0 <= code.ind <= |code.data|
    requires Good(View(code.data, code.ind, code.g)) && Runs(View(code.data, code.ind, code.g), xs)
    modifies code
    ensures code.Valid() && 0 <= code.ind <= |code.data|
    ensures View(code.data, code.ind, code.g) == Ran(old(View(code.data, code.ind, code.g)), xs)
  {
    hide Holds, After, Enabled;
    ghost var b := View(code.data, code.ind, code.g);
    var i := 0;
    while i < |xs|
      invariant 0 <= i <= |xs| && code.Valid() && 0 <= code.ind <= |code.data|
      invariant var v := View(code.data, code.ind, code.g); Good(v) && Runs(v, xs[i..]) && Ran(v, xs[i..]) == Ran(b, xs)
    {
      ghost var v := View(code.data, code.ind, code.g);
      assert xs[i..][0] == xs[i] && xs[i..][1..] == xs[i + 1..];
      Act(code, xs[i]);
      ViewGood(code.data, code.ind, code.g);
      i := i + 1;
    }
  }

  /** The actions of one test. */
  function Tests(ind: int, inv: bool, t: int, v: Value): seq<Action>
    requires v.Compared? ==> 0x90 <= v.op <= 0x9f
  {
    match v
    case Compared(op) => [Emit([0x0f]), Jump(CondByte(op, inv), t)]
    case Jumps(inverted, list) =>
      if inverted != inv then [Jump(0xe9, t), Patch(list, ind + 5)] else if list == 0 then [] else [Append(list, t)]
    case Other => []
  }

  lemma RanNone(b: Buffer)
    requires Good(b)
    ensures Runs(b, []) && Ran(b, []) == b
  {}

  lemma RanOne(b: Buffer, x: Action, b': Buffer)
    requires Does(b, x, b')
    ensures Good(b) && Runs(b, [x]) && Ran(b, [x]) == b'
  {
    hide Holds, After, Enabled;
    AfterGood(b, x);
    RanNone(b');
    assert [x][1..] == [];
  }

  lemma RanTwo(b: Buffer, x: Action, m: Buffer, y: Action, b': Buffer)
    requires Does(b, x, m) && Does(m, y, b')
    ensures Good(b) && Runs(b, [x, y]) && Ran(b, [x, y]) == b'
  {
    hide Holds, After, Enabled;
    AfterGood(b, x);
    RanOne(m, y, b');
    assert [x, y][1..] == [y];
  }

  /** A test is a run of these actions. */
  method Test(code: Code, inv: bool, t: int, v: Value) returns (r: int)
    requires code.Valid() && 0 <= code.ind <= |code.data| && IsLabel(code.g, t) && code.ind < WORD - 1
    requires v.Compared? ==> 0x90 <= v.op <= 0x9f
    requires v.Jumps? ==> IsLabel(code.g, v.list) && (v.list != 0 ==> v.list != t)
    modifies code
    ensures code.Valid() && IsLabel(code.g, r) && 0 <= code.ind <= |code.data|
    ensures var b, xs := old(View(code.data, code.ind, code.g)), Tests(old(code.ind), inv, t, v);
      Good(b) && Runs(b, xs) && View(code.data, code.ind, code.g) == Ran(b, xs)
  {
    hide Holds, Patched, PutWord, Opened, Closed, Joined, LittleEndian, Does, Runs, Ran;
    ghost var d, ind, g := code.data, code.ind, code.g;
    ghost var b := View(d, ind, g);
    ViewGood(d, ind, g);
    ghost var mid;
    r, mid := code.Gtst(inv, t, v);
    HoldsInd(code.data, code.ind, code.g);
    ghost var b' := View(code.data, code.ind, code.g);
    match v
    case Compared(op) =>
      TestCompared(d, ind, g, code.data, inv, t, op, code.ind, code.g);
    case Jumps(inverted, list) =>
      if inverted != inv {
        TestInverted(d, ind, g, mid, code.data, t, list, code.g);
      } else if list == 0 {
        RanNone(b);
      } else {
        AppendDoes(d, ind, g, list, t);
        RanOne(b, Append(list, t), b');
      }
    case Other => RanNone(b);
  }

  lemma TestCompared(d: seq<Byte>, ind: int, g: Labels, d': seq<Byte>, inv: bool, t: int, op: int, ind': int,
      g': Labels)
    requires Holds(d, ind, g) && 0 <= ind <= |d| && IsLabel(g, t) && ind < WORD - 1 && 0x90 <= op <= 0x9f
    requires ind' == ind + 6 <= |d'| && g' == Opened(g, ind + 2, t)
    requires d'[..ind'] == d[..ind] + [0x0f, CondByte(op, inv)] + LittleEndian(t)
    ensures var b, xs := View(d, ind, g), [Emit([0x0f]), Jump(CondByte(op, inv), t)];
      Good(b) && Runs(b, xs) && View(d', ind', g') == Ran(b, xs)
  {
    var c := CondByte(op, inv);
    assert OpBytes(c) == [c];
    hide Holds, Opened, LittleEndian, Does, Runs, Ran, CondByte, OpBytes;
    var m := d[..ind] + [0x0f];
    assert m[..ind + 1] == d[..ind] + [0x0f];
    assert m[..ind] == d[..ind];
    EmitDoes(d, ind, g, m, [0x0f]);
    EmitHolds(d, ind, g, m, ind + 1);
    assert d[..ind] + [0x0f, c] == d[..ind] + [0x0f] + [c];
    JumpDoes(m, ind + 1, g, d', c, t);
    RanTwo(View(d, ind, g), Emit([0x0f]), View(m, ind + 1, g), Jump(c, t), View(d', ind', g'));
  }

  lemma TestInverted(d: seq<Byte>, ind: int, g: Labels, mid: seq<Byte>, d': seq<Byte>, t: int, list: int, g': Labels)
    requires Holds(d, ind, g) && 0 <= ind <= |d| && IsLabel(g, t) && IsLabel(g, list) && (list != 0 ==> list != t)
    requires ind < WORD && ind + 5 <= |mid| && mid[..ind + 5] == d[..ind] + [0xe9] + LittleEndian(t)
    requires var ch := Chain(Opened(g, ind + 1, t), list);
      (forall i :: 0 <= i < |ch| ==> 0 <= ch[i] && ch[i] + 4 <= |mid|) && d' == Patched(mid, ch, ind + 5)
    requires g' == Closed(Opened(g, ind + 1, t), list, ind + 5)
    ensures var b, xs := View(d, ind, g), [Jump(0xe9, t), Patch(list, ind + 5)];
      Good(b) && Runs(b, xs) && View(d', ind + 5, g') == Ran(b, xs)
  {
    assert OpBytes(0xe9) == [0xe9];
    OpenedLabel(g, ind + 1, t, list);
    hide Holds, Opened, Closed, Patched, LittleEndian, Does, Runs, Ran, OpBytes, Chain, IsLabel;
    var g1 := Opened(g, ind + 1, t);
    JumpDoes(d, ind, g, mid, 0xe9, t);
    JumpHeld(d, ind, g, mid, t);
    PatchDoes(mid, ind + 5, g1, list, ind + 5);
    RanTwo(View(d, ind, g), Jump(0xe9, t), View(mid, ind + 5, g1), Patch(list, ind + 5), View(d', ind + 5, g'));
  }

  lemma OpenedLabel(g: Labels, s: int, t: int, list: int)
    requires IsLabel(g, list) && (list != 0 ==> list != t)
    ensures IsLabel(Opened(g, s, t), list)
  {}

  lemma JumpHeld(d: seq<Byte>, ind: int, g: Labels, mid: seq<Byte>, t: int)
    requires Holds(d, ind, g) && 0 <= ind <= |d| && IsLabel(g, t) && ind < WORD
    requires ind + 5 <= |mid| && mid[..ind + 5] == d[..ind] + [0xe9] + LittleEndian(t)
    ensures Holds(mid, ind + 5, Opened(g, ind + 1, t))
  {
    hide Holds, Opened, LittleEndian, IsLabel;
    JumpHolds(d, ind, g, [0xe9], t);
    var m := d[..ind] + [0xe9] + LittleEndian(t);
    assert m[..ind + 5] == mid[..ind + 5];
    EmitHolds(m, ind + 5, Opened(g, ind + 1, t), mid, ind + 5);
  }
}
