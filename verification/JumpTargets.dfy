/**
  * Where the emitted jumps go: the bytes of a jump are read as the processor reads
  * them, after any further code, joins and patches.
  */
module JumpTargets {
  import opened Values
  import opened JumpLists

  /** A jump or conditional jump with a 32-bit displacement starts at pc. */
  predicate IsJump(d: seq<Byte>, pc: int) {
    0 <= pc && ((pc + 5 <= |d| && d[pc] == 0xe9) || (pc + 6 <= |d| && d[pc] == 0x0f && 0x80 <= d[pc + 1] <= 0x8f))
  }

  /** The address executed after the jump at pc. */
  function Next(d: seq<Byte>, pc: int, fl: Flags): int
    requires IsJump(d, pc)
  {
    if d[pc] == 0xe9 then (pc + 5 + Word(d, pc + 1)) % WORD
    else if Taken(d[pc + 1], fl) then (pc + 6 + Word(d, pc + 2)) % WORD
    else pc + 6
  }

  predicate InSlot(slots: set<int>, k: int) {
    exists s :: s in slots && s <= k < s + 4
  }

  /** Outside the slots a byte of the code, once emitted, never changes, and new slots lie past it. */
  ghost predicate Still(b: Buffer, b': Buffer) {
    b.ind <= b'.ind && b.ind <= |b.d| && b.ind <= |b'.d|
    && forall k :: 0 <= k < b.ind && !InSlot(b.g.slots, k) ==> b'.d[k] == b.d[k] && !InSlot(b'.g.slots, k)
  }

  lemma StillStill(a: Buffer, b: Buffer, c: Buffer)
    requires Still(a, b) && Still(b, c)
    ensures Still(a, c)
  {
    hide InSlot;
  }

  lemma SlotsPast(slots: set<int>, s: int, ind: int, k: int)
    requires ind <= s && k < ind && !InSlot(slots, k)
    ensures !InSlot(slots + {s}, k)
  {}

  lemma EmitStill(b: Buffer, b': Buffer)
    requires b.ind <= b'.ind && 0 <= b.ind <= |b.d| && b.ind <= |b'.d| && b'.d[..b.ind] == b.d[..b.ind]
    requires b'.g.slots == b.g.slots || exists s :: s >= b.ind && b'.g.slots == b.g.slots + {s}
    ensures Still(b, b')
  {
    forall k | 0 <= k < b.ind && !InSlot(b.g.slots, k)
      ensures b'.d[k] == b.d[k] && !InSlot(b'.g.slots, k)
    {
      assert b'.d[k] == b'.d[..b.ind][k];
      if b'.g.slots != b.g.slots {
        var s :| s >= b.ind && b'.g.slots == b.g.slots + {s};
        SlotsPast(b.g.slots, s, b.ind, k);
      }
    }
  }

  lemma PatchStill(b: Buffer, t: int, a: int)
    requires Good(b) && Enabled(b, Patch(t, a))
    ensures Still(b, After(b, Patch(t, a)))
  {
    hide Holds, Word, PutWord, Patched;
    HoldsInd(b.d, b.ind, b.g);
    if t in b.g.live {
      ChainFits(b.d, b.ind, b.g, t);
      var ch := b.g.live[t];
      forall k | 0 <= k < b.ind && !InSlot(b.g.slots, k)
        ensures After(b, Patch(t, a)).d[k] == b.d[k]
      {
        ChainSlots(b, t);
        forall i | 0 <= i < |ch| ensures !(ch[i] <= k < ch[i] + 4) { assert ch[i] in b.g.slots; }
        PatchedOnly(b.d, ch, a, k);
      }
    }
  }

  lemma ChainSlots(b: Buffer, t: int)
    requires Good(b) && t in b.g.live
    ensures forall s :: s in b.g.live[t] ==> s in b.g.slots
  {
    hide Word, Linked, Disjoint, Covered, Bound, Placed;
    assert Threaded(b.d, b.g, t);
  }

  lemma AppendStill(b: Buffer, n: int, t: int)
    requires Good(b) && Enabled(b, Append(n, t))
    ensures Still(b, After(b, Append(n, t)))
  {
    hide Holds, Word;
    HoldsInd(b.d, b.ind, b.g);
    JoinHolds(b.d, b.ind, b.g, n, t);
    ChainSlots(b, n);
    assert Last(b.g.live[n]) in b.g.slots;
  }

  lemma StepStill(b: Buffer, x: Action)
    requires Good(b) && Enabled(b, x)
    ensures Still(b, After(b, x))
  {
    hide Holds, LittleEndian, Still, Patched, PutWord, InSlot;
    HoldsInd(b.d, b.ind, b.g);
    match x
    case Emit(bytes) => assert After(b, x).d[..b.ind] == b.d[..b.ind]; EmitStill(b, After(b, x));
    case Jump(c, t) =>
      assert After(b, x).d[..b.ind] == b.d[..b.ind];
      assert After(b, x).g.slots == b.g.slots + {b.ind + |OpBytes(c)|};
      EmitStill(b, After(b, x));
    case Patch(t, a) => PatchStill(b, t, a);
    case Append(n, t) => AppendStill(b, n, t);
  }

  /** Over every run the opcode bytes stay as they were emitted. */
  lemma {:induction false} RunStill(b: Buffer, xs: seq<Action>)
    requires Good(b) && Runs(b, xs)
    ensures Still(b, Ran(b, xs))
    decreases |xs|
  {
    if xs == [] {
      HoldsInd(b.d, b.ind, b.g);
    } else {
      hide Still;
      AfterGood(b, xs[0]);
      StepStill(b, xs[0]);
      RunStill(After(b, xs[0]), xs[1..]);
      StillStill(b, After(b, xs[0]), Ran(b, xs));
    }
  }

  // ---- jumps ----

  lemma Jumped(b: Buffer, c: nat, t: int)
    requires Good(b) && Enabled(b, Jump(c, t)) && 0 < c < 0x100
    ensures var u := After(b, Jump(c, t));
      u.ind == b.ind + 5 <= |u.d| && u.d[b.ind] == c && b.ind + 1 in u.g.slots && b.ind >= 0
  {
    assert OpBytes(c) == [c];
    hide Holds, LittleEndian, OpBytes;
    HoldsInd(b.d, b.ind, b.g);
  }

  lemma OpcodeFree(b: Buffer, c: nat, t: int)
    requires Good(b) && Enabled(b, Jump(c, t)) && 0 < c < 0x100
    ensures !InSlot(After(b, Jump(c, t)).g.slots, b.ind)
  {
    assert OpBytes(c) == [c];
    hide Holds, LittleEndian, OpBytes;
    HoldsInd(b.d, b.ind, b.g);
    assert After(b, Jump(c, t)).g.slots == b.g.slots + {b.ind + 1};
  }

  /** An unconditional jump, after anything that follows it, goes where its label was placed. */
  lemma JumpGoes(b: Buffer, t: int, xs: seq<Action>, a: int, fl: Flags)
    requires Good(b) && Runs(b, [Jump(0xe9, t)] + xs)
    requires var e := Ran(b, [Jump(0xe9, t)] + xs); b.ind + 1 in e.g.bound && e.g.bound[b.ind + 1] == a
    ensures var e := Ran(b, [Jump(0xe9, t)] + xs); IsJump(e.d, b.ind) && Next(e.d, b.ind, fl) == a % WORD
  {
    hide Holds, Word, InSlot, After;
    var x := Jump(0xe9, t);
    assert ([x] + xs)[1..] == xs;
    AfterGood(b, x);
    var u := After(b, x);
    Jumped(b, 0xe9, t);
    OpcodeFree(b, 0xe9, t);
    RunStill(u, xs);
    RunKeeps(u, xs);
    HoldsInd(b.d, b.ind, b.g);
    BoundWords(Ran(u, xs));
    SlotTarget(b.ind + 1, a);
  }

  /** The jump of a test, after anything that follows it, goes to its target exactly when the test asks for it. */
  lemma TestGoes(b: Buffer, op: int, inv: bool, t: int, xs: seq<Action>, a: int, fl: Flags)
    requires Good(b) && 0x90 <= op <= 0x9f && Runs(b, Tests(b.ind, inv, t, Compared(op)) + xs)
    requires var e := Ran(b, Tests(b.ind, inv, t, Compared(op)) + xs);
      b.ind + 2 in e.g.bound && e.g.bound[b.ind + 2] == a
    ensures var e := Ran(b, Tests(b.ind, inv, t, Compared(op)) + xs);
      IsJump(e.d, b.ind)
      && Next(e.d, b.ind, fl) == if Tested(op, fl) != inv then a % WORD else b.ind + 6
  {
    hide Holds, Word, InSlot, After, Tested, Taken;
    var c := CondByte(op, inv);
    var x, y := Emit([0x0f]), Jump(c, t);
    var all := Tests(b.ind, inv, t, Compared(op)) + xs;
    assert all[1..] == [y] + xs && all[1..][1..] == xs;
    HoldsInd(b.d, b.ind, b.g);
    AfterGood(b, x);
    var m := After(b, x);
    AfterGood(m, y);
    var u := After(m, y);
    Escaped(b);
    Jumped(m, c, t);
    OpcodeFree(m, c, t);
    StepStill(m, y);
    RunStill(u, xs);
    RunKeeps(u, xs);
    BoundWords(Ran(u, xs));
    SlotTarget(b.ind + 2, a);
  }

  lemma Escaped(b: Buffer)
    requires Good(b)
    ensures var m := After(b, Emit([0x0f]));
      m.ind == b.ind + 1 <= |m.d| && m.d[b.ind] == 0x0f && b.ind >= 0 && !InSlot(m.g.slots, b.ind)
  {
    hide Holds;
    HoldsInd(b.d, b.ind, b.g);
  }

  // ---- comparisons ----

  type Word32 = x: int | 0 <= x < WORD

  /** A word as a two's complement number. */
  function Signed(x: Word32): int {
    if x < WORD / 2 then x else x - WORD
  }

  /** The flags after comparing x with y: borrow, zero, sign and signed overflow of x - y. */
  function Compare(x: Word32, y: Word32, parity: bool): Flags {
    var d := Signed(x) - Signed(y);
    Flags(x < y, parity, x == y, Signed((x - y) % WORD) < 0, !(-WORD / 2 <= d < WORD / 2))
  }

  /** The sign flag is wrong exactly when the difference overflows. */
  lemma SignedLess(x: Word32, y: Word32)
    ensures Signed(x) < Signed(y) <==>
      (Signed((x - y) % WORD) < 0) != !(-WORD / 2 <= Signed(x) - Signed(y) < WORD / 2)
  {
    var d := Signed(x) - Signed(y);
    var e := if d < -WORD / 2 then d + WORD else if d >= WORD / 2 then d - WORD else d;
    assert (x - y) % WORD == e % WORD;
    assert Signed(e % WORD) == e;
  }

  /** What each comparison of the C source means. */
  predicate Compares(op: int, x: Word32, y: Word32) {
    match op
    case 0x92 => x < y
    case 0x93 => x >= y
    case 0x94 => x == y
    case 0x95 => x != y
    case 0x96 => x <= y
    case 0x97 => x > y
    case 0x9c => Signed(x) < Signed(y)
    case 0x9d => Signed(x) >= Signed(y)
    case 0x9e => Signed(x) <= Signed(y)
    case 0x9f => Signed(x) > Signed(y)
    case _ => false
  }

  predicate IsComparison(op: int) {
    0x92 <= op <= 0x97 || 0x9c <= op <= 0x9f
  }

  lemma ComparisonTested(op: int, x: Word32, y: Word32, parity: bool)
    requires IsComparison(op)
    ensures Tested(op, Compare(x, y, parity)) <==> Compares(op, x, y)
  {
    SignedLess(x, y);
  }

  /** Comparing two words and testing the result jumps to the label exactly when the comparison holds. */
  lemma ComparisonGoes(b: Buffer, op: int, inv: bool, t: int, xs: seq<Action>, a: int, x: Word32, y: Word32,
      parity: bool)
    requires Good(b) && IsComparison(op) && Runs(b, Tests(b.ind, inv, t, Compared(op)) + xs)
    requires var e := Ran(b, Tests(b.ind, inv, t, Compared(op)) + xs);
      b.ind + 2 in e.g.bound && e.g.bound[b.ind + 2] == a
    ensures var e := Ran(b, Tests(b.ind, inv, t, Compared(op)) + xs);
      IsJump(e.d, b.ind)
      && Next(e.d, b.ind, Compare(x, y, parity)) == if Compares(op, x, y) != inv then a % WORD else b.ind + 6
  {
    hide Holds, Compares, Compare, Tested, Next, Ran, Runs, Tests, IsJump;
    ComparisonTested(op, x, y, parity);
    TestGoes(b, op, inv, t, xs, a, Compare(x, y, parity));
  }
}
