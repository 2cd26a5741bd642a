/**
  * The operands of an inline asm statement on i386: their constraint texts, the
  * references between them, and the order in which they get their registers.
  */
module AsmOperands {
  import opened Values

  const EAX := 0
  const ECX := 1
  const EDX := 2
  const EBX := 3
  const ESP := 4
  const EBP := 5
  const ESI := 6
  const EDI := 7
  const REGS := 8

  /**
    * An operand as parsed: its constraint text, the operand its bracketed name
    * resolves to (-1 if none), the register of an asm register variable (-1 if it
    * is not one), and whether its value is a constant, a constant without symbol,
    * or reached through a pointer kept in memory.
    */
  datatype Input = Input(text: string, named: int, regvar: int, isConst: bool, isPlainConst: bool, isIndirect: bool)

  /** What the allocator records for an operand. */
  datatype Slot = Slot(inputIndex: int, refIndex: int, priority: int, reg: int, isLlong: bool, isMemory: bool,
    isRw: bool)

  const NO_SLOT := Slot(-1, -1, 0, -1, false, false, false)

  /** Used while the inputs are live, while the outputs are, or both. */
  datatype Mask = Mask(inn: bool, out: bool)

  const BOTH := Mask(true, true)

  predicate Overlap(a: Mask, b: Mask) {
    (a.inn && b.inn) || (a.out && b.out)
  }

  function Join(a: Mask, b: Mask): Mask {
    Mask(a.inn || b.inn, a.out || b.out)
  }

  /** The character at i; the text ends in a NUL. */
  function At(s: string, i: nat): char {
    if i < |s| then s[i] else '\0'
  }

  // ---- references ----

  function SkipModifiers(s: string, i: nat): (r: nat)
    ensures r >= i
    decreases |s| - i
  {
    if i < |s| && (s[i] == '=' || s[i] == '&' || s[i] == '+' || s[i] == '%') then SkipModifiers(s, i + 1) else i
  }

  function Number(s: string, i: nat, n: nat): nat
    decreases |s| - i
  {
    if i < |s| && IsNum(s[i]) then Number(s, i + 1, n * 10 + (s[i] as int - '0' as int)) else n
  }

  /** The operand a reference means, or -1. */
  function FindConstraint(op: Input, i: nat, nb: nat): int {
    if IsNum(At(op.text, i)) then
      var k := Number(op.text, i, 0);
      if k >= nb then -1 else k
    else if -1 <= op.named < nb then op.named else -1
  }

  predicate IsReference(op: Input) {
    var c := At(op.text, SkipModifiers(op.text, 0));
    IsNum(c) || c == '['
  }

  /** The operand that operand i refers to. */
  function Target(ops: seq<Input>, i: int): int
    requires 0 <= i < |ops|
  {
    FindConstraint(ops[i], SkipModifiers(ops[i].text, 0), |ops|)
  }

  function RegvarOf(op: Input): int {
    if 0 <= op.regvar < REGS then op.regvar else -1
  }

  /** The class of one letter: the lower, the more particular. -1 for a letter nobody knows. */
  function LetterPriority(c: char): int {
    if c == 'A' then 0
    else if c == 'a' || c == 'b' || c == 'c' || c == 'd' || c == 'S' || c == 'D' then 1
    else if c == 'q' then 2
    else if c == 'r' || c == 'R' || c == 'p' then 3
    else if c == 'N' || c == 'M' || c == 'I' || c == 'e' || c == 'i' || c == 'm' || c == 'g' then 4
    else -1
  }

  /** The largest class among the letters from i on, at least p; -1 if one is unknown. */
  function Priority(s: string, i: nat, p: nat): (r: int)
    ensures r == -1 || r >= p
    decreases |s| - i
  {
    if i >= |s| || s[i] == '\0' then p
    else if LetterPriority(s[i]) == -1 then -1
    else Priority(s, i + 1, if LetterPriority(s[i]) > p then LetterPriority(s[i]) else p)
  }

  method ConstraintPriority(s: string, from: nat) returns (ok: bool, p: int)
    ensures ok ==> p == Priority(s, from, 0) && p >= 0
    ensures !ok ==> Priority(s, from, 0) == -1
  {
    ok, p := true, 0;
    var i := from;
    while ok && i < |s| && s[i] != '\0'
      invariant p >= 0 && Priority(s, from, 0) == (if ok then Priority(s, i, p) else -1)
      decreases ok, |s| - i
    {
      var pr := LetterPriority(s[i]);
      if pr == -1 {
        ok := false;
      } else {
        if pr > p { p := pr; }
        i := i + 1;
      }
    }
  }

  /** The class an operand is handled in. */
  function PriorityOf(op: Input): int {
    if IsReference(op) then 5
    else if RegvarOf(op) >= 0 then 1
    else Priority(op.text, SkipModifiers(op.text, 0), 0)
  }

  /** The reference links of the first n operands. */
  ghost predicate Linked(ops: seq<Input>, slots: seq<Slot>, n: int, nbOut: int) {
    |slots| == |ops| && 0 <= n <= |ops|
    && (forall i :: 0 <= i < n ==> slots[i].refIndex == (if IsReference(ops[i]) then Target(ops, i) else -1))
    && (forall i :: 0 <= i < n ==> -1 <= slots[i].refIndex < i && (IsReference(ops[i]) ==>
      i >= nbOut && slots[i].refIndex >= 0))
    && (forall i :: 0 <= i < n && slots[i].refIndex >= 0 ==> slots[slots[i].refIndex].inputIndex == i)
    && (forall k :: 0 <= k < |ops| && slots[k].inputIndex != -1 ==>
         k < slots[k].inputIndex < n && slots[slots[k].inputIndex].refIndex == k)
    && (forall i :: n <= i < |ops| ==> slots[i].refIndex == -1)
    && (forall i :: 0 <= i < |ops| ==> !slots[i].isMemory && !slots[i].isLlong)
    && (forall i :: 0 <= i < n ==> slots[i].reg == (if IsReference(ops[i]) then -1 else RegvarOf(ops[i])))
    && (forall i :: n <= i < |ops| ==> slots[i].reg == -1)
    && (forall i :: 0 <= i < n ==> slots[i].priority == PriorityOf(ops[i]))
  }

  /** Resolving operand i, given the slots of those before it; None is an error. */
  function ResolveStep(ops: seq<Input>, i: nat, nbOut: int, ss: seq<Slot>): (r: Option<seq<Slot>>)
    requires i < |ops| == |ss|
    ensures r.Some? ==> |r.value| == |ops|
  {
    if IsReference(ops[i]) then
      var k := Target(ops, i);
      if k < 0 || k >= i || i < nbOut || ss[k].inputIndex >= 0 then None
      else Some(ss[i := ss[i].(refIndex := k, priority := 5)][k := ss[k].(inputIndex := i)])
    else if RegvarOf(ops[i]) >= 0 then Some(ss[i := ss[i].(priority := 1, reg := RegvarOf(ops[i]))])
    else if PriorityOf(ops[i]) == -1 then None
    else Some(ss[i := ss[i].(priority := PriorityOf(ops[i]))])
  }

  /** The slots once the first n operands are resolved. */
  function Resolved(ops: seq<Input>, nbOut: int, n: nat): (r: Option<seq<Slot>>)
    requires n <= |ops|
    ensures r.Some? ==> |r.value| == |ops|
  {
    if n == 0 then Some(seq(|ops|, _ => NO_SLOT))
    else
      var r := Resolved(ops, nbOut, n - 1);
      if r.None? then None else ResolveStep(ops, n - 1, nbOut, r.value)
  }

  method ClearSlots(slots: array<Slot>)
    modifies slots
    ensures slots[..] == seq(slots.Length, _ => NO_SLOT)
  {
    var i := 0;
    while i < slots.Length
      invariant 0 <= i <= slots.Length && forall k :: 0 <= k < i ==> slots[k] == NO_SLOT
    {
      slots[i] := NO_SLOT;
      i := i + 1;
    }
  }

  method ResolveOne(ops: seq<Input>, i: nat, nbOut: nat, slots: array<Slot>) returns (ok: bool)
    requires slots.Length == |ops| && i < |ops|
    modifies slots
    ensures ok <==> ResolveStep(ops, i, nbOut, old(slots[..])).Some?
    ensures ok ==> slots[..] == ResolveStep(ops, i, nbOut, old(slots[..])).value
  {
    hide IsReference, Priority, SkipModifiers, FindConstraint;
    ok := true;
    ghost var s0 := slots[..];
    var from := SkipModifiers(ops[i].text, 0);
    if IsReference(ops[i]) {
      var k := FindConstraint(ops[i], from, |ops|);
      if k < 0 || k >= i || i < nbOut || slots[k].inputIndex >= 0 {
        ok := false;
      } else {
        slots[i] := slots[i].(refIndex := k, priority := 5);
        slots[k] := slots[k].(inputIndex := i);
        assert slots[..] == s0[i := s0[i].(refIndex := k, priority := 5)][k := s0[k].(inputIndex := i)];
      }
    } else if RegvarOf(ops[i]) >= 0 {
      slots[i] := slots[i].(priority := 1, reg := RegvarOf(ops[i]));
      assert slots[..] == s0[i := s0[i].(priority := 1, reg := RegvarOf(ops[i]))];
    } else {
      var p;
      ok, p := ConstraintPriority(ops[i].text, from);
      slots[i] := slots[i].(priority := p);
      assert slots[..] == s0[i := s0[i].(priority := p)];
    }
  }

  /** Initialises the operands, resolves references and computes priorities. */
  method ResolveReferences(ops: seq<Input>, nbOut: nat, slots: array<Slot>) returns (ok: bool)
    requires slots.Length == |ops|
    modifies slots
    ensures ok <==> Resolved(ops, nbOut, |ops|).Some?
    ensures ok ==> slots[..] == Resolved(ops, nbOut, |ops|).value
  {
    hide ResolveStep;
    ClearSlots(slots);
    ok := true;
    var i := 0;
    while ok && i < |ops|
      invariant 0 <= i <= |ops| && if ok then Resolved(ops, nbOut, i) == Some(slots[..])
        else Resolved(ops, nbOut, |ops|).None?
      decreases |ops| - i
    {
      ok := ResolveOne(ops, i, nbOut, slots);
      i := i + 1;
      if !ok { ResolvedNever(ops, nbOut, i, |ops|); }
    }
  }

  lemma {:induction false} ResolvedNever(ops: seq<Input>, nbOut: int, n: nat, m: nat)
    requires n <= m <= |ops| && Resolved(ops, nbOut, n).None?
    ensures Resolved(ops, nbOut, m).None?
    decreases m - n
  {
    hide ResolveStep;
    if n == m {
    } else {
      ResolvedNever(ops, nbOut, n, m - 1);
    }
  }

  lemma {:induction false} ResolvedLinks(ops: seq<Input>, nbOut: int, n: nat)
    requires n <= |ops| && Resolved(ops, nbOut, n).Some?
    ensures Linked(ops, Resolved(ops, nbOut, n).value, n, nbOut)
  {
    hide Linked, ResolveStep;
    if n == 0 {
      LinkedStart(ops, Resolved(ops, nbOut, 0).value, nbOut);
    } else {
      ResolvedLinks(ops, nbOut, n - 1);
      StepLinks(ops, nbOut, n - 1, Resolved(ops, nbOut, n - 1).value);
    }
  }

  lemma LinkedStart(ops: seq<Input>, s: seq<Slot>, nbOut: int)
    requires |s| == |ops| && forall k :: 0 <= k < |s| ==> s[k] == NO_SLOT
    ensures Linked(ops, s, 0, nbOut)
  {
    hide IsReference, RegvarOf, Target, PriorityOf;
  }

  lemma StepLinks(ops: seq<Input>, nbOut: int, i: nat, ss: seq<Slot>)
    requires i < |ops| && Linked(ops, ss, i, nbOut) && |ss| == |ops| && ResolveStep(ops, i, nbOut, ss).Some?
    ensures Linked(ops, ResolveStep(ops, i, nbOut, ss).value, i + 1, nbOut)
  {
    hide Linked, IsReference, Target, Priority;
    LinkedUnset(ops, ss, i, nbOut);
    if IsReference(ops[i]) {
      LinkedReference(ops, ss, i, nbOut);
    } else {
      LinkedPlain(ops, ss, i, nbOut);
    }
  }

  lemma LinkedUnset(ops: seq<Input>, s: seq<Slot>, i: int, nbOut: int)
    requires Linked(ops, s, i, nbOut) && i < |ops|
    ensures |s| == |ops| && s[i].reg == -1 && s[i].refIndex == -1
  {}

  lemma LinkedPlain(ops: seq<Input>, s: seq<Slot>, i: int, nbOut: int)
    requires Linked(ops, s, i, nbOut) && i < |ops| && !IsReference(ops[i])
    ensures Linked(ops, s[i := s[i].(priority := PriorityOf(ops[i]), reg := RegvarOf(ops[i]))], i + 1, nbOut)
  {
    hide IsReference, RegvarOf, PriorityOf, Target;
  }

  lemma LinkedReference(ops: seq<Input>, s: seq<Slot>, i: int, nbOut: int)
    requires Linked(ops, s, i, nbOut) && nbOut <= i < |ops| && IsReference(ops[i])
    requires 0 <= Target(ops, i) < i && s[Target(ops, i)].inputIndex < 0
    ensures var k := Target(ops, i);
      Linked(ops, s[i := s[i].(refIndex := k, priority := 5)][k := s[k].(inputIndex := i)], i + 1, nbOut)
  {
    hide IsReference, RegvarOf, Target;
    assert s[i].inputIndex == -1;
    assert PriorityOf(ops[i]) == 5;
    hide PriorityOf;
    var k := Target(ops, i);
    var t := s[i := s[i].(refIndex := k, priority := 5)][k := s[k].(inputIndex := i)];
    assert forall j :: 0 <= j < |s| && j != i && j != k ==> t[j] == s[j];
  }

  /** Operand i refers to an operand before it that no other refers to, or is made of known letters. */
  predicate Readable(ops: seq<Input>, nbOut: int, i: int)
    requires 0 <= i < |ops|
  {
    if IsReference(ops[i]) then
      nbOut <= i && 0 <= Target(ops, i) < i
      && forall j :: 0 <= j < i && IsReference(ops[j]) ==> Target(ops, j) != Target(ops, i)
    else PriorityOf(ops[i]) != -1
  }

  /** The operands are accepted exactly when each of them can be read. */
  lemma {:induction false} ResolvedExact(ops: seq<Input>, nbOut: int, n: nat)
    requires n <= |ops|
    ensures Resolved(ops, nbOut, n).Some? <==> forall i :: 0 <= i < n ==> Readable(ops, nbOut, i)
  {
    hide ResolveStep, Readable, Linked;
    if n == 0 {
    } else {
      ResolvedExact(ops, nbOut, n - 1);
      if Resolved(ops, nbOut, n - 1).Some? {
        ResolvedLinks(ops, nbOut, n - 1);
        StepExact(ops, nbOut, n - 1, Resolved(ops, nbOut, n - 1).value);
      }
    }
  }

  lemma StepExact(ops: seq<Input>, nbOut: int, i: nat, ss: seq<Slot>)
    requires i < |ops| && Linked(ops, ss, i, nbOut)
    ensures ResolveStep(ops, i, nbOut, ss).Some? <==> Readable(ops, nbOut, i)
  {
    hide IsReference, Target, Priority;
    if IsReference(ops[i]) && 0 <= Target(ops, i) < i {
      var k := Target(ops, i);
      if ss[k].inputIndex >= 0 {
        var j := ss[k].inputIndex;
        assert IsReference(ops[j]) && Target(ops, j) == k;
      }
      forall j | 0 <= j < i && IsReference(ops[j]) && Target(ops, j) == k ensures ss[k].inputIndex == j {
        assert ss[j].refIndex == k;
      }
    }
  }

  // ---- order ----

  /** Every operand appears, at the place its inverse says. */
  predicate IsInverse(order: seq<int>, place: seq<int>) {
    |order| == |place|
    && (forall k :: 0 <= k < |order| ==> 0 <= order[k] < |order| && place[order[k]] == k)
    && (forall j :: 0 <= j < |place| ==> 0 <= place[j] < |order| && order[place[j]] == j)
  }

  function Exchanged(o: seq<int>, i: int, j: int): (r: seq<int>)
    requires 0 <= i < |o| && 0 <= j < |o|
    ensures |r| == |o|
  {
    o[i := o[j]][j := o[i]]
  }

  lemma ExchangedIs(o: seq<int>, r: seq<int>, i: int, j: int)
    requires 0 <= i < |o| && 0 <= j < |o| && |r| == |o| && r[i] == o[j] && r[j] == o[i]
    requires forall k :: 0 <= k < |o| && k != i && k != j ==> r[k] == o[k]
    ensures r == Exchanged(o, i, j)
  {}

  predicate Indices(order: seq<int>, n: int) {
    forall k :: 0 <= k < |order| ==> 0 <= order[k] < n
  }

  /** One pass: position i is compared with those from j on and exchanged where it is worse. */
  function ExchangePass(ps: seq<int>, o: seq<int>, i: nat, j: nat): (r: seq<int>)
    requires Indices(o, |ps|) && i < |o|
    ensures |r| == |o| && Indices(r, |ps|)
    decreases |o| - j
  {
    if j >= |o| then o
    else ExchangePass(ps, if ps[o[j]] < ps[o[i]] then Exchanged(o, i, j) else o, i, j + 1)
  }

  /** The passes from position i on. */
  function ExchangeSort(ps: seq<int>, o: seq<int>, i: nat): (r: seq<int>)
    requires Indices(o, |ps|)
    ensures |r| == |o| && Indices(r, |ps|)
    decreases |o| - i
  {
    if i + 1 >= |o| then o else ExchangeSort(ps, ExchangePass(ps, o, i, i + 1), i + 1)
  }

  function Identity(n: nat): seq<int> { seq(n, k => k) }

  function Priorities(slots: seq<Slot>): seq<int> {
    seq(|slots|, k requires 0 <= k < |slots| => slots[k].priority)
  }

  /** The order in which the operands are served. */
  function OrderOf(ops: seq<Input>): (r: seq<int>)
    ensures |r| == |ops| && Indices(r, |ops|)
  {
    ExchangeSort(seq(|ops|, k requires 0 <= k < |ops| => PriorityOf(ops[k])), Identity(|ops|), 0)
  }

  /** One pass of the exchange sort: the best of the rest comes to position i. */
  method SortPass(slots: seq<Slot>, order: array<int>, i: nat)
    requires Indices(order[..], |slots|) && i < order.Length
    modifies order
    ensures order[..] == ExchangePass(Priorities(slots), old(order[..]), i, i + 1)
  {
    hide Exchanged;
    ghost var ps := Priorities(slots);
    var j := i + 1;
    while j < order.Length
      invariant i < j <= order.Length && Indices(order[..], |slots|)
      invariant ExchangePass(ps, order[..], i, j) == ExchangePass(ps, old(order[..]), i, i + 1)
    {
      ghost var o := order[..];
      assert ps[o[j]] == slots[order[j]].priority && ps[o[i]] == slots[order[i]].priority;
      if slots[order[j]].priority < slots[order[i]].priority {
        order[i], order[j] := order[j], order[i];
        ExchangedIs(o, order[..], i, j);
      }
      j := j + 1;
    }
  }

  /** Sorts the operand numbers by priority, in place. */
  method SortOperands(slots: seq<Slot>, order: array<int>)
    requires order.Length == |slots|
    modifies order
    ensures order[..] == ExchangeSort(Priorities(slots), Identity(|slots|), 0)
  {
    hide ExchangePass;
    var n := |slots|;
    var i := 0;
    while i < n
      invariant 0 <= i <= n && forall k :: 0 <= k < i ==> order[k] == k
    {
      order[i] := i;
      i := i + 1;
    }
    assert order[..] == Identity(n);
    i := 0;
    while i < n - 1
      invariant 0 <= i <= n && Indices(order[..], n)
      invariant ExchangeSort(Priorities(slots), order[..], i) == ExchangeSort(Priorities(slots), Identity(n), 0)
    {
      SortPass(slots, order, i);
      i := i + 1;
    }
  }

  // ---- the sort sorts ----

  predicate InOrder(ps: seq<int>, o: seq<int>, n: int) {
    0 <= n <= |o| && Indices(o, |ps|) && forall i, j :: 0 <= i < n && i < j < |o| ==> ps[o[i]] <= ps[o[j]]
  }

  /** Position i is no worse than those between it and j. */
  predicate BestTo(ps: seq<int>, o: seq<int>, i: int, j: int) {
    0 <= i < |o| && Indices(o, |ps|) && forall k :: i < k < j && k < |o| ==> ps[o[i]] <= ps[o[k]]
  }

  lemma ExchangeOnce(ps: seq<int>, o: seq<int>, place: seq<int>, i: int, j: int)
    requires |o| == |ps| && IsInverse(o, place) && InOrder(ps, o, i) && 0 <= i < j < |o| && BestTo(ps, o, i, j)
    requires ps[o[j]] < ps[o[i]]
    ensures |place| == |o| && 0 <= o[i] < |o| && 0 <= o[j] < |o|
    ensures var o' := Exchanged(o, i, j);
      Indices(o', |ps|) && IsInverse(o', place[o[i] := j][o[j] := i]) && InOrder(ps, o', i) && BestTo(ps, o', i, j + 1)
  {
    var o' := Exchanged(o, i, j);
    assert forall k :: 0 <= k < |o| && k != i && k != j ==> o'[k] == o[k];
  }

  lemma BestMore(ps: seq<int>, o: seq<int>, i: int, j: int)
    requires BestTo(ps, o, i, j) && i < j < |o| && ps[o[i]] <= ps[o[j]]
    ensures BestTo(ps, o, i, j + 1)
  {}

  lemma BestAll(ps: seq<int>, o: seq<int>, i: int)
    requires InOrder(ps, o, i) && BestTo(ps, o, i, |o|)
    ensures InOrder(ps, o, i + 1)
  {}

  lemma BestNone(ps: seq<int>, o: seq<int>, i: int)
    requires Indices(o, |ps|) && 0 <= i < |o|
    ensures BestTo(ps, o, i, i + 1)
  {}

  lemma {:induction false} PassSorts(ps: seq<int>, o: seq<int>, place: seq<int>, i: nat, j: nat)
      returns (place': seq<int>)
    requires Indices(o, |ps|) && |o| == |ps| && IsInverse(o, place) && InOrder(ps, o, i) && i < j <= |o|
    requires BestTo(ps, o, i, j)
    ensures InOrder(ps, ExchangePass(ps, o, i, j), i + 1) && IsInverse(ExchangePass(ps, o, i, j), place')
    decreases |o| - j
  {
    hide IsInverse, Exchanged, InOrder, BestTo;
    if j == |o| {
      BestAll(ps, o, i);
      place' := place;
    } else if ps[o[j]] < ps[o[i]] {
      ExchangeOnce(ps, o, place, i, j);
      place' := PassSorts(ps, Exchanged(o, i, j), place[o[i] := j][o[j] := i], i, j + 1);
    } else {
      BestMore(ps, o, i, j);
      place' := PassSorts(ps, o, place, i, j + 1);
    }
  }

  lemma {:induction false} SortSorts(ps: seq<int>, o: seq<int>, place: seq<int>, i: nat) returns (place': seq<int>)
    requires Indices(o, |ps|) && |o| == |ps| && IsInverse(o, place) && InOrder(ps, o, i) && i <= |o|
    ensures InOrder(ps, ExchangeSort(ps, o, i), |o|) && IsInverse(ExchangeSort(ps, o, i), place')
    decreases |o| - i
  {
    hide IsInverse, ExchangePass, InOrder, BestTo;
    if i + 1 >= |o| {
      LastInOrder(ps, o, i);
      place' := place;
    } else {
      BestNone(ps, o, i);
      var p := PassSorts(ps, o, place, i, i + 1);
      place' := SortSorts(ps, ExchangePass(ps, o, i, i + 1), p, i + 1);
    }
  }

  lemma LastInOrder(ps: seq<int>, o: seq<int>, i: int)
    requires InOrder(ps, o, i) && i + 1 >= |o|
    ensures InOrder(ps, o, |o|)
  {}

  /** A permutation of the operands by rising priority. */
  ghost predicate IsOrder(ops: seq<Input>, order: seq<int>) {
    |order| == |ops| && (exists place :: IsInverse(order, place)) && Indices(order, |ops|)
    && forall i, j :: 0 <= i < j < |order| ==> PriorityOf(ops[order[i]]) <= PriorityOf(ops[order[j]])
  }

  /** The exchange sort yields such a permutation. */
  lemma OrderSorts(ops: seq<Input>)
    ensures IsOrder(ops, OrderOf(ops))
  {
    hide PriorityOf, ExchangeSort;
    var ps := seq(|ops|, k requires 0 <= k < |ops| => PriorityOf(ops[k]));
    var o := Identity(|ops|);
    assert IsInverse(o, o) && InOrder(ps, o, 0);
    hide IsInverse;
    var place := SortSorts(ps, o, o, 0);
  }
}
