/**
  * What the registers of an inline asm statement's operands are, in terms of the
  * constraint texts alone.
  */
module AsmRegisters {
  import opened Values
  import opened AsmOperands
  import opened AsmConstraints

  /** An accepted assignment is sound. */
  lemma AssignedSound(ops: seq<Input>, nbOut: int, clobber: seq<bool>)
    requires Assigned(ops, nbOut, clobber).Some?
    ensures var r := Assigned(ops, nbOut, clobber).value; Sound(ops, r.ss, r.ms, clobber, nbOut, r.outReg)
  {
    hide Sound, Compute, IsOrder, OrderOf;
    OrderSorts(ops);
    ComputeSound(ops, nbOut, clobber, OrderOf(ops));
  }

  /** The operand reads its own constraint: it is no reference, and its value is not kept in a register already. */
  predicate Free(ops: seq<Input>, j: int) {
    0 <= j < |ops| && !IsReference(ops[j]) && RegvarOf(ops[j]) < 0
  }

  lemma OnlyAllowed(ops: seq<Input>, nbOut: int, clobber: seq<bool>, j: int, ch: char)
    requires Assigned(ops, nbOut, clobber).Some? && Free(ops, j) && OnlyLetter(ops[j].text, ch, j < nbOut)
    ensures var r := Assigned(ops, nbOut, clobber).value;
      |r.ss| == |r.ms| == |ops|
      && LetterAllows(ops[j], j < nbOut, ch, Choice(r.ms[j], r.ss[j].reg, r.ss[j].isLlong, r.ss[j].isMemory))
      && r.ss[j].reg !in {ESP, EBP}
  {
    hide Assigned, IsReference, RegvarOf, Separate, Needless, FirstMask, Early, ReadWrite;
    AssignedSound(ops, nbOut, clobber);
    var r := Assigned(ops, nbOut, clobber).value;
    var s := r.ss[j];
    assert Explained(ops[j], s, r.ms[j], j < nbOut);
    var c := Choice(r.ms[j], s.reg, s.isLlong, s.isMemory);
    var p :| ChosenAt(ops[j], j < nbOut, FirstMask(s, j < nbOut), c, s.isRw, p);
    LetterNoModifier(ops[j], j < nbOut, ops[j].text[p], c);
    hide LetterAllows;
    HeldRegister(s.reg, s.isLlong);
    if !s.isLlong && s.reg >= 0 { assert s.reg in Held(s.reg, s.isLlong) && !Banned(clobber, s.reg); }
  }

  lemma LetterNoModifier(op: Input, isOut: bool, ch: char, c: Choice)
    requires LetterAllows(op, isOut, ch, c)
    ensures !IsModifier(ch) && (c.isLlong ==> c.reg == EAX)
  {}

  /** An operand whose only letter asks for a register has that register, by its number in the machine. */
  lemma OnlyRegister(ops: seq<Input>, nbOut: int, clobber: seq<bool>, j: int, ch: char)
    requires Assigned(ops, nbOut, clobber).Some? && Free(ops, j) && OnlyLetter(ops[j].text, ch, j < nbOut)
    ensures var ss := Assigned(ops, nbOut, clobber).value.ss;
      |ss| == |ops| && var s := ss[j];
      (ch == 'a' ==> s.reg == 0) && (ch == 'c' ==> s.reg == 1) && (ch == 'd' ==> s.reg == 2)
      && (ch == 'b' ==> s.reg == 3) && (ch == 'S' ==> s.reg == 6) && (ch == 'D' ==> s.reg == 7)
      && (ch == 'A' ==> s.reg == 0) && (ch == 'q' ==> 0 <= s.reg <= 3)
      && (ch == 'r' || ch == 'R' || ch == 'p' ==> 0 <= s.reg <= 3 || 6 <= s.reg <= 7)
      && (ch in "aAbcdSDqrRp" ==> !s.isMemory && (s.isLlong <==> ch == 'A'))
  {
    hide Assigned, IsReference, RegvarOf, Needless, OnlyLetter;
    OnlyAllowed(ops, nbOut, clobber, j, ch);
  }

  // ---- who may share ----

  ghost predicate Referred(ops: seq<Input>, j: int) {
    exists q :: 0 <= q < |ops| && IsReference(ops[q]) && Target(ops, q) == j
  }

  /** The constraint begins with modifiers, and one of them is '&' or '+'. */
  predicate Marked(s: string) {
    exists q :: 0 <= q < |s| && (s[q] == '&' || s[q] == '+') && forall k :: 0 <= k < q ==> IsModifier(s[k])
  }

  /** The operand's register is in use before the statement runs. */
  ghost predicate Before(ops: seq<Input>, ss: seq<Slot>, nbOut: int, j: int)
    requires 0 <= j < |ops| == |ss|
  {
    ss[j].isMemory || j >= nbOut || Referred(ops, j) || (RegvarOf(ops[j]) < 0 && Marked(ops[j].text))
  }

  /** The operand's register is in use when the statement has run. */
  ghost predicate Afterwards(ops: seq<Input>, ss: seq<Slot>, nbOut: int, j: int)
    requires 0 <= j < |ops| == |ss|
  {
    !ss[j].isMemory && (j < nbOut || Referred(ops, j))
  }

  ghost predicate Together(ops: seq<Input>, ss: seq<Slot>, nbOut: int, j: int, k: int)
    requires 0 <= j < |ops| == |ss| && 0 <= k < |ops|
  {
    (Before(ops, ss, nbOut, j) && Before(ops, ss, nbOut, k))
    || (Afterwards(ops, ss, nbOut, j) && Afterwards(ops, ss, nbOut, k))
  }

  lemma PhaseMasks(ops: seq<Input>, ss: seq<Slot>, ms: seq<Mask>, clobber: seq<bool>, nbOut: int, outReg: int, j: int)
    requires Sound(ops, ss, ms, clobber, nbOut, outReg) && 0 <= j < |ops| && !IsReference(ops[j])
    ensures Before(ops, ss, nbOut, j) ==> ms[j].inn
    ensures Afterwards(ops, ss, nbOut, j) ==> ms[j].out
  {
    hide Separate, IsReference, Target, RegvarOf, LetterAllows, Needless;
    var s := ss[j];
    assert Explained(ops[j], s, ms[j], j < nbOut);
    if Referred(ops, j) {
      var q :| 0 <= q < |ops| && IsReference(ops[q]) && Target(ops, q) == j;
      assert IsRef(ss[q]) && s.inputIndex == q;
    }
    if RegvarOf(ops[j]) < 0 {
      var c := Choice(ms[j], s.reg, s.isLlong, s.isMemory);
      var p :| ChosenAt(ops[j], j < nbOut, FirstMask(s, j < nbOut), c, s.isRw, p);
      if Marked(ops[j].text) { MarkedEarly(ops[j], j < nbOut, c, p); }
    }
  }

  lemma MarkedEarly(op: Input, isOut: bool, c: Choice, p: int)
    requires Marked(op.text) && 0 <= p < |op.text| && LetterAllows(op, isOut, op.text[p], c)
    ensures Early(op.text, p)
  {
    var s := op.text;
    var q :| 0 <= q < |s| && (s[q] == '&' || s[q] == '+') && forall k :: 0 <= k < q ==> IsModifier(s[k]);
    assert !IsModifier(s[p]);
    assert q < p;
  }

  /** Two operands whose registers are in use together have different ones, and neither is in the other's pair. */
  lemma PhasesApart(ops: seq<Input>, nbOut: int, clobber: seq<bool>, j: int, k: int)
    requires Assigned(ops, nbOut, clobber).Some? && 0 <= j < |ops| && 0 <= k < |ops| && j != k
    requires !IsReference(ops[j]) && !IsReference(ops[k])
    ensures var ss := Assigned(ops, nbOut, clobber).value.ss;
      |ss| == |ops|
      && (Together(ops, ss, nbOut, j, k) && ss[j].reg >= 0 && ss[k].reg >= 0 ==>
        ss[j].reg != ss[k].reg && (ss[j].isLlong ==> ss[k].reg != EDX) && (ss[k].isLlong ==> ss[j].reg != EDX))
  {
    hide Assigned, IsReference, Explained, Before, Afterwards, Target;
    AssignedSound(ops, nbOut, clobber);
    var r := Assigned(ops, nbOut, clobber).value;
    PhaseMasks(ops, r.ss, r.ms, clobber, nbOut, r.outReg, j);
    PhaseMasks(ops, r.ss, r.ms, clobber, nbOut, r.outReg, k);
    PairEax(ops, r.ss, r.ms, clobber, nbOut, r.outReg, j);
    PairEax(ops, r.ss, r.ms, clobber, nbOut, r.outReg, k);
    assert Separate(r.ss[j], r.ms[j], r.ss[k], r.ms[k]);
  }

  lemma PairEax(ops: seq<Input>, ss: seq<Slot>, ms: seq<Mask>, clobber: seq<bool>, nbOut: int, outReg: int, j: int)
    requires Sound(ops, ss, ms, clobber, nbOut, outReg) && 0 <= j < |ops| && !IsReference(ops[j])
    ensures ss[j].isLlong && ss[j].reg >= 0 ==> ss[j].reg == EAX
  {
    hide Separate, IsReference, Target, RegvarOf, Needless, FirstMask;
    var s := ss[j];
    assert Explained(ops[j], s, ms[j], j < nbOut);
    if RegvarOf(ops[j]) < 0 {
      var c := Choice(ms[j], s.reg, s.isLlong, s.isMemory);
      var p :| ChosenAt(ops[j], j < nbOut, FirstMask(s, j < nbOut), c, s.isRw, p);
    }
  }

  /** Two outputs, or two inputs, that ask for the same register are refused. */
  lemma SameRegisterRefused(ops: seq<Input>, nbOut: int, clobber: seq<bool>, j: int, k: int, ch: char)
    requires Free(ops, j) && Free(ops, k) && j != k && (j < nbOut <==> k < nbOut) && ch in "abcdSDA"
    requires OnlyLetter(ops[j].text, ch, j < nbOut) && OnlyLetter(ops[k].text, ch, k < nbOut)
    ensures Assigned(ops, nbOut, clobber).None?
  {
    hide Assigned, IsReference, OnlyLetter;
    if Assigned(ops, nbOut, clobber).Some? {
      OnlyRegister(ops, nbOut, clobber, j, ch);
      OnlyRegister(ops, nbOut, clobber, k, ch);
      PhasesApart(ops, nbOut, clobber, j, k);
    }
  }

  /** An output is marked read-write exactly when its constraint says so before the letter that is met. */
  lemma ReadWriteKnown(ops: seq<Input>, nbOut: int, clobber: seq<bool>, j: int, ch: char)
    requires Assigned(ops, nbOut, clobber).Some? && Free(ops, j) && j < nbOut
    requires ops[j].text != [] && ops[j].text[0] == ch && (ch == '=' || ch == '+')
    requires forall q :: 1 <= q < |ops[j].text| ==> !IsModifier(ops[j].text[q])
    ensures var ss := Assigned(ops, nbOut, clobber).value.ss; |ss| == |ops| && (ss[j].isRw <==> ch == '+')
  {
    hide Assigned, IsReference, RegvarOf, Separate, Needless, FirstMask;
    AssignedSound(ops, nbOut, clobber);
    var r := Assigned(ops, nbOut, clobber).value;
    var s := r.ss[j];
    assert Explained(ops[j], s, r.ms[j], j < nbOut);
    var c := Choice(r.ms[j], s.reg, s.isLlong, s.isMemory);
    var p :| ChosenAt(ops[j], j < nbOut, FirstMask(s, j < nbOut), c, s.isRw, p);
    assert ops[j].text[0] == ch && p > 0;
    if ch == '=' {
      assert !ReadWrite(ops[j].text, p);
    } else {
      assert ReadWrite(ops[j].text, p);
    }
  }

  /** A register is set aside for stores through pointers exactly when an operand needs it; no output shares it. */
  lemma OutRegisterExact(ops: seq<Input>, nbOut: int, clobber: seq<bool>)
    requires Assigned(ops, nbOut, clobber).Some?
    ensures var r := Assigned(ops, nbOut, clobber).value;
      |r.ss| == |ops|
      && (r.outReg >= 0 <==> exists i :: 0 <= i < |ops| && r.ss[i].reg >= 0 && ops[i].isIndirect && !r.ss[i].isMemory)
      && (r.outReg >= 0 ==> r.outReg < 8 && !Banned(clobber, r.outReg))
      && (r.outReg >= 0 ==> forall j :: 0 <= j < |ops| && !IsReference(ops[j]) && Afterwards(ops, r.ss, nbOut, j) ==>
        r.ss[j].reg != r.outReg)
  {
    OutRegisterNeeded(ops, nbOut, clobber);
    hide Assigned, IsReference, Afterwards, Explained, Separate, Tied, Target;
    AssignedSound(ops, nbOut, clobber);
    var r := Assigned(ops, nbOut, clobber).value;
    forall j | 0 <= j < |ops| && !IsReference(ops[j]) && Afterwards(ops, r.ss, nbOut, j) && r.outReg >= 0
      ensures r.ss[j].reg != r.outReg
    {
      PhaseMasks(ops, r.ss, r.ms, clobber, nbOut, r.outReg, j);
      PairEax(ops, r.ss, r.ms, clobber, nbOut, r.outReg, j);
      HeldRegister(r.ss[j].reg, r.ss[j].isLlong);
    }
  }

  lemma OutRegisterNeeded(ops: seq<Input>, nbOut: int, clobber: seq<bool>)
    requires Assigned(ops, nbOut, clobber).Some?
    ensures var r := Assigned(ops, nbOut, clobber).value;
      |r.ss| == |ops|
      && (r.outReg >= 0 <==> exists i :: 0 <= i < |ops| && r.ss[i].reg >= 0 && ops[i].isIndirect && !r.ss[i].isMemory)
      && r.outReg >= -1
  {
    hide Resolved, AllocFirst, LowestFree, OrderOf;
    var a := AllocFirst(ops, nbOut, OrderOf(ops), |OrderOf(ops)|,
      Start(Resolved(ops, nbOut, |ops|).value, clobber)).value;
    LowestIs(a.regs, Mask(false, true), 0, 8);
    if i :| 0 <= i < |ops| && NeedsOutReg(ops[i], a.ss[i]) {
      assert a.ss[i].reg >= 0;
    } else {
      forall i | 0 <= i < |ops| ensures !(a.ss[i].reg >= 0 && ops[i].isIndirect && !a.ss[i].isMemory) {
        assert !NeedsOutReg(ops[i], a.ss[i]);
      }
    }
  }

  // ---- who is served first ----

  /** The letters, from the most particular to the least. */
  const CLASSES := ["A", "abcdSD", "q", "rRp", "NMIeimg"]

  /** Every letter of the text from i on is in one of the first n classes. */
  predicate Within(s: string, i: nat, n: nat)
    requires n <= 5
  {
    forall q :: i <= q < |s| ==> exists c :: 0 <= c < n && s[q] in CLASSES[c]
  }

  /** Some letter of the text from i on is in a later class. */
  predicate Beyond(s: string, i: nat, n: nat)
    requires n <= 5
  {
    exists q, c :: i <= q < |s| && n <= c < 5 && s[q] in CLASSES[c]
  }

  lemma ClassOf(ch: char, c: int)
    requires 0 <= c < 5 && ch in CLASSES[c]
    ensures LetterPriority(ch) == c && ch != '\0'
  {}

  /**
    * Of two operands, the one whose letters are all more particular is served first; a reference comes
    * after both.
    */
  lemma ParticularFirst(ops: seq<Input>, j: int, k: int, n: nat) returns (a: int, b: int)
    requires Free(ops, j) && Free(ops, k) && 1 <= n <= 5
    requires Within(ops[j].text, SkipModifiers(ops[j].text, 0), n)
    requires Within(ops[k].text, SkipModifiers(ops[k].text, 0), 5)
    requires Beyond(ops[k].text, SkipModifiers(ops[k].text, 0), n)
    ensures 0 <= a < b < |ops| && OrderOf(ops)[a] == j && OrderOf(ops)[b] == k
  {
    hide IsReference, RegvarOf, OrderOf, Priority, SkipModifiers, LetterPriority;
    OrderSorts(ops);
    WithinLow(ops[j].text, SkipModifiers(ops[j].text, 0), n);
    BeyondHigh(ops[k].text, SkipModifiers(ops[k].text, 0), n);
    b := OrderPlace(ops, k);
    PlacedBefore(ops, OrderOf(ops), j, b);
    a :| 0 <= a < b && OrderOf(ops)[a] == j;
  }

  lemma OrderPlace(ops: seq<Input>, k: int) returns (b: int)
    requires 0 <= k < |ops|
    ensures 0 <= b < |ops| && OrderOf(ops)[b] == k
  {
    hide PriorityOf, OrderOf;
    OrderSorts(ops);
    var place :| IsInverse(OrderOf(ops), place);
    b := place[k];
  }

  lemma WithinLow(s: string, i: nat, n: nat)
    requires n <= 5 && Within(s, i, n)
    ensures Priority(s, i, 0) <= (if n == 0 then 0 else n - 1)
  {
    hide LetterPriority, Priority;
    var m: nat := if n == 0 then 0 else n - 1;
    forall q | i <= q < |s| ensures LetterPriority(s[q]) <= m {
      var c :| 0 <= c < n && s[q] in CLASSES[c];
      ClassOf(s[q], c);
    }
    PriorityLow(s, i, 0, m);
  }

  lemma BeyondHigh(s: string, i: nat, n: nat)
    requires n <= 5 && Within(s, i, 5) && Beyond(s, i, n)
    ensures Priority(s, i, 0) >= n
  {
    hide LetterPriority, Priority;
    var q, c :| i <= q < |s| && n <= c < 5 && s[q] in CLASSES[c];
    ClassOf(s[q], c);
    forall k | i <= k < |s| ensures s[k] != '\0' && LetterPriority(s[k]) != -1 {
      var d :| 0 <= d < 5 && s[k] in CLASSES[d];
      ClassOf(s[k], d);
    }
    PriorityHigh(s, i, 0, q);
    PriorityKnown(s, i, 0);
  }

  lemma {:induction false} PriorityKnown(s: string, i: nat, p: nat)
    requires forall k :: i <= k < |s| ==> LetterPriority(s[k]) != -1
    ensures Priority(s, i, p) != -1
    decreases |s| - i
  {
    hide LetterPriority;
    if i >= |s| {
    } else {
      PriorityKnown(s, i + 1, if LetterPriority(s[i]) > p then LetterPriority(s[i]) else p);
    }
  }

  // ---- references ----

  /** A number in decimal. */
  function Decimal(n: nat): (s: string)
    ensures |s| >= 1 && forall q :: 0 <= q < |s| ==> '0' <= s[q] <= '9'
  {
    (if n < 10 then "" else Decimal(n / 10)) + [('0' as int + n % 10) as char]
  }

  lemma {:induction false} NumberJoins(s: string, t: string, i: nat, n: nat)
    requires i <= |s| && forall q :: 0 <= q < |s| ==> IsNum(s[q])
    ensures Number(s + t, i, n) == Number(s + t, |s|, Number(s, i, n))
    decreases |s| - i
  {
    if i == |s| {
    } else {
      assert (s + t)[i] == s[i];
      NumberJoins(s, t, i + 1, n * 10 + (s[i] as int - '0' as int));
    }
  }

  lemma {:induction false} DecimalReads(n: nat)
    ensures Number(Decimal(n), 0, 0) == n
  {
    var d := [('0' as int + n % 10) as char];
    if n < 10 {
      assert Decimal(n) == d && Number(d, 1, n % 10) == n % 10;
    } else {
      var s := Decimal(n / 10);
      DecimalReads(n / 10);
      NumberJoins(s, d, 0, 0);
      assert (s + d)[|s|] == d[0] && Number(s + d, |s| + 1, n) == n;
    }
  }

  lemma {:induction false} NumberDrops(s: string, t: string, i: nat, n: nat)
    requires i <= |t|
    ensures Number(s + t, |s| + i, n) == Number(t, i, n)
    decreases |t| - i
  {
    if i == |t| || !IsNum(t[i]) {
      assert i < |t| ==> (s + t)[|s| + i] == t[i];
    } else {
      assert (s + t)[|s| + i] == t[i];
      NumberDrops(s, t, i + 1, n * 10 + (t[i] as int - '0' as int));
    }
  }

  lemma {:induction false} SkipsAll(s: string, t: string, i: nat)
    requires i <= |s| && (forall q :: 0 <= q < |s| ==> IsModifier(s[q])) && t != [] && !IsModifier(t[0])
    ensures SkipModifiers(s + t, i) == |s|
    decreases |s| - i
  {
    if i == |s| {
      assert (s + t)[i] == t[0];
    } else {
      assert (s + t)[i] == s[i];
      SkipsAll(s, t, i + 1);
    }
  }

  /** The text of a number refers to the operand with that number, whatever modifiers stand before it. */
  lemma ReferenceReads(ops: seq<Input>, i: int, modifiers: string, n: nat)
    requires 0 <= i < |ops| && ops[i].text == modifiers + Decimal(n)
    requires forall q :: 0 <= q < |modifiers| ==> IsModifier(modifiers[q])
    ensures IsReference(ops[i]) && Target(ops, i) == if n < |ops| then n else -1
  {
    var d := Decimal(n);
    assert '0' <= d[0] <= '9';
    hide Decimal, Number, SkipModifiers;
    SkipsAll(modifiers, d, 0);
    NumberDrops(modifiers, d, 0, 0);
    DecimalReads(n);
    assert (modifiers + d)[|modifiers|] == d[0];
  }

  // ---- examples ----

  /** The operands of a string move, and one that leaves the choice to the compiler. */
  const MOVE := [PlainInput("r"), PlainInput("S"), PlainInput("D"), PlainInput("c")]

  lemma MoveRead()
    ensures forall i :: 0 <= i < 4 ==> !IsReference(MOVE[i]) && PriorityOf(MOVE[i]) == (if i == 0 then 3 else 1)
  {
    assert SkipModifiers("r", 0) == 0 && SkipModifiers("S", 0) == 0;
    assert SkipModifiers("D", 0) == 0 && SkipModifiers("c", 0) == 0;
  }

  lemma MoveNames(i: int, r: int)
    ensures Names(MOVE, 0, i, r) <==> (i == 1 && r == 6) || (i == 2 && r == 7) || (i == 3 && r == 1)
  {
    assert RegisterOf('S', 6) && OnlyLetter(MOVE[1].text, 'S', 1 < 0);
    assert RegisterOf('D', 7) && OnlyLetter(MOVE[2].text, 'D', 2 < 0);
    assert RegisterOf('c', 1) && OnlyLetter(MOVE[3].text, 'c', 3 < 0);
    if Names(MOVE, 0, i, r) {
      var ch :| RegisterOf(ch, r) && OnlyLetter(MOVE[i].text, ch, i < 0);
      assert MOVE[i].text[0] == ch;
    }
  }

  lemma MoveAmple()
    ensures Ample(MOVE, 0, NO_CLOBBERS)
  {
    MoveRead();
    hide IsReference, PriorityOf, Target, Names;
    forall i, r ensures Names(MOVE, 0, i, r) <==> (i == 1 && r == 6) || (i == 2 && r == 7) || (i == 3 && r == 1) {
      MoveNames(i, r);
    }
    assert Flexible(MOVE[0], false) by { assert Sure(MOVE[0], MOVE[0].text[0]); }
    assert Readable(MOVE, 0, 0) && Readable(MOVE, 0, 1) && Readable(MOVE, 0, 2) && Readable(MOVE, 0, 3);
    assert Names(MOVE, 0, 1, 6) && Names(MOVE, 0, 2, 7) && Names(MOVE, 0, 3, 1);
    hide Flexible, Readable;
    assert Plain(MOVE) == {0, 1, 2, 3};
    assert Wide(MOVE) == {};
    assert {0, 1, 2, 3} <= Usable(NO_CLOBBERS);
    SubsetSize({0, 1, 2, 3}, Usable(NO_CLOBBERS));
  }

  /** esi, edi and ecx go where they are asked for; the operand that takes any gets another, though it comes first. */
  lemma MoveAssigned()
    ensures var r := Assigned(MOVE, 0, NO_CLOBBERS);
      r.Some? && |r.value.ss| == 4 && r.value.ss[1].reg == 6 && r.value.ss[2].reg == 7 && r.value.ss[3].reg == 1
      && (r.value.ss[0].reg == 0 || r.value.ss[0].reg == 2 || r.value.ss[0].reg == 3)
  {
    MoveRead();
    hide Compute, IsReference, PriorityOf, IsOrder, OrderOf, Ample, Names;
    MoveAmple();
    OrderSorts(MOVE);
    AmpleSucceeds(MOVE, 0, NO_CLOBBERS, OrderOf(MOVE));
    OnlyRegister(MOVE, 0, NO_CLOBBERS, 0, 'r');
    OnlyRegister(MOVE, 0, NO_CLOBBERS, 1, 'S');
    OnlyRegister(MOVE, 0, NO_CLOBBERS, 2, 'D');
    OnlyRegister(MOVE, 0, NO_CLOBBERS, 3, 'c');
    PhasesApart(MOVE, 0, NO_CLOBBERS, 0, 1);
    PhasesApart(MOVE, 0, NO_CLOBBERS, 0, 2);
    PhasesApart(MOVE, 0, NO_CLOBBERS, 0, 3);
  }
}
