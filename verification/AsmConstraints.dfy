/**
  * Register allocation for the operands of an inline asm statement on i386:
  * which register each operand's constraint gets, and which operands share one.
  */
module AsmConstraints {
  import opened Values
  import opened AsmOperands

  // ---- choosing a register ----

  /** What an operand gets: a register or none, and when it is in use. */
  datatype Choice = Choice(mask: Mask, reg: int, isLlong: bool, isMemory: bool)

  /** The registers a slot occupies: an 'A' operand both halves of the pair. */
  function Held(reg: int, isLlong: bool): set<int> {
    if reg < 0 then {} else if isLlong then {EAX, EDX} else {reg}
  }

  predicate IsFree(regs: seq<Mask>, r: int, m: Mask) {
    0 <= r < |regs| && !Overlap(regs[r], m)
  }

  predicate FreeChoice(regs: seq<Mask>, c: Choice) {
    (c.isLlong ==> c.reg == EAX) && forall r :: r in Held(c.reg, c.isLlong) ==> IsFree(regs, r, c.mask)
  }

  /** The letter stands for one register. */
  predicate RegisterOf(ch: char, r: int) {
    (ch == 'a' && r == EAX) || (ch == 'b' && r == EBX) || (ch == 'c' && r == ECX) || (ch == 'd' && r == EDX)
    || (ch == 'S' && r == ESI) || (ch == 'D' && r == EDI)
  }

  /** The letter admits the register, or admits having none. */
  predicate LetterAllows(op: Input, isOut: bool, ch: char, c: Choice) {
    if ch == 'A' then c.reg == EAX && c.isLlong && !c.isMemory
    else if ch in "abcdSD" then RegisterOf(ch, c.reg) && !c.isLlong && !c.isMemory
    else if ch == 'q' then c.reg in {EAX, EBX, ECX, EDX} && !c.isLlong && !c.isMemory
    else if ch in "rRp" then 0 <= c.reg < 8 && !c.isLlong && !c.isMemory
    else if ch in "eiINMmg" && Needless(op, isOut, ch) then c.reg == -1 && !c.isLlong && !c.isMemory
    else ch in "mg" && 0 <= c.reg < 8 && !c.isLlong && c.isMemory
  }

  /** The letter is met without a register: by a constant, or by a place in memory that needs no pointer loaded. */
  predicate Needless(op: Input, isOut: bool, ch: char) {
    (ch in "ei" && op.isConst) || (ch in "INM" && op.isPlainConst)
    || (ch == 'm' && !op.isIndirect) || (ch == 'g' && !(isOut && op.isIndirect))
  }

  /** Before position p a modifier asks for a register of the operand's own. */
  predicate Early(s: string, p: int) {
    exists q :: 0 <= q < p && q < |s| && (s[q] == '&' || s[q] == '+')
  }

  /** Before position p a modifier makes the output an input too. */
  predicate ReadWrite(s: string, p: int) {
    exists q :: 0 <= q < p && q < |s| && s[q] == '+'
  }

  /** The letter at p asked for this, and none before it could have done without a register. */
  ghost predicate ChosenAt(op: Input, isOut: bool, m0: Mask, c: Choice, rw: bool, p: int) {
    0 <= p < |op.text| && LetterAllows(op, isOut, op.text[p], c)
    && (forall q :: 0 <= q < p ==> !Needless(op, isOut, op.text[q]))
    && c.mask == (if c.isMemory then Mask(true, false) else if Early(op.text, p) then BOTH else m0)
    && rw == ReadWrite(op.text, p)
  }

  /** Some letter of the constraint asked for this. */
  ghost predicate Permitted(op: Input, isOut: bool, m0: Mask, c: Choice, rw: bool) {
    exists p :: ChosenAt(op, isOut, m0, c, rw, p)
  }

  /** The first free register from r on, below n. */
  function LowestFree(regs: seq<Mask>, m: Mask, r: nat, n: nat): int
    decreases n - r
  {
    if r >= n then -1 else if IsFree(regs, r, m) then r else LowestFree(regs, m, r + 1, n)
  }

  lemma {:induction false} LowestIs(regs: seq<Mask>, m: Mask, r: nat, n: nat)
    ensures var k := LowestFree(regs, m, r, n);
      if k == -1 then forall i :: r <= i < n ==> !IsFree(regs, i, m)
      else r <= k < n && IsFree(regs, k, m) && forall i :: r <= i < k ==> !IsFree(regs, i, m)
    decreases n - r
  {
    if r >= n {
    } else {
      LowestIs(regs, m, r + 1, n);
    }
  }

  method FirstFree(regs: seq<Mask>, m: Mask, n: nat) returns (r: int)
    ensures r == LowestFree(regs, m, 0, n)
  {
    r := 0;
    while r < n && !IsFree(regs, r, m)
      invariant 0 <= r <= n && LowestFree(regs, m, 0, n) == LowestFree(regs, m, r, n)
    {
      r := r + 1;
    }
    if r == n { r := -1; }
  }

  function NamedReg(ch: char): int {
    match ch
    case 'a' => EAX
    case 'b' => EBX
    case 'c' => ECX
    case 'd' => EDX
    case 'S' => ESI
    case 'D' => EDI
    case _ => -1
  }

  /** What one letter leads to: keep scanning, a choice, or an error. */
  datatype Outcome = Next(mask: Mask) | Chosen(choice: Choice) | Failed

  /** What letter ch leads to, by the table of the allocator. */
  function Letter(op: Input, ch: char, isOut: bool, mask: Mask, regs: seq<Mask>): Outcome
    requires |regs| == REGS
  {
    var none := Choice(mask, -1, false, false);
    if ch == '=' then Next(mask)
    else if ch == '+' || ch == '&' then if isOut then Next(BOTH) else Failed
    else if ch == 'A' then
      if IsFree(regs, EAX, mask) && IsFree(regs, EDX, mask) then Chosen(Choice(mask, EAX, true, false)) else Next(mask)
    else if NamedReg(ch) >= 0 then
      if IsFree(regs, NamedReg(ch), mask) then Chosen(Choice(mask, NamedReg(ch), false, false)) else Next(mask)
    else if ch == 'q' || ch == 'r' || ch == 'R' || ch == 'p' then
      var r := LowestFree(regs, mask, 0, if ch == 'q' then 4 else 8);
      if r >= 0 then Chosen(Choice(mask, r, false, false)) else Next(mask)
    else if ch == 'e' || ch == 'i' then if op.isConst then Chosen(none) else Next(mask)
    else if ch == 'I' || ch == 'N' || ch == 'M' then if op.isPlainConst then Chosen(none) else Next(mask)
    else if ch == 'm' || ch == 'g' then
      if (isOut || ch == 'm') && op.isIndirect then
        var r := LowestFree(regs, Mask(true, false), 0, 8);
        if r >= 0 then Chosen(Choice(Mask(true, false), r, false, true)) else Next(mask)
      else Chosen(none)
    else Failed
  }

  lemma LetterFree(op: Input, ch: char, isOut: bool, mask: Mask, regs: seq<Mask>)
    requires |regs| == REGS && Letter(op, ch, isOut, mask, regs).Chosen?
    ensures FreeChoice(regs, Letter(op, ch, isOut, mask, regs).choice)
  {
    LowestIs(regs, mask, 0, if ch == 'q' then 4 else 8);
    LowestIs(regs, Mask(true, false), 0, 8);
    hide LowestFree, IsFree;
  }

  lemma NamedAllowed(ch: char)
    ensures (NamedReg(ch) >= 0 <==> ch in "abcdSD") && (NamedReg(ch) >= 0 ==> RegisterOf(ch, NamedReg(ch)))
  {}

  lemma LetterAllowed(op: Input, ch: char, isOut: bool, mask: Mask, regs: seq<Mask>)
    requires |regs| == REGS && Letter(op, ch, isOut, mask, regs).Chosen?
    ensures LetterAllows(op, isOut, ch, Letter(op, ch, isOut, mask, regs).choice)
  {
    LowestIs(regs, mask, 0, if ch == 'q' then 4 else 8);
    LowestIs(regs, Mask(true, false), 0, 8);
    NamedAllowed(ch);
    hide LowestFree, IsFree, NamedReg, RegisterOf;
  }

  /** A choice is free, in use when it should be, and what the letter asks for. */
  lemma LetterSound(op: Input, ch: char, isOut: bool, mask: Mask, regs: seq<Mask>)
    requires |regs| == REGS && Letter(op, ch, isOut, mask, regs).Chosen?
    ensures var c := Letter(op, ch, isOut, mask, regs).choice;
      FreeChoice(regs, c) && c.mask == (if c.isMemory then Mask(true, false) else mask)
      && LetterAllows(op, isOut, ch, c)
  {
    hide LowestFree, FreeChoice, LetterAllows;
    LetterFree(op, ch, isOut, mask, regs);
    LetterAllowed(op, ch, isOut, mask, regs);
  }

  /** One turn of the scan at letter ch. */
  method TryLetter(op: Input, ch: char, isOut: bool, mask: Mask, regs: seq<Mask>) returns (o: Outcome)
    requires |regs| == REGS
    ensures o == Letter(op, ch, isOut, mask, regs)
  {
    hide LowestFree;
    var none := Choice(mask, -1, false, false);
    o := Next(mask);
    if ch == '=' {
    } else if ch == '+' || ch == '&' {
      if !isOut { o := Failed; } else { o := Next(BOTH); }
    } else if ch == 'A' {
      if !Overlap(regs[EAX], mask) && !Overlap(regs[EDX], mask) { o := Chosen(Choice(mask, EAX, true, false)); }
    } else if NamedReg(ch) >= 0 {
      if !Overlap(regs[NamedReg(ch)], mask) { o := Chosen(Choice(mask, NamedReg(ch), false, false)); }
    } else if ch == 'q' || ch == 'r' || ch == 'R' || ch == 'p' {
      var r := FirstFree(regs, mask, if ch == 'q' then 4 else 8);
      if r >= 0 { o := Chosen(Choice(mask, r, false, false)); }
    } else if ch == 'e' || ch == 'i' {
      if op.isConst { o := Chosen(none); }
    } else if ch == 'I' || ch == 'N' || ch == 'M' {
      if op.isPlainConst { o := Chosen(none); }
    } else if ch == 'm' || ch == 'g' {
      if (isOut || ch == 'm') && op.isIndirect {
        var r := FirstFree(regs, Mask(true, false), 8);
        if r >= 0 { o := Chosen(Choice(Mask(true, false), r, false, true)); }
      } else {
        o := Chosen(none);
      }
    } else {
      o := Failed;
    }
  }

  datatype Scanned = Scanned(choice: Choice, isRw: bool)

  /** The first letter from p on that can be met; None is an error. */
  function Scan(op: Input, p: nat, isOut: bool, mask: Mask, regs: seq<Mask>, rw: bool): Option<Scanned>
    requires |regs| == REGS
    decreases |op.text| + 1 - p
  {
    if p > |op.text| then None
    else
      var ch := At(op.text, p);
      match Letter(op, ch, isOut, mask, regs)
      case Next(m) => Scan(op, p + 1, isOut, m, regs, rw || ch == '+')
      case Chosen(c) => Some(Scanned(c, rw || ch == '+'))
      case Failed => None
  }

  lemma {:induction false} ScanSound(op: Input, p: nat, isOut: bool, m0: Mask, mask: Mask, regs: seq<Mask>, rw: bool)
    requires |regs| == REGS && Scan(op, p, isOut, mask, regs, rw).Some? && p <= |op.text|
    requires mask == (if Early(op.text, p) then BOTH else m0) && rw == ReadWrite(op.text, p)
    requires forall q :: 0 <= q < p ==> !Needless(op, isOut, op.text[q])
    ensures var r := Scan(op, p, isOut, mask, regs, rw).value;
      FreeChoice(regs, r.choice) && Permitted(op, isOut, m0, r.choice, r.isRw)
    decreases |op.text| + 1 - p
  {
    hide Letter, FreeChoice, LetterAllows, Needless, Early, ReadWrite;
    var ch := At(op.text, p);
    LetterStep(op, ch, isOut, mask, regs);
    if p < |op.text| { ModifierStep(op.text, p); }
    match Letter(op, ch, isOut, mask, regs)
    case Next(m) => ScanSound(op, p + 1, isOut, m0, m, regs, rw || ch == '+');
    case Chosen(c) =>
      LetterSound(op, ch, isOut, mask, regs);
      assert ChosenAt(op, isOut, m0, c, rw, p);
    case Failed =>
  }

  lemma ModifierStep(s: string, p: nat)
    requires p < |s|
    ensures Early(s, p + 1) <==> Early(s, p) || s[p] == '&' || s[p] == '+'
    ensures ReadWrite(s, p + 1) <==> ReadWrite(s, p) || s[p] == '+'
  {
    if s[p] == '+' { assert ReadWrite(s, p + 1); }
    if s[p] == '&' || s[p] == '+' { assert Early(s, p + 1); }
  }

  lemma LetterStep(op: Input, ch: char, isOut: bool, mask: Mask, regs: seq<Mask>)
    requires |regs| == REGS
    ensures var o := Letter(op, ch, isOut, mask, regs);
      o.Next? ==> o.mask == (if ch == '&' || ch == '+' then BOTH else mask) && !Needless(op, isOut, ch)
    ensures ch == '\0' ==> Letter(op, ch, isOut, mask, regs).Failed?
    ensures Letter(op, ch, isOut, mask, regs).Chosen? ==> ch != '+' && ch != '&'
  {
    hide LowestFree;
  }

  /** Reads the constraint letter by letter until one can be met; the end of the text is an error. */
  method ScanConstraint(op: Input, isOut: bool, mask: Mask, regs: seq<Mask>) returns (ok: bool, c: Choice, rw: bool)
    requires |regs| == REGS
    ensures ok <==> Scan(op, 0, isOut, mask, regs, false).Some?
    ensures ok ==> Scan(op, 0, isOut, mask, regs, false).value == Scanned(c, rw)
  {
    hide Letter;
    var p: nat := 0;
    var o: Outcome := Next(mask);
    rw := false;
    while o.Next?
      invariant o.Next? ==>
        p <= |op.text| && Scan(op, 0, isOut, mask, regs, false) == Scan(op, p, isOut, o.mask, regs, rw)
      invariant o.Chosen? ==> Scan(op, 0, isOut, mask, regs, false) == Some(Scanned(o.choice, rw))
      invariant o.Failed? ==> Scan(op, 0, isOut, mask, regs, false).None?
      decreases if o.Next? then |op.text| - p + 1 else 0
    {
      var ch := At(op.text, p);
      LetterStep(op, ch, isOut, o.mask, regs);
      if ch == '+' { rw := true; }
      o := TryLetter(op, ch, isOut, o.mask, regs);
      p := p + 1;
    }
    ok := o.Chosen?;
    c := if ok then o.choice else Choice(mask, -1, false, false);
  }

  // ---- allocation ----

  predicate IsRef(s: Slot) { s.refIndex >= 0 }

  /** The registers no operand may have: the clobbered ones, esp and ebp. */
  predicate Banned(clobber: seq<bool>, r: int) {
    r == ESP || r == EBP || (0 <= r < |clobber| && clobber[r])
  }

  predicate Within(a: Mask, b: Mask) {
    (a.inn ==> b.inn) && (a.out ==> b.out)
  }

  ghost predicate Holds(s: Slot, m: Mask, regs: seq<Mask>, clobber: seq<bool>) {
    forall r :: r in Held(s.reg, s.isLlong) ==> 0 <= r < |regs| && Within(m, regs[r]) && !Banned(clobber, r)
  }

  /** No register serves two operands at the same time. */
  ghost predicate Separate(s: Slot, m: Mask, s': Slot, m': Mask) {
    Overlap(m, m') ==> Held(s.reg, s.isLlong) !! Held(s'.reg, s'.isLlong)
  }

  /** A referring operand has what the operand it refers to got, unless that one only refers as well. */
  predicate Tied(ss: seq<Slot>, q: int)
    requires 0 <= q < |ss|
  {
    var k := ss[q].refIndex;
    0 <= k < |ss| ==>
      if IsRef(ss[k]) then ss[q].reg == -1
      else ss[q].reg == ss[k].reg && (ss[k].reg >= 0 ==> ss[q].isLlong == ss[k].isLlong)
  }

  ghost predicate Reserved(regs: seq<Mask>, clobber: seq<bool>) {
    |regs| == REGS && forall r :: 0 <= r < REGS && Banned(clobber, r) ==> regs[r] == BOTH
  }

  /** The allocation so far: done says which operands have been handled. */
  ghost predicate Settled(ss: seq<Slot>, ms: seq<Mask>, done: set<int>, regs: seq<Mask>, clobber: seq<bool>) {
    |ms| == |ss| && Reserved(regs, clobber)
    && (forall j :: j in done ==> 0 <= j < |ss| && !IsRef(ss[j]) && Holds(ss[j], ms[j], regs, clobber))
    && (forall j, k :: j in done && k in done && j != k ==> Separate(ss[j], ms[j], ss[k], ms[k]))
  }

  /** References point back to an earlier operand, which points forward to its reference. */
  ghost predicate Links(ss: seq<Slot>) {
    (forall q :: 0 <= q < |ss| && IsRef(ss[q]) ==> ss[q].refIndex < q && ss[ss[q].refIndex].inputIndex == q)
    && (forall k :: 0 <= k < |ss| && ss[k].inputIndex != -1 ==>
      k < ss[k].inputIndex < |ss| && ss[ss[k].inputIndex].refIndex == k)
  }

  /** Operands not handled yet have at most the register of their variable. */
  ghost predicate Preset(ops: seq<Input>, ss: seq<Slot>, done: set<int>) {
    |ss| == |ops| && forall j :: 0 <= j < |ss| && !IsRef(ss[j]) && j !in done ==> ss[j].reg == RegvarOf(ops[j])
  }

  /** References have been served if the operand they refer to has been handled. */
  ghost predicate Served(ss: seq<Slot>, done: set<int>) {
    forall q :: 0 <= q < |ss| && IsRef(ss[q]) ==> if ss[q].refIndex in done then Tied(ss, q) else ss[q].reg == -1
  }

  ghost predicate Pending(ops: seq<Input>, ss: seq<Slot>, done: set<int>) {
    Links(ss) && Preset(ops, ss, done) && Served(ss, done) && forall j :: j in done ==> 0 <= j < |ss| && !IsRef(ss[j])
  }

  function Reserve(regs: seq<Mask>, held: set<int>, m: Mask): (r: seq<Mask>)
    ensures |r| == |regs|
  {
    seq(|regs|, r requires 0 <= r < |regs| => if r in held then Join(regs[r], m) else regs[r])
  }

  /** Giving operand j a free choice keeps everyone apart. */
  lemma SettleOne(ss: seq<Slot>, ms: seq<Mask>, done: set<int>, regs: seq<Mask>, clobber: seq<bool>, j: int, c: Choice,
      rw: bool)
    requires Settled(ss, ms, done, regs, clobber) && 0 <= j < |ss| && j !in done && !IsRef(ss[j]) && FreeChoice(regs, c)
    requires c.mask.inn || c.mask.out
    ensures var ss' := ss[j := ss[j].(reg := c.reg, isLlong := c.isLlong, isMemory := c.isMemory, isRw := rw)];
      Settled(ss', ms[j := c.mask], done + {j}, Reserve(regs, Held(c.reg, c.isLlong), c.mask), clobber)
  {
    var h := Held(c.reg, c.isLlong);
    var ss' := ss[j := ss[j].(reg := c.reg, isLlong := c.isLlong, isMemory := c.isMemory, isRw := rw)];
    var ms', regs' := ms[j := c.mask], Reserve(regs, h, c.mask);
    forall k | k in done + {j} ensures Holds(ss'[k], ms'[k], regs', clobber) {
      if k != j { assert Holds(ss[k], ms[k], regs, clobber); }
    }
    forall k | k in done ensures Separate(ss'[k], ms'[k], ss'[j], c.mask) && Separate(ss'[j], c.mask, ss'[k], ms'[k]) {
      assert Holds(ss[k], ms[k], regs, clobber);
    }
  }

  /** Copying the choice to the operand that refers to j changes nothing for the others. */
  lemma SettleTied(ss: seq<Slot>, ms: seq<Mask>, done: set<int>, regs: seq<Mask>, clobber: seq<bool>, q: int, reg: int,
      llong: bool)
    requires Settled(ss, ms, done, regs, clobber) && 0 <= q < |ss| && IsRef(ss[q])
    ensures Settled(ss[q := ss[q].(reg := reg, isLlong := llong)], ms, done, regs, clobber)
  {
    var ss' := ss[q := ss[q].(reg := reg, isLlong := llong)];
    forall k | k in done ensures ss'[k] == ss[k] {}
    forall k | k in done ensures Holds(ss'[k], ms[k], regs, clobber) { assert Holds(ss[k], ms[k], regs, clobber); }
    forall k, l | k in done && l in done && k != l ensures Separate(ss'[k], ms[k], ss'[l], ms[l]) {
      assert Separate(ss[k], ms[k], ss[l], ms[l]);
    }
  }

  function Given(ss: seq<Slot>, j: int, c: Choice, rw: bool): seq<Slot>
    requires 0 <= j < |ss|
  {
    ss[j := ss[j].(reg := c.reg, isLlong := c.isLlong, isMemory := c.isMemory, isRw := rw)]
  }

  /** Operand j has its choice, and so has the operand that refers to it. */
  function Passed(ss: seq<Slot>, j: int, c: Choice, rw: bool): seq<Slot>
    requires 0 <= j < |ss|
  {
    var t := Given(ss, j, c, rw);
    var q := ss[j].inputIndex;
    if 0 <= q < |ss| then t[q := t[q].(reg := c.reg, isLlong := c.isLlong)] else t
  }

  lemma PendingOne(ops: seq<Input>, ss: seq<Slot>, done: set<int>, j: int, c: Choice, rw: bool)
    requires Pending(ops, ss, done) && 0 <= j < |ss| && j !in done && !IsRef(ss[j])
    ensures Pending(ops, Passed(ss, j, c, rw), done + {j})
  {
    var t := Passed(ss, j, c, rw);
    PassedLinks(ss, j, c, rw);
    hide Links;
    PassedServed(ss, done, j, c, rw);
    hide Served, RegvarOf;
    forall k | 0 <= k < |ss| && !IsRef(t[k]) && k !in done + {j} ensures t[k].reg == ss[k].reg {
      if k == ss[j].inputIndex { LinkBack(ss, j); }
    }
  }

  lemma LinkBack(ss: seq<Slot>, j: int)
    requires Links(ss) && 0 <= j < |ss| && ss[j].inputIndex != -1
    ensures j < ss[j].inputIndex < |ss| && ss[ss[j].inputIndex].refIndex == j
  {}

  predicate SameLinks(s: Slot, t: Slot) {
    t.refIndex == s.refIndex && t.inputIndex == s.inputIndex
  }

  lemma KeepsLinks(ss: seq<Slot>, ts: seq<Slot>)
    requires Links(ss) && |ts| == |ss| && forall k :: 0 <= k < |ss| ==> SameLinks(ss[k], ts[k])
    ensures Links(ts)
  {
    forall q | 0 <= q < |ts| && IsRef(ts[q]) ensures ts[q].refIndex < q && ts[ts[q].refIndex].inputIndex == q {
      assert SameLinks(ss[q], ts[q]) && IsRef(ss[q]) && SameLinks(ss[ss[q].refIndex], ts[ss[q].refIndex]);
    }
    forall k | 0 <= k < |ts| && ts[k].inputIndex != -1
      ensures k < ts[k].inputIndex < |ts| && ts[ts[k].inputIndex].refIndex == k
    {
      assert SameLinks(ss[k], ts[k]) && SameLinks(ss[ss[k].inputIndex], ts[ss[k].inputIndex]);
    }
  }

  /** Only the outcome fields change. */
  lemma PassedLinks(ss: seq<Slot>, j: int, c: Choice, rw: bool)
    requires Links(ss) && 0 <= j < |ss|
    ensures |Passed(ss, j, c, rw)| == |ss| && Links(Passed(ss, j, c, rw))
    ensures forall k :: 0 <= k < |ss| ==> SameLinks(ss[k], Passed(ss, j, c, rw)[k])
  {
    PassedSame(ss, j, c, rw);
    hide Links, Passed, SameLinks;
    KeepsLinks(ss, Passed(ss, j, c, rw));
  }

  lemma PassedSame(ss: seq<Slot>, j: int, c: Choice, rw: bool)
    requires 0 <= j < |ss|
    ensures |Passed(ss, j, c, rw)| == |ss| && forall k :: 0 <= k < |ss| ==> SameLinks(ss[k], Passed(ss, j, c, rw)[k])
  {}

  lemma PassedServed(ss: seq<Slot>, done: set<int>, j: int, c: Choice, rw: bool)
    requires Links(ss) && Served(ss, done) && 0 <= j < |ss| && j !in done && !IsRef(ss[j])
    requires forall k :: k in done ==> 0 <= k < |ss| && !IsRef(ss[k])
    ensures Served(Passed(ss, j, c, rw), done + {j})
  {
    PassedLinks(ss, j, c, rw);
    var t := Passed(ss, j, c, rw);
    forall q | 0 <= q < |t| && IsRef(t[q])
      ensures if t[q].refIndex in done + {j} then Tied(t, q) else t[q].reg == -1
    {
      var k := ss[q].refIndex;
      assert ss[k].inputIndex == q;
      if k != j { assert t[q] == ss[q]; }
      if k in done { assert Tied(ss, q) && t[k] == ss[k]; }
    }
  }

  lemma PassedSettles(ops: seq<Input>, ss: seq<Slot>, ms: seq<Mask>, done: set<int>, regs: seq<Mask>,
      clobber: seq<bool>, j: int, c: Choice, rw: bool)
    requires Settled(ss, ms, done, regs, clobber) && Pending(ops, ss, done) && 0 <= j < |ss| && j !in done
      && !IsRef(ss[j])
    requires FreeChoice(regs, c) && (c.mask.inn || c.mask.out)
    ensures Settled(Passed(ss, j, c, rw), ms[j := c.mask], done + {j}, Reserve(regs, Held(c.reg, c.isLlong), c.mask),
      clobber)
    ensures Pending(ops, Passed(ss, j, c, rw), done + {j})
  {
    SettleOne(ss, ms, done, regs, clobber, j, c, rw);
    PendingOne(ops, ss, done, j, c, rw);
    var q := ss[j].inputIndex;
    if 0 <= q < |ss| {
      LinkBack(ss, j);
      hide Settled, Pending, FreeChoice;
      SettleTied(Given(ss, j, c, rw), ms[j := c.mask], done + {j}, Reserve(regs, Held(c.reg, c.isLlong), c.mask),
        clobber, q, c.reg, c.isLlong);
    }
  }

  /** When the operand's register is in use, before its own modifiers. */
  function FirstMask(s: Slot, isOut: bool): Mask {
    if s.inputIndex >= 0 then BOTH else if isOut then Mask(false, true) else Mask(true, false)
  }

  /** What operand j gets, given the registers in use. */
  function ChoiceFor(op: Input, s: Slot, isOut: bool, regs: seq<Mask>): Option<Scanned>
    requires |regs| == REGS
  {
    var mask := FirstMask(s, isOut);
    if s.reg < 0 then Scan(op, 0, isOut, mask, regs, false)
    else if IsFree(regs, s.reg, mask) then Some(Scanned(Choice(mask, s.reg, false, false), false))
    else None
  }

  /** The operands, when each one's register is in use, and the registers in use. */
  datatype Allocation = Allocation(ss: seq<Slot>, ms: seq<Mask>, regs: seq<Mask>)

  predicate IsAllocation(ops: seq<Input>, a: Allocation) {
    |a.ss| == |a.ms| == |ops| && |a.regs| == REGS
  }

  /** Serving operand j; None is an error. */
  function AllocStep(ops: seq<Input>, nbOut: int, j: int, a: Allocation): (r: Option<Allocation>)
    requires IsAllocation(ops, a) && 0 <= j < |ops|
    ensures r.Some? ==> IsAllocation(ops, r.value)
  {
    if IsRef(a.ss[j]) then Some(a)
    else
      var r := ChoiceFor(ops[j], a.ss[j], j < nbOut, a.regs);
      if r.None? then None
      else
        var c := r.value.choice;
        Some(Allocation(Passed(a.ss, j, c, r.value.isRw), a.ms[j := c.mask],
          Reserve(a.regs, Held(c.reg, c.isLlong), c.mask)))
  }

  /** Serving the first n operands of the order. */
  function AllocFirst(ops: seq<Input>, nbOut: int, order: seq<int>, n: nat, a: Allocation): (r: Option<Allocation>)
    requires IsAllocation(ops, a) && Indices(order, |ops|) && n <= |order|
    ensures r.Some? ==> IsAllocation(ops, r.value)
  {
    if n == 0 then Some(a)
    else
      var r := AllocFirst(ops, nbOut, order, n - 1, a);
      if r.None? then None else AllocStep(ops, nbOut, order[n - 1], r.value)
  }

  /** Handles one operand that is not a reference. */
  method AllocateOne(ops: seq<Input>, j: int, isOut: bool, slots: array<Slot>, regs: seq<Mask>)
    returns (ok: bool, regs': seq<Mask>, ghost c: Choice, ghost rw: bool)
    requires slots.Length == |ops| && 0 <= j < |ops| && |regs| == REGS
    requires slots[j].inputIndex == -1 || j < slots[j].inputIndex < |ops|
    modifies slots
    ensures |regs'| == REGS && (ok <==> ChoiceFor(ops[j], old(slots[j]), isOut, regs).Some?)
    ensures ok ==> ChoiceFor(ops[j], old(slots[j]), isOut, regs).value == Scanned(c, rw)
    ensures ok ==>
      slots[..] == Passed(old(slots[..]), j, c, rw) && regs' == Reserve(regs, Held(c.reg, c.isLlong), c.mask)
  {
    hide Scan, Passed, Reserve;
    ghost var s0 := slots[..];
    var mask := FirstMask(slots[j], isOut);
    var ch, isRw := Choice(mask, slots[j].reg, false, false), false;
    if slots[j].reg >= 0 {
      ok := slots[j].reg < REGS && !Overlap(regs[slots[j].reg], mask);
    } else {
      ok, ch, isRw := ScanConstraint(ops[j], isOut, mask, regs);
    }
    c, rw := ch, isRw;
    regs' := regs;
    if ok {
      regs' := Reserve(regs, Held(ch.reg, ch.isLlong), ch.mask);
      var q := slots[j].inputIndex;
      slots[j] := slots[j].(reg := ch.reg, isLlong := ch.isLlong, isMemory := ch.isMemory, isRw := isRw);
      if q >= 0 {
        slots[q] := slots[q].(reg := ch.reg, isLlong := ch.isLlong);
      }
      PassedIs(s0, j, c, rw, slots[..]);
    }
  }

  lemma PassedIs(ss: seq<Slot>, j: int, c: Choice, rw: bool, t: seq<Slot>)
    requires 0 <= j < |ss| == |t| && (ss[j].inputIndex == -1 || j < ss[j].inputIndex < |ss|)
    requires t[j] == ss[j].(reg := c.reg, isLlong := c.isLlong, isMemory := c.isMemory, isRw := rw)
    requires forall k :: 0 <= k < |ss| && k != j && k != ss[j].inputIndex ==> t[k] == ss[k]
    requires ss[j].inputIndex >= 0 ==> t[ss[j].inputIndex] == ss[ss[j].inputIndex].(reg := c.reg, isLlong := c.isLlong)
    ensures t == Passed(ss, j, c, rw)
  {}

  /** Handles the operands in order of priority. */
  method Allocate(ops: seq<Input>, nbOut: nat, slots: array<Slot>, order: seq<int>, regs0: seq<Mask>)
    returns (ok: bool, regs: seq<Mask>, ghost ms: seq<Mask>)
    requires slots.Length == |ops| && Indices(order, |ops|) && |regs0| == REGS && Links(slots[..])
    modifies slots
    ensures var a := Allocation(old(slots[..]), seq(|ops|, _ => BOTH), regs0);
      if ok then AllocFirst(ops, nbOut, order, |order|, a) == Some(Allocation(slots[..], ms, regs))
      else AllocFirst(ops, nbOut, order, |order|, a).None?
  {
    hide Links, Passed, Reserve, ChoiceFor;
    ok, regs, ms := true, regs0, seq(|ops|, _ => BOTH);
    ghost var a := Allocation(slots[..], ms, regs);
    var i := 0;
    while ok && i < |order|
      invariant 0 <= i <= |order| && |regs| == REGS && |ms| == |ops|
      invariant if ok then AllocFirst(ops, nbOut, order, i, a) == Some(Allocation(slots[..], ms, regs))
        && Links(slots[..])
        else AllocFirst(ops, nbOut, order, |order|, a).None?
      decreases |order| - i
    {
      var j := order[i];
      if !IsRef(slots[j]) {
        ghost var s0 := slots[..];
        ghost var c, rw;
        LinkAhead(s0, j);
        ok, regs, c, rw := AllocateOne(ops, j, j < nbOut, slots, regs);
        ms := ms[j := c.mask];
        if ok { PassedLinks(s0, j, c, rw); } else { AllocNever(ops, nbOut, order, i + 1, |order|, a); }
      }
      i := i + 1;
    }
  }

  lemma LinkAhead(ss: seq<Slot>, j: int)
    requires Links(ss) && 0 <= j < |ss|
    ensures ss[j].inputIndex == -1 || j < ss[j].inputIndex < |ss|
  {}

  lemma {:induction false} AllocNever(ops: seq<Input>, nbOut: int, order: seq<int>, n: nat, m: nat, a: Allocation)
    requires IsAllocation(ops, a) && Indices(order, |ops|) && n <= m <= |order|
      && AllocFirst(ops, nbOut, order, n, a).None?
    ensures AllocFirst(ops, nbOut, order, m, a).None?
    decreases m - n
  {
    hide AllocStep;
    if n == m {
    } else {
      AllocNever(ops, nbOut, order, n, m - 1, a);
    }
  }

  // ---- the whole computation ----

  function InitialRegs(clobber: seq<bool>): (r: seq<Mask>)
    ensures |r| == REGS
  {
    seq(REGS, r => if Banned(clobber, r) then BOTH else Mask(false, false))
  }

  /** Every register starts free, but for those nobody may have. */
  method InitRegs(clobber: seq<bool>) returns (regs: seq<Mask>)
    requires |clobber| == REGS
    ensures regs == InitialRegs(clobber)
  {
    regs := [];
    while |regs| < REGS
      invariant |regs| <= REGS && forall r :: 0 <= r < |regs| ==>
        regs[r] == if clobber[r] then BOTH else Mask(false, false)
      decreases REGS - |regs|
    {
      regs := regs + [if clobber[|regs|] then BOTH else Mask(false, false)];
    }
    regs := regs[ESP := BOTH];
    regs := regs[EBP := BOTH];
  }

  predicate NeedsOutReg(op: Input, s: Slot) {
    s.reg >= 0 && op.isIndirect && !s.isMemory
  }

  /** The register for storing outputs through pointers: -1 if no operand needs one, None if none is free. */
  ghost function OutRegOf(ops: seq<Input>, ss: seq<Slot>, regs: seq<Mask>): Option<int>
    requires |ss| == |ops|
  {
    if forall i :: 0 <= i < |ops| ==> !NeedsOutReg(ops[i], ss[i]) then Some(-1)
    else
      var r := LowestFree(regs, Mask(false, true), 0, 8);
      if r < 0 then None else Some(r)
  }

  method FindOutReg(ops: seq<Input>, ss: seq<Slot>, regs: seq<Mask>) returns (ok: bool, r: int)
    requires |ss| == |ops|
    ensures if ok then OutRegOf(ops, ss, regs) == Some(r) else OutRegOf(ops, ss, regs).None?
  {
    hide LowestFree, NeedsOutReg;
    ok, r := true, -1;
    var i := 0;
    while i < |ops| && !NeedsOutReg(ops[i], ss[i])
      invariant 0 <= i <= |ops| && forall k :: 0 <= k < i ==> !NeedsOutReg(ops[k], ss[k])
    {
      i := i + 1;
    }
    if i < |ops| {
      r := FirstFree(regs, Mask(false, true), 8);
      ok := r >= 0;
    }
  }

  /** The operands' slots, when their registers are in use, and the register for outputs. */
  datatype Assignment = Assignment(ss: seq<Slot>, ms: seq<Mask>, outReg: int)

  function Start(ss: seq<Slot>, clobber: seq<bool>): Allocation {
    Allocation(ss, seq(|ss|, _ => BOTH), InitialRegs(clobber))
  }

  /** The whole computation, given the order of the operands; None is a compile error. */
  ghost function Compute(ops: seq<Input>, nbOut: int, clobber: seq<bool>, order: seq<int>): Option<Assignment>
    requires Indices(order, |ops|)
  {
    var r := Resolved(ops, nbOut, |ops|);
    if r.None? then None
    else
      var a := AllocFirst(ops, nbOut, order, |order|, Start(r.value, clobber));
      if a.None? then None
      else
        var o := OutRegOf(ops, a.value.ss, a.value.regs);
        if o.None? then None else Some(Assignment(a.value.ss, a.value.ms, o.value))
  }

  /** What the compiler computes: the operands are served in the order the sort gives. */
  ghost function Assigned(ops: seq<Input>, nbOut: int, clobber: seq<bool>): Option<Assignment> {
    Compute(ops, nbOut, clobber, OrderOf(ops))
  }

  /** Gives every operand its register; returns false where the compiler reports an error. */
  method ComputeConstraints(ops: seq<Input>, nbOut: nat, clobber: seq<bool>, slots: array<Slot>)
    returns (ok: bool, outReg: int, ghost ms: seq<Mask>)
    requires slots.Length == |ops| && |clobber| == REGS
    modifies slots
    ensures if ok then Assigned(ops, nbOut, clobber) == Some(Assignment(slots[..], ms, outReg))
      else Assigned(ops, nbOut, clobber).None?
    ensures ok ==> Readables(ops, nbOut) && Sound(ops, slots[..], ms, clobber, nbOut, outReg)
    ensures Ample(ops, nbOut, clobber) ==> ok
  {
    hide Linked, Resolved, AllocFirst, OutRegOf, Sound, IsOrder, InitialRegs, Links, Readables, Ample, OrderOf;
    outReg, ms := -1, [];
    ghost var order := OrderOf(ops);
    OrderSorts(ops);
    ok := ResolveReferences(ops, nbOut, slots);
    ReadExact(ops, nbOut);
    if ok {
      ghost var ss := slots[..];
      ResolvedLinks(ops, nbOut, |ops|);
      LinkedPending(ops, ss, nbOut);
      var sorted := new int[|ops|];
      SortOperands(slots[..], sorted);
      SortedIs(ops, ss, nbOut);
      assert sorted[..] == order;
      var regs := InitRegs(clobber);
      ok, regs, ms := Allocate(ops, nbOut, slots, sorted[..], regs);
      if ok {
        ok, outReg := FindOutReg(ops, slots[..], regs);
      }
      if ok { ComputeSound(ops, nbOut, clobber, order); }
    }
    if Ample(ops, nbOut, clobber) { AmpleSucceeds(ops, nbOut, clobber, order); }
  }

  lemma SortedIs(ops: seq<Input>, ss: seq<Slot>, nbOut: int)
    requires Linked(ops, ss, |ops|, nbOut) && |ss| == |ops|
    ensures Indices(Identity(|ss|), |Priorities(ss)|)
    ensures ExchangeSort(Priorities(ss), Identity(|ss|), 0) == OrderOf(ops)
  {
    hide ExchangeSort, PriorityOf, IsReference, RegvarOf, Target;
    assert Priorities(ss) == seq(|ops|, k requires 0 <= k < |ops| => PriorityOf(ops[k]));
  }

  ghost predicate Readables(ops: seq<Input>, nbOut: int) {
    forall i :: 0 <= i < |ops| ==> Readable(ops, nbOut, i)
  }

  lemma ReadExact(ops: seq<Input>, nbOut: int)
    ensures Resolved(ops, nbOut, |ops|).Some? <==> Readables(ops, nbOut)
  {
    ResolvedExact(ops, nbOut, |ops|);
  }

  // ---- soundness ----

  /** The operand has its variable's register, or what a letter of its constraint asks for. */
  ghost predicate Explained(op: Input, s: Slot, m: Mask, isOut: bool) {
    var c := Choice(m, s.reg, s.isLlong, s.isMemory);
    var phase := FirstMask(s, isOut);
    if RegvarOf(op) >= 0 then s.reg == RegvarOf(op) && !s.isLlong && !s.isMemory && m == phase && !s.isRw
    else Permitted(op, isOut, phase, c, s.isRw)
  }

  ghost predicate AllExplained(ops: seq<Input>, ss: seq<Slot>, ms: seq<Mask>, done: set<int>, nbOut: int) {
    |ss| == |ops| == |ms| && forall j :: j in done ==> 0 <= j < |ss| && Explained(ops[j], ss[j], ms[j], j < nbOut)
  }

  lemma ExplainedStep(ops: seq<Input>, ss: seq<Slot>, ms: seq<Mask>, done: set<int>, nbOut: int, j: int, c: Choice,
      rw: bool)
    requires AllExplained(ops, ss, ms, done, nbOut) && Pending(ops, ss, done) && 0 <= j < |ss| && j !in done
      && !IsRef(ss[j])
    requires var phase := FirstMask(ss[j], j < nbOut);
      if ss[j].reg >= 0 then c == Choice(phase, ss[j].reg, false, false) && !rw
      else Permitted(ops[j], j < nbOut, phase, c, rw)
    ensures AllExplained(ops, Passed(ss, j, c, rw), ms[j := c.mask], done + {j}, nbOut)
  {
    hide Permitted, Served;
    var t := Passed(ss, j, c, rw);
    if ss[j].inputIndex != -1 { LinkBack(ss, j); }
    forall k | k in done ensures t[k] == ss[k] {}
    assert Explained(ops[j], t[j], c.mask, j < nbOut);
  }

  lemma ChoiceSound(op: Input, s: Slot, isOut: bool, regs: seq<Mask>)
    requires |regs| == REGS && ChoiceFor(op, s, isOut, regs).Some?
    ensures var r, phase := ChoiceFor(op, s, isOut, regs).value, FirstMask(s, isOut);
      FreeChoice(regs, r.choice) && (r.choice.mask.inn || r.choice.mask.out)
      && if s.reg >= 0 then r == Scanned(Choice(phase, s.reg, false, false), false)
        else Permitted(op, isOut, phase, r.choice, r.isRw)
  {
    hide Scan;
    if s.reg < 0 {
      ScanSound(op, 0, isOut, FirstMask(s, isOut), FirstMask(s, isOut), regs, false);
      var r := ChoiceFor(op, s, isOut, regs).value;
      var p :| ChosenAt(op, isOut, FirstMask(s, isOut), r.choice, r.isRw, p);
    }
  }

  /** The operands served among the first n of the order. */
  ghost function Done(ss: seq<Slot>, order: seq<int>, n: int): set<int>
    requires Indices(order, |ss|) && 0 <= n <= |order|
  {
    set k | 0 <= k < n && !IsRef(ss[order[k]]) :: order[k]
  }

  lemma DoneStep(ss: seq<Slot>, order: seq<int>, place: seq<int>, n: int)
    requires |order| == |ss| && IsInverse(order, place) && Indices(order, |ss|) && 0 <= n < |order|
    ensures order[n] !in Done(ss, order, n)
    ensures Done(ss, order, n + 1) == if IsRef(ss[order[n]]) then Done(ss, order, n)
      else Done(ss, order, n) + {order[n]}
  {
    forall k | 0 <= k < n ensures order[k] != order[n] {
      assert place[order[k]] == k && place[order[n]] == n;
    }
  }

  /** What holds of an allocation in progress. */
  ghost predicate Kept(ops: seq<Input>, ss0: seq<Slot>, nbOut: int, clobber: seq<bool>, a: Allocation, done: set<int>) {
    IsAllocation(ops, a) && Settled(a.ss, a.ms, done, a.regs, clobber) && Pending(ops, a.ss, done)
    && AllExplained(ops, a.ss, a.ms, done, nbOut)
    && |ss0| == |ops| && forall k :: 0 <= k < |ops| ==> SameLinks(ss0[k], a.ss[k])
  }

  lemma KeptStep(ops: seq<Input>, ss0: seq<Slot>, nbOut: int, clobber: seq<bool>, a: Allocation, done: set<int>, j: int)
    requires Kept(ops, ss0, nbOut, clobber, a, done) && 0 <= j < |ops| && j !in done && !IsRef(a.ss[j])
    requires AllocStep(ops, nbOut, j, a).Some?
    ensures Kept(ops, ss0, nbOut, clobber, AllocStep(ops, nbOut, j, a).value, done + {j})
  {
    hide ChoiceFor, Passed, Reserve, Settled, Pending, AllExplained, FreeChoice, Permitted, SameLinks;
    var r := ChoiceFor(ops[j], a.ss[j], j < nbOut, a.regs).value;
    ChoiceSound(ops[j], a.ss[j], j < nbOut, a.regs);
    PassedSettles(ops, a.ss, a.ms, done, a.regs, clobber, j, r.choice, r.isRw);
    ExplainedStep(ops, a.ss, a.ms, done, nbOut, j, r.choice, r.isRw);
    PassedSame(a.ss, j, r.choice, r.isRw);
    LinksThrough(ss0, a.ss, Passed(a.ss, j, r.choice, r.isRw));
  }

  lemma LinksThrough(s: seq<Slot>, t: seq<Slot>, u: seq<Slot>)
    requires |s| == |t| == |u| && forall k :: 0 <= k < |s| ==> SameLinks(s[k], t[k])
    requires forall k :: 0 <= k < |s| ==> SameLinks(t[k], u[k])
    ensures forall k :: 0 <= k < |s| ==> SameLinks(s[k], u[k])
  {
    forall k | 0 <= k < |s| ensures SameLinks(s[k], u[k]) {
      assert SameLinks(s[k], t[k]) && SameLinks(t[k], u[k]);
    }
  }

  lemma KeptStart(ops: seq<Input>, ss: seq<Slot>, nbOut: int, clobber: seq<bool>)
    requires |ss| == |ops| && Pending(ops, ss, {})
    ensures Kept(ops, ss, nbOut, clobber, Start(ss, clobber), {})
  {
    hide Pending;
  }

  lemma {:induction false} AllocKept(ops: seq<Input>, ss: seq<Slot>, nbOut: int, clobber: seq<bool>, order: seq<int>,
      place: seq<int>, n: nat)
    requires |ss| == |ops| == |order| && Pending(ops, ss, {}) && IsInverse(order, place) && Indices(order, |ops|)
      && n <= |order|
    requires AllocFirst(ops, nbOut, order, n, Start(ss, clobber)).Some?
    ensures Kept(ops, ss, nbOut, clobber, AllocFirst(ops, nbOut, order, n, Start(ss, clobber)).value,
      Done(ss, order, n))
  {
    hide Pending, IsInverse, Kept, AllocStep, InitialRegs;
    if n == 0 {
      KeptStart(ops, ss, nbOut, clobber);
      assert Done(ss, order, 0) == {};
    } else {
      AllocKept(ops, ss, nbOut, clobber, order, place, n - 1);
      DoneStep(ss, order, place, n - 1);
      var a := AllocFirst(ops, nbOut, order, n - 1, Start(ss, clobber)).value;
      KeptRef(ops, ss, nbOut, clobber, a, Done(ss, order, n - 1), order[n - 1]);
      if !IsRef(ss[order[n - 1]]) {
        KeptStep(ops, ss, nbOut, clobber, a, Done(ss, order, n - 1), order[n - 1]);
      }
    }
  }

  lemma KeptRef(ops: seq<Input>, ss0: seq<Slot>, nbOut: int, clobber: seq<bool>, a: Allocation, done: set<int>, j: int)
    requires Kept(ops, ss0, nbOut, clobber, a, done) && 0 <= j < |ops|
    ensures |ss0| == |ops| && IsAllocation(ops, a) && (IsRef(a.ss[j]) <==> IsRef(ss0[j]))
    ensures IsRef(a.ss[j]) ==> AllocStep(ops, nbOut, j, a) == Some(a)
  {
    hide Settled, Pending, AllExplained;
    assert SameLinks(ss0[j], a.ss[j]);
  }

  lemma LinkedPending(ops: seq<Input>, ss: seq<Slot>, nbOut: int)
    requires Linked(ops, ss, |ops|, nbOut)
    ensures Pending(ops, ss, {}) && Links(ss)
  {
    hide RegvarOf, IsReference;
  }

  /** The result the caller relies on. */
  ghost predicate Sound(ops: seq<Input>, ss: seq<Slot>, ms: seq<Mask>, clobber: seq<bool>, nbOut: int, outReg: int) {
    |ss| == |ops| == |ms|
    && (forall j :: 0 <= j < |ss| && !IsRef(ss[j]) ==> Explained(ops[j], ss[j], ms[j], j < nbOut))
    && (forall j, r :: 0 <= j < |ss| && !IsRef(ss[j]) && r in Held(ss[j].reg, ss[j].isLlong) ==>
      0 <= r < REGS && !Banned(clobber, r))
    && (forall j, k :: 0 <= j < |ss| && 0 <= k < |ss| && j != k && !IsRef(ss[j]) && !IsRef(ss[k]) ==>
      Separate(ss[j], ms[j], ss[k], ms[k]))
    && (forall q :: 0 <= q < |ss| ==>
      if IsReference(ops[q]) then 0 <= ss[q].refIndex == Target(ops, q) < q else !IsRef(ss[q]))
    && (forall q :: 0 <= q < |ss| && IsRef(ss[q]) ==> Tied(ss, q) && ss[ss[q].refIndex].inputIndex == q)
    && (outReg != -1 ==> 0 <= outReg < REGS && !Banned(clobber, outReg))
    && (forall j :: 0 <= j < |ss| && !IsRef(ss[j]) && ms[j].out && outReg != -1 ==>
      outReg !in Held(ss[j].reg, ss[j].isLlong))
  }

  lemma NowSound(ops: seq<Input>, ss: seq<Slot>, a: Allocation, done: set<int>, clobber: seq<bool>, nbOut: int,
      outReg: int)
    requires Kept(ops, ss, nbOut, clobber, a, done) && Linked(ops, ss, |ops|, nbOut)
    requires forall j :: 0 <= j < |ops| && !IsRef(ss[j]) ==> j in done
    requires outReg != -1 ==> 0 <= outReg < REGS && !a.regs[outReg].out
    ensures Sound(ops, a.ss, a.ms, clobber, nbOut, outReg)
  {
    NowLinked(ops, ss, a.ss, nbOut);
    hide Explained, Separate, Preset, Linked, IsReference, Target;
    forall q | 0 <= q < |ops| && IsRef(a.ss[q]) ensures Tied(a.ss, q) && a.ss[a.ss[q].refIndex].inputIndex == q {
      var k := a.ss[q].refIndex;
      assert SameLinks(ss[q], a.ss[q]) && SameLinks(ss[k], a.ss[k]);
      if IsRef(a.ss[k]) { assert k !in done; }
    }
  }

  lemma NowLinked(ops: seq<Input>, ss: seq<Slot>, t: seq<Slot>, nbOut: int)
    requires Linked(ops, ss, |ops|, nbOut) && |t| == |ops| && |ss| == |ops|
    requires forall k :: 0 <= k < |ops| ==> SameLinks(ss[k], t[k])
    ensures forall q :: 0 <= q < |ops| ==>
      if IsReference(ops[q]) then 0 <= t[q].refIndex == Target(ops, q) < q else !IsRef(t[q])
  {
    hide IsReference, Target, RegvarOf, PriorityOf;
    forall q | 0 <= q < |ops|
      ensures if IsReference(ops[q]) then 0 <= t[q].refIndex == Target(ops, q) < q else !IsRef(t[q])
    {
      assert SameLinks(ss[q], t[q]);
    }
  }

  /** Whatever is accepted is sound. */
  lemma ComputeSound(ops: seq<Input>, nbOut: int, clobber: seq<bool>, order: seq<int>)
    requires IsOrder(ops, order) && Compute(ops, nbOut, clobber, order).Some?
    ensures var r := Compute(ops, nbOut, clobber, order).value; Sound(ops, r.ss, r.ms, clobber, nbOut, r.outReg)
  {
    hide Resolved, AllocFirst, Sound, Linked, Pending, Kept, IsInverse, NeedsOutReg, LowestFree, InitialRegs,
      PriorityOf;
    var ss := Resolved(ops, nbOut, |ops|).value;
    ResolvedLinks(ops, nbOut, |ops|);
    LinkedPending(ops, ss, nbOut);
    var place :| IsInverse(order, place);
    AllocKept(ops, ss, nbOut, clobber, order, place, |order|);
    var a := AllocFirst(ops, nbOut, order, |order|, Start(ss, clobber)).value;
    AllDone(ss, order, place);
    LowestIs(a.regs, Mask(false, true), 0, 8);
    NowSound(ops, ss, a, Done(ss, order, |order|), clobber, nbOut, OutRegOf(ops, a.ss, a.regs).value);
  }

  lemma AllDone(ss: seq<Slot>, order: seq<int>, place: seq<int>)
    requires |order| == |ss| && IsInverse(order, place) && Indices(order, |ss|)
    ensures forall j :: 0 <= j < |ss| && !IsRef(ss[j]) ==> j in Done(ss, order, |order|)
  {
    forall j | 0 <= j < |ss| && !IsRef(ss[j]) ensures j in Done(ss, order, |order|) { assert order[place[j]] == j; }
  }

  // ---- when it succeeds ----

  /** Reading the letter is no error. */
  predicate Harmless(ch: char, isOut: bool) {
    ch == '=' || ((ch == '+' || ch == '&') && isOut) || LetterPriority(ch) != -1
  }

  /** The letter can be met while some register is wholly free. */
  predicate Sure(op: Input, ch: char) {
    match ch
    case 'r' => true
    case 'R' => true
    case 'p' => true
    case 'm' => true
    case 'g' => true
    case 'e' => op.isConst
    case 'i' => op.isConst
    case 'I' => op.isPlainConst
    case 'N' => op.isPlainConst
    case 'M' => op.isPlainConst
    case _ => false
  }

  /** The text offers such a letter, and nothing before it is an error. */
  ghost predicate Flexible(op: Input, isOut: bool) {
    exists p :: 0 <= p < |op.text| && Sure(op, op.text[p]) && forall q :: 0 <= q < p ==> Harmless(op.text[q], isOut)
  }

  predicate Spare(regs: seq<Mask>, r: int) {
    0 <= r < |regs| && regs[r] == Mask(false, false)
  }

  ghost function SpareRegs(regs: seq<Mask>): set<int> {
    set r | 0 <= r < |regs| && Spare(regs, r)
  }

  lemma LetterSure(op: Input, ch: char, isOut: bool, mask: Mask, regs: seq<Mask>, r: int)
    requires |regs| == REGS && Spare(regs, r)
    ensures Harmless(ch, isOut) ==> !Letter(op, ch, isOut, mask, regs).Failed?
    ensures Sure(op, ch) ==> Letter(op, ch, isOut, mask, regs).Chosen?
  {
    LowestIs(regs, mask, 0, 8);
    LowestIs(regs, Mask(true, false), 0, 8);
    hide LowestFree;
    assert IsFree(regs, r, mask) && IsFree(regs, r, Mask(true, false));
  }

  lemma {:induction false} ScanSure(op: Input, p: nat, to: nat, isOut: bool, mask: Mask, regs: seq<Mask>, rw: bool,
      r: int)
    requires |regs| == REGS && Spare(regs, r) && p <= to < |op.text|
    requires Sure(op, op.text[to]) && forall q :: p <= q < to ==> Harmless(op.text[q], isOut)
    ensures Scan(op, p, isOut, mask, regs, rw).Some?
    decreases |op.text| - p
  {
    hide Letter, Harmless, Sure;
    var ch := op.text[p];
    LetterSure(op, ch, isOut, mask, regs, r);
    if p == to {
    } else if Letter(op, ch, isOut, mask, regs).Next? {
      ScanSure(op, p + 1, to, isOut, Letter(op, ch, isOut, mask, regs).mask, regs, rw || ch == '+', r);
    }
  }

  /** The operands that need a choice of their own. */
  ghost function Plain(ops: seq<Input>): set<int> {
    set i | 0 <= i < |ops| && !IsReference(ops[i])
  }

  /** Those of them that may take a pair of registers. */
  ghost function Wide(ops: seq<Input>): set<int> {
    set i | 0 <= i < |ops| && !IsReference(ops[i]) && 'A' in ops[i].text
  }

  ghost function Usable(clobber: seq<bool>): set<int> {
    set r | 0 <= r < REGS && !Banned(clobber, r)
  }

  /** Apart from modifiers, the constraint is made of one letter. */
  predicate OnlyLetter(s: string, ch: char, isOut: bool) {
    ch in s && forall q :: 0 <= q < |s| ==> s[q] == ch || s[q] == '=' || (isOut && (s[q] == '&' || s[q] == '+'))
  }

  /** The constraint asks for register r and no other. */
  ghost predicate Names(ops: seq<Input>, nbOut: int, i: int, r: int) {
    0 <= i < |ops| && exists ch :: RegisterOf(ch, r) && OnlyLetter(ops[i].text, ch, i < nbOut)
  }

  /** No two operands name the same register, and none a register nobody may have. */
  ghost predicate NamesApart(ops: seq<Input>, nbOut: int, clobber: seq<bool>) {
    (forall i, r :: Names(ops, nbOut, i, r) ==> !Banned(clobber, r))
    && forall i, k, r :: Names(ops, nbOut, i, r) && Names(ops, nbOut, k, r) ==> i == k
  }

  /**
    * Every operand that is no reference names a register of its own or can live in
    * any, and there are registers for all of them, counting two for an 'A' and one
    * more for storing through pointers.
    */
  ghost predicate Ample(ops: seq<Input>, nbOut: int, clobber: seq<bool>) {
    Readables(ops, nbOut) && NamesApart(ops, nbOut, clobber)
    && (forall i :: 0 <= i < |ops| && !IsReference(ops[i]) ==>
      RegvarOf(ops[i]) == -1 && (Flexible(ops[i], i < nbOut) || exists r :: Names(ops, nbOut, i, r)))
    && |Plain(ops)| + |Wide(ops)| + (if exists i :: 0 <= i < |ops| && ops[i].isIndirect then 1 else 0)
      <= |Usable(clobber)|
  }

  lemma AmpleRead(ops: seq<Input>, nbOut: int, clobber: seq<bool>)
    ensures Ample(ops, nbOut, clobber) ==> Readables(ops, nbOut) && NamesApart(ops, nbOut, clobber)
  {}

  /** Enough registers are left after the operands in done. */
  ghost predicate Enough(ops: seq<Input>, clobber: seq<bool>, regs: seq<Mask>, done: set<int>) {
    done <= Plain(ops) && |SpareRegs(regs)| + |done| + |done * Wide(ops)| >= |Usable(clobber)|
  }

  lemma EnoughStart(ops: seq<Input>, clobber: seq<bool>)
    ensures Enough(ops, clobber, InitialRegs(clobber), {})
  {
    assert SpareRegs(InitialRegs(clobber)) == Usable(clobber);
    assert {} * Wide(ops) == {};
  }

  lemma EnoughOne(ops: seq<Input>, clobber: seq<bool>, regs: seq<Mask>, done: set<int>, j: int, c: Choice)
    requires Enough(ops, clobber, regs, done) && j in Plain(ops) && j !in done
      && (c.isLlong && c.reg >= 0 ==> j in Wide(ops))
    ensures Enough(ops, clobber, Reserve(regs, Held(c.reg, c.isLlong), c.mask), done + {j})
  {
    var h := Held(c.reg, c.isLlong);
    hide Plain, Wide, Usable, Held;
    SpareLeft(regs, h, c.mask);
    HeldSize(c.reg, c.isLlong);
    if j in Wide(ops) {
      assert (done + {j}) * Wide(ops) == done * Wide(ops) + {j};
    } else {
      assert (done + {j}) * Wide(ops) == done * Wide(ops);
    }
  }

  lemma HeldSize(reg: int, isLlong: bool)
    ensures |Held(reg, isLlong)| <= if isLlong && reg >= 0 then 2 else 1
  {}

  lemma SpareLeft(regs: seq<Mask>, h: set<int>, m: Mask)
    ensures |SpareRegs(regs)| <= |SpareRegs(Reserve(regs, h, m))| + |h|
  {
    var a, b := SpareRegs(regs), SpareRegs(Reserve(regs, h, m));
    assert a - h <= b;
    SubsetSize(a - h, b);
    SubsetSize(a * h, h);
    assert a == (a - h) + (a * h);
  }

  lemma SubsetSize(a: set<int>, b: set<int>)
    requires a <= b
    ensures |a| <= |b|
  {
    assert b == a + (b - a);
  }

  lemma SomeSpare(ops: seq<Input>, clobber: seq<bool>, regs: seq<Mask>, done: set<int>, j: int) returns (r: int)
    requires Enough(ops, clobber, regs, done) && j in Plain(ops) && j !in done
      && |Plain(ops)| + |Wide(ops)| <= |Usable(clobber)|
    ensures Spare(regs, r)
  {
    hide Plain, Wide, Usable, Spare;
    SubsetSize(done + {j}, Plain(ops));
    SubsetSize(done * Wide(ops), Wide(ops));
    assert SpareRegs(regs) != {};
    r :| r in SpareRegs(regs);
  }

  lemma LlongWide(ops: seq<Input>, s: Slot, isOut: bool, regs: seq<Mask>, j: int)
    requires |regs| == REGS && 0 <= j < |ops| && !IsReference(ops[j]) && ChoiceFor(ops[j], s, isOut, regs).Some?
    ensures var c := ChoiceFor(ops[j], s, isOut, regs).value.choice; c.isLlong && c.reg >= 0 ==> j in Wide(ops)
  {
    hide ChoiceFor, IsReference;
    ChoiceSound(ops[j], s, isOut, regs);
    var r := ChoiceFor(ops[j], s, isOut, regs).value;
    if s.reg < 0 {
      var p :| ChosenAt(ops[j], isOut, FirstMask(s, isOut), r.choice, r.isRw, p);
    }
  }

  /** The registers that operands still to be served name are free. */
  ghost predicate NamesFree(ops: seq<Input>, nbOut: int, regs: seq<Mask>, done: set<int>) {
    forall i, r :: i !in done && Names(ops, nbOut, i, r) ==> Spare(regs, r)
  }

  lemma NamesFreeStart(ops: seq<Input>, nbOut: int, clobber: seq<bool>)
    requires NamesApart(ops, nbOut, clobber)
    ensures NamesFree(ops, nbOut, InitialRegs(clobber), {})
  {
    hide Banned, OnlyLetter;
  }

  /** A named register that is free is the one chosen. */
  lemma {:induction false} ScanNamed(op: Input, p: nat, to: nat, isOut: bool, mask: Mask, regs: seq<Mask>, rw: bool,
      ch: char, r: int)
    requires |regs| == REGS && Spare(regs, r) && RegisterOf(ch, r) && p <= to < |op.text| && op.text[to] == ch
    requires OnlyLetter(op.text, ch, isOut)
    ensures var o := Scan(op, p, isOut, mask, regs, rw);
      o.Some? && o.value.choice.reg == r && !o.value.choice.isLlong
    decreases |op.text| - p
  {
    hide LowestFree;
    NamedAllowed(ch);
    if op.text[p] == ch {
      assert NamedReg(ch) == r;
    } else {
      ScanNamed(op, p + 1, to, isOut, Letter(op, op.text[p], isOut, mask, regs).mask, regs, rw || op.text[p] == '+',
        ch, r);
    }
  }

  lemma {:induction false} SkipBefore(s: string, i: nat, q: nat)
    requires i <= q < |s| && !IsModifier(s[q])
    ensures SkipModifiers(s, i) <= q
    decreases |s| - i
  {
    if i == q {
    } else {
      if IsModifier(s[i]) { SkipBefore(s, i + 1, q); }
    }
  }

  /** A known letter counts towards the class of the text. */
  lemma {:induction false} PriorityHigh(s: string, i: nat, p: nat, q: nat)
    requires i <= q < |s| && forall k :: i <= k <= q ==> s[k] != '\0'
    ensures Priority(s, i, p) == -1 || Priority(s, i, p) >= LetterPriority(s[q])
    decreases |s| - i
  {
    hide LetterPriority;
    if i == q {
    } else {
      PriorityHigh(s, i + 1, if LetterPriority(s[i]) > p then LetterPriority(s[i]) else p, q);
    }
  }

  lemma {:induction false} PriorityLow(s: string, i: nat, p: nat, n: nat)
    requires p <= n && forall k :: i <= k < |s| ==> LetterPriority(s[k]) <= n
    ensures Priority(s, i, p) <= n
    decreases |s| - i
  {
    hide LetterPriority;
    if i >= |s| {
    } else {
      PriorityLow(s, i + 1, if LetterPriority(s[i]) > p then LetterPriority(s[i]) else p, n);
    }
  }

  lemma FlexibleLater(op: Input, isOut: bool)
    requires !IsReference(op) && RegvarOf(op) == -1 && PriorityOf(op) != -1 && Flexible(op, isOut)
    ensures PriorityOf(op) >= 3
  {
    hide IsReference, RegvarOf, Priority, SkipModifiers;
    var p :| 0 <= p < |op.text| && Sure(op, op.text[p]) && forall q :: 0 <= q < p ==> Harmless(op.text[q], isOut);
    SkipBefore(op.text, 0, p);
    PriorityHigh(op.text, SkipModifiers(op.text, 0), 0, p);
  }

  lemma NamesEarlier(ops: seq<Input>, nbOut: int, i: int, r: int)
    requires Names(ops, nbOut, i, r) && !IsReference(ops[i]) && RegvarOf(ops[i]) == -1
    ensures PriorityOf(ops[i]) <= 1
  {
    hide IsReference, RegvarOf, Priority, SkipModifiers;
    var ch :| RegisterOf(ch, r) && OnlyLetter(ops[i].text, ch, i < nbOut);
    PriorityLow(ops[i].text, SkipModifiers(ops[i].text, 0), 0, 1);
  }

  lemma NoReferenceNames(ops: seq<Input>, nbOut: int, i: int, r: int)
    requires Names(ops, nbOut, i, r)
    ensures !IsReference(ops[i])
  {
    hide SkipModifiers;
    var s := ops[i].text;
    var ch :| RegisterOf(ch, r) && OnlyLetter(s, ch, i < nbOut);
    var k := SkipModifiers(s, 0);
    if k < |s| { assert s[k] == ch || s[k] == '=' || s[k] == '&' || s[k] == '+'; }
  }

  lemma NoFlexibleNames(ops: seq<Input>, nbOut: int, i: int, r: int)
    requires 0 <= i < |ops| && Flexible(ops[i], i < nbOut)
    ensures !Names(ops, nbOut, i, r)
  {
    var s := ops[i].text;
    var p :| 0 <= p < |s| && Sure(ops[i], s[p]) && forall q :: 0 <= q < p ==> Harmless(s[q], i < nbOut);
    hide Harmless;
    forall ch | OnlyLetter(s, ch, i < nbOut) ensures !RegisterOf(ch, r) {}
  }

  /** Serving operand j leaves the named registers of the others alone. */
  lemma NamesFreeOne(ops: seq<Input>, nbOut: int, clobber: seq<bool>, regs: seq<Mask>, done: set<int>, j: int,
      h: set<int>, m: Mask)
    requires NamesApart(ops, nbOut, clobber) && NamesFree(ops, nbOut, regs, done) && 0 <= j < |ops|
    requires forall r :: r in h ==> Names(ops, nbOut, j, r)
    ensures NamesFree(ops, nbOut, Reserve(regs, h, m), done + {j})
  {
    hide Names;
  }

  lemma StepNamed(ops: seq<Input>, ss0: seq<Slot>, nbOut: int, clobber: seq<bool>, a: Allocation, done: set<int>,
      j: int, r: int)
    requires NamesApart(ops, nbOut, clobber) && NamesFree(ops, nbOut, a.regs, done)
    requires Kept(ops, ss0, nbOut, clobber, a, done)
    requires j !in done && Names(ops, nbOut, j, r) && !IsRef(a.ss[j]) && RegvarOf(ops[j]) == -1
    ensures var o := AllocStep(ops, nbOut, j, a); o.Some? && NamesFree(ops, nbOut, o.value.regs, done + {j})
  {
    hide Scan, Passed, Reserve, Settled, AllExplained, RegvarOf, NamesApart;
    assert a.ss[j].reg == RegvarOf(ops[j]) == -1;
    var ch :| RegisterOf(ch, r) && OnlyLetter(ops[j].text, ch, j < nbOut);
    var to :| 0 <= to < |ops[j].text| && ops[j].text[to] == ch;
    ScanNamed(ops[j], 0, to, j < nbOut, FirstMask(a.ss[j], j < nbOut), a.regs, false, ch, r);
    var c := ChoiceFor(ops[j], a.ss[j], j < nbOut, a.regs).value.choice;
    assert Held(c.reg, c.isLlong) == {r};
    hide Names, NamesFree;
    NamesFreeOne(ops, nbOut, clobber, a.regs, done, j, {r}, c.mask);
  }

  lemma StepFlexible(ops: seq<Input>, ss0: seq<Slot>, nbOut: int, clobber: seq<bool>, a: Allocation, done: set<int>,
      j: int)
    requires Ample(ops, nbOut, clobber) && Kept(ops, ss0, nbOut, clobber, a, done) && Enough(ops, clobber, a.regs, done)
    requires 0 <= j < |ops| && j !in done && !IsRef(a.ss[j]) && !IsReference(ops[j]) && Flexible(ops[j], j < nbOut)
    ensures AllocStep(ops, nbOut, j, a).Some?
  {
    hide Enough, Scan, Passed, Reserve, Settled, AllExplained, Usable, IsReference, Wide, FirstMask, RegvarOf,
      NamesApart, Names;
    assert a.ss[j].reg == RegvarOf(ops[j]) == -1;
    assert j in Plain(ops);
    var r := SomeSpare(ops, clobber, a.regs, done, j);
    var p :| 0 <= p < |ops[j].text| && Sure(ops[j], ops[j].text[p])
      && forall q :: 0 <= q < p ==> Harmless(ops[j].text[q], j < nbOut);
    ScanSure(ops[j], 0, p, j < nbOut, FirstMask(a.ss[j], j < nbOut), a.regs, false, r);
  }

  lemma StepEnough(ops: seq<Input>, nbOut: int, clobber: seq<bool>, a: Allocation, done: set<int>, j: int)
    requires IsAllocation(ops, a) && Enough(ops, clobber, a.regs, done)
    requires 0 <= j < |ops| && j !in done && !IsRef(a.ss[j]) && !IsReference(ops[j])
    requires AllocStep(ops, nbOut, j, a).Some?
    ensures Enough(ops, clobber, AllocStep(ops, nbOut, j, a).value.regs, done + {j})
  {
    hide Enough, ChoiceFor, Passed, Reserve, IsReference, Wide;
    assert j in Plain(ops);
    LlongWide(ops, a.ss[j], j < nbOut, a.regs, j);
    EnoughOne(ops, clobber, a.regs, done, j, ChoiceFor(ops[j], a.ss[j], j < nbOut, a.regs).value.choice);
  }

  /** By the time an operand that can live anywhere is served, those that name a register have been. */
  lemma NamesServed(ops: seq<Input>, nbOut: int, clobber: seq<bool>, order: seq<int>, ss: seq<Slot>, n: nat, i: int,
      r: int)
    requires Ample(ops, nbOut, clobber) && IsOrder(ops, order) && n < |order| && |ss| == |ops|
    requires forall q :: 0 <= q < |ops| ==> (IsRef(ss[q]) <==> IsReference(ops[q]))
    requires !IsReference(ops[order[n]]) && Flexible(ops[order[n]], order[n] < nbOut)
    requires Names(ops, nbOut, i, r)
    ensures i in Done(ss, order, n)
  {
    assert 0 <= i < |ops|;
    hide IsReference, PriorityOf, RegvarOf, Names, NamesApart, Flexible, Plain, Wide, Usable;
    NoReferenceNames(ops, nbOut, i, r);
    var j := order[n];
    assert Readable(ops, nbOut, j) && Readable(ops, nbOut, i);
    FlexibleLater(ops[j], j < nbOut);
    NamesEarlier(ops, nbOut, i, r);
    PlacedBefore(ops, order, i, n);
  }

  /** The operands of a lower class come first. */
  lemma PlacedBefore(ops: seq<Input>, order: seq<int>, i: int, n: int)
    requires IsOrder(ops, order) && 0 <= i < |ops| && 0 <= n < |order|
    requires PriorityOf(ops[i]) < PriorityOf(ops[order[n]])
    ensures exists k :: 0 <= k < n && order[k] == i
  {
    hide PriorityOf;
    var place :| IsInverse(order, place);
    var k := place[i];
    assert order[k] == i;
    assert k < n;
  }

  lemma StepSucceeds(ops: seq<Input>, ss: seq<Slot>, nbOut: int, clobber: seq<bool>, a: Allocation, order: seq<int>,
      n: nat)
    requires Ample(ops, nbOut, clobber) && IsOrder(ops, order) && n < |order| && |ss| == |ops|
    requires forall q :: 0 <= q < |ops| ==> (IsRef(ss[q]) <==> IsReference(ops[q]))
    requires var done := Done(ss, order, n);
      Kept(ops, ss, nbOut, clobber, a, done) && Enough(ops, clobber, a.regs, done)
      && NamesFree(ops, nbOut, a.regs, done) && order[n] !in done && !IsRef(a.ss[order[n]]) && !IsRef(ss[order[n]])
    ensures var o, done := AllocStep(ops, nbOut, order[n], a), Done(ss, order, n) + {order[n]};
      o.Some? && Enough(ops, clobber, o.value.regs, done) && NamesFree(ops, nbOut, o.value.regs, done)
  {
    var j, done := order[n], Done(ss, order, n);
    assert 0 <= j < |ops| && IsAllocation(ops, a);
    assert NamesApart(ops, nbOut, clobber) && RegvarOf(ops[j]) == -1;
    assert Flexible(ops[j], j < nbOut) || exists r :: Names(ops, nbOut, j, r);
    hide Enough, AllocStep, IsReference, Kept, RegvarOf, NamesApart, Names, Ample, Done, IsOrder, Flexible;
    if r :| Names(ops, nbOut, j, r) {
      StepNamed(ops, ss, nbOut, clobber, a, done, j, r);
    } else {
      StepFlexible(ops, ss, nbOut, clobber, a, done, j);
      forall i, r | Names(ops, nbOut, i, r) ensures i in done {
        NamesServed(ops, nbOut, clobber, order, ss, n, i, r);
      }
    }
    StepEnough(ops, nbOut, clobber, a, done, j);
  }

  lemma {:induction false} AllocSucceeds(ops: seq<Input>, ss: seq<Slot>, nbOut: int, clobber: seq<bool>,
      order: seq<int>, place: seq<int>, n: nat)
    requires |ss| == |ops| == |order| && Linked(ops, ss, |ops|, nbOut) && Pending(ops, ss, {})
      && Ample(ops, nbOut, clobber) && IsOrder(ops, order)
    requires IsInverse(order, place) && Indices(order, |ops|) && n <= |order|
    ensures var r := AllocFirst(ops, nbOut, order, n, Start(ss, clobber));
      r.Some? && Enough(ops, clobber, r.value.regs, Done(ss, order, n))
      && NamesFree(ops, nbOut, r.value.regs, Done(ss, order, n))
  {
    hide Pending, IsInverse, Kept, AllocStep, Enough, NamesFree, Ample, Linked, InitialRegs, IsReference, IsOrder;
    if n == 0 {
      EnoughStart(ops, clobber);
      AmpleRead(ops, nbOut, clobber);
      NamesFreeStart(ops, nbOut, clobber);
      assert Done(ss, order, 0) == {};
    } else {
      AllocSucceeds(ops, ss, nbOut, clobber, order, place, n - 1);
      AllocKept(ops, ss, nbOut, clobber, order, place, n - 1);
      DoneStep(ss, order, place, n - 1);
      var j := order[n - 1];
      LinkedRefs(ops, ss, nbOut);
      var a := AllocFirst(ops, nbOut, order, n - 1, Start(ss, clobber)).value;
      KeptRef(ops, ss, nbOut, clobber, a, Done(ss, order, n - 1), j);
      if !IsRef(ss[j]) {
        StepSucceeds(ops, ss, nbOut, clobber, a, order, n - 1);
      }
    }
  }

  lemma LinkedRefs(ops: seq<Input>, ss: seq<Slot>, nbOut: int)
    requires Linked(ops, ss, |ops|, nbOut)
    ensures |ss| == |ops| && forall q :: 0 <= q < |ops| ==> (IsRef(ss[q]) <==> IsReference(ops[q]))
  {
    hide IsReference, RegvarOf, Target, PriorityOf;
  }

  lemma OutRegFound(ops: seq<Input>, nbOut: int, clobber: seq<bool>, ss: seq<Slot>, regs: seq<Mask>, done: set<int>)
    requires |ss| == |ops| && |regs| == REGS && Ample(ops, nbOut, clobber) && Enough(ops, clobber, regs, done)
    ensures OutRegOf(ops, ss, regs).Some?
  {
    hide Usable, Plain, Wide, LowestFree, Readables, Flexible;
    if i :| 0 <= i < |ops| && NeedsOutReg(ops[i], ss[i]) {
      SubsetSize(done, Plain(ops));
      SubsetSize(done * Wide(ops), Wide(ops));
      assert SpareRegs(regs) != {};
      var r :| r in SpareRegs(regs);
      LowestIs(regs, Mask(false, true), 0, 8);
      assert IsFree(regs, r, Mask(false, true));
    }
  }

  /** With ample registers, no order of the operands leads to an error. */
  lemma AmpleSucceeds(ops: seq<Input>, nbOut: int, clobber: seq<bool>, order: seq<int>)
    requires Ample(ops, nbOut, clobber) && IsOrder(ops, order)
    ensures Compute(ops, nbOut, clobber, order).Some?
  {
    hide Resolved, AllocFirst, Ample, Linked, Pending, Enough, IsInverse, OutRegOf, PriorityOf, Readables, InitialRegs;
    AmpleRead(ops, nbOut, clobber);
    ReadExact(ops, nbOut);
    var ss := Resolved(ops, nbOut, |ops|).value;
    ResolvedLinks(ops, nbOut, |ops|);
    LinkedPending(ops, ss, nbOut);
    var place :| IsInverse(order, place);
    AllocSucceeds(ops, ss, nbOut, clobber, order, place, |order|);
    var a := AllocFirst(ops, nbOut, order, |order|, Start(ss, clobber)).value;
    OutRegFound(ops, nbOut, clobber, a.ss, a.regs, Done(ss, order, |order|));
  }

  // ---- what the caller can conclude ----

  /** An 'A' operand keeps every other operand out of eax and edx while it is in use. */
  lemma PairReserved(ops: seq<Input>, ss: seq<Slot>, ms: seq<Mask>, clobber: seq<bool>, nbOut: int, outReg: int,
      j: int, k: int)
    requires Sound(ops, ss, ms, clobber, nbOut, outReg) && 0 <= j < |ss| && 0 <= k < |ss| && j != k && !IsRef(ss[j])
      && !IsRef(ss[k])
    requires ss[j].isLlong && ss[j].reg >= 0 && Overlap(ms[j], ms[k])
    ensures ss[j].reg == EAX && ss[k].reg != EAX && ss[k].reg != EDX && (ss[k].reg >= 0 ==> !ss[k].isLlong)
  {
    var c := Choice(ms[j], ss[j].reg, ss[j].isLlong, ss[j].isMemory);
    assert Explained(ops[j], ss[j], ms[j], j < nbOut);
    var p :| ChosenAt(ops[j], j < nbOut, FirstMask(ss[j], j < nbOut), c, ss[j].isRw, p);
    assert Separate(ss[j], ms[j], ss[k], ms[k]);
    assert EAX in Held(ss[j].reg, ss[j].isLlong) && EDX in Held(ss[j].reg, ss[j].isLlong);
    HeldRegister(ss[k].reg, ss[k].isLlong);
  }

  lemma HeldRegister(reg: int, isLlong: bool)
    ensures reg >= 0 ==> (if isLlong then EAX else reg) in Held(reg, isLlong)
  {}

  /** The operand at the end of a chain of references. */
  ghost function End(ops: seq<Input>, nbOut: int, q: nat): (e: nat)
    requires Readables(ops, nbOut) && q < |ops|
    ensures e <= q && !IsReference(ops[e])
  {
    if IsReference(ops[q]) then
      assert Readable(ops, nbOut, q);
      End(ops, nbOut, Target(ops, q))
    else q
  }

  /**
    * The operand cannot do without a register: it has a variable's, or none of its letters admits a constant
    * or memory.
    */
  predicate RegisterOnly(op: Input) {
    RegvarOf(op) >= 0
    || forall p :: 0 <= p < |op.text| ==>
        op.text[p] != 'e' && op.text[p] != 'i' && op.text[p] != 'I' && op.text[p] != 'N' && op.text[p] != 'M'
        && op.text[p] != 'm' && op.text[p] != 'g'
  }

  /**
    * A reference to operand k shares the register at the end of its chain exactly
    * when k is not a reference itself; otherwise it is left with none.
    */
  lemma TiedExact(ops: seq<Input>, nbOut: int, clobber: seq<bool>, order: seq<int>, q: nat)
    requires IsOrder(ops, order) && Compute(ops, nbOut, clobber, order).Some? && Readables(ops, nbOut)
    requires q < |ops| && IsReference(ops[q]) && RegisterOnly(ops[End(ops, nbOut, q)])
    ensures var ss := Compute(ops, nbOut, clobber, order).value.ss;
      |ss| == |ops| && ss[End(ops, nbOut, q)].reg >= 0 && 0 <= Target(ops, q) < q
      && (ss[q].reg == ss[End(ops, nbOut, q)].reg <==> !IsReference(ops[Target(ops, q)]))
      && (IsReference(ops[Target(ops, q)]) ==> ss[q].reg == -1)
  {
    hide Compute, IsReference, Target, RegisterOnly, PriorityOf, IsInverse;
    ComputeSound(ops, nbOut, clobber, order);
    var r := Compute(ops, nbOut, clobber, order).value;
    var e := End(ops, nbOut, q);
    EndHolds(ops, r.ss, r.ms, clobber, nbOut, r.outReg, e);
    assert Readable(ops, nbOut, q);
    assert Tied(r.ss, q);
  }

  lemma EndHolds(ops: seq<Input>, ss: seq<Slot>, ms: seq<Mask>, clobber: seq<bool>, nbOut: int, outReg: int, e: nat)
    requires Sound(ops, ss, ms, clobber, nbOut, outReg) && e < |ops| && !IsReference(ops[e]) && RegisterOnly(ops[e])
    ensures ss[e].reg >= 0
  {
    hide IsReference, Target;
    assert Explained(ops[e], ss[e], ms[e], e < nbOut);
    if RegvarOf(ops[e]) < 0 {
      var c := Choice(ms[e], ss[e].reg, ss[e].isLlong, ss[e].isMemory);
      var p :| ChosenAt(ops[e], e < nbOut, FirstMask(ss[e], e < nbOut), c, ss[e].isRw, p);
    }
  }

  function PlainInput(text: string): Input {
    Input(text, -1, -1, false, false, false)
  }

  const CHAINED := [PlainInput("=r"), PlainInput("0"), PlainInput("1")]

  const NO_CLOBBERS := [false, false, false, false, false, false, false, false]

  lemma ChainedRead()
    ensures !IsReference(CHAINED[0]) && IsReference(CHAINED[1]) && IsReference(CHAINED[2])
    ensures Target(CHAINED, 1) == 0 && Target(CHAINED, 2) == 1 && PriorityOf(CHAINED[0]) == 3
  {
    assert SkipModifiers("=r", 0) == 1 && SkipModifiers("=r", 1) == 1;
    assert SkipModifiers("0", 0) == 0 && SkipModifiers("1", 0) == 0;
    assert Number("0", 0, 0) == 0 && Number("1", 0, 0) == 1;
  }

  lemma ChainedAmple()
    ensures Ample(CHAINED, 1, NO_CLOBBERS)
  {
    ChainedRead();
    hide IsReference, Target, PriorityOf;
    assert Readable(CHAINED, 1, 0) && Readable(CHAINED, 1, 1) && Readable(CHAINED, 1, 2);
    assert Flexible(CHAINED[0], true) by {
      assert Sure(CHAINED[0], CHAINED[0].text[1]) && Harmless(CHAINED[0].text[0], true);
    }
    forall i, r | 0 <= i < 3 ensures !Names(CHAINED, 1, i, r) {
      if i == 0 { NoFlexibleNames(CHAINED, 1, 0, r); }
      if Names(CHAINED, 1, i, r) { NoReferenceNames(CHAINED, 1, i, r); }
    }
    assert Plain(CHAINED) == {0};
    assert Wide(CHAINED) == {};
    assert {EAX} <= Usable(NO_CLOBBERS);
    SubsetSize({EAX}, Usable(NO_CLOBBERS));
  }

  /** ("=r", "0", "1") is accepted, but the third operand is left without the register that the other two share. */
  lemma ChainedReference()
    ensures var r := Assigned(CHAINED, 1, NO_CLOBBERS);
      r.Some? && |r.value.ss| == 3 && r.value.ss[0].reg >= 0 && r.value.ss[1].reg == r.value.ss[0].reg
        && r.value.ss[2].reg == -1
  {
    hide Compute, IsOrder, Ample, IsReference, Target, PriorityOf, RegvarOf, OrderOf;
    var order := OrderOf(CHAINED);
    OrderSorts(CHAINED);
    ChainedRead();
    ChainedAmple();
    AmpleRead(CHAINED, 1, NO_CLOBBERS);
    AmpleSucceeds(CHAINED, 1, NO_CLOBBERS, order);
    assert RegisterOnly(CHAINED[0]);
    TiedExact(CHAINED, 1, NO_CLOBBERS, order, 1);
    TiedExact(CHAINED, 1, NO_CLOBBERS, order, 2);
  }

  /** The scan stops at a '%' among the modifiers. */
  lemma {:induction false} PercentStops(op: Input, p: nat, to: nat, isOut: bool, mask: Mask, regs: seq<Mask>, rw: bool)
    requires |regs| == REGS && p <= to && PercentAt(op, to)
    ensures Scan(op, p, isOut, mask, regs, rw).None?
    decreases |op.text| - p
  {
    var ch := op.text[p];
    hide LowestFree;
    if p == to {
    } else if Letter(op, ch, isOut, mask, regs).Next? {
      PercentStops(op, p + 1, to, isOut, Letter(op, ch, isOut, mask, regs).mask, regs, rw || ch == '+');
    }
  }

  predicate PercentAt(op: Input, to: nat) {
    to < |op.text| && op.text[to] == '%'
    && forall q :: 0 <= q < to ==> op.text[q] == '=' || op.text[q] == '&' || op.text[q] == '+'
  }

  lemma PercentStuck(ops: seq<Input>, ss0: seq<Slot>, nbOut: int, clobber: seq<bool>, a: Allocation, done: set<int>,
      j: int, to: nat)
    requires Kept(ops, ss0, nbOut, clobber, a, done) && 0 <= j < |ops| && j !in done && !IsRef(a.ss[j])
    requires RegvarOf(ops[j]) == -1 && PercentAt(ops[j], to)
    ensures AllocStep(ops, nbOut, j, a).None?
  {
    hide Scan, Settled, AllExplained, RegvarOf, PercentAt, Links, Served;
    assert a.ss[j].reg == RegvarOf(ops[j]) == -1;
    PercentStops(ops[j], 0, to, j < nbOut, FirstMask(a.ss[j], j < nbOut), a.regs, false);
  }

  /** A '%' modifier is skipped when an operand is read, but no operand that has one is ever given a register. */
  lemma PercentRejected(ops: seq<Input>, nbOut: int, clobber: seq<bool>, order: seq<int>, j: nat, to: nat)
    requires IsOrder(ops, order) && j < |ops| && !IsReference(ops[j]) && RegvarOf(ops[j]) == -1 && PercentAt(ops[j], to)
    ensures Compute(ops, nbOut, clobber, order).None?
  {
    hide Resolved, Linked, Pending, Kept, IsInverse, AllocStep, InitialRegs, PriorityOf, PercentAt, RegvarOf,
      IsReference;
    if Resolved(ops, nbOut, |ops|).Some? {
      var ss := Resolved(ops, nbOut, |ops|).value;
      ResolvedLinks(ops, nbOut, |ops|);
      LinkedPending(ops, ss, nbOut);
      LinkedRefs(ops, ss, nbOut);
      var place :| IsInverse(order, place);
      InversePlace(order, place, j);
      var n := place[j];
      if AllocFirst(ops, nbOut, order, n, Start(ss, clobber)).Some? {
        AllocKept(ops, ss, nbOut, clobber, order, place, n);
        DoneStep(ss, order, place, n);
        var a := AllocFirst(ops, nbOut, order, n, Start(ss, clobber)).value;
        KeptRef(ops, ss, nbOut, clobber, a, Done(ss, order, n), j);
        PercentStuck(ops, ss, nbOut, clobber, a, Done(ss, order, n), j, to);
      }
      AllocNever(ops, nbOut, order, n + 1, |order|, Start(ss, clobber));
    }
  }

  lemma InversePlace(order: seq<int>, place: seq<int>, j: int)
    requires IsInverse(order, place) && 0 <= j < |order|
    ensures |place| == |order| && 0 <= place[j] < |order| && order[place[j]] == j
  {}

  // ---- the commutativity modifier ----

  predicate IsModifier(c: char) { c == '=' || c == '&' || c == '+' || c == '%' }

  /** The text without the '%' among its leading modifiers. */
  function Stripped(s: string): string {
    if s == [] || !IsModifier(s[0]) then s
    else if s[0] == '%' then Stripped(s[1..])
    else [s[0]] + Stripped(s[1..])
  }

  /** Some leading modifier is a '%'. */
  predicate HasPercent(s: string) {
    s != [] && IsModifier(s[0]) && (s[0] == '%' || HasPercent(s[1..]))
  }

  function Without(op: Input): Input {
    op.(text := Stripped(op.text))
  }

  function AllWithout(ops: seq<Input>): (r: seq<Input>)
    ensures |r| == |ops|
  {
    seq(|ops|, i requires 0 <= i < |ops| => Without(ops[i]))
  }

  lemma {:induction false} PercentFirst(s: string) returns (to: nat)
    requires HasPercent(s)
    ensures to < |s| && s[to] == '%' && forall q :: 0 <= q < to ==> s[q] == '=' || s[q] == '&' || s[q] == '+'
    decreases |s|
  {
    if s[0] == '%' {
      to := 0;
    } else {
      var k := PercentFirst(s[1..]);
      to := k + 1;
      assert s[1..][k] == s[to];
      forall q | 0 <= q < to ensures s[q] == '=' || s[q] == '&' || s[q] == '+' {
        if q > 0 { assert s[1..][q - 1] == s[q]; }
      }
    }
  }

  lemma {:induction false} NothingStripped(s: string)
    requires !HasPercent(s)
    ensures Stripped(s) == s
    decreases |s|
  {
    if s == [] || !IsModifier(s[0]) {
    } else {
      NothingStripped(s[1..]);
    }
  }

  /** What follows the modifiers. */
  function Tail(s: string): string {
    if s == [] || !IsModifier(s[0]) then s else Tail(s[1..])
  }

  lemma {:induction false} TailStripped(s: string)
    ensures Tail(Stripped(s)) == Tail(s)
    decreases |s|
  {
    if s == [] || !IsModifier(s[0]) {
    } else {
      TailStripped(s[1..]);
      if s[0] != '%' { assert Stripped(s)[1..] == Stripped(s[1..]); }
    }
  }

  lemma {:induction false} SkipIsTail(s: string, i: nat)
    requires i <= |s|
    ensures SkipModifiers(s, i) <= |s| && s[SkipModifiers(s, i)..] == Tail(s[i..])
    decreases |s| - i
  {
    if i < |s| && IsModifier(s[i]) {
      SkipIsTail(s, i + 1);
      assert s[i..][1..] == s[i + 1..];
    }
  }

  lemma {:induction false} NumberTail(s: string, i: nat, n: nat)
    requires i <= |s|
    ensures Number(s, i, n) == Number(s[i..], 0, n)
    decreases |s| - i
  {
    if i < |s| && IsNum(s[i]) {
      var m := n * 10 + (s[i] as int - '0' as int);
      NumberTail(s, i + 1, m);
      NumberTail(s[i..], 1, m);
      assert s[i..][1..] == s[i + 1..];
    }
  }

  lemma {:induction false} PriorityTail(s: string, i: nat, p: nat)
    requires i <= |s|
    ensures Priority(s, i, p) == Priority(s[i..], 0, p)
    decreases |s| - i
  {
    if i < |s| && s[i] != '\0' && LetterPriority(s[i]) != -1 {
      var m := if LetterPriority(s[i]) > p then LetterPriority(s[i]) else p;
      PriorityTail(s, i + 1, m);
      PriorityTail(s[i..], 1, m);
      assert s[i..][1..] == s[i + 1..];
    }
  }

  /** An operand is read the same without its '%'. */
  lemma ReadWithout(op: Input, nb: nat)
    ensures IsReference(Without(op)) == IsReference(op) && PriorityOf(Without(op)) == PriorityOf(op)
    ensures FindConstraint(Without(op), SkipModifiers(Without(op).text, 0), nb)
      == FindConstraint(op, SkipModifiers(op.text, 0), nb)
  {
    var s, t := op.text, Stripped(op.text);
    var i, j := SkipModifiers(s, 0), SkipModifiers(t, 0);
    SkipIsTail(s, 0);
    SkipIsTail(t, 0);
    assert s[0..] == s && t[0..] == t;
    TailStripped(s);
    assert s[i..] == t[j..];
    AtTail(s, i);
    AtTail(t, j);
    NumberTail(s, i, 0);
    NumberTail(t, j, 0);
    PriorityTail(s, i, 0);
    PriorityTail(t, j, 0);
    hide SkipModifiers, Number, Priority, Stripped, Tail;
  }

  lemma AtTail(s: string, i: nat)
    requires i <= |s|
    ensures At(s, i) == At(s[i..], 0)
  {}

  lemma {:induction false} ResolvedWithout(ops: seq<Input>, nbOut: int, n: nat)
    requires n <= |ops|
    ensures Resolved(AllWithout(ops), nbOut, n) == Resolved(ops, nbOut, n)
  {
    hide IsReference, PriorityOf, FindConstraint, SkipModifiers, Without;
    if n == 0 {
    } else {
      ResolvedWithout(ops, nbOut, n - 1);
      ReadWithout(ops[n - 1], |ops|);
      assert AllWithout(ops)[n - 1] == Without(ops[n - 1]);
      RegvarWithout(ops[n - 1]);
    }
  }

  lemma RegvarWithout(op: Input)
    ensures RegvarOf(Without(op)) == RegvarOf(op) && Without(op).isIndirect == op.isIndirect
  {}

  lemma OrderWithout(ops: seq<Input>, order: seq<int>)
    requires IsOrder(ops, order)
    ensures IsOrder(AllWithout(ops), order)
  {
    hide PriorityOf, IsInverse, Without;
    forall i | 0 <= i < |ops| ensures PriorityOf(AllWithout(ops)[i]) == PriorityOf(ops[i]) {
      ReadWithout(ops[i], 0);
    }
  }

  /** A '%' matters only where a constraint is scanned: not on a reference, nor with a variable's register. */
  predicate PercentsIdle(ops: seq<Input>) {
    forall i :: 0 <= i < |ops| && HasPercent(ops[i].text) ==> IsReference(ops[i]) || RegvarOf(ops[i]) >= 0
  }

  lemma StepWithout(ops: seq<Input>, ss0: seq<Slot>, nbOut: int, clobber: seq<bool>, a: Allocation, done: set<int>,
      j: int)
    requires Kept(ops, ss0, nbOut, clobber, a, done) && 0 <= j < |ops| && j !in done && PercentsIdle(ops)
    requires IsRef(a.ss[j]) <==> IsReference(ops[j])
    ensures AllocStep(AllWithout(ops), nbOut, j, a) == AllocStep(ops, nbOut, j, a)
  {
    hide Scan, Settled, AllExplained, RegvarOf, Links, Served, IsReference, HasPercent, Stripped, Passed, Reserve;
    var op := AllWithout(ops)[j];
    if !IsRef(a.ss[j]) && RegvarOf(ops[j]) < 0 {
      NothingStripped(ops[j].text);
      assert op == ops[j];
    } else if !IsRef(a.ss[j]) {
      assert a.ss[j].reg == RegvarOf(ops[j]) >= 0;
    }
  }

  lemma {:induction false} AllocWithout(ops: seq<Input>, ss: seq<Slot>, nbOut: int, clobber: seq<bool>, order: seq<int>,
      place: seq<int>, n: nat)
    requires |ss| == |ops| == |order| && Linked(ops, ss, |ops|, nbOut) && Pending(ops, ss, {}) && PercentsIdle(ops)
    requires IsInverse(order, place) && Indices(order, |ops|) && n <= |order|
    ensures AllocFirst(AllWithout(ops), nbOut, order, n, Start(ss, clobber))
      == AllocFirst(ops, nbOut, order, n, Start(ss, clobber))
  {
    hide Pending, IsInverse, Kept, AllocStep, Linked, InitialRegs, IsReference, PercentsIdle, AllWithout;
    if n == 0 {
    } else {
      AllocWithout(ops, ss, nbOut, clobber, order, place, n - 1);
      if AllocFirst(ops, nbOut, order, n - 1, Start(ss, clobber)).Some? {
        AllocKept(ops, ss, nbOut, clobber, order, place, n - 1);
        DoneStep(ss, order, place, n - 1);
        LinkedRefs(ops, ss, nbOut);
        var a := AllocFirst(ops, nbOut, order, n - 1, Start(ss, clobber)).value;
        KeptRef(ops, ss, nbOut, clobber, a, Done(ss, order, n - 1), order[n - 1]);
        StepWithout(ops, ss, nbOut, clobber, a, Done(ss, order, n - 1), order[n - 1]);
      }
    }
  }

  lemma OutRegWithout(ops: seq<Input>, ss: seq<Slot>, regs: seq<Mask>)
    requires |ss| == |ops|
    ensures OutRegOf(AllWithout(ops), ss, regs) == OutRegOf(ops, ss, regs)
  {
    hide LowestFree, Stripped;
    forall i | 0 <= i < |ops| ensures NeedsOutReg(AllWithout(ops)[i], ss[i]) == NeedsOutReg(ops[i], ss[i]) {}
  }

  /** Where every '%' is idle, the result is the same without them. */
  lemma IdlePercents(ops: seq<Input>, nbOut: int, clobber: seq<bool>, order: seq<int>)
    requires IsOrder(ops, order) && PercentsIdle(ops)
    ensures Compute(AllWithout(ops), nbOut, clobber, order) == Compute(ops, nbOut, clobber, order)
  {
    hide Resolved, Linked, Pending, IsInverse, AllocFirst, InitialRegs, PriorityOf, PercentsIdle, AllWithout, OutRegOf;
    ResolvedWithout(ops, nbOut, |ops|);
    if Resolved(ops, nbOut, |ops|).Some? {
      var ss := Resolved(ops, nbOut, |ops|).value;
      ResolvedLinks(ops, nbOut, |ops|);
      LinkedPending(ops, ss, nbOut);
      var place :| IsInverse(order, place);
      AllocWithout(ops, ss, nbOut, clobber, order, place, |order|);
      var r := AllocFirst(ops, nbOut, order, |order|, Start(ss, clobber));
      if r.Some? { OutRegWithout(ops, r.value.ss, r.value.regs); }
    }
  }

  /**
    * Operands accepted without their '%' are accepted with them if and only if each
    * one that has any is a reference or has a variable's register.
    */
  lemma PercentExact(ops: seq<Input>, nbOut: int, clobber: seq<bool>, order: seq<int>)
    requires IsOrder(ops, order) && Compute(AllWithout(ops), nbOut, clobber, order).Some?
    ensures Compute(ops, nbOut, clobber, order).Some? <==> PercentsIdle(ops)
    ensures PercentsIdle(ops) ==> Compute(ops, nbOut, clobber, order) == Compute(AllWithout(ops), nbOut, clobber, order)
  {
    hide Compute, IsReference, RegvarOf, HasPercent, PriorityOf, IsInverse, AllWithout;
    if PercentsIdle(ops) {
      IdlePercents(ops, nbOut, clobber, order);
    } else {
      var j :| 0 <= j < |ops| && HasPercent(ops[j].text) && !IsReference(ops[j]) && RegvarOf(ops[j]) < 0;
      var to := PercentFirst(ops[j].text);
      RegvarNone(ops[j]);
      PercentRejected(ops, nbOut, clobber, order, j, to);
    }
  }

  lemma RegvarNone(op: Input)
    requires RegvarOf(op) < 0
    ensures RegvarOf(op) == -1
  {}

  const ONE_REGISTER := [PlainInput("r")]

  const ONE_PERCENT := [PlainInput("%r")]

  lemma OneRead()
    ensures !IsReference(ONE_REGISTER[0]) && PriorityOf(ONE_REGISTER[0]) == 3
    ensures AllWithout(ONE_PERCENT) == ONE_REGISTER && HasPercent(ONE_PERCENT[0].text)
  {
    assert SkipModifiers("r", 0) == 0;
    assert "%r"[1..] == "r" && Stripped("r") == "r" && Stripped("%r") == "r";
    assert AllWithout(ONE_PERCENT)[0] == ONE_REGISTER[0];
  }

  lemma OneAmple()
    ensures Ample(ONE_REGISTER, 0, NO_CLOBBERS)
  {
    OneRead();
    hide IsReference, PriorityOf, AllWithout, Target;
    assert Readable(ONE_REGISTER, 0, 0);
    assert Flexible(ONE_REGISTER[0], false) by { assert Sure(ONE_REGISTER[0], ONE_REGISTER[0].text[0]); }
    forall r ensures !Names(ONE_REGISTER, 0, 0, r) { NoFlexibleNames(ONE_REGISTER, 0, 0, r); }
    assert Plain(ONE_REGISTER) == {0};
    assert Wide(ONE_REGISTER) == {};
    assert {EAX} <= Usable(NO_CLOBBERS);
    SubsetSize({EAX}, Usable(NO_CLOBBERS));
  }

  /** The input operand "r" is accepted and "%r" is not, with nothing clobbered. */
  lemma PercentRefused()
    ensures Assigned(ONE_REGISTER, 0, NO_CLOBBERS).Some? && Assigned(ONE_PERCENT, 0, NO_CLOBBERS).None?
  {
    OneRead();
    hide Compute, IsReference, PriorityOf, IsOrder, AllWithout, HasPercent, OrderOf, Ample;
    OneAmple();
    OrderSorts(ONE_REGISTER);
    OrderSorts(ONE_PERCENT);
    OrderWithout(ONE_PERCENT, OrderOf(ONE_PERCENT));
    ReadWithout(ONE_PERCENT[0], 1);
    OneWithout();
    AmpleSucceeds(ONE_REGISTER, 0, NO_CLOBBERS, OrderOf(ONE_REGISTER));
    AmpleSucceeds(ONE_REGISTER, 0, NO_CLOBBERS, OrderOf(ONE_PERCENT));
    PercentExact(ONE_PERCENT, 0, NO_CLOBBERS, OrderOf(ONE_PERCENT));
    assert !PercentsIdle(ONE_PERCENT);
  }

  lemma OneWithout()
    ensures Without(ONE_PERCENT[0]) == ONE_REGISTER[0]
  {
    OneRead();
    assert AllWithout(ONE_PERCENT)[0] == Without(ONE_PERCENT[0]);
  }
}
