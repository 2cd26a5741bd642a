/**
  * Constants in ARM data-processing instructions: an eight-bit value rotated
  * right by an even amount (section A5.2.4 of Arm DDI 0406C), alone or as a sum
  * of up to four of them, and the addresses built from them.
  */
module ArmConst {
  import opened Values
  import opened CodeText

  // ---- the machine ----

  /** A register; the program counter is not special here. */
  datatype Reg = R(n: bv32)

  type Regs = map<Reg, bv32>

  function Read(s: Regs, r: bv32): bv32 {
    if R(r) in s then s[R(r)] else 0
  }

  function Write(s: Regs, r: bv32, x: bv32): Regs {
    s[R(r) := x]
  }

  function Ror(x: bv32, n: bv8): bv32
    requires n < 32
  {
    (x >> n) | (x << (32 - n))
  }

  function OpField(w: bv32): bv32 { (w >> 21) & 0xf }

  function RnField(w: bv32): bv32 { (w >> 16) & 0xf }

  function RdField(w: bv32): bv32 { (w >> 12) & 0xf }

  /** Bits 27 to 25 and 20 say: data processing, immediate operand, flags untouched. */
  predicate IsImm(w: bv32) { w & 0x0e10_0000 == 0x0200_0000 }

  /** The same with a plain register operand. */
  predicate IsPlainReg(w: bv32) { w & 0x0e10_0ff0 == 0 }

  function Rotation(w: bv32): (n: bv8)
    ensures n < 32
  {
    (((w >> 8) & 0xf) << 1) as bv8
  }

  /** The operand of an immediate instruction. */
  function Expand(w: bv32): bv32 {
    Ror(w & 0xff, Rotation(w))
  }

  /** What the eight operations the compiler uses compute. */
  function Result(opc: bv32, a: bv32, b: bv32): bv32 {
    if opc == 0 then a & b
    else if opc == 1 then a ^ b
    else if opc == 2 then a - b
    else if opc == 4 then a + b
    else if opc == 12 then a | b
    else if opc == 13 then b
    else if opc == 14 then a & !b
    else !b
  }

  predicate Known(opc: bv32) {
    opc == 0 || opc == 1 || opc == 2 || opc == 4 || opc == 12 || opc == 13 || opc == 14 || opc == 15
  }

  /** One instruction; anything but a known data-processing form stops the machine. */
  function Exec(w: bv32, s: Regs): Option<Regs> {
    if !Known(OpField(w)) then None
    else if IsImm(w) then Some(Write(s, RdField(w), Result(OpField(w), Read(s, RnField(w)), Expand(w))))
    else if IsPlainReg(w) then Some(Write(s, RdField(w), Result(OpField(w), Read(s, RnField(w)), Read(s, w & 0xf))))
    else None
  }

  function Run(code: seq<bv32>, s: Regs): Option<Regs>
    decreases |code|
  {
    if code == [] then Some(s)
    else
      var r := Exec(code[0], s);
      if r.None? then None else Run(code[1..], r.value)
  }

  // ---- rotated bytes ----

  predicate Even(i: bv8) { i & 1 == 0 }

  /** The bits an eight-bit value rotated right by i can occupy. */
  function Mask(i: bv8): bv32
    requires i < 32
  {
    (0xff >> i) | (0xff << (32 - i))
  }

  /** c is a byte rotated right by i. */
  predicate FitsAt(c: bv32, i: bv8)
    requires i < 32
  {
    c & !Mask(i) == 0
  }

  ghost predicate Fits(c: bv32) {
    exists i: bv8 :: i < 32 && Even(i) && FitsAt(c, i)
  }

  /** The twelve immediate bits for c at rotation i. */
  function Packed(c: bv32, i: bv8): bv32
    requires i < 32
  {
    ((i as bv32) << 7) | (c << i) | (c >> (32 - i))
  }

  /** The packed bits stay inside the field and expand to c. */
  lemma PackedExpands(op: bv32, c: bv32, i: bv8)
    requires i < 32 && Even(i) && FitsAt(c, i) && op & 0xfff == 0
    ensures Packed(c, i) & !0xfff == 0 && Expand(op | Packed(c, i)) == c
  {
  }

  // ---- one instruction ----

  /** An immediate instruction whose operand field is still empty. */
  predicate IsTemplate(op: bv32) {
    IsImm(op) && Known(OpField(op)) && op & 0xfff == 0
  }

  /** Any data-processing instruction with an immediate operand that is still empty, flags or not. */
  predicate IsDataImm(op: bv32) { op & 0x0e00_0fff == 0x0200_0000 }

  /** w is op with the operand c: condition, operation, flag bit and registers are those of op. */
  predicate Carries(w: bv32, op: bv32, c: bv32) {
    w & 0xffff_f000 == op && Expand(w) == c
  }

  lemma TemplateData(op: bv32)
    requires IsTemplate(op)
    ensures IsDataImm(op)
  {}

  lemma PackedCarries(op: bv32, c: bv32, i: bv8)
    requires IsDataImm(op) && i < 32 && Even(i) && FitsAt(c, i)
    ensures Carries(op | Packed(c, i), op, c) && op | Packed(c, i) != 0
  {
    DataEmpty(op);
    PackedExpands(op, c, i);
    hide Expand, FitsAt, Packed;
    OrKeeps(op, Packed(c, i));
  }

  lemma DataEmpty(op: bv32)
    requires IsDataImm(op)
    ensures op & 0xfff == 0
  {}

  lemma OrKeeps(op: bv32, k: bv32)
    requires IsDataImm(op) && k & !0xfff == 0
    ensures (op | k) & 0xffff_f000 == op && op | k != 0
  {}

  /** Executing w does what op would do with the constant c, for every register file. */
  ghost predicate Means(w: bv32, op: bv32, c: bv32) {
    forall s: Regs :: Exec(w, s) == Some(Write(s, RdField(op), Result(OpField(op), Read(s, RnField(op)), c)))
  }

  lemma FieldsKept(op: bv32, k: bv32)
    requires k & !0xfff == 0 && IsTemplate(op)
    ensures IsImm(op | k) && OpField(op | k) == OpField(op) && RnField(op | k) == RnField(op)
      && RdField(op | k) == RdField(op)
  {}

  lemma ImmMeans(op: bv32, c: bv32, i: bv8)
    requires IsTemplate(op) && i < 32 && Even(i) && FitsAt(c, i)
    ensures Means(op | Packed(c, i), op, c)
  {
    PackedExpands(op, c, i) by { EmptyField(op); }
    FieldsKept(op, Packed(c, i));
    hide Packed, Expand, FitsAt, OpField, RnField, RdField, IsImm, Known, Result;
  }

  lemma EmptyField(op: bv32)
    requires IsTemplate(op)
    ensures op & 0xfff == 0
  {}

  /** The operation that does the same with the opposite constant. */
  function NegOp(op: bv32): bv32 {
    if OpField(op) == 2 || OpField(op) == 4 then op ^ 0x00c0_0000
    else if OpField(op) == 13 || OpField(op) == 15 then op ^ 0x0040_0000
    else op ^ 0x01c0_0000
  }

  function NegConst(op: bv32, c: bv32): bv32 {
    if OpField(op) == 2 || OpField(op) == 4 then 0 - c else !c
  }

  predicate HasNeg(op: bv32) {
    var f := OpField(op);
    f == 0 || f == 2 || f == 4 || f == 13 || f == 14 || f == 15
  }

  lemma NegFields(op: bv32)
    requires IsTemplate(op) && HasNeg(op)
    ensures var n := NegOp(op);
      IsTemplate(n) && RnField(n) == RnField(op) && RdField(n) == RdField(op)
  {}

  lemma NegResult(op: bv32, a: bv32, c: bv32)
    requires IsTemplate(op) && HasNeg(op)
    ensures Result(OpField(NegOp(op)), a, NegConst(op, c)) == Result(OpField(op), a, c)
  {
    hide NegOp, OpField, Result, IsTemplate;
    NegField(op);
    NegBy(OpField(op), OpField(NegOp(op)), a, c);
  }

  lemma NegBy(f: bv32, n: bv32, a: bv32, c: bv32)
    requires (f == 2 && n == 4) || (f == 4 && n == 2) || (f == 13 && n == 15) || (f == 15 && n == 13)
      || (f == 0 && n == 14) || (f == 14 && n == 0)
    ensures Result(n, a, if f == 2 || f == 4 then 0 - c else !c) == Result(f, a, c)
  {
    hide Result;
    AddSubNeg(a, c);
    MoveNeg(a, c);
    ClearNeg(a, c);
  }

  lemma AddSubNeg(a: bv32, c: bv32)
    ensures Result(4, a, 0 - c) == Result(2, a, c) && Result(2, a, 0 - c) == Result(4, a, c)
  {}

  lemma MoveNeg(a: bv32, c: bv32)
    ensures Result(15, a, !c) == Result(13, a, c) && Result(13, a, !c) == Result(15, a, c)
  {}

  lemma ClearNeg(a: bv32, c: bv32)
    ensures Result(14, a, !c) == Result(0, a, c) && Result(0, a, !c) == Result(14, a, c)
  {
    assert (a & !!c) ^ (a & c) == 0;
  }

  lemma NegField(op: bv32)
    requires HasNeg(op)
    ensures var f, n := OpField(op), OpField(NegOp(op));
      (f == 2 ==> n == 4) && (f == 4 ==> n == 2) && (f == 13 ==> n == 15) && (f == 15 ==> n == 13)
      && (f == 0 ==> n == 14) && (f == 14 ==> n == 0)
  {}

  lemma NegMeans(w: bv32, op: bv32, c: bv32)
    requires IsTemplate(op) && HasNeg(op) && Means(w, NegOp(op), NegConst(op, c))
    ensures Means(w, op, c)
  {
    NegFields(op);
    forall a ensures Result(OpField(NegOp(op)), a, NegConst(op, c)) == Result(OpField(op), a, c) {
      NegResult(op, a, c);
    }
    hide NegOp, NegConst, OpField, RnField, RdField, Result, Exec;
  }

  /** The words used for a constant of all ones. */
  function OnesWord(op: bv32): bv32 {
    if OpField(op) == 1 then (op & 0xf010_f000) | ((op >> 16) & 0xf) | 0x01e0_0000
    else if OpField(op) == 0 then (op & 0xf010_f000) | ((op >> 16) & 0xf) | 0x01a0_0000
    else (op & 0xfff0_ffff) | 0x01e0_0000
  }

  predicate HasOnes(op: bv32) {
    OpField(op) == 0 || OpField(op) == 1 || OpField(op) == 12
  }

  lemma OnesFields(op: bv32)
    requires IsTemplate(op) && HasOnes(op)
    ensures var w := OnesWord(op);
      RdField(w) == RdField(op) && w != 0
      && (if OpField(op) == 12 then IsImm(w) && OpField(w) == 15 && Expand(w) == 0
          else
            !IsImm(w) && IsPlainReg(w) && w & 0xf == RnField(op)
            && OpField(w) == if OpField(op) == 1 then 15 else 13)
  {}

  lemma OnesMeans(op: bv32)
    requires IsTemplate(op) && HasOnes(op)
    ensures Means(OnesWord(op), op, 0xffff_ffff)
  {
    OnesFields(op);
    hide OnesWord, OpField, RnField, RdField, IsImm, IsPlainReg, Expand;
    forall s: Regs
      ensures Exec(OnesWord(op), s) == Some(Write(s, RdField(op),
        Result(OpField(op), Read(s, RnField(op)), 0xffff_ffff)))
    {
      AllOnes(Read(s, RnField(op)));
    }
  }

  lemma AllOnes(a: bv32)
    ensures a & 0xffff_ffff == a && a ^ 0xffff_ffff == !a && a | 0xffff_ffff == 0xffff_ffff
      && !(0 as bv32) == 0xffff_ffff
  {}

  /** A single instruction can do it. */
  ghost predicate Encodable(op: bv32, c: bv32) {
    Fits(c) || (HasNeg(op) && Fits(NegConst(op, c))) || (HasOnes(op) && c == 0xffff_ffff)
  }

  lemma ByteFits(c: bv32)
    ensures c < 256 <==> FitsAt(c, 0)
    ensures c < 256 ==> Packed(c, 0) == c
  {}

  /** No even rotation below i fits. */
  ghost predicate NoneBelow(c: bv32, i: bv8) {
    forall j: bv8 :: j < i && j < 32 && Even(j) ==> !FitsAt(c, j)
  }

  lemma NoneStart(c: bv32)
    requires !FitsAt(c, 0)
    ensures NoneBelow(c, 2)
  {
    hide FitsAt;
    forall j: bv8 | j < 2 && Even(j) ensures j == 0 {}
  }

  lemma NoneNext(c: bv32, i: bv8)
    requires NoneBelow(c, i) && i < 32 && Even(i) && !FitsAt(c, i)
    ensures NoneBelow(c, i + 2)
  {
    hide FitsAt;
    forall j: bv8 | j < i + 2 && j < 32 && Even(j) ensures !FitsAt(c, j) { EvenBelow(i, j); }
  }

  lemma EvenBelow(i: bv8, j: bv8)
    requires i < 32 && Even(i) && j < i + 2 && Even(j)
    ensures j < i || j == i
  {}

  lemma NoneEnd(c: bv32, i: bv8)
    requires NoneBelow(c, i) && 32 <= i
    ensures !Fits(c)
  {
    hide FitsAt;
  }

  lemma SomeFits(c: bv32, i: bv8)
    requires i < 32 && Even(i)
    ensures FitsAt(c, i) ==> Fits(c)
  {
    hide FitsAt;
  }

  lemma SmallEvens()
    ensures Even(0) && Even(2)
  {}

  lemma EvenNext(i: bv8)
    requires Even(i) && i < 32
    ensures Even(i + 2) && i < i + 2 <= 32
  {}

  /** One pass of stuff_const: the first rotation that fits. */
  method PackImm(op: bv32, c: bv32) returns (w: bv32)
    requires IsDataImm(op)
    ensures w == 0 <==> !Fits(c)
    ensures w != 0 ==> Carries(w, op, c) && (IsTemplate(op) ==> Means(w, op, c))
  {
    hide FitsAt, Packed, Means, IsTemplate, IsDataImm, NoneBelow, Fits, Even, Carries;
    assert Even(0) && Even(2) by { SmallEvens(); }
    w := 0;
    ByteFits(c);
    SomeFits(c, 0);
    if c < 256 {
      PackedWord(op, c, 0);
      w := op | c;
    } else {
      var i: bv8 := 2;
      NoneStart(c);
      while i < 32 && w == 0
        invariant 2 <= i <= 32 && Even(i)
        invariant w == 0 ==> NoneBelow(c, i)
        invariant w != 0 ==> Fits(c) && Carries(w, op, c) && (IsTemplate(op) ==> Means(w, op, c))
        decreases w == 0, 32 - i
      {
        if FitsAt(c, i) {
          PackedWord(op, c, i);
          SomeFits(c, i);
          w := op | Packed(c, i);
        } else {
          NoneNext(c, i);
          EvenNext(i);
          i := i + 2;
        }
      }
      if w == 0 { NoneEnd(c, i); }
    }
  }

  lemma PackedWord(op: bv32, c: bv32, i: bv8)
    requires IsDataImm(op) && i < 32 && Even(i) && FitsAt(c, i)
    ensures var w := op | Packed(c, i); w != 0 && Carries(w, op, c) && (IsTemplate(op) ==> Means(w, op, c))
  {
    hide FitsAt, Packed, Means, IsTemplate, IsDataImm, Even, Carries;
    PackedCarries(op, c, i);
    if IsTemplate(op) { ImmMeans(op, c, i); }
  }

  /**
    * The word for op with the constant c, or 0 when no single instruction does it. The eight
    * operations that leave the flags alone have replacements; every other one takes c as it is.
    */
  method StuffConst(op: bv32, c: bv32) returns (w: bv32)
    requires IsDataImm(op)
    ensures w == 0 <==> if IsTemplate(op) then !Encodable(op, c) else !Fits(c)
    ensures w != 0 && IsTemplate(op) ==> Means(w, op, c)
    ensures w != 0 && !IsTemplate(op) ==> Carries(w, op, c)
  {
    hide Fits, Means, IsTemplate, IsDataImm, OpField, OnesWord, Carries;
    if IsTemplate(op) && HasOnes(op) && c == 0xffff_ffff {
      OnesMeans(op);
      OnesFields(op);
      w := OnesWord(op);
    } else {
      w := PackImm(op, c);
      if w == 0 && IsTemplate(op) && HasNeg(op) {
        NegFields(op);
        TemplateData(NegOp(op));
        w := PackImm(NegOp(op), NegConst(op, c));
        if w != 0 { NegMeans(w, op, c); }
      }
    }
  }

  // ---- sums of rotated bytes ----

  /** An add or sub template; what the several-instruction form is used for. */
  predicate IsAddSub(op: bv32) {
    IsTemplate(op) && (OpField(op) == 2 || OpField(op) == 4)
  }

  /** The same operation with the destination as its first operand. */
  function OnItself(op: bv32): bv32 {
    (op & 0xfff0_ffff) | ((op & 0xf000) << 4)
  }

  lemma ItselfFields(op: bv32)
    requires IsAddSub(op)
    ensures var o := OnItself(op);
      IsAddSub(o) && OpField(o) == OpField(op) && RdField(o) == RdField(op) && RnField(o) == RdField(op)
  {}

  function Plus(opc: bv32, a: bv32, b: bv32): bv32 {
    if opc == 2 then a - b else a + b
  }

  /** Running the code sets the template's destination to its first operand plus or minus v. */
  ghost predicate Adds(code: seq<bv32>, op: bv32, v: bv32) {
    forall s: Regs :: Run(code, s) == Some(Write(s, RdField(op), Plus(OpField(op), Read(s, RnField(op)), v)))
  }

  lemma ResultPlus(opc: bv32, a: bv32, b: bv32)
    requires opc == 2 || opc == 4
    ensures Result(opc, a, b) == Plus(opc, a, b)
  {}

  lemma AddsOne(w: bv32, op: bv32, v: bv32)
    requires IsAddSub(op) && Means(w, op, v)
    ensures Adds([w], op, v)
  {
    hide Exec, RdField, RnField, OpField, IsTemplate, Result, Plus;
    forall a ensures Result(OpField(op), a, v) == Plus(OpField(op), a, v) { ResultPlus(OpField(op), a, v); }
    forall s: Regs
      ensures Run([w], s) == Some(Write(s, RdField(op), Plus(OpField(op), Read(s, RnField(op)), v)))
    {
      var r := Exec(w, s);
      assert [w][1..] == [];
      assert Run([w][1..], r.value) == Some(r.value);
    }
  }

  lemma {:induction false} RunAppend(a: seq<bv32>, b: seq<bv32>, s: Regs)
    ensures Run(a + b, s) == (var r := Run(a, s); if r.None? then None else Run(b, r.value))
    decreases |a|
  {
    hide Exec;
    if a == [] {
      assert a + b == b;
    } else {
      assert (a + b)[1..] == a[1..] + b;
      var r := Exec(a[0], s);
      if r.Some? { RunAppend(a[1..], b, r.value); }
    }
  }

  lemma WriteTwice(s: Regs, r: bv32, x: bv32, y: bv32)
    ensures Read(Write(s, r, x), r) == x && Write(Write(s, r, x), r, y) == Write(s, r, y)
  {}

  function Add(x: bv32, y: bv32): bv32 { x + y }

  function And(x: bv32, y: bv32): bv32 { x & y }

  function Or(x: bv32, y: bv32): bv32 { x | y }

  lemma PlusTwice(opc: bv32, a: bv32, x: bv32, y: bv32)
    ensures Plus(opc, Plus(opc, a, x), y) == Plus(opc, a, Add(x, y))
  {
    hide Plus, Add;
    AddIs(x, y, x + y);
    if opc == 2 {
      PlusIs(opc, a, x, a - x);
      MinusTwice(a, x, y);
    } else {
      PlusIs(opc, a, x, a + x);
      AddTwice(opc, a, x, y);
    }
  }

  lemma AddIs(x: bv32, y: bv32, s: bv32)
    requires s == x + y
    ensures Add(x, y) == s
  {}

  lemma AndIs(x: bv32, y: bv32, s: bv32)
    requires s == x & y
    ensures And(x, y) == s
  {}

  lemma OrIs(x: bv32, y: bv32, s: bv32)
    requires s == x | y
    ensures Or(x, y) == s
  {}

  lemma PlusIs(opc: bv32, a: bv32, x: bv32, p: bv32)
    requires p == if opc == 2 then a - x else a + x
    ensures Plus(opc, a, x) == p
  {}

  lemma MinusTwice(a: bv32, x: bv32, y: bv32)
    ensures Plus(2, a - x, y) == Plus(2, a, x + y)
  {}

  lemma AddTwice(opc: bv32, a: bv32, x: bv32, y: bv32)
    requires opc != 2
    ensures Plus(opc, a + x, y) == Plus(opc, a, x + y)
  {}

  /** A further instruction on the destination adds to the sum. */
  lemma AddsMore(code: seq<bv32>, w: bv32, op: bv32, x: bv32, y: bv32)
    requires IsAddSub(op) && Adds(code, op, x) && Means(w, OnItself(op), y)
    ensures Adds(code + [w], op, Add(x, y))
  {
    ItselfFields(op);
    AddsOne(w, OnItself(op), y);
    hide Exec, RdField, RnField, OpField, IsAddSub, OnItself, Plus, Read, Write, Means, Add;
    forall s: Regs
      ensures Run(code + [w], s) == Some(Write(s, RdField(op), Plus(OpField(op), Read(s, RnField(op)), Add(x, y))))
    {
      RunAppend(code, [w], s);
      var a := Plus(OpField(op), Read(s, RnField(op)), x);
      WriteTwice(s, RdField(op), a, Plus(OpField(op), a, y));
      PlusTwice(OpField(op), Read(s, RnField(op)), x, y);
    }
  }

  /** Subtracting v is adding its negative. */
  lemma AddsNeg(code: seq<bv32>, op: bv32, v: bv32)
    requires IsAddSub(op) && Adds(code, NegOp(op), 0 - v)
    ensures Adds(code, op, v)
  {
    NegFields(op);
    NegField(op);
    forall a ensures Plus(OpField(NegOp(op)), a, 0 - v) == Plus(OpField(op), a, v) {
      PlusNeg(OpField(op), OpField(NegOp(op)), a, v);
    }
    hide NegOp, RdField, RnField, OpField, Plus, Run;
  }

  lemma PlusNeg(f: bv32, n: bv32, a: bv32, v: bv32)
    requires (f == 2 && n == 4) || (f == 4 && n == 2)
    ensures Plus(n, a, 0 - v) == Plus(f, a, v)
  {}

  lemma NegAddSub(op: bv32)
    requires IsAddSub(op)
    ensures IsAddSub(NegOp(op)) && OnItself(NegOp(op)) == NegOp(OnItself(op))
  {}

  /** The rotations whose windows, 4 apart and at most 12, do not overlap. */
  predicate Separate(i: bv8, j: bv8) {
    i < 16 && j < 16 && i + 4 <= j <= i + 12
  }

  function Window(i: bv8): bv32
    requires i < 16
  {
    Mask(i << 1)
  }

  lemma WindowFits(v: bv32, i: bv8)
    requires i < 16
    ensures Fits(And(v, Window(i)))
  {
    WindowFitsAt(v, i);
  }

  lemma WindowFitsAt(v: bv32, i: bv8)
    requires i < 16
    ensures (i << 1) < 32 && Even(i << 1) && FitsAt(And(v, Window(i)), i << 1)
  {}

  lemma WindowsApart(i: bv8, j: bv8)
    requires Separate(i, j)
    ensures And(Window(i), Window(j)) == 0
  {}

  /** Pieces that do not overlap add up to what they cover. */
  lemma TwoPieces(v: bv32, a: bv32, b: bv32)
    requires And(a, b) == 0 && And(v, Or(a, b)) == v
    ensures Add(And(v, a), And(v, b)) == v
  {}

  lemma ThreePieces(v: bv32, a: bv32, b: bv32, c: bv32)
    requires And(a, b) == 0 && And(a, c) == 0 && And(b, c) == 0 && And(v, Or(Or(a, b), c)) == v
    ensures Add(Add(And(v, a), And(v, b)), And(v, c)) == v
  {
    TwoOf(v, a, b);
    assert And(Or(a, b), c) == 0;
    hide Add;
    TwoPieces(v, Or(a, b), c);
  }

  lemma TwoOf(v: bv32, a: bv32, b: bv32)
    requires And(a, b) == 0
    ensures Add(And(v, a), And(v, b)) == And(v, Or(a, b))
  {
    assert a & b == 0;
    hide Add, And, Or;
    AndIs(v, a, v & a);
    AndIs(v, b, v & b);
    OrIs(a, b, a | b);
    TwoOfBits(v, a, b);
  }

  lemma TwoOfBits(v: bv32, a: bv32, b: bv32)
    requires a & b == 0
    ensures Add(v & a, v & b) == And(v, a | b)
  {}

  lemma FourPieces(v: bv32)
    ensures Add(Add(Add(And(v, Window(0)), And(v, Window(4))), And(v, Window(8))), And(v, Window(12))) == v
  {
    assert And(Window(0), Window(4)) == 0 && And(Or(Window(0), Window(4)), Window(8)) == 0;
    assert And(Or(Or(Window(0), Window(4)), Window(8)), Window(12)) == 0;
    assert And(v, Or(Or(Or(Window(0), Window(4)), Window(8)), Window(12))) == v;
    TwoOf(v, Window(0), Window(4));
    TwoOf(v, Or(Window(0), Window(4)), Window(8));
    hide Add, And, Or, Window;
    TwoPieces(v, Or(Or(Window(0), Window(4)), Window(8)), Window(12));
  }

  function Sum(ps: seq<bv32>): bv32
    requires ps != []
  {
    if |ps| == 1 then ps[0] else Add(Sum(ps[..|ps| - 1]), ps[|ps| - 1])
  }

  lemma FitsEncodable(op: bv32, c: bv32)
    requires Fits(c)
    ensures Encodable(op, c)
  {}

  lemma TemplateOf(op: bv32)
    requires IsAddSub(op)
    ensures IsTemplate(op) && IsTemplate(OnItself(op)) && IsAddSub(OnItself(op))
    ensures IsDataImm(op) && IsDataImm(OnItself(op))
  {
    ItselfFields(op);
    TemplateData(op);
    TemplateData(OnItself(op));
  }

  /** One instruction a piece: the first on the source register, the others on the destination. */
  method EmitPieces(text: Text, op: bv32, ps: seq<bv32>) returns (ghost code: seq<bv32>)
    requires IsAddSub(op) && ps != [] && forall k :: 0 <= k < |ps| ==> Fits(ps[k])
    modifies text
    ensures text.words == old(text.words) + code && |code| == |ps| && Adds(code, op, Sum(ps))
  {
    hide Fits, Means, Adds, IsTemplate, IsAddSub, OnItself, Encodable, Add;
    TemplateOf(op);
    FitsEncodable(op, ps[0]);
    var w := StuffConst(op, ps[0]);
    AddsOne(w, op, ps[0]);
    text.O(w);
    code := [w];
    var k := 1;
    assert ps[..1] == [ps[0]];
    while k < |ps|
      invariant 1 <= k <= |ps| && |code| == k && text.words == old(text.words) + code
      invariant Adds(code, op, Sum(ps[..k]))
    {
      FitsEncodable(OnItself(op), ps[k]);
      w := StuffConst(OnItself(op), ps[k]);
      AddsMore(code, w, op, Sum(ps[..k]), ps[k]);
      assert ps[..k + 1][..k] == ps[..k];
      text.O(w);
      code := code + [w];
      k := k + 1;
    }
    assert ps[..k] == ps;
  }

  predicate PairCovers(v: bv32, i: bv8, j: bv8) {
    Separate(i, j) && And(v, Or(Window(i), Window(j))) == v
  }

  predicate TripleCovers(v: bv32, i: bv8, j: bv8, k: bv8) {
    Separate(i, j) && Separate(j, k) && Separate(i, k) && And(v, Or(Or(Window(i), Window(j)), Window(k))) == v
  }

  /** Two separate windows cover v. */
  ghost predicate Paired(v: bv32) {
    exists i, j :: PairCovers(v, i, j)
  }

  /** Three separate windows cover v. */
  ghost predicate Tripled(v: bv32) {
    exists i, j, k :: TripleCovers(v, i, j, k)
  }

  ghost predicate NoPairBelow(v: bv32, n: bv8) {
    forall i, j :: i < n ==> !PairCovers(v, i, j)
  }

  ghost predicate NoPairAbove(v: bv32, i: bv8, n: bv8) {
    forall j :: j > n ==> !PairCovers(v, i, j)
  }

  lemma PairRange(v: bv32, i: bv8, j: bv8)
    requires PairCovers(v, i, j)
    ensures i < 12 && i + 4 <= j <= 15 && j <= i + 12
  {
    hide And, Or, Window;
  }

  lemma PairRow(v: bv32, i: bv8, n: bv8)
    requires i < 12 && NoPairBelow(v, i) && NoPairAbove(v, i, n) && n < i + 4
    ensures NoPairBelow(v, i + 1)
  {
    hide PairCovers;
    forall a, b | a < i + 1 ensures !PairCovers(v, a, b) {
      if PairCovers(v, a, b) { PairRange(v, a, b); }
    }
  }

  lemma PairAll(v: bv32)
    requires NoPairBelow(v, 12)
    ensures !Paired(v)
  {
    hide PairCovers;
    forall a, b ensures !PairCovers(v, a, b) {
      if PairCovers(v, a, b) { PairRange(v, a, b); }
    }
  }

  lemma PairTop(v: bv32, i: bv8, n: bv8)
    requires i < 12 && n == if i < 4 then i + 12 else 15
    ensures NoPairAbove(v, i, n)
  {
    hide PairCovers;
    forall b | b > n ensures !PairCovers(v, i, b) {
      if PairCovers(v, i, b) { PairRange(v, i, b); }
    }
  }

  lemma PairNext(v: bv32, i: bv8, n: bv8)
    requires NoPairAbove(v, i, n) && n > 0 && !PairCovers(v, i, n)
    ensures NoPairAbove(v, i, n - 1)
  {
    hide PairCovers;
  }

  /** Two separate windows that cover v, if there are any. */
  method FindPair(v: bv32) returns (found: bool, i: bv8, j: bv8)
    ensures found <==> Paired(v)
    ensures found ==> PairCovers(v, i, j)
  {
    hide PairCovers, NoPairBelow, NoPairAbove;
    found, i, j := false, 0, 0;
    PairStart(v);
    while i < 12 && !found
      invariant i <= 12 && if found then PairCovers(v, i, j) else NoPairBelow(v, i)
      decreases !found, 12 - i
    {
      j := if i < 4 then i + 12 else 15;
      PairTop(v, i, j);
      while j >= i + 4 && !found
        invariant i < 12 && i + 3 <= j <= 15 && j <= i + 12
        invariant if found then PairCovers(v, i, j) else NoPairBelow(v, i) && NoPairAbove(v, i, j)
        decreases !found, j
      {
        if PairCovers(v, i, j) { found := true; } else { PairNext(v, i, j); j := j - 1; }
      }
      if !found { PairRow(v, i, j); i := i + 1; }
    }
    if !found { PairAll(v); }
  }

  lemma PairStart(v: bv32)
    ensures NoPairBelow(v, 0)
  {}

  ghost predicate NoTripleBelow(v: bv32, n: bv8) {
    forall i, j, k :: i < n ==> !TripleCovers(v, i, j, k)
  }

  ghost predicate NoTripleMid(v: bv32, i: bv8, n: bv8) {
    forall j, k :: j < n ==> !TripleCovers(v, i, j, k)
  }

  ghost predicate NoTripleAbove(v: bv32, i: bv8, j: bv8, n: bv8) {
    forall k :: k > n ==> !TripleCovers(v, i, j, k)
  }

  lemma TripleRange(v: bv32, i: bv8, j: bv8, k: bv8)
    requires TripleCovers(v, i, j, k)
    ensures i < 8 && i + 4 <= j < 12 && j + 4 <= k <= 15 && k <= i + 12
  {
    hide And, Or, Window;
  }

  lemma TripleStart(v: bv32)
    ensures NoTripleBelow(v, 0)
  {}

  lemma TripleLeft(v: bv32, i: bv8)
    requires i < 8
    ensures NoTripleMid(v, i, i + 4)
  {
    hide TripleCovers;
    forall b, c | b < i + 4 ensures !TripleCovers(v, i, b, c) {
      if TripleCovers(v, i, b, c) { TripleRange(v, i, b, c); }
    }
  }

  lemma TripleTop(v: bv32, i: bv8, j: bv8, n: bv8)
    requires i < 8 && n == if i < 4 then i + 12 else 15
    ensures NoTripleAbove(v, i, j, n)
  {
    hide TripleCovers;
    forall c | c > n ensures !TripleCovers(v, i, j, c) {
      if TripleCovers(v, i, j, c) { TripleRange(v, i, j, c); }
    }
  }

  lemma TripleNext(v: bv32, i: bv8, j: bv8, n: bv8)
    requires NoTripleAbove(v, i, j, n) && n > 0 && !TripleCovers(v, i, j, n)
    ensures NoTripleAbove(v, i, j, n - 1)
  {
    hide TripleCovers;
  }

  lemma TripleColumn(v: bv32, i: bv8, j: bv8, n: bv8)
    requires j < 12 && NoTripleMid(v, i, j) && NoTripleAbove(v, i, j, n) && n < j + 4
    ensures NoTripleMid(v, i, j + 1)
  {
    hide TripleCovers;
    forall b, c | b < j + 1 ensures !TripleCovers(v, i, b, c) {
      if TripleCovers(v, i, b, c) { TripleRange(v, i, b, c); }
    }
  }

  lemma TripleRow(v: bv32, i: bv8)
    requires i < 8 && NoTripleBelow(v, i) && NoTripleMid(v, i, 12)
    ensures NoTripleBelow(v, i + 1)
  {
    hide TripleCovers;
    forall a, b, c | a < i + 1 ensures !TripleCovers(v, a, b, c) {
      if TripleCovers(v, a, b, c) { TripleRange(v, a, b, c); }
    }
  }

  lemma TripleAll(v: bv32)
    requires NoTripleBelow(v, 8)
    ensures !Tripled(v)
  {
    hide TripleCovers;
    forall a, b, c ensures !TripleCovers(v, a, b, c) {
      if TripleCovers(v, a, b, c) { TripleRange(v, a, b, c); }
    }
  }

  /** Three separate windows that cover v, if there are any. */
  method FindTriple(v: bv32) returns (found: bool, i: bv8, j: bv8, k: bv8)
    ensures found <==> Tripled(v)
    ensures found ==> TripleCovers(v, i, j, k)
  {
    hide TripleCovers, NoTripleBelow, NoTripleMid, NoTripleAbove;
    found, i, j, k := false, 0, 0, 0;
    TripleStart(v);
    while i < 8 && !found
      invariant i <= 8 && if found then TripleCovers(v, i, j, k) else NoTripleBelow(v, i)
      decreases !found, 8 - i
    {
      j := i + 4;
      TripleLeft(v, i);
      while j < 12 && !found
        invariant i < 8 && i + 4 <= j <= 12
        invariant if found then TripleCovers(v, i, j, k) else NoTripleBelow(v, i) && NoTripleMid(v, i, j)
        decreases !found, 12 - j
      {
        k := if i < 4 then i + 12 else 15;
        TripleTop(v, i, j, k);
        while k >= j + 4 && !found
          invariant i < 8 && i + 4 <= j < 12 && k <= 15 && k <= i + 12
          invariant if found then TripleCovers(v, i, j, k)
            else NoTripleBelow(v, i) && NoTripleMid(v, i, j) && NoTripleAbove(v, i, j, k)
          decreases !found, k
        {
          if TripleCovers(v, i, j, k) { found := true; } else { TripleNext(v, i, j, k); k := k - 1; }
        }
        if !found { TripleColumn(v, i, j, k); j := j + 1; }
      }
      if !found { TripleRow(v, i); i := i + 1; }
    }
    if !found { TripleAll(v); }
  }

  lemma PairSum(v: bv32, i: bv8, j: bv8)
    requires PairCovers(v, i, j)
    ensures i < 16 && j < 16 && Sum([And(v, Window(i)), And(v, Window(j))]) == v
    ensures Fits(And(v, Window(i))) && Fits(And(v, Window(j)))
  {
    hide Window, And, Or, Add, Fits;
    WindowsApart(i, j);
    WindowFits(v, i);
    WindowFits(v, j);
    TwoPieces(v, Window(i), Window(j));
    assert [And(v, Window(i)), And(v, Window(j))][..1] == [And(v, Window(i))];
  }

  lemma TripleSum(v: bv32, i: bv8, j: bv8, k: bv8)
    requires TripleCovers(v, i, j, k)
    ensures i < 16 && j < 16 && k < 16 && Sum([And(v, Window(i)), And(v, Window(j)), And(v, Window(k))]) == v
    ensures Fits(And(v, Window(i))) && Fits(And(v, Window(j))) && Fits(And(v, Window(k)))
  {
    hide Window, And, Or, Add, Fits;
    WindowsApart(i, j);
    WindowsApart(j, k);
    WindowsApart(i, k);
    WindowFits(v, i);
    WindowFits(v, j);
    WindowFits(v, k);
    ThreePieces(v, Window(i), Window(j), Window(k));
    var x, y, z := And(v, Window(i)), And(v, Window(j)), And(v, Window(k));
    assert [x, y, z][..2] == [x, y] && [x, y][..1] == [x];
    assert Sum([x, y]) == Add(x, y);
  }

  lemma FourSum(v: bv32)
    ensures Sum([And(v, Window(0)), And(v, Window(4)), And(v, Window(8)), And(v, Window(12))]) == v
    ensures Fits(And(v, Window(0))) && Fits(And(v, Window(4))) && Fits(And(v, Window(8))) && Fits(And(v, Window(12)))
  {
    hide Window, And, Or, Add, Fits;
    FourPieces(v);
    WindowFits(v, 0);
    WindowFits(v, 4);
    WindowFits(v, 8);
    WindowFits(v, 12);
    var x, y, z, w := And(v, Window(0)), And(v, Window(4)), And(v, Window(8)), And(v, Window(12));
    assert [x, y, z, w][..3] == [x, y, z] && [x, y, z][..2] == [x, y] && [x, y][..1] == [x];
    assert Sum([x, y]) == Add(x, y) && Sum([x, y, z]) == Add(Add(x, y), z);
  }

  /** How many instructions v takes: as few pieces of v, or else of its negative, as separate windows allow. */
  ghost function PieceCount(op: bv32, v: bv32): nat {
    if Encodable(op, v) then 1
    else if Paired(v) || Paired(0 - v) then 2
    else if Tripled(v) || Tripled(0 - v) then 3
    else 4
  }

  /** Sets the template's destination to its first operand plus or minus any v, in one to four instructions. */
  method StuffConstHarder(text: Text, op: bv32, v: bv32) returns (ghost code: seq<bv32>)
    requires IsAddSub(op)
    modifies text
    ensures text.words == old(text.words) + code && |code| == PieceCount(op, v) <= 4 && Adds(code, op, v)
  {
    hide Fits, Means, Adds, IsTemplate, IsAddSub, NegOp, Encodable, Sum, And, Window, PairCovers, TripleCovers, Paired,
      Tripled;
    TemplateOf(op);
    NegAddSub(op);
    var x := StuffConst(op, v);
    if x != 0 {
      AddsOne(x, op, v);
      text.O(x);
      code := [x];
    } else {
      var nv := 0 - v;
      var pair, i, j := FindPair(v);
      var negPair, ni, nj := FindPair(nv);
      var triple, ti, tj, tk := FindTriple(v);
      var negTriple, mi, mj, mk := FindTriple(nv);
      if pair {
        PairSum(v, i, j);
        code := EmitPieces(text, op, [And(v, Window(i)), And(v, Window(j))]);
      } else if negPair {
        PairSum(nv, ni, nj);
        code := EmitPieces(text, NegOp(op), [And(nv, Window(ni)), And(nv, Window(nj))]);
        AddsNeg(code, op, v);
      } else if triple {
        TripleSum(v, ti, tj, tk);
        code := EmitPieces(text, op, [And(v, Window(ti)), And(v, Window(tj)), And(v, Window(tk))]);
      } else if negTriple {
        TripleSum(nv, mi, mj, mk);
        code := EmitPieces(text, NegOp(op), [And(nv, Window(mi)), And(nv, Window(mj)), And(nv, Window(mk))]);
        AddsNeg(code, op, v);
      } else {
        FourSum(v);
        code := EmitPieces(text, op, [And(v, Window(0)), And(v, Window(4)), And(v, Window(8)), And(v, Window(12))]);
      }
    }
  }

  // ---- addresses ----

  /** The offset ranges of the load and store forms: word and byte, halfword and signed, and floating point. */
  predicate IsOffsetRange(maxoff: bv32, low: bv32) {
    (maxoff == 4095 && low == 0) || (maxoff == 255 && low == 0) || (maxoff == 1020 && low == 3)
  }

  predicate InRange(off: bv32, maxoff: bv32, low: bv32) {
    off <= maxoff && off & low == 0
  }

  function Address(s: Regs, base: bv32, off: bv32, sgn: bool): bv32 {
    Plus(if sgn then 2 else 4, Read(s, base), off)
  }

  function AddrTemplate(base: bv32, sgn: bool): bv32 {
    (if sgn then 0xe240_e000 else 0xe280_e000) | (base << 16)
  }

  lemma TemplateFields(base: bv32, sgn: bool)
    requires base < 16
    ensures var x := AddrTemplate(base, sgn);
      IsAddSub(x) && RdField(x) == 14 && RnField(x) == base && OpField(x) == if sgn then 2 else 4
  {}

  function Above(off: bv32, maxoff: bv32): bv32 { off & !maxoff }

  function Below(off: bv32, maxoff: bv32): bv32 { off & maxoff }

  /** The next value above off that clears the offset field. */
  function Rounded(off: bv32, maxoff: bv32): bv32 { (off + maxoff) & !maxoff }

  function Excess(off: bv32, maxoff: bv32): bv32 { Rounded(off, maxoff) - off }

  lemma SplitSum(f: bv32, a: bv32, off: bv32, maxoff: bv32)
    ensures Plus(f, Plus(f, a, Above(off, maxoff)), Below(off, maxoff)) == Plus(f, a, off)
  {
    hide Plus, Above, Below, Add;
    PlusTwice(f, a, Above(off, maxoff), Below(off, maxoff));
    SplitOff(off, maxoff);
  }

  lemma SplitOff(off: bv32, maxoff: bv32)
    ensures Add(Above(off, maxoff), Below(off, maxoff)) == off
  {}

  lemma BelowInRange(off: bv32, maxoff: bv32, low: bv32)
    requires IsOffsetRange(maxoff, low)
    ensures InRange(Below(off, maxoff), maxoff, low)
  {}

  lemma ExcessInRange(off: bv32, maxoff: bv32, low: bv32)
    requires IsOffsetRange(maxoff, low) && off < 0x8000_0000
    ensures InRange(Excess(off, maxoff), maxoff, low)
  {
    if maxoff == 4095 { Excess4095(off); } else if maxoff == 255 { Excess255(off); } else { Excess1020(off); }
  }

  lemma Excess4095(off: bv32)
    requires off < 0x8000_0000
    ensures ((off + 4095) & !4095) - off <= 4095
  {}

  lemma Excess255(off: bv32)
    requires off < 0x8000_0000
    ensures ((off + 255) & !255) - off <= 255
  {}

  lemma Excess1020(off: bv32)
    requires off < 0x8000_0000
    ensures ((off + 1020) & !1020) - off <= 1020 && (((off + 1020) & !1020) - off) & 3 == 0
  {}

  /** Going past the address and coming back. */
  lemma RoundTripSum(sgn: bool, a: bv32, off: bv32, maxoff: bv32)
    ensures Plus(if sgn then 4 else 2, Plus(if sgn then 2 else 4, a, Rounded(off, maxoff)), Excess(off, maxoff))
         == Plus(if sgn then 2 else 4, a, off)
  {
    hide Plus, Rounded, Excess;
    var r := Rounded(off, maxoff);
    ExcessIs(off, maxoff, r, r - off);
    if sgn {
      PlusIs(2, a, r, a - r);
      BackAdd(a, r, off);
    } else {
      PlusIs(4, a, r, a + r);
      BackSub(a, r, off);
    }
  }

  lemma ExcessIs(off: bv32, maxoff: bv32, r: bv32, e: bv32)
    requires r == Rounded(off, maxoff) && e == r - off
    ensures Excess(off, maxoff) == e
  {
    hide Rounded;
  }

  lemma BackAdd(a: bv32, r: bv32, off: bv32)
    ensures Plus(4, a - r, r - off) == Plus(2, a, off)
  {}

  lemma BackSub(a: bv32, r: bv32, off: bv32)
    ensures Plus(2, a + r, r - off) == Plus(4, a, off)
  {}

  /** No register but lr differs. */
  predicate OnlyLr(s: Regs, s': Regs) {
    s' == s || s' == Write(s, 14, Read(s', 14))
  }

  /** The code touches no register but lr and leaves the same effective address. */
  ghost predicate KeepsAddress(code: seq<bv32>, base: bv32, off: bv32, sgn: bool, base': bv32, off': bv32, sgn': bool) {
    forall s: Regs :: Run(code, s).Some?
      && Address(Run(code, s).value, base', off', sgn') == Address(s, base, off, sgn)
      && OnlyLr(s, Run(code, s).value)
  }

  lemma LrWritten(s: Regs, v: bv32)
    ensures Read(Write(s, 14, v), 14) == v && OnlyLr(s, Write(s, 14, v))
  {}

  /** What the code leaves: only lr has changed, to base plus or minus v. */
  lemma LrRun(code: seq<bv32>, base: bv32, sgn: bool, v: bv32, s: Regs)
    requires base < 16 && Adds(code, AddrTemplate(base, sgn), v)
    ensures Run(code, s) == Some(Write(s, 14, Plus(if sgn then 2 else 4, Read(s, base), v)))
  {
    hide AddrTemplate, RdField, RnField, OpField, IsAddSub, Plus, Run, Read, Write;
    TemplateFields(base, sgn);
  }

  lemma SplitKeeps(code: seq<bv32>, base: bv32, off: bv32, sgn: bool, maxoff: bv32)
    requires base < 16 && Adds(code, AddrTemplate(base, sgn), Above(off, maxoff))
    ensures KeepsAddress(code, base, off, sgn, 14, Below(off, maxoff), sgn)
  {
    hide AddrTemplate, Adds, Plus, Above, Below, Run, Read, Write, OnlyLr;
    forall s: Regs
      ensures Run(code, s).Some? && Address(Run(code, s).value, 14, Below(off, maxoff), sgn)
        == Address(s, base, off, sgn)
        && OnlyLr(s, Run(code, s).value)
    {
      var f := if sgn then 2 else 4;
      LrRun(code, base, sgn, Above(off, maxoff), s);
      LrWritten(s, Plus(f, Read(s, base), Above(off, maxoff)));
      SplitSum(f, Read(s, base), off, maxoff);
    }
  }

  lemma RoundKeeps(code: seq<bv32>, base: bv32, off: bv32, sgn: bool, maxoff: bv32)
    requires base < 16 && Adds(code, AddrTemplate(base, sgn), Rounded(off, maxoff))
    ensures KeepsAddress(code, base, off, sgn, 14, Excess(off, maxoff), !sgn)
  {
    hide AddrTemplate, Adds, Plus, Rounded, Excess, Run, Read, Write, OnlyLr;
    forall s: Regs
      ensures Run(code, s).Some? && Address(Run(code, s).value, 14, Excess(off, maxoff), !sgn)
        == Address(s, base, off, sgn)
        && OnlyLr(s, Run(code, s).value)
    {
      LrRun(code, base, sgn, Rounded(off, maxoff), s);
      LrWritten(s, Plus(if sgn then 2 else 4, Read(s, base), Rounded(off, maxoff)));
      RoundTripSum(sgn, Read(s, base), off, maxoff);
    }
  }

  /** Splits an offset too large for the instruction so that the rest fits, keeping the address. */
  method CalcAddr(text: Text, base: bv32, off: bv32, sgn: bool, maxoff: bv32, low: bv32)
    returns (base': bv32, off': bv32, sgn': bool, ghost code: seq<bv32>)
    requires base < 16 && off < 0x8000_0000 && IsOffsetRange(maxoff, low)
    modifies text
    ensures text.words == old(text.words) + code && |code| <= 4
    ensures KeepsAddress(code, base, off, sgn, base', off', sgn') && InRange(off', maxoff, low)
    ensures InRange(off, maxoff, low) ==> code == [] && base' == base && off' == off && sgn' == sgn
  {
    hide Means, Adds, AddrTemplate, IsTemplate, IsAddSub, Encodable, Above, Below, Rounded, Excess, InRange,
      KeepsAddress, IsOffsetRange;
    base', off', sgn', code := base, off, sgn, [];
    if InRange(off, maxoff, low) {
      NoCode(base, off, sgn);
    } else {
      var x := AddrTemplate(base, sgn);
      TemplateFields(base, sgn);
      TemplateOf(x);
      base' := 14;
      BelowInRange(off, maxoff, low);
      ExcessInRange(off, maxoff, low);
      var y := StuffConst(x, Above(off, maxoff));
      if y != 0 {
        AddsOne(y, x, Above(off, maxoff));
        SplitKeeps([y], base, off, sgn, maxoff);
        text.O(y);
        code := [y];
        off' := Below(off, maxoff);
      } else {
        y := StuffConst(x, Rounded(off, maxoff));
        if y != 0 {
          AddsOne(y, x, Rounded(off, maxoff));
          RoundKeeps([y], base, off, sgn, maxoff);
          text.O(y);
          code := [y];
          sgn' := !sgn;
          off' := Excess(off, maxoff);
        } else {
          code := StuffConstHarder(text, x, Above(off, maxoff));
          SplitKeeps(code, base, off, sgn, maxoff);
          off' := Below(off, maxoff);
        }
      }
    }
  }

  lemma NoCode(base: bv32, off: bv32, sgn: bool)
    ensures KeepsAddress([], base, off, sgn, base, off, sgn)
  {
    hide Address;
  }

  // ---- branches ----

  /** C division by four. */
  function Quarter(x: int): int {
    if x >= 0 then x / 4 else -(-x / 4)
  }

  /** The branch word from pos to addr, its condition left open; no word when the guard refuses. */
  function EncBranch(pos: int, addr: int): Option<int> {
    var d := Quarter(addr - (pos + 8));
    if d >= 0x100_0000 || d < -0x100_0000 then None else Some(0x0a00_0000 + d % 0x100_0000)
  }

  /** The address a branch word at pos leads to. */
  function DecBranch(pos: int, w: int): int {
    var x := w % 0x100_0000;
    (if x >= 0x80_0000 then x - 0x100_0000 else x) * 4 + pos + 8
  }

  /** A branch word leads where it was aimed exactly when the distance is a signed 24-bit number of words. */
  lemma BranchRoundTrip(pos: int, addr: int)
    ensures (EncBranch(pos, addr).Some? && DecBranch(pos, EncBranch(pos, addr).value) == addr)
      <==> ((addr - pos - 8) % 4 == 0 && -0x200_0000 <= addr - pos - 8 < 0x200_0000)
  {}

  /** The guard lets through distances of up to twice that: this one is accepted and leads backwards. */
  lemma BranchGuardTooWide()
    ensures EncBranch(0, 0x200_0008) == Some(0x0a80_0000) && DecBranch(0, 0x0a80_0000) == -0x200_0000 + 8
  {}
}
