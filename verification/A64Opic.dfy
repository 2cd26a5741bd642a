/** Folding a constant operand into A64 instructions. */
module A64Opic {
  import opened Values
  import opened A64Machine
  import opened A64LogicalImm
  import opened A64Mov
  import opened CodeText

  /** Integer operators offered with a constant operand; Other stands for the rest. */
  datatype Op = Plus | Minus | BitXor | BitAnd | BitOr | Sar | Lsl | Lsr | Other

  predicate IsShift(op: Op) {
    op == Sar || op == Lsl || op == Lsr
  }

  /** Shift distance: the constant reduced modulo the width of the operation. */
  function Distance(l: bool, val: bv64): bv8 {
    (val & if l then 63 else 31) as bv8
  }

  /** Sign extension of the low word. */
  function SignWord(v: bv64): bv64 {
    if (v & 0x8000_0000) == 0 then v & 0xffff_ffff else v | 0xffff_ffff_0000_0000
  }

  predicate IsLogic(op: Op) {
    op == BitAnd || op == BitOr || op == BitXor
  }

  function LogicOf(op: Op): LogicOp
    requires IsLogic(op)
  {
    match op case BitAnd => And case BitOr => Orr case BitXor => Eor
  }

  function AddValue(l: bool, val: bv64, a: bv64): bv64 { Narrow(l, a + val) }
  function SubValue(l: bool, from: bv64, a: bv64): bv64 { Narrow(l, from - a) }
  function BitsValue(op: Op, l: bool, val: bv64, a: bv64): bv64
    requires IsLogic(op)
  {
    Narrow(l, Logic(LogicOf(op), a, val))
  }
  function LslValue(l: bool, k: bv8, a: bv64): bv64 requires k < 64 { Narrow(l, Shl(a, k)) }
  function LsrValue(l: bool, k: bv8, a: bv64): bv64 requires k < 64 { Shr(Narrow(l, a), k) }
  function SarValue(l: bool, k: bv8, a: bv64): bv64 requires k < 64 { Narrow(l, Asr(if l then a else SignWord(a), k)) }

  /** The C value of `a op val`, or `val op a` when reversed, at 64 bits or 32 bits. */
  function Meaning(op: Op, l: bool, rev: bool, val: bv64, a: bv64): bv64 {
    match op
    case Plus => AddValue(l, val, a)
    case Minus => if rev then SubValue(l, val, a) else SubValue(l, a, val)
    case BitXor => BitsValue(op, l, val, a)
    case BitAnd => BitsValue(op, l, val, a)
    case BitOr => BitsValue(op, l, val, a)
    case Lsl => LslValue(l, Distance(l, val), a)
    case Lsr => LsrValue(l, Distance(l, val), a)
    case Sar => SarValue(l, Distance(l, val), a)
    case Other => 0
  }

  // ---- instruction words ----

  function AddImmWord(opcode: bv32, l: bool, s: bool, x: bv5, a: bv5, imm: bv32): bv32 {
    opcode | (if l then 0x8000_0000 else 0) | (if s then 0x4000_0000 else 0)
    | (x as bv32) | ((a as bv32) << 5) | (imm << 10)
  }

  function AddRegWord(l: bool, s: bool, x: bv5, a: bv5): bv32 {
    0x0b1e0000 | (if l then 0x8000_0000 else 0) | (if s then 0x4000_0000 else 0) | (x as bv32) | ((a as bv32) << 5)
  }

  /** neg, mvn and the reversed subtraction share this shape. */
  function FromRegWord(opcode: bv32, l: bool, x: bv5, a: bv5): bv32 {
    opcode | (if l then 0x8000_0000 else 0) | (x as bv32) | ((a as bv32) << 16)
  }

  function ShiftWord(opcode: bv32, l: bool, x: bv5, a: bv5, immr: bv8, imms: bv8): bv32 {
    opcode | (if l then 0x8000_0000 else 0) | (if l then 0x40_0000 else 0)
    | (x as bv32) | ((a as bv32) << 5) | ((immr as bv32) << 16) | ((imms as bv32) << 10)
  }

  lemma AddImmFields(opcode: bv32, l: bool, s: bool, x: bv5, a: bv5, imm: bv32)
    requires imm < 0x1000 && (opcode == 0x11000000 || opcode == 0x11400000)
    ensures var w := AddImmWord(opcode, l, s, x, a, imm);
      Field(w, 23, 0x3f) == 0x22 && Field(w, 22, 0x1) == (if opcode == 0x11000000 then 0 else 1)
        && Field(w, 29, 0x1) == 0
      && Field(w, 31, 0x1) == (if l then 1 else 0) && Field(w, 30, 0x1) == (if s then 1 else 0)
  {}

  lemma AddImmOperands(opcode: bv32, l: bool, s: bool, x: bv5, a: bv5, imm: bv32)
    requires imm < 0x1000 && (opcode == 0x11000000 || opcode == 0x11400000)
    ensures var w := AddImmWord(opcode, l, s, x, a, imm);
      Field(w, 10, 0xfff) == imm & 0xfff && Reg(w, 5) == a && Reg(w, 0) == x
  {}

  lemma DecodeAddImm(l: bool, s: bool, x: bv5, a: bv5, imm: bv32)
    requires imm < 0x1000
    ensures Decode(AddImmWord(0x11000000, l, s, x, a, imm)) == AddSubImm(s, l, imm as bv64, a, x)
  {
    hide Field, Reg, AddImmWord;
    AddImmFields(0x11000000, l, s, x, a, imm);
    AddImmOperands(0x11000000, l, s, x, a, imm);
  }

  lemma DecodeAddImm12(l: bool, s: bool, x: bv5, a: bv5, imm: bv32)
    requires imm < 0x1000
    ensures Decode(AddImmWord(0x11400000, l, s, x, a, imm)) == AddSubImm(s, l, (imm as bv64) << 12, a, x)
  {
    hide Field, Reg, AddImmWord;
    AddImmFields(0x11400000, l, s, x, a, imm);
    AddImmOperands(0x11400000, l, s, x, a, imm);
  }

  lemma DecodeAddReg(l: bool, s: bool, x: bv5, a: bv5)
    ensures Decode(AddRegWord(l, s, x, a)) == AddSubReg(s, l, 30, a, x)
  {}

  lemma DecodeNeg(l: bool, x: bv5, a: bv5)
    ensures Decode(FromRegWord(0x4b0003e0, l, x, a)) == AddSubReg(true, l, a, 31, x)
  {}

  lemma DecodeMvn(l: bool, x: bv5, a: bv5)
    ensures Decode(FromRegWord(0x2a2003e0, l, x, a)) == LogicReg(Orr, true, l, a, 31, x)
  {}

  lemma DecodeSubFrom(l: bool, x: bv5, a: bv5)
    ensures Decode(FromRegWord(0x4b0003c0, l, x, a)) == AddSubReg(true, l, a, 30, x)
  {}

  lemma ShiftFields(signed: bool, l: bool, x: bv5, a: bv5, immr: bv8, imms: bv8)
    requires immr < 64 && imms < 64
    ensures var w := ShiftWord(if signed then 0x13000000 else 0x53000000, l, x, a, immr, imms);
      Field(w, 23, 0x3f) == 0x26 && Field(w, 29, 0x3) == (if signed then 0 else 2)
      && Field(w, 22, 0x1) == (if l then 1 else 0) && Field(w, 31, 0x1) == (if l then 1 else 0)
  {}

  lemma ShiftOperands(signed: bool, l: bool, x: bv5, a: bv5, immr: bv8, imms: bv8)
    requires immr < 64 && imms < 64
    ensures var w := ShiftWord(if signed then 0x13000000 else 0x53000000, l, x, a, immr, imms);
      Field(w, 16, 0x3f) as bv8 == immr && Field(w, 10, 0x3f) as bv8 == imms && Reg(w, 5) == a && Reg(w, 0) == x
  {}

  lemma DecodeShift(signed: bool, l: bool, x: bv5, a: bv5, immr: bv8, imms: bv8)
    requires immr < 64 && imms < 64 && (l || (immr < 32 && imms < 32))
    ensures Decode(ShiftWord(if signed then 0x13000000 else 0x53000000, l, x, a, immr, imms))
      == Bitfield(signed, l, immr, imms, a, x)
  {
    hide Field, Reg, ShiftWord;
    ShiftFields(signed, l, x, a, immr, imms);
    ShiftOperands(signed, l, x, a, immr, imms);
  }

  // ---- what one word, or a constant in x30 and one word, compute ----

  /** Register x receives the value of the operation and only x and x30 change. */
  ghost predicate Computes(code: seq<bv32>, x: bv5, a: bv5, op: Op, l: bool, rev: bool, val: bv64) {
    forall m: Cpu ::
      && Run(code, m).Some?
      && Read(Run(code, m).value.x, x) == Meaning(op, l, rev, val, Read(m.x, a))
      && forall q: bv5 :: q != x && q != 30 ==> Read(Run(code, m).value.x, q) == Read(m.x, q)
  }

  /** With the constant v in x30 where `uses` is set, the word writes the value to x. */
  ghost predicate WordMeans(w: bv32, uses: bool, v: bv64, x: bv5, a: bv5, op: Op, l: bool, rev: bool, val: bv64) {
    forall m: Cpu :: (uses ==> Read(m.x, 30) == v) ==>
      Step(Decode(w), m) == Some(Next(m, Write(m.x, x, Meaning(op, l, rev, val, Read(m.x, a)))))
  }

  lemma OneWord(w: bv32, x: bv5, a: bv5, op: Op, l: bool, rev: bool, val: bv64)
    requires WordMeans(w, false, 0, x, a, op, l, rev, val)
    ensures Computes([w], x, a, op, l, rev, val)
  {
    hide Decode, Step, Write, Read, Run, Meaning;
    forall m: Cpu
      ensures Run([w], m).Some? && Read(Run([w], m).value.x, x) == Meaning(op, l, rev, val, Read(m.x, a))
      ensures forall q: bv5 :: q != x && q != 30 ==> Read(Run([w], m).value.x, q) == Read(m.x, q)
    {
      RunOne(w, m);
      ReadWrite(m.x, x, Meaning(op, l, rev, val, Read(m.x, a)));
    }
  }

  lemma AfterMove(code: seq<bv32>, w: bv32, v: bv64, x: bv5, a: bv5, op: Op, l: bool, rev: bool, val: bv64)
    requires a != 30 && Builds(code, 30, v) && WordMeans(w, true, v, x, a, op, l, rev, val)
    ensures Computes(code + [w], x, a, op, l, rev, val)
  {
    hide Decode, Step, Write, Read, Run, Meaning;
    forall m: Cpu
      ensures Run(code + [w], m).Some? && Read(Run(code + [w], m).value.x, x) == Meaning(op, l, rev, val, Read(m.x, a))
      ensures forall q: bv5 :: q != x && q != 30 ==> Read(Run(code + [w], m).value.x, q) == Read(m.x, q)
    {
      assert Run(code, m).Some? && Run(code, m).value.x == Write(m.x, 30, v);
      RunAppend(code, [w], m);
      var m1 := Run(code, m).value;
      ReadWrite(m.x, 30, v);
      RunOne(w, m1);
      ReadWrite(m1.x, x, Meaning(op, l, rev, val, Read(m1.x, a)));
    }
  }

  // ---- the value written by each form ----

  /** Magnitude of the constant: what is added, or subtracted when it is negative. */
  function Magnitude(l: bool, s: bool, val: bv64): bv64 {
    Narrow(l, if s then -val else val)
  }

  lemma MagnitudeIs(val: bv64)
    ensures Magnitude(true, true, val) == -val && Magnitude(true, false, val) == val
    ensures Magnitude(false, true, val) == -val & 0xffff_ffff && Magnitude(false, false, val) == val & 0xffff_ffff
  {}

  lemma AddValueIs(val: bv64, a: bv64)
    ensures AddValue(true, val, a) == a + val && AddValue(false, val, a) == (a + val) & 0xffff_ffff
  {}

  lemma AddSubMagnitude(val: bv64, a: bv64)
    ensures AddSub(true, a, -val) == a + val && AddSub(false, a, val) == a + val
    ensures AddSub(true, a, -val & 0xffff_ffff) == a - (-val & 0xffff_ffff)
    ensures AddSub(false, a, val & 0xffff_ffff) == a + (val & 0xffff_ffff)
  {}

  lemma NarrowSum(val: bv64, a: bv64)
    ensures Narrow(true, a + val) == a + val
    ensures Narrow(false, a - (-val & 0xffff_ffff)) == (a + val) & 0xffff_ffff
    ensures Narrow(false, a + (val & 0xffff_ffff)) == (a + val) & 0xffff_ffff
  {}

  /** Adding or subtracting the magnitude adds the constant. */
  lemma SignedAdd(l: bool, s: bool, val: bv64, a: bv64)
    ensures Narrow(l, AddSub(s, a, Magnitude(l, s, val))) == AddValue(l, val, a)
  {
    hide Narrow, AddSub, Magnitude, AddValue;
    MagnitudeIs(val);
    AddValueIs(val, a);
    AddSubMagnitude(val, a);
    NarrowSum(val, a);
  }

  lemma AddImmMeans(l: bool, s: bool, x: bv5, a: bv5, val: bv64, imm: bv64, w: bv32)
    requires Decode(w) == AddSubImm(s, l, imm, a, x) && imm == Magnitude(l, s, val)
    ensures WordMeans(w, false, 0, x, a, Plus, l, false, val)
  {
    hide Decode, Narrow, AddSub, Magnitude, AddValue, SubValue, BitsValue, LslValue, LsrValue, SarValue, Read, Write;
    forall m: Cpu
      ensures Step(Decode(w), m) == Some(Next(m, Write(m.x, x, Meaning(Plus, l, false, val, Read(m.x, a)))))
    {
      SignedAdd(l, s, val, Read(m.x, a));
    }
  }

  lemma AddRegMeans(l: bool, s: bool, x: bv5, a: bv5, val: bv64)
    requires x != 31 && a != 31
    ensures WordMeans(AddRegWord(l, s, x, a), true, Magnitude(l, s, val), x, a, Plus, l, false, val)
  {
    hide Decode, AddRegWord, Narrow, AddSub, Magnitude, AddValue, SubValue, BitsValue, LslValue, LsrValue, SarValue,
      Read, Write;
    DecodeAddReg(l, s, x, a);
    forall m: Cpu | Read(m.x, 30) == Magnitude(l, s, val)
      ensures Step(Decode(AddRegWord(l, s, x, a)), m)
        == Some(Next(m, Write(m.x, x, Meaning(Plus, l, false, val, Read(m.x, a)))))
    {
      SignedAdd(l, s, val, Read(m.x, a));
    }
  }

  lemma SubFrom(l: bool, val: bv64, a: bv64)
    ensures Narrow(l, AddSub(true, val, a)) == SubValue(l, val, a)
  {}

  lemma NegMeans(l: bool, x: bv5, a: bv5)
    requires x != 31 && a != 31
    ensures WordMeans(FromRegWord(0x4b0003e0, l, x, a), false, 0, x, a, Minus, l, true, 0)
  {
    hide Decode, FromRegWord, Narrow, AddSub, AddValue, SubValue, BitsValue, LslValue, LsrValue, SarValue, Read, Write;
    DecodeNeg(l, x, a);
    forall m: Cpu
      ensures Step(Decode(FromRegWord(0x4b0003e0, l, x, a)), m)
        == Some(Next(m, Write(m.x, x, Meaning(Minus, l, true, 0, Read(m.x, a)))))
    {
      SubFrom(l, 0, Read(m.x, a));
    }
  }

  lemma SubFromMeans(l: bool, x: bv5, a: bv5, val: bv64)
    requires x != 31 && a != 31
    ensures WordMeans(FromRegWord(0x4b0003c0, l, x, a), true, val, x, a, Minus, l, true, val)
  {
    hide Decode, FromRegWord, Narrow, AddSub, AddValue, SubValue, BitsValue, LslValue, LsrValue, SarValue, Read, Write;
    DecodeSubFrom(l, x, a);
    forall m: Cpu | Read(m.x, 30) == val
      ensures Step(Decode(FromRegWord(0x4b0003c0, l, x, a)), m)
        == Some(Next(m, Write(m.x, x, Meaning(Minus, l, true, val, Read(m.x, a)))))
    {
      SubFrom(l, val, Read(m.x, a));
    }
  }

  /** All ones at the width of the operation. */
  function Full(l: bool): bv64 {
    if l then 0xffff_ffff_ffff_ffff else 0xffff_ffff
  }

  lemma FullMinus(l: bool, a: bv64)
    ensures Narrow(l, Logic(Orr, 0, Invert(true, a))) == SubValue(l, Full(l), a)
  {
    hide Narrow, Logic, Invert, SubValue, Full;
    InvertIs(a);
    NarrowInverse(a);
    SubValueFull(a);
  }

  lemma InvertIs(a: bv64)
    ensures Logic(Orr, 0, Invert(true, a)) == !a
  {}

  lemma NarrowInverse(a: bv64)
    ensures Narrow(true, !a) == !a && Narrow(false, !a) == !a & 0xffff_ffff
  {}

  lemma SubValueFull(a: bv64)
    ensures SubValue(true, Full(true), a) == !a && SubValue(false, Full(false), a) == !a & 0xffff_ffff
  {}

  lemma XorFull(a: bv64)
    ensures BitsValue(BitXor, true, Full(true), a) == !a && BitsValue(BitXor, false, Full(false), a) == !a & 0xffff_ffff
  {}

  lemma FullXor(l: bool, a: bv64)
    ensures Narrow(l, Logic(Orr, 0, Invert(true, a))) == BitsValue(BitXor, l, Full(l), a)
  {
    hide Narrow, Logic, Invert, BitsValue, Full;
    InvertIs(a);
    NarrowInverse(a);
    XorFull(a);
  }

  lemma MvnValue(op: Op, l: bool, rev: bool, a: bv64)
    requires op == BitXor || (op == Minus && rev)
    ensures Narrow(l, Logic(Orr, 0, Invert(true, a))) == Meaning(op, l, rev, Full(l), a)
  {
    hide Narrow, Logic, Invert, SubValue, BitsValue, Full;
    if op == BitXor { FullXor(l, a); } else { FullMinus(l, a); }
  }

  lemma MvnStep(l: bool, x: bv5, a: bv5, m: Cpu)
    requires x != 31 && a != 31
    ensures Step(LogicReg(Orr, true, l, a, 31, x), m)
      == Some(Next(m, Write(m.x, x, Narrow(l, Logic(Orr, 0, Invert(true, Read(m.x, a)))))))
  {
    hide Narrow, Logic, Invert;
  }

  lemma MvnMeans(op: Op, l: bool, rev: bool, x: bv5, a: bv5)
    requires x != 31 && a != 31 && (op == BitXor || (op == Minus && rev))
    ensures WordMeans(FromRegWord(0x2a2003e0, l, x, a), false, 0, x, a, op, l, rev, Full(l))
  {
    hide Decode, Step, FromRegWord, Narrow, Logic, Invert, Meaning, Full, Read, Write;
    DecodeMvn(l, x, a);
    forall m: Cpu
      ensures Step(Decode(FromRegWord(0x2a2003e0, l, x, a)), m)
        == Some(Next(m, Write(m.x, x, Meaning(op, l, rev, Full(l), Read(m.x, a)))))
    {
      MvnStep(l, x, a, m);
      MvnValue(op, l, rev, Read(m.x, a));
    }
  }

  /** The immediate a logical instruction of the given width needs. */
  function LogicVal(l: bool, val: bv64): bv64 {
    if l then val else Double(val)
  }

  lemma LogicValue(op: Op, val: bv64, a: bv64)
    requires IsLogic(op)
    ensures Narrow(true, Logic(LogicOf(op), a, LogicVal(true, val))) == BitsValue(op, true, val, a)
  {}

  lemma DoubleAnd(val: bv64, a: bv64)
    ensures (a & (val | (val << 32))) & 0xffff_ffff == (a & val) & 0xffff_ffff
  {
    assert ((a & (val | (val << 32))) & 0xffff_ffff) ^ ((a & val) & 0xffff_ffff) == 0;
  }

  lemma DoubleOr(val: bv64, a: bv64)
    ensures (a | (val | (val << 32))) & 0xffff_ffff == (a | val) & 0xffff_ffff
  {
    assert ((a | (val | (val << 32))) & 0xffff_ffff) ^ ((a | val) & 0xffff_ffff) == 0;
  }

  lemma DoubleXor(val: bv64, a: bv64)
    ensures (a ^ (val | (val << 32))) & 0xffff_ffff == (a ^ val) & 0xffff_ffff
  {
    assert ((a ^ (val | (val << 32))) & 0xffff_ffff) ^ ((a ^ val) & 0xffff_ffff) == 0;
  }

  lemma DoubleIs(val: bv64)
    ensures Double(val) == val | (val << 32)
  {}

  lemma LogicRaw(op: LogicOp, val: bv64, a: bv64)
    ensures Logic(op, a, val | (val << 32))
      == match op
         case And => a & (val | (val << 32))
         case Orr => a | (val | (val << 32))
         case Eor => a ^ (val | (val << 32))
  {}

  lemma LogicPlain(op: LogicOp, val: bv64, a: bv64)
    ensures Logic(op, a, val) == match op case And => a & val case Orr => a | val case Eor => a ^ val
  {}

  lemma NarrowPlain(val: bv64, a: bv64)
    ensures Narrow(false, a & val) == (a & val) & 0xffff_ffff
    ensures Narrow(false, a | val) == (a | val) & 0xffff_ffff
    ensures Narrow(false, a ^ val) == (a ^ val) & 0xffff_ffff
  {}

  lemma NarrowLogic(val: bv64, a: bv64)
    ensures Narrow(false, a & (val | (val << 32))) == (a & (val | (val << 32))) & 0xffff_ffff
    ensures Narrow(false, a | (val | (val << 32))) == (a | (val | (val << 32))) & 0xffff_ffff
    ensures Narrow(false, a ^ (val | (val << 32))) == (a ^ (val | (val << 32))) & 0xffff_ffff
  {}

  lemma LogicValueWord(op: Op, val: bv64, a: bv64)
    requires IsLogic(op)
    ensures Narrow(false, Logic(LogicOf(op), a, LogicVal(false, val))) == BitsValue(op, false, val, a)
  {
    hide Narrow, Logic, Double;
    DoubleIs(val);
    LogicRaw(LogicOf(op), val, a);
    NarrowLogic(val, a);
    DoubleAnd(val, a);
    DoubleOr(val, a);
    DoubleXor(val, a);
    LogicPlain(LogicOf(op), val, a);
    NarrowPlain(val, a);
  }

  lemma LogicMeans(op: Op, l: bool, rev: bool, x: bv5, a: bv5, val: bv64, e: bv32)
    requires x != 31 && a != 31 && IsLogic(op) && (l || IsWord(val))
    requires Encode(LogicVal(l, val)) == Some(e)
    ensures WordMeans(LogicWord(LogicOf(op), l, e, a, x), false, 0, x, a, op, l, rev, val)
  {
    hide Decode, Step, LogicWord, Narrow, Logic, AddValue, SubValue, BitsValue, LslValue, LsrValue, SarValue, Read,
      Write, Encode, DecodeFields, Double, IsWord;
    EncodeSound(LogicVal(l, val));
    if !l { EncodeNarrow(val); }
    forall m: Cpu
      ensures Step(Decode(LogicWord(LogicOf(op), l, e, a, x)), m)
        == Some(Next(m, Write(m.x, x, Meaning(op, l, rev, val, Read(m.x, a)))))
    {
      LogicStep(LogicOf(op), l, e, a, x, LogicVal(l, val), m);
      if l { LogicValue(op, val, Read(m.x, a)); } else { LogicValueWord(op, val, Read(m.x, a)); }
    }
  }

  lemma ExtendAll(a: bv64)
    ensures Extend(false, a, 63) == a && Extend(true, a, 63) == a
  {}

  lemma ExtendWord(a: bv64)
    ensures Extend(false, a, 31) == Narrow(false, a) && Extend(true, a, 31) == SignWord(a)
  {}

  lemma ShlDropsFew(a: bv64, k: bv8)
    requires 0 < k < 16
    ensures Shl(Extend(false, a, 63 - k), k) == Shl(a, k)
  {}

  lemma ShlDropsSome(a: bv64, k: bv8)
    requires 16 <= k < 32
    ensures Shl(Extend(false, a, 63 - k), k) == Shl(a, k)
  {}

  lemma ShlDropsMany(a: bv64, k: bv8)
    requires 32 <= k < 64
    ensures Shl(Extend(false, a, 63 - k), k) == Shl(a, k)
  {}

  lemma ShlDrops64(a: bv64, k: bv8)
    requires 0 < k < 64
    ensures Shl(Extend(false, a, 63 - k), k) == Shl(a, k)
  {
    hide Shl, Extend;
    if k < 16 { ShlDropsFew(a, k); } else if k < 32 { ShlDropsSome(a, k); } else { ShlDropsMany(a, k); }
  }

  lemma ShlDrops32(a: bv64, k: bv8)
    requires 0 < k < 32
    ensures Narrow(false, Shl(Extend(false, a, 31 - k), k)) == Narrow(false, Shl(a, k))
  {}

  lemma LslField(l: bool, a: bv64, k: bv8, n: bv8)
    requires n == (if l then 64 else 32) && 0 < k < n
    ensures Narrow(l, BitfieldMove(false, l, n - k, n - 1 - k, a)) == LslValue(l, k, a)
  {
    hide Narrow, Shl, Extend;
    assert n - (n - k) == k;
    if l { ShlDrops64(a, k); } else { ShlDrops32(a, k); }
  }

  lemma NarrowShr(a: bv64, k: bv8)
    requires k < 64
    ensures Narrow(false, Shr(Narrow(false, a), k)) == Shr(Narrow(false, a), k)
  {
    hide Narrow, Shr;
    NarrowIs(a);
    ShrSmall(a, k);
    NarrowSmall(Shr(a & 0xffff_ffff, k));
  }

  lemma NarrowIs(a: bv64)
    ensures Narrow(false, a) == a & 0xffff_ffff
  {}

  lemma ShrSmall(a: bv64, k: bv8)
    requires k < 64
    ensures Shr(a & 0xffff_ffff, k) & 0xffff_ffff_0000_0000 == 0
  {}

  lemma NarrowSmall(y: bv64)
    requires y & 0xffff_ffff_0000_0000 == 0
    ensures Narrow(false, y) == y
  {}

  lemma LsrField(l: bool, a: bv64, k: bv8, n: bv8)
    requires n == (if l then 64 else 32) && 0 < k < n
    ensures Narrow(l, BitfieldMove(false, l, k, n - 1, a)) == LsrValue(l, k, a)
  {
    hide Shr, Extend;
    ExtendAll(a);
    ExtendWord(a);
    NarrowShr(a, k);
    hide Narrow;
  }

  lemma SarField(l: bool, a: bv64, k: bv8, n: bv8)
    requires n == (if l then 64 else 32) && 0 < k < n
    ensures Narrow(l, BitfieldMove(true, l, k, n - 1, a)) == SarValue(l, k, a)
  {
    hide Narrow, Asr, Extend, SignWord;
    ExtendAll(a);
    ExtendWord(a);
  }

  lemma ShiftMeans(op: Op, l: bool, x: bv5, a: bv5, val: bv64, k: bv8, n: bv8)
    requires x != 31 && a != 31 && IsShift(op) && k == Distance(l, val) && n == (if l then 64 else 32) && 0 < k < n
    ensures WordMeans(if op == Lsl then ShiftWord(0x53000000, l, x, a, n - k, n - 1 - k)
                      else ShiftWord(if op == Sar then 0x13000000 else 0x53000000, l, x, a, k, n - 1),
                      false, 0, x, a, op, l, false, val)
  {
    hide Decode, ShiftWord, Narrow, BitfieldMove, AddValue, SubValue, BitsValue, LslValue, LsrValue, SarValue,
      Distance, Read, Write;
    ShiftBounds(l, k, n);
    DecodeShift(false, l, x, a, n - k, n - 1 - k);
    DecodeShift(op == Sar, l, x, a, k, n - 1);
    forall m: Cpu
      ensures Step(Decode(if op == Lsl then ShiftWord(0x53000000, l, x, a, n - k, n - 1 - k)
                          else ShiftWord(if op == Sar then 0x13000000 else 0x53000000, l, x, a, k, n - 1)), m)
           == Some(Next(m, Write(m.x, x, Meaning(op, l, false, val, Read(m.x, a)))))
    {
      LslField(l, Read(m.x, a), k, n);
      LsrField(l, Read(m.x, a), k, n);
      SarField(l, Read(m.x, a), k, n);
    }
  }

  lemma ShiftBounds(l: bool, k: bv8, n: bv8)
    requires n == (if l then 64 else 32) && 0 < k < n
    ensures n - k < 64 && n - 1 - k < 64 && n - 1 < 64
    ensures !l ==> n - k < 32 && n - 1 - k < 32 && n - 1 < 32
  {}

  lemma DistanceBound(l: bool, val: bv64)
    ensures Distance(l, val) < (if l then 64 else 32)
  {}

  // ---- rewriting the operation as the generator does first ----

  ghost predicate SameMeaning(op: Op, l: bool, rev: bool, val: bv64, op': Op, val': bv64) {
    forall a: bv64 :: Meaning(op, l, rev, val, a) == Meaning(op', l, rev, val', a)
  }

  lemma SameComputes(code: seq<bv32>, x: bv5, a: bv5, op: Op, l: bool, rev: bool, val: bv64, op': Op, val': bv64)
    requires SameMeaning(op, l, rev, val, op', val') && Computes(code, x, a, op', l, rev, val')
    ensures Computes(code, x, a, op, l, rev, val)
  {
    hide Run, Read, Meaning;
    forall m: Cpu
      ensures Run(code, m).Some? && Read(Run(code, m).value.x, x) == Meaning(op, l, rev, val, Read(m.x, a))
      ensures forall q: bv5 :: q != x && q != 30 ==> Read(Run(code, m).value.x, q) == Read(m.x, q)
    {
      assert Meaning(op, l, rev, val, Read(m.x, a)) == Meaning(op', l, rev, val', Read(m.x, a));
    }
  }

  lemma NegatedIs(l: bool, val: bv64, a: bv64)
    ensures AddValue(l, -val, a) == SubValue(l, a, val)
  {}

  lemma SubtractIsAdd(l: bool, val: bv64)
    ensures SameMeaning(Minus, l, false, val, Plus, -val)
  {
    hide AddValue, SubValue, BitsValue, LslValue, LsrValue, SarValue;
    forall a: bv64 ensures Meaning(Minus, l, false, val, a) == Meaning(Plus, l, false, -val, a) {
      NegatedIs(l, val, a);
    }
  }

  lemma AddWord(val: bv64, a: bv64)
    ensures AddValue(false, val & 0xffff_ffff, a) == AddValue(false, val, a)
  {}

  lemma SubWord(val: bv64, a: bv64)
    ensures SubValue(false, val & 0xffff_ffff, a) == SubValue(false, val, a)
    ensures SubValue(false, a, val & 0xffff_ffff) == SubValue(false, a, val)
  {}

  lemma LogicMasked(op: LogicOp, val: bv64, a: bv64)
    ensures Logic(op, a, val & 0xffff_ffff)
      == match op
         case And => a & (val & 0xffff_ffff)
         case Orr => a | (val & 0xffff_ffff)
         case Eor => a ^ (val & 0xffff_ffff)
  {
    hide Logic;
    AndMasked(val, a);
    OrMasked(val, a);
    XorMasked(val, a);
  }

  lemma AndMasked(val: bv64, a: bv64)
    ensures Logic(And, a, val & 0xffff_ffff) == a & (val & 0xffff_ffff)
  {}

  lemma OrMasked(val: bv64, a: bv64)
    ensures Logic(Orr, a, val & 0xffff_ffff) == a | (val & 0xffff_ffff)
  {}

  lemma XorMasked(val: bv64, a: bv64)
    ensures Logic(Eor, a, val & 0xffff_ffff) == a ^ (val & 0xffff_ffff)
  {}

  lemma NarrowMasked(val: bv64, a: bv64)
    ensures Narrow(false, a & (val & 0xffff_ffff)) == (a & val) & 0xffff_ffff
    ensures Narrow(false, a | (val & 0xffff_ffff)) == (a | val) & 0xffff_ffff
    ensures Narrow(false, a ^ (val & 0xffff_ffff)) == (a ^ val) & 0xffff_ffff
  {}

  lemma BitsWord(op: Op, val: bv64, a: bv64)
    requires IsLogic(op)
    ensures BitsValue(op, false, val & 0xffff_ffff, a) == BitsValue(op, false, val, a)
  {
    hide Narrow, Logic;
    LogicMasked(LogicOf(op), val, a);
    LogicPlain(LogicOf(op), val, a);
    NarrowMasked(val, a);
    NarrowPlain(val, a);
  }

  lemma DistanceWord(val: bv64)
    ensures Distance(false, val & 0xffff_ffff) == Distance(false, val)
  {}

  /** The operation means the same with its constant cut to the width. */
  lemma CutConstant(op: Op, l: bool, rev: bool, val: bv64)
    ensures SameMeaning(op, l, rev, val, op, Narrow(l, val))
  {
    hide AddValue, SubValue, BitsValue, LslValue, LsrValue, SarValue, Distance;
    if !l {
      forall a: bv64 ensures Meaning(op, l, rev, val, a) == Meaning(op, l, rev, val & 0xffff_ffff, a) {
        AddWord(val, a);
        SubWord(val, a);
        DistanceWord(val);
        if IsLogic(op) { BitsWord(op, val, a); }
      }
    }
  }

  // ---- the generator ----

  predicate Negative(l: bool, val: bv64) {
    if l then Shr(val, 63) == 1 else Shr(val, 31) == 1
  }

  predicate Fits12(v: bv64) {
    v & !0xfff == 0
  }

  predicate Fits24(v: bv64) {
    v & !0xfff000 == 0
  }

  lemma ImmediateIs(v: bv64)
    ensures Fits12(v) ==> Lo32(v) < 0x1000 && Lo32(v) as bv64 == v
    ensures Fits24(v) ==> Lo32(Shr(v, 12)) < 0x1000 && (Lo32(Shr(v, 12)) as bv64) << 12 == v
  {}

  /** Adds a constant that is already cut to the width. */
  method GenAdd(t: Text, l: bool, val: bv64, x: bv5, a: bv5) returns (ghost code: seq<bv32>)
    requires x < 30 && a < 30
    modifies t
    ensures t.words == old(t.words) + code && Computes(code, x, a, Plus, l, false, val)
  {
    hide Computes, Builds, WordMeans, Decode, AddImmWord, AddRegWord, Magnitude, Negative, Fits12, Fits24, Lo32;
    var s := Negative(l, val);
    var mag := Magnitude(l, s, val);
    ImmediateIs(mag);
    var w;
    if Fits12(mag) {
      w := AddImmWord(0x11000000, l, s, x, a, Lo32(mag));
      t.O(w);
      DecodeAddImm(l, s, x, a, Lo32(mag));
      AddImmMeans(l, s, x, a, val, mag, w);
      OneWord(w, x, a, Plus, l, false, val);
      code := [w];
    } else if Fits24(mag) {
      w := AddImmWord(0x11400000, l, s, x, a, Lo32(Shr(mag, 12)));
      t.O(w);
      DecodeAddImm12(l, s, x, a, Lo32(Shr(mag, 12)));
      AddImmMeans(l, s, x, a, val, mag, w);
      OneWord(w, x, a, Plus, l, false, val);
      code := [w];
    } else {
      code := MovImm(t, 30, mag);
      w := AddRegWord(l, s, x, a);
      t.O(w);
      AddRegMeans(l, s, x, a, val);
      AfterMove(code, w, mag, x, a, Plus, l, false, val);
      code := code + [w];
    }
  }

  /** Subtracts register a from a constant that is already cut to the width. */
  method GenSubFrom(t: Text, l: bool, val: bv64, x: bv5, a: bv5) returns (ghost code: seq<bv32>)
    requires x < 30 && a < 30
    modifies t
    ensures t.words == old(t.words) + code && Computes(code, x, a, Minus, l, true, val)
  {
    hide Computes, Builds, WordMeans, Decode, FromRegWord;
    var w;
    if val == 0 {
      w := FromRegWord(0x4b0003e0, l, x, a);
      t.O(w);
      NegMeans(l, x, a);
      OneWord(w, x, a, Minus, l, true, val);
      code := [w];
    } else if val == Full(l) {
      w := FromRegWord(0x2a2003e0, l, x, a);
      t.O(w);
      MvnMeans(Minus, l, true, x, a);
      OneWord(w, x, a, Minus, l, true, val);
      code := [w];
    } else {
      code := MovImm(t, 30, val);
      w := FromRegWord(0x4b0003c0, l, x, a);
      t.O(w);
      SubFromMeans(l, x, a, val);
      AfterMove(code, w, val, x, a, Minus, l, true, val);
      code := code + [w];
    }
  }

  /** Bitwise operation with a constant that is already cut to the width. */
  method GenLogic(t: Text, op: Op, l: bool, rev: bool, val: bv64, x: bv5, a: bv5)
      returns (done: bool, ghost code: seq<bv32>)
    requires x < 30 && a < 30 && IsLogic(op) && (l || IsWord(val))
    modifies t
    ensures t.words == old(t.words) + code && (done ==> Computes(code, x, a, op, l, rev, val)) && (!done ==> code == [])
    ensures done <==> (op == BitXor && val == Full(l)) || Encode(LogicVal(l, val)).Some?
  {
    hide Computes, WordMeans, Decode, FromRegWord, LogicWord, Encode, LogicVal, IsWord;
    var w;
    if op == BitXor && val == Full(l) {
      w := FromRegWord(0x2a2003e0, l, x, a);
      t.O(w);
      MvnMeans(op, l, rev, x, a);
    } else {
      var e := Encode(LogicVal(l, val));
      if e.None? {
        return false, [];
      }
      w := LogicWord(LogicOf(op), l, e.value, a, x);
      t.O(w);
      LogicMeans(op, l, rev, x, a, val, e.value);
    }
    OneWord(w, x, a, op, l, rev, val);
    return true, [w];
  }

  /** How the generator ends: with code, by leaving the operation to its caller, or in a failed assertion. */
  datatype Outcome = Folded | Refused | Aborted

  /** Shift by a constant; a distance of zero fails the assertion. */
  method GenShift(t: Text, op: Op, l: bool, val: bv64, x: bv5, a: bv5) returns (o: Outcome, ghost code: seq<bv32>)
    requires x < 30 && a < 30 && IsShift(op)
    modifies t
    ensures t.words == old(t.words) + code && o == if Distance(l, val) == 0 then Aborted else Folded
    ensures if o == Folded then Computes(code, x, a, op, l, false, val) else code == []
  {
    hide Computes, WordMeans, Decode, ShiftWord, Distance;
    var n: bv8 := if l then 64 else 32;
    var k := Distance(l, val);
    if k == 0 {
      return Aborted, [];
    }
    DistanceBound(l, val);
    var w := if op == Lsl then ShiftWord(0x53000000, l, x, a, n - k, n - 1 - k)
             else ShiftWord(if op == Sar then 0x13000000 else 0x53000000, l, x, a, k, n - 1);
    t.O(w);
    ShiftMeans(op, l, x, a, val, k, n);
    OneWord(w, x, a, op, l, false, val);
    return Folded, [w];
  }

  lemma PlusEitherOrder(code: seq<bv32>, x: bv5, a: bv5, l: bool, rev: bool, val: bv64)
    requires Computes(code, x, a, Plus, l, false, val)
    ensures Computes(code, x, a, Plus, l, rev, val)
  {
    hide Run, Read, AddValue, SubValue, BitsValue, LslValue, LsrValue, SarValue;
  }

  /** What becomes of each operation and constant. */
  function Fate(op: Op, l: bool, rev: bool, val: bv64): Outcome {
    match op
    case Plus => Folded
    case Minus => Folded
    case BitXor =>
      if Narrow(l, val) == Full(l) || Encode(LogicVal(l, Narrow(l, val))).Some? then Folded else Refused
    case BitAnd => if Encode(LogicVal(l, Narrow(l, val))).Some? then Folded else Refused
    case BitOr => if Encode(LogicVal(l, Narrow(l, val))).Some? then Folded else Refused
    case Other => Refused
    case _ => if rev then Refused else if Distance(l, val) == 0 then Aborted else Folded
  }

  lemma NarrowIsWord(l: bool, val: bv64)
    ensures l || IsWord(Narrow(l, val))
  {}

  lemma NarrowDistance(l: bool, val: bv64)
    ensures Distance(l, Narrow(l, val)) == Distance(l, val)
  {}

  /** Emits code for `a op val` (`val op a` when reversed) into register x.  The
      registers come from the allocator, which never hands out x30 or above. */
  method GenOpic(t: Text, op: Op, l: bool, rev: bool, val: bv64, x: bv5, a: bv5)
      returns (o: Outcome, ghost code: seq<bv32>)
    requires x < 30 && a < 30
    modifies t
    ensures t.words == old(t.words) + code && o == Fate(op, l, rev, val)
    ensures if o == Folded then Computes(code, x, a, op, l, rev, val) else code == []
    ensures o == Aborted <==> IsShift(op) && !rev && Distance(l, val) == 0
  {
    hide Computes, SameMeaning, Encode, LogicVal, IsWord, Narrow, Distance, Full;
    o := Folded;
    if op == Minus && !rev {
      code := GenAdd(t, l, Narrow(l, -val), x, a);
      CutConstant(Plus, l, false, -val);
      SameComputes(code, x, a, Plus, l, false, -val, Plus, Narrow(l, -val));
      SubtractIsAdd(l, val);
      SameComputes(code, x, a, Minus, l, false, val, Plus, -val);
    } else {
      var cut := Narrow(l, val);
      CutConstant(op, l, rev, val);
      if op == Plus {
        code := GenAdd(t, l, cut, x, a);
        PlusEitherOrder(code, x, a, l, rev, cut);
      } else if op == Minus {
        code := GenSubFrom(t, l, cut, x, a);
      } else if IsLogic(op) {
        var done;
        NarrowIsWord(l, val);
        done, code := GenLogic(t, op, l, rev, cut, x, a);
        if !done { o := Refused; }
      } else if IsShift(op) && !rev {
        NarrowDistance(l, val);
        o, code := GenShift(t, op, l, cut, x, a);
      } else {
        o, code := Refused, [];
      }
      if o == Folded {
        SameComputes(code, x, a, op, l, rev, val, op, cut);
      }
    }
  }

  /** The condition on a constant that the compiler front end drops a shift for, instead of passing it on. */
  predicate DroppedShift(val: bv64) { val == 0 }

  /** A shift that is passed on aborts if and only if its constant is a multiple of the operand's width. */
  lemma ShiftAbortsExact(op: Op, l: bool, val: bv64)
    requires IsShift(op) && !DroppedShift(val)
    ensures Fate(op, l, false, val) == Aborted <==> val & (if l then 63 else 31) == 0
    ensures Fate(op, l, false, val) == Aborted ==> val >= if l then 64 else 32
  {
    DistanceZero(l, val);
    MultipleLarge(val);
    hide Distance;
  }

  lemma DistanceZero(l: bool, val: bv64)
    ensures Distance(l, val) == 0 <==> val & (if l then 63 else 31) == 0
  {}

  lemma MultipleLarge(val: bv64)
    requires val != 0
    ensures (val & 31 == 0 ==> val >= 32) && (val & 63 == 0 ==> val >= 64)
  {}

  /** A 32-bit value shifted left by 32 is passed on and aborts. */
  lemma ShiftByWidthAborts()
    ensures !DroppedShift(32) && Fate(Lsl, false, false, 32) == Aborted
  {
    ShiftAbortsExact(Lsl, false, 32);
  }
}
