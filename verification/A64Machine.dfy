/** A small A64 machine: the instructions the code generator relies on when it builds
    constants, folds a constant operand or forms an address.  Field layouts and
    meanings follow section C4.1 and section C6.2 of Arm DDI 0487. */
module A64Machine {
  import opened Values

  /** Register file.  Index 31 holds SP; encodings where 31 means XZR use `ReadZ` and
      `WriteZ`.  An absent register reads as zero. */
  type Regs = map<Xreg, bv64>

  datatype Xreg = X(n: bv5)

  datatype WideOp = MovN | MovZ | MovK
  datatype LogicOp = And | Orr | Eor

  datatype Instr =
    | MoveWide(op: WideOp, sf: bool, imm16: bv16, shift: bv8, rd: bv5)
    | LogicImm(logic: LogicOp, sf: bool, n: bv8, immr: bv8, imms: bv8, rn: bv5, rd: bv5)
    | LogicReg(logic: LogicOp, invert: bool, sf: bool, rm: bv5, rn: bv5, rd: bv5)
    | AddSubImm(sub: bool, sf: bool, imm: bv64, rn: bv5, rd: bv5)
    | AddSubReg(sub: bool, sf: bool, rm: bv5, rn: bv5, rd: bv5)
    | Bitfield(signed: bool, sf: bool, immr: bv8, imms: bv8, rn: bv5, rd: bv5)
    | Adrp(pages: bv64, rd: bv5)
    | Branch(link: bool, offset: bv64)
    | Undefined

  /** The bits of an instruction word from bit lo up that `mask` selects. */
  function Field(w: bv32, lo: bv32, mask: bv32): bv32
    requires lo < 32
  {
    (w >> lo) & mask
  }

  function Reg(w: bv32, lo: bv32): bv5
    requires lo < 32
  {
    ((w >> lo) & 31) as bv5
  }

  /** Sign extension of 21 and of 26 bits to 64 bits. */
  function Sign21(v: bv64): bv64 {
    if v & 0x10_0000 == 0 then v & 0x1f_ffff else v | 0xffff_ffff_ffe0_0000
  }

  function Sign26(v: bv64): bv64 {
    if v & 0x200_0000 == 0 then v & 0x3ff_ffff else v | 0xffff_ffff_fc00_0000
  }

  function Times4(v: bv64): bv64 {
    v << 2
  }

  function Decode(w: bv32): Instr {
    var sf := Field(w, 31, 0x1) == 1;
    var opc := Field(w, 29, 0x3);
    var rd, rn, rm := Reg(w, 0), Reg(w, 5), Reg(w, 16);
    if Field(w, 23, 0x3f) == 0x25 then
      var hw := Field(w, 21, 0x3);
      var imm, shift := Field(w, 5, 0xffff) as bv16, (hw << 4) as bv8;
      if opc == 1 || (!sf && hw >= 2) then Undefined
      else MoveWide(if opc == 0 then MovN else if opc == 2 then MovZ else MovK, sf, imm, shift, rd)
    else if Field(w, 23, 0x3f) == 0x24 then
      var n := Field(w, 22, 0x1) as bv8;
      if opc == 3 || (!sf && n == 1) then Undefined
      else LogicImm(if opc == 0 then And else if opc == 1 then Orr else Eor, sf, n,
                    Field(w, 16, 0x3f) as bv8, Field(w, 10, 0x3f) as bv8, rn, rd)
    else if Field(w, 23, 0x3f) == 0x22 then
      var imm := Field(w, 10, 0xfff) as bv64;
      if Field(w, 29, 0x1) == 1 then Undefined
      else AddSubImm(Field(w, 30, 0x1) == 1, sf, if Field(w, 22, 0x1) == 1 then imm << 12 else imm, rn, rd)
    else if Field(w, 23, 0x3f) == 0x26 then
      var n := Field(w, 22, 0x1) == 1;
      var immr, imms := Field(w, 16, 0x3f) as bv8, Field(w, 10, 0x3f) as bv8;
      if opc == 1 || opc == 3 || n != sf || (!sf && (immr >= 32 || imms >= 32)) then Undefined
      else Bitfield(opc == 0, sf, immr, imms, rn, rd)
    else if Field(w, 24, 0x1f) == 0x0b && Field(w, 21, 0x7) == 0 && Field(w, 10, 0x3f) == 0
      && Field(w, 29, 0x1) == 0 then
      AddSubReg(Field(w, 30, 0x1) == 1, sf, rm, rn, rd)
    else if Field(w, 24, 0x1f) == 0x0a && Field(w, 22, 0x3) == 0 && Field(w, 10, 0x3f) == 0 && opc != 3 then
      LogicReg(if opc == 0 then And else if opc == 1 then Orr else Eor, Field(w, 21, 0x1) == 1, sf, rm, rn, rd)
    else if Field(w, 24, 0x1f) == 0x10 && sf then
      Adrp(Sign21(((Field(w, 5, 0x7ffff) as bv64) << 2) | (Field(w, 29, 0x3) as bv64)), rd)
    else if Field(w, 26, 0x1f) == 0x05 then
      Branch(sf, Times4(Sign26(Field(w, 0, 0x3ffffff) as bv64)))
    else
      Undefined
  }

  function Read(s: Regs, r: bv5): bv64 {
    if X(r) in s then s[X(r)] else 0
  }

  function ReadZ(s: Regs, r: bv5): bv64 {
    if r == 31 then 0 else Read(s, r)
  }

  function Write(s: Regs, r: bv5, v: bv64): Regs {
    s[X(r) := v]
  }

  function WriteZ(s: Regs, r: bv5, v: bv64): Regs {
    if r == 31 then s else Write(s, r, v)
  }

  lemma ReadWrite(s: Regs, r: bv5, v: bv64)
    ensures Read(Write(s, r, v), r) == v
    ensures forall q: bv5 :: q != r ==> Read(Write(s, r, v), q) == Read(s, q)
    ensures forall u: bv64 :: Write(Write(s, r, u), r, v) == Write(s, r, v)
  {
    forall u: bv64 ensures Write(Write(s, r, u), r, v) == Write(s, r, v) {
      assert s[X(r) := u][X(r) := v] == s[X(r) := v];
    }
  }

  /** Result of an operation of the width chosen by sf: a 32-bit form clears the upper half. */
  function Narrow(sf: bool, v: bv64): bv64 {
    if sf then v else v & 0xffff_ffff
  }

  function Ones(n: bv8): bv64
    requires n <= 64
  {
    if n == 64 then 0xffff_ffff_ffff_ffff else (1 << n) - 1
  }

  /** The element e of `size` bits repeated to fill 64 bits. */
  function Replicate(size: bv8, e: bv64): bv64 {
    if size == 2 then Replicate4(e | (e << 2))
    else if size == 4 then Replicate4(e)
    else if size == 8 then Replicate8(e)
    else if size == 16 then Replicate16(e)
    else if size == 32 then e | (e << 32)
    else e
  }

  function Replicate4(e: bv64): bv64 { Replicate8(e | (e << 4)) }
  function Replicate8(e: bv64): bv64 { Replicate16(e | (e << 8)) }
  function Replicate16(e: bv64): bv64 { var e2 := e | (e << 16); e2 | (e2 << 32) }

  /** Rotation right by r of an element of `size` bits. */
  function RotateRight(size: bv8, e: bv64, r: bv8): bv64
    requires 0 < size <= 64 && r < size
  {
    if r == 0 then e else ((e >> r) | (e << (size - r))) & Ones(size)
  }

  /** Element size selected by N and imms: the position of the highest set bit of
      N:NOT(imms); zero stands for a reserved pattern. */
  function ElementSize(n: bv8, imms: bv8): bv8 {
    if n == 1 then 64
    else if imms & 0x20 == 0 then 32
    else if imms & 0x10 == 0 then 16
    else if imms & 0x08 == 0 then 8
    else if imms & 0x04 == 0 then 4
    else if imms & 0x02 == 0 then 2
    else 0
  }

  /** DecodeBitMasks for a logical immediate, as used by AND, ORR and EOR (immediate). */
  function DecodeBitMasks(n: bv8, immr: bv8, imms: bv8): Option<bv64> {
    var size := ElementSize(n, imms);
    if size == 0 then None
    else
      var s, r := imms & (size - 1), immr & (size - 1);
      if s == size - 1 then None
      else Some(Replicate(size, RotateRight(size, Ones(s + 1), r)))
  }

  function Shl(x: bv64, n: bv8): bv64
    requires n < 64
  {
    x << n
  }

  function Shr(x: bv64, n: bv8): bv64
    requires n < 64
  {
    x >> n
  }

  /** Arithmetic shift right. */
  function Asr(v: bv64, n: bv8): bv64
    requires n < 64
  {
    if v >> 63 == 1 then !(!v >> n) else v >> n
  }

  /** Bits 0..top of v, zero- or sign-extended. */
  function Extend(signed: bool, v: bv64, top: bv8): bv64
    requires top < 64
  {
    var low := v & Ones(top + 1);
    if signed && (v >> top) & 1 == 1 then low | !Ones(top + 1) else low
  }

  /** UBFM and SBFM: bits immr..imms moved to the bottom of the result, or the low
      imms+1 bits moved up to bit (width - immr), zero- or sign-extended. */
  function BitfieldMove(signed: bool, sf: bool, immr: bv8, imms: bv8, src: bv64): bv64
    requires immr < 64 && imms < 64
    requires !sf ==> immr < 32 && imms < 32
  {
    if imms < immr then Shl(Extend(signed, src, imms), (if sf then 64 else 32) - immr)
    else if signed then Asr(Extend(signed, src, imms), immr)
    else Shr(Extend(signed, src, imms), immr)
  }

  function AddSub(sub: bool, a: bv64, b: bv64): bv64 {
    if sub then a - b else a + b
  }

  function Invert(inv: bool, v: bv64): bv64 {
    if inv then !v else v
  }

  function Logic(op: LogicOp, a: bv64, b: bv64): bv64 {
    match op
    case And => a & b
    case Orr => a | b
    case Eor => a ^ b
  }

  /** Value moved by MOVN, MOVZ and MOVK into a register that held `prev`. */
  function MovedWide(op: WideOp, imm: bv16, shift: bv8, prev: bv64): bv64
    requires shift < 64
  {
    var v := (imm as bv64) << shift;
    match op
    case MovN => !v
    case MovZ => v
    case MovK => (prev & !(0xffff << shift)) | v
  }

  /** The address `pages` pages away from the start of the page of pc. */
  function PageAddress(pc: bv64, pages: bv64): bv64 {
    Shr(pc, 12) * 4096 + pages * 4096
  }

  /** Processor state: the address of the next instruction and the register file. */
  datatype Cpu = Cpu(pc: bv64, x: Regs)

  /** One instruction; None where the architecture leaves the encoding undefined or
      where control leaves the straight line. */
  function Step(i: Instr, m: Cpu): Option<Cpu> {
    var s := m.x;
    match i
    case MoveWide(op, sf, imm, shift, rd) =>
      if shift >= 64 then None
      else Some(Next(m, WriteZ(s, rd, Narrow(sf, MovedWide(op, imm, shift, ReadZ(s, rd))))))
    case LogicImm(op, sf, n, immr, imms, rn, rd) =>
      (match DecodeBitMasks(n, immr, imms)
       case None => None
       case Some(mask) => Some(Next(m, Write(s, rd, Narrow(sf, Logic(op, ReadZ(s, rn), mask))))))
    case LogicReg(op, inv, sf, rm, rn, rd) =>
      Some(Next(m, WriteZ(s, rd, Narrow(sf, Logic(op, ReadZ(s, rn), Invert(inv, ReadZ(s, rm)))))))
    case AddSubImm(sub, sf, imm, rn, rd) =>
      var a := Read(s, rn);
      Some(Next(m, Write(s, rd, Narrow(sf, AddSub(sub, a, imm)))))
    case AddSubReg(sub, sf, rm, rn, rd) =>
      var a, b := ReadZ(s, rn), ReadZ(s, rm);
      Some(Next(m, WriteZ(s, rd, Narrow(sf, AddSub(sub, a, b)))))
    case Bitfield(signed, sf, immr, imms, rn, rd) =>
      if immr >= 64 || imms >= 64 || (!sf && (immr >= 32 || imms >= 32)) then None else
      Some(Next(m, WriteZ(s, rd, Narrow(sf, BitfieldMove(signed, sf, immr, imms, ReadZ(s, rn))))))
    case Adrp(pages, rd) =>
      Some(Next(m, WriteZ(s, rd, PageAddress(m.pc, pages))))
    case Branch(_, _) => None
    case Undefined => None
  }

  function Next(m: Cpu, x: Regs): Cpu {
    Cpu(m.pc + 4, x)
  }

  /** Straight-line execution of consecutive words. */
  function Run(code: seq<bv32>, m: Cpu): Option<Cpu> {
    if code == [] then Some(m)
    else match Step(Decode(code[0]), m)
         case None => None
         case Some(m1) => Run(code[1..], m1)
  }

  lemma {:induction false} RunOne(w: bv32, m: Cpu)
    ensures Run([w], m) == Step(Decode(w), m)
  {
    assert [w][1..] == [];
  }

  lemma {:induction false} RunAppend(c1: seq<bv32>, c2: seq<bv32>, m: Cpu)
    requires Run(c1, m).Some?
    ensures Run(c1 + c2, m) == Run(c2, Run(c1, m).value)
  {
    if c1 == [] {
      assert c1 + c2 == c2;
    } else {
      assert (c1 + c2)[0] == c1[0] && (c1 + c2)[1..] == c1[1..] + c2;
      RunAppend(c1[1..], c2, Step(Decode(c1[0]), m).value);
    }
  }
}
