/** Building a 64-bit constant in a register. */
module A64Mov {
  import opened Values
  import opened A64Machine
  import opened A64LogicalImm
  import opened CodeText

  function Lo32(v: bv64): bv32 {
    (v & 0xffff_ffff) as bv32
  }

  /** x has no bit set outside the sixteen bits at k. */
  predicate Only(x: bv64, k: bv8)
    requires k < 64
  {
    x & !Shl(0xffff, k) == 0
  }

  /** x has no bit clear outside the sixteen bits at k. */
  predicate AllBut(x: bv64, k: bv8)
    requires k < 64
  {
    !(x | Shl(0xffff, k)) == 0
  }

  /** Outside the sixteen bits at k, the value of x is `rest`. */
  predicate Around(x: bv64, k: bv8, rest: bv64)
    requires k < 64
  {
    x & !Shl(0xffff, k) == rest
  }

  function Word(opcode: bv32, r: bv5, field: bv32): bv32 {
    opcode | (r as bv32) | field
  }

  /** The sixteen complemented bits, already in instruction position. */
  function InvField(v: bv64): bv32 {
    Lo32(v & 0x1fffe0)
  }

  /** One instruction that sets register r to x, or 0 when there is none. */
  function MovI(r: bv5, x: bv64): bv32 {
    if Only(x, 0) then Word(0x52800000, r, Lo32(Shl(x, 5)))
    else if Only(x, 16) then Word(0x52a00000, r, Lo32(Shr(x, 11)))
    else if Only(x, 32) then Word(0xd2c00000, r, Lo32(Shr(x, 27)))
    else if Only(x, 48) then Word(0xd2e00000, r, Lo32(Shr(x, 43)))
    else if Around(x, 0, 0xffff_0000) then Word(0x12800000, r, InvField(Shl(!x, 5)))
    else if Around(x, 16, 0xffff) then Word(0x12a00000, r, InvField(Shr(!x, 11)))
    else if AllBut(x, 0) then Word(0x92800000, r, InvField(Shl(!x, 5)))
    else if AllBut(x, 16) then Word(0x92a00000, r, InvField(Shr(!x, 11)))
    else if AllBut(x, 32) then Word(0x92c00000, r, InvField(Shr(!x, 27)))
    else if AllBut(x, 48) then Word(0x92e00000, r, InvField(Shr(!x, 43)))
    else MovLogical(r, x)
  }

  function MovLogical(r: bv5, x: bv64): bv32 {
    match Encode(Double(x))
    case Some(e) =>
      if IsWord(x) then Word(0x320003e0, r, e << 10) else MovLogical64(r, x)
    case None => MovLogical64(r, x)
  }

  function MovLogical64(r: bv5, x: bv64): bv32 {
    match Encode(x)
    case Some(e) => Word(0xb20003e0, r, e << 10)
    case None => 0
  }

  /** The word sets register r to x and changes nothing else. */
  ghost predicate Sets(w: bv32, r: bv5, x: bv64) {
    forall m: Cpu :: Step(Decode(w), m) == Some(Next(m, Write(m.x, r, x)))
  }

  /** The encoding of a move-wide instruction. */
  function Wide(op: WideOp, sf: bool, imm: bv16, hw: bv32, r: bv5): bv32 {
    (if sf then 0x8000_0000 else 0) | (match op case MovN => 0 case MovZ => 0x4000_0000 case MovK => 0x6000_0000)
    | 0x1280_0000 | ((hw & 3) << 21) | ((imm as bv32) << 5) | (r as bv32)
  }

  lemma DecodeWide(op: WideOp, sf: bool, imm: bv16, hw: bv32, r: bv5)
    requires hw < 4 && (sf || hw < 2)
    ensures Decode(Wide(op, sf, imm, hw, r)) == MoveWide(op, sf, imm, (hw << 4) as bv8, r)
  {}

  lemma WideSets(op: WideOp, sf: bool, imm: bv16, hw: bv32, r: bv5, x: bv64)
    requires op != MovK && r != 31 && hw < 4 && (sf || hw < 2)
    requires x == Narrow(sf, MovedWide(op, imm, (hw << 4) as bv8, 0))
    ensures Sets(Wide(op, sf, imm, hw, r), r, x)
  {
    hide Decode, Wide, Narrow;
    DecodeWide(op, sf, imm, hw, r);
    MovedIgnores(op, imm, (hw << 4) as bv8);
    hide MovedWide;
  }

  lemma MovedIgnores(op: WideOp, imm: bv16, shift: bv8)
    requires op != MovK && shift < 64
    ensures forall prev: bv64 :: MovedWide(op, imm, shift, prev) == MovedWide(op, imm, shift, 0)
  {}
  /** Sixteen bits of x starting at bit k. */
  function Chunk(x: bv64, k: bv8): bv16
    requires k < 64
  {
    (Shr(x, k) & 0xffff) as bv16
  }

  predicate WordIs(w: bv32, op: WideOp, sf: bool, imm: bv16, hw: bv32, r: bv5) {
    w ^ Wide(op, sf, imm, hw, r) == 0
  }

  predicate ValueIs(x: bv64, op: WideOp, sf: bool, imm: bv16, k: bv8)
    requires k < 64
  {
    x ^ Narrow(sf, MovedWide(op, imm, k, 0)) == 0
  }

  lemma WideCase(w: bv32, op: WideOp, sf: bool, imm: bv16, hw: bv32, r: bv5, x: bv64)
    requires op != MovK && r != 31 && hw < 4 && (sf || hw < 2)
    requires WordIs(w, op, sf, imm, hw, r) && ValueIs(x, op, sf, imm, (hw << 4) as bv8)
    ensures Sets(w, r, x)
  {
    hide Wide, Sets, MovedWide, Narrow;
    WideSets(op, sf, imm, hw, r, x);
  }

  // ---- each single-instruction form does what its test promises ----

  predicate IsChunk(k: bv8) {
    k == 0 || k == 16 || k == 32 || k == 48
  }

  lemma ValueZ(x: bv64, k: bv8)
    requires IsChunk(k) && Only(x, k)
    ensures ValueIs(x, MovZ, true, Chunk(x, k), k)
  {}

  lemma ValueZW(x: bv64, k: bv8)
    requires (k == 0 || k == 16) && Only(x, k)
    ensures ValueIs(x, MovZ, false, Chunk(x, k), k)
  {}

  lemma ValueN(x: bv64, k: bv8)
    requires IsChunk(k) && AllBut(x, k)
    ensures ValueIs(x, MovN, true, Chunk(!x, k), k)
  {}

  lemma ValueNW(x: bv64, k: bv8)
    requires (k == 0 && Around(x, 0, 0xffff_0000)) || (k == 16 && Around(x, 16, 0xffff))
    ensures ValueIs(x, MovN, false, Chunk(!x, k), k)
  {}

  lemma WordZ0(r: bv5, x: bv64)
    requires Only(x, 0)
    ensures WordIs(Word(0x52800000, r, Lo32(Shl(x, 5))), MovZ, false, Chunk(x, 0), 0, r)
  {}

  lemma WordZ16(r: bv5, x: bv64)
    requires Only(x, 16)
    ensures WordIs(Word(0x52a00000, r, Lo32(Shr(x, 11))), MovZ, false, Chunk(x, 16), 1, r)
  {}

  lemma WordZ32(r: bv5, x: bv64)
    requires Only(x, 32)
    ensures WordIs(Word(0xd2c00000, r, Lo32(Shr(x, 27))), MovZ, true, Chunk(x, 32), 2, r)
  {}

  lemma WordZ48(r: bv5, x: bv64)
    requires Only(x, 48)
    ensures WordIs(Word(0xd2e00000, r, Lo32(Shr(x, 43))), MovZ, true, Chunk(x, 48), 3, r)
  {}

  lemma WordNW0(r: bv5, x: bv64)
    ensures WordIs(Word(0x12800000, r, InvField(Shl(!x, 5))), MovN, false, Chunk(!x, 0), 0, r)
  {}

  lemma WordNW16(r: bv5, x: bv64)
    ensures WordIs(Word(0x12a00000, r, InvField(Shr(!x, 11))), MovN, false, Chunk(!x, 16), 1, r)
  {}

  lemma WordNX0(r: bv5, x: bv64)
    ensures WordIs(Word(0x92800000, r, InvField(Shl(!x, 5))), MovN, true, Chunk(!x, 0), 0, r)
  {}

  lemma WordNX16(r: bv5, x: bv64)
    ensures WordIs(Word(0x92a00000, r, InvField(Shr(!x, 11))), MovN, true, Chunk(!x, 16), 1, r)
  {}

  lemma WordNX32(r: bv5, x: bv64)
    ensures WordIs(Word(0x92c00000, r, InvField(Shr(!x, 27))), MovN, true, Chunk(!x, 32), 2, r)
  {}

  lemma WordNX48(r: bv5, x: bv64)
    ensures WordIs(Word(0x92e00000, r, InvField(Shr(!x, 43))), MovN, true, Chunk(!x, 48), 3, r)
  {}

  /** A single instruction, when there is one, sets r to x. */
  lemma MovISets(r: bv5, x: bv64)
    requires r != 31 && MovI(r, x) != 0
    ensures Sets(MovI(r, x), r, x)
  {
    hide Sets, WordIs, ValueIs, Chunk, Lo32, InvField, Word, Only, AllBut, Around, Shl, Shr, MovLogical;
    var w := MovI(r, x);
    if Only(x, 0) { WordZ0(r, x); ValueZW(x, 0); WideCase(w, MovZ, false, Chunk(x, 0), 0, r, x); }
    else if Only(x, 16) { WordZ16(r, x); ValueZW(x, 16); WideCase(w, MovZ, false, Chunk(x, 16), 1, r, x); }
    else if Only(x, 32) { WordZ32(r, x); ValueZ(x, 32); WideCase(w, MovZ, true, Chunk(x, 32), 2, r, x); }
    else if Only(x, 48) { WordZ48(r, x); ValueZ(x, 48); WideCase(w, MovZ, true, Chunk(x, 48), 3, r, x); }
    else if Around(x, 0, 0xffff_0000) { WordNW0(r, x); ValueNW(x, 0); WideCase(w, MovN, false, Chunk(!x, 0), 0, r, x); }
    else if Around(x, 16, 0xffff) { WordNW16(r, x); ValueNW(x, 16); WideCase(w, MovN, false, Chunk(!x, 16), 1, r, x); }
    else if AllBut(x, 0) { WordNX0(r, x); ValueN(x, 0); WideCase(w, MovN, true, Chunk(!x, 0), 0, r, x); }
    else if AllBut(x, 16) { WordNX16(r, x); ValueN(x, 16); WideCase(w, MovN, true, Chunk(!x, 16), 1, r, x); }
    else if AllBut(x, 32) { WordNX32(r, x); ValueN(x, 32); WideCase(w, MovN, true, Chunk(!x, 32), 2, r, x); }
    else if AllBut(x, 48) { WordNX48(r, x); ValueN(x, 48); WideCase(w, MovN, true, Chunk(!x, 48), 3, r, x); }
    else { MovLogicalSets(r, x); }
  }

  // ---- logical immediates ----

  /** The encoding of a logical instruction with an immediate. */
  function LogicWord(op: LogicOp, sf: bool, e: bv32, a: bv5, r: bv5): bv32 {
    (match op case And => 0x1200_0000 case Orr => 0x3200_0000 case Eor => 0x5200_0000)
    | (if sf then 0x8000_0000 else 0) | (r as bv32) | ((a as bv32) << 5) | (e << 10)
  }

  function LogicOpc(op: LogicOp): bv32 {
    match op case And => 0 case Orr => 1 case Eor => 2
  }

  lemma LogicWordOpcode(op: LogicOp, sf: bool, e: bv32, a: bv5, r: bv5)
    requires e < 0x2000
    ensures var w := LogicWord(op, sf, e, a, r);
      Field(w, 23, 0x3f) == 0x24 && Field(w, 29, 0x3) == LogicOpc(op) && Field(w, 31, 0x1) == if sf then 1 else 0
  {}

  lemma LogicWordFields(op: LogicOp, sf: bool, e: bv32, a: bv5, r: bv5)
    requires e < 0x2000
    ensures var w := LogicWord(op, sf, e, a, r);
      Field(w, 22, 0x1) == (e >> 12) & 1 && Field(w, 16, 0x3f) == (e >> 6) & 63 && Field(w, 10, 0x3f) == e & 63
  {}

  lemma LogicWordRegs(op: LogicOp, sf: bool, e: bv32, a: bv5, r: bv5)
    requires e < 0x2000
    ensures var w := LogicWord(op, sf, e, a, r); Reg(w, 5) == a && Reg(w, 0) == r
  {}

  lemma DecodeLogic(op: LogicOp, sf: bool, e: bv32, a: bv5, r: bv5)
    requires e < 0x2000 && (sf || e < 0x1000)
    ensures Decode(LogicWord(op, sf, e, a, r))
         == LogicImm(op, sf, ((e >> 12) & 1) as bv8, ((e >> 6) & 63) as bv8, (e & 63) as bv8, a, r)
  {
    hide Field, Reg, LogicWord;
    LogicWordOpcode(op, sf, e, a, r);
    LogicWordFields(op, sf, e, a, r);
    LogicWordRegs(op, sf, e, a, r);
  }

  /** A logical instruction whose fields decode to v combines its operand with v. */
  lemma LogicStep(op: LogicOp, sf: bool, e: bv32, a: bv5, r: bv5, v: bv64, m: Cpu)
    requires e < 0x2000 && (sf || e < 0x1000) && DecodeFields(e) == Some(v)
    ensures Step(Decode(LogicWord(op, sf, e, a, r)), m)
      == Some(Next(m, Write(m.x, r, Narrow(sf, Logic(op, ReadZ(m.x, a), v)))))
  {
    hide Decode, LogicWord, DecodeBitMasks, Narrow, Logic;
    DecodeLogic(op, sf, e, a, r);
  }

  lemma LogicMov(r: bv5, e: bv32)
    ensures Word(0x320003e0, r, e << 10) == LogicWord(Orr, false, e, 31, r)
    ensures Word(0xb20003e0, r, e << 10) == LogicWord(Orr, true, e, 31, r)
  {}

  lemma OrrZero(x: bv64)
    ensures Narrow(true, Logic(Orr, 0, x)) == x
  {}

  lemma OrrZeroWord(x: bv64)
    requires IsWord(x)
    ensures Narrow(false, Logic(Orr, 0, Double(x))) == x
  {
    assert Narrow(false, Logic(Orr, 0, Double(x))) ^ x == 0;
  }

  lemma LogicSets(sf: bool, r: bv5, e: bv32, v: bv64, x: bv64)
    requires e < 0x2000 && (sf || e < 0x1000) && DecodeFields(e) == Some(v)
    requires Narrow(sf, Logic(Orr, 0, v)) == x
    ensures Sets(LogicWord(Orr, sf, e, 31, r), r, x)
  {
    hide Step, Decode, LogicWord, Narrow, Logic, DecodeFields;
    forall m: Cpu
      ensures Step(Decode(LogicWord(Orr, sf, e, 31, r)), m) == Some(Next(m, Write(m.x, r, x)))
    {
      LogicStep(Orr, sf, e, 31, r, v, m);
    }
  }

  lemma MovLogical64Sets(r: bv5, x: bv64)
    requires MovLogical64(r, x) != 0
    ensures Sets(MovLogical64(r, x), r, x)
  {
    hide Sets, Encode, DecodeFields, Word, LogicWord, Narrow, Logic;
    EncodeSound(x);
    OrrZero(x);
    LogicMov(r, Encode(x).value);
    LogicSets(true, r, Encode(x).value, x, x);
  }

  lemma MovLogicalSets(r: bv5, x: bv64)
    requires MovLogical(r, x) != 0
    ensures Sets(MovLogical(r, x), r, x)
  {
    hide Sets, Encode, DecodeFields, Word, LogicWord, Narrow, Logic, Double, IsWord, MovLogical64;
    if IsWord(x) && Encode(Double(x)).Some? {
      EncodeSound(Double(x));
      EncodeNarrow(x);
      OrrZeroWord(x);
      LogicMov(r, Encode(Double(x)).value);
      LogicSets(false, r, Encode(Double(x)).value, Double(x), x);
    } else {
      MovLogical64Sets(r, x);
    }
  }

  // ---- several instructions ----

  /** Running the code sets register r to x, changes no other register and falls through. */
  ghost predicate Builds(code: seq<bv32>, r: bv5, x: bv64) {
    forall m: Cpu :: Run(code, m).Some? && Run(code, m).value.x == Write(m.x, r, x)
  }

  /** Bit position of the k-th sixteen-bit piece. */
  function At(k: nat): bv8
    requires k <= 4
  {
    if k == 0 then 0 else if k == 1 then 16 else if k == 2 then 32 else if k == 3 then 48 else 64
  }

  function LowMask(i: bv8): bv64 {
    if i == 0 then 0 else if i == 16 then 0xffff else if i == 32 then 0xffff_ffff
    else if i == 48 then 0xffff_ffff_ffff else 0xffff_ffff_ffff_ffff
  }

  /** x below bit i, all ones or all zeros above. */
  function Partial(x: bv64, neg: bool, i: bv8): bv64 {
    if neg then x | !LowMask(i) else x & LowMask(i)
  }

  function Flip(x: bv64, neg: bool): bv64 {
    if neg then !x else x
  }

  lemma SkipChunk(x: bv64, neg: bool, i: bv8)
    requires IsChunk(i) && Chunk(Flip(x, neg), i) == 0
    ensures Partial(x, neg, i + 16) == Partial(x, neg, i)
  {
    hide Partial, Chunk;
    if neg {
      SkipOnes0(x);
      SkipOnes16(x);
      SkipOnes32(x);
      SkipOnes48(x);
    } else {
      SkipZeros0(x);
      SkipZeros16(x);
      SkipZeros32(x);
      SkipZeros48(x);
    }
  }

  lemma SkipZeros0(x: bv64)
    ensures Chunk(x, 0) == 0 ==> Partial(x, false, 16) == Partial(x, false, 0)
  {}

  lemma SkipOnes0(x: bv64)
    ensures Chunk(!x, 0) == 0 ==> Partial(x, true, 16) == Partial(x, true, 0)
  {}

  lemma SkipZeros16(x: bv64)
    ensures Chunk(x, 16) == 0 ==> Partial(x, false, 32) == Partial(x, false, 16)
  {}

  lemma SkipOnes16(x: bv64)
    ensures Chunk(!x, 16) == 0 ==> Partial(x, true, 32) == Partial(x, true, 16)
  {}

  lemma SkipZeros32(x: bv64)
    ensures Chunk(x, 32) == 0 ==> Partial(x, false, 48) == Partial(x, false, 32)
  {}

  lemma SkipOnes32(x: bv64)
    ensures Chunk(!x, 32) == 0 ==> Partial(x, true, 48) == Partial(x, true, 32)
  {}

  lemma SkipZeros48(x: bv64)
    ensures Chunk(x, 48) == 0 ==> Partial(x, false, 64) == Partial(x, false, 48)
  {
    hide Chunk, Partial;
    TopChunk(x);
    if x & 0xffff_0000_0000_0000 == 0 { NoTopZeros(x); }
  }

  lemma TopChunk(x: bv64)
    ensures Chunk(x, 48) == 0 ==> x & 0xffff_0000_0000_0000 == 0
  {}

  lemma NoTopZeros(x: bv64)
    requires x & 0xffff_0000_0000_0000 == 0
    ensures Partial(x, false, 64) == Partial(x, false, 48)
  {
    assert Partial(x, false, 64) ^ Partial(x, false, 48) == 0;
  }

  lemma NoTopOnes(x: bv64)
    requires !x & 0xffff_0000_0000_0000 == 0
    ensures Partial(x, true, 64) == Partial(x, true, 48)
  {
    assert Partial(x, true, 64) ^ Partial(x, true, 48) == 0;
  }

  lemma SkipOnes48(x: bv64)
    ensures Chunk(!x, 48) == 0 ==> Partial(x, true, 64) == Partial(x, true, 48)
  {
    hide Chunk, Partial;
    TopChunk(!x);
    if !x & 0xffff_0000_0000_0000 == 0 { NoTopOnes(x); }
  }

  /** The first move sets the low i + 16 bits, given that the bits below i need no move. */
  predicate FirstMoves(x: bv64, neg: bool, i: bv8)
    requires i < 64
  {
    MovedWide(if neg then MovN else MovZ, Chunk(Flip(x, neg), i), i, 0) ^ Partial(x, neg, i + 16) == 0
  }

  /** Each further move sets sixteen more bits. */
  predicate NextMoves(x: bv64, neg: bool, i: bv8)
    requires i < 64
  {
    MovedWide(MovK, Chunk(x, i), i, Partial(x, neg, i)) ^ Partial(x, neg, i + 16) == 0
  }

  lemma FirstMove0(x: bv64, neg: bool)
    ensures FirstMoves(x, neg, 0)
  {}

  lemma NextMove0(x: bv64, neg: bool)
    ensures NextMoves(x, neg, 0)
  {}

  lemma FirstMove16(x: bv64, neg: bool)
    requires Partial(x, neg, 16) == Partial(x, neg, 0)
    ensures FirstMoves(x, neg, 16)
  {}

  lemma NextMove16(x: bv64, neg: bool)
    ensures NextMoves(x, neg, 16)
  {}

  lemma FirstMove32(x: bv64, neg: bool)
    requires Partial(x, neg, 32) == Partial(x, neg, 0)
    ensures FirstMoves(x, neg, 32)
  {}

  lemma NextMove32(x: bv64, neg: bool)
    ensures NextMoves(x, neg, 32)
  {}

  lemma FirstMove48(x: bv64, neg: bool)
    requires Partial(x, neg, 48) == Partial(x, neg, 0)
    ensures FirstMoves(x, neg, 48)
  {}

  lemma NextMove48Zeros(x: bv64)
    ensures NextMoves(x, false, 48)
  {}

  lemma NextMove48Ones(x: bv64)
    ensures NextMoves(x, true, 48)
  {}

  lemma FirstMove(x: bv64, neg: bool, i: bv8)
    requires IsChunk(i) && Partial(x, neg, i) == Partial(x, neg, 0)
    ensures FirstMoves(x, neg, i)
  {
    hide FirstMoves, Partial;
    if i == 0 { FirstMove0(x, neg); }
    else if i == 16 { FirstMove16(x, neg); }
    else if i == 32 { FirstMove32(x, neg); }
    else { FirstMove48(x, neg); }
  }

  lemma NextMove(x: bv64, neg: bool, i: bv8)
    requires IsChunk(i)
    ensures NextMoves(x, neg, i)
  {
    hide NextMoves;
    if i == 0 { NextMove0(x, neg); }
    else if i == 16 { NextMove16(x, neg); }
    else if i == 32 { NextMove32(x, neg); }
    else if neg { NextMove48Ones(x); }
    else { NextMove48Zeros(x); }
  }

  lemma PartialAll(x: bv64, neg: bool)
    ensures Partial(x, neg, 64) == x
  {}

  function Opcode(op: WideOp): bv32 {
    match op case MovN => 0x92800000 case MovZ => 0xd2800000 case MovK => 0xf2800000
  }

  function MoveWord(opcode: bv32, r: bv5, c: bv16, i: bv8): bv32 {
    opcode | (r as bv32) | ((c as bv32) << 5) | ((i as bv32) << 17)
  }

  lemma MoveDecodes(op: WideOp, r: bv5, c: bv16, i: bv8)
    requires IsChunk(i)
    ensures Decode(MoveWord(Opcode(op), r, c, i)) == MoveWide(op, true, c, i, r)
  {
    hide Decode, Wide, MoveWord, Opcode;
    MoveWordIsWide(op, r, c, i);
    DecodeWide(op, true, c, (i as bv32) >> 4, r);
  }

  lemma MoveWordIsWide(op: WideOp, r: bv5, c: bv16, i: bv8)
    requires IsChunk(i)
    ensures MoveWord(Opcode(op), r, c, i) == Wide(op, true, c, (i as bv32) >> 4, r)
    ensures (i as bv32) >> 4 < 4 && (((i as bv32) >> 4) << 4) as bv8 == i
  {}

  lemma BuildsFirst(w: bv32, op: WideOp, r: bv5, c: bv16, i: bv8, v: bv64)
    requires op != MovK && r != 31 && i < 64 && Decode(w) == MoveWide(op, true, c, i, r) && MovedWide(op, c, i, 0) == v
    ensures Builds([w], r, v)
  {
    hide Decode, MovedWide;
    MovedIgnores(op, c, i);
    forall m: Cpu ensures Run([w], m).Some? && Run([w], m).value.x == Write(m.x, r, v) {
      RunOne(w, m);
    }
  }

  lemma KeepsStep(w: bv32, r: bv5, c: bv16, i: bv8, v: bv64, m: Cpu)
    requires r != 31 && i < 64 && Decode(w) == MoveWide(MovK, true, c, i, r) && ReadZ(m.x, r) == v
    ensures Step(Decode(w), m) == Some(Next(m, Write(m.x, r, MovedWide(MovK, c, i, v))))
  {
    hide Decode, MovedWide;
  }

  lemma BuildsNext(code: seq<bv32>, w: bv32, r: bv5, c: bv16, i: bv8, v: bv64)
    requires r != 31 && i < 64 && Decode(w) == MoveWide(MovK, true, c, i, r) && Builds(code, r, v)
    ensures Builds(code + [w], r, MovedWide(MovK, c, i, v))
  {
    hide Decode, MovedWide, Step;
    var v' := MovedWide(MovK, c, i, v);
    forall m: Cpu ensures Run(code + [w], m).Some? && Run(code + [w], m).value.x == Write(m.x, r, v') {
      RunAppend(code, [w], m);
      var m1 := Run(code, m).value;
      assert m1.x == Write(m.x, r, v);
      assert ReadZ(m1.x, r) == v;
      RunOne(w, m1);
      KeepsStep(w, r, c, i, v, m1);
      assert Write(Write(m.x, r, v), r, v') == Write(m.x, r, v');
    }
  }

  lemma SetsBuilds(w: bv32, r: bv5, x: bv64)
    requires Sets(w, r, x)
    ensures Builds([w], r, x)
  {
    hide Decode, Step, Write, Run;
    forall m: Cpu ensures Run([w], m).Some? && Run([w], m).value.x == Write(m.x, r, x) {
      RunOne(w, m);
      assert Step(Decode(w), m) == Some(Next(m, Write(m.x, r, x)));
    }
  }

  lemma MovIOfFill(r: bv5, neg: bool)
    ensures MovI(r, Partial(0, neg, 0)) != 0
  {
    hide MovLogical;
  }

  lemma PartialFill(x: bv64, neg: bool)
    ensures Partial(x, neg, 0) == Partial(0, neg, 0)
  {}

  lemma AtStep(k: nat)
    requires k < 4
    ensures IsChunk(At(k)) && At(k) < 64 && At(k) + 16 == At(k + 1)
  {}

  /** How many moves x needs: one for each piece that is not the commoner filling. */
  function MoveCount(x: bv64): int {
    var z, m := ZeroCount(x, 0), ZeroCount(!x, 0);
    4 - if m > z then m else z
  }

  /** Emits at most four instructions that together set r to x. */
  method MovImm(t: Text, r: bv5, x: bv64) returns (ghost code: seq<bv32>)
    requires r != 31
    modifies t
    ensures t.words == old(t.words) + code && 1 <= |code| <= 4
    ensures Builds(code, r, x)
    ensures MovI(r, x) == 0 ==> |code| == MoveCount(x)
  {
    hide MovI, Sets, Builds;
    var w := MovI(r, x);
    if w != 0 {
      t.O(w);
      code := [w];
      MovISets(r, x);
      SetsBuilds(w, r, x);
    } else {
      code := MovMany(t, r, x);
    }
  }

  /** How many of the sixteen-bit pieces of x from the k-th on are zero. */
  function ZeroCount(x: bv64, k: nat): nat
    requires k <= 4
    decreases 4 - k
  {
    if k == 4 then 0 else (if Chunk(x, At(k)) == 0 then 1 else 0) + ZeroCount(x, k + 1)
  }

  lemma ZeroStep(x: bv64, k: nat)
    requires k < 4
    ensures At(k) < 64 && ZeroCount(x, k) == (if Chunk(x, At(k)) == 0 then 1 else 0) + ZeroCount(x, k + 1)
  {
    hide Chunk;
  }

  lemma ZeroEnd(x: bv64)
    ensures ZeroCount(x, 4) == 0
  {}

  method ZeroPieces(x: bv64) returns (n: nat)
    ensures n == ZeroCount(x, 0)
  {
    hide Chunk;
    n := 0;
    var i: bv8 := 0;
    ghost var k := 0;
    while i < 64
      invariant k <= 4 && i == At(k) && n + ZeroCount(x, k) == ZeroCount(x, 0)
      decreases 4 - k
    {
      AtStep(k);
      if Chunk(x, i) == 0 {
        n := n + 1;
      }
      i, k := i + 16, k + 1;
    }
  }

  /** The value reached once the pieces below bit i are in place. */
  lemma FirstBuilds(x: bv64, neg: bool, i: bv8, r: bv5, w: bv32)
    requires r != 31 && IsChunk(i) && i < 64 && Partial(x, neg, i) == Partial(x, neg, 0)
    requires w == MoveWord(Opcode(if neg then MovN else MovZ), r, Chunk(Flip(x, neg), i), i)
    ensures Builds([w], r, Partial(x, neg, i + 16))
  {
    hide Builds, Decode, MovedWide, Partial, Chunk, Flip, MoveWord, Opcode;
    var op := if neg then MovN else MovZ;
    var c := Chunk(Flip(x, neg), i);
    MoveDecodes(op, r, c, i);
    FirstMove(x, neg, i);
    Same(MovedWide(op, c, i, 0), Partial(x, neg, i + 16));
    BuildsFirst(w, op, r, c, i, Partial(x, neg, i + 16));
  }

  lemma NextBuilds(code: seq<bv32>, x: bv64, neg: bool, i: bv8, r: bv5, w: bv32)
    requires r != 31 && IsChunk(i) && i < 64 && Builds(code, r, Partial(x, neg, i))
    requires w == MoveWord(Opcode(MovK), r, Chunk(x, i), i)
    ensures Builds(code + [w], r, Partial(x, neg, i + 16))
  {
    hide Builds, Decode, MovedWide, Partial, Chunk, MoveWord, Opcode;
    MoveDecodes(MovK, r, Chunk(x, i), i);
    NextMove(x, neg, i);
    Same(MovedWide(MovK, Chunk(x, i), i, Partial(x, neg, i)), Partial(x, neg, i + 16));
    BuildsNext(code, w, r, Chunk(x, i), i, Partial(x, neg, i));
  }

  lemma Same(a: bv64, b: bv64)
    requires a ^ b == 0
    ensures a == b
  {}

  /** Some piece needs a move, because a value that is all zeros or all ones is one instruction. */
  lemma SomePiece(r: bv5, x: bv64, neg: bool)
    requires MovI(r, x) == 0
    ensures Partial(x, neg, 64) != Partial(x, neg, 0)
  {
    hide MovI, Partial;
    PartialAll(x, neg);
    PartialFill(x, neg);
    MovIOfFill(r, neg);
  }

  method MovMany(t: Text, r: bv5, x: bv64) returns (ghost code: seq<bv32>)
    requires r != 31 && MovI(r, x) == 0
    modifies t
    ensures t.words == old(t.words) + code && 1 <= |code| <= 4
    ensures Builds(code, r, x)
    ensures |code| == MoveCount(x)
  {
    hide MovI, Builds, Partial, Chunk, MoveWord, Opcode, IsChunk, At, ZeroCount;
    var z := ZeroPieces(x);
    var m := ZeroPieces(!x);
    var neg := m > z;
    var x1 := Flip(x, neg);
    var i: bv8 := 0;
    ghost var k := 0;
    AtEnds();
    while i < 64 && Chunk(x1, i) == 0
      invariant k <= 4 && i == At(k) && (i < 64 <==> k < 4)
      invariant Partial(x, neg, i) == Partial(x, neg, 0)
      invariant t.words == old(t.words) && ZeroCount(x1, 0) == k + ZeroCount(x1, k)
      decreases 4 - k
    {
      AtStep(k);
      ZeroStep(x1, k);
      SkipChunk(x, neg, i);
      i, k := i + 16, k + 1;
      AtBound(k);
    }
    SomePiece(r, x, neg);
    AtStep(k);
    ZeroStep(x1, k);
    var w := MoveWord(Opcode(if neg then MovN else MovZ), r, Chunk(x1, i), i);
    t.O(w);
    code := [w];
    FirstBuilds(x, neg, i, r, w);
    i, k := i + 16, k + 1;
    AtBound(k);
    code := MovRest(t, r, x, neg, i, k, code);
  }

  /** The second loop: a MOVK for every further piece that is not the fill. */
  method MovRest(t: Text, r: bv5, x: bv64, neg: bool, from: bv8, ghost k0: nat, ghost code0: seq<bv32>)
    returns (ghost code: seq<bv32>)
    requires r != 31 && 1 <= k0 <= 4 && from == At(k0) && 1 <= |code0| <= k0 && Builds(code0, r, Partial(x, neg, from))
    requires |code0| == k0 - (ZeroCount(Flip(x, neg), 0) - ZeroCount(Flip(x, neg), k0))
    requires |t.words| >= |code0| && t.words[|t.words| - |code0|..] == code0
    modifies t
    ensures t.words == old(t.words)[..|old(t.words)| - |code0|] + code && |code| == 4 - ZeroCount(Flip(x, neg), 0)
    ensures 1 <= |code| <= 4 && Builds(code, r, x)
  {
    hide MovI, Builds, Partial, Chunk, MoveWord, Opcode, IsChunk, At, ZeroCount, Flip;
    var x1 := Flip(x, neg);
    var i := from;
    ghost var k := k0;
    code := code0;
    AtEnds();
    AtBound(k);
    while i < 64
      invariant 1 <= k <= 4 && i == At(k) && (i < 64 <==> k < 4)
      invariant t.words == old(t.words)[..|old(t.words)| - |code0|] + code && 1 <= |code| <= k
      invariant |code| == k - (ZeroCount(x1, 0) - ZeroCount(x1, k))
      invariant Builds(code, r, Partial(x, neg, i))
      decreases 4 - k
    {
      AtStep(k);
      ZeroStep(x1, k);
      if Chunk(x1, i) != 0 {
        var w := MoveWord(Opcode(MovK), r, Chunk(x, i), i);
        t.O(w);
        NextBuilds(code, x, neg, i, r, w);
        code := code + [w];
      } else {
        SkipChunk(x, neg, i);
      }
      i, k := i + 16, k + 1;
      AtBound(k);
    }
    PartialAll(x, neg);
    ZeroEnd(x1);
  }

  lemma AtEnds()
    ensures At(0) == 0 && At(4) == 64
  {}

  lemma AtBound(k: nat)
    requires k <= 4
    ensures At(k) < 64 <==> k < 4
    ensures k == 4 ==> At(k) == 64
  {}
}
