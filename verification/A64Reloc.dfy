/** The relocations that finish an emitted address. */
module A64Reloc {
  import opened Values
  import opened A64Machine
  import opened A64Mov

  datatype RelocType = MovwG0 | MovwG1 | MovwG2 | MovwG3 | AdrPgHi21 | AddLo12 | Jump26 | Call26

  /** Page distance as the linker computes it. */
  function Pages(addr: bv64, val: bv64): bv64 {
    Shr(val, 12) - Shr(addr, 12)
  }

  predicate InPageRange(off: bv64) {
    Shr(off + 0x10_0000, 21) == 0
  }

  predicate InBranchRange(off: bv64) {
    (off + 0x800_0000) & !0xffffffc == 0
  }

  /** The relocations the linker does not refuse. */
  predicate Accepted(ty: RelocType, addr: bv64, val: bv64) {
    match ty
    case AdrPgHi21 => InPageRange(Pages(addr, val))
    case Jump26 => InBranchRange(val - addr)
    case Call26 => InBranchRange(val - addr)
    case _ => true
  }

  function PatchMove(w: bv32, c: bv16): bv32 {
    (w & 0xffe0001f) | ((c as bv32) << 5)
  }

  function PatchAdrp(w: bv32, off: bv64): bv32 {
    (w & 0x9f00001f) | Lo32(Shl(off & 0x1ffffc, 3)) | Lo32(Shl(off & 3, 29))
  }

  function PatchAdd(w: bv32, val: bv64): bv32 {
    (w & 0xffc003ff) | Lo32(Shl(val & 0xfff, 10))
  }

  /** The 26-bit word displacement field for a byte distance. */
  function WordIndex(off: bv64): bv64 {
    (off >> 2) & 0x3ff_ffff
  }

  function BranchWord(call: bool, off: bv64): bv32 {
    (if call then 0x9400_0000 else 0x1400_0000) | Lo32(WordIndex(off))
  }

  /** The word after relocation. */
  function Patched(ty: RelocType, w: bv32, addr: bv64, val: bv64): bv32 {
    match ty
    case MovwG0 => PatchMove(w, Chunk(val, 0))
    case MovwG1 => PatchMove(w, Chunk(val, 16))
    case MovwG2 => PatchMove(w, Chunk(val, 32))
    case MovwG3 => PatchMove(w, Chunk(val, 48))
    case AdrPgHi21 => PatchAdrp(w, Pages(addr, val))
    case AddLo12 => PatchAdd(w, val)
    case Jump26 => BranchWord(false, val - addr)
    case Call26 => BranchWord(true, val - addr)
  }

  /** Rewrites word i in place; a value out of reach stops the link and changes nothing. */
  method Relocate(text: array<bv32>, i: nat, ty: RelocType, addr: bv64, val: bv64) returns (ok: bool)
    requires i < text.Length
    modifies text
    ensures ok == Accepted(ty, addr, val)
    ensures text[..] == if ok then old(text[..])[i := Patched(ty, old(text[i]), addr, val)] else old(text[..])
  {
    hide Accepted, Patched;
    if !Accepted(ty, addr, val) {
      return false;
    }
    text[i] := Patched(ty, text[i], addr, val);
    return true;
  }

  // ---- an absolute address in four moves ----

  /** What the generator emits for a symbol address, before relocation. */
  function SymWords(r: bv5): seq<bv32> {
    [0xd2800000 | (r as bv32), 0xf2a00000 | (r as bv32), 0xf2c00000 | (r as bv32), 0xf2e00000 | (r as bv32)]
  }

  lemma PatchedMoves(r: bv5, c: bv16)
    ensures PatchMove(0xd2800000 | (r as bv32), c) == MoveWord(Opcode(MovZ), r, c, 0)
    ensures PatchMove(0xf2a00000 | (r as bv32), c) == MoveWord(Opcode(MovK), r, c, 16)
    ensures PatchMove(0xf2c00000 | (r as bv32), c) == MoveWord(Opcode(MovK), r, c, 32)
    ensures PatchMove(0xf2e00000 | (r as bv32), c) == MoveWord(Opcode(MovK), r, c, 48)
  {}

  /** After relocations G0 to G3 the four words load exactly the address. */
  lemma SymLoads(r: bv5, addr: bv64, val: bv64)
    requires r != 31
    ensures var w := SymWords(r);
      Builds([Patched(MovwG0, w[0], addr, val), Patched(MovwG1, w[1], addr + 4, val),
              Patched(MovwG2, w[2], addr + 8, val), Patched(MovwG3, w[3], addr + 12, val)], r, val)
  {
    hide Builds, Partial, Chunk, Flip, MoveWord, Opcode, PatchMove;
    PatchedMoves(r, Chunk(val, 0));
    PatchedMoves(r, Chunk(val, 16));
    PatchedMoves(r, Chunk(val, 32));
    PatchedMoves(r, Chunk(val, 48));
    FlipPlain(val);
    var w0 := MoveWord(Opcode(MovZ), r, Chunk(val, 0), 0);
    var w1 := MoveWord(Opcode(MovK), r, Chunk(val, 16), 16);
    var w2 := MoveWord(Opcode(MovK), r, Chunk(val, 32), 32);
    var w3 := MoveWord(Opcode(MovK), r, Chunk(val, 48), 48);
    FirstBuilds(val, false, 0, r, w0);
    NextBuilds([w0], val, false, 16, r, w1);
    NextBuilds([w0] + [w1], val, false, 32, r, w2);
    NextBuilds([w0] + [w1] + [w2], val, false, 48, r, w3);
    PartialAll(val, false);
    assert [w0] + [w1] + [w2] + [w3] == [w0, w1, w2, w3];
  }

  lemma FlipPlain(x: bv64)
    ensures Flip(x, false) == x
  {}

  // ---- a page-relative address in two instructions ----

  /** v is the sign extension of its low 21 bits. */
  predicate Fits21(v: bv64) {
    Sign21(v & 0x1f_ffff) == v
  }

  function Unbias21(q: bv64): bv64 {
    q - 0x10_0000
  }

  lemma Unbias21High(q: bv64)
    requires q & 0x1f_ffff == q && q & 0x10_0000 != 0
    ensures Unbias21(q) == q & 0xf_ffff
  {}

  lemma Unbias21Low(q: bv64)
    requires q & 0x1f_ffff == q && q & 0x10_0000 == 0
    ensures Unbias21(q) == q | 0xffff_ffff_fff0_0000
  {
    assert Unbias21(q) ^ (q | 0xffff_ffff_fff0_0000) == 0;
  }

  lemma FitsHigh(q: bv64)
    ensures Fits21(q & 0xf_ffff)
  {}

  lemma FitsLow(q: bv64)
    ensures Fits21(q | 0xffff_ffff_fff0_0000)
  {
    assert Sign21((q | 0xffff_ffff_fff0_0000) & 0x1f_ffff) ^ (q | 0xffff_ffff_fff0_0000) == 0;
  }

  lemma Range21(q: bv64)
    requires Shr(q, 21) == 0
    ensures Fits21(Unbias21(q))
  {
    assert q & 0x1f_ffff == q;
    hide Fits21, Unbias21;
    FitsHigh(q);
    FitsLow(q);
    if q & 0x10_0000 != 0 { Unbias21High(q); } else { Unbias21Low(q); }
  }

  lemma Rebias21(off: bv64)
    ensures Unbias21(off + 0x10_0000) == off
  {}

  lemma AdrpReach(off: bv64)
    requires InPageRange(off)
    ensures Fits21(off)
  {
    hide Fits21, Unbias21, Shr;
    Range21(off + 0x10_0000);
    Rebias21(off);
  }

  lemma AdrpFields(r: bv5, off: bv64)
    ensures var w := PatchAdrp(AdrpWord(r), off);
      Field(w, 31, 0x1) == 1 && Field(w, 24, 0x1f) == 0x10 && Reg(w, 0) == r
      && Field(w, 23, 0x3f) != 0x25 && Field(w, 23, 0x3f) != 0x24 && Field(w, 23, 0x3f) != 0x22
        && Field(w, 23, 0x3f) != 0x26
  {}

  lemma AdrpOffset(r: bv5, off: bv64)
    ensures var w := PatchAdrp(AdrpWord(r), off);
      ((Field(w, 5, 0x7ffff) as bv64) << 2) | (Field(w, 29, 0x3) as bv64) == off & 0x1f_ffff
  {}

  lemma AdrpDecodes(r: bv5, off: bv64)
    requires InPageRange(off)
    ensures Decode(PatchAdrp(AdrpWord(r), off)) == Adrp(off, r)
  {
    hide Field, Reg, PatchAdrp, Sign21, InPageRange;
    AdrpReach(off);
    AdrpFields(r, off);
    AdrpOffset(r, off);
  }

  lemma AddDecodes(r: bv5, val: bv64)
    ensures Decode(PatchAdd(AddWord(r), val)) == AddSubImm(false, true, Low12(val), r, r)
  {}

  function Low12(val: bv64): bv64 {
    val & 0xfff
  }

  lemma PageDifference(addr: bv64, val: bv64)
    ensures PageAddress(addr, Shr(val, 12) - Shr(addr, 12)) == Shr(val, 12) * 4096
  {
    hide Shr;
  }

  lemma PageAndLow(val: bv64)
    ensures AddSub(false, Shr(val, 12) * 4096, Low12(val)) == val
  {
    assert (((val >> 12) << 12) | (val & 0xfff)) ^ val == 0;
  }

  lemma PageValue(addr: bv64, val: bv64)
    ensures AddSub(false, PageAddress(addr, Pages(addr, val)), Low12(val)) == val
  {
    hide Shr, PageAddress, AddSub, Low12;
    PageDifference(addr, val);
    PageAndLow(val);
  }

  lemma AdrpStep(w: bv32, r: bv5, pages: bv64, m: Cpu)
    requires r != 31 && Decode(w) == Adrp(pages, r)
    ensures Step(Decode(w), m) == Some(Next(m, Write(m.x, r, PageAddress(m.pc, pages))))
  {
    hide Decode, Write, PageAddress;
  }

  lemma AddStep(w: bv32, r: bv5, imm: bv64, m: Cpu)
    requires Decode(w) == AddSubImm(false, true, imm, r, r)
    ensures Step(Decode(w), m) == Some(Next(m, Write(m.x, r, AddSub(false, Read(m.x, r), imm))))
  {
    hide Decode, Read, Write, AddSub;
  }

  lemma TwoSteps(w0: bv32, w1: bv32, m: Cpu, m1: Cpu, m2: Cpu)
    requires Step(Decode(w0), m) == Some(m1) && Step(Decode(w1), m1) == Some(m2)
    ensures Run([w0, w1], m) == Some(m2)
  {
    hide Decode, Step;
    RunOne(w0, m);
    RunAppend([w0], [w1], m);
    RunOne(w1, m1);
    assert [w0] + [w1] == [w0, w1];
  }

  lemma AdrpAddRuns(w0: bv32, w1: bv32, r: bv5, addr: bv64, val: bv64, x: Regs)
    requires r != 31 && Decode(w0) == Adrp(Pages(addr, val), r)
      && Decode(w1) == AddSubImm(false, true, Low12(val), r, r)
    ensures Run([w0, w1], Cpu(addr, x)).Some? && Run([w0, w1], Cpu(addr, x)).value.x == Write(x, r, val)
  {
    hide Decode, Step, Pages, PageAddress, AddSub, Run, Read, Write, Low12;
    var m := Cpu(addr, x);
    var m1 := Next(m, Write(x, r, PageAddress(addr, Pages(addr, val))));
    AdrpStep(w0, r, Pages(addr, val), m);
    AddStep(w1, r, Low12(val), m1);
    ReadWrite(x, r, PageAddress(addr, Pages(addr, val)));
    PageValue(addr, val);
    ReadWrite(x, r, val);
    TwoSteps(w0, w1, m, m1, Next(m1, Write(m1.x, r, val)));
  }

  /** Running the two words at addr sets register r to val and nothing else. */
  ghost predicate PairLoads(w0: bv32, w1: bv32, r: bv5, addr: bv64, val: bv64) {
    forall x: Regs :: Run([w0, w1], Cpu(addr, x)).Some? && Run([w0, w1], Cpu(addr, x)).value.x == Write(x, r, val)
  }

  lemma DecodedPairLoads(w0: bv32, w1: bv32, r: bv5, addr: bv64, val: bv64)
    requires r != 31 && Decode(w0) == Adrp(Pages(addr, val), r)
      && Decode(w1) == AddSubImm(false, true, Low12(val), r, r)
    ensures PairLoads(w0, w1, r, addr, val)
  {
    hide Decode, Pages, Run, Write, Low12;
    forall x: Regs
      ensures Run([w0, w1], Cpu(addr, x)).Some? && Run([w0, w1], Cpu(addr, x)).value.x == Write(x, r, val)
    {
      AdrpAddRuns(w0, w1, r, addr, val, x);
    }
  }

  /** What the generator emits for a page-relative address, before relocation. */
  function AdrpWord(r: bv5): bv32 {
    0x90000000 | (r as bv32)
  }

  function AddWord(r: bv5): bv32 {
    0x91000000 | (r as bv32) | ((r as bv32) << 5)
  }

  lemma PatchedPair(w0: bv32, w1: bv32, addr: bv64, addr1: bv64, val: bv64)
    ensures Patched(AdrPgHi21, w0, addr, val) == PatchAdrp(w0, Pages(addr, val))
    ensures Patched(AddLo12, w1, addr1, val) == PatchAdd(w1, val)
    ensures Accepted(AdrPgHi21, addr, val) == InPageRange(Pages(addr, val))
  {
    hide PatchAdrp, PatchAdd, Pages, Chunk, PatchMove, BranchWord, InPageRange;
  }

  /** An ADRP at addr and the ADD after it, once relocated, compute exactly val. */
  lemma AdrpAddLoads(r: bv5, addr: bv64, val: bv64)
    requires r != 31 && Accepted(AdrPgHi21, addr, val)
    ensures PairLoads(Patched(AdrPgHi21, AdrpWord(r), addr, val), Patched(AddLo12, AddWord(r), addr + 4, val),
      r, addr, val)
  {
    hide Decode, PatchAdrp, PatchAdd, Pages, InPageRange, Patched, Accepted, PairLoads, Low12, AdrpWord, AddWord;
    PatchedPair(AdrpWord(r), AddWord(r), addr, addr + 4, val);
    AdrpDecodes(r, Pages(addr, val));
    AddDecodes(r, val);
    DecodedPairLoads(PatchAdrp(AdrpWord(r), Pages(addr, val)), PatchAdd(AddWord(r), val), r, addr, val);
  }

  lemma Bias21High(v: bv64)
    ensures Shr((v & 0xf_ffff) + 0x10_0000, 21) == 0
  {}

  lemma Bias21Low(v: bv64)
    ensures Shr((v | 0xffff_ffff_fff0_0000) + 0x10_0000, 21) == 0
  {}

  lemma Sign21Clear(v: bv64)
    requires v & 0x10_0000 == 0
    ensures Sign21(v) == v & 0xf_ffff
  {}

  lemma Sign21Set(v: bv64)
    requires v & 0x10_0000 != 0
    ensures Sign21(v) == v | 0xffff_ffff_fff0_0000
  {
    assert Sign21(v) ^ (v | 0xffff_ffff_fff0_0000) == 0;
  }

  lemma Sign21InRange(v: bv64)
    ensures InPageRange(Sign21(v))
  {
    Bias21High(v);
    Bias21Low(v);
    hide InPageRange, Sign21;
    InRangeForms(v);
    if v & 0x10_0000 == 0 { Sign21Clear(v); } else { Sign21Set(v); }
  }

  lemma InRangeForms(v: bv64)
    ensures InPageRange(v & 0xf_ffff) && InPageRange(v | 0xffff_ffff_fff0_0000)
  {}

  /** A page distance is accepted exactly when some ADRP offset field stands for it. */
  lemma PageRangeExact(off: bv64)
    ensures InPageRange(off) <==> exists v: bv64 :: Sign21(v) == off
  {
    hide InPageRange, Sign21;
    if InPageRange(off) {
      AdrpReach(off);
      assert Sign21(off & 0x1f_ffff) == off;
    }
    forall v: bv64 | Sign21(v) == off
      ensures InPageRange(off)
    {
      Sign21InRange(v);
    }
  }

  // ---- branches ----

  /** v is what a branch offset field can hold: 26 sign-extended bits, times four. */
  predicate Fits28(v: bv64) {
    Times4(Sign26(WordIndex(v))) == v
  }

  function Unbias28(q: bv64): bv64 {
    q - 0x800_0000
  }

  lemma Unbias28High(q: bv64)
    requires q & 0xfff_fffc == q && q & 0x800_0000 != 0
    ensures Unbias28(q) == q & 0x7ff_fffc
  {}

  lemma Unbias28Low(q: bv64)
    requires q & 0xfff_fffc == q && q & 0x800_0000 == 0
    ensures Unbias28(q) == (q & 0x7ff_fffc) | 0xffff_ffff_f800_0000
  {
    assert Unbias28(q) ^ ((q & 0x7ff_fffc) | 0xffff_ffff_f800_0000) == 0;
  }

  lemma Fits28High(q: bv64)
    ensures Fits28(q & 0x7ff_fffc)
  {
    assert ((((q & 0x7ff_fffc) >> 2) & 0x3ff_ffff) & 0x200_0000) == 0;
    assert ((((q & 0x7ff_fffc) >> 2) & 0x3ff_ffff) << 2) ^ (q & 0x7ff_fffc) == 0;
  }

  lemma Fits28Low(q: bv64)
    ensures Fits28((q & 0x7ff_fffc) | 0xffff_ffff_f800_0000)
  {
    assert (((((q & 0x7ff_fffc) | 0xffff_ffff_f800_0000) >> 2) & 0x3ff_ffff) & 0x200_0000) != 0;
    assert ((((((q & 0x7ff_fffc) | 0xffff_ffff_f800_0000) >> 2) & 0x3ff_ffff) | 0xffff_ffff_fc00_0000) << 2)
      ^ ((q & 0x7ff_fffc) | 0xffff_ffff_f800_0000) == 0;
  }

  lemma Range28(q: bv64)
    requires q & !0xfff_fffc == 0
    ensures Fits28(Unbias28(q))
  {
    assert q & 0xfff_fffc == q;
    hide Fits28, Unbias28;
    Fits28High(q);
    Fits28Low(q);
    if q & 0x800_0000 != 0 { Unbias28High(q); } else { Unbias28Low(q); }
  }

  lemma Rebias28(off: bv64)
    ensures Unbias28(off + 0x800_0000) == off
  {}

  lemma BranchReach(off: bv64)
    requires InBranchRange(off)
    ensures Fits28(off)
  {
    hide Fits28, Unbias28;
    Range28(off + 0x800_0000);
    Rebias28(off);
  }

  lemma BranchFields(call: bool, off: bv64)
    ensures var w := BranchWord(call, off);
      Field(w, 26, 0x1f) == 0x05 && Field(w, 31, 0x1) == (if call then 1 else 0)
      && Field(w, 23, 0x3f) != 0x25 && Field(w, 23, 0x3f) != 0x24 && Field(w, 23, 0x3f) != 0x22
        && Field(w, 23, 0x3f) != 0x26
      && Field(w, 24, 0x1f) != 0x0b && Field(w, 24, 0x1f) != 0x0a && Field(w, 24, 0x1f) != 0x10
  {}

  lemma BranchOffset(call: bool, off: bv64)
    ensures Field(BranchWord(call, off), 0, 0x3ffffff) as bv64 == WordIndex(off)
  {
    hide WordIndex, BranchWord, Lo32;
    var w := BranchWord(call, off);
    assert Field(w, 0, 0x3ffffff) == w & 0x3ffffff;
    assert BranchWord(call, off) == (if call then 0x9400_0000 else 0x1400_0000) | Lo32(WordIndex(off)) by {
      BranchWordIs(call, off);
    }
    IndexBits(off);
    LowField(WordIndex(off));
  }

  lemma BranchWordIs(call: bool, off: bv64)
    ensures BranchWord(call, off) == (if call then 0x9400_0000 else 0x1400_0000) | Lo32(WordIndex(off))
  {}

  lemma IndexBits(off: bv64)
    ensures WordIndex(off) & 0x3ff_ffff == WordIndex(off)
  {
    assert (((off >> 2) & 0x3ff_ffff) & 0x3ff_ffff) ^ ((off >> 2) & 0x3ff_ffff) == 0;
  }

  lemma LowField(v: bv64)
    requires v & 0x3ff_ffff == v
    ensures ((0x1400_0000 | Lo32(v)) & 0x3ff_ffff) as bv64 == v
    ensures ((0x9400_0000 | Lo32(v)) & 0x3ff_ffff) as bv64 == v
  {}

  /** A relocated branch goes to exactly val. */
  lemma BranchTarget(call: bool, off: bv64)
    requires InBranchRange(off)
    ensures Decode(BranchWord(call, off)) == Branch(call, off)
  {
    hide Field, Reg, BranchWord, Sign26, InBranchRange, Times4, WordIndex;
    BranchReach(off);
    BranchFields(call, off);
    BranchOffset(call, off);
  }

  lemma BranchForms(v: bv64)
    ensures InBranchRange(Times4(Sign26(v)))
  {}

  /** A branch is accepted exactly when some offset field stands for the distance. */
  lemma BranchRangeExact(off: bv64)
    ensures InBranchRange(off) <==> exists v: bv64 :: Times4(Sign26(v)) == off
  {
    hide InBranchRange, Sign26, Times4, WordIndex;
    if InBranchRange(off) {
      BranchReach(off);
      assert Times4(Sign26(WordIndex(off))) == off;
    }
    forall v: bv64 | Times4(Sign26(v)) == off
      ensures InBranchRange(off)
    {
      BranchForms(v);
    }
  }

  // ---- opcode and register fields survive ----

  /** The bits a relocation must not touch. */
  function KeptBits(ty: RelocType): bv32 {
    match ty
    case AdrPgHi21 => 0x9f00001f
    case AddLo12 => 0xffc003ff
    case Jump26 => 0
    case Call26 => 0
    case _ => 0xffe0001f
  }

  lemma PatchMoveKeeps(w: bv32, c: bv16)
    ensures PatchMove(w, c) & 0xffe0001f == w & 0xffe0001f
  {}

  lemma PatchAdrpKeeps(w: bv32, off: bv64)
    ensures PatchAdrp(w, off) & 0x9f00001f == w & 0x9f00001f
  {}

  lemma PatchAddKeeps(w: bv32, val: bv64)
    ensures PatchAdd(w, val) & 0xffc003ff == w & 0xffc003ff
  {}

  lemma RelocKeeps(ty: RelocType, w: bv32, addr: bv64, val: bv64)
    ensures Patched(ty, w, addr, val) & KeptBits(ty) == w & KeptBits(ty)
  {
    hide PatchMove, PatchAdrp, PatchAdd, Pages, Chunk, BranchWord;
    match ty
    case MovwG0 => PatchMoveKeeps(w, Chunk(val, 0));
    case MovwG1 => PatchMoveKeeps(w, Chunk(val, 16));
    case MovwG2 => PatchMoveKeeps(w, Chunk(val, 32));
    case MovwG3 => PatchMoveKeeps(w, Chunk(val, 48));
    case AdrPgHi21 => PatchAdrpKeeps(w, Pages(addr, val));
    case AddLo12 => PatchAddKeeps(w, val);
    case _ =>
  }
}
