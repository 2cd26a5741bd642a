/** The encoder for A64 logical immediates, proved sound and complete against
    DecodeBitMasks. */
module A64LogicalImm {
  import opened Values
  import opened A64Machine

  datatype Part = Part(x: bv64, n: bv8)

  /** x >> n equals the low 64 - n bits of x (written as an empty difference). */
  predicate Periodic(x: bv64, n: bv8)
    requires 0 < n < 64
  {
    (x >> n) ^ (x & ((1 << (64 - n)) - 1)) == 0
  }

  /** The shortest power-of-two period of x, at least 2. */
  function PeriodOf(x: bv64): bv8 {
    if Periodic(x, 2) then 2
    else if Periodic(x, 4) then 4
    else if Periodic(x, 8) then 8
    else if Periodic(x, 16) then 16
    else if Periodic(x, 32) then 32
    else 64
  }

  function ElemMask(rep: bv8): bv64 {
    if rep == 2 then 0x3 else if rep == 4 then 0xf else if rep == 8 then 0xff
    else if rep == 16 then 0xffff else if rep == 32 then 0xffff_ffff else 0xffff_ffff_ffff_ffff
  }

  /** The low element of x. */
  function Elem(x: bv64, rep: bv8): bv64 {
    x & ElemMask(rep)
  }

  function Inv(x: bv64): bv64 {
    !x
  }

  /** x with its trailing zeros shifted out, found by halving, and their number. */
  function DropZeros(x: bv64): Part {
    var p := if x & 0xffff_ffff == 0 then Part(x >> 32, 32) else Part(x, 0);
    var p := if p.x & 0xffff == 0 then Part(p.x >> 16, p.n + 16) else p;
    var p := if p.x & 0xff == 0 then Part(p.x >> 8, p.n + 8) else p;
    var p := if p.x & 0xf == 0 then Part(p.x >> 4, p.n + 4) else p;
    var p := if p.x & 0x3 == 0 then Part(p.x >> 2, p.n + 2) else p;
    if p.x & 0x1 == 0 then Part(p.x >> 1, p.n + 1) else p
  }

  /** x with its trailing ones shifted out, and their number. */
  function DropOnes(x: bv64): Part {
    var p := if !x & 0xffff_ffff == 0 then Part(x >> 32, 32) else Part(x, 0);
    var p := if !p.x & 0xffff == 0 then Part(p.x >> 16, p.n + 16) else p;
    var p := if !p.x & 0xff == 0 then Part(p.x >> 8, p.n + 8) else p;
    var p := if !p.x & 0xf == 0 then Part(p.x >> 4, p.n + 4) else p;
    var p := if !p.x & 0x3 == 0 then Part(p.x >> 2, p.n + 2) else p;
    if !p.x & 0x1 == 0 then Part(p.x >> 1, p.n + 1) else p
  }

  /** The fields N:immr:imms for `len` ones rotated left by `pos` in elements of `rep` bits. */
  function Pack(rep: bv8, pos: bv8, len: bv8): bv32 {
    var rep32, pos32, len32 := rep as bv32, pos as bv32, len as bv32;
    (0x1000 & (rep32 << 6)) | ((((rep32 - 1) ^ 31) << 1) & 63)
    | (((rep32 - pos32) & (rep32 - 1)) << 6) | (len32 - 1)
  }

  /** Position and length of the ones around a hole of `len` zeros at `pos`. */
  function HolePos(rep: bv8, pos: bv8, len: bv8): bv8 {
    (pos + len) & (rep - 1)
  }

  function HoleLen(rep: bv8, len: bv8): bv8 {
    rep - len
  }

  /** N:immr:imms for x, or None when the search finds none. */
  function Encode(x: bv64): Option<bv32> {
    var neg := x & 1 == 1;
    var y := if neg then Inv(x) else x;
    if y == 0 then None
    else
      var rep := PeriodOf(y);
      var Part(odd, pos) := DropZeros(Elem(y, rep));
      var Part(rest, len) := DropOnes(odd);
      if rest != 0 then None
      else if neg then Some(Pack(rep, HolePos(rep, pos, len), HoleLen(rep, len)))
      else Some(Pack(rep, pos, len))
  }

  /** The value N:immr:imms stands for. */
  function DecodeFields(e: bv32): Option<bv64> {
    DecodeBitMasks(((e >> 12) & 1) as bv8, ((e >> 6) & 63) as bv8, (e & 63) as bv8)
  }

  predicate IsSize(rep: bv8) {
    rep == 2 || rep == 4 || rep == 8 || rep == 16 || rep == 32 || rep == 64
  }

  /** `len` ones starting at bit `pos`, inside an element of `rep` bits, bit 0 clear. */
  predicate IsRun(rep: bv8, pos: bv8, len: bv8) {
    IsSize(rep) && 0 < pos < 64 && 0 < len < 64 && pos + len <= rep
  }

  /** `len` ones starting at bit `pos`. */
  function RunBits(pos: bv8, len: bv8): bv64
    requires pos < 64 && len <= 64
  {
    Ones(len) << pos
  }

  lemma ShiftedOnes(pos: bv8, len: bv8)
    requires pos < 64 && len < 64
    ensures RunBits(pos, len) == Shl(Ones(len), pos)
  {}

  // ---- repeating an element ----

  /** One period of x, repeated, is x. */
  predicate Repeats(x: bv64) {
    Replicate(PeriodOf(x), Elem(x, PeriodOf(x))) == x
  }

  lemma Repeat2(x: bv64)
    requires PeriodOf(x) == 2
    ensures Repeats(x)
  {
    assert Replicate(2, x & 0x3) == x;
  }

  lemma Repeat4(x: bv64)
    requires PeriodOf(x) == 4
    ensures Repeats(x)
  {
    assert Replicate(4, x & 0xf) == x;
  }

  lemma Repeat8(x: bv64)
    requires PeriodOf(x) == 8
    ensures Repeats(x)
  {
    assert Replicate(8, x & 0xff) == x;
  }

  lemma Repeat16(x: bv64)
    requires PeriodOf(x) == 16
    ensures Repeats(x)
  {
    assert Replicate(16, x & 0xffff) == x;
  }

  lemma Repeat32(x: bv64)
    requires PeriodOf(x) == 32
    ensures Repeats(x)
  {
    assert Replicate(32, x & 0xffff_ffff) == x;
  }

  lemma Repeat64(x: bv64)
    requires PeriodOf(x) == 64
    ensures Repeats(x)
  {
    assert Replicate(64, x & 0xffff_ffff_ffff_ffff) == x;
  }

  lemma PeriodRepeats(x: bv64)
    ensures IsSize(PeriodOf(x)) && Repeats(x)
  {
    hide Periodic, Repeats;
    var n := PeriodOf(x);
    if n == 2 { Repeat2(x); }
    else if n == 4 { Repeat4(x); }
    else if n == 8 { Repeat8(x); }
    else if n == 16 { Repeat16(x); }
    else if n == 32 { Repeat32(x); }
    else { Repeat64(x); }
  }

  /** Complementing the element complements the repeated value. */
  predicate Complements(rep: bv8, e: bv64) {
    Replicate(rep, Elem(Inv(e), rep)) ^ Replicate(rep, Elem(e, rep)) == 0xffff_ffff_ffff_ffff
  }

  lemma Complement2(e: bv64)
    ensures Complements(2, e)
  {}

  lemma Complement4(e: bv64)
    ensures Complements(4, e)
  {}

  lemma Complement8(e: bv64)
    ensures Complements(8, e)
  {}

  lemma Complement16(e: bv64)
    ensures Complements(16, e)
  {}

  lemma Complement32(e: bv64)
    ensures Complements(32, e)
  {}

  lemma Complement64(e: bv64)
    ensures Complements(64, e)
  {}

  lemma ReplicateNot(rep: bv8, e: bv64)
    requires IsSize(rep)
    ensures Complements(rep, e)
  {
    hide Complements;
    if rep == 2 { Complement2(e); }
    else if rep == 4 { Complement4(e); }
    else if rep == 8 { Complement8(e); }
    else if rep == 16 { Complement16(e); }
    else if rep == 32 { Complement32(e); }
    else { Complement64(e); }
  }

  /** The low element of a repeated value is the element. */
  predicate LowElement(rep: bv8, e: bv64) {
    Elem(Replicate(rep, Elem(e, rep)), rep) == Elem(e, rep)
  }

  lemma LowElement2(e: bv64)
    ensures LowElement(2, e)
  {
    assert (Replicate(2, e & 0x3) & 0x3) ^ (e & 0x3) == 0;
  }

  lemma LowElement4(e: bv64)
    ensures LowElement(4, e)
  {
    assert (Replicate(4, e & 0xf) & 0xf) ^ (e & 0xf) == 0;
  }

  lemma LowElement8(e: bv64)
    ensures LowElement(8, e)
  {
    assert (Replicate(8, e & 0xff) & 0xff) ^ (e & 0xff) == 0;
  }

  lemma LowElement16(e: bv64)
    ensures LowElement(16, e)
  {
    assert (Replicate(16, e & 0xffff) & 0xffff) ^ (e & 0xffff) == 0;
  }

  lemma LowElement32(e: bv64)
    ensures LowElement(32, e)
  {
    assert (Replicate(32, e & 0xffff_ffff) & 0xffff_ffff) ^ (e & 0xffff_ffff) == 0;
  }

  lemma LowElement64(e: bv64)
    ensures LowElement(64, e)
  {
    assert (Replicate(64, e & 0xffff_ffff_ffff_ffff) & 0xffff_ffff_ffff_ffff) ^ (e & 0xffff_ffff_ffff_ffff) == 0;
  }

  lemma ReplicateLow(rep: bv8, e: bv64)
    requires IsSize(rep)
    ensures LowElement(rep, e)
  {
    hide LowElement;
    if rep == 2 { LowElement2(e); }
    else if rep == 4 { LowElement4(e); }
    else if rep == 8 { LowElement8(e); }
    else if rep == 16 { LowElement16(e); }
    else if rep == 32 { LowElement32(e); }
    else { LowElement64(e); }
  }

  /** The repetition of a run has no shorter period. */
  predicate RunPeriod(rep: bv8, pos: bv8, len: bv8)
    requires IsRun(rep, pos, len)
  {
    PeriodOf(Replicate(rep, RunBits(pos, len))) == rep
  }

  lemma RunPeriod2(pos: bv8, len: bv8)
    requires IsRun(2, pos, len)
    ensures RunPeriod(2, pos, len)
  {}

  lemma RunPeriod4(pos: bv8, len: bv8)
    requires IsRun(4, pos, len)
    ensures RunPeriod(4, pos, len)
  {}

  lemma RunPeriod8(pos: bv8, len: bv8)
    requires IsRun(8, pos, len)
    ensures RunPeriod(8, pos, len)
  {}

  lemma RunPeriod16(pos: bv8, len: bv8)
    requires IsRun(16, pos, len)
    ensures RunPeriod(16, pos, len)
  {}

  lemma RunPeriod32Low(pos: bv8, len: bv8)
    requires IsRun(32, pos, len) && pos < 6
    ensures RunPeriod(32, pos, len)
  {}

  lemma RunPeriod32Mid(pos: bv8, len: bv8)
    requires IsRun(32, pos, len) && 6 <= pos < 14
    ensures RunPeriod(32, pos, len)
  {}

  lemma RunPeriod32High(pos: bv8, len: bv8)
    requires IsRun(32, pos, len) && pos >= 14
    ensures RunPeriod(32, pos, len)
  {}

  lemma RunPeriod32(pos: bv8, len: bv8)
    requires IsRun(32, pos, len)
    ensures RunPeriod(32, pos, len)
  {
    hide RunPeriod;
    if pos < 6 { RunPeriod32Low(pos, len); }
    else if pos < 14 { RunPeriod32Mid(pos, len); }
    else { RunPeriod32High(pos, len); }
  }

  lemma RunPeriod64Low(pos: bv8, len: bv8)
    requires IsRun(64, pos, len) && pos < 16
    ensures RunPeriod(64, pos, len)
  {}

  lemma RunPeriod64High(pos: bv8, len: bv8)
    requires IsRun(64, pos, len) && pos >= 16
    ensures RunPeriod(64, pos, len)
  {}

  lemma PeriodOfRun(rep: bv8, pos: bv8, len: bv8)
    requires IsRun(rep, pos, len)
    ensures RunPeriod(rep, pos, len)
  {
    hide RunPeriod;
    if rep == 2 { RunPeriod2(pos, len); }
    else if rep == 4 { RunPeriod4(pos, len); }
    else if rep == 8 { RunPeriod8(pos, len); }
    else if rep == 16 { RunPeriod16(pos, len); }
    else if rep == 32 { RunPeriod32(pos, len); }
    else if pos < 16 { RunPeriod64Low(pos, len); }
    else { RunPeriod64High(pos, len); }
  }

  lemma RunInMaskSmall(rep: bv8, pos: bv8, len: bv8)
    requires IsRun(rep, pos, len) && rep <= 16
    ensures Elem(RunBits(pos, len), rep) == RunBits(pos, len)
  {}

  lemma RunInMask32(pos: bv8, len: bv8)
    requires IsRun(32, pos, len)
    ensures Elem(RunBits(pos, len), 32) == RunBits(pos, len)
  {}

  lemma RunInMask(rep: bv8, pos: bv8, len: bv8)
    requires IsRun(rep, pos, len)
    ensures Elem(RunBits(pos, len), rep) == RunBits(pos, len)
  {
    hide RunBits;
    if rep <= 16 { RunInMaskSmall(rep, pos, len); } else if rep == 32 { RunInMask32(pos, len); }
  }

  // ---- a run of ones is what the two searches find, and all they accept ----

  /** p.x is x without its p.n trailing zeros, and no bit was lost on the way. */
  predicate Exact(x: bv64, p: Part) {
    p.n < 64 && p.x & 1 == 1 && x == Shl(p.x, p.n) && p.x <= 0xffff_ffff_ffff_ffff >> p.n
  }

  lemma Zeros0(x: bv64)
    requires x & 0xff != 0
    ensures Exact(x, DropZeros(x))
  {}

  lemma Zeros8(x: bv64)
    requires x & 0xff00 != 0 && x & 0xff == 0
    ensures Exact(x, DropZeros(x))
  {}

  lemma Zeros16(x: bv64)
    requires x & 0xff_0000 != 0 && x & 0xffff == 0
    ensures Exact(x, DropZeros(x))
  {}

  lemma Zeros24(x: bv64)
    requires x & 0xff00_0000 != 0 && x & 0xff_ffff == 0
    ensures Exact(x, DropZeros(x))
  {}

  lemma Zeros32(x: bv64)
    requires x & 0xff_0000_0000 != 0 && x & 0xffff_ffff == 0
    ensures Exact(x, DropZeros(x))
  {}

  lemma Zeros40(x: bv64)
    requires x & 0xffff_ff00_0000_0000 != 0 && x & 0xff_ffff_ffff == 0
    ensures Exact(x, DropZeros(x))
  {}

  lemma ZerosExact(x: bv64)
    requires x != 0
    ensures Exact(x, DropZeros(x))
  {
    hide DropZeros, Exact;
    if x & 0xff != 0 { Zeros0(x); }
    else if x & 0xff00 != 0 { Zeros8(x); }
    else if x & 0xff_0000 != 0 { Zeros16(x); }
    else if x & 0xff00_0000 != 0 { Zeros24(x); }
    else if x & 0xff_0000_0000 != 0 { Zeros32(x); }
    else { Zeros40(x); }
  }

  function Back(x: bv64, m: bv8): bv64
    requires m < 64
  {
    x >> m
  }

  function Bit(x: bv64, m: bv8): bv64
    requires m < 64
  {
    (x >> m) & 1
  }

  lemma ShiftBackLow(a: bv64, m: bv8)
    requires m < 10 && a <= 0xffff_ffff_ffff_ffff >> m
    ensures Back(Shl(a, m), m) == a
  {}

  lemma ShiftBackMid(a: bv64, m: bv8)
    requires 10 <= m < 24 && a <= 0xffff_ffff_ffff_ffff >> m
    ensures Back(Shl(a, m), m) == a
  {}

  lemma ShiftBackHigh(a: bv64, m: bv8)
    requires 24 <= m < 64 && a <= 0xffff_ffff_ffff_ffff >> m
    ensures Back(Shl(a, m), m) == a
  {}

  lemma ExactBack(x: bv64, p: Part)
    requires Exact(x, p)
    ensures Back(x, p.n) == p.x
  {
    hide Back, Shl;
    if p.n < 10 { ShiftBackLow(p.x, p.n); }
    else if p.n < 24 { ShiftBackMid(p.x, p.n); }
    else { ShiftBackHigh(p.x, p.n); }
  }

  lemma ExactBit(x: bv64, p: Part)
    requires Exact(x, p)
    ensures Bit(x, p.n) == 1
  {
    ExactBack(x, p);
    BackBit(x, p.n);
    hide Back, Shl, Bit;
  }

  lemma BackBit(x: bv64, m: bv8)
    requires m < 64
    ensures Bit(x, m) == Back(x, m) & 1
  {}

  lemma ShlBit(a: bv64, n: bv8, m: bv8)
    requires m < n < 64
    ensures Bit(Shl(a, n), m) == 0
  {}

  lemma ExactBelow(x: bv64, p: Part, m: bv8)
    requires Exact(x, p) && m < p.n
    ensures Bit(x, m) == 0
  {
    hide Shl, Bit;
    ShlBit(p.x, p.n, m);
  }

  lemma RunFirst(pos: bv8, len: bv8)
    requires 0 < len < 64 && pos < 64 && pos + len <= 64
    ensures Exact(RunBits(pos, len), Part(Ones(len), pos))
  {}

  /** There is only one way to shift out the trailing zeros. */
  lemma ExactUnique(x: bv64, p: Part, q: Part)
    requires Exact(x, p) && Exact(x, q)
    ensures p == q
  {
    hide Exact, Bit, Back;
    ExactSize(x, p);
    ExactSize(x, q);
    ExactBack(x, p);
    ExactBack(x, q);
    ExactBit(x, p);
    ExactBit(x, q);
    if p.n < q.n { ExactBelow(x, q, p.n); } else if q.n < p.n { ExactBelow(x, p, q.n); }
  }

  lemma ExactSize(x: bv64, p: Part)
    requires Exact(x, p)
    ensures p.n < 64
  {
    hide Shl;
  }

  lemma ZerosOfRun(pos: bv8, len: bv8)
    requires 0 < len < 64 && pos < 64 && pos + len <= 64
    ensures DropZeros(RunBits(pos, len)) == Part(Ones(len), pos)
  {
    hide DropZeros, RunBits, Ones, Exact;
    RunFirst(pos, len);
    ExactNonzero(RunBits(pos, len), Part(Ones(len), pos));
    ZerosExact(RunBits(pos, len));
    ExactUnique(RunBits(pos, len), DropZeros(RunBits(pos, len)), Part(Ones(len), pos));
  }

  lemma ExactNonzero(x: bv64, p: Part)
    requires Exact(x, p)
    ensures x != 0
  {
    hide Exact;
    ExactSize(x, p);
    ExactBit(x, p);
  }

  lemma OnesExact(x: bv64)
    requires DropOnes(x).x == 0
    ensures DropOnes(x).n < 64 && x == Ones(DropOnes(x).n)
  {}

  lemma OnesOfRun(len: bv8)
    requires len < 64
    ensures DropOnes(Ones(len)) == Part(0, len)
  {}

  // ---- the packed fields decode to the rotated run ----

  /** DecodeBitMasks once its size, length and rotation are known. */
  lemma DecodeRotated(n: bv8, immr: bv8, imms: bv8, rep: bv8, s: bv8, r: bv8)
    requires IsSize(rep) && ElementSize(n, imms) == rep
    requires imms & (rep - 1) == s && s < rep - 1 && immr & (rep - 1) == r && r < rep
    ensures DecodeBitMasks(n, immr, imms) == Some(Replicate(rep, RotateRight(rep, Ones(s + 1), r)))
  {
    hide ElementSize, Replicate, RotateRight, Ones;
  }

  lemma FieldsDecode(e: bv32, rep: bv8, s: bv8, r: bv8)
    requires IsSize(rep) && ElementSize(((e >> 12) & 1) as bv8, (e & 63) as bv8) == rep
    requires (e & 63) as bv8 & (rep - 1) == s && s < rep - 1
    requires ((e >> 6) & 63) as bv8 & (rep - 1) == r && r < rep
    ensures DecodeFields(e) == Some(Replicate(rep, RotateRight(rep, Ones(s + 1), r)))
  {
    hide ElementSize, Replicate, RotateRight, Ones, DecodeBitMasks;
    DecodeRotated(((e >> 12) & 1) as bv8, ((e >> 6) & 63) as bv8, (e & 63) as bv8, rep, s, r);
  }

  function RotateBy(rep: bv8, pos: bv8): bv8 {
    (rep - pos) & (rep - 1)
  }

  lemma PackFields(rep: bv8, pos: bv8, len: bv8)
    requires IsSize(rep) && pos < rep && 0 < len < rep
    ensures var e := Pack(rep, pos, len);
      e < 0x2000 && ElementSize(((e >> 12) & 1) as bv8, (e & 63) as bv8) == rep
      && (e & 63) as bv8 & (rep - 1) == len - 1
      && ((e >> 6) & 63) as bv8 & (rep - 1) == RotateBy(rep, pos) < rep
  {}

  lemma PackDecodes(rep: bv8, pos: bv8, len: bv8)
    requires IsSize(rep) && pos < rep && 0 < len < rep
    ensures Pack(rep, pos, len) < 0x2000 && RotateBy(rep, pos) < rep
    ensures DecodeFields(Pack(rep, pos, len)) == Some(Replicate(rep, RotateRight(rep, Ones(len), RotateBy(rep, pos))))
  {
    hide Pack, ElementSize, Replicate, RotateRight, Ones, DecodeFields;
    PackFields(rep, pos, len);
    FieldsDecode(Pack(rep, pos, len), rep, len - 1, RotateBy(rep, pos));
    assert (len - 1) + 1 == len;
  }

  /** Rotating `len` ones by the encoded amount puts them at `pos`. */
  predicate RunRotated(rep: bv8, pos: bv8, len: bv8)
    requires IsRun(rep, pos, len)
  {
    RotateRight(rep, Ones(len), RotateBy(rep, pos)) == RunBits(pos, len)
  }

  lemma RunRotate16(rep: bv8, pos: bv8, len: bv8)
    requires IsRun(rep, pos, len) && rep <= 16
    ensures RunRotated(rep, pos, len)
  {}

  lemma RunRotate32(rep: bv8, pos: bv8, len: bv8)
    requires IsRun(rep, pos, len) && rep == 32
    ensures RunRotated(rep, pos, len)
  {}

  lemma RunRotateFirst(rep: bv8, pos: bv8, len: bv8)
    requires IsRun(rep, pos, len) && rep == 64 && pos < 6
    ensures RunRotated(rep, pos, len)
  {}

  lemma RunRotateLow(rep: bv8, pos: bv8, len: bv8)
    requires IsRun(rep, pos, len) && rep == 64 && 6 <= pos < 14
    ensures RunRotated(rep, pos, len)
  {}

  lemma RunRotateMid(rep: bv8, pos: bv8, len: bv8)
    requires IsRun(rep, pos, len) && rep == 64 && 14 <= pos < 26
    ensures RunRotated(rep, pos, len)
  {}

  lemma RunRotateHigh(rep: bv8, pos: bv8, len: bv8)
    requires IsRun(rep, pos, len) && rep == 64 && pos >= 26
    ensures RunRotated(rep, pos, len)
  {}

  lemma RunRotate(rep: bv8, pos: bv8, len: bv8)
    requires IsRun(rep, pos, len)
    ensures RunRotated(rep, pos, len)
  {
    hide RunRotated;
    if rep <= 16 { RunRotate16(rep, pos, len); }
    else if rep == 32 { RunRotate32(rep, pos, len); }
    else if pos < 6 { RunRotateFirst(rep, pos, len); }
    else if pos < 14 { RunRotateLow(rep, pos, len); }
    else if pos < 26 { RunRotateMid(rep, pos, len); }
    else { RunRotateHigh(rep, pos, len); }
  }

  /** Likewise for the ones around a hole. */
  predicate HoleRotated(rep: bv8, pos: bv8, len: bv8)
    requires IsRun(rep, pos, len)
  {
    RotateRight(rep, Ones(HoleLen(rep, len)), RotateBy(rep, HolePos(rep, pos, len)))
      == Elem(Inv(RunBits(pos, len)), rep)
  }

  lemma HoleRotate8(rep: bv8, pos: bv8, len: bv8)
    requires IsRun(rep, pos, len) && rep <= 8
    ensures HoleRotated(rep, pos, len)
  {}

  lemma HoleRotate16(rep: bv8, pos: bv8, len: bv8)
    requires IsRun(rep, pos, len) && rep == 16
    ensures HoleRotated(rep, pos, len)
  {}

  lemma HoleRotate32Low(rep: bv8, pos: bv8, len: bv8)
    requires IsRun(rep, pos, len) && rep == 32 && pos < 8
    ensures HoleRotated(rep, pos, len)
  {}

  lemma HoleRotate32High(rep: bv8, pos: bv8, len: bv8)
    requires IsRun(rep, pos, len) && rep == 32 && pos >= 8
    ensures HoleRotated(rep, pos, len)
  {}

  lemma HoleRotateFirst(rep: bv8, pos: bv8, len: bv8)
    requires IsRun(rep, pos, len) && rep == 64 && pos < 6
    ensures HoleRotated(rep, pos, len)
  {}

  lemma HoleRotateLow(rep: bv8, pos: bv8, len: bv8)
    requires IsRun(rep, pos, len) && rep == 64 && 6 <= pos < 12
    ensures HoleRotated(rep, pos, len)
  {}

  lemma HoleRotateMid(rep: bv8, pos: bv8, len: bv8)
    requires IsRun(rep, pos, len) && rep == 64 && 12 <= pos < 18
    ensures HoleRotated(rep, pos, len)
  {}

  lemma HoleRotateHigh(rep: bv8, pos: bv8, len: bv8)
    requires IsRun(rep, pos, len) && rep == 64 && 18 <= pos < 25
    ensures HoleRotated(rep, pos, len)
  {}

  lemma HoleRotateUpper(rep: bv8, pos: bv8, len: bv8)
    requires IsRun(rep, pos, len) && rep == 64 && 25 <= pos < 36
    ensures HoleRotated(rep, pos, len)
  {}

  lemma HoleRotateLast(rep: bv8, pos: bv8, len: bv8)
    requires IsRun(rep, pos, len) && rep == 64 && pos >= 36
    ensures HoleRotated(rep, pos, len)
  {}

  lemma HoleRotate(rep: bv8, pos: bv8, len: bv8)
    requires IsRun(rep, pos, len)
    ensures HoleRotated(rep, pos, len)
  {
    hide HoleRotated;
    if rep <= 8 { HoleRotate8(rep, pos, len); }
    else if rep == 16 { HoleRotate16(rep, pos, len); }
    else if rep == 32 && pos < 8 { HoleRotate32Low(rep, pos, len); }
    else if rep == 32 { HoleRotate32High(rep, pos, len); }
    else if pos < 6 { HoleRotateFirst(rep, pos, len); }
    else if pos < 12 { HoleRotateLow(rep, pos, len); }
    else if pos < 18 { HoleRotateMid(rep, pos, len); }
    else if pos < 25 { HoleRotateHigh(rep, pos, len); }
    else if pos < 36 { HoleRotateUpper(rep, pos, len); }
    else { HoleRotateLast(rep, pos, len); }
  }

  // ---- soundness ----

  predicate Even(x: bv64) {
    x & 1 == 0
  }

  lemma RunFits(elem: bv64, rep: bv8, pos: bv8, len: bv8)
    requires IsSize(rep) && pos < 64 && len < 64
    requires Ones(len) <= 0xffff_ffff_ffff_ffff >> pos
    requires elem == RunBits(pos, len) && Elem(elem, rep) == elem != 0 && Even(elem)
    ensures IsRun(rep, pos, len)
  {}

  lemma ReplicateNonzero(rep: bv8, elem: bv64)
    requires Replicate(rep, elem) != 0
    ensures elem != 0
  {}

  lemma ElemTwice(y: bv64, rep: bv8)
    ensures Elem(Elem(y, rep), rep) == Elem(y, rep)
  {
    hide ElemMask;
  }

  lemma ElemEven(y: bv64, rep: bv8)
    requires Even(y)
    ensures Even(Elem(y, rep))
  {
    hide ElemMask;
  }

  lemma ElementNonzero(y: bv64)
    requires y != 0
    ensures Elem(y, PeriodOf(y)) != 0
  {
    hide PeriodOf, Replicate, Elem;
    PeriodRepeats(y);
    ReplicateNonzero(PeriodOf(y), Elem(y, PeriodOf(y)));
  }

  /** What the searches find in one period is a run of ones. */
  lemma FoundRun(elem: bv64, rep: bv8, pos: bv8, len: bv8)
    requires IsSize(rep) && elem != 0 && Even(elem) && Elem(elem, rep) == elem
    requires pos == DropZeros(elem).n && DropOnes(DropZeros(elem).x) == Part(0, len)
    ensures IsRun(rep, pos, len) && elem == RunBits(pos, len)
  {
    hide DropZeros, DropOnes, Elem, IsRun, Ones, Shl, RunBits, Even;
    ZerosExact(elem);
    OnesExact(DropZeros(elem).x);
    ShiftedOnes(pos, len);
    RunFits(elem, rep, pos, len);
  }

  lemma XorOnes(a: bv64, b: bv64)
    requires a ^ b == 0xffff_ffff_ffff_ffff
    ensures a == Inv(b)
  {}

  lemma InvInv(x: bv64)
    ensures Inv(Inv(x)) == x
  {}

  lemma ReplicateInv(rep: bv8, e: bv64)
    requires IsSize(rep)
    ensures Replicate(rep, Elem(Inv(e), rep)) == Inv(Replicate(rep, Elem(e, rep)))
  {
    hide Replicate, Elem, Inv;
    ReplicateNot(rep, e);
    XorOnes(Replicate(rep, Elem(Inv(e), rep)), Replicate(rep, Elem(e, rep)));
  }

  /** The searched value y is the repetition of the run that was found. */
  lemma EncodedRun(y: bv64, rep: bv8, pos: bv8, len: bv8)
    requires Even(y) && y != 0 && rep == PeriodOf(y)
    requires pos == DropZeros(Elem(y, rep)).n && DropOnes(DropZeros(Elem(y, rep)).x) == Part(0, len)
    ensures IsRun(rep, pos, len) && Replicate(rep, RunBits(pos, len)) == y
  {
    hide PeriodOf, DropZeros, DropOnes, Elem, IsRun, RunBits, Replicate, Even;
    ElementNonzero(y);
    PeriodRepeats(y);
    ElemTwice(y, rep);
    ElemEven(y, rep);
    FoundRun(Elem(y, rep), rep, pos, len);
  }

  lemma SoundEven(y: bv64, rep: bv8, pos: bv8, len: bv8)
    requires IsRun(rep, pos, len) && Replicate(rep, RunBits(pos, len)) == y
    ensures Pack(rep, pos, len) < 0x2000 && DecodeFields(Pack(rep, pos, len)) == Some(y)
  {
    hide DecodeFields, Pack, RotateRight, RotateBy, Replicate, RunBits, Ones;
    PackDecodes(rep, pos, len);
    RunRotate(rep, pos, len);
  }

  lemma SoundOdd(x: bv64, rep: bv8, pos: bv8, len: bv8)
    requires IsRun(rep, pos, len) && Replicate(rep, RunBits(pos, len)) == Inv(x)
    ensures var e := Pack(rep, HolePos(rep, pos, len), HoleLen(rep, len)); e < 0x2000 && DecodeFields(e) == Some(x)
  {
    hide DecodeFields, Pack, RotateRight, RotateBy, HolePos, HoleLen, Replicate, RunBits, Ones, Elem, Inv;
    HoleInElement(rep, pos, len);
    PackDecodes(rep, HolePos(rep, pos, len), HoleLen(rep, len));
    HoleRotate(rep, pos, len);
    RunInMask(rep, pos, len);
    ReplicateInv(rep, RunBits(pos, len));
    InvInv(x);
  }

  lemma HoleInElement(rep: bv8, pos: bv8, len: bv8)
    requires IsRun(rep, pos, len)
    ensures HolePos(rep, pos, len) < rep && 0 < HoleLen(rep, len) < rep
  {}

  lemma InvEven(x: bv64)
    requires !Even(x)
    ensures Even(Inv(x))
  {}

  /** Period, position and length found for y. */
  function Found(y: bv64): (bv8, bv8, bv8) {
    var rep := PeriodOf(y);
    (rep, DropZeros(Elem(y, rep)).n, DropOnes(DropZeros(Elem(y, rep)).x).n)
  }

  lemma SoundFrom(y: bv64)
    requires Even(y) && y != 0 && DropOnes(DropZeros(Elem(y, PeriodOf(y))).x).x == 0
    ensures IsRun(Found(y).0, Found(y).1, Found(y).2)
    ensures Replicate(Found(y).0, RunBits(Found(y).1, Found(y).2)) == y
  {
    hide PeriodOf, DropZeros, DropOnes, Elem, IsRun, RunBits, Replicate, Even;
    EncodedRun(y, Found(y).0, Found(y).1, Found(y).2);
  }

  lemma EncodeSoundEven(x: bv64)
    requires Even(x) && Encode(x).Some?
    ensures Encode(x).value < 0x2000 && DecodeFields(Encode(x).value) == Some(x)
  {
    hide PeriodOf, DropZeros, DropOnes, Elem, IsRun, RunBits, Replicate, DecodeFields, Pack, Inv, HolePos, HoleLen;
    SoundFrom(x);
    SoundEven(x, Found(x).0, Found(x).1, Found(x).2);
  }

  lemma EncodeSoundOdd(x: bv64)
    requires !Even(x) && Encode(x).Some?
    ensures Encode(x).value < 0x2000 && DecodeFields(Encode(x).value) == Some(x)
  {
    hide PeriodOf, DropZeros, DropOnes, Elem, IsRun, RunBits, Replicate, DecodeFields, Pack, Inv, HolePos, HoleLen;
    InvEven(x);
    SoundFrom(Inv(x));
    SoundOdd(x, Found(Inv(x)).0, Found(Inv(x)).1, Found(Inv(x)).2);
  }

  /** Whatever the encoder returns decodes to x. */
  lemma EncodeSound(x: bv64)
    requires Encode(x).Some?
    ensures Encode(x).value < 0x2000 && DecodeFields(Encode(x).value) == Some(x)
  {
    hide Encode, DecodeFields;
    if Even(x) { EncodeSoundEven(x); } else { EncodeSoundOdd(x); }
  }

  // ---- completeness ----

  lemma DecodedForm(n: bv8, immr: bv8, imms: bv8, rep: bv8)
    requires rep == ElementSize(n, imms) && DecodeBitMasks(n, immr, imms).Some?
    ensures IsSize(rep) && imms & (rep - 1) < rep - 1 && immr & (rep - 1) < rep
  {
    hide Replicate, RotateRight, Ones;
  }

  lemma RotateByTwice(rep: bv8, r: bv8)
    requires IsSize(rep) && r < rep
    ensures RotateBy(rep, RotateBy(rep, r)) == r
  {}

  lemma EvenRotation(rep: bv8, len: bv8, r: bv8)
    requires IsSize(rep) && 0 < len < rep && r < rep && Even(RotateRight(rep, Ones(len), r))
    ensures IsRun(rep, RotateBy(rep, r), len)
  {}

  lemma OddRotation(rep: bv8, len: bv8, r: bv8)
    requires IsSize(rep) && 0 < len < rep && r < rep && !Even(RotateRight(rep, Ones(len), r))
    ensures IsRun(rep, HolePos(rep, rep - r, len), HoleLen(rep, len))
  {}

  lemma HoleAround(rep: bv8, len: bv8, r: bv8)
    requires IsSize(rep) && 0 < len < rep && r < rep
    ensures var hp, hl := HolePos(rep, rep - r, len), HoleLen(rep, len);
      HoleLen(rep, hl) == len && RotateBy(rep, HolePos(rep, hp, hl)) == r
  {}

  lemma Parity16(w: bv64)
    ensures Even(Replicate16(w)) == Even(w)
  {}

  lemma Parity8(w: bv64)
    ensures Even(Replicate8(w)) == Even(w)
  {
    hide Replicate16;
    Parity16(w | (w << 8));
  }

  lemma Parity4(w: bv64)
    ensures Even(Replicate4(w)) == Even(w)
  {
    hide Replicate8;
    Parity8(w | (w << 4));
  }

  lemma ReplicateParity(rep: bv8, w: bv64)
    ensures Even(Replicate(rep, w)) == Even(w)
  {
    hide Replicate4, Replicate8, Replicate16;
    Parity4(w | (w << 2));
    Parity4(w);
    Parity8(w);
    Parity16(w);
  }

  lemma RunNonzero(rep: bv8, pos: bv8, len: bv8)
    requires IsRun(rep, pos, len)
    ensures RunBits(pos, len) != 0 && Even(RunBits(pos, len))
  {}

  /** The searches accept the repetition of every run. */
  lemma RunAccepted(y: bv64, rep: bv8, pos: bv8, len: bv8)
    requires IsRun(rep, pos, len) && y == Replicate(rep, RunBits(pos, len))
    ensures y != 0 && DropOnes(DropZeros(Elem(y, PeriodOf(y))).x).x == 0
  {
    hide PeriodOf, DropZeros, DropOnes, Elem, RunBits, Replicate, Ones, Even;
    PeriodOfRun(rep, pos, len);
    RunInMask(rep, pos, len);
    ReplicateLow(rep, RunBits(pos, len));
    assert Elem(y, rep) == RunBits(pos, len);
    ZerosOfRun(pos, len);
    OnesOfRun(len);
    RunNonzero(rep, pos, len);
    ElemZero(y, rep);
  }

  lemma ElemZero(y: bv64, rep: bv8)
    requires Elem(y, rep) != 0
    ensures y != 0
  {
    hide ElemMask;
  }

  lemma CompleteEven(x: bv64, rep: bv8, len: bv8, r: bv8)
    requires IsSize(rep) && 0 < len < rep && r < rep && Even(x)
    requires x == Replicate(rep, RotateRight(rep, Ones(len), r))
    ensures Encode(x).Some?
  {
    hide PeriodOf, DropZeros, DropOnes, Elem, RunBits, Replicate, Ones, RotateRight, RotateBy, Pack, Inv;
    ReplicateParity(rep, RotateRight(rep, Ones(len), r));
    EvenRotation(rep, len, r);
    RotateByTwice(rep, r);
    RunRotate(rep, RotateBy(rep, r), len);
    RunAccepted(x, rep, RotateBy(rep, r), len);
  }

  lemma CompleteOdd(x: bv64, rep: bv8, len: bv8, r: bv8)
    requires IsSize(rep) && 0 < len < rep && r < rep && !Even(x)
    requires x == Replicate(rep, RotateRight(rep, Ones(len), r))
    ensures Encode(x).Some?
  {
    hide PeriodOf, DropZeros, DropOnes, Elem, RunBits, Replicate, Ones, RotateRight, RotateBy, Pack, Inv, HolePos,
      HoleLen;
    ReplicateParity(rep, RotateRight(rep, Ones(len), r));
    OddRotation(rep, len, r);
    HoleAround(rep, len, r);
    var hp, hl := HolePos(rep, rep - r, len), HoleLen(rep, len);
    HoleRotate(rep, hp, hl);
    RunInMask(rep, hp, hl);
    ReplicateInv(rep, RunBits(hp, hl));
    InvInv(Replicate(rep, RunBits(hp, hl)));
    RunAccepted(Inv(x), rep, hp, hl);
  }

  /** Every value that some N:immr:imms stands for is encoded. */
  lemma EncodeComplete(e: bv32, x: bv64)
    requires DecodeFields(e) == Some(x)
    ensures Encode(x).Some?
  {
    hide Encode, Replicate, RotateRight, Ones, ElementSize;
    var n, immr, imms := ((e >> 12) & 1) as bv8, ((e >> 6) & 63) as bv8, (e & 63) as bv8;
    var rep := ElementSize(n, imms);
    DecodedForm(n, immr, imms, rep);
    var s, r := imms & (rep - 1), immr & (rep - 1);
    DecodeRotated(n, immr, imms, rep, s, r);
    if Even(x) { CompleteEven(x, rep, s + 1, r); } else { CompleteOdd(x, rep, s + 1, r); }
  }

  /** The encoder fails exactly on the values no logical immediate stands for. */
  lemma EncodeExact(x: bv64)
    ensures Encode(x).None? <==> forall e: bv32 :: DecodeFields(e) != Some(x)
  {
    hide Encode, DecodeFields;
    if Encode(x).Some? {
      EncodeSound(x);
    }
    forall e: bv32 | DecodeFields(e) == Some(x)
      ensures Encode(x).Some?
    {
      EncodeComplete(e, x);
    }
  }

  // ---- 32-bit immediates ----

  /** The low word of x in both halves. */
  function Double(x: bv64): bv64 {
    x | Shl(x, 32)
  }

  predicate IsWord(x: bv64) {
    Shr(x, 32) == 0
  }

  lemma DoublePeriod(x: bv64)
    requires IsWord(x)
    ensures PeriodOf(Double(x)) <= 32
  {
    assert Periodic(Double(x), 32);
  }

  lemma InvDoublePeriod(x: bv64)
    requires IsWord(x)
    ensures PeriodOf(Inv(Double(x))) <= 32
  {
    assert Periodic(Inv(Double(x)), 32);
  }

  lemma PackNarrow(rep: bv8, pos: bv8, len: bv8)
    requires IsSize(rep) && rep <= 32 && pos < rep && 0 < len < rep
    ensures Pack(rep, pos, len) < 0x1000
  {}

  lemma RunInside(rep: bv8, pos: bv8, len: bv8)
    requires IsRun(rep, pos, len)
    ensures pos < rep && 0 < len < rep
  {}

  /** The encoding of a repeated word is valid in a 32-bit instruction: N is clear. */
  lemma EncodeNarrow(x: bv64)
    requires IsWord(x) && Encode(Double(x)).Some?
    ensures Encode(Double(x)).value < 0x1000
  {
    hide PeriodOf, DropZeros, DropOnes, Elem, IsRun, RunBits, Replicate, Pack, Inv, HolePos, HoleLen, Double, IsWord;
    if Even(Double(x)) {
      DoublePeriod(x);
      var y := Double(x);
      SoundFrom(y);
      var (rep, pos, len) := Found(y);
      RunInside(rep, pos, len);
      RunSize(rep, pos, len);
      PackNarrow(rep, pos, len);
    } else {
      InvDoublePeriod(x);
      var y := Inv(Double(x));
      InvEven(Double(x));
      SoundFrom(y);
      var (rep, pos, len) := Found(y);
      HoleInElement(rep, pos, len);
      RunSize(rep, pos, len);
      PackNarrow(rep, HolePos(rep, pos, len), HoleLen(rep, len));
    }
  }

  lemma RunSize(rep: bv8, pos: bv8, len: bv8)
    requires IsRun(rep, pos, len)
    ensures IsSize(rep)
  {}
}
