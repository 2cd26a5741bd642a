/**
  * Where the arguments of a call go on AArch64 (section 5.4.2 of the AAPCS64,
  * Arm IHI 0055B): general registers, vector registers or the stack.
  */
module A64Pcs {
  import opened A64Hfa

  // ---- argument locations ----

  /** The next free general register, vector register and stack offset. */
  datatype Next = Next(nx: int, nv: int, ns: int)

  /** A location code and what is free after it. */
  datatype Placed = Placed(code: int, next: Next)

  /** The next multiple of a power of two: the bit trick of the code, by cases. */
  function RoundUp(x: int, a: int): int {
    match a
    case 2 => if x % 2 == 0 then x else x + 2 - x % 2
    case 4 => if x % 4 == 0 then x else x + 4 - x % 4
    case 8 => if x % 8 == 0 then x else x + 8 - x % 8
    case 16 => if x % 16 == 0 then x else x + 16 - x % 16
    case 32 => if x % 32 == 0 then x else x + 32 - x % 32
    case 64 => if x % 64 == 0 then x else x + 64 - x % 64
    case _ => x
  }

  predicate IsAlign(a: int) {
    a == 1 || a == 2 || a == 4 || a == 8 || a == 16 || a == 32 || a == 64
  }

  predicate IsMultiple(x: int, a: int) {
    match a
    case 1 => true
    case 2 => x % 2 == 0
    case 4 => x % 4 == 0
    case 8 => x % 8 == 0
    case 16 => x % 16 == 0
    case 32 => x % 32 == 0
    case 64 => x % 64 == 0
    case _ => false
  }

  /**
    * Argument types with the sizes and alignments C gives them. The alignment of an aggregate
    * counts only when it is neither empty nor passed by pointer.
    */
  predicate IsArg(t: CType) {
    match t
    case Floating(n, a) => (n == 4 || n == 8 || n == 16) && a == n
    case Scalar(n, a) => (n == 1 || n == 2 || n == 4 || n == 8 || n == 16) && a == n
    case Aggregate(_, n, a) => IsAlign(a) || (a > 0 && HfaCount(t) == 0 && (n == 0 || n > 16))
    case _ => true
  }

  predicate AreArgs(types: seq<CType>) {
    forall i :: 0 <= i < |types| ==> IsArg(types[i])
  }

  function ArgSize(t: CType): int {
    if t.ArrayOf? || t.FuncType? then 8 else SizeOf(t)
  }

  function ArgAlign(t: CType): int {
    match t
    case Floating(_, a) => a
    case Scalar(_, a) => a
    case Aggregate(_, _, a) => a
    case _ => 8
  }

  /** Too big to copy: a pointer is passed instead. */
  predicate ByPointer(t: CType) {
    HfaCount(t) == 0 && ArgSize(t) > 16
  }

  predicate InVector(t: CType) {
    t.Floating? || HfaCount(t) > 0
  }

  /** One iteration of arm64_pcs_aux. */
  function Place(t: CType, s: Next): Placed
    requires IsArg(t)
  {
    var hfa, size, align := HfaCount(t), ArgSize(t), ArgAlign(t);
    if ByPointer(t) then
      if s.nx < 8 then Placed(s.nx * 2 + 1, s.(nx := s.nx + 1))
      else Placed(RoundUp(s.ns, 8) + 1, s.(ns := RoundUp(s.ns, 8) + 8))
    else
      var size1 := if hfa == 0 && t.Aggregate? then RoundUp(size, 8) else size;
      if t.Floating? && s.nv < 8 then Placed(16 + s.nv * 2, s.(nv := s.nv + 1))
      else if hfa > 0 && s.nv + hfa <= 8 then Placed(16 + s.nv * 2, s.(nv := s.nv + hfa))
      else
        var nv := if hfa > 0 then 8 else s.nv;
        var size2 := if hfa > 0 then RoundUp(size1, 8) else size1;
        var ns := if hfa > 0 || (t.Floating? && size == 16) then RoundUp(RoundUp(s.ns, 8), align) else s.ns;
        var size3 := if t.Floating? && size == 4 then 8 else size2;
        if hfa > 0 || t.Floating? then Placed(ns, Next(s.nx, nv, ns + size3))
        else if !t.Aggregate? && size3 <= 8 && s.nx < 8 then Placed(s.nx * 2, s.(nx := s.nx + 1))
        else
          var nx := if align == 16 then RoundUp(s.nx, 2) else s.nx;
          if !t.Aggregate? && size3 == 16 && nx < 7 then Placed(nx * 2, s.(nx := nx + 2))
          else if t.Aggregate? && size3 <= (8 - nx) * 8 then Placed(nx * 2, s.(nx := nx + (size3 + 7) / 8))
          else
            var ns' := RoundUp(RoundUp(s.ns, 8), align);
            var size4 := if !t.Aggregate? && size3 < 8 then 8 else size3;
            Placed(ns', Next(8, s.nv, ns' + size4))
  }

  // ---- what a code stands for ----

  /** How many registers of its kind an argument takes. */
  function Registers(t: CType): int
    requires IsArg(t)
  {
    if ByPointer(t) then 1
    else if t.Floating? then 1
    else if HfaCount(t) > 0 then HfaCount(t)
    else (ArgSize(t) + 7) / 8
  }

  /** How many bytes it takes on the stack: whole double words. */
  function StackBytes(t: CType): int
    requires IsArg(t)
  {
    if ByPointer(t) then 8 else RoundUp(ArgSize(t), 8)
  }

  predicate InX(code: int) { 0 <= code < 16 }

  predicate InV(code: int) { 16 <= code < 32 }

  predicate OnStack(code: int) { code >= 32 }

  function FirstReg(code: int): int { code % 16 / 2 }

  function Offset(code: int): int { code - code % 2 }

  /** The code is a place of the right kind inside what has been handed out, its low bit the pointer flag. */
  predicate Fits(t: CType, code: int, s: Next)
    requires IsArg(t)
  {
    code % 2 == (if ByPointer(t) then 1 else 0)
    && (InX(code) ==> !InVector(t) && FirstReg(code) + Registers(t) <= s.nx)
    && (InV(code) ==> InVector(t) && FirstReg(code) + Registers(t) <= s.nv)
    && (OnStack(code) ==> Offset(code) % 8 == 0 && Offset(code) + StackBytes(t) <= s.ns)
    && code >= 0
  }

  predicate IsNext(s: Next) {
    0 <= s.nx <= 8 && 0 <= s.nv <= 8 && 32 <= s.ns && s.ns % 8 == 0
  }

  /** The new place starts where everything handed out before ends. */
  predicate Beyond(t: CType, code: int, s: Next) {
    (InX(code) ==> s.nx <= FirstReg(code)) && (InV(code) ==> s.nv <= FirstReg(code))
      && (OnStack(code) ==> s.ns <= Offset(code))
  }

  lemma RoundUp8(x: int)
    ensures x <= RoundUp(x, 8) < x + 8 && RoundUp(x, 8) % 8 == 0 && (x % 8 == 0 ==> RoundUp(x, 8) == x)
  {}

  lemma RoundUpAlign(x: int, a: int)
    requires IsAlign(a) && x % 8 == 0
    ensures x <= RoundUp(x, a) && RoundUp(x, a) % 8 == 0 && IsMultiple(RoundUp(x, a), a)
  {
    hide RoundUp;
    Eighth4(x);
    Eighth2(x);
    RoundUpSmall(x);
    RoundUp8(x);
    RoundUp16(x);
    RoundUp32(x);
    RoundUp64(x);
  }

  lemma RoundUpOther(x: int, a: int)
    requires !IsAlign(a)
    ensures RoundUp(x, a) == x
  {}

  lemma RoundUp32(x: int)
    ensures x <= RoundUp(x, 32) && RoundUp(x, 32) % 32 == 0 && RoundUp(x, 32) % 8 == 0
  {
    Rounded(x, 32);
    EighthOf(RoundUp(x, 32), 32);
  }

  lemma Rounded(x: int, a: int)
    requires a == 32 || a == 64
    ensures x <= RoundUp(x, a) && RoundUp(x, a) % a == 0
  {
    if a == 32 {
      assert RoundUp(x, 32) == 32 * if x % 32 == 0 then x / 32 else x / 32 + 1;
    } else {
      assert RoundUp(x, 64) == 64 * if x % 64 == 0 then x / 64 else x / 64 + 1;
    }
  }

  lemma EighthOf(x: int, a: int)
    requires (a == 32 || a == 64) && x % a == 0
    ensures x % 8 == 0
  {
    if a == 32 { assert x == 8 * (4 * (x / 32)); } else { assert x == 8 * (8 * (x / 64)); }
  }

  lemma RoundUp64(x: int)
    ensures x <= RoundUp(x, 64) && RoundUp(x, 64) % 64 == 0 && RoundUp(x, 64) % 8 == 0
  {
    Rounded(x, 64);
    EighthOf(RoundUp(x, 64), 64);
  }

  lemma RoundUpSmall(x: int)
    requires x % 4 == 0 && x % 2 == 0
    ensures RoundUp(x, 1) == x && RoundUp(x, 2) == x && RoundUp(x, 4) == x
  {}

  lemma Eighth4(x: int)
    requires x % 8 == 0
    ensures x % 4 == 0
  {
    assert x == 4 * (2 * (x / 8));
  }

  lemma Eighth2(x: int)
    requires x % 8 == 0
    ensures x % 2 == 0
  {
    assert x == 2 * (4 * (x / 8));
  }

  lemma Sixteenth(x: int)
    requires x % 16 == 0
    ensures x % 8 == 0
  {
    assert x == 8 * (2 * (x / 16));
  }

  lemma RoundUp16(x: int)
    ensures x <= RoundUp(x, 16) && RoundUp(x, 16) % 16 == 0 && RoundUp(x, 16) % 8 == 0
  {
    Sixteenth(RoundUp(x, 16));
  }

  /** Everything the step needs to know about rounding, for one type and one state. */
  lemma Roundings(t: CType, s: Next)
    requires IsArg(t) && IsNext(s)
    ensures RoundUp(s.ns, 8) == s.ns && ArgAlign(t) > 0 && ArgSize(t) >= 0
    ensures s.ns <= RoundUp(s.ns, ArgAlign(t)) && RoundUp(s.ns, ArgAlign(t)) % 8 == 0
    ensures ArgSize(t) <= RoundUp(ArgSize(t), 8) < ArgSize(t) + 8 && RoundUp(ArgSize(t), 8) % 8 == 0
    ensures s.nx <= RoundUp(s.nx, 2) <= s.nx + 1 && RoundUp(s.nx, 2) <= 8
    ensures RoundUp(RoundUp(ArgSize(t), 8), 8) == RoundUp(ArgSize(t), 8)
  {
    hide RoundUp, ArgSize, ArgAlign, IsArg, IsAlign, HfaCount;
    ArgPositive(t);
    RoundUp8(s.ns);
    RoundUp8(ArgSize(t));
    RoundUp8(RoundUp(ArgSize(t), 8));
    RoundUp2(s.nx);
    if IsAlign(ArgAlign(t)) { RoundUpAlign(s.ns, ArgAlign(t)); } else { RoundUpOther(s.ns, ArgAlign(t)); }
  }

  lemma ArgPositive(t: CType)
    requires IsArg(t)
    ensures ArgSize(t) >= 0 && ArgAlign(t) > 0
  {
    hide HfaCount;
  }

  lemma RoundUp2(x: int)
    ensures x <= RoundUp(x, 2) <= x + 1 && (x <= 8 ==> RoundUp(x, 2) <= 8)
  {}

  /** The sizes and alignments the cases distinguish. */
  lemma SizeFacts(t: CType)
    requires IsArg(t)
    ensures t.Floating? ==>
      HfaCount(t) == 0 && ArgAlign(t) == ArgSize(t) && (ArgSize(t) == 4 || ArgSize(t) == 8 || ArgSize(t) == 16)
    ensures t.Floating? ==> RoundUp(ArgSize(t), 8) == if ArgSize(t) == 4 then 8 else ArgSize(t)
    ensures !t.Floating? && !t.Aggregate? ==> ArgAlign(t) == ArgSize(t) && (ArgSize(t) <= 8 || ArgSize(t) == 16)
    ensures !t.Floating? && !t.Aggregate? ==> RoundUp(ArgSize(t), 8) == if ArgSize(t) <= 8 then 8 else 16
    ensures (RoundUp(ArgSize(t), 8) + 7) / 8 == (ArgSize(t) + 7) / 8
      && 8 * ((ArgSize(t) + 7) / 8) == RoundUp(ArgSize(t), 8)
  {}

  /** Nothing that was handed out is given back. */
  predicate Advances(s: Next, s': Next) {
    IsNext(s') && s.nx <= s'.nx && s.nv <= s'.nv && s.ns <= s'.ns
  }

  predicate Good(t: CType, s: Next, p: Placed)
    requires IsArg(t)
  {
    Advances(s, p.next) && Fits(t, p.code, p.next) && Beyond(t, p.code, s)
  }

  /** An argument that takes no register has the code of a vector register. */
  predicate Misread(t: CType, code: int)
    requires IsArg(t)
  {
    Registers(t) == 0 && InV(code)
  }

  /** The standard's rule for a pointer to a copy. */
  function PointerPlace(s: Next): Placed {
    if s.nx < 8 then Placed(s.nx * 2 + 1, s.(nx := s.nx + 1)) else Placed(s.ns + 1, s.(ns := s.ns + 8))
  }

  /** Its rule for floating-point values and homogeneous aggregates. */
  function VectorPlace(t: CType, s: Next): Placed
    requires IsArg(t)
  {
    if s.nv + Registers(t) <= 8 then Placed(16 + s.nv * 2, s.(nv := s.nv + Registers(t)))
    else
      var ns := if HfaCount(t) > 0 || ArgSize(t) == 16 then RoundUp(s.ns, ArgAlign(t)) else s.ns;
      Placed(ns, Next(s.nx, 8, ns + StackBytes(t)))
  }

  /** Its rule for everything else. */
  function CorePlace(t: CType, s: Next): Placed
    requires IsArg(t)
  {
    var nx := if ArgAlign(t) == 16 then RoundUp(s.nx, 2) else s.nx;
    if nx + Registers(t) <= 8 then Placed(nx * 2, s.(nx := nx + Registers(t)))
    else Placed(RoundUp(s.ns, ArgAlign(t)), Next(8, s.nv, RoundUp(s.ns, ArgAlign(t)) + StackBytes(t)))
  }

  lemma PointerIs(t: CType, s: Next)
    requires IsArg(t) && IsNext(s) && ByPointer(t)
    ensures Place(t, s) == PointerPlace(s)
  {
    RoundUp8(s.ns);
    hide RoundUp, HfaCount;
  }

  lemma VectorIs(t: CType, s: Next)
    requires IsArg(t) && IsNext(s) && !ByPointer(t) && InVector(t)
    ensures Place(t, s) == VectorPlace(t, s)
  {
    hide RoundUp, HfaCount, SizeOf, ArgSize, ArgAlign, IsArg;
    Roundings(t, s);
    SizeFacts(t);
  }

  lemma CoreIs(t: CType, s: Next)
    requires IsArg(t) && IsNext(s) && !ByPointer(t) && !InVector(t)
    ensures Place(t, s) == CorePlace(t, s)
  {
    hide RoundUp, HfaCount, SizeOf, ArgSize, ArgAlign, IsArg;
    Roundings(t, s);
    SizeFacts(t);
  }

  function StandardPlace(t: CType, s: Next): Placed
    requires IsArg(t)
  {
    if ByPointer(t) then PointerPlace(s) else if InVector(t) then VectorPlace(t, s) else CorePlace(t, s)
  }

  /** The fifteen steps of the code come to the standard's three rules. */
  lemma PlaceIs(t: CType, s: Next)
    requires IsArg(t) && IsNext(s)
    ensures Place(t, s) == StandardPlace(t, s)
  {
    hide Place, PointerPlace, VectorPlace, CorePlace, ByPointer, InVector, IsArg;
    if ByPointer(t) { PointerIs(t, s); } else if InVector(t) { VectorIs(t, s); } else { CoreIs(t, s); }
  }

  /**
    * The first argument, by its type alone: a pointer for an array or a function, v0 on for a floating value
    * or a homogeneous aggregate, x0 or x0 and x1 for up to 8 or 16 bytes, and x0 with the pointer flag beyond.
    */
  lemma FirstPlace(t: CType)
    requires IsArg(t)
    ensures var p, pointer := Place(t, Next(0, 0, 32)), t.ArrayOf? || t.FuncType?;
      p == (
        if HfaCount(t) > 0 then Placed(16, Next(0, HfaCount(t), 32))
        else if t.Floating? then Placed(16, Next(0, 1, 32))
        else if !pointer && SizeOf(t) > 16 then Placed(1, Next(1, 0, 32))
        else if pointer || 1 <= SizeOf(t) <= 8 then Placed(0, Next(1, 0, 32))
        else if SizeOf(t) > 8 then Placed(0, Next(2, 0, 32))
        else Placed(0, Next(0, 0, 32)))
  {
    PlaceIs(t, Next(0, 0, 32));
    ArgPositive(t);
    SizeFacts(t);
    hide Place, HfaCount, SizeOf;
  }

  /** A 16-byte value aligned to 16 starts at an even register: after one argument x1 stays unused. */
  lemma PairEven(t: CType, s: Next)
    requires IsArg(t) && IsNext(s) && (t.Scalar? || t.Aggregate?) && HfaCount(t) == 0 && SizeOf(t) == 16
    requires ArgAlign(t) == 16 && s.nx < 7
    ensures Place(t, s) == var first := if s.nx % 2 == 1 then s.nx + 1 else s.nx;
      Placed(first * 2, s.(nx := first + 2))
  {
    PlaceIs(t, s);
    RoundUp2(s.nx);
    hide Place, HfaCount, SizeOf;
  }

  /** What is handed out once the first n arguments have their places. */
  ghost function Reached(types: seq<CType>, n: nat): Next
    requires n <= |types| && AreArgs(types)
  {
    if n == 0 then Next(0, 0, 32) else StandardPlace(types[n - 1], Reached(types, n - 1)).next
  }

  lemma PointerFits(t: CType, s: Next)
    requires IsArg(t) && IsNext(s) && ByPointer(t)
    ensures Good(t, s, PointerPlace(s))
  {
    hide RoundUp, HfaCount, SizeOf, ArgSize, IsArg, ByPointer, InVector, FirstReg, Offset;
    PointerCore(t);
    if s.nx < 8 { RegisterCode(s.nx, 1); } else { StackCode(s.ns, 1); }
  }

  lemma RegisterCode(n: int, flag: int)
    requires 0 <= n < 8 && 0 <= flag <= 1
    ensures FirstReg(n * 2 + flag) == n && FirstReg(16 + n * 2) == n && (n * 2 + flag) % 2 == flag
      && (16 + n * 2) % 2 == 0
  {}

  lemma StackCode(off: int, flag: int)
    requires off % 8 == 0 && 0 <= flag <= 1
    ensures (off + flag) % 2 == flag && Offset(off + flag) == off
  {
    Eighth2(off);
  }

  lemma InXGood(t: CType, s: Next, first: int)
    requires IsArg(t) && IsNext(s) && !ByPointer(t) && !InVector(t) && s.nx <= first < 8
      && 0 <= Registers(t) && first + Registers(t) <= 8
    ensures Good(t, s, Placed(first * 2, s.(nx := first + Registers(t))))
  {
    hide HfaCount, ByPointer, SizeOf, InVector, Registers, StackBytes, IsArg, FirstReg, Offset;
    RegisterCode(first, 0);
  }

  lemma InVGood(t: CType, s: Next)
    requires IsArg(t) && IsNext(s) && !ByPointer(t) && InVector(t) && s.nv + Registers(t) <= 8 && Registers(t) >= 1
    ensures Good(t, s, Placed(16 + s.nv * 2, s.(nv := s.nv + Registers(t))))
  {
    hide HfaCount, ByPointer, SizeOf, InVector, Registers, StackBytes, IsArg, FirstReg, Offset;
    RegisterCode(s.nv, 0);
  }

  lemma EighthSum(x: int, y: int)
    requires x % 8 == 0 && y % 8 == 0
    ensures (x + y) % 8 == 0
  {
    assert x + y == 8 * (x / 8 + y / 8);
  }

  lemma StackFits(t: CType, s: Next, off: int, n: Next)
    requires IsArg(t) && !ByPointer(t) && s.ns <= off && 32 <= s.ns && off + StackBytes(t) <= n.ns
    requires off % 8 == 0 && off % 2 == 0 && Offset(off) == off
    ensures Fits(t, off, n) && Beyond(t, off, s)
  {
    hide ByPointer, InVector, Registers, StackBytes, IsArg, FirstReg, Offset;
  }

  lemma OnStackGood(t: CType, s: Next, off: int, nx: int, nv: int)
    requires IsArg(t) && IsNext(s) && !ByPointer(t) && s.ns <= off && off % 8 == 0 && s.nx <= nx <= 8 && s.nv <= nv <= 8
    requires StackBytes(t) >= 0 && StackBytes(t) % 8 == 0
    ensures Good(t, s, Placed(off, Next(nx, nv, off + StackBytes(t))))
  {
    hide ByPointer, StackBytes, IsArg, Offset, Fits, Beyond;
    StackCode(off, 0);
    EighthSum(off, StackBytes(t));
    StackFits(t, s, off, Next(nx, nv, off + StackBytes(t)));
  }

  lemma StackSize(t: CType, s: Next)
    requires IsArg(t) && IsNext(s)
    ensures StackBytes(t) >= 0 && StackBytes(t) % 8 == 0
  {
    hide RoundUp, HfaCount, ByPointer, ArgSize, SizeOf, IsArg;
    Roundings(t, s);
  }

  lemma VectorCount(t: CType)
    requires IsArg(t) && InVector(t) && !ByPointer(t)
    ensures Registers(t) >= 1
  {
    hide HfaCount, ByPointer, ArgSize, SizeOf, IsArg;
  }

  lemma VectorFits(t: CType, s: Next)
    requires IsArg(t) && IsNext(s) && !ByPointer(t) && InVector(t)
    ensures Good(t, s, VectorPlace(t, s))
  {
    hide RoundUp, HfaCount, ByPointer, InVector, ArgSize, ArgAlign, SizeOf, IsArg, Registers, StackBytes, Good;
    Roundings(t, s);
    StackSize(t, s);
    VectorCount(t);
    if s.nv + Registers(t) <= 8 {
      InVGood(t, s);
    } else {
      OnStackGood(t, s, if HfaCount(t) > 0 || ArgSize(t) == 16 then RoundUp(s.ns, ArgAlign(t)) else s.ns, s.nx, 8);
    }
  }

  lemma CoreFits(t: CType, s: Next)
    requires IsArg(t) && IsNext(s) && !ByPointer(t) && !InVector(t)
    ensures Advances(s, CorePlace(t, s).next)
    ensures !Misread(t, CorePlace(t, s).code) ==> Good(t, s, CorePlace(t, s))
  {
    hide RoundUp, HfaCount, ByPointer, ArgSize, ArgAlign, SizeOf, IsArg, InVector, Registers, StackBytes, Fits, Beyond;
    Roundings(t, s);
    StackSize(t, s);
    RegisterCount(t);
    var nx := if ArgAlign(t) == 16 then RoundUp(s.nx, 2) else s.nx;
    if nx == 8 && Registers(t) == 0 {
    } else if nx + Registers(t) <= 8 {
      InXGood(t, s, nx);
    } else {
      OnStackGood(t, s, RoundUp(s.ns, ArgAlign(t)), 8, s.nv);
    }
  }

  lemma RegisterCount(t: CType)
    requires IsArg(t)
    ensures Registers(t) >= 0 && (ByPointer(t) || InVector(t) ==> Registers(t) >= 1)
  {
    ArgPositive(t);
    hide HfaCount;
  }

  /** Each argument gets a place of its own kind just past everything handed out so far, unless its code is misread. */
  lemma PlaceFits(t: CType, s: Next)
    requires IsArg(t) && IsNext(s)
    ensures Advances(s, Place(t, s).next)
    ensures !Misread(t, Place(t, s).code) ==> Good(t, s, Place(t, s))
  {
    hide Fits, Beyond, Place, PointerPlace, VectorPlace, CorePlace, Misread, IsArg;
    if ByPointer(t) {
      PointerIs(t, s);
      PointerFits(t, s);
    } else if InVector(t) {
      VectorIs(t, s);
      VectorFits(t, s);
    } else {
      CoreIs(t, s);
      CoreFits(t, s);
    }
  }

  /** A code is misread if and only if the argument takes no register and all core registers are used up or skipped. */
  lemma MisreadExact(t: CType, s: Next)
    requires IsArg(t) && IsNext(s)
    ensures Misread(t, Place(t, s).code) <==> Registers(t) == 0 && Exhausted(t, s)
  {
    hide Place, HfaCount, ByPointer, ArgSize, ArgAlign, SizeOf, IsArg, InVector, Registers, StackBytes, RoundUp;
    RegisterCount(t);
    if Registers(t) == 0 {
      CoreIs(t, s);
      Roundings(t, s);
      RoundUpTwo(s.nx);
    }
  }

  /** No core register is left for an argument of this alignment. */
  predicate Exhausted(t: CType, s: Next) {
    s.nx == 8 || (s.nx == 7 && ArgAlign(t) == 16)
  }

  lemma RoundUpTwo(n: int)
    requires 0 <= n <= 8
    ensures RoundUp(n, 2) == 8 <==> n >= 7
  {}

  // ---- whole argument lists ----

  predicate Apart(t: CType, code: int, t': CType, code': int)
    requires IsArg(t) && IsArg(t')
  {
    (InX(code) && InX(code') ==> FirstReg(code) + Registers(t) <= FirstReg(code'))
    && (InV(code) && InV(code') ==> FirstReg(code) + Registers(t) <= FirstReg(code'))
    && (OnStack(code) && OnStack(code') ==> Offset(code) + StackBytes(t) <= Offset(code'))
  }

  lemma FitsLater(t: CType, code: int, s: Next, s': Next)
    requires IsArg(t) && Fits(t, code, s) && s.nx <= s'.nx && s.nv <= s'.nv && s.ns <= s'.ns
    ensures Fits(t, code, s')
  {
    hide Registers, StackBytes, ByPointer, InVector;
  }

  lemma FitsApart(t: CType, code: int, s: Next, t': CType, code': int)
    requires IsArg(t) && IsArg(t') && Fits(t, code, s) && Beyond(t', code', s)
    ensures Apart(t, code, t', code')
  {
    hide Registers, StackBytes, ByPointer, InVector;
  }

  /** A kind that has spilled has no register left. */
  predicate Spilled(t: CType, code: int, s: Next)
    requires IsArg(t)
  {
    OnStack(code) ==> if InVector(t) then s.nv == 8 else s.nx == 8
  }

  lemma PlaceSpills(t: CType, s: Next)
    requires IsArg(t) && IsNext(s)
    ensures Spilled(t, Place(t, s).code, Place(t, s).next)
    ensures (if InVector(t) then s.nv == 8 else s.nx == 8) ==> OnStack(Place(t, s).code) || Misread(t, Place(t, s).code)
  {
    hide Place, RoundUp, HfaCount, SizeOf, ArgSize, ArgAlign, IsArg, Registers, StackBytes, ByPointer, InVector;
    Roundings(t, s);
    RegisterCount(t);
    if ByPointer(t) {
      PointerIs(t, s);
      PointerCore(t);
    } else if InVector(t) {
      VectorIs(t, s);
    } else {
      CoreIs(t, s);
    }
  }

  lemma PointerCore(t: CType)
    requires IsArg(t) && ByPointer(t)
    ensures !InVector(t)
  {
    SizeFacts(t);
    hide HfaCount;
  }

  /** A later argument of a kind that has spilled is on the stack too. */
  predicate StaysSpilled(t: CType, code: int, t': CType, code': int) {
    InVector(t) == InVector(t') && OnStack(code) ==> OnStack(code')
  }

  lemma SpilledLater(t: CType, code: int, s: Next, s': Next)
    requires IsArg(t) && Spilled(t, code, s) && s.nx <= s'.nx <= 8 && s.nv <= s'.nv <= 8
    ensures Spilled(t, code, s')
  {
    hide InVector, IsArg, OnStack;
  }

  lemma SpilledStays(t: CType, code: int, t': CType, s: Next)
    requires IsArg(t) && Spilled(t, code, s) && IsArg(t') && IsNext(s) && !Misread(t', Place(t', s).code)
    ensures StaysSpilled(t, code, t', Place(t', s).code)
  {
    hide InVector, IsArg, OnStack, Place, Misread;
    PlaceSpills(t', s);
  }

  /** The first n arguments have the standard's places, and s is what they leave. */
  ghost predicate Located(types: seq<CType>, a: seq<int>, n: nat, s: Next)
    requires AreArgs(types)
  {
    n <= |types| == |a| && IsNext(s) && s == Reached(types, n)
    && forall k :: 0 <= k < n ==> a[k] == StandardPlace(types[k], Reached(types, k)).code
  }

  /** Where codes are not misread, the first n places lie inside what s has handed out. */
  ghost predicate AllFit(types: seq<CType>, a: seq<int>, n: nat, s: Next)
    requires AreArgs(types) && n <= |types| == |a|
  {
    forall k :: 0 <= k < n && !Misread(types[k], a[k]) ==> Fits(types[k], a[k], s) && Spilled(types[k], a[k], s)
  }

  /** And none are shared, and a spilled kind stays spilled. */
  ghost predicate Disjoint(types: seq<CType>, a: seq<int>, n: nat)
    requires AreArgs(types) && n <= |types| == |a|
  {
    forall j, k :: 0 <= j < k < n && !Misread(types[j], a[j]) && !Misread(types[k], a[k]) ==>
      Apart(types[j], a[j], types[k], a[k]) && StaysSpilled(types[j], a[j], types[k], a[k])
  }

  lemma LocateOne(types: seq<CType>, a: seq<int>, n: nat, s: Next)
    requires AreArgs(types) && n < |types| && Located(types, a, n, s)
    ensures var p := Place(types[n], s); Located(types, a[n := p.code], n + 1, p.next)
  {
    hide Place, StandardPlace, IsArg, Misread, Good;
    PlaceIs(types[n], s);
    PlaceFits(types[n], s);
  }

  lemma GoodParts(t: CType, s: Next)
    requires IsArg(t) && IsNext(s) && !Misread(t, Place(t, s).code)
    ensures var p := Place(t, s); Fits(t, p.code, p.next) && Beyond(t, p.code, s)
  {
    hide Place, IsArg, Fits, Beyond, IsNext, Misread;
    PlaceFits(t, s);
  }

  lemma FitOne(types: seq<CType>, a: seq<int>, n: nat, s: Next)
    requires AreArgs(types) && n < |types| == |a| && IsNext(s) && AllFit(types, a, n, s)
    ensures var p := Place(types[n], s); AllFit(types, a[n := p.code], n + 1, p.next)
  {
    hide Place, IsArg, Fits, Beyond, IsNext, Spilled, Misread;
    var t := types[n];
    var p := Place(t, s);
    PlaceFits(t, s);
    PlaceSpills(t, s);
    if !Misread(t, p.code) { GoodParts(t, s); }
    forall k | 0 <= k < n && !Misread(types[k], a[k])
      ensures Fits(types[k], a[k], p.next) && Spilled(types[k], a[k], p.next)
    {
      KeptOne(types[k], a[k], s, p.next);
    }
  }

  lemma KeptOne(t: CType, code: int, s: Next, s': Next)
    requires IsArg(t) && Fits(t, code, s) && Spilled(t, code, s) && Advances(s, s')
    ensures Fits(t, code, s') && Spilled(t, code, s')
  {
    hide IsArg, Fits, Spilled;
    FitsLater(t, code, s, s');
    SpilledLater(t, code, s, s');
  }

  lemma DisjointOne(types: seq<CType>, a: seq<int>, n: nat, s: Next)
    requires AreArgs(types) && n < |types| == |a| && IsNext(s) && AllFit(types, a, n, s) && Disjoint(types, a, n)
    ensures Disjoint(types, a[n := Place(types[n], s).code], n + 1)
  {
    hide Place, IsArg, Fits, Beyond, IsNext, Spilled, Apart, StaysSpilled, Misread;
    var t := types[n];
    var code := Place(t, s).code;
    if !Misread(t, code) {
      forall k | 0 <= k < n && !Misread(types[k], a[k])
        ensures Apart(types[k], a[k], t, code) && StaysSpilled(types[k], a[k], t, code)
      {
        EarlierOne(types[k], a[k], t, s);
      }
    }
  }

  lemma EarlierOne(t: CType, code: int, t': CType, s: Next)
    requires IsArg(t) && IsArg(t') && IsNext(s) && Fits(t, code, s) && Spilled(t, code, s)
    requires !Misread(t', Place(t', s).code)
    ensures var code' := Place(t', s).code; Apart(t, code, t', code') && StaysSpilled(t, code, t', code')
  {
    hide Place, IsArg, Fits, Beyond, Spilled, Apart, StaysSpilled, Misread;
    GoodParts(t', s);
    FitsApart(t, code, s, t', Place(t', s).code);
    SpilledStays(t, code, t', s);
  }

  /**
    * Fills a with the location of each argument, by the standard's rules, and returns the stack
    * space: registers and stack bytes are never shared, and a kind of argument that has spilled
    * once stays on the stack. The exception is exactly an argument without registers that is met
    * when no core register is left: its code is misread.
    */
  method PcsAux(types: seq<CType>, a: array<int>) returns (space: int)
    requires a.Length == |types| && AreArgs(types)
    modifies a
    ensures forall i :: 0 <= i < |types| ==> a[i] == StandardPlace(types[i], Reached(types, i)).code
    ensures space == Reached(types, |types|).ns - 32 >= 0 && space % 8 == 0
    ensures forall i :: 0 <= i < |types| ==>
      (Misread(types[i], a[i]) <==> Registers(types[i]) == 0 && Exhausted(types[i], Reached(types, i)))
    ensures forall i :: 0 <= i < |types| && !Misread(types[i], a[i]) ==> Fits(types[i], a[i], Next(8, 8, 32 + space))
    ensures forall i, j :: 0 <= i < j < |types| && !Misread(types[i], a[i]) && !Misread(types[j], a[j]) ==>
      Apart(types[i], a[i], types[j], a[j]) && StaysSpilled(types[i], a[i], types[j], a[j])
  {
    hide Place, StandardPlace, Fits, Apart, IsArg, StaysSpilled, Disjoint, AllFit, Located, IsNext, Spilled, Reached,
      Misread, Registers, Exhausted;
    var s := Next(0, 0, 32);
    var i := 0;
    NoneLocated(types, a[..]);
    while i < |types|
      invariant 0 <= i <= |types| && Located(types, a[..], i, s)
      invariant AllFit(types, a[..], i, s) && Disjoint(types, a[..], i)
    {
      LocatedNext(types, a[..], i, s);
      LocateOne(types, a[..], i, s);
      FitOne(types, a[..], i, s);
      DisjointOne(types, a[..], i, s);
      var p := Place(types[i], s);
      a[i] := p.code;
      s := p.next;
      i := i + 1;
    }
    space := s.ns - 32;
    AllLocated(types, a[..], s);
    forall k | 0 <= k < |types|
      ensures Misread(types[k], a[k]) <==> Registers(types[k]) == 0 && Exhausted(types[k], Reached(types, k))
    {
      ReachedNext(types, k);
      PlaceIs(types[k], Reached(types, k));
      MisreadExact(types[k], Reached(types, k));
    }
  }

  lemma NoneLocated(types: seq<CType>, a: seq<int>)
    requires AreArgs(types) && |types| == |a|
    ensures Located(types, a, 0, Next(0, 0, 32)) && AllFit(types, a, 0, Next(0, 0, 32)) && Disjoint(types, a, 0)
  {}

  lemma LocatedNext(types: seq<CType>, a: seq<int>, n: nat, s: Next)
    requires AreArgs(types) && Located(types, a, n, s)
    ensures IsNext(s)
  {}

  lemma {:induction false} ReachedNext(types: seq<CType>, n: nat)
    requires AreArgs(types) && n <= |types|
    ensures IsNext(Reached(types, n))
  {
    hide StandardPlace, IsArg, Misread, Good;
    if n == 0 {
    } else {
      ReachedNext(types, n - 1);
      PlaceIs(types[n - 1], Reached(types, n - 1));
      PlaceFits(types[n - 1], Reached(types, n - 1));
    }
  }

  lemma AllLocated(types: seq<CType>, a: seq<int>, s: Next)
    requires AreArgs(types) && Located(types, a, |types|, s)
    requires AllFit(types, a, |types|, s) && Disjoint(types, a, |types|)
    ensures s.ns >= 32 && (s.ns - 32) % 8 == 0 && s == Reached(types, |types|)
    ensures forall k :: 0 <= k < |types| ==> a[k] == StandardPlace(types[k], Reached(types, k)).code
    ensures forall k :: 0 <= k < |types| && !Misread(types[k], a[k]) ==> Fits(types[k], a[k], Next(8, 8, s.ns))
    ensures forall i, j :: 0 <= i < j < |types| && !Misread(types[i], a[i]) && !Misread(types[j], a[j]) ==>
      Apart(types[i], a[i], types[j], a[j]) && StaysSpilled(types[i], a[i], types[j], a[j])
  {
    hide StandardPlace, Fits, Apart, IsArg, StaysSpilled, Spilled, Reached, Misread;
    forall k | 0 <= k < |types| && !Misread(types[k], a[k]) ensures Fits(types[k], a[k], Next(8, 8, s.ns)) {
      FitsLater(types[k], a[k], s, Next(8, 8, s.ns));
    }
  }

  // ---- alignment on the stack ----

  /** A stacked argument starts at a multiple of its alignment. */
  lemma StackAligned(t: CType, s: Next)
    requires IsArg(t) && IsNext(s) && !ByPointer(t) && OnStack(Place(t, s).code)
    ensures IsMultiple(Place(t, s).code, ArgAlign(t))
  {
    hide Place, RoundUp, HfaCount, SizeOf, IsArg, IsAlign, IsMultiple, Registers, StackBytes, ArgSize, ArgAlign;
    Roundings(t, s);
    RegisterCount(t);
    if InVector(t) {
      VectorIs(t, s);
      VectorAlign(t);
      VectorStack(t, s.ns);
    } else {
      CoreIs(t, s);
      CoreAlign(t);
    }
    RoundUpAlign(s.ns, ArgAlign(t));
  }

  lemma VectorAlign(t: CType)
    requires IsArg(t) && InVector(t)
    ensures IsAlign(ArgAlign(t))
  {
    hide HfaCount;
  }

  lemma VectorStack(t: CType, ns: int)
    requires IsArg(t) && InVector(t) && ns % 8 == 0
    ensures HfaCount(t) == 0 && ArgSize(t) != 16 ==> RoundUp(ns, ArgAlign(t)) == ns
  {
    Eighth4(ns);
    hide HfaCount;
  }

  lemma CoreAlign(t: CType)
    requires IsArg(t) && !InVector(t) && !ByPointer(t)
    ensures IsAlign(ArgAlign(t)) || Registers(t) == 0
  {
    hide HfaCount;
  }

  // ---- empty structs ----

  /** The place of an empty struct reads as a vector register exactly when the general registers are used up. */
  lemma EmptyStruct(a: nat, s: Next)
    requires a > 0 && IsNext(s)
    ensures var t := Aggregate(Nil, 0, a);
      IsArg(t) && !InVector(t) && (InV(Place(t, s).code) <==> s.nx == 8 || (s.nx == 7 && a == 16))
  {
    var t := Aggregate(Nil, 0, a);
    EmptyRegisters(a);
    hide Place, Registers, IsArg, InVector;
    MisreadExact(t, s);
  }

  lemma EmptyRegisters(a: nat)
    requires a > 0
    ensures var t := Aggregate(Nil, 0, a);
      HfaCount(t) == 0 && IsArg(t) && !InVector(t) && Registers(t) == 0 && ArgAlign(t) == a
  {
    assert HfaAux(Aggregate(Nil, 0, a), 0, 0).num == 0;
  }

  const LONG := Scalar(8, 8)

  lemma LongTakes(s: Next)
    requires IsNext(s) && s.nx < 8
    ensures IsArg(LONG) && StandardPlace(LONG, s) == Placed(s.nx * 2, s.(nx := s.nx + 1))
  {}

  lemma {:induction false} LongsTake(types: seq<CType>, n: nat)
    requires AreArgs(types) && n <= 8 && n <= |types| && forall i :: 0 <= i < n ==> types[i] == LONG
    ensures Reached(types, n) == Next(n, 0, 32)
  {
    hide StandardPlace, IsArg;
    if n == 0 {
    } else {
      LongsTake(types, n - 1);
      LongTakes(Next(n - 1, 0, 32));
    }
  }

  /** After eight longs an empty struct gets the code of the first vector register, which the next double gets too. */
  lemma EmptyMisread()
    ensures var types := [LONG, LONG, LONG, LONG, LONG, LONG, LONG, LONG, Aggregate(Nil, 0, 1), Floating(8, 8)];
      AreArgs(types) && StandardPlace(types[8], Reached(types, 8)).code == 16 && !InVector(types[8])
      && StandardPlace(types[9], Reached(types, 9)).code == 16 && InVector(types[9])
  {
    var types := [LONG, LONG, LONG, LONG, LONG, LONG, LONG, LONG, Aggregate(Nil, 0, 1), Floating(8, 8)];
    EmptyRegisters(1);
    assert AreArgs(types);
    LongsTake(types, 8);
    EmptyPlace(Next(8, 0, 32));
    DoublePlace(Next(8, 0, 32));
    hide StandardPlace;
    assert Reached(types, 9) == StandardPlace(types[8], Reached(types, 8)).next;
  }

  lemma EmptyPlace(s: Next)
    requires IsNext(s) && s.nx == 8
    ensures IsArg(Aggregate(Nil, 0, 1)) && StandardPlace(Aggregate(Nil, 0, 1), s) == Placed(16, s)
  {
    EmptyRegisters(1);
  }

  lemma DoublePlace(s: Next)
    requires IsNext(s) && s.nv == 0
    ensures IsArg(Floating(8, 8)) && InVector(Floating(8, 8)) && StandardPlace(Floating(8, 8), s).code == 16
  {}

  // ---- every C type is covered ----

  predicate IsPower(a: nat) {
    a == 1 || (a > 1 && a % 2 == 0 && IsPower(a / 2))
  }

  /** A C type: arithmetic types of the usual sizes, and aggregates aligned to a power of two dividing their size. */
  predicate IsCType(t: CType) {
    match t
    case Floating(n, a) => (n == 4 || n == 8 || n == 16) && a == n
    case Scalar(n, a) => (n == 1 || n == 2 || n == 4 || n == 8 || n == 16) && a == n
    case Aggregate(fields, n, a) => a > 0 && IsPower(a) && n % a == 0 && AreCTypes(fields)
    case ArrayOf(elem, _) => IsCType(elem)
    case FuncType => true
  }

  predicate AreCTypes(fs: Fields) {
    fs.Nil? || (IsCType(fs.ty) && AreCTypes(fs.rest))
  }

  lemma SmallPower(a: nat)
    requires IsPower(a) && a <= 64
    ensures IsAlign(a)
  {
    if a > 1 {
      assert IsPower(a / 2);
      if a > 3 {
        assert IsPower(a / 2 / 2);
        if a > 7 {
          assert IsPower(a / 2 / 2 / 2);
          if a > 15 {
            assert IsPower(a / 2 / 2 / 2 / 2);
            if a > 31 { assert IsPower(a / 2 / 2 / 2 / 2 / 2); }
          }
        }
      }
    }
  }

  lemma Divisor(a: nat, n: nat)
    requires a > 0 && n > 0 && n % a == 0
    ensures a <= n
  {}

  predicate IsFloatSize(f: nat) { f == 0 || f == 4 || f == 8 || f == 16 }

  lemma {:induction false} AuxSize(t: CType, fsize: nat, num: int)
    requires IsCType(t) && IsFloatSize(fsize)
    ensures Sized(t) && IsFloatSize(HfaAux(t, fsize, num).fsize)
    decreases t, 0
  {
    hide Mul, HasOffset;
    match t
    case Aggregate(fields, _, _) =>
      StructSize(fields, fsize, num, num);
      UnionSize(fields, fsize, num, num);
    case ArrayOf(elem, _) => AuxSize(elem, fsize, num);
    case _ =>
  }

  lemma {:induction false} StructSize(fs: Fields, fsize: nat, num: int, num0: int)
    requires AreCTypes(fs) && IsFloatSize(fsize)
    ensures SizedFields(fs) && IsFloatSize(HfaStruct(fs, fsize, num, num0).fsize)
    decreases fs, 1
  {
    hide Mul;
    if fs.Nil? {
    } else {
      var r := HfaAux(fs.ty, fsize, num);
      AuxSize(fs.ty, fsize, num);
      StructSize(fs.rest, r.fsize, r.num, num0);
    }
  }

  lemma {:induction false} UnionSize(fs: Fields, fsize: nat, num: int, num0: int)
    requires AreCTypes(fs) && IsFloatSize(fsize)
    ensures IsFloatSize(HfaUnion(fs, fsize, num, num0).fsize)
    decreases fs, 1
  {
    if fs.Nil? {
    } else {
      var r := HfaAux(fs.ty, fsize, num0);
      AuxSize(fs.ty, fsize, num0);
      UnionSize(fs.rest, r.fsize, if r.num < num then num else r.num, num0);
    }
  }

  lemma AtMost64(n: nat, f: nat)
    requires n <= 4 && IsFloatSize(f)
    ensures Mul(n, f) <= 64
  {}

  /** So every C type is an argument type. */
  lemma CTypeIsArg(t: CType)
    requires IsCType(t)
    ensures IsArg(t)
  {
    if t.Aggregate? {
      AuxSize(t, 0, 0);
      if HfaCount(t) > 0 {
        HfaSound(t);
        AtMost64(HfaCount(t), HfaAux(t, 0, 0).fsize);
      }
      hide HfaAux, HfaCount, IsPower, Mul;
      if HfaCount(t) > 0 || 0 < t.size <= 16 {
        if t.size > 0 {
          Divisor(t.align, t.size);
          SmallPower(t.align);
        }
      }
    }
  }
}
