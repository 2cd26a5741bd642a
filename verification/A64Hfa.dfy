/** C types, and which of them are homogeneous floating-point aggregates on AArch64. */
module A64Hfa {
  import opened Values

  /**
    * C types as the back end sees them. A scalar is anything passed like an
    * integer; an aggregate lists its members in order, with their offsets.
    */
  datatype CType =
    | Floating(fsize: nat, falign: nat)
    | Scalar(ssize: nat, salign: nat)
    | Aggregate(fields: Fields, size: nat, align: nat)
    | ArrayOf(elem: CType, count: nat)
    | FuncType

  datatype Fields = Nil | Cons(offset: nat, ty: CType, rest: Fields)

  function Mul(a: int, b: int): int { a * b }

  // ---- homogeneous floating-point aggregates ----

  /** The number of members counted so far, or -1; and their common size, 0 while unknown. */
  datatype Hfa = Hfa(num: int, fsize: nat)

  /** Some member lies past the start: a struct rather than a union. */
  predicate HasOffset(fs: Fields) {
    fs.Cons? && (fs.offset != 0 || HasOffset(fs.rest))
  }

  function HfaAux(t: CType, fsize: nat, num: int): Hfa
    decreases t, 0
  {
    match t
    case Floating(n, _) => if num >= 4 || (fsize != 0 && fsize != n) then Hfa(-1, fsize) else Hfa(num + 1, n)
    case Aggregate(fields, size, _) =>
      var r := if HasOffset(fields) then HfaStruct(fields, fsize, num, num) else HfaUnion(fields, fsize, num, num);
      if r.num == -1 || size != Mul(r.num - num, r.fsize) then Hfa(-1, r.fsize) else r
    case ArrayOf(elem, count) =>
      if count == 0 then Hfa(num, fsize)
      else
        var r := HfaAux(elem, fsize, num);
        if r.num == -1 || (r.num != num && count > 4) || num + Mul(count, r.num - num) > 4 then Hfa(-1, r.fsize)
        else Hfa(num + Mul(count, r.num - num), r.fsize)
    case _ => Hfa(-1, fsize)
  }

  function HfaStruct(fs: Fields, fsize: nat, num: int, num0: int): Hfa
    decreases fs, 1
  {
    if fs.Nil? then Hfa(num, fsize)
    else if fs.offset != Mul(num - num0, fsize) then Hfa(-1, fsize)
    else
      var r := HfaAux(fs.ty, fsize, num);
      if r.num == -1 then r else HfaStruct(fs.rest, r.fsize, r.num, num0)
  }

  function HfaUnion(fs: Fields, fsize: nat, num: int, num0: int): Hfa
    decreases fs, 1
  {
    if fs.Nil? then Hfa(num, fsize)
    else
      var r := HfaAux(fs.ty, fsize, num0);
      if r.num == -1 then r else HfaUnion(fs.rest, r.fsize, if r.num < num then num else r.num, num0)
  }

  /** How many vector registers an aggregate takes; 0 when it is not homogeneous. */
  function HfaCount(t: CType): (n: nat)
    ensures n <= 4
  {
    if t.Aggregate? || t.ArrayOf? then
      var n := HfaAux(t, 0, 0).num;
      if 0 < n <= 4 then n else 0
    else 0
  }

  /** Floating types have a size. */
  predicate Sized(t: CType) {
    match t
    case Floating(n, _) => n > 0
    case Aggregate(fields, _, _) => SizedFields(fields)
    case ArrayOf(elem, _) => Sized(elem)
    case _ => true
  }

  predicate SizedFields(fs: Fields) {
    fs.Nil? || (Sized(fs.ty) && SizedFields(fs.rest))
  }

  function SizeOf(t: CType): int {
    match t
    case Floating(n, _) => n
    case Scalar(n, _) => n
    case Aggregate(_, n, _) => n
    case ArrayOf(elem, count) => Mul(count, SizeOf(elem))
    case FuncType => 0
  }

  /** Position o is one of n steps of f from lo. */
  ghost predicate OnGrid(o: int, lo: int, f: int, n: int) {
    exists j :: 0 <= j < n && o == Step(lo, j, f)
  }

  function Step(lo: int, j: int, f: int): int { lo + Mul(j, f) }

  /** At position o, t consists of floating members of size f alone, each in one of the n places from lo. */
  ghost predicate Homogeneous(t: CType, o: int, f: nat, lo: int, n: int)
    decreases t, 0
  {
    match t
    case Floating(m, _) => m == f && OnGrid(o, lo, f, n)
    case Aggregate(fields, _, _) => HomogeneousFields(fields, o, f, lo, n)
    case ArrayOf(elem, count) => forall i :: 0 <= i < count ==> Homogeneous(elem, Step(o, i, SizeOf(elem)), f, lo, n)
    case _ => false
  }

  ghost predicate HomogeneousFields(fs: Fields, o: int, f: nat, lo: int, n: int)
    decreases fs, 1
  {
    fs.Nil? || (Homogeneous(fs.ty, o + fs.offset, f, lo, n) && HomogeneousFields(fs.rest, o, f, lo, n))
  }

  /** The scan counts upwards and fixes the member size once. */
  ghost predicate Grows(fsize: nat, num: int, r: Hfa) {
    num <= r.num && (r.fsize == 0 ==> fsize == 0 && r.num == num) && (fsize != 0 ==> r.fsize == fsize)
  }

  lemma MulAdd(a: int, b: int, c: int)
    ensures Mul(a + b, c) == Mul(a, c) + Mul(b, c)
  {}

  lemma MulAssoc(a: int, b: int, c: int)
    ensures Mul(a, Mul(b, c)) == Mul(Mul(a, b), c)
  {
    assert a * (b * c) == (a * b) * c;
  }

  lemma MulNat(a: int, b: int)
    requires 0 <= a && 0 <= b
    ensures 0 <= Mul(a, b)
  {}

  lemma MulZero(a: int)
    ensures Mul(a, 0) == 0
  {}

  lemma MulSmall(f: int)
    ensures Mul(0, f) == 0 && Mul(1, f) == f
  {}

  lemma StepSum(lo: int, j: int, k: int, f: int)
    ensures Step(Step(lo, j, f), k, f) == Step(lo, j + k, f)
  {
    hide Mul;
    MulAdd(j, k, f);
  }

  lemma StepPart(o: int, i: int, d: int, f: int)
    ensures Step(o, i, Mul(d, f)) == Step(o, Mul(i, d), f)
  {
    hide Mul;
    MulAssoc(i, d, f);
  }

  lemma Within(i: int, count: int, d: int)
    requires 0 <= i < count && 0 <= d
    ensures Mul(i, d) + d <= Mul(count, d) && 0 <= Mul(i, d)
  {
    hide Mul;
    MulAdd(i + 1, count - i - 1, d);
    MulAdd(i, 1, d);
    MulSmall(d);
    MulNat(count - i - 1, d);
    MulNat(i, d);
  }

  lemma {:induction false} AuxSound(t: CType, fsize: nat, num: int, f: nat, lo: int, k: int, n: int)
    requires Sized(t) && HfaAux(t, fsize, num).num != -1 && 0 <= num && 0 <= k
    requires HfaAux(t, fsize, num).fsize != 0 ==> f == HfaAux(t, fsize, num).fsize
    requires k + (HfaAux(t, fsize, num).num - num) <= n
    ensures Grows(fsize, num, HfaAux(t, fsize, num))
    ensures SizeOf(t) == Mul(HfaAux(t, fsize, num).num - num, f)
    ensures Homogeneous(t, Step(lo, k, f), f, lo, n)
    decreases t, 0
  {
    hide Mul, HfaStruct, HfaUnion, HomogeneousFields, SizedFields, HasOffset;
    match t
    case Floating(m, _) =>
      MulSmall(f);
      assert 0 <= k < n && Step(lo, k, f) == Step(lo, k, f);
    case Aggregate(fields, size, _) =>
      var r := HfaAux(t, fsize, num);
      if HasOffset(fields) {
        StructSound(fields, fsize, num, num, f, lo, k, n);
      } else {
        UnionSound(fields, fsize, num, num, f, lo, k, n);
      }
      MulSmall(f);
      MulSmall(r.fsize);
    case ArrayOf(elem, count) =>
      if count > 0 {
        ArraySound(t, fsize, num, f, lo, k, n);
      } else {
        MulSmall(f);
        MulSmall(SizeOf(elem));
      }
    case _ =>
  }

  lemma {:induction false} ArraySound(t: CType, fsize: nat, num: int, f: nat, lo: int, k: int, n: int)
    requires Sized(t) && t.ArrayOf? && t.count > 0 && HfaAux(t, fsize, num).num != -1 && 0 <= num && 0 <= k
    requires HfaAux(t, fsize, num).fsize != 0 ==> f == HfaAux(t, fsize, num).fsize
    requires k + (HfaAux(t, fsize, num).num - num) <= n
    ensures Grows(fsize, num, HfaAux(t, fsize, num))
    ensures SizeOf(t) == Mul(HfaAux(t, fsize, num).num - num, f)
    ensures Homogeneous(t, Step(lo, k, f), f, lo, n)
    decreases t.elem, 2
  {
    hide Mul, HfaAux, Homogeneous, Sized, Step;
    ArrayAux(t, fsize, num);
    var e := HfaAux(t.elem, fsize, num);
    var d := e.num - num;
    AuxGrows(t.elem, fsize, num);
    AuxSound(t.elem, fsize, num, f, lo, 0, d);
    MulAssoc(t.count, d, f);
    Within(t.count - 1, t.count, d);
    MulZero(t.count);
    forall i | 0 <= i < t.count
      ensures Homogeneous(t.elem, Step(Step(lo, k, f), i, SizeOf(t.elem)), f, lo, n)
    {
      Within(i, t.count, d);
      StepPart(Step(lo, k, f), i, d, f);
      StepSum(lo, k, Mul(i, d), f);
      AuxSound(t.elem, fsize, num, f, lo, k + Mul(i, d), n);
    }
    AllElements(t, Step(lo, k, f), f, lo, n);
  }

  lemma ArrayAux(t: CType, fsize: nat, num: int)
    requires Sized(t) && t.ArrayOf? && t.count > 0 && HfaAux(t, fsize, num).num != -1
    ensures var e := HfaAux(t.elem, fsize, num);
      Sized(t.elem) && e.num != -1 && HfaAux(t, fsize, num) == Hfa(num + Mul(t.count, e.num - num), e.fsize)
  {
    hide Mul;
  }

  lemma AllElements(t: CType, o: int, f: nat, lo: int, n: int)
    requires t.ArrayOf? && forall i :: 0 <= i < t.count ==> Homogeneous(t.elem, Step(o, i, SizeOf(t.elem)), f, lo, n)
    ensures Homogeneous(t, o, f, lo, n)
  {
    hide Step;
  }

  lemma {:induction false} StructSound(fs: Fields, fsize: nat, num: int, num0: int, f: nat, lo: int, k: int, n: int)
    requires SizedFields(fs) && HfaStruct(fs, fsize, num, num0).num != -1 && 0 <= num0 <= num && 0 <= k
    requires fsize == 0 ==> num == num0
    requires HfaStruct(fs, fsize, num, num0).fsize != 0 ==> f == HfaStruct(fs, fsize, num, num0).fsize
    requires k + (HfaStruct(fs, fsize, num, num0).num - num0) <= n
    ensures Grows(fsize, num, HfaStruct(fs, fsize, num, num0))
    ensures HomogeneousFields(fs, Step(lo, k, f), f, lo, n)
    decreases fs, 1
  {
    if fs.Nil? {
    } else {
      hide Mul, HfaAux, HfaStruct, Homogeneous, HomogeneousFields, Sized, SizedFields, Step;
      StructCons(fs, fsize, num, num0);
      var r := HfaAux(fs.ty, fsize, num);
      AuxGrows(fs.ty, fsize, num);
      StructGrows(fs.rest, r.fsize, r.num, num0);
      StructSound(fs.rest, r.fsize, r.num, num0, f, lo, k, n);
      AuxSound(fs.ty, fsize, num, f, lo, k + (num - num0), n);
      StepSum(lo, k, num - num0, f);
      SameStep(Step(lo, k, f), num - num0, fsize, f);
      FieldsCons(fs, Step(lo, k, f), f, lo, n);
    }
  }

  lemma StructCons(fs: Fields, fsize: nat, num: int, num0: int)
    requires SizedFields(fs) && fs.Cons? && HfaStruct(fs, fsize, num, num0).num != -1
    ensures var r := HfaAux(fs.ty, fsize, num);
      Sized(fs.ty) && SizedFields(fs.rest) && fs.offset == Mul(num - num0, fsize) && r.num != -1
      && HfaStruct(fs, fsize, num, num0) == HfaStruct(fs.rest, r.fsize, r.num, num0)
  {
    hide HfaAux, Mul;
  }

  lemma SameStep(o: int, d: int, fsize: nat, f: nat)
    requires (fsize == 0 ==> d == 0) && (fsize != 0 ==> f == fsize)
    ensures o + Mul(d, fsize) == Step(o, d, f)
  {
    MulSmall(f);
    MulSmall(fsize);
  }

  lemma FieldsCons(fs: Fields, o: int, f: nat, lo: int, n: int)
    requires fs.Cons? && Homogeneous(fs.ty, o + fs.offset, f, lo, n) && HomogeneousFields(fs.rest, o, f, lo, n)
    ensures HomogeneousFields(fs, o, f, lo, n)
  {
    hide Homogeneous;
  }

  lemma {:induction false} UnionSound(fs: Fields, fsize: nat, num: int, num0: int, f: nat, lo: int, k: int, n: int)
    requires SizedFields(fs) && HfaUnion(fs, fsize, num, num0).num != -1 && 0 <= num0 <= num && 0 <= k && !HasOffset(fs)
    requires fsize == 0 ==> num == num0
    requires HfaUnion(fs, fsize, num, num0).fsize != 0 ==> f == HfaUnion(fs, fsize, num, num0).fsize
    requires k + (HfaUnion(fs, fsize, num, num0).num - num0) <= n
    ensures Grows(fsize, num, HfaUnion(fs, fsize, num, num0))
    ensures HomogeneousFields(fs, Step(lo, k, f), f, lo, n)
    decreases fs, 1
  {
    hide Mul;
    if fs.Nil? {
    } else {
      var r := HfaAux(fs.ty, fsize, num0);
      AuxGrows(fs.ty, fsize, num0);
      var m := if r.num < num then num else r.num;
      UnionGrows(fs.rest, r.fsize, m, num0);
      UnionSound(fs.rest, r.fsize, m, num0, f, lo, k, n);
      AuxSound(fs.ty, fsize, num0, f, lo, k, n);
    }
  }

  lemma {:induction false} AuxGrows(t: CType, fsize: nat, num: int)
    requires Sized(t) && HfaAux(t, fsize, num).num != -1 && 0 <= num
    ensures Grows(fsize, num, HfaAux(t, fsize, num))
    decreases t, 0
  {
    hide Mul;
    match t
    case Aggregate(fields, size, _) =>
      if HasOffset(fields) { StructGrows(fields, fsize, num, num); } else { UnionGrows(fields, fsize, num, num); }
    case ArrayOf(elem, count) =>
      if count > 0 {
        AuxGrows(elem, fsize, num);
        MulNat(count, HfaAux(elem, fsize, num).num - num);
        MulZero(count);
      }
    case _ =>
  }

  lemma {:induction false} StructGrows(fs: Fields, fsize: nat, num: int, num0: int)
    requires SizedFields(fs) && HfaStruct(fs, fsize, num, num0).num != -1 && 0 <= num0 <= num
    ensures Grows(fsize, num, HfaStruct(fs, fsize, num, num0))
    decreases fs, 1
  {
    if fs.Nil? {
    } else {
      var r := HfaAux(fs.ty, fsize, num);
      AuxGrows(fs.ty, fsize, num);
      StructGrows(fs.rest, r.fsize, r.num, num0);
    }
  }

  lemma {:induction false} UnionGrows(fs: Fields, fsize: nat, num: int, num0: int)
    requires SizedFields(fs) && HfaUnion(fs, fsize, num, num0).num != -1 && 0 <= num0 <= num
      && (fsize == 0 ==> num == num0)
    ensures Grows(fsize, num, HfaUnion(fs, fsize, num, num0))
    decreases fs, 1
  {
    if fs.Nil? {
    } else {
      var r := HfaAux(fs.ty, fsize, num0);
      AuxGrows(fs.ty, fsize, num0);
      UnionGrows(fs.rest, r.fsize, if r.num < num then num else r.num, num0);
    }
  }

  /** What arm64_hfa accepts really is one to four floating members of one size that fill the type. */
  lemma HfaSound(t: CType)
    requires Sized(t) && HfaCount(t) > 0
    ensures var f := HfaAux(t, 0, 0).fsize;
      f > 0 && SizeOf(t) == Mul(HfaCount(t), f) && Homogeneous(t, 0, f, 0, HfaCount(t))
  {
    var r := HfaAux(t, 0, 0);
    AuxGrows(t, 0, 0);
    AuxSound(t, 0, 0, r.fsize, 0, 0, r.num);
    MulSmall(r.fsize);
    assert Step(0, 0, r.fsize) == 0;
  }

  // ---- which types are counted ----

  /** How many members of size f lie end to end in t and fill it; None if it is not made of them. */
  function Members(t: CType, f: nat): Option<nat>
    decreases t, 0
  {
    match t
    case Floating(n, _) => if n == f then Some(1) else None
    case Aggregate(fields, size, _) =>
      var r := if HasOffset(fields) then InTurn(fields, f, 0) else Overlaid(fields, f, 0);
      if r.Some? && size == Mul(r.value, f) then r else None
    case ArrayOf(elem, count) =>
      if count == 0 then Some(0)
      else
        var r := Members(elem, f);
        if r.Some? then Some(Times(count, r.value)) else None
    case _ => None
  }

  function Times(a: nat, b: nat): nat { MulNat(a, b); Mul(a, b) }

  /** The fields of a struct, each starting where the n members before it end. */
  function InTurn(fs: Fields, f: nat, n: nat): Option<nat>
    decreases fs, 1
  {
    if fs.Nil? then Some(n)
    else
      var r := Members(fs.ty, f);
      if fs.offset == Mul(n, f) && r.Some? then InTurn(fs.rest, f, n + r.value) else None
  }

  /** The fields of a union: the one with the most members. */
  function Overlaid(fs: Fields, f: nat, n: nat): Option<nat>
    decreases fs, 1
  {
    if fs.Nil? then Some(n)
    else
      var r := Members(fs.ty, f);
      if r.Some? then Overlaid(fs.rest, f, if r.value < n then n else r.value) else None
  }

  /** The member size the scan has fixed, if any, is f. */
  predicate Agrees(fsize: nat, f: nat) { fsize == 0 || fsize == f }

  function Fixed(fsize: nat, f: nat, n: nat): nat { if n > 0 then f else fsize }

  lemma {:induction false} InTurnGrows(fs: Fields, f: nat, n: nat)
    requires InTurn(fs, f, n).Some?
    ensures n <= InTurn(fs, f, n).value
    decreases fs
  {
    hide Members, Mul;
    if fs.Nil? {
    } else {
      InTurnGrows(fs.rest, f, n + Members(fs.ty, f).value);
    }
  }

  lemma {:induction false} OverlaidGrows(fs: Fields, f: nat, n: nat)
    requires Overlaid(fs, f, n).Some?
    ensures n <= Overlaid(fs, f, n).value
    ensures fs.Cons? ==> Members(fs.ty, f).Some? && Members(fs.ty, f).value <= Overlaid(fs, f, n).value
    decreases fs
  {
    hide Members;
    if fs.Nil? {
    } else {
      OverlaidGrows(fs.rest, f, if Members(fs.ty, f).value < n then n else Members(fs.ty, f).value);
    }
  }

  lemma MulFixed(n: nat, fsize: nat, f: nat)
    requires n > 0 ==> fsize == f
    ensures Mul(n, fsize) == Mul(n, f)
  {
    MulSmall(f);
    MulSmall(fsize);
  }

  /** A type with d members is counted as d, wherever the scan meets it. */
  lemma {:induction false} AuxComplete(t: CType, fsize: nat, num: nat, f: nat)
    requires f > 0 && Agrees(fsize, f) && Members(t, f).Some? && num + Members(t, f).value <= 4
    ensures var d := Members(t, f).value; HfaAux(t, fsize, num) == Hfa(num + d, Fixed(fsize, f, d))
    decreases t, 0
  {
    hide Mul, HfaStruct, HfaUnion, InTurn, Overlaid;
    match t
    case Floating(_, _) =>
    case Aggregate(fields, _, _) =>
      var d := Members(t, f).value;
      if HasOffset(fields) {
        StructComplete(fields, fsize, num, 0, f);
      } else {
        UnionComplete(fields, fsize, num, 0, f);
      }
      MulFixed(d, Fixed(fsize, f, d), f);
    case ArrayOf(elem, count) => ArrayComplete(t, fsize, num, f);
    case _ =>
  }

  lemma {:induction false} ArrayComplete(t: CType, fsize: nat, num: nat, f: nat)
    requires t.ArrayOf? && f > 0 && Agrees(fsize, f) && Members(t, f).Some? && num + Members(t, f).value <= 4
    ensures var d := Members(t, f).value; HfaAux(t, fsize, num) == Hfa(num + d, Fixed(fsize, f, d))
    decreases t.elem, 2
  {
    hide Mul;
    if t.count == 0 {
    } else {
      var d := Members(t.elem, f).value;
      ManyTimes(t.count, d);
      AuxComplete(t.elem, fsize, num, f);
    }
  }

  lemma ManyTimes(a: nat, b: nat)
    requires a > 0
    ensures b <= Mul(a, b) && (b > 0 ==> a <= Mul(a, b)) && (b == 0 ==> Mul(a, b) == 0)
  {
    hide Mul;
    MulAdd(a - 1, 1, b);
    MulSmall(b);
    MulNat(a - 1, b);
    MulZero(a);
    if b > 0 {
      MulTurn(a, b);
      MulAdd(b - 1, 1, a);
      MulSmall(a);
      MulNat(b - 1, a);
    }
  }

  lemma MulTurn(a: int, b: int)
    ensures Mul(a, b) == Mul(b, a)
  {}

  lemma {:induction false} StructComplete(fs: Fields, fsize: nat, num0: nat, n: nat, f: nat)
    requires f > 0 && Agrees(fsize, f) && (n > 0 ==> fsize == f) && InTurn(fs, f, n).Some?
      && num0 + InTurn(fs, f, n).value <= 4
    ensures var m := InTurn(fs, f, n).value; HfaStruct(fs, fsize, num0 + n, num0) == Hfa(num0 + m, Fixed(fsize, f, m))
    decreases fs, 1
  {
    hide Mul, Members, HfaAux;
    if fs.Nil? {
    } else {
      var d := Members(fs.ty, f).value;
      InTurnGrows(fs.rest, f, n + d);
      MulFixed(n, fsize, f);
      AuxComplete(fs.ty, fsize, num0 + n, f);
      StructComplete(fs.rest, Fixed(fsize, f, d), num0, n + d, f);
    }
  }

  lemma {:induction false} UnionComplete(fs: Fields, fsize: nat, num0: nat, n: nat, f: nat)
    requires f > 0 && Agrees(fsize, f) && (n > 0 ==> fsize == f) && Overlaid(fs, f, n).Some?
      && num0 + Overlaid(fs, f, n).value <= 4
    ensures var m := Overlaid(fs, f, n).value; HfaUnion(fs, fsize, num0 + n, num0) == Hfa(num0 + m, Fixed(fsize, f, m))
    decreases fs, 1
  {
    hide Mul, Members, HfaAux;
    if fs.Nil? {
    } else {
      var d := Members(fs.ty, f).value;
      OverlaidGrows(fs, f, n);
      AuxComplete(fs.ty, fsize, num0, f);
      UnionComplete(fs.rest, Fixed(fsize, f, d), num0, if d < n then n else d, f);
    }
  }

  /** Whatever the scan counts are members of the size it found. */
  lemma {:induction false} AuxMembers(t: CType, fsize: nat, num: nat, f: nat)
    requires Sized(t) && HfaAux(t, fsize, num).num != -1 && Agrees(HfaAux(t, fsize, num).fsize, f)
    ensures num <= HfaAux(t, fsize, num).num && Members(t, f) == Some(HfaAux(t, fsize, num).num - num)
    decreases t, 0
  {
    hide Mul, HfaStruct, HfaUnion, InTurn, Overlaid, SizedFields;
    var r := HfaAux(t, fsize, num);
    AuxGrows(t, fsize, num);
    match t
    case Floating(_, _) =>
    case Aggregate(fields, _, _) =>
      if HasOffset(fields) { StructMembers(fields, fsize, num, 0, f); } else { UnionMembers(fields, fsize, num, 0, f); }
      MulFixed(r.num - num, r.fsize, f);
    case ArrayOf(elem, count) =>
      if count > 0 { ArrayAux(t, fsize, num); AuxMembers(elem, fsize, num, f); }
    case _ =>
  }

  lemma {:induction false} StructMembers(fs: Fields, fsize: nat, num0: nat, n: nat, f: nat)
    requires SizedFields(fs) && HfaStruct(fs, fsize, num0 + n, num0).num != -1 && (fsize == 0 ==> n == 0)
    requires Agrees(HfaStruct(fs, fsize, num0 + n, num0).fsize, f)
    ensures num0 <= HfaStruct(fs, fsize, num0 + n, num0).num
    ensures InTurn(fs, f, n) == Some(HfaStruct(fs, fsize, num0 + n, num0).num - num0)
    decreases fs, 1
  {
    hide Mul, Members, HfaAux, Sized;
    if fs.Nil? {
    } else {
      StructCons(fs, fsize, num0 + n, num0);
      var r := HfaAux(fs.ty, fsize, num0 + n);
      AuxGrows(fs.ty, fsize, num0 + n);
      StructGrows(fs, fsize, num0 + n, num0);
      StructGrows(fs.rest, r.fsize, r.num, num0);
      MulFixed(n, fsize, f);
      AuxMembers(fs.ty, fsize, num0 + n, f);
      StructMembers(fs.rest, r.fsize, num0, r.num - num0, f);
    }
  }

  lemma {:induction false} UnionMembers(fs: Fields, fsize: nat, num0: nat, n: nat, f: nat)
    requires SizedFields(fs) && HfaUnion(fs, fsize, num0 + n, num0).num != -1 && (fsize == 0 ==> n == 0)
    requires Agrees(HfaUnion(fs, fsize, num0 + n, num0).fsize, f)
    ensures num0 <= HfaUnion(fs, fsize, num0 + n, num0).num
    ensures Overlaid(fs, f, n) == Some(HfaUnion(fs, fsize, num0 + n, num0).num - num0)
    decreases fs, 1
  {
    hide Mul, Members, HfaAux;
    if fs.Nil? {
    } else {
      var r := HfaAux(fs.ty, fsize, num0);
      AuxGrows(fs.ty, fsize, num0);
      var m := if r.num < num0 + n then num0 + n else r.num;
      UnionGrows(fs.rest, r.fsize, m, num0);
      AuxMembers(fs.ty, fsize, num0, f);
      UnionMembers(fs.rest, r.fsize, num0, m - num0, f);
    }
  }

  /** An aggregate counts as n exactly when it is made of n members of one size, one to four of them. */
  lemma HfaExact(t: CType, n: nat)
    requires Sized(t) && (t.Aggregate? || t.ArrayOf?) && n > 0
    ensures HfaCount(t) == n <==> n <= 4 && exists f: nat :: f > 0 && Members(t, f) == Some(n)
  {
    hide HfaAux, Members, Sized;
    var r := HfaAux(t, 0, 0);
    if HfaCount(t) == n {
      AuxGrows(t, 0, 0);
      AuxMembers(t, 0, 0, r.fsize);
    }
    if f: nat :| f > 0 && n <= 4 && Members(t, f) == Some(n) {
      AuxComplete(t, 0, 0, f);
    }
  }

  const SINGLE := Floating(4, 4)

  const PAIR := ArrayOf(SINGLE, 2)

  const PADDED := Aggregate(Cons(0, SINGLE, Nil), 8, 8)

  lemma SingleMember(i: nat)
    requires i < 2
    ensures Homogeneous(SINGLE, Step(0, i, SizeOf(SINGLE)), 4, 0, 2)
  {
    assert Step(0, i, 4) == Step(0, i, SizeOf(SINGLE));
  }

  lemma PairMembers()
    ensures Homogeneous(PAIR, 0, 4, 0, 2) && SizeOf(PAIR) == 8
  {
    assert SizeOf(PAIR) == Mul(2, SizeOf(SINGLE));
    hide Homogeneous, Mul, Step;
    forall i | 0 <= i < 2 ensures Homogeneous(SINGLE, Step(0, i, SizeOf(SINGLE)), 4, 0, 2) { SingleMember(i); }
    AllElements(PAIR, 0, 4, 0, 2);
  }

  lemma PaddedMembers()
    ensures Homogeneous(PADDED, 0, 4, 0, 2)
  {
    SingleMember(0);
    assert Step(0, 0, SizeOf(SINGLE)) == 0;
    hide Mul, Step;
    FieldsCons(Cons(0, SINGLE, Nil), 0, 4, 0, 2);
  }

  /** Members of one size in every place are not enough: in this union they are, but its first part is padded. */
  lemma PaddedUnion()
    ensures var t := Aggregate(Cons(0, PADDED, Cons(0, PAIR, Nil)), 8, 8);
      Homogeneous(t, 0, 4, 0, 2) && SizeOf(t) == Mul(2, 4) && HfaCount(t) == 0
  {
    PairMembers();
    PaddedMembers();
    var last := Cons(0, PAIR, Nil);
    FieldsCons(last, 0, 4, 0, 2);
    FieldsCons(Cons(0, PADDED, last), 0, 4, 0, 2);
    PaddedRejected(last);
  }

  lemma PaddedRejected(rest: Fields)
    ensures HfaAux(PADDED, 0, 0).num == -1 && HfaUnion(Cons(0, PADDED, rest), 0, 0, 0).num == -1
  {
    assert HfaAux(SINGLE, 0, 0) == Hfa(1, 4);
    assert HfaUnion(Nil, 4, 1, 0) == Hfa(1, 4);
  }
}
