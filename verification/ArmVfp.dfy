/**
  * Which VFP registers carry floating-point arguments on ARM (section 6.1.2 of
  * the AAPCS, Arm IHI 0042): in sequence, except that a single float may fill a
  * register skipped to align a double.
  */
module ArmVfp {
  /** A candidate: its alignment and size in bytes, as rounded by the caller. */
  datatype Arg = Arg(align: int, size: int)

  predicate IsCandidate(a: Arg) {
    (a.align == 4 || a.align == 8) && a.size > 0 && a.size % a.align == 0
  }

  function Count(a: Arg): int { a.size / 4 }

  /** Register r can start the argument: aligned, inside s0 to s15, all free. */
  ghost predicate IsPlace(used: set<int>, a: Arg, r: int) {
    0 <= r && r + Count(a) <= 16 && (a.align == 8 ==> r % 2 == 0) && forall k :: r <= k < r + Count(a) ==> k !in used
  }

  /** The standard's rule: the lowest-numbered place, or -1 when there is none. */
  ghost predicate IsLowest(used: set<int>, a: Arg, r: int) {
    if r == -1 then forall q :: !IsPlace(used, a, q)
    else IsPlace(used, a, r) && forall q :: q < r ==> !IsPlace(used, a, q)
  }

  predicate InSpan(k: int, r: int, n: int) { r <= k < r + n }

  function Span(r: int, n: int): set<int> {
    set k | r <= k < r + n && InSpan(k, r, n)
  }

  class AvailRegs {
    var avail: seq<int>
    var firstHole: nat
    var firstFree: int
    ghost var used: set<int>

    /** Until a spill, what is free is the tail from firstFree and the holes not yet filled. */
    ghost predicate Valid()
      reads this
    {
      firstHole <= |avail|
      && (firstFree == -1
          || (0 <= firstFree <= 16 && HolesBelow(avail, firstFree) && Exact(used, avail[firstHole..], firstFree)))
    }

    constructor ()
      ensures Valid() && used == {} && firstFree == 0 && avail == []
    {
      avail, firstHole, firstFree, used := [], 0, 0, {};
    }

    /** Assigns the lowest place there is; after the first failure, none. */
    method Assign(a: Arg) returns (r: int)
      requires Valid() && IsCandidate(a)
      modifies this
      ensures Valid()
      ensures if old(firstFree) == -1 then r == -1 else IsLowest(old(used), a, r)
      ensures used == if r == -1 then old(used) else old(used) + Span(r, Count(a))
      ensures firstFree == -1 <==> r == -1
      ensures Bank(avail, firstHole, firstFree) == After(old(Bank(avail, firstHole, firstFree)), a)
    {
      hide IsLowest, IsPlace, Exact, HolesBelow, Span;
      r := -1;
      if firstFree != -1 {
        var reg := firstFree;
        ghost var holes := avail[firstHole..];
        if a.align / 8 == 0 && a.size == 4 && firstHole != |avail| {
          r := avail[firstHole];
          FillHole(used, avail, firstHole, firstFree, a);
          firstHole := firstHole + 1;
          used := used + Span(r, Count(a));
        } else {
          if a.align / 8 != 0 {
            TakeAligned(used, avail, firstHole, firstFree, a);
            assert avail + [] == avail && holes + [] == holes;
            if reg % 2 == 1 {
              assert (avail + [reg])[firstHole..] == holes + [reg];
              avail := avail + [reg];
              reg := reg + 1;
            }
          } else {
            TakeNext(used, avail, firstHole, firstFree, a);
          }
          if reg + a.size / 4 <= 16 {
            firstFree := reg + a.size / 4;
            used := used + Span(reg, Count(a));
            r := reg;
          } else {
            firstFree := -1;
          }
        }
      }
    }
  }

  /** Holes are odd registers, four or more apart, each followed by a register in use. */
  predicate HolesBelow(holes: seq<int>, free: int) {
    (forall i :: 0 <= i < |holes| ==> holes[i] % 2 == 1 && 0 < holes[i] && holes[i] + 2 < free)
    && forall i, j :: 0 <= i < j < |holes| ==> holes[i] + 4 <= holes[j]
  }

  ghost predicate Exact(used: set<int>, holes: seq<int>, free: int) {
    forall k :: k in used <==> 0 <= k < free && k !in holes
  }

  lemma SpanIs(r: int, n: int, k: int)
    ensures k in Span(r, n) <==> r <= k < r + n
  {
    assert InSpan(k, r, n) <==> r <= k < r + n;
  }

  /** A single float takes the oldest hole, which is the lowest free register. */
  lemma FillHole(used: set<int>, avail: seq<int>, first: nat, free: int, a: Arg)
    requires first < |avail| && 0 <= free <= 16 && HolesBelow(avail, free) && Exact(used, avail[first..], free)
    requires a == Arg(4, 4)
    ensures IsLowest(used, a, avail[first]) && avail[first] >= 0
    ensures Exact(used + Span(avail[first], Count(a)), avail[first + 1..], free)
  {
    var h := avail[first];
    var holes := avail[first..];
    assert holes[0] == h && h in holes;
    assert avail[first + 1..] == holes[1..];
    forall q | q < h ensures !IsPlace(used, a, q) {
      if 0 <= q {
        assert q !in holes;
        assert q in used && q <= q < q + Count(a);
      }
    }
    forall k ensures k in used + Span(h, 1) <==> 0 <= k < free && k !in holes[1..] {
      SpanIs(h, 1, k);
      if k in holes && k != h { var i :| 0 <= i < |holes| && holes[i] == k; assert holes[1..][i - 1] == k; }
      if k == h { assert forall i :: 0 <= i < |holes[1..]| ==> holes[1..][i] == avail[first + 1 + i]; }
    }
  }

  /** Below firstFree no two neighbouring registers are free, and no even one. */
  lemma NoRoomBelow(used: set<int>, avail: seq<int>, first: nat, free: int, q: int)
    requires first <= |avail| && HolesBelow(avail, free) && Exact(used, avail[first..], free) && 0 <= q < free
    ensures q % 2 == 0 ==> q in used
    ensures q in used || (q + 1 < free && q + 1 in used)
    ensures avail[first..] == [] ==> q in used
  {
    var holes := avail[first..];
    forall k | k in holes ensures k % 2 == 1 && k + 2 < free {
      var i :| 0 <= i < |holes| && holes[i] == k;
      assert avail[first + i] == k;
    }
  }

  lemma TailFree(used: set<int>, holes: seq<int>, free: int, r: int, a: Arg)
    requires Exact(used, holes, free) && free <= r && IsCandidate(a) && 0 <= free && r + Count(a) <= 16
      && (a.align == 8 ==> r % 2 == 0)
    ensures IsPlace(used, a, r)
  {}

  lemma TakeNext(used: set<int>, avail: seq<int>, first: nat, free: int, a: Arg)
    requires first <= |avail| && 0 <= free <= 16 && HolesBelow(avail, free) && Exact(used, avail[first..], free)
    requires IsCandidate(a) && a.align == 4 && (a.size != 4 || first == |avail|)
    ensures IsLowest(used, a, if free + Count(a) <= 16 then free else -1)
    ensures HolesBelow(avail, free + Count(a)) && Exact(used + Span(free, Count(a)), avail[first..], free + Count(a))
  {
    var holes := avail[first..];
    forall q | q < free ensures !IsPlace(used, a, q) {
      if 0 <= q { NoRoomBelow(used, avail, first, free, q); }
    }
    if free + Count(a) <= 16 { TailFree(used, holes, free, free, a); }
    TailTaken(used, avail, first, free, free, Count(a));
  }

  lemma TakeAligned(used: set<int>, avail: seq<int>, first: nat, free: int, a: Arg)
    requires first <= |avail| && 0 <= free <= 16 && HolesBelow(avail, free) && Exact(used, avail[first..], free)
    requires IsCandidate(a) && a.align == 8
    ensures var r := free + free % 2;
      var more := if free % 2 == 1 then [free] else [];
      IsLowest(used, a, if r + Count(a) <= 16 then r else -1)
      && HolesBelow(avail + more, r + Count(a)) && Exact(used + Span(r, Count(a)), avail[first..] + more, r + Count(a))
  {
    var holes := avail[first..];
    var r := free + free % 2;
    forall q | q < r ensures !IsPlace(used, a, q) {
      if 0 <= q < free { NoRoomBelow(used, avail, first, free, q); }
    }
    if r + Count(a) <= 16 { TailFree(used, holes, free, r, a); }
    if free % 2 == 0 {
      TailTaken(used, avail, first, free, free, Count(a));
      assert holes + [] == holes && avail + [] == avail;
    } else {
      TailTaken(used, avail, first, free, r, Count(a));
      HoleAdded(avail, free, Count(a));
      forall k ensures k in used + Span(r, Count(a)) <==> 0 <= k < r + Count(a) && k !in holes + [free] {
        SpanIs(r, Count(a), k);
        assert k in holes + [free] <==> k in holes || k == free;
        if k in holes { var i :| 0 <= i < |holes| && holes[i] == k; assert avail[first + i] == k; }
      }
    }
  }

  lemma HoleAdded(avail: seq<int>, free: int, n: int)
    requires HolesBelow(avail, free) && free % 2 == 1 && 0 < free && n >= 2
    ensures HolesBelow(avail + [free], free + 1 + n)
  {
    var h := avail + [free];
    forall i, j | 0 <= i < j < |h| ensures h[i] + 4 <= h[j] {
      if j == |avail| { assert avail[i] % 2 == 1 && avail[i] + 2 < free; }
    }
  }

  lemma TailTaken(used: set<int>, avail: seq<int>, first: nat, free: int, r: int, n: int)
    requires first <= |avail| && HolesBelow(avail, free) && Exact(used, avail[first..], free) && 0 <= free <= r && n > 0
    ensures HolesBelow(avail, r + n)
    ensures r == free ==> Exact(used + Span(r, n), avail[first..], r + n)
  {
    if r == free {
      var holes := avail[first..];
      forall k ensures k in used + Span(r, n) <==> 0 <= k < r + n && k !in holes {
        SpanIs(r, n, k);
        if k in holes { var i :| 0 <= i < |holes| && holes[i] == k; assert avail[first + i] == k; }
      }
    }
  }

  // ---- whole argument lists ----

  ghost predicate Fits(a: Arg, r: int) {
    0 <= r && r + Count(a) <= 16 && (a.align == 8 ==> r % 2 == 0)
  }

  predicate Apart(r: int, a: Arg, r': int, a': Arg) {
    r + Count(a) <= r' || r' + Count(a') <= r
  }

  /** The registers that the first arguments occupy. */
  ghost function Taken(args: seq<Arg>, rs: seq<int>): set<int>
    requires |rs| <= |args|
  {
    if rs == [] then {}
    else
      var n := |rs| - 1;
      Taken(args, rs[..n]) + if rs[n] == -1 then {} else Span(rs[n], Count(args[n]))
  }

  /** Argument i has the lowest place that those before it leave, unless one of them went to the stack. */
  ghost predicate InSequence(args: seq<Arg>, rs: seq<int>, i: int)
    requires 0 <= i < |rs| <= |args|
  {
    if i > 0 && rs[i - 1] == -1 then rs[i] == -1 else IsLowest(Taken(args, rs[..i]), args[i], rs[i])
  }

  /** The VFP part of assign_regs: the arguments in order, each with its register or -1. */
  method AssignAll(args: seq<Arg>) returns (rs: seq<int>)
    requires forall i :: 0 <= i < |args| ==> IsCandidate(args[i])
    ensures |rs| == |args| && forall i :: 0 <= i < |rs| ==> InSequence(args, rs, i)
    ensures forall i :: 0 <= i < |args| ==> rs[i] == -1 || Fits(args[i], rs[i])
    ensures forall i, j :: 0 <= i < j < |args| && rs[i] != -1 && rs[j] != -1 ==> Apart(rs[i], args[i], rs[j], args[j])
    ensures forall i, j :: 0 <= i < j < |args| && rs[i] == -1 ==> rs[j] == -1
  {
    hide InSequence, Taken, IsLowest;
    var regs := new AvailRegs();
    rs := [];
    TakenNone(args);
    while |rs| < |args|
      invariant |rs| <= |args| && regs.Valid() && fresh(regs) && regs.used == Taken(args, rs)
      invariant forall i :: 0 <= i < |rs| ==> InSequence(args, rs, i)
      invariant |rs| > 0 ==> (regs.firstFree == -1 <==> rs[|rs| - 1] == -1)
      invariant rs == [] ==> regs.firstFree == 0
      decreases |args| - |rs|
    {
      var r := regs.Assign(args[|rs|]);
      SequenceMore(args, rs, r);
      rs := rs + [r];
    }
    SequenceFits(args, rs);
  }

  lemma TakenNone(args: seq<Arg>)
    ensures Taken(args, []) == {}
  {}

  lemma {:induction false} TakenHas(args: seq<Arg>, rs: seq<int>, i: int)
    requires 0 <= i < |rs| <= |args| && rs[i] != -1
    ensures Span(rs[i], Count(args[i])) <= Taken(args, rs)
  {
    hide Span;
    var n := |rs| - 1;
    if i == n {
    } else {
      TakenHas(args, rs[..n], i);
    }
  }

  lemma {:induction false} SpillStays(args: seq<Arg>, rs: seq<int>, i: int, j: int)
    requires 0 <= i <= j < |rs| <= |args| && (forall k :: 0 <= k < |rs| ==> InSequence(args, rs, k)) && rs[i] == -1
    ensures rs[j] == -1
    decreases j
  {
    hide Taken, IsLowest;
    if i == j {
    } else {
      SpillStays(args, rs, i, j - 1);
      assert InSequence(args, rs, j);
    }
  }

  lemma SequencePlace(args: seq<Arg>, rs: seq<int>, j: int)
    requires 0 <= j < |rs| <= |args| && InSequence(args, rs, j) && rs[j] != -1
    ensures IsPlace(Taken(args, rs[..j]), args[j], rs[j])
  {
    hide Taken;
  }

  /** So the places fit, none are shared, and after a spill everything spills. */
  lemma SequenceFits(args: seq<Arg>, rs: seq<int>)
    requires |rs| == |args| && (forall i :: 0 <= i < |rs| ==> InSequence(args, rs, i))
    requires forall i :: 0 <= i < |args| ==> IsCandidate(args[i])
    ensures forall i :: 0 <= i < |args| ==> rs[i] == -1 || Fits(args[i], rs[i])
    ensures forall i, j :: 0 <= i < j < |args| && rs[i] != -1 && rs[j] != -1 ==> Apart(rs[i], args[i], rs[j], args[j])
    ensures forall i, j :: 0 <= i < j < |args| && rs[i] == -1 ==> rs[j] == -1
  {
    hide InSequence, Taken, IsPlace, Span, Apart, IsCandidate, Fits;
    forall j | 0 <= j < |rs| && rs[j] != -1 ensures Fits(args[j], rs[j]) {
      SequencePlace(args, rs, j);
      PlaceFits(Taken(args, rs[..j]), args[j], rs[j]);
    }
    forall i, j | 0 <= i < j < |rs| && rs[i] != -1 && rs[j] != -1 ensures Apart(rs[i], args[i], rs[j], args[j]) {
      SequencePlace(args, rs, j);
      TakenHas(args, rs[..j], i);
      FreshPlace(Taken(args, rs[..j]), rs[i], args[i], rs[j], args[j]);
    }
    forall i, j | 0 <= i < j < |rs| && rs[i] == -1 ensures rs[j] == -1 {
      SpillStays(args, rs, i, j);
    }
  }

  lemma PlaceFits(used: set<int>, a: Arg, r: int)
    requires IsPlace(used, a, r)
    ensures Fits(a, r)
  {}

  lemma SequenceMore(args: seq<Arg>, rs: seq<int>, r: int)
    requires |rs| < |args| && forall i :: 0 <= i < |rs| ==> InSequence(args, rs, i)
    requires if |rs| > 0 && rs[|rs| - 1] == -1 then r == -1 else IsLowest(Taken(args, rs), args[|rs|], r)
    ensures forall i :: 0 <= i <= |rs| ==> InSequence(args, rs + [r], i)
    ensures Taken(args, rs + [r]) == Taken(args, rs) + if r == -1 then {} else Span(r, Count(args[|rs|]))
  {
    hide IsLowest, Span;
    assert (rs + [r])[..|rs|] == rs;
    forall i | 0 <= i <= |rs| ensures InSequence(args, rs + [r], i) {
      assert (rs + [r])[..i] == rs[..i];
      if i < |rs| { assert InSequence(args, rs, i); } else { assert rs[..i] == rs; }
    }
  }

  lemma FreshPlace(used: set<int>, r: int, a: Arg, r': int, a': Arg)
    requires IsCandidate(a) && IsCandidate(a') && Span(r, Count(a)) <= used && IsPlace(used, a', r')
    ensures Apart(r, a, r', a')
  {
    var m := if r < r' then r' else r;
    SpanIs(r, Count(a), m);
  }

  // ---- the array of holes ----

  /** The fields of struct avail_regs. */
  datatype Bank = Bank(avail: seq<int>, first: int, free: int)

  /** What one call does to the fields. */
  function After(b: Bank, a: Arg): Bank {
    if b.free == -1 then b
    else if a.align == 4 && a.size == 4 && b.first != |b.avail| then b.(first := b.first + 1)
    else
      var odd := a.align == 8 && b.free % 2 == 1;
      var reg := if odd then b.free + 1 else b.free;
      Bank(if odd then b.avail + [b.free] else b.avail, b.first, if reg + Count(a) <= 16 then reg + Count(a) else -1)
  }

  function AfterAll(b: Bank, args: seq<Arg>): Bank
    decreases |args|
  {
    if args == [] then b else AfterAll(After(b, args[0]), args[1..])
  }

  const FLOAT := Arg(4, 4)
  const DOUBLE := Arg(8, 8)

  predicate Tracked(b: Bank) {
    |b.avail| <= 4 && (b.free != -1 ==> 0 <= b.free <= 16 && HolesBelow(b.avail, b.free))
  }

  /** Over every argument list at most four holes are recorded. */
  lemma {:induction false} HolesBound(b: Bank, args: seq<Arg>)
    requires Tracked(b) && forall i :: 0 <= i < |args| ==> IsCandidate(args[i])
    ensures |AfterAll(b, args).avail| <= 4
    decreases |args|
  {
    if args == [] {
    } else {
      AfterTracked(b, args[0]);
      HolesBound(After(b, args[0]), args[1..]);
    }
  }

  lemma AfterTracked(b: Bank, a: Arg)
    requires Tracked(b) && IsCandidate(a)
    ensures Tracked(After(b, a))
  {
    if b.free != -1 && a.align == 8 && b.free % 2 == 1 {
      HoleAdded(b.avail, b.free, Count(a));
      FourHoles(b.avail + [b.free], b.free + 1 + 2) by { HoleAdded(b.avail, b.free, 2); }
    }
  }

  lemma FourHoles(avail: seq<int>, free: int)
    requires HolesBelow(avail, free) && free <= 18
    ensures |avail| <= 4
  {
    if |avail| > 4 { FiveHoles(avail, free); }
  }

  lemma FiveHoles(avail: seq<int>, free: int)
    requires HolesBelow(avail, free) && |avail| > 4
    ensures free > 19
  {
    assert avail[0] + 4 <= avail[1] && avail[1] + 4 <= avail[2] && avail[2] + 4 <= avail[3] && avail[3] + 4 <= avail[4];
  }

  /**
    * The three-entry array suffices for a call exactly when it is not a double met with three holes and an
    * odd register next.
    */
  lemma ThreeEntriesExact(b: Bank, a: Arg)
    requires |b.avail| <= 3 && IsCandidate(a)
    ensures |After(b, a).avail| <= 3 <==> !(|b.avail| == 3 && a.align == 8 && b.free != -1 && b.free % 2 == 1)
  {}

  /** Floats and doubles alone can record a fourth hole. */
  lemma FourthHole()
    ensures AfterAll(Bank([], 0, 0),
      [FLOAT, DOUBLE, FLOAT, FLOAT, DOUBLE, FLOAT, FLOAT, DOUBLE, FLOAT, FLOAT, DOUBLE]).avail == [1, 5, 9, 13]
  {
    hide After, AfterAll;
    var d := [FLOAT, FLOAT, DOUBLE];
    Rounds();
    assert [FLOAT, DOUBLE] + (d + (d + d))
      == [FLOAT, DOUBLE, FLOAT, FLOAT, DOUBLE, FLOAT, FLOAT, DOUBLE, FLOAT, FLOAT, DOUBLE];
    Append(Bank([], 0, 0), [FLOAT, DOUBLE], d + (d + d));
    Two(Bank([], 0, 0), FLOAT, DOUBLE);
    Append(Bank([1], 0, 4), d, d + d);
    Three(Bank([1], 0, 4), FLOAT, FLOAT, DOUBLE);
    Append(Bank([1, 5], 1, 8), d, d);
    Three(Bank([1, 5], 1, 8), FLOAT, FLOAT, DOUBLE);
    Three(Bank([1, 5, 9], 2, 12), FLOAT, FLOAT, DOUBLE);
  }

  /** Each float fills the last hole or takes the next register, and each double leaves a new hole. */
  lemma Rounds()
    ensures After(After(Bank([], 0, 0), FLOAT), DOUBLE) == Bank([1], 0, 4)
    ensures After(After(After(Bank([1], 0, 4), FLOAT), FLOAT), DOUBLE) == Bank([1, 5], 1, 8)
    ensures After(After(After(Bank([1, 5], 1, 8), FLOAT), FLOAT), DOUBLE) == Bank([1, 5, 9], 2, 12)
    ensures After(After(After(Bank([1, 5, 9], 2, 12), FLOAT), FLOAT), DOUBLE) == Bank([1, 5, 9, 13], 3, 16)
  {}

  lemma {:induction false} Append(b: Bank, xs: seq<Arg>, ys: seq<Arg>)
    ensures AfterAll(b, xs + ys) == AfterAll(AfterAll(b, xs), ys)
    decreases |xs|
  {
    if xs == [] {
      assert xs + ys == ys;
    } else {
      assert (xs + ys)[1..] == xs[1..] + ys;
      Append(After(b, xs[0]), xs[1..], ys);
    }
  }

  lemma Two(b: Bank, x: Arg, y: Arg)
    ensures AfterAll(b, [x, y]) == After(After(b, x), y)
  {
    hide After;
    assert [x, y][1..] == [y] && [y][1..] == [];
    assert AfterAll(After(After(b, x), y), []) == After(After(b, x), y);
    assert AfterAll(After(b, x), [y]) == AfterAll(After(After(b, x), y), []);
  }

  lemma Three(b: Bank, x: Arg, y: Arg, z: Arg)
    ensures AfterAll(b, [x, y, z]) == After(After(After(b, x), y), z)
  {
    hide After;
    assert [x, y, z][1..] == [y, z];
    Two(After(b, x), y, z);
  }
}
