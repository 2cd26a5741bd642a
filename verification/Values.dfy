/** Small types, functions and facts shared by the modules. */
module Values {
  datatype Option<+T> = None | Some(value: T)

  type Byte = b: int | 0 <= b < 256

  function Min(a: int, b: int): int { if a < b then a else b }

  predicate IsNum(c: char) { '0' <= c <= '9' }

  // ---- products ----

  lemma MulMono(q: nat, a: int, b: int)
    requires a <= b
    ensures q * a <= q * b
  {
    MulNat(q, b - a);
    assert q * (b - a) == q * b - q * a;
  }

  lemma MulNat(a: nat, b: nat)
    ensures a * b >= 0
  {}

  lemma MultipleFar(k: int, base: nat)
    ensures k >= 1 ==> k * base >= base
    ensures k <= -1 ==> k * base <= 0 - base
  {
    if k >= 1 { MulMono(base, 1, k); }
    if k <= -1 { MulMono(base, 1, -k); }
  }
}
