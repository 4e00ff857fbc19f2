/** Integer and fixed-point arithmetic of the runtime's support library, as the
    pallets rely on it: saturating subtraction, and parts-per-billion and
    parts-per-quintillion proportions with their rounding directions. */
module Arithmetic {

  datatype Option<+T> = None | Some(value: T)

  const BILLION: nat := 1_000_000_000
  const QUINTILLION: nat := 1_000_000_000_000_000_000

  /** A proportion in parts per billion, between zero and one. */
  type Perbill = p: nat | p <= 1_000_000_000

  function Min(a: nat, b: nat): nat { if a <= b then a else b }

  function Max(a: nat, b: nat): nat { if a <= b then b else a }

  function SatSub(a: nat, b: nat): nat { if a <= b then 0 else a - b }

  function Quotient(a: nat, b: nat): nat
    requires b > 0
  {
    a / b
  }

  // ---------- products ----------

  /** `a * b`, as a sum: proofs that need no multiplication need not see one. */
  function Product(a: nat, b: nat): nat { if b == 0 then 0 else a + Product(a, b - 1) }

  lemma {:induction false} ProductIs(a: nat, b: nat)
    ensures Product(a, b) == a * b
  {
    if b > 0 {
      ProductIs(a, b - 1);
      assert a * b == a * (b - 1) + a;
    }
  }

  lemma {:induction false} ProductAdd(a: nat, b: nat, c: nat)
    ensures Product(a, b + c) == Product(a, b) + Product(a, c)
  {
    if c > 0 { ProductAdd(a, b, c - 1); }
  }

  lemma {:induction false} ProductSplit(a: nat, b: nat, c: nat)
    ensures Product(a + b, c) == Product(a, c) + Product(b, c)
  {
    if c > 0 { ProductSplit(a, b, c - 1); }
  }

  lemma ProductMono(a: nat, a': nat, b: nat, b': nat)
    requires a <= a' && b <= b'
    ensures Product(a, b) <= Product(a', b')
  {
    ProductSplit(a, a' - a, b);
    ProductAdd(a', b, b' - b);
  }

  lemma ProductLess(a: nat, a': nat, b: nat)
    requires a < a'
    ensures Product(a, b) + b <= Product(a', b)
  {
    ProductMono(a + 1, a', b, b);
    ProductSplit(a, 1, b);
    ProductIs(1, b);
  }

  // ---------- parts per billion ----------

  /** `Perbill * n`: rounded to the nearest integer, a tie going down. */
  function PerbillMul(p: nat, n: nat): nat { (2 * Product(p, n) + 999_999_999) / 2_000_000_000 }

  /** The result is less than half above the exact value and at most half below it, and is the only such integer. */
  lemma PerbillMulNearest(p: nat, n: nat, r: nat)
    ensures r == PerbillMul(p, n) <==>
      2 * (p * n) <= 2 * BILLION * r + BILLION && 2 * BILLION * r < 2 * (p * n) + BILLION
  {
    ProductIs(p, n);
  }

  lemma PerbillMulMono(p: nat, q: nat, m: nat, n: nat)
    requires p <= q && m <= n
    ensures PerbillMul(p, m) <= PerbillMul(q, n)
  {
    ProductMono(p, q, m, n);
  }

  lemma PerbillMulWhole(n: nat)
    ensures PerbillMul(BILLION, n) == n
    ensures PerbillMul(0, n) == 0
    ensures PerbillMul(n, 0) == 0
  {
    ProductIs(BILLION, n);
    ProductIs(0, n);
    ProductIs(n, 0);
  }

  /** A proportion of an amount is never more than the amount. */
  lemma PerbillMulAtMost(p: Perbill, n: nat)
    ensures PerbillMul(p, n) <= n
  {
    PerbillMulMono(p, BILLION, n, n);
    PerbillMulWhole(n);
  }

  /** `Perbill::from_rational`: rounds down; one when `q` is zero or below `p`. */
  function PerbillFromRational(p: nat, q: nat): (r: Perbill)
    ensures 0 < q && p <= q ==> Product(r, q) <= p * 1_000_000_000 < Product(r, q) + q
  {
    if q == 0 || q < p then BILLION
    else
      FloorExists(p * 1_000_000_000, q, BILLION);
      FloorUnique(p * 1_000_000_000, q);
      var r: nat :| IsFloor(p * 1_000_000_000, q, r);
      r
  }

  predicate IsFloor(num: nat, den: nat, r: nat) { Product(r, den) <= num < Product(r, den) + den }

  lemma FloorExists(num: nat, den: nat, bound: nat)
    requires 0 < den && num <= bound * den
    ensures exists r: nat :: IsFloor(num, den, r)
    ensures forall r: nat :: IsFloor(num, den, r) ==> r <= bound
  {
    var q := num / den;
    assert num == q * den + num % den;
    ProductIs(q, den);
    assert IsFloor(num, den, q);
    forall r: nat | IsFloor(num, den, r) ensures r <= bound {
      ProductIs(bound, den);
      if bound < r { ProductLess(bound, r, den); }
    }
  }

  lemma FloorUnique(num: nat, den: nat)
    ensures forall r: nat, s: nat :: IsFloor(num, den, r) && IsFloor(num, den, s) ==> r == s
  {
    forall r: nat, s: nat | IsFloor(num, den, r) && IsFloor(num, den, s) ensures r == s {
      if r < s { ProductLess(r, s, den); } else if s < r { ProductLess(s, r, den); }
    }
  }

  lemma PerbillFromRationalMono(p: nat, p': nat, q: nat)
    requires p <= p'
    ensures PerbillFromRational(p, q) <= PerbillFromRational(p', q)
  {
    if 0 < q && p' <= q {
      var r, r' := PerbillFromRational(p, q), PerbillFromRational(p', q);
      if r' < r { ProductLess(r', r, q); }
    }
  }

  // ---------- parts per quintillion ----------

  /** `Perquintill::from_rational_with_rounding(p, q, Up)`: the least proportion
      covering `p` of `q`, refused when `q` is zero or below `p`. */
  function QuintillUp(p: nat, q: nat): (r: Option<nat>)
    ensures r.Some? <==> 0 < q && p <= q
    ensures r.Some? ==> r.value <= QUINTILLION
    ensures r.Some? ==> p * 1_000_000_000_000_000_000 <= Product(r.value, q) < p * 1_000_000_000_000_000_000 + q
  {
    if q == 0 || q < p then None
    else
      CeilExists(p * 1_000_000_000_000_000_000, q, QUINTILLION);
      CeilUnique(p * 1_000_000_000_000_000_000, q);
      var r: nat :| IsCeil(p * 1_000_000_000_000_000_000, q, r);
      Some(r)
  }

  predicate IsCeil(num: nat, den: nat, r: nat) { num <= Product(r, den) < num + den }

  lemma CeilExists(num: nat, den: nat, bound: nat)
    requires 0 < den && num <= bound * den
    ensures exists r: nat :: IsCeil(num, den, r)
    ensures forall r: nat :: IsCeil(num, den, r) ==> r <= bound
  {
    var q := num / den;
    assert num == q * den + num % den;
    ProductIs(q, den);
    ProductSplit(1, q, den);
    ProductIs(1, den);
    assert IsCeil(num, den, q) || IsCeil(num, den, q + 1);
    forall r: nat | IsCeil(num, den, r) ensures r <= bound {
      ProductIs(bound, den);
      if bound < r { ProductLess(bound, r, den); }
    }
  }

  lemma CeilUnique(num: nat, den: nat)
    ensures forall r: nat, s: nat :: IsCeil(num, den, r) && IsCeil(num, den, s) ==> r == s
  {
    forall r: nat, s: nat | IsCeil(num, den, r) && IsCeil(num, den, s) ensures r == s {
      if r < s { ProductLess(r, s, den); } else if s < r { ProductLess(s, r, den); }
    }
  }

  /** `ratio.mul_ceil(n)`: the proportion of `n`, rounded up. */
  function MulCeil(ratio: nat, n: nat): nat {
    (Product(ratio, n) + 999_999_999_999_999_999) / 1_000_000_000_000_000_000
  }

  lemma MulCeilWhole(n: nat)
    ensures MulCeil(QUINTILLION, n) == n
  {
    ProductIs(QUINTILLION, n);
  }

  lemma MulCeilMono(ratio: nat, ratio': nat, a: nat, b: nat)
    requires ratio <= ratio' && a <= b
    ensures MulCeil(ratio, a) <= MulCeil(ratio', b)
  {
    ProductMono(ratio, ratio', a, b);
  }

  /** Shares rounded up one by one cover the share of the sum. */
  lemma MulCeilSplit(ratio: nat, a: nat, b: nat)
    ensures MulCeil(ratio, a + b) <= MulCeil(ratio, a) + MulCeil(ratio, b)
  {
    ProductAdd(ratio, a, b);
  }

  /** The least proportion covering `p` of `q` asks at least `p` of `q`. */
  lemma QuintillUpCovers(p: nat, q: nat)
    requires 0 < q && p <= q
    ensures MulCeil(QuintillUp(p, q).value, q) >= p
  {}
}
