/** Powers of the skip-list base and the divisibility facts the skipchain rests on. */
module Powers {

  function Pow(b: nat, e: nat): nat
  {
    if e == 0 then 1 else b * Pow(b, e - 1)
  }

  predicate Divides(d: nat, n: nat)
  {
    d >= 1 && n % d == 0
  }

  lemma {:induction false} PowPositive(b: nat, e: nat)
    requires b >= 1
    ensures Pow(b, e) >= 1
  {
    if e > 0 {
      PowPositive(b, e - 1);
      MulGrows(Pow(b, e - 1), b);
    }
  }

  lemma MulGrows(x: nat, k: nat)
    requires k >= 1
    ensures k * x >= x
  {
    assert k * x == (k - 1) * x + x;
  }

  lemma {:induction false} PowMonotone(b: nat, e: nat, f: nat)
    requires b >= 1 && e <= f
    ensures Pow(b, e) <= Pow(b, f)
    decreases f
  {
    if e < f {
      PowMonotone(b, e, f - 1);
      MulGrows(Pow(b, f - 1), b);
    }
  }

  lemma {:induction false} PowStrict(b: nat, e: nat, f: nat)
    requires b >= 2 && e < f
    ensures Pow(b, e) < Pow(b, f)
  {
    PowMonotone(b, e, f - 1);
    PowPositive(b, f - 1);
    MulGrows(Pow(b, f - 1), b - 1);
    assert b * Pow(b, f - 1) == (b - 1) * Pow(b, f - 1) + Pow(b, f - 1);
  }

  /** The powers of two. */
  function Pow2(d: nat): (n: nat)
    ensures n >= 1 && n == Pow(2, d)
  {
    if d == 0 then 1 else 2 * Pow2(d - 1)
  }

  lemma Pow2Monotone(a: nat, b: nat)
    requires a <= b
    ensures Pow2(a) <= Pow2(b)
  {
    PowMonotone(2, a, b);
  }

  /** The quotient form of divisibility. */
  lemma DividesQuotient(d: nat, n: nat)
    requires Divides(d, n)
    ensures n == (n / d) * d
  {
  }

  lemma MultipleDivides(d: nat, k: nat)
    requires d >= 1
    ensures Divides(d, k * d)
  {
    ModOfMultiple(d, k, 0);
  }

  lemma ModOfMultiple(d: nat, k: nat, r: nat)
    requires r < d
    ensures (k * d + r) % d == r && (k * d + r) / d == k
  {
    var n := k * d + r;
    var q := n / d;
    assert n == q * d + n % d;
    assert (q - k) * d == r - n % d;
    assert (k - q) * d == n % d - r;
    if q > k { MulGrows(d, q - k); }
    if q < k { MulGrows(d, k - q); }
  }

  lemma DivStep(x: nat, d: nat)
    requires 1 <= d <= x
    ensures x / d == (x - d) / d + 1
  {
    var k, r := (x - d) / d, (x - d) % d;
    assert x - d == k * d + r;
    assert (k + 1) * d == k * d + d;
    ModOfMultiple(d, k + 1, r);
  }

  /** A divisor of a divisor: b^e divides whatever b^f divides, for e <= f. */
  lemma {:induction false} PowDividesDown(b: nat, e: nat, f: nat, n: nat)
    requires b >= 1 && e <= f && Divides(Pow(b, f), n)
    ensures Divides(Pow(b, e), n)
    decreases f
  {
    if e < f {
      PowPositive(b, f - 1);
      var p := Pow(b, f - 1);
      var q := n / Pow(b, f);
      DividesQuotient(Pow(b, f), n);
      assert n == (q * b) * p by {
        assert q * (b * p) == (q * b) * p;
      }
      MultipleDivides(p, q * b);
      PowDividesDown(b, e, f - 1, n);
    }
  }

  /** Distinct multiples of d are at least d apart. */
  lemma MultiplesApart(d: nat, x: nat, y: nat)
    requires Divides(d, x) && Divides(d, y) && x < y
    ensures x + d <= y
  {
    var p, q := x / d, y / d;
    DividesQuotient(d, x);
    DividesQuotient(d, y);
    assert (p - q) * d == x - y;
    assert (q - p) * d == y - x;
    if p > q { MulGrows(d, p - q); }
    if p < q { MulGrows(d, q - p); }
  }

  lemma DividesSum(d: nat, x: nat, y: nat)
    requires Divides(d, x) && Divides(d, y)
    ensures Divides(d, x + y)
    ensures x >= y ==> Divides(d, x - y)
  {
    var p, q := x / d, y / d;
    DividesQuotient(d, x);
    DividesQuotient(d, y);
    assert x + y == (p + q) * d;
    MultipleDivides(d, p + q);
    if x >= y {
      assert (q - p) * d == y - x;
      if p < q { MulGrows(d, q - p); }
      assert x - y == (p - q) * d;
      MultipleDivides(d, p - q);
    }
  }
}
