/** The skip list seen through block indices only: heights, the links of a chain whose
    forward links are all in place, and the walk that always takes the highest link. */
module SkipIndex {
  import opened Powers

  // ----- Heights -------------------------------------------------------------------

  /** The greatest h in start..m such that b^start, ..., b^(h-1) all divide i. */
  function HeightFrom(b: nat, m: nat, i: nat, start: nat): (h: nat)
    requires b >= 1 && 1 <= start <= m
    ensures start <= h <= m
    decreases m - start
  {
    if start < m && Divides(Pow(b, start), i) then HeightFrom(b, m, i, start + 1) else start
  }

  /** The height of the block with index i in a chain with base b and maximum height m. */
  function Height(b: nat, m: nat, i: nat): (h: nat)
    requires b >= 1 && m >= 1
    ensures 1 <= h <= m
  {
    HeightFrom(b, m, i, 1)
  }

  lemma {:induction false} HeightFromLevels(b: nat, m: nat, i: nat, start: nat, e: nat)
    requires b >= 1 && 1 <= start <= m
    requires Divides(Pow(b, start - 1), i)
    ensures e < HeightFrom(b, m, i, start) <==> e < m && Divides(Pow(b, e), i)
    decreases m - start
  {
    PowPositive(b, e);
    if start < m && Divides(Pow(b, start), i) {
      HeightFromLevels(b, m, i, start + 1, e);
    } else if e < start {
      PowDividesDown(b, e, start - 1, i);
    } else if e < m && Divides(Pow(b, e), i) {
      PowDividesDown(b, start, e, i);
    }
  }

  /** A block takes part in level e exactly when b^e divides its index. */
  lemma HeightLevels(b: nat, m: nat, i: nat, e: nat)
    requires b >= 1 && m >= 1
    ensures e < Height(b, m, i) <==> e < m && Divides(Pow(b, e), i)
  {
    HeightFromLevels(b, m, i, 1, e);
  }

  /** How many times b divides i. */
  function Multiplicity(b: nat, i: nat): nat
    requires b >= 2 && i >= 1
  {
    if i % b == 0 then 1 + Multiplicity(b, i / b) else 0
  }

  lemma {:induction false} MultiplicityLevels(b: nat, i: nat, e: nat)
    requires b >= 2 && i >= 1
    ensures Divides(Pow(b, e), i) <==> e <= Multiplicity(b, i)
    decreases i
  {
    if e > 0 {
      PowPositive(b, e - 1);
      if i % b == 0 {
        MultiplicityLevels(b, i / b, e - 1);
        LevelsOfMultiple(b, i, Pow(b, e - 1));
      } else if Divides(b * Pow(b, e - 1), i) {
        FactorDivides(b, Pow(b, e - 1), i);
      }
    }
  }

  lemma LevelsOfMultiple(b: nat, i: nat, p: nat)
    requires b >= 1 && p >= 1 && i % b == 0
    ensures Divides(b * p, i) <==> Divides(p, i / b)
  {
    assert i == i / b * b;
    DividesScaled(b, p, i / b);
  }

  lemma FactorDivides(b: nat, d: nat, n: nat)
    requires b >= 1 && Divides(b * d, n)
    ensures n % b == 0
  {
    var q := n / (b * d);
    DividesQuotient(b * d, n);
    assert n == (q * d) * b by { assert q * (b * d) == (q * d) * b; }
    MultipleDivides(b, q * d);
  }

  lemma DividesScaled(b: nat, d: nat, n: nat)
    requires b >= 1 && d >= 1
    ensures b * d >= 1
    ensures Divides(b * d, n * b) <==> Divides(d, n)
  {
    MulGrows(d, b);
    if Divides(d, n) {
      var q := n / d;
      assert n * b == q * (b * d) by { DividesQuotient(d, n); assert q * d * b == q * (b * d); }
      MultipleDivides(b * d, q);
    }
    if Divides(b * d, n * b) {
      var q := n * b / (b * d);
      DividesQuotient(b * d, n * b);
      assert (n - q * d) * b == 0;
      assert n == q * d;
      MultipleDivides(d, q);
    }
  }

  /** Height(i) = min(m, 1 + the number of times b divides i). */
  lemma HeightIsMultiplicity(b: nat, m: nat, i: nat)
    requires b >= 2 && m >= 1 && i >= 1
    ensures Height(b, m, i) == if 1 + Multiplicity(b, i) < m then 1 + Multiplicity(b, i) else m
  {
    var h, v := Height(b, m, i), Multiplicity(b, i);
    HeightLevels(b, m, i, h - 1);
    HeightLevels(b, m, i, h);
    MultiplicityLevels(b, i, h - 1);
    MultiplicityLevels(b, i, h);
  }

  lemma GenesisHeight(b: nat, m: nat)
    requires b >= 1 && m >= 1
    ensures Height(b, m, 0) == m
  {
    HeightLevels(b, m, 0, m - 1);
    PowPositive(b, m - 1);
  }

  /** Between i - b^h and i no block reaches level h, and i - b^h itself does. */
  lemma NearestBelow(b: nat, m: nat, i: nat, h: nat, k: nat)
    requires b >= 1 && m >= 1 && i >= 1 && h < Height(b, m, i)
    ensures Pow(b, h) <= i
    ensures h < Height(b, m, i - Pow(b, h))
    ensures i - Pow(b, h) < k < i ==> Height(b, m, k) <= h
  {
    var d := Pow(b, h);
    HeightLevels(b, m, i, h);
    MultiplesApart(d, 0, i);
    DividesSum(d, i, d);
    HeightLevels(b, m, i - d, h);
    HeightLevels(b, m, k, h);
    if i - d < k < i && Divides(d, k) {
      MultiplesApart(d, i - d, k);
    }
  }

  /** A block reached over level e takes part in level e as well. */
  lemma HeightAbove(b: nat, m: nat, j: nat, e: nat)
    requires b >= 1 && m >= 1 && e < Height(b, m, j)
    ensures e < Height(b, m, j + Pow(b, e))
  {
    HeightLevels(b, m, j, e);
    DividesSum(Pow(b, e), j, Pow(b, e));
    HeightLevels(b, m, j + Pow(b, e), e);
  }

  // ----- The complete links of a chain with tip n ------------------------------------

  /** Number of levels on which block j has a successor at or before n. */
  function LinkCount(b: nat, m: nat, n: nat, j: nat): (k: nat)
    requires b >= 1 && m >= 1
    ensures k <= Height(b, m, j)
  {
    CountFrom(b, n, j, Height(b, m, j))
  }

  function CountFrom(b: nat, n: nat, j: nat, h: nat): (k: nat)
    ensures k <= h
  {
    if h == 0 || j + Pow(b, h - 1) <= n then h else CountFrom(b, n, j, h - 1)
  }

  lemma {:induction false} CountFromLevels(b: nat, n: nat, j: nat, h: nat, e: nat)
    requires b >= 1
    ensures e < CountFrom(b, n, j, h) <==> e < h && j + Pow(b, e) <= n
  {
    if h == 0 {
    } else if j + Pow(b, h - 1) <= n {
      if e < h { PowMonotone(b, e, h - 1); }
    } else {
      CountFromLevels(b, n, j, h - 1, e);
    }
  }

  lemma LinkCountLevels(b: nat, m: nat, n: nat, j: nat, e: nat)
    requires b >= 1 && m >= 1
    ensures e < LinkCount(b, m, n, j) <==> e < Height(b, m, j) && j + Pow(b, e) <= n
  {
    CountFromLevels(b, n, j, Height(b, m, j), e);
  }

  /** Index of the block that the highest link of block j points to. */
  function Hop(b: nat, m: nat, n: nat, j: nat): (k: nat)
    requires b >= 1 && m >= 1 && j < n
    ensures j < k <= n
  {
    LinkCountLevels(b, m, n, j, 0);
    var e := LinkCount(b, m, n, j) - 1;
    LinkCountLevels(b, m, n, j, e);
    PowPositive(b, e);
    j + Pow(b, e)
  }

  /** The indices visited when the highest link is always taken. */
  function Greedy(b: nat, m: nat, n: nat, j: nat): (p: seq<nat>)
    requires b >= 1 && m >= 1 && j <= n
    ensures |p| >= 1 && p[0] == j && p[|p| - 1] == n
    decreases n - j
  {
    if j == n then [j] else [j] + Greedy(b, m, n, Hop(b, m, n, j))
  }

  // ----- Shortest path ----------------------------------------------------------------

  predicate Edge(b: nat, m: nat, x: nat, y: nat)
    requires b >= 1 && m >= 1
  {
    exists e: nat :: e < Height(b, m, x) && y == x + Pow(b, e)
  }

  /** A path of forward links that ends at n. */
  predicate IsPath(b: nat, m: nat, n: nat, p: seq<nat>)
    requires b >= 1 && m >= 1
  {
    && |p| >= 1
    && p[|p| - 1] == n
    && forall k :: 0 <= k < |p| - 1 ==> Edge(b, m, p[k], p[k + 1])
  }

  lemma PathTail(b: nat, m: nat, n: nat, p: seq<nat>)
    requires b >= 1 && m >= 1 && IsPath(b, m, n, p) && |p| >= 2
    ensures IsPath(b, m, n, p[1..])
  {
    var t := p[1..];
    forall k | 0 <= k < |t| - 1 ensures Edge(b, m, t[k], t[k + 1]) {
      assert Edge(b, m, p[k + 1], p[k + 2]);
    }
  }

  lemma {:induction false} PathAscends(b: nat, m: nat, n: nat, p: seq<nat>)
    requires b >= 1 && m >= 1 && IsPath(b, m, n, p)
    ensures p[0] <= n
    decreases |p|
  {
    if |p| >= 2 {
      PathTail(b, m, n, p);
      PathAscends(b, m, n, p[1..]);
      assert Edge(b, m, p[0], p[1]);
    }
  }

  /** No link jumps over the next multiple of b^f: a path that starts strictly after the
      multiple j of b^f and not after j + b^f visits j + b^f. */
  lemma {:induction false} VisitsMultiple(b: nat, m: nat, n: nat, p: seq<nat>, j: nat, f: nat) returns (i: nat)
    requires b >= 1 && m >= 1 && f < m && IsPath(b, m, n, p)
    requires Divides(Pow(b, f), j)
    requires j < p[0] <= j + Pow(b, f) <= n
    ensures i < |p| && p[i] == j + Pow(b, f)
    ensures IsPath(b, m, n, p[i..])
    decreases |p|
  {
    var d := Pow(b, f);
    if p[0] == j + d {
      i := 0;
      assert p[0..] == p;
    } else {
      var x, y := p[0], p[1];
      assert Edge(b, m, x, y);
      var e: nat :| e < Height(b, m, x) && y == x + Pow(b, e);
      PowPositive(b, e);
      HeightLevels(b, m, x, e);
      if e >= f {
        PowDividesDown(b, f, e, x);
        MultiplesApart(d, j, x);
        assert false;
      }
      DividesSum(d, j, d);
      PowPositive(b, f);
      PowDividesDown(b, e, f, j + d);
      MultiplesApart(Pow(b, e), x, j + d);
      PathTail(b, m, n, p);
      var i' := VisitsMultiple(b, m, n, p[1..], j, f);
      i := i' + 1;
      assert p[1..][i'..] == p[i..];
    }
  }

  /** The greedy walk is a shortest path. */
  lemma {:induction false} GreedyShortest(b: nat, m: nat, n: nat, p: seq<nat>)
    requires b >= 1 && m >= 1 && IsPath(b, m, n, p)
    ensures p[0] <= n
    ensures |Greedy(b, m, n, p[0])| <= |p|
    decreases |p|
  {
    PathAscends(b, m, n, p);
    var j := p[0];
    if j < n {
      var k := Hop(b, m, n, j);
      var f := LinkCount(b, m, n, j) - 1;
      LinkCountLevels(b, m, n, j, 0);
      LinkCountLevels(b, m, n, j, f);
      HeightLevels(b, m, j, f);
      assert Edge(b, m, p[0], p[1]);
      var e: nat :| e < Height(b, m, j) && p[1] == j + Pow(b, e);
      PathTail(b, m, n, p);
      PathAscends(b, m, n, p[1..]);
      LinkCountLevels(b, m, n, j, e);
      PowPositive(b, e);
      PowMonotone(b, e, f);
      var i := VisitsMultiple(b, m, n, p[1..], j, f);
      GreedyShortest(b, m, n, p[1..][i..]);
    }
  }

  lemma {:induction false} GreedyIsPath(b: nat, m: nat, n: nat, j: nat)
    requires b >= 1 && m >= 1 && j <= n
    ensures IsPath(b, m, n, Greedy(b, m, n, j))
    decreases n - j
  {
    if j < n {
      var f := LinkCount(b, m, n, j) - 1;
      LinkCountLevels(b, m, n, j, 0);
      LinkCountLevels(b, m, n, j, f);
      var k := Hop(b, m, n, j);
      GreedyIsPath(b, m, n, k);
      var g := Greedy(b, m, n, k);
      var p := Greedy(b, m, n, j);
      assert Edge(b, m, j, k);
      forall i | 0 <= i < |p| - 1 ensures Edge(b, m, p[i], p[i + 1]) {
        if i > 0 { assert Edge(b, m, g[i - 1], g[i]); }
      }
    }
  }

  // ----- Length of the greedy walk ------------------------------------------------------

  /** Number of links the greedy walk follows. */
  function Hops(b: nat, m: nat, n: nat, j: nat): nat
    requires b >= 1 && m >= 1 && j <= n
  {
    |Greedy(b, m, n, j)| - 1
  }

  lemma HopsStep(b: nat, m: nat, n: nat, j: nat, f: nat)
    requires b >= 1 && m >= 1 && j < n
    requires f < Height(b, m, j) && j + Pow(b, f) <= n
    requires f + 1 < Height(b, m, j) ==> j + Pow(b, f + 1) > n
    ensures Hops(b, m, n, j) == 1 + Hops(b, m, n, j + Pow(b, f))
  {
    LinkCountLevels(b, m, n, j, f);
    LinkCountLevels(b, m, n, j, f + 1);
  }

  /** x / d by repeated subtraction. */
  function Quotient(x: nat, d: nat): nat
    requires d >= 1
  {
    if x < d then 0 else 1 + Quotient(x - d, d)
  }

  lemma {:induction false} QuotientIsDivision(x: nat, d: nat)
    requires d >= 1
    ensures Quotient(x, d) == x / d
  {
    if x < d {
      ModOfMultiple(d, 0, x);
    } else {
      QuotientIsDivision(x - d, d);
      DivStep(x, d);
    }
  }

  lemma {:induction false} QuotientMonotone(x: nat, y: nat, d: nat)
    requires d >= 1 && x <= y
    ensures Quotient(x, d) <= Quotient(y, d)
  {
    if x >= d { QuotientMonotone(x - d, y - d, d); }
  }

  lemma {:induction false} QuotientBelow(x: nat, d: nat, b: nat)
    requires d >= 1 && x < b * d
    ensures Quotient(x, d) < b
    decreases b
  {
    assert (b - 1) * d == b * d - d;
    if x >= d { QuotientBelow(x - d, d, b - 1); }
  }

  /** k times (b - 1) by repeated addition. */
  function Rounds(b: nat, k: nat): nat
    requires b >= 1
  {
    if k == 0 then 0 else Rounds(b, k - 1) + (b - 1)
  }

  lemma {:induction false} RoundsIsProduct(b: nat, k: nat)
    requires b >= 1
    ensures Rounds(b, k) == (b - 1) * k
  {
    if k > 0 { RoundsIsProduct(b, k - 1); }
  }

  lemma {:induction false} RoundsMonotone(b: nat, k: nat, l: nat)
    requires b >= 1 && k <= l
    ensures Rounds(b, k) <= Rounds(b, l)
  {
    if k < l { RoundsMonotone(b, k, l - 1); }
  }

  /** Descent: closer to n than b^(g+1), the walk uses level g for the quotient and every
      lower level at most b - 1 times. */
  lemma {:induction false} DescentBound(b: nat, m: nat, n: nat, j: nat, g: nat)
    requires b >= 1 && g < m && j <= n && Pow(b, g) >= 1
    requires g < Height(b, m, j) && n - j < Pow(b, g + 1)
    ensures Hops(b, m, n, j) <= Quotient(n - j, Pow(b, g)) + Rounds(b, g)
    decreases g, n - j
  {
    var d := Pow(b, g);
    if j == n {
    } else if j + d <= n {
      HopsStep(b, m, n, j, g);
      HeightAbove(b, m, j, g);
      DescentBound(b, m, n, j + d, g);
    } else {
      PowPositive(b, g - 1);
      DescentBound(b, m, n, j, g - 1);
      QuotientBelow(n - j, Pow(b, g - 1), b);
    }
  }

  /** The base-b digit of j at its own top level h - 1; nonzero below the maximum height. */
  function TopDigit(b: nat, m: nat, j: nat): (t: nat)
    requires b >= 1 && m >= 1
    ensures t < b
    ensures Height(b, m, j) < m ==> t >= 1
  {
    var h := Height(b, m, j);
    PowPositive(b, h - 1);
    DigitZero(b, Pow(b, h - 1), j);
    HeightLevels(b, m, j, h);
    HeightLevels(b, m, j, h - 1);
    (j / Pow(b, h - 1)) % b
  }

  /** An upper bound on the hops of the ascent that starts at j. */
  function Ascent(b: nat, m: nat, j: nat): (u: nat)
    requires b >= 1 && m >= 1
    ensures u <= Rounds(b, m - Height(b, m, j))
  {
    var h := Height(b, m, j);
    if h == m then 0 else b - TopDigit(b, m, j) + Rounds(b, m - 1 - h)
  }

  /** For a multiple j of p: b * p divides j exactly when the base-b digit of j / p is 0. */
  lemma DigitZero(b: nat, p: nat, j: nat)
    requires b >= 1 && p >= 1
    ensures Divides(p, j) ==> (Divides(b * p, j) <==> (j / p) % b == 0)
  {
    if Divides(p, j) {
      DividesQuotient(p, j);
      DividesScaled(p, b, j / p);
    }
  }

  lemma NextDigit(x: nat, b: nat)
    requires b >= 1
    ensures x % b < b - 1 ==> (x + 1) % b == x % b + 1
    ensures x % b == b - 1 ==> (x + 1) % b == 0
  {
    if x % b < b - 1 {
      ModOfMultiple(b, x / b, x % b + 1);
      assert x + 1 == (x / b) * b + (x % b + 1);
    } else {
      ModOfMultiple(b, x / b + 1, 0);
      assert x + 1 == (x / b + 1) * b;
    }
  }

  /** Adding p = b^(h-1) to a multiple of p counts its digit up by one, with carry. */
  lemma DigitCarry(b: nat, p: nat, j: nat)
    requires b >= 1 && Divides(p, j)
    ensures Divides(p, j + p)
    ensures (j / p) % b < b - 1 ==> ((j + p) / p) % b == (j / p) % b + 1 && !Divides(b * p, j + p)
    ensures (j / p) % b == b - 1 ==> Divides(b * p, j + p)
  {
    DividesSum(p, j, p);
    QuotientIsDivision(j, p);
    QuotientIsDivision(j + p, p);
    NextDigit(j / p, b);
    DigitZero(b, p, j + p);
  }

  /** A hop on the block's own top level counts the top digit up, or carries into a higher level. */
  lemma TopDigitStep(b: nat, m: nat, j: nat, k: nat)
    requires b >= 1 && m >= 1 && Height(b, m, j) < m
    requires k == j + Pow(b, Height(b, m, j) - 1)
    ensures TopDigit(b, m, j) < b - 1 ==> Height(b, m, k) == Height(b, m, j)
    ensures TopDigit(b, m, j) < b - 1 ==> TopDigit(b, m, k) == TopDigit(b, m, j) + 1
    ensures TopDigit(b, m, j) == b - 1 ==> Height(b, m, k) > Height(b, m, j)
  {
    var h := Height(b, m, j);
    PowPositive(b, h - 1);
    HeightLevels(b, m, j, h - 1);
    HeightLevels(b, m, k, h - 1);
    HeightLevels(b, m, k, h);
    DigitCarry(b, Pow(b, h - 1), j);
  }

  /** One hop of the ascent lowers the bound. */
  lemma AscentStep(b: nat, m: nat, j: nat)
    requires b >= 1 && m >= 1 && Height(b, m, j) < m
    ensures Ascent(b, m, j + Pow(b, Height(b, m, j) - 1)) < Ascent(b, m, j)
  {
    var h := Height(b, m, j);
    var k := j + Pow(b, h - 1);
    TopDigitStep(b, m, j, k);
    if TopDigit(b, m, j) == b - 1 {
      RoundsMonotone(b, m - Height(b, m, k), m - 1 - h);
    }
  }

  ghost predicate Bounded(b: nat, m: nat, n: nat, j: nat)
    requires b >= 1 && m >= 1 && j <= n && Pow(b, m - 1) >= 1
  {
    Hops(b, m, n, j) <= Ascent(b, m, j) + Quotient(n - j, Pow(b, m - 1)) + Rounds(b, m - 1)
  }

  /** A hop on the block's top level keeps the bound. */
  lemma {:induction false} BoundStep(b: nat, m: nat, n: nat, j: nat, p: nat)
    requires b >= 1 && m >= 1 && p == Pow(b, Height(b, m, j) - 1) >= 1 && j + p <= n && Pow(b, m - 1) >= 1
    requires Bounded(b, m, n, j + p) && Hops(b, m, n, j) == 1 + Hops(b, m, n, j + p)
    ensures Bounded(b, m, n, j)
  {
    var h := Height(b, m, j);
    if h == m {
      HeightAbove(b, m, j, h - 1);
    } else {
      AscentStep(b, m, j);
      QuotientMonotone(n - j - p, n - j, Pow(b, m - 1));
    }
  }

  lemma {:induction false} WalkBound(b: nat, m: nat, n: nat, j: nat)
    requires b >= 1 && m >= 1 && j <= n && Pow(b, m - 1) >= 1
    ensures Bounded(b, m, n, j)
    decreases n - j
  {
    var h := Height(b, m, j);
    var p := Pow(b, h - 1);
    PowPositive(b, h - 1);
    if j + p <= n {
      HopsStep(b, m, n, j, h - 1);
      WalkBound(b, m, n, j + p);
      BoundStep(b, m, n, j, p);
    } else if j < n {
      PowMonotone(b, h - 1, h);
      DescentBound(b, m, n, j, h - 1);
      QuotientSmall(n - j, p);
      RoundsMonotone(b, h - 1, m - 1);
    }
  }

  lemma QuotientSmall(x: nat, d: nat)
    requires x < d
    ensures Quotient(x, d) == 0
  {
  }

  /** At most 2(b-1)(m-1) + (n-j)/b^(m-1) links lead from block j to block n. */
  lemma HopBound(b: nat, m: nat, n: nat, j: nat)
    requires b >= 1 && m >= 1 && j <= n
    ensures Pow(b, m - 1) >= 1
    ensures Hops(b, m, n, j) <= 2 * (b - 1) * (m - 1) + (n - j) / Pow(b, m - 1)
  {
    PowPositive(b, m - 1);
    WalkBound(b, m, n, j);
    RoundsMonotone(b, m - Height(b, m, j), m - 1);
    assert Hops(b, m, n, j) <= 2 * Rounds(b, m - 1) + Quotient(n - j, Pow(b, m - 1));
    BoundInProducts(b, m - 1, n - j, Pow(b, m - 1));
  }

  lemma BoundInProducts(b: nat, k: nat, x: nat, d: nat)
    requires b >= 1 && d >= 1
    ensures 2 * Rounds(b, k) + Quotient(x, d) == 2 * (b - 1) * k + x / d
  {
    RoundsIsProduct(b, k);
    QuotientIsDivision(x, d);
    assert 2 * (b - 1) * k == 2 * ((b - 1) * k);
  }
}
