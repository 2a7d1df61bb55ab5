/** Scalars modulo the group order q and group elements, given by their logarithm to the base
    point. A cyclic group of order q is isomorphic to this one, so equations between points hold
    here exactly when they hold there. */
module GroupArith {

  datatype Point = Point(log: int)

  const NullPoint := Point(0)

  /** The residue of a modulo q. */
  function Reduce(q: nat, a: int): (r: int)
    requires q >= 1
    ensures 0 <= r < q
    decreases if a < 0 then q - a else a
  {
    if a < 0 then Reduce(q, a + q) else if a >= q then Reduce(q, a - q) else a
  }

  /** The product a * k, by repeated addition. */
  function Times(a: int, k: int): int
    decreases if k < 0 then -k else k
  {
    if k == 0 then 0 else if k > 0 then Times(a, k - 1) + a else Times(a, k + 1) - a
  }

  lemma {:induction false} TimesIsProduct(a: int, k: int)
    ensures Times(a, k) == a * k
    decreases if k < 0 then -k else k
  {
    if k > 0 {
      TimesIsProduct(a, k - 1);
    } else if k < 0 {
      TimesIsProduct(a, k + 1);
    }
  }

  lemma {:induction false} TimesZero(k: int)
    ensures Times(0, k) == 0
    decreases if k < 0 then -k else k
  {
    if k > 0 { TimesZero(k - 1); } else if k < 0 { TimesZero(k + 1); }
  }

  lemma {:induction false} TimesAdd(a: int, b: int, k: int)
    ensures Times(a + b, k) == Times(a, k) + Times(b, k)
    ensures Times(a - b, k) == Times(a, k) - Times(b, k)
    decreases if k < 0 then -k else k
  {
    if k > 0 {
      TimesAdd(a, b, k - 1);
    } else if k < 0 {
      TimesAdd(a, b, k + 1);
    }
  }

  function ScalarAdd(q: nat, a: int, b: int): int
    requires q >= 1
  {
    Reduce(q, a + b)
  }

  function ScalarSub(q: nat, a: int, b: int): int
    requires q >= 1
  {
    Reduce(q, a - b)
  }

  function ScalarMul(q: nat, a: int, b: int): int
    requires q >= 1
  {
    Reduce(q, Times(a, b))
  }

  function PointAdd(q: nat, p: Point, r: Point): Point
    requires q >= 1
  {
    Point(Reduce(q, p.log + r.log))
  }

  function PointSub(q: nat, p: Point, r: Point): Point
    requires q >= 1
  {
    Point(Reduce(q, p.log - r.log))
  }

  function PointNeg(q: nat, p: Point): Point
    requires q >= 1
  {
    Point(Reduce(q, -p.log))
  }

  /** k times the point p. */
  function PointMul(q: nat, p: Point, k: int): Point
    requires q >= 1
  {
    Point(Reduce(q, Times(p.log, k)))
  }

  /** k times the base point. */
  function BaseMul(q: nat, k: int): Point
    requires q >= 1
  {
    Point(Reduce(q, k))
  }

  // ----- Congruence ---------------------------------------------------------------------

  /** a and b have the same residue modulo q. */
  ghost predicate Cong(q: nat, a: int, b: int)
    requires q >= 1
  {
    Reduce(q, a) == Reduce(q, b)
  }

  lemma {:induction false} ReduceShift(q: nat, a: int, t: int)
    requires q >= 1
    ensures Reduce(q, a + t * q) == Reduce(q, a)
    decreases if t < 0 then -t else t
  {
    if t > 0 {
      ReduceShift(q, a, t - 1);
      NextMultiple(q, t - 1);
      ReduceStep(q, a + (t - 1) * q);
    } else if t < 0 {
      ReduceShift(q, a, t + 1);
      NextMultiple(q, t);
      ReduceStep(q, a + t * q);
    }
  }

  lemma NextMultiple(q: nat, t: int)
    ensures (t + 1) * q == t * q + q
  {
  }

  lemma ReduceStep(q: nat, a: int)
    requires q >= 1
    ensures Reduce(q, a + q) == Reduce(q, a)
  {
  }

  lemma {:induction false} ReduceWitness(q: nat, a: int) returns (t: int)
    requires q >= 1
    ensures a == Reduce(q, a) + t * q
    decreases if a < 0 then q - a else a
  {
    if a < 0 {
      var u := ReduceWitness(q, a + q);
      t := u - 1;
      assert t * q == u * q - q;
    } else if a >= q {
      var u := ReduceWitness(q, a - q);
      t := u + 1;
      assert t * q == u * q + q;
    } else {
      t := 0;
    }
  }

  lemma CongReduce(q: nat, a: int)
    requires q >= 1
    ensures Cong(q, Reduce(q, a), a)
  {
  }

  lemma CongAdd(q: nat, a: int, b: int, c: int, d: int)
    requires q >= 1 && Cong(q, a, b) && Cong(q, c, d)
    ensures Cong(q, a + c, b + d)
  {
    ReduceAdd(q, a, c);
    ReduceAdd(q, b, d);
  }

  lemma ReduceAdd(q: nat, a: int, c: int)
    requires q >= 1
    ensures Reduce(q, a + c) == Reduce(q, Reduce(q, a) + Reduce(q, c))
  {
    var t := ReduceWitness(q, a);
    var u := ReduceWitness(q, c);
    assert a + c == Reduce(q, a) + Reduce(q, c) + (t + u) * q by { assert (t + u) * q == t * q + u * q; }
    ReduceShift(q, Reduce(q, a) + Reduce(q, c), t + u);
  }

  lemma CongSub(q: nat, a: int, b: int, c: int, d: int)
    requires q >= 1 && Cong(q, a, b) && Cong(q, c, d)
    ensures Cong(q, a - c, b - d)
  {
    ReduceSub(q, a, c);
    ReduceSub(q, b, d);
  }

  lemma ReduceSub(q: nat, a: int, c: int)
    requires q >= 1
    ensures Reduce(q, a - c) == Reduce(q, Reduce(q, a) - Reduce(q, c))
  {
    var t := ReduceWitness(q, a);
    var u := ReduceWitness(q, c);
    assert a - c == Reduce(q, a) - Reduce(q, c) + (t - u) * q by { assert (t - u) * q == t * q - u * q; }
    ReduceShift(q, Reduce(q, a) - Reduce(q, c), t - u);
  }

  lemma CongModAdd(q: nat, a: int, a': int, b: int, b': int)
    requires q >= 1 && Cong(q, a, a') && Cong(q, b, b')
    ensures Cong(q, Reduce(q, a + b), a' + b')
  {
    CongAdd(q, a, a', b, b');
    CongReduce(q, a + b);
  }

  lemma CongModSub(q: nat, a: int, a': int, b: int, b': int)
    requires q >= 1 && Cong(q, a, a') && Cong(q, b, b')
    ensures Cong(q, Reduce(q, a - b), a' - b')
  {
    CongSub(q, a, a', b, b');
    CongReduce(q, a - b);
  }

  lemma CongMul(q: nat, a: int, b: int, k: int)
    requires q >= 1 && Cong(q, a, b)
    ensures Cong(q, Times(a, k), Times(b, k))
  {
    ReduceMul(q, a, k);
    ReduceMul(q, b, k);
  }

  lemma {:induction false} ReduceMul(q: nat, a: int, k: int)
    requires q >= 1
    ensures Reduce(q, Times(a, k)) == Reduce(q, Times(Reduce(q, a), k))
    decreases if k < 0 then -k else k
  {
    if k > 0 {
      ReduceMul(q, a, k - 1);
      ReduceAddSame(q, Times(a, k - 1), Times(Reduce(q, a), k - 1), a);
    } else if k < 0 {
      ReduceMul(q, a, k + 1);
      ReduceSubSame(q, Times(a, k + 1), Times(Reduce(q, a), k + 1), a);
    }
  }

  lemma ReduceAddSame(q: nat, x: int, y: int, a: int)
    requires q >= 1 && Reduce(q, x) == Reduce(q, y)
    ensures Reduce(q, x + a) == Reduce(q, y + Reduce(q, a))
  {
    ReduceAdd(q, x, a);
    ReduceAdd(q, y, Reduce(q, a));
  }

  lemma ReduceSubSame(q: nat, x: int, y: int, a: int)
    requires q >= 1 && Reduce(q, x) == Reduce(q, y)
    ensures Reduce(q, x - a) == Reduce(q, y - Reduce(q, a))
  {
    ReduceSub(q, x, a);
    ReduceSub(q, y, Reduce(q, a));
  }

  /** The residue is the remainder of the division by q. */
  lemma {:induction false} ReduceIsRemainder(q: nat, a: int)
    requires q >= 1
    ensures Reduce(q, a) == a % q
    decreases if a < 0 then q - a else a
  {
    if a < 0 {
      ReduceIsRemainder(q, a + q);
      RemainderStep(q, a);
    } else if a >= q {
      var b := a - q;
      ReduceIsRemainder(q, b);
      RemainderStep(q, b);
    } else {
      SmallRemainder(q, a);
    }
  }

  lemma RemainderStep(q: nat, a: int)
    requires q >= 1
    ensures (a + q) % q == a % q
  {
    var x, y := (a + q) / q, a / q;
    var k := x - y - 1;
    assert (a + q) == x * q + (a + q) % q && a == y * q + a % q;
    assert k * q == a % q - (a + q) % q;
  }

  lemma SmallRemainder(q: nat, a: int)
    requires 0 <= a < q
    ensures a % q == a
  {
  }

  // ----- Sums over lists of indices -------------------------------------------------------

  /** The sum of xs at the indices listed in idx. */
  function SumAt(xs: seq<int>, idx: seq<nat>): int
    requires forall j :: 0 <= j < |idx| ==> idx[j] < |xs|
  {
    if idx == [] then 0 else xs[idx[0]] + SumAt(xs, idx[1..])
  }

  lemma {:induction false} SumAtConcat(xs: seq<int>, a: seq<nat>, b: seq<nat>)
    requires forall j :: 0 <= j < |a| ==> a[j] < |xs|
    requires forall j :: 0 <= j < |b| ==> b[j] < |xs|
    ensures SumAt(xs, a + b) == SumAt(xs, a) + SumAt(xs, b)
  {
    if a == [] {
      assert a + b == b;
    } else {
      SumAtConcat(xs, a[1..], b);
      assert (a + b)[1..] == a[1..] + b;
    }
  }

  function Without<T>(s: seq<T>, k: nat): seq<T>
    requires k < |s|
  {
    s[..k] + s[k + 1..]
  }

  lemma WithoutMultiset<T>(s: seq<T>, k: nat)
    requires k < |s|
    ensures multiset(Without(s, k)) == multiset(s) - multiset{s[k]}
  {
    assert s == s[..k] + [s[k]] + s[k + 1..];
  }

  lemma WithoutSum(xs: seq<int>, b: seq<nat>, k: nat)
    requires forall j :: 0 <= j < |b| ==> b[j] < |xs|
    requires k < |b|
    ensures SumAt(xs, b) == xs[b[k]] + SumAt(xs, Without(b, k))
  {
    assert b == b[..k] + ([b[k]] + b[k + 1..]);
    SumAtConcat(xs, b[..k], [b[k]] + b[k + 1..]);
    SumAtConcat(xs, b[..k], b[k + 1..]);
  }

  /** The order of the indices does not matter. */
  lemma {:induction false} SumAtPermuted(xs: seq<int>, a: seq<nat>, b: seq<nat>)
    requires forall j :: 0 <= j < |a| ==> a[j] < |xs|
    requires forall j :: 0 <= j < |b| ==> b[j] < |xs|
    requires multiset(a) == multiset(b)
    ensures SumAt(xs, a) == SumAt(xs, b)
    decreases |a|
  {
    if a == [] {
      assert |multiset(a)| == |a| && |multiset(b)| == |b|;
    } else {
      assert a[0] in multiset(b);
      var k :| 0 <= k < |b| && b[k] == a[0];
      WithoutMultiset(a, 0);
      WithoutMultiset(b, k);
      assert Without(a, 0) == a[1..];
      WithoutSum(xs, b, k);
      SumAtPermuted(xs, a[1..], Without(b, k));
    }
  }

  /** Sums are linear: if zs = xs + k * ys entry by entry, then so are the sums. */
  lemma {:induction false} SumAtLinear(xs: seq<int>, ys: seq<int>, zs: seq<int>, k: int, idx: seq<nat>)
    requires |xs| == |ys| == |zs| && forall j :: 0 <= j < |idx| ==> idx[j] < |xs|
    requires forall i :: 0 <= i < |zs| ==> zs[i] == xs[i] + Times(ys[i], k)
    ensures SumAt(zs, idx) == SumAt(xs, idx) + Times(SumAt(ys, idx), k)
  {
    if idx == [] {
      TimesZero(k);
    } else {
      SumAtLinear(xs, ys, zs, k, idx[1..]);
      TimesAdd(ys[idx[0]], SumAt(ys, idx[1..]), k);
    }
  }
}
