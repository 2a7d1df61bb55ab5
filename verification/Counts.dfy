/** Small facts about counting: indicator numbers, intervals and sizes of subsets. */
module Counts {
  /** 1 if b holds, else 0. */
  function One(b: bool): nat
  {
    if b then 1 else 0
  }

  /** The numbers from lo up to but not including hi. */
  function Interval(lo: nat, hi: nat): (r: set<nat>)
    requires lo <= hi
    ensures |r| == hi - lo && forall k :: k in r <==> lo <= k < hi
    decreases hi - lo
  {
    if lo == hi then {} else Interval(lo, hi - 1) + {hi - 1}
  }

  /** How often x occurs in xs. */
  function Times<T(==)>(x: T, xs: seq<T>): nat
  {
    if xs == [] then 0 else One(xs[0] == x) + Times(x, xs[1..])
  }

  lemma {:induction false} TimesConcat<T>(x: T, a: seq<T>, b: seq<T>)
    ensures Times(x, a + b) == Times(x, a) + Times(x, b)
  {
    if a == [] {
      assert a + b == b;
    } else {
      TimesConcat(x, a[1..], b);
      assert (a + b)[1..] == a[1..] + b;
    }
  }

  lemma TimesOne<T>(x: T, y: T)
    ensures Times(x, [y]) == One(x == y)
  {
    assert [y][1..] == [];
  }

  lemma SubsetSize(a: set<nat>, b: set<nat>)
    requires a <= b
    ensures |a| <= |b| && (|a| == |b| ==> a == b)
  {
    if a != {} {
      var x :| x in a;
      SubsetSize(a - {x}, b - {x});
    }
  }
}
