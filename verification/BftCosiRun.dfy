/** When the signatures of a BFTCoSi run verify. */
module BftCosiRun {
  import opened Options
  import opened GroupArith
  import opened BftCosi
  import opened BftCosiTree

  function Range(n: nat): (r: seq<nat>)
    ensures |r| == n && forall i :: 0 <= i < n ==> r[i] == i
  {
    seq(n, i requires 0 <= i => i)
  }

  /** Exceptions are genuine for the round secrets us: each lists a roster member and its commitment. */
  predicate Genuine(q: nat, us: seq<int>, exs: seq<Exception>)
    requires q >= 1
  {
    forall e :: 0 <= e < |exs| ==> exs[e].index < |us| && exs[e].commitment == BaseMul(q, us[exs[e].index])
  }

  function IndicesOf(exs: seq<Exception>): (r: seq<nat>)
    ensures |r| == |exs| && forall e :: 0 <= e < |r| ==> r[e] == exs[e].index
  {
    seq(|exs|, e requires 0 <= e < |exs| => exs[e].index)
  }

  // ----- The aggregates that Verify computes, as sums ---------------------------------------------------

  /** The points ps stand for the numbers xs. */
  ghost predicate StandFor(q: nat, ps: seq<Point>, xs: seq<int>)
    requires q >= 1
  {
    |ps| == |xs| && forall i :: 0 <= i < |ps| ==> Cong(q, ps[i].log, xs[i])
  }

  lemma KeysStand(q: nat, ps: seq<Point>, xs: seq<int>)
    requires q >= 1 && |ps| == |xs| && forall i :: 0 <= i < |ps| ==> ps[i] == BaseMul(q, xs[i])
    ensures StandFor(q, ps, xs)
  {
    forall i | 0 <= i < |ps| ensures Cong(q, ps[i].log, xs[i]) { CongReduce(q, xs[i]); }
  }

  lemma {:induction false} PublicsSum(q: nat, xs: seq<int>, ps: seq<Point>, n: nat)
    requires q >= 1 && n <= |ps| && StandFor(q, ps, xs)
    ensures Cong(q, SumPoints(q, ps[..n]).log, SumAt(xs, Range(n)))
  {
    if n > 0 {
      PublicsSum(q, xs, ps, n - 1);
      assert ps[..n][..n - 1] == ps[..n - 1];
      assert Range(n) == Range(n - 1) + [n - 1];
      SumAtConcat(xs, Range(n - 1), [n - 1]);
      assert [n - 1][1..] == [];
      CongModAdd(q, SumPoints(q, ps[..n - 1]).log, SumAt(xs, Range(n - 1)), ps[n - 1].log, xs[n - 1]);
    }
  }

  /** The sum behind the commitments that exceptions list, whatever these are. */
  function CommitLogs(exs: seq<Exception>): int
  {
    if exs == [] then 0 else CommitLogs(exs[..|exs| - 1]) + exs[|exs| - 1].commitment.log
  }

  lemma {:induction false} ExceptionCommitLog(q: nat, exs: seq<Exception>)
    requires q >= 1
    ensures Cong(q, ExceptionCommit(q, exs).log, CommitLogs(exs))
  {
    if exs != [] {
      var front, last := exs[..|exs| - 1], exs[|exs| - 1];
      ExceptionCommitLog(q, front);
      CongModAdd(q, ExceptionCommit(q, front).log, CommitLogs(front), last.commitment.log, last.commitment.log);
    }
  }

  lemma {:induction false} GenuineLogs(q: nat, us: seq<int>, exs: seq<Exception>)
    requires q >= 1 && Genuine(q, us, exs)
    ensures Cong(q, CommitLogs(exs), SumAt(us, IndicesOf(exs)))
  {
    if exs != [] {
      var front, last := exs[..|exs| - 1], exs[|exs| - 1];
      GenuineLogs(q, us, front);
      IndicesStep(us, exs);
      CongReduce(q, us[last.index]);
      CongAdd(q, CommitLogs(front), SumAt(us, IndicesOf(front)), last.commitment.log, us[last.index]);
    }
  }

  lemma IndicesStep(us: seq<int>, exs: seq<Exception>)
    requires exs != [] && forall e :: 0 <= e < |exs| ==> exs[e].index < |us|
    ensures SumAt(us, IndicesOf(exs)) == SumAt(us, IndicesOf(exs[..|exs| - 1])) + us[exs[|exs| - 1].index]
  {
    var front, i := exs[..|exs| - 1], exs[|exs| - 1].index;
    assert IndicesOf(exs) == IndicesOf(front) + [i];
    SumAtConcat(us, IndicesOf(front), [i]);
    assert [i][1..] == [];
  }

  lemma {:induction false} ReducedSum(q: nat, xs: seq<int>, ps: seq<Point>, agg: Point, a: int, exs: seq<Exception>)
    requires q >= 1 && StandFor(q, ps, xs)
    requires forall e :: 0 <= e < |exs| ==> exs[e].index < |ps|
    requires Cong(q, agg.log, a)
    ensures Cong(q, ReducedPublic(q, agg, ps, exs).log, a - SumAt(xs, IndicesOf(exs)))
  {
    if exs != [] {
      var front, i := exs[..|exs| - 1], exs[|exs| - 1].index;
      ReducedSum(q, xs, ps, agg, a, front);
      IndicesStep(xs, exs);
      CongModSub(q, ReducedPublic(q, agg, ps, front).log, a - SumAt(xs, IndicesOf(front)), ps[i].log, xs[i]);
    }
  }

  lemma {:induction false} LeftSide(q: nat, r: int, k: int, reduced: Point, x: int)
    requires q >= 1 && Cong(q, reduced.log, x)
    ensures Cong(q, PointAdd(q, BaseMul(q, r), PointMul(q, PointNeg(q, reduced), k)).log, r - Times(x, k))
  {
    CongReduce(q, r);
    CongModSub(q, 0, 0, reduced.log, x);
    var minus := Reduce(q, 0 - reduced.log);
    CongMul(q, minus, 0 - x, k);
    CongReduce(q, Times(minus, k));
    CongModAdd(q, Reduce(q, r), r, Reduce(q, Times(minus, k)), Times(0 - x, k));
    TimesAdd(0, x, k);
    TimesZero(k);
  }

  /** The left side of the check, as a sum. */
  lemma {:induction false} CheckLeft(q: nat, xs: seq<int>, ps: seq<Point>, exs: seq<Exception>, r: int, k: int)
    requires q >= 1 && StandFor(q, ps, xs)
    requires forall e :: 0 <= e < |exs| ==> exs[e].index < |ps|
    ensures var reduced := ReducedPublic(q, PointAdd(q, NullPoint, SumPoints(q, ps)), ps, exs);
            Cong(q, PointAdd(q, BaseMul(q, r), PointMul(q, PointNeg(q, reduced), k)).log,
                 r - Times(SumAt(xs, Range(|xs|)) - SumAt(xs, IndicesOf(exs)), k))
  {
    var agg, all := SumPoints(q, ps), Range(|xs|);
    assert ps[..|ps|] == ps;
    PublicsSum(q, xs, ps, |ps|);
    CongModAdd(q, 0, 0, agg.log, SumAt(xs, all));
    ReducedSum(q, xs, ps, PointAdd(q, NullPoint, agg), SumAt(xs, all), exs);
    LeftSide(q, r, k, ReducedPublic(q, PointAdd(q, NullPoint, agg), ps, exs), SumAt(xs, all) - SumAt(xs, IndicesOf(exs)));
  }

  /** The right side of the check, as a sum. */
  lemma {:induction false} CheckRight(q: nat, exs: seq<Exception>, c: Point)
    requires q >= 1
    ensures Cong(q, PointSub(q, c, ExceptionCommit(q, exs)).log, c.log - CommitLogs(exs))
  {
    ExceptionCommitLog(q, exs);
    CongModSub(q, c.log, c.log, ExceptionCommit(q, exs).log, CommitLogs(exs));
  }

  lemma PointsEqual(q: nat, a: Point, b: Point, l: int, c: Point, d: Point, m: int, r: int, sum: int)
    requires q >= 1 && Cong(q, PointAdd(q, a, b).log, l) && Cong(q, PointSub(q, c, d).log, m) && l - m == r - sum
    ensures PointAdd(q, a, b) == PointSub(q, c, d) <==> Cong(q, r, sum)
  {
    SidesEqual(q, PointAdd(q, a, b).log, l, PointSub(q, c, d).log, m, r, sum);
  }

  lemma SidesEqual(q: nat, left: int, l: int, right: int, r: int, a: int, b: int)
    requires q >= 1 && 0 <= left < q && 0 <= right < q
    requires Cong(q, left, l) && Cong(q, right, r) && l - r == a - b
    ensures left == right <==> Cong(q, a, b)
  {
    if left == right {
      CongAdd(q, l, r, b - r, b - r);
    }
    if Cong(q, a, b) {
      CongAdd(q, a, b, r - b, r - b);
    }
  }

  /** The two sides of the check stand for integers whose difference is the error in the response. */
  lemma {:induction false} CheckedSides(q: nat, xs: seq<int>, ps: seq<Point>, exs: seq<Exception>, c: Point, r: int, k: int)
    requires q >= 1 && StandFor(q, ps, xs) && forall e :: 0 <= e < |exs| ==> exs[e].index < |ps|
    ensures PointAdd(q, BaseMul(q, r),
              PointMul(q, PointNeg(q, ReducedPublic(q, PointAdd(q, NullPoint, SumPoints(q, ps)), ps, exs)), k))
            == PointSub(q, c, ExceptionCommit(q, exs))
            <==> Cong(q, r, c.log - CommitLogs(exs) + Times(SumAt(xs, Range(|xs|)) - SumAt(xs, IndicesOf(exs)), k))
  {
    var reduced := ReducedPublic(q, PointAdd(q, NullPoint, SumPoints(q, ps)), ps, exs);
    var keys, commits := Times(SumAt(xs, Range(|xs|)) - SumAt(xs, IndicesOf(exs)), k), c.log - CommitLogs(exs);
    CheckLeft(q, xs, ps, exs, r, k);
    CheckRight(q, exs, c);
    PointsEqual(q, BaseMul(q, r), PointMul(q, PointNeg(q, reduced), k), r - keys,
                c, ExceptionCommit(q, exs), commits, r, commits + keys);
  }

  // ----- What Verify accepts ------------------------------------------------------------------------------

  /** For every signature and all keys, whoever made them: Verify accepts exactly if there are a signature
      and a message, and the response is the commitment without the exceptions' commitments plus the
      challenge times the keys without the exceptions' keys, modulo q. */
  lemma {:induction false} VerifiesExactly(q: nat, hash: (Point, Point, seq<int>) -> int, xs: seq<int>, ps: seq<Point>, bs: BFTSignature)
    requires q >= 1 && StandFor(q, ps, xs) && forall e :: 0 <= e < |bs.exceptions| ==> bs.exceptions[e].index < |ps|
    ensures Verifies(q, hash, ps, bs) <==>
      && bs.sig.Some? && bs.msg.Some?
      && var k := hash(bs.sig.value.commit, SumPoints(q, ps), bs.msg.value);
         Cong(q, bs.sig.value.response,
              bs.sig.value.commit.log - CommitLogs(bs.exceptions) + Times(SumAt(xs, Range(|xs|)) - SumAt(xs, IndicesOf(bs.exceptions)), k))
  {
    if bs.sig.Some? && bs.msg.Some? {
      var k := hash(bs.sig.value.commit, SumPoints(q, ps), bs.msg.value);
      CheckedSides(q, xs, ps, bs.exceptions, bs.sig.value.commit, bs.sig.value.response, k);
    }
  }

  lemma SumsOfCheck(xs: seq<int>, us: seq<int>, plain: seq<int>, k: int, all: seq<nat>, idx: seq<nat>)
    requires |xs| == |us| == |plain| && Within(all, |xs|) && Within(idx, |xs|)
    requires forall i :: 0 <= i < |plain| ==> plain[i] == us[i] + Times(xs[i], k)
    ensures SumAt(us, all) - SumAt(us, idx) + Times(SumAt(xs, all) - SumAt(xs, idx), k) == SumAt(plain, all) - SumAt(plain, idx)
  {
    SumAtLinear(us, xs, plain, k, all);
    SumAtLinear(us, xs, plain, k, idx);
    TimesAdd(SumAt(xs, all), SumAt(xs, idx), k);
  }

  lemma CongReplace(q: nat, c: int, d: int, e: int, f: int, x: int)
    requires q >= 1 && Cong(q, c, d) && Cong(q, e, f)
    ensures Cong(q, c - e + x, d - f + x)
  {
    CongSub(q, c, d, e, f);
    CongAdd(q, c - e, d - f, x, x);
  }

  /** With genuine exceptions and the aggregate commitment of the whole roster, the signature verifies
      exactly when its response is the sum of all responses minus those of the listed exceptions, modulo q. */
  lemma {:induction false} VerifiesIff(q: nat, hash: (Point, Point, seq<int>) -> int, xs: seq<int>, us: seq<int>, ps: seq<Point>, bs: BFTSignature)
    requires q >= 1 && |xs| == |us| == |ps| && forall i :: 0 <= i < |ps| ==> ps[i] == BaseMul(q, xs[i])
    requires bs.sig.Some? && bs.msg.Some? && Genuine(q, us, bs.exceptions)
    requires Cong(q, bs.sig.value.commit.log, SumAt(us, Range(|us|)))
    ensures var k := hash(bs.sig.value.commit, SumPoints(q, ps), bs.msg.value);
            var plain := Plain(us, xs, k);
            Verifies(q, hash, ps, bs) <==>
              Cong(q, bs.sig.value.response, SumAt(plain, Range(|us|)) - SumAt(plain, IndicesOf(bs.exceptions)))
  {
    var k := hash(bs.sig.value.commit, SumPoints(q, ps), bs.msg.value);
    KeysStand(q, ps, xs);
    VerifiesExactly(q, hash, xs, ps, bs);
    GenuineSum(q, xs, us, bs.exceptions, bs.sig.value.commit.log, k);
  }

  lemma {:induction false} GenuineSum(q: nat, xs: seq<int>, us: seq<int>, exs: seq<Exception>, c: int, k: int)
    requires q >= 1 && |xs| == |us| && Genuine(q, us, exs) && Cong(q, c, SumAt(us, Range(|us|)))
    ensures var plain := Plain(us, xs, k);
            Cong(q, c - CommitLogs(exs) + Times(SumAt(xs, Range(|xs|)) - SumAt(xs, IndicesOf(exs)), k),
                 SumAt(plain, Range(|us|)) - SumAt(plain, IndicesOf(exs)))
  {
    GenuineLogs(q, us, exs);
    SumsOfCheck(xs, us, Plain(us, xs, k), k, Range(|us|), IndicesOf(exs));
    CongReplace(q, c, SumAt(us, Range(|us|)), CommitLogs(exs), SumAt(us, IndicesOf(exs)),
                Times(SumAt(xs, Range(|xs|)) - SumAt(xs, IndicesOf(exs)), k));
  }
}
