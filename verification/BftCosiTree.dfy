/** A whole run of BFTCoSi: the rounds over the tree and what the root outputs. */
module BftCosiTree {
  import opened Options
  import opened GroupArith
  import opened BftCosi

  /** A tree of roster indices. The children are listed in the order in which their messages arrive. */
  datatype Tree = Node(index: nat, children: seq<Tree>)

  function Nodes(t: Tree): seq<nat>
    decreases t, 1
  {
    NodesOf(t.children) + [t.index]
  }

  function NodesOf(ts: seq<Tree>): seq<nat>
    decreases ts, 0
  {
    if ts == [] then [] else NodesOf(ts[..|ts| - 1]) + Nodes(ts[|ts| - 1])
  }

  predicate Within(idx: seq<nat>, n: nat)
  {
    forall j :: 0 <= j < |idx| ==> idx[j] < n
  }

  lemma WithinParts(a: seq<nat>, b: seq<nat>, n: nat)
    requires Within(a + b, n)
    ensures Within(a, n) && Within(b, n)
  {
    assert forall j :: 0 <= j < |a| ==> a[j] == (a + b)[j];
    assert forall j :: 0 <= j < |b| ==> b[j] == (a + b)[|a| + j];
  }

  // ----- The commitment phase ------------------------------------------------------------------------

  /** The aggregate commitment of a subtree, for the given round secrets. */
  function CommitTree(q: nat, secrets: seq<int>, t: Tree): Point
    requires q >= 1 && Within(Nodes(t), |secrets|)
    decreases t, 1
  {
    WithinParts(NodesOf(t.children), [t.index], |secrets|);
    assert [t.index][0] < |secrets|;
    NodeCommit(q, secrets[t.index], CommitTrees(q, secrets, t.children))
  }

  function CommitTrees(q: nat, secrets: seq<int>, ts: seq<Tree>): (cs: seq<Point>)
    requires q >= 1 && Within(NodesOf(ts), |secrets|)
    ensures |cs| == |ts|
    decreases ts, 0
  {
    if ts == [] then []
    else
      WithinParts(NodesOf(ts[..|ts| - 1]), Nodes(ts[|ts| - 1]), |secrets|);
      CommitTrees(q, secrets, ts[..|ts| - 1]) + [CommitTree(q, secrets, ts[|ts| - 1])]
  }

  /** The aggregate commitment is the sum of the secrets of all nodes of the subtree. */
  lemma {:induction false} CommitTreeSum(q: nat, secrets: seq<int>, t: Tree)
    requires q >= 1 && Within(Nodes(t), |secrets|)
    ensures Cong(q, CommitTree(q, secrets, t).log, SumAt(secrets, Nodes(t)))
    decreases t, 1
  {
    WithinParts(NodesOf(t.children), [t.index], |secrets|);
    assert [t.index][0] < |secrets|;
    CommitTreesSum(q, secrets, t.children);
    SumAtConcat(secrets, NodesOf(t.children), [t.index]);
    assert [t.index][1..] == [];
    CongReduce(q, secrets[t.index]);
    CongModAdd(q, Reduce(q, secrets[t.index]), secrets[t.index],
               SumPoints(q, CommitTrees(q, secrets, t.children)).log, SumAt(secrets, NodesOf(t.children)));
  }

  lemma {:induction false} CommitTreesSum(q: nat, secrets: seq<int>, ts: seq<Tree>)
    requires q >= 1 && Within(NodesOf(ts), |secrets|)
    ensures Cong(q, SumPoints(q, CommitTrees(q, secrets, ts)).log, SumAt(secrets, NodesOf(ts)))
    decreases ts, 0
  {
    if ts == [] {
    } else {
      var front, last := ts[..|ts| - 1], ts[|ts| - 1];
      WithinParts(NodesOf(front), Nodes(last), |secrets|);
      CommitTreesSum(q, secrets, front);
      CommitTreeSum(q, secrets, last);
      SumAtConcat(secrets, NodesOf(front), Nodes(last));
      var cs := CommitTrees(q, secrets, ts);
      assert cs[..|cs| - 1] == CommitTrees(q, secrets, front);
      CongModAdd(q, SumPoints(q, CommitTrees(q, secrets, front)).log, SumAt(secrets, NodesOf(front)),
                 CommitTree(q, secrets, last).log, SumAt(secrets, Nodes(last)));
    }
  }

  // ----- The response phase of the prepare round --------------------------------------------------------

  /** The indices in idx whose decision is d. */
  function Select(accepts: seq<bool>, idx: seq<nat>, d: bool): (r: seq<nat>)
    requires Within(idx, |accepts|)
    ensures Within(r, |accepts|)
    ensures forall j :: 0 <= j < |r| ==> accepts[r[j]] == d
  {
    if idx == [] then []
    else
      var front := Select(accepts, idx[..|idx| - 1], d);
      if accepts[idx[|idx| - 1]] == d then front + [idx[|idx| - 1]] else front
  }

  lemma {:induction false} SelectConcat(accepts: seq<bool>, a: seq<nat>, b: seq<nat>, d: bool)
    requires Within(a, |accepts|) && Within(b, |accepts|)
    ensures Within(a + b, |accepts|)
    ensures Select(accepts, a + b, d) == Select(accepts, a, d) + Select(accepts, b, d)
    decreases |b|
  {
    if b == [] {
      assert a + b == a;
    } else {
      SelectConcat(accepts, a, b[..|b| - 1], d);
      assert (a + b)[..|a + b| - 1] == a + b[..|b| - 1];
      assert (a + b)[|a + b| - 1] == b[|b| - 1];
    }
  }

  /** Accepting and refusing nodes together make up the sum. */
  lemma {:induction false} SelectSplitsSum(accepts: seq<bool>, xs: seq<int>, idx: seq<nat>)
    requires |xs| == |accepts| && Within(idx, |accepts|)
    ensures SumAt(xs, Select(accepts, idx, true)) + SumAt(xs, Select(accepts, idx, false)) == SumAt(xs, idx)
    decreases |idx|
  {
    if idx != [] {
      var front, last := idx[..|idx| - 1], idx[|idx| - 1];
      SelectSplitsSum(accepts, xs, front);
      assert idx == front + [last];
      SumAtConcat(xs, front, [last]);
      SumAtConcat(xs, Select(accepts, front, accepts[last]), [last]);
    }
  }

  lemma {:induction false} SelectCounts(accepts: seq<bool>, idx: seq<nat>, d: bool, i: nat)
    requires Within(idx, |accepts|) && i < |accepts|
    ensures multiset(Select(accepts, idx, d))[i] == if accepts[i] == d then multiset(idx)[i] else 0
    decreases |idx|
  {
    if idx != [] {
      var front, last := idx[..|idx| - 1], idx[|idx| - 1];
      SelectCounts(accepts, front, d, i);
      assert idx == front + [last];
    }
  }

  /** The exceptions that the given nodes report. */
  function ExceptionsFor(s: Session, idx: seq<nat>): (es: seq<Exception>)
    requires s.WellFormed() && Within(idx, s.Size())
    ensures |es| == |idx|
    ensures forall j :: 0 <= j < |es| ==> es[j] == Exception(idx[j], BaseMul(s.q, s.vs[idx[j]]))
  {
    seq(|idx|, j requires 0 <= j < |idx| => Exception(idx[j], BaseMul(s.q, s.vs[idx[j]])))
  }

  function PrepareTree(s: Session, k: int, t: Tree): Response
    requires s.WellFormed() && Within(Nodes(t), s.Size())
    decreases t, 1
  {
    WithinParts(NodesOf(t.children), [t.index], s.Size());
    assert [t.index][0] < s.Size();
    PrepareResponse(s.q, t.index, s.vs[t.index], s.xs[t.index], s.accepts[t.index], k, PrepareTrees(s, k, t.children))
  }

  function PrepareTrees(s: Session, k: int, ts: seq<Tree>): (rs: seq<Response>)
    requires s.WellFormed() && Within(NodesOf(ts), s.Size())
    ensures |rs| == |ts|
    decreases ts, 0
  {
    if ts == [] then []
    else
      WithinParts(NodesOf(ts[..|ts| - 1]), Nodes(ts[|ts| - 1]), s.Size());
      PrepareTrees(s, k, ts[..|ts| - 1]) + [PrepareTree(s, k, ts[|ts| - 1])]
  }

  /** The individual responses v_i + k * x_i, before reduction modulo q. */
  function Plain(vs: seq<int>, xs: seq<int>, k: int): (r: seq<int>)
    requires |vs| == |xs|
    ensures |r| == |vs| && forall i :: 0 <= i < |r| ==> r[i] == vs[i] + Times(xs[i], k)
  {
    seq(|vs|, i requires 0 <= i < |vs| => vs[i] + Times(xs[i], k))
  }

  lemma OwnResponseCong(q: nat, v: int, k: int, x: int)
    requires q >= 1
    ensures Cong(q, OwnResponse(q, v, k, x), v + Times(x, k))
  {
    CongReduce(q, Times(x, k));
    CongModAdd(q, Reduce(q, Times(x, k)), Times(x, k), v, v);
  }

  lemma PrepareNodeSum(q: nat, index: nat, v: int, x: int, accepts: bool, k: int, children: seq<Response>, sum: int)
    requires q >= 1 && Cong(q, SumScalars(q, ResponsesOf(children)), sum)
    ensures Cong(q, PrepareResponse(q, index, v, x, accepts, k, children).response, sum + if accepts then v + Times(x, k) else 0)
  {
    var own, plain, got := OwnResponse(q, v, k, x), v + Times(x, k), SumScalars(q, ResponsesOf(children));
    OwnResponseCong(q, v, k, x);
    CongModAdd(q, own, plain, got, sum);
    if !accepts {
      CongModSub(q, Reduce(q, own + got), plain + sum, own, plain);
    }
  }

  lemma ResponsesStep(q: nat, fs: seq<Response>, r: Response, a: int, b: int)
    requires q >= 1 && Cong(q, SumScalars(q, ResponsesOf(fs)), a) && Cong(q, r.response, b)
    ensures Cong(q, SumScalars(q, ResponsesOf(fs + [r])), a + b)
  {
    assert ResponsesOf(fs + [r])[..|fs|] == ResponsesOf(fs);
    CongModAdd(q, SumScalars(q, ResponsesOf(fs)), a, r.response, b);
  }

  lemma SelectSingle(accepts: seq<bool>, xs: seq<int>, idx: seq<nat>, i: nat)
    requires |xs| == |accepts| && Within(idx, |accepts|) && i < |accepts|
    ensures Within(idx + [i], |accepts|)
    ensures SumAt(xs, Select(accepts, idx + [i], true)) == SumAt(xs, Select(accepts, idx, true)) + if accepts[i] then xs[i] else 0
    ensures Select(accepts, idx + [i], false) == Select(accepts, idx, false) + if accepts[i] then [] else [i]
  {
    assert (idx + [i])[..|idx|] == idx;
    SumAtConcat(xs, Select(accepts, idx, true), [i]);
  }

  /** In the prepare round the root's aggregate response is the sum over the accepting nodes. */
  lemma {:induction false} PrepareTreeSum(s: Session, k: int, t: Tree)
    requires s.WellFormed() && Within(Nodes(t), s.Size())
    ensures Cong(s.q, PrepareTree(s, k, t).response, SumAt(Plain(s.vs, s.xs, k), Select(s.accepts, Nodes(t), true)))
    decreases t, 1
  {
    var idx, i := NodesOf(t.children), t.index;
    WithinParts(idx, [i], s.Size());
    assert [i][0] < s.Size();
    PrepareTreesSum(s, k, t.children);
    SelectSingle(s.accepts, Plain(s.vs, s.xs, k), idx, i);
    PrepareNodeSum(s.q, i, s.vs[i], s.xs[i], s.accepts[i], k, PrepareTrees(s, k, t.children),
                   SumAt(Plain(s.vs, s.xs, k), Select(s.accepts, idx, true)));
  }

  lemma SelectedSum(accepts: seq<bool>, xs: seq<int>, a: seq<nat>, b: seq<nat>)
    requires |xs| == |accepts| && Within(a, |accepts|) && Within(b, |accepts|)
    ensures Within(a + b, |accepts|)
    ensures SumAt(xs, Select(accepts, a + b, true)) == SumAt(xs, Select(accepts, a, true)) + SumAt(xs, Select(accepts, b, true))
  {
    SelectConcat(accepts, a, b, true);
    SumAtConcat(xs, Select(accepts, a, true), Select(accepts, b, true));
  }

  lemma {:induction false} PrepareTreesSum(s: Session, k: int, ts: seq<Tree>)
    requires s.WellFormed() && Within(NodesOf(ts), s.Size())
    ensures Cong(s.q, SumScalars(s.q, ResponsesOf(PrepareTrees(s, k, ts))),
                 SumAt(Plain(s.vs, s.xs, k), Select(s.accepts, NodesOf(ts), true)))
    decreases ts, 0
  {
    if ts == [] {
    } else {
      var front, last := ts[..|ts| - 1], ts[|ts| - 1];
      var a, b := NodesOf(front), Nodes(last);
      WithinParts(a, b, s.Size());
      PrepareTreesSum(s, k, front);
      PrepareTreeSum(s, k, last);
      var plain := Plain(s.vs, s.xs, k);
      SelectedSum(s.accepts, plain, a, b);
      ResponsesStep(s.q, PrepareTrees(s, k, front), PrepareTree(s, k, last),
                    SumAt(plain, Select(s.accepts, a, true)), SumAt(plain, Select(s.accepts, b, true)));
    }
  }

  lemma ExceptionsForConcat(s: Session, a: seq<nat>, b: seq<nat>)
    requires s.WellFormed() && Within(a, s.Size()) && Within(b, s.Size())
    ensures Within(a + b, s.Size())
    ensures ExceptionsFor(s, a + b) == ExceptionsFor(s, a) + ExceptionsFor(s, b)
  {
  }

  /** In the prepare round the exceptions collected are exactly those of the refusing nodes. */
  lemma {:induction false} PrepareTreeExceptions(s: Session, k: int, t: Tree)
    requires s.WellFormed() && Within(Nodes(t), s.Size())
    ensures PrepareTree(s, k, t).exceptions == ExceptionsFor(s, Select(s.accepts, Nodes(t), false))
    decreases t, 1
  {
    var idx, i := NodesOf(t.children), t.index;
    WithinParts(idx, [i], s.Size());
    assert [i][0] < s.Size();
    PrepareTreesExceptions(s, k, t.children);
    SelectSingle(s.accepts, s.xs, idx, i);
    ExceptionsForConcat(s, Select(s.accepts, idx, false), if s.accepts[i] then [] else [i]);
    assert ExceptionsFor(s, [i]) == [Exception(i, BaseMul(s.q, s.vs[i]))];
  }

  lemma {:induction false} PrepareTreesExceptions(s: Session, k: int, ts: seq<Tree>)
    requires s.WellFormed() && Within(NodesOf(ts), s.Size())
    ensures Flatten(ExceptionsOf(PrepareTrees(s, k, ts))) == ExceptionsFor(s, Select(s.accepts, NodesOf(ts), false))
    decreases ts, 0
  {
    if ts != [] {
      var front, last := ts[..|ts| - 1], ts[|ts| - 1];
      var a, b := NodesOf(front), Nodes(last);
      WithinParts(a, b, s.Size());
      PrepareTreesExceptions(s, k, front);
      PrepareTreeExceptions(s, k, last);
      SelectConcat(s.accepts, a, b, false);
      var rs, fs := PrepareTrees(s, k, ts), PrepareTrees(s, k, front);
      assert ExceptionsOf(rs)[..|rs| - 1] == ExceptionsOf(fs);
      ExceptionsForConcat(s, Select(s.accepts, a, false), Select(s.accepts, b, false));
    }
  }
}
