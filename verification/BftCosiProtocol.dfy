/** Complete runs of BFTCoSi and what they promise. */
module BftCosiProtocol {
  import opened Options
  import opened GroupArith
  import opened BftCosi
  import opened BftCosiTree
  import opened BftCosiRun

  /** The tree holds every member of the roster exactly once. */
  ghost predicate OnRoster(t: Tree, n: nat)
  {
    multiset(Nodes(t)) == multiset(Range(n))
  }

  lemma RosterWithin(idx: seq<nat>, n: nat)
    requires multiset(idx) == multiset(Range(n))
    ensures Within(idx, n)
    ensures |idx| == n
    ensures forall i :: 0 <= i < n ==> multiset(idx)[i] == 1
  {
    forall j | 0 <= j < |idx| ensures idx[j] < n {
      assert idx[j] in multiset(Range(n));
    }
    assert |multiset(idx)| == |idx| && |multiset(Range(n))| == n;
    forall i | 0 <= i < n ensures multiset(idx)[i] == 1 {
      RangeCounts(n, i);
    }
  }

  lemma {:induction false} RangeCounts(n: nat, i: nat)
    ensures multiset(Range(n))[i] == if i < n then 1 else 0
  {
    if n > 0 {
      RangeCounts(n - 1, i);
      assert Range(n) == Range(n - 1) + [n - 1];
    }
  }

  /** The orders in which the messages of the four phases arrive: each is the tree of the run with
      the children of every node in the order of arrival. */
  datatype Arrivals = Arrivals(prepareCommits: Tree, prepareResponses: Tree, commitCommits: Tree, commitResponses: Tree)
  {
    ghost predicate On(n: nat)
    {
      OnRoster(prepareCommits, n) && OnRoster(prepareResponses, n) && OnRoster(commitCommits, n) && OnRoster(commitResponses, n)
    }
  }

  /** The prepare signature that the root builds, with the exceptions it collected. */
  ghost function Prepared(s: Session, msg: seq<int>, a: Arrivals): BFTSignature
    requires s.WellFormed() && a.On(s.Size())
  {
    RosterWithin(Nodes(a.prepareCommits), s.Size());
    RosterWithin(Nodes(a.prepareResponses), s.Size());
    var commit := CommitTree(s.q, s.vs, a.prepareCommits);
    var k := s.hash(commit, SumPoints(s.q, s.Publics()), s.digest(msg));
    var r := PrepareTree(s, k, a.prepareResponses);
    BFTSignature(Some(CosiSignature(commit, r.response)), Some(s.digest(msg)), r.exceptions)
  }

  /** The aggregate response of the commit round; a node that does not sign takes its share out. */
  function CommitResponseTree(q: nat, ws: seq<int>, xs: seq<int>, signs: seq<bool>, k: int, t: Tree): int
    requires q >= 1 && |ws| == |xs| == |signs| && Within(Nodes(t), |ws|)
    decreases t, 1
  {
    WithinParts(NodesOf(t.children), [t.index], |ws|);
    assert [t.index][0] < |ws|;
    CommitResponse(q, ws[t.index], xs[t.index], !signs[t.index], k, CommitResponseTrees(q, ws, xs, signs, k, t.children))
  }

  function CommitResponseTrees(q: nat, ws: seq<int>, xs: seq<int>, signs: seq<bool>, k: int, ts: seq<Tree>): (rs: seq<int>)
    requires q >= 1 && |ws| == |xs| == |signs| && Within(NodesOf(ts), |ws|)
    ensures |rs| == |ts|
    decreases ts, 0
  {
    if ts == [] then []
    else
      WithinParts(NodesOf(ts[..|ts| - 1]), Nodes(ts[|ts| - 1]), |ws|);
      CommitResponseTrees(q, ws, xs, signs, k, ts[..|ts| - 1]) + [CommitResponseTree(q, ws, xs, signs, k, ts[|ts| - 1])]
  }

  /** The signature of the commit round when signs says who takes part, for the orders tc and tr of arrival. */
  ghost function CommitSignature(s: Session, msg: seq<int>, tc: Tree, tr: Tree, signs: seq<bool>): CosiSignature
    requires s.WellFormed() && OnRoster(tc, s.Size()) && OnRoster(tr, s.Size()) && |signs| == s.Size()
  {
    RosterWithin(Nodes(tc), s.Size());
    RosterWithin(Nodes(tr), s.Size());
    var commit := CommitTree(s.q, s.ws, tc);
    var k := s.hash(commit, SumPoints(s.q, s.Publics()), msg);
    CosiSignature(commit, CommitResponseTree(s.q, s.ws, s.xs, signs, k, tr))
  }

  /** All nodes decide the same. */
  function Everybody(n: nat, signs: bool): (r: seq<bool>)
    ensures |r| == n && forall i :: 0 <= i < n ==> r[i] == signs
  {
    seq(n, i => signs)
  }

  lemma PreparedWellIndexed(s: Session, msg: seq<int>, a: Arrivals)
    requires s.WellFormed() && a.On(s.Size())
    ensures Genuine(s.q, s.vs, Prepared(s, msg, a).exceptions)
    ensures Prepared(s, msg, a).exceptions == ExceptionsFor(s, Refusers(s, a))
  {
    RosterWithin(Nodes(a.prepareCommits), s.Size());
    RosterWithin(Nodes(a.prepareResponses), s.Size());
    var k := s.hash(CommitTree(s.q, s.vs, a.prepareCommits), SumPoints(s.q, s.Publics()), s.digest(msg));
    PrepareTreeExceptions(s, k, a.prepareResponses);
  }

  /** The refusing nodes, in the order in which their exceptions arrive at the root. */
  ghost function Refusers(s: Session, a: Arrivals): (r: seq<nat>)
    requires s.WellFormed() && a.On(s.Size())
    ensures Within(r, s.Size())
  {
    RosterWithin(Nodes(a.prepareResponses), s.Size());
    Select(s.accepts, Nodes(a.prepareResponses), false)
  }

  /** What the root outputs: the signature of the commit round, or nothing but the exceptions. */
  ghost function Output(s: Session, msg: seq<int>, a: Arrivals): BFTSignature
    requires s.WellFormed() && a.On(s.Size())
  {
    PreparedWellIndexed(s, msg, a);
    var prepared := Prepared(s, msg, a);
    var declines := Declines(s.q, s.hash, s.Publics(), prepared, s.Threshold());
    var round := CommitSignature(s, msg, a.commitCommits, a.commitResponses, Everybody(s.Size(), !declines));
    RootOutput(declines, round, msg, prepared.exceptions)
  }

  // ----- The exceptions ----------------------------------------------------------------------------------

  /** Every refuser is listed exactly once, and nobody else is. */
  lemma RefusersOnce(s: Session, msg: seq<int>, a: Arrivals, i: nat)
    requires s.WellFormed() && a.On(s.Size()) && i < s.Size()
    ensures multiset(IndicesOf(Prepared(s, msg, a).exceptions))[i] == if s.accepts[i] then 0 else 1
    ensures forall e :: 0 <= e < |Prepared(s, msg, a).exceptions| ==> Prepared(s, msg, a).exceptions[e].index < s.Size()
  {
    PreparedWellIndexed(s, msg, a);
    RosterWithin(Nodes(a.prepareResponses), s.Size());
    SelectCounts(s.accepts, Nodes(a.prepareResponses), false, i);
    assert IndicesOf(Prepared(s, msg, a).exceptions) == Refusers(s, a);
  }

  /** The number of members of the roster whose decision is d. */
  function CountDecided(accepts: seq<bool>, d: bool): nat
  {
    if accepts == [] then 0
    else CountDecided(accepts[..|accepts| - 1], d) + if accepts[|accepts| - 1] == d then 1 else 0
  }

  lemma CountStep(accepts: seq<bool>, last: bool)
    ensures CountDecided(accepts + [last], true) == CountDecided(accepts, true) + if last then 1 else 0
    ensures CountDecided(accepts + [last], false) == CountDecided(accepts, false) + if last then 0 else 1
  {
    assert (accepts + [last])[..|accepts|] == accepts;
  }

  lemma TwoOfFour(accepts: seq<bool>)
    requires accepts == [true, true, false, false]
    ensures CountDecided(accepts, true) == 2 == CountDecided(accepts, false)
  {
    var none, one, two, three := [], [true], [true, true], [true, true, false];
    CountStep(none, true);
    assert none + [true] == one;
    CountStep(one, true);
    assert one + [true] == two;
    CountStep(two, false);
    assert two + [false] == three;
    CountStep(three, false);
    assert three + [false] == accepts;
  }

  lemma {:induction false} SelectRange(accepts: seq<bool>, n: nat, d: bool)
    requires n <= |accepts|
    ensures |Select(accepts, Range(n), d)| == CountDecided(accepts[..n], d)
  {
    if n > 0 {
      SelectRange(accepts, n - 1, d);
      assert Range(n)[..n - 1] == Range(n - 1);
      assert accepts[..n][..n - 1] == accepts[..n - 1];
    }
  }

  lemma {:induction false} CountsAddUp(accepts: seq<bool>)
    ensures CountDecided(accepts, true) + CountDecided(accepts, false) == |accepts|
  {
    if accepts != [] { CountsAddUp(accepts[..|accepts| - 1]); }
  }

  lemma {:induction false} SelectMultiset(accepts: seq<bool>, x: seq<nat>, y: seq<nat>, d: bool)
    requires Within(x, |accepts|) && Within(y, |accepts|) && multiset(x) == multiset(y)
    ensures multiset(Select(accepts, x, d)) == multiset(Select(accepts, y, d))
    ensures |Select(accepts, x, d)| == |Select(accepts, y, d)|
  {
    var a, b := multiset(Select(accepts, x, d)), multiset(Select(accepts, y, d));
    forall i: nat ensures a[i] == b[i] {
      if i < |accepts| {
        SelectCounts(accepts, x, d, i);
        SelectCounts(accepts, y, d, i);
      } else {
        assert i !in Select(accepts, x, d) && i !in Select(accepts, y, d);
      }
    }
    assert a == b;
    assert |a| == |Select(accepts, x, d)| && |b| == |Select(accepts, y, d)|;
  }

  /** As many exceptions as refusals. */
  lemma ExceptionCount(s: Session, msg: seq<int>, a: Arrivals)
    requires s.WellFormed() && a.On(s.Size())
    ensures |Prepared(s, msg, a).exceptions| == CountDecided(s.accepts, false)
  {
    PreparedWellIndexed(s, msg, a);
    var n := s.Size();
    RosterWithin(Nodes(a.prepareResponses), n);
    SelectMultiset(s.accepts, Nodes(a.prepareResponses), Range(n), false);
    SelectRange(s.accepts, n, false);
    assert s.accepts[..n] == s.accepts;
  }

  // ----- The prepare signature -------------------------------------------------------------------------------

  lemma RoundCommit(s: Session, secrets: seq<int>, t: Tree)
    requires s.WellFormed() && |secrets| == s.Size() && OnRoster(t, s.Size())
    ensures Within(Nodes(t), |secrets|)
    ensures Cong(s.q, CommitTree(s.q, secrets, t).log, SumAt(secrets, Range(s.Size())))
  {
    RosterWithin(Nodes(t), s.Size());
    CommitTreeSum(s.q, secrets, t);
    SumAtPermuted(secrets, Nodes(t), Range(s.Size()));
  }

  /** The challenge of the prepare round. */
  ghost function PrepareChallenge(s: Session, msg: seq<int>, a: Arrivals): int
    requires s.WellFormed() && a.On(s.Size())
  {
    s.hash(Prepared(s, msg, a).sig.value.commit, SumPoints(s.q, s.Publics()), s.digest(msg))
  }

  /** The prepare signature verifies against the exceptions of these refusers only. */
  ghost predicate VerifiesKeeping(s: Session, msg: seq<int>, a: Arrivals, kept: seq<nat>)
    requires s.WellFormed() && a.On(s.Size()) && Within(kept, s.Size())
  {
    Verifies(s.q, s.hash, s.Publics(), Prepared(s, msg, a).(exceptions := ExceptionsFor(s, kept)))
  }

  /** The full responses of all nodes in the prepare round. */
  ghost function PrepareResponses(s: Session, msg: seq<int>, a: Arrivals): (plain: seq<int>)
    requires s.WellFormed() && a.On(s.Size())
    ensures |plain| == s.Size()
  {
    Plain(s.vs, s.xs, PrepareChallenge(s, msg, a))
  }

  /** The response r stands for the responses xs of all nodes without those of the nodes in idx. */
  ghost predicate Lacks(q: nat, r: int, xs: seq<int>, idx: seq<nat>)
    requires q >= 1 && Within(idx, |xs|)
  {
    Cong(q, r, SumAt(xs, Range(|xs|)) - SumAt(xs, idx))
  }

  ghost predicate ResponseLacks(s: Session, msg: seq<int>, a: Arrivals, idx: seq<nat>)
    requires s.WellFormed() && a.On(s.Size()) && Within(idx, s.Size())
  {
    Lacks(s.q, Prepared(s, msg, a).sig.value.response, PrepareResponses(s, msg, a), idx)
  }

  /** What the prepare response lacks are the responses of the refusers. */
  lemma {:induction false} PreparedResponse(s: Session, msg: seq<int>, a: Arrivals)
    requires s.WellFormed() && a.On(s.Size())
    ensures ResponseLacks(s, msg, a, Refusers(s, a))
  {
    var k, idx := PrepareChallenge(s, msg, a), Nodes(a.prepareResponses);
    var plain := Plain(s.vs, s.xs, k);
    RosterWithin(idx, s.Size());
    PrepareTreeSum(s, k, a.prepareResponses);
    SelectSplitsSum(s.accepts, plain, idx);
    SumAtPermuted(plain, idx, Range(s.Size()));
  }

  /** Verifying the prepare signature against some of the collected exceptions succeeds exactly when the
      responses of the refusers left out add up to zero modulo the group order. */
  lemma {:induction false} PartialExceptions(s: Session, msg: seq<int>, a: Arrivals, kept: seq<nat>, omitted: seq<nat>)
    requires s.WellFormed() && a.On(s.Size())
    requires Within(kept, s.Size()) && Within(omitted, s.Size())
    requires multiset(kept) + multiset(omitted) == multiset(Refusers(s, a))
    ensures VerifiesKeeping(s, msg, a, kept) <==> Reduce(s.q, SumAt(PrepareResponses(s, msg, a), omitted)) == 0
  {
    KeptVerifies(s, msg, a, kept);
    PreparedResponse(s, msg, a);
    LacksLess(s.q, Prepared(s, msg, a).sig.value.response, PrepareResponses(s, msg, a), kept, omitted, Refusers(s, a));
  }

  lemma {:induction false} LacksLess(q: nat, r: int, xs: seq<int>, kept: seq<nat>, omitted: seq<nat>, refused: seq<nat>)
    requires q >= 1 && Within(kept, |xs|) && Within(omitted, |xs|) && Within(refused, |xs|)
    requires multiset(kept) + multiset(omitted) == multiset(refused) && Lacks(q, r, xs, refused)
    ensures Lacks(q, r, xs, kept) <==> Reduce(q, SumAt(xs, omitted)) == 0
  {
    SplitSum(xs, kept, omitted, refused);
    OmittedSum(q, r, SumAt(xs, Range(|xs|)), SumAt(xs, kept), SumAt(xs, omitted));
  }

  lemma {:induction false} SplitSum(xs: seq<int>, kept: seq<nat>, omitted: seq<nat>, all: seq<nat>)
    requires Within(kept, |xs|) && Within(omitted, |xs|) && Within(all, |xs|)
    requires multiset(kept) + multiset(omitted) == multiset(all)
    ensures SumAt(xs, all) == SumAt(xs, kept) + SumAt(xs, omitted)
  {
    assert multiset(kept + omitted) == multiset(kept) + multiset(omitted);
    SumAtConcat(xs, kept, omitted);
    SumAtPermuted(xs, kept + omitted, all);
  }

  /** Verification against some exceptions compares the response with the sum over the others. */
  lemma {:induction false} KeptVerifies(s: Session, msg: seq<int>, a: Arrivals, kept: seq<nat>)
    requires s.WellFormed() && a.On(s.Size()) && Within(kept, s.Size())
    ensures VerifiesKeeping(s, msg, a, kept) <==> ResponseLacks(s, msg, a, kept)
  {
    RoundCommit(s, s.vs, a.prepareCommits);
    SignatureLacks(s, Prepared(s, msg, a).(exceptions := ExceptionsFor(s, kept)), kept);
  }

  lemma {:induction false} SignatureLacks(s: Session, bs: BFTSignature, kept: seq<nat>)
    requires s.WellFormed() && Within(kept, s.Size()) && bs.sig.Some? && bs.msg.Some? && bs.exceptions == ExceptionsFor(s, kept)
    requires Cong(s.q, bs.sig.value.commit.log, SumAt(s.vs, Range(s.Size())))
    ensures var k := s.hash(bs.sig.value.commit, SumPoints(s.q, s.Publics()), bs.msg.value);
            Verifies(s.q, s.hash, s.Publics(), bs) <==> Lacks(s.q, bs.sig.value.response, Plain(s.vs, s.xs, k), kept)
  {
    VerifiesIff(s.q, s.hash, s.xs, s.vs, s.Publics(), bs);
    assert IndicesOf(bs.exceptions) == kept;
  }

  lemma OmittedSum(q: nat, r: int, total: int, kept: int, omitted: int)
    requires q >= 1 && Cong(q, r, total - (kept + omitted))
    ensures Cong(q, r, total - kept) <==> Reduce(q, omitted) == 0
  {
    assert Reduce(q, 0) == 0;
    if Cong(q, r, total - kept) {
      CongSub(q, total - kept, r, total - (kept + omitted), r);
      assert (total - kept) - (total - (kept + omitted)) == omitted;
    }
    if Reduce(q, omitted) == 0 {
      CongAdd(q, total - (kept + omitted), r, omitted, 0);
      assert total - (kept + omitted) + omitted == total - kept;
    }
  }

  /** For every tree and every set of refusing nodes the prepare signature verifies. */
  lemma PreparedVerifies(s: Session, msg: seq<int>, a: Arrivals)
    requires s.WellFormed() && a.On(s.Size())
    ensures forall e :: 0 <= e < |Prepared(s, msg, a).exceptions| ==> Prepared(s, msg, a).exceptions[e].index < s.Size()
    ensures Prepared(s, msg, a).msg == Some(s.digest(msg)) && Verifies(s.q, s.hash, s.Publics(), Prepared(s, msg, a))
  {
    PreparedWellIndexed(s, msg, a);
    PartialExceptions(s, msg, a, Refusers(s, a), []);
    assert Prepared(s, msg, a).(exceptions := ExceptionsFor(s, Refusers(s, a))) == Prepared(s, msg, a);
  }

  // ----- The outcome ---------------------------------------------------------------------------------------------

  /** A node that is shown the prepare signature with some of the refusals only declines exactly if the
      responses of the refusers left out do not add up to zero, or the others reach the threshold. */
  lemma {:induction false} DeclinesIff(s: Session, msg: seq<int>, a: Arrivals, kept: seq<nat>, omitted: seq<nat>)
    requires s.WellFormed() && a.On(s.Size())
    requires Within(kept, s.Size()) && Within(omitted, s.Size())
    requires multiset(kept) + multiset(omitted) == multiset(Refusers(s, a))
    ensures Declines(s.q, s.hash, s.Publics(), Prepared(s, msg, a).(exceptions := ExceptionsFor(s, kept)), s.Threshold())
      <==> Reduce(s.q, SumAt(PrepareResponses(s, msg, a), omitted)) != 0 || |kept| >= (s.Size() + 1) * 2 / 3
  {
    PartialExceptions(s, msg, a, kept, omitted);
  }

  lemma CommitNodeSum(q: nat, w: int, x: int, signs: bool, k: int, children: seq<int>, sum: int)
    requires q >= 1 && Cong(q, SumScalars(q, children), sum)
    ensures Cong(q, CommitResponse(q, w, x, !signs, k, children), sum + if signs then w + Times(x, k) else 0)
  {
    var own, plain, got := OwnResponse(q, w, k, x), w + Times(x, k), SumScalars(q, children);
    OwnResponseCong(q, w, k, x);
    CongModAdd(q, own, plain, got, sum);
    if !signs {
      CongModSub(q, Reduce(q, own + got), plain + sum, own, plain);
    }
  }

  /** In the commit round the aggregate response is the sum over the nodes that sign. */
  lemma {:induction false} CommitResponseSum(q: nat, ws: seq<int>, xs: seq<int>, signs: seq<bool>, k: int, t: Tree)
    requires q >= 1 && |ws| == |xs| == |signs| && Within(Nodes(t), |ws|)
    ensures Cong(q, CommitResponseTree(q, ws, xs, signs, k, t), SumAt(Plain(ws, xs, k), Select(signs, Nodes(t), true)))
    decreases t, 1
  {
    var idx, i := NodesOf(t.children), t.index;
    WithinParts(idx, [i], |ws|);
    assert [i][0] < |ws|;
    CommitResponsesSum(q, ws, xs, signs, k, t.children);
    SelectSingle(signs, Plain(ws, xs, k), idx, i);
    CommitNodeSum(q, ws[i], xs[i], signs[i], k, CommitResponseTrees(q, ws, xs, signs, k, t.children),
                  SumAt(Plain(ws, xs, k), Select(signs, idx, true)));
  }

  lemma {:induction false} CommitResponsesSum(q: nat, ws: seq<int>, xs: seq<int>, signs: seq<bool>, k: int, ts: seq<Tree>)
    requires q >= 1 && |ws| == |xs| == |signs| && Within(NodesOf(ts), |ws|)
    ensures Cong(q, SumScalars(q, CommitResponseTrees(q, ws, xs, signs, k, ts)),
                 SumAt(Plain(ws, xs, k), Select(signs, NodesOf(ts), true)))
    decreases ts, 0
  {
    if ts != [] {
      var front, last, plain := ts[..|ts| - 1], ts[|ts| - 1], Plain(ws, xs, k);
      WithinParts(NodesOf(front), Nodes(last), |ws|);
      CommitResponsesSum(q, ws, xs, signs, k, front);
      CommitResponseSum(q, ws, xs, signs, k, last);
      SelectedSum(signs, plain, NodesOf(front), Nodes(last));
      var rs := CommitResponseTrees(q, ws, xs, signs, k, ts);
      assert rs[..|rs| - 1] == CommitResponseTrees(q, ws, xs, signs, k, front);
      CongModAdd(q, SumScalars(q, CommitResponseTrees(q, ws, xs, signs, k, front)), SumAt(plain, Select(signs, NodesOf(front), true)),
                 CommitResponseTree(q, ws, xs, signs, k, last), SumAt(plain, Select(signs, Nodes(last), true)));
    }
  }

  lemma {:induction false} CommitResponseLacks(s: Session, msg: seq<int>, tc: Tree, tr: Tree, signs: seq<bool>)
    requires s.WellFormed() && OnRoster(tc, s.Size()) && OnRoster(tr, s.Size()) && |signs| == s.Size()
    ensures Within(Nodes(tr), s.Size())
    ensures var round := CommitSignature(s, msg, tc, tr, signs);
            var plain := Plain(s.ws, s.xs, s.hash(round.commit, SumPoints(s.q, s.Publics()), msg));
            Lacks(s.q, round.response, plain, Select(signs, Nodes(tr), false))
  {
    RosterWithin(Nodes(tr), s.Size());
    RosterWithin(Nodes(tc), s.Size());
    var k := s.hash(CommitTree(s.q, s.ws, tc), SumPoints(s.q, s.Publics()), msg);
    var plain := Plain(s.ws, s.xs, k);
    CommitResponseSum(s.q, s.ws, s.xs, signs, k, tr);
    SelectSplitsSum(signs, plain, Nodes(tr));
    SumAtPermuted(plain, Nodes(tr), Range(s.Size()));
  }

  /** The signature of the commit round verifies exactly if the responses of the nodes that declined, for
      whatever reason, add up to zero modulo the group order. */
  lemma {:induction false} CommitVerifiesIff(s: Session, msg: seq<int>, tc: Tree, tr: Tree, signs: seq<bool>)
    requires s.WellFormed() && OnRoster(tc, s.Size()) && OnRoster(tr, s.Size()) && |signs| == s.Size()
    ensures Within(Nodes(tr), s.Size())
    ensures var round := CommitSignature(s, msg, tc, tr, signs);
            var plain := Plain(s.ws, s.xs, s.hash(round.commit, SumPoints(s.q, s.Publics()), msg));
            Verifies(s.q, s.hash, s.Publics(), BFTSignature(Some(round), Some(msg), []))
            <==> Reduce(s.q, SumAt(plain, Select(signs, Nodes(tr), false))) == 0
  {
    var round := CommitSignature(s, msg, tc, tr, signs);
    CommitResponseLacks(s, msg, tc, tr, signs);
    RoundCommit(s, s.ws, tc);
    RoundVerifiesIff(s, msg, round, Select(signs, Nodes(tr), false));
  }

  lemma {:induction false} RoundVerifiesIff(s: Session, msg: seq<int>, round: CosiSignature, lacking: seq<nat>)
    requires s.WellFormed() && Within(lacking, s.Size()) && Cong(s.q, round.commit.log, SumAt(s.ws, Range(s.Size())))
    requires Lacks(s.q, round.response, Plain(s.ws, s.xs, s.hash(round.commit, SumPoints(s.q, s.Publics()), msg)), lacking)
    ensures var plain := Plain(s.ws, s.xs, s.hash(round.commit, SumPoints(s.q, s.Publics()), msg));
            Verifies(s.q, s.hash, s.Publics(), BFTSignature(Some(round), Some(msg), [])) <==> Reduce(s.q, SumAt(plain, lacking)) == 0
  {
    var bs := BFTSignature(Some(round), Some(msg), []);
    var plain := Plain(s.ws, s.xs, s.hash(round.commit, SumPoints(s.q, s.Publics()), msg));
    VerifiesIff(s.q, s.hash, s.xs, s.ws, s.Publics(), bs);
    assert IndicesOf(bs.exceptions) == [];
    LacksLess(s.q, round.response, plain, [], lacking, lacking);
  }

  lemma {:induction false} NobodyLeft(signs: seq<bool>, idx: seq<nat>)
    requires Within(idx, |signs|) && forall i :: 0 <= i < |signs| ==> signs[i]
    ensures Select(signs, idx, false) == []
  {
    if idx != [] { NobodyLeft(signs, idx[..|idx| - 1]); }
  }

  lemma CommitVerifies(s: Session, msg: seq<int>, tc: Tree, tr: Tree)
    requires s.WellFormed() && OnRoster(tc, s.Size()) && OnRoster(tr, s.Size())
    ensures var round := CommitSignature(s, msg, tc, tr, Everybody(s.Size(), true));
            Verifies(s.q, s.hash, s.Publics(), BFTSignature(Some(round), Some(msg), []))
  {
    var signs := Everybody(s.Size(), true);
    CommitVerifiesIff(s, msg, tc, tr, signs);
    NobodyLeft(signs, Nodes(tr));
  }

  /** The root outputs a signature that verifies without exceptions exactly when fewer than (n+1)*2/3
      nodes refused; otherwise it outputs no signature but one exception per refuser, which Verify rejects. */
  lemma Outcome(s: Session, msg: seq<int>, a: Arrivals)
    requires s.WellFormed() && a.On(s.Size())
    ensures var out := Output(s, msg, a);
            && out.msg == Some(msg)
            && (forall e :: 0 <= e < |out.exceptions| ==> out.exceptions[e].index < s.Size())
            && (Verifies(s.q, s.hash, s.Publics(), out) <==> out.sig.Some?)
            && if CountDecided(s.accepts, false) < (s.Size() + 1) * 2 / 3
               then out.sig.Some? && out.exceptions == []
               else out.sig.None? && out.exceptions == ExceptionsFor(s, Refusers(s, a))
  {
    PreparedWellIndexed(s, msg, a);
    PreparedVerifies(s, msg, a);
    ExceptionCount(s, msg, a);
    CommitVerifies(s, msg, a.commitCommits, a.commitResponses);
  }

  /** What the output tells a caller: a nil signature means that the threshold of refusals was reached, and
      then the exceptions name each refuser exactly once; a signature means that it was not. */
  lemma OutputTells(s: Session, msg: seq<int>, a: Arrivals, i: nat)
    requires s.WellFormed() && a.On(s.Size()) && i < s.Size()
    ensures var out := Output(s, msg, a);
            && (out.sig.None? <==> CountDecided(s.accepts, false) >= s.Threshold())
            && multiset(IndicesOf(out.exceptions))[i] == if out.sig.None? && !s.accepts[i] then 1 else 0
  {
    Outcome(s, msg, a);
    PreparedWellIndexed(s, msg, a);
    RefusersOnce(s, msg, a, i);
    assert IndicesOf([]) == [];
  }

  /** With n >= 3f + 1 nodes, a signature means that at least f + 1 nodes accepted. */
  lemma SignatureMeansAcceptance(s: Session, msg: seq<int>, a: Arrivals, f: nat)
    requires s.WellFormed() && a.On(s.Size()) && s.Size() >= 3 * f + 1
    requires Output(s, msg, a).sig.Some?
    ensures CountDecided(s.accepts, true) >= f + 1
  {
    Outcome(s, msg, a);
    CountsAddUp(s.accepts);
  }

  /** The threshold bounds refusals, not signers: with four nodes of which two refuse, the root still
      outputs a signature, although fewer than threshold nodes accepted. */
  lemma ThresholdCountsRefusals(s: Session, msg: seq<int>, a: Arrivals)
    requires s.WellFormed() && s.Size() == 4 && a.On(4)
    requires s.accepts == [true, true, false, false]
    ensures Output(s, msg, a).sig.Some?
    ensures CountDecided(s.accepts, true) < s.Threshold()
  {
    Outcome(s, msg, a);
    TwoOfFour(s.accepts);
  }
}
