/** Runs in which every request sent has been served in time: the forward links are exactly those of the
    deterministic skip list. Serving in the order of sending is one way to get there. */
module SkipchainInOrder {
  import opened Options
  import opened Powers
  import opened SkipIndex
  import opened SkipBlocks
  import opened Skipchain
  import opened SkipchainInvariant
  import opened SkipchainRuns
  import opened SkipchainLinks

  // ----- Serving in the order of sending -------------------------------------------------------------------

  function Served(es: seq<Event>): nat
  {
    if es == [] then 0 else Served(es[..|es| - 1]) + if es[|es| - 1].Serve? then 1 else 0
  }

  /** Requests are served one by one in the order they were sent, each at any time after it was sent. */
  ghost predicate InOrder(es: seq<Event>)
    requires forall e :: e in es ==> WellFormed(e)
  {
    es == [] ||
    var front, last := es[..|es| - 1], es[|es| - 1];
    InOrder(front) && (last.Serve? ==> last.completes && last.k == Served(front) < |Run(front).sent|)
  }

  /** If the target of a request lacks a lower link, an earlier request asks for it. */
  lemma LowerRequest(s: State, d: nat) returns (k: nat)
    requires Inv(s) && AllCovered(s, 0) && AllOrdered(s) && d < |s.sent|
    requires |TargetLinks(s, d)| < s.sent[d].targetHeight
    ensures k < d && TargetLinks(s, k) == TargetLinks(s, d) && s.sent[k].targetHeight + 1 == s.sent[d].targetHeight
  {
    RequestView(s, d);
    var g, h, t := SkipChainID(s.sent[d].newest), s.sent[d].targetHeight, Target(s, d);
    ChainView(s, g, t);
    var b, e := Base(s, g), h - 1;
    PowStrict(b, e, h);
    assert CoveredAt(s, 0, g, t, e);
    k :| 0 <= k < |s.sent| && Asks(s.sent[k], g, b, t, e);
    if k > d { OrderOf(s, d, k); }
  }

  /** When all earlier requests are done, the target of the next one lacks no lower link. */
  lemma NextInTime(es: seq<Event>, d: nat)
    requires forall e :: e in es ==> WellFormed(e)
    requires NonePremature(es) && d < |Run(es).sent| && forall k: nat {:trigger k in Done(es)} :: k < d ==> k in Done(es)
    ensures |TargetLinks(Run(es), d)| >= Run(es).sent[d].targetHeight
  {
    RunAsked(es);
    if |TargetLinks(Run(es), d)| < Run(es).sent[d].targetHeight {
      var k := LowerRequest(Run(es), d);
      assert k in Done(es);
      DoneHasLink(es, k);
    }
  }

  /** In-order service is never premature. */
  lemma {:induction false} InOrderInTime(es: seq<Event>)
    requires forall e :: e in es ==> WellFormed(e)
    requires InOrder(es)
    ensures NonePremature(es)
    decreases |es|
  {
    if es != [] {
      var front, last := es[..|es| - 1], es[|es| - 1];
      InOrderInTime(front);
      if last.Serve? {
        forall k: nat | k < last.k ensures k in Done(front) { InOrderDone(front, k); }
        NextInTime(front, last.k);
      }
    }
  }

  lemma {:induction false} InOrderDone(es: seq<Event>, k: nat)
    requires forall e :: e in es ==> WellFormed(e)
    requires InOrder(es) && k < Served(es)
    ensures k in Done(es)
    decreases |es|
  {
    var front, last := es[..|es| - 1], es[|es| - 1];
    if k < Served(front) { InOrderDone(front, k); }
  }

  // ----- Runs without premature service ------------------------------------------------------------------------

  /** s is the state of a run in which no request was served too early. */
  ghost predicate InTime(s: State)
  {
    exists es: seq<Event> :: (forall e :: e in es ==> WellFormed(e)) && NonePremature(es) && Run(es) == s
  }

  lemma InTimeExact(s: State)
    requires InTime(s)
    ensures Inv(s) && AllExact(s)
  {
    var es: seq<Event> :| (forall e :: e in es ==> WellFormed(e)) && NonePremature(es) && Run(es) == s;
    ExactIff(es);
  }

  // ----- Settled states ---------------------------------------------------------------------------------------

  /** s is the state of a run in which every request sent has been served, none of them too early. */
  ghost predicate Settled(s: State)
  {
    exists es: seq<Event> ::
      (forall e :: e in es ==> WellFormed(e)) && NonePremature(es) && AllDone(es) && Run(es) == s
  }

  /** In particular after all requests were served in the order of sending. */
  lemma InOrderSettles(es: seq<Event>)
    requires forall e :: e in es ==> WellFormed(e)
    requires InOrder(es) && Served(es) == |Run(es).sent|
    ensures Settled(Run(es))
  {
    InOrderInTime(es);
    forall k: nat | k < |Run(es).sent| ensures k in Done(es) { InOrderDone(es, k); }
  }

  lemma SettledComplete(s: State)
    requires Settled(s)
    ensures Inv(s) && AllComplete(s)
  {
    var es: seq<Event> :|
      (forall e :: e in es ==> WellFormed(e)) && NonePremature(es) && AllDone(es) && Run(es) == s;
    CompleteIff(es);
  }

  /** Once settled, block i links forward to block i + b^e exactly for the levels e below its height
      with i + b^e <= tip. */
  lemma SettledLinks(s: State, g: SkipBlockID, i: nat)
    requires Settled(s) && g in s.chains && i < |s.chains[g]|
    ensures CompleteAt(s, g, i)
  {
    SettledComplete(s);
  }

  /** Once settled, block j links forward to block i on level e exactly when i links back to j on level e. */
  lemma SettledSymmetric(s: State, g: SkipBlockID, j: nat, i: nat, e: nat)
    requires Settled(s) && g in s.chains && j < i < |s.chains[g]|
    ensures s.chains[g][i] in s.blocks
    ensures e < |Links(s, g, j)| && Links(s, g, j)[e].hash == s.chains[g][i]
            <==> var back := s.blocks[s.chains[g][i]].fix.backLinkIDs; e < |back| && back[e] == s.chains[g][j]
  {
    SettledComplete(s);
    assert CompleteAt(s, g, j);
    ForwardMeansOffset(s, g, j, i, e);
    BackMeansOffset(s, g, j, i, e);
  }

  lemma ForwardMeansOffset(s: State, g: SkipBlockID, j: nat, i: nat, e: nat)
    requires Inv(s) && g in s.chains && j < i < |s.chains[g]| && CompleteAt(s, g, j)
    ensures e < |Links(s, g, j)| && Links(s, g, j)[e].hash == s.chains[g][i]
            <==> i == j + Pow(Base(s, g), e) && e < LevelsOf(s, g, j)
  {
    var c, b := s.chains[g], Base(s, g);
    LinkCountLevels(b, MaxHeight(s, g), |c| - 1, j, e);
    ChainsDisjoint(s, g, i, c[i]);
    if j + Pow(b, e) < |c| {
      ChainsDisjoint(s, g, j + Pow(b, e), c[j + Pow(b, e)]);
    }
  }

  lemma BackMeansOffset(s: State, g: SkipBlockID, j: nat, i: nat, e: nat)
    requires Inv(s) && g in s.chains && j < i < |s.chains[g]|
    ensures s.chains[g][i] in s.blocks
    ensures (var back := s.blocks[s.chains[g][i]].fix.backLinkIDs; e < |back| && back[e] == s.chains[g][j])
            <==> i == j + Pow(Base(s, g), e) && e < LevelsOf(s, g, j)
  {
    ChainView(s, g, i);
    var c, b, m := s.chains[g], Base(s, g), MaxHeight(s, g);
    var back := s.blocks[c[i]].fix.backLinkIDs;
    ChainsDisjoint(s, g, j, c[j]);
    if e < |back| {
      assert IsBack(back[e], c, b, i, e);
      ChainsDisjoint(s, g, i - Pow(b, e), c[i - Pow(b, e)]);
      NearestBelow(b, m, i, e, i);
    } else if i == j + Pow(b, e) && e < LevelsOf(s, g, j) {
      HeightAbove(b, m, j, e);
    }
  }

  // ----- Requests that come too late ---------------------------------------------------------------------------

  lemma {:induction false} RunViewsGrow(es: seq<Event>, n: nat)
    requires forall e :: e in es ==> WellFormed(e)
    requires n <= |es|
    ensures ViewsGrow(Run(es[..n]), Run(es))
    decreases |es|
  {
    if n == |es| {
      assert es[..n] == es;
    } else {
      var front, last := es[..|es| - 1], es[|es| - 1];
      RunViewsGrow(front, n);
      assert front[..n] == es[..n];
      assert last in es;
      StepViewsGrow(Run(front), last);
      GrowthComposes(Run(es[..n]), Run(front), Run(es));
    }
  }

  lemma GrowthComposes(r: State, s: State, t: State)
    requires ViewsGrow(r, s) && ViewsGrow(s, t)
    ensures ViewsGrow(r, t)
  {
    forall g | g in r.chains
      ensures g in t.chains && r.chains[g] <= t.chains[g] && Base(t, g) == Base(r, g) && MaxHeight(t, g) == MaxHeight(r, g)
      ensures forall i :: 0 <= i < |r.chains[g]| ==> Links(r, g, i) <= Links(t, g, i)
    {
      assert g in s.chains && g in t.chains && |r.chains[g]| <= |s.chains[g]|;
      forall i | 0 <= i < |r.chains[g]| ensures Links(r, g, i) <= Links(t, g, i) {
        var x, y, z := Links(r, g, i), Links(s, g, i), Links(t, g, i);
        assert x <= y;
        assert y <= z;
      }
    }
  }

  /** A request is refused now and for ever exactly if its position is taken: its target has more links
      than the request's level. */
  lemma RefusedForeverIff(es: seq<Event>, k: nat)
    requires forall e :: e in es ==> WellFormed(e)
    requires k < |Run(es).sent|
    ensures |TargetLinks(Run(es), k)| > Run(es).sent[k].targetHeight
      <==> forall more: seq<Event> :: (forall e :: e in es + more ==> WellFormed(e)) ==> RefusedAfter(es + more, k)
  {
    if |TargetLinks(Run(es), k)| > Run(es).sent[k].targetHeight {
      forall more: seq<Event> | forall e :: e in es + more ==> WellFormed(e) ensures RefusedAfter(es + more, k) {
        TakenForever(es + more, |es|, k);
      }
    } else {
      ServeAccepted(Run(es), k, true);
      assert es + [] == es;
      assert !RefusedAfter(es + [], k);
    }
  }

  ghost predicate RefusedAfter(es: seq<Event>, k: nat)
    requires forall e :: e in es ==> WellFormed(e)
  {
    k < |Run(es).sent| && Deliver(Run(es), Run(es).sent[k], true) == Run(es)
  }

  lemma TakenForever(es: seq<Event>, n: nat, k: nat)
    requires forall e :: e in es ==> WellFormed(e)
    requires n <= |es| && k < |Run(es[..n]).sent|
    requires |TargetLinks(Run(es[..n]), k)| > Run(es[..n]).sent[k].targetHeight
    ensures RefusedAfter(es, k)
  {
    RunViewsGrow(es, n);
    TargetGrows(Run(es[..n]), Run(es), k);
    ServeAccepted(Run(es), k, true);
  }
}
