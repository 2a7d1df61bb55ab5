/** What requests served out of order do: runs, for every base and height that has the levels, in which a
    link lands on a wrong position, a request is lost for ever, and the update chain is not shortest. */
module SkipchainOvertaken {
  import opened Options
  import opened Powers
  import opened SkipIndex
  import opened SkipBlocks
  import opened Skipchain
  import opened SkipchainInvariant
  import opened SkipchainRuns
  import opened SkipchainLinks
  import opened SkipchainInOrder
  import opened SkipchainPaths

  // ----- A chain of any length with all requests still waiting --------------------------------------------

  const Conodes := Roster([0, 1])

  function Proposal(b: nat, m: nat): SkipBlockFix
  {
    SkipBlockFix(0, m, m, b, [], [], Null, Null, [], Conodes)
  }

  /** The tip of chain g is stored and names the two conodes. */
  ghost predicate ReadyTip(s: State, g: SkipBlockID)
  {
    && g in s.chains && |s.chains[g]| >= 1
    && var id := s.chains[g][|s.chains[g]| - 1];
       id in s.blocks && s.blocks[id].fix.roster == Conodes
  }

  /** Chain g has n + 1 blocks, and no request has been served. */
  ghost predicate Waiting(s: State, g: SkipBlockID, n: nat, b: nat, m: nat)
  {
    && ReadyTip(s, g) && |s.chains[g]| == n + 1 && Base(s, g) == b && MaxHeight(s, g) == m
    && forall i :: 0 <= i <= n ==> |Links(s, g, i)| <= 1
  }

  /** An append after the tip succeeds. */
  lemma AppendStores(s: State, latest: SkipBlockID, prop: SkipBlockFix)
    requires Inv(s) && latest in s.blocks && s.blocks[latest].fix.roster == Conodes && s.blocks[latest].forwardLink == []
    ensures Append(s, 0, latest, prop, true).1.Stored?
  {
    StoredBlock(s, latest);
    AppendBackLinks(s, latest);
    var prev := s.blocks[latest];
    var back := BackLinks(s.blocks, latest, 0, Height(prev.fix.baseHeight, prev.fix.maximumHeight, prev.fix.index + 1)).value;
    assert back[0] == latest;
  }

  lemma GrownWaits(s: State, s': State, g: SkipBlockID, n: nat, b: nat, m: nat)
    requires Waiting(s, g, n, b, m) && Grown(s, s', g, n + 1) && ReadyTip(s', g)
    ensures Waiting(s', g, n + 1, b, m)
  {
    forall i | 0 <= i <= n + 1 ensures |Links(s', g, i)| <= 1 {
      if i < n { assert Links(s', g, i) == Links(s, g, i); }
    }
  }

  lemma TipOf(s: State, g: SkipBlockID, n: nat)
    requires Inv(s) && g in s.chains && |s.chains[g]| == n + 1
    ensures var tip := s.chains[g][n];
      tip in s.blocks && s.blocks[tip].forwardLink == [] && SkipChainID(s.blocks[tip]) == g
  {
    ChainView(s, g, n);
    ChainsDisjoint(s, g, n, s.chains[g][n]);
  }

  lemma AppendWaits(s: State, g: SkipBlockID, n: nat, b: nat, m: nat)
    requires Inv(s) && Waiting(s, g, n, b, m)
    ensures Waiting(Step(s, Add(0, s.chains[g][n], Proposal(b, m), true)), g, n + 1, b, m)
  {
    var latest, prop := s.chains[g][n], Proposal(b, m);
    TipOf(s, g, n);
    AppendStores(s, latest, prop);
    AppendView(s, 0, latest, prop, true);
    NewTip(s, latest, prop);
    GrownWaits(s, Append(s, 0, latest, prop, true).0, g, n, b, m);
  }

  lemma NewTip(s: State, latest: SkipBlockID, prop: SkipBlockFix)
    requires Inv(s) && prop.roster == Conodes && Append(s, 0, latest, prop, true).1.Stored?
    ensures latest in s.blocks && ReadyTip(Append(s, 0, latest, prop, true).0, SkipChainID(s.blocks[latest]))
  {
    AppendEffect(s, 0, latest, prop, true);
  }

  lemma Extend(front: seq<Event>, e: Event) returns (es: seq<Event>)
    requires (forall x :: x in front ==> WellFormed(x)) && WellFormed(e)
    ensures es == front + [e] && (forall x :: x in es ==> WellFormed(x)) && Run(es) == Step(Run(front), e)
    ensures !e.Serve? ==> Done(es) == Done(front)
  {
    es := front + [e];
    assert es[..|es| - 1] == front;
  }

  lemma CreateWaits(b: nat, m: nat) returns (es: seq<Event>, g: SkipBlockID)
    requires 1 <= m <= b
    ensures (forall e :: e in es ==> WellFormed(e)) && Waiting(Run(es), g, 0, b, m) && Done(es) == {}
  {
    var start := State(map[], [], map[]);
    es, g := [Create(Proposal(b, m), 0)], CalculateHash(GenesisFix(Proposal(b, m), 0));
    assert es[..0] == [] && Run([]) == start;
    assert Run(es) == CreateChain(start, Proposal(b, m), 0).0;
  }

  lemma AppendOne(front: seq<Event>, g: SkipBlockID, n: nat, b: nat, m: nat) returns (es: seq<Event>)
    requires (forall e :: e in front ==> WellFormed(e)) && Waiting(Run(front), g, n, b, m) && Done(front) == {}
    ensures (forall e :: e in es ==> WellFormed(e)) && Waiting(Run(es), g, n + 1, b, m) && Done(es) == {}
  {
    AppendWaits(Run(front), g, n, b, m);
    es := Extend(front, Add(0, Run(front).chains[g][n], Proposal(b, m), true));
  }

  lemma {:induction false} RunWaits(b: nat, m: nat, n: nat) returns (es: seq<Event>, g: SkipBlockID)
    requires 1 <= m <= b
    ensures (forall e :: e in es ==> WellFormed(e)) && Waiting(Run(es), g, n, b, m) && Done(es) == {}
  {
    if n == 0 {
      es, g := CreateWaits(b, m);
    } else {
      var front;
      front, g := RunWaits(b, m, n - 1);
      es := AppendOne(front, g, n - 1, b, m);
    }
  }

  /** The request that asks the genesis block for its link on level e. */
  lemma GenesisRequest(es: seq<Event>, g: SkipBlockID, n: nat, b: nat, m: nat, e: nat) returns (k: nat)
    requires (forall e :: e in es ==> WellFormed(e)) && Waiting(Run(es), g, n, b, m)
    requires 1 <= e < m && Pow(b, e) <= n
    ensures k < |Run(es).sent| && Asks(Run(es).sent[k], g, b, 0, e)
  {
    RunAsked(es);
    GenesisHeight(b, m);
    assert CoveredAt(Run(es), 0, g, 0, e);
    k :| 0 <= k < |Run(es).sent| && Asks(Run(es).sent[k], g, b, 0, e);
  }

  /** Serving a request to the genesis block that still has room. */
  lemma ServeGenesis(es: seq<Event>, g: SkipBlockID, k: nat, e: nat) returns (more: seq<Event>)
    requires forall e :: e in es ==> WellFormed(e)
    requires g in Run(es).chains && k < |Run(es).sent| && Asks(Run(es).sent[k], g, Base(Run(es), g), 0, e)
    requires |Links(Run(es), g, 0)| <= e
    ensures more == es + [Serve(k, true)] && forall e :: e in more ==> WellFormed(e)
    ensures LinkAdded(Run(es), Run(more), g, 0, e)
  {
    more := Extend(es, Serve(k, true));
    ServeAccepted(Run(es), k, true);
    ServeViews(Run(es), k, true);
  }

  // ----- A request that is lost -------------------------------------------------------------------------------

  /** With at least three levels: the genesis block serves level 2 before level 1, and then refuses the
      request for level 1, which was never served, for ever. */
  lemma LostRequest(b: nat, m: nat) returns (es: seq<Event>, k: nat)
    requires 3 <= m <= b
    ensures (forall e :: e in es ==> WellFormed(e)) && k < |Run(es).sent| && k !in Done(es)
    ensures forall more: seq<Event> :: (forall e :: e in es + more ==> WellFormed(e)) ==> RefusedAfter(es + more, k)
  {
    PowStrict(b, 1, 2);
    var n := Pow(b, 2);
    var front, g := RunWaits(b, m, n);
    var k1 := GenesisRequest(front, g, n, b, m, 1);
    var k2 := GenesisRequest(front, g, n, b, m, 2);
    GenesisLinked(Run(front), g, n);
    es := ServeGenesis(front, g, k2, 2);
    k := k1;
    assert es[..|es| - 1] == front;
    RefusedForeverIff(es, k);
  }

  lemma GenesisLinked(s: State, g: SkipBlockID, n: nat)
    requires Inv(s) && g in s.chains && |s.chains[g]| == n + 1 && n >= 1
    ensures |Links(s, g, 0)| >= 1 && Links(s, g, 0)[0].hash == s.chains[g][1]
  {
    ChainView(s, g, 0);
  }

  // ----- A link on a wrong position ------------------------------------------------------------------------------

  /** With at least four levels: the genesis block serves level 3 before level 2, both with success. Its
      links then lead to the blocks 1, b^3 and b^2, in this order. */
  lemma SwappedLinks(b: nat, m: nat, k: nat, n: nat) returns (es: seq<Event>, g: SkipBlockID)
    requires 4 <= m <= b && k == Pow(b, 2) && n == Pow(b, 3)
    ensures (forall e :: e in es ==> WellFormed(e)) && g in Run(es).chains && |Run(es).chains[g]| == n + 1 && 0 < k < n
    ensures var l, c := Links(Run(es), g, 0), Run(es).chains[g];
      |l| == 3 && l[0].hash == c[1] && l[1].hash == c[n] && l[2].hash == c[k]
  {
    PowPositive(b, 2);
    PowStrict(b, 2, 3);
    var front;
    front, g := RunWaits(b, m, n);
    var k2 := GenesisRequest(front, g, n, b, m, 2);
    var k3 := GenesisRequest(front, g, n, b, m, 3);
    GenesisLinked(Run(front), g, n);
    var next := ServeGenesis(front, g, k3, 3);
    es := ServeGenesis(next, g, k2, 2);
    SecondLink(Run(front), Run(next), Run(es), g);
  }

  lemma SecondLink(r: State, s: State, t: State, g: SkipBlockID)
    requires LinkAdded(r, s, g, 0, 3) && LinkAdded(s, t, g, 0, 2) && |Links(r, g, 0)| == 1
    ensures |Links(t, g, 0)| == 3 && Links(t, g, 0)[0] == Links(r, g, 0)[0] && Links(t, g, 0)[1] == Links(s, g, 0)[1]
  {
  }

  lemma SwappedPath(s: State, g: SkipBlockID, k: nat) returns (p: seq<SkipBlockID>)
    requires Inv(s) && g in s.chains && 0 < k && k + 1 < |s.chains[g]|
    requires var l, c := Links(s, g, 0), s.chains[g]; |l| == 3 && l[1].hash == c[|c| - 1] && l[2].hash == c[k]
    ensures ForwardPath(s.blocks, p) && p[0] == s.chains[g][0] && p[|p| - 1] == s.chains[g][|s.chains[g]| - 1]
    ensures ForwardOrdered(s.blocks) && Walk(s.blocks, p[0]).Some? && |Walk(s.blocks, p[0]).value| > |p| == 2
  {
    var c := s.chains[g];
    p := [c[0], c[|c| - 1]];
    ChainView(s, g, 0);
    ChainView(s, g, |c| - 1);
    assert s.blocks[p[0]].forwardLink[1].hash == p[1];
    assert PathStep(s.blocks, p, 0);
    InvForwardOrdered(s);
    LongWalk(s, g, k);
  }

  /** The update chain then goes to block b^2 and on, although a link from the genesis block to the tip
      exists: it follows more links than that path of one link. */
  lemma NotShortest(b: nat, m: nat) returns (s: State, g: SkipBlockID, p: seq<SkipBlockID>)
    requires 4 <= m <= b
    ensures Reachable(s) && !InTime(s) && g in s.chains && |s.chains[g]| >= 1
    ensures ForwardPath(s.blocks, p) && p[0] == s.chains[g][0] && p[|p| - 1] == s.chains[g][|s.chains[g]| - 1]
    ensures ForwardOrdered(s.blocks) && Walk(s.blocks, p[0]).Some? && |Walk(s.blocks, p[0]).value| > |p| == 2
  {
    var k := Pow(b, 2);
    s, g := SwappedState(b, m, k, Pow(b, 3));
    p := SwappedPath(s, g, k);
    ShortestRefuted(s, g, p);
  }

  lemma SwappedState(b: nat, m: nat, k: nat, n: nat) returns (s: State, g: SkipBlockID)
    requires 4 <= m <= b && k == Pow(b, 2) && n == Pow(b, 3)
    ensures Reachable(s) && Inv(s) && g in s.chains && 0 < k && k + 1 < |s.chains[g]|
    ensures var l, c := Links(s, g, 0), s.chains[g]; |l| == 3 && l[1].hash == c[|c| - 1] && l[2].hash == c[k]
  {
    var es;
    es, g := SwappedLinks(b, m, k, n);
    s := RunOf(es);
  }

  lemma RunOf(es: seq<Event>) returns (s: State)
    requires forall e :: e in es ==> WellFormed(e)
    ensures s == Run(es) && Reachable(s) && Inv(s)
  {
    s := Run(es);
  }

  lemma ShortestRefuted(s: State, g: SkipBlockID, p: seq<SkipBlockID>)
    requires g in s.chains && |s.chains[g]| >= 1 && ForwardPath(s.blocks, p) && ForwardOrdered(s.blocks)
    requires p[0] == s.chains[g][0] && p[|p| - 1] == s.chains[g][|s.chains[g]| - 1]
    requires Walk(s.blocks, p[0]).Some? && |Walk(s.blocks, p[0]).value| > |p|
    ensures !InTime(s)
  {
    if InTime(s) { UpdateChainShortest(s, g, 0, p); }
  }

  lemma LongWalk(s: State, g: SkipBlockID, k: nat)
    requires Inv(s) && ForwardOrdered(s.blocks) && g in s.chains && 0 < k && k + 1 < |s.chains[g]| && HighestTo(s, g, 0, k)
    ensures s.chains[g][0] in s.blocks && Walk(s.blocks, s.chains[g][0]).Some? && |Walk(s.blocks, s.chains[g][0]).value| >= 3
  {
    WalkOn(s, g, k);
    HopWalk(s, g, 0, k);
  }

  /** The walk from a block that is not the tip goes on. */
  lemma WalkOn(s: State, g: SkipBlockID, k: nat)
    requires Inv(s) && ForwardOrdered(s.blocks) && g in s.chains && k + 1 < |s.chains[g]|
    ensures s.chains[g][k] in s.blocks && Walk(s.blocks, s.chains[g][k]).Some? && |Walk(s.blocks, s.chains[g][k]).value| >= 2
  {
    NotTheTip(s, g, k);
    WalkReachesTip(s, s.chains[g][k]);
  }
}
