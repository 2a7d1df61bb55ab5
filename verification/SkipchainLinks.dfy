/** The forward links that a run leaves: each link sits on the position of its level exactly if no
    request was served too early. */
module SkipchainLinks {
  import opened Options
  import opened Powers
  import opened SkipIndex
  import opened SkipBlocks
  import opened Skipchain
  import opened SkipchainInvariant
  import opened SkipchainRuns

  // ----- Views of one chain --------------------------------------------------------------------------

  function Links(s: State, g: SkipBlockID, i: int): seq<BlockLink>
  {
    if g in s.chains && 0 <= i < |s.chains[g]| && s.chains[g][i] in s.blocks
    then s.blocks[s.chains[g][i]].forwardLink else []
  }

  function Base(s: State, g: SkipBlockID): (b: nat)
    ensures b >= 1
  {
    if g in s.blocks && s.blocks[g].fix.baseHeight >= 1 then s.blocks[g].fix.baseHeight else 1
  }

  function MaxHeight(s: State, g: SkipBlockID): (m: nat)
    ensures m >= 1
  {
    if g in s.blocks && s.blocks[g].fix.maximumHeight >= 1 then s.blocks[g].fix.maximumHeight else 1
  }

  function LevelsOf(s: State, g: SkipBlockID, i: nat): nat
  {
    Height(Base(s, g), MaxHeight(s, g), i)
  }

  // ----- Links and requests -----------------------------------------------------------------------------

  /** The l-th link of a block is its level-l link. */
  ghost predicate ExactAt(s: State, g: SkipBlockID, i: nat, l: nat)
    requires g in s.chains
  {
    l < |Links(s, g, i)| ==>
      i + Pow(Base(s, g), l) < |s.chains[g]| && Links(s, g, i)[l].hash == s.chains[g][i + Pow(Base(s, g), l)]
  }

  /** Request fs asks block i of chain g for its link on level e. */
  predicate Asks(fs: ForwardSignature, g: SkipBlockID, b: nat, i: nat, e: nat)
  {
    SkipChainID(fs.newest) == g && fs.targetHeight == e && fs.newest.fix.index == i + Pow(b, e)
  }

  ghost predicate Asked(s: State, d: nat, g: SkipBlockID, i: nat, e: nat)
  {
    exists k :: d <= k < |s.sent| && Asks(s.sent[k], g, Base(s, g), i, e)
  }

  /** A link that is still missing has been asked for, by the d-th request or a later one. */
  ghost predicate CoveredAt(s: State, d: nat, g: SkipBlockID, i: nat, e: nat)
    requires g in s.chains
  {
    |Links(s, g, i)| <= e < LevelsOf(s, g, i) && i + Pow(Base(s, g), e) < |s.chains[g]| ==> Asked(s, d, g, i, e)
  }

  /** Requests of one chain are sent in the order of their newest blocks, then of their levels. */
  predicate SentBefore(f1: ForwardSignature, f2: ForwardSignature)
  {
    SkipChainID(f1.newest) == SkipChainID(f2.newest) ==>
      || f1.newest.fix.index < f2.newest.fix.index
      || (f1.newest.fix.index == f2.newest.fix.index && f1.targetHeight < f2.targetHeight)
  }

  ghost predicate AllExact(s: State)
  {
    forall g, i: nat, l: nat {:trigger ExactAt(s, g, i, l)} :: g in s.chains && i < |s.chains[g]| ==> ExactAt(s, g, i, l)
  }

  ghost predicate AllCovered(s: State, d: nat)
  {
    forall g, i: nat, e: nat {:trigger CoveredAt(s, d, g, i, e)} :: g in s.chains && i < |s.chains[g]| ==> CoveredAt(s, d, g, i, e)
  }

  ghost predicate AllOrdered(s: State)
  {
    forall k, k' {:trigger SentBefore(s.sent[k], s.sent[k'])} :: 0 <= k < k' < |s.sent| ==> SentBefore(s.sent[k], s.sent[k'])
  }

  /** The views agree with the blocks of a chain. */
  lemma ChainView(s: State, g: SkipBlockID, i: nat)
    requires Inv(s) && g in s.chains && i < |s.chains[g]|
    ensures g in s.blocks && s.chains[g][i] in s.blocks
    ensures Base(s, g) == s.blocks[g].fix.baseHeight && MaxHeight(s, g) == s.blocks[g].fix.maximumHeight
    ensures MaxHeight(s, g) <= Base(s, g)
    ensures BlockOK(s.blocks[s.chains[g][i]], s.chains[g], Base(s, g), MaxHeight(s, g), i)
    ensures |Links(s, g, i)| <= LevelsOf(s, g, i)
    ensures i + 1 == |s.chains[g]| ==> Links(s, g, i) == []
  {
    assert ChainOK(s.blocks, g, s.chains[g]);
    assert BlockOK(s.blocks[s.chains[g][i]], s.chains[g], s.blocks[g].fix.baseHeight, s.blocks[g].fix.maximumHeight, i);
  }

  // ----- How events change the views -----------------------------------------------------------------------

  /** Old chains look the same. */
  ghost predicate SameChain(s: State, s': State, g: SkipBlockID)
    requires g in s.chains
  {
    && g in s'.chains && s'.chains[g] == s.chains[g]
    && Base(s', g) == Base(s, g) && MaxHeight(s', g) == MaxHeight(s, g)
    && forall i :: 0 <= i < |s.chains[g]| ==> Links(s', g, i) == Links(s, g, i)
  }

  /** Requests are answered for by the chains they name. */
  lemma RequestView(s: State, k: nat)
    requires Inv(s) && k < |s.sent|
    ensures var fs, g := s.sent[k], SkipChainID(s.sent[k].newest);
            && g in s.chains && 0 < fs.newest.fix.index < |s.chains[g]|
            && fs.newest.fix.baseHeight == Base(s, g)
            && fs.targetHeight >= 1
            && 0 <= fs.newest.fix.index - Pow(Base(s, g), fs.targetHeight) < fs.newest.fix.index
            && fs.targetHeight < LevelsOf(s, g, fs.newest.fix.index - Pow(Base(s, g), fs.targetHeight))
  {
    assert RequestOK(s, s.sent[k]);
    RequestTarget(s, s.sent[k]);
    ChainView(s, SkipChainID(s.sent[k].newest), s.sent[k].newest.fix.index);
  }

  lemma CoveredKept(s: State, s': State, d: nat, g: SkipBlockID, i: nat, e: nat)
    requires g in s.chains && SameChain(s, s', g) && s.sent <= s'.sent
    requires i < |s.chains[g]| && CoveredAt(s, d, g, i, e)
    ensures CoveredAt(s', d, g, i, e)
  {
    if Asked(s, d, g, i, e) {
      var k :| d <= k < |s.sent| && Asks(s.sent[k], g, Base(s, g), i, e);
      assert Asks(s'.sent[k], g, Base(s', g), i, e);
    }
  }

  lemma CreateViews(s: State, genesis: SkipBlockFix, nonce: nat)
    requires Inv(s) && CreateChain(s, genesis, nonce).1.Stored?
    ensures var s', id := CreateChain(s, genesis, nonce).0, CalculateHash(GenesisFix(genesis, nonce));
            && s'.sent == s.sent && id in s'.chains
            && (forall g :: g in s.chains ==> SameChain(s, s', g))
            && (forall g :: g in s'.chains ==> g in s.chains || g == id)
            && (id !in s.chains ==> |s'.chains[id]| == 1 && Links(s', id, 0) == [])
  {
    var s', id := CreateChain(s, genesis, nonce).0, CalculateHash(GenesisFix(genesis, nonce));
    if id in s.blocks { GenesisKnown(s, genesis, nonce); }
    CreateChainGrows(s, genesis, nonce);
    forall g | g in s.chains ensures SameChain(s, s', g) {
      UnchangedChain(s, s', g);
    }
  }

  lemma UnchangedChain(s: State, s': State, g: SkipBlockID)
    requires Inv(s) && g in s.chains && Grows(s, s') && s'.chains[g] == s.chains[g]
    requires forall x :: x in s.blocks ==> x in s'.blocks && s'.blocks[x].forwardLink == s.blocks[x].forwardLink
    ensures SameChain(s, s', g)
  {
    ChainView(s, g, 0) by { assert ChainOK(s.blocks, g, s.chains[g]); }
    forall i | 0 <= i < |s.chains[g]| ensures Links(s', g, i) == Links(s, g, i) {
      ChainView(s, g, i);
    }
  }

  /** How an append changes the views: chain g gains block n, whose predecessor gains its first link. */
  ghost predicate Grown(s: State, s': State, g: SkipBlockID, n: nat)
    requires g in s.chains
  {
    && n == |s.chains[g]| >= 1
    && g in s'.chains && |s'.chains[g]| == n + 1 && s'.chains[g][..n] == s.chains[g]
    && Base(s', g) == Base(s, g) && MaxHeight(s', g) == MaxHeight(s, g)
    && (forall i :: 0 <= i < n - 1 ==> Links(s', g, i) == Links(s, g, i))
    && Links(s, g, n - 1) == []
    && |Links(s', g, n - 1)| == 1 && Links(s', g, n - 1)[0].hash == s'.chains[g][n]
    && Links(s', g, n) == []
  }

  /** The requests an append sends: levels 1, 2, ... of block n. */
  ghost predicate AskedFor(s: State, s': State, g: SkipBlockID, n: nat)
  {
    && s.sent <= s'.sent
    && |s'.sent| - |s.sent| == LevelsOf(s', g, n) - 1
    && forall k :: |s.sent| <= k < |s'.sent| ==>
         && SkipChainID(s'.sent[k].newest) == g && s'.sent[k].newest.fix.index == n
         && s'.sent[k].targetHeight == k - |s.sent| + 1
  }

  lemma OtherChainSame(s: State, s': State, latest: SkipBlockID, dst: Block, x: SkipBlockID)
    requires Inv(s) && latest in s.blocks && s.blocks[latest].fix.roster.Roster? && |dst.fix.backLinkIDs| >= 1
    requires Appended(s, s', latest, dst) && x in s.chains && x != SkipChainID(s.blocks[latest])
    ensures SameChain(s, s', x)
  {
    assert ChainOK(s.blocks, x, s.chains[x]);
    ChainsDisjoint(s, x, 0, x);
    forall i | 0 <= i < |s.chains[x]| ensures Links(s', x, i) == Links(s, x, i) {
      ChainsDisjoint(s, x, i, s.chains[x][i]);
    }
  }

  lemma AppendedView(s: State, s': State, latest: SkipBlockID, dst: Block)
    requires Inv(s) && latest in s.blocks && s.blocks[latest].fix.roster.Roster? && |dst.fix.backLinkIDs| >= 1
    requires Appended(s, s', latest, dst)
    requires s.blocks[latest].fix.index + 1 == |s.chains[SkipChainID(s.blocks[latest])]|
    ensures var g := SkipChainID(s.blocks[latest]); Grown(s, s', g, |s.chains[g]|)
  {
    StoredBlock(s, latest);
    var g := SkipChainID(s.blocks[latest]);
    var n := |s.chains[g]|;
    forall i | 0 <= i < n - 1 ensures Links(s', g, i) == Links(s, g, i) {
      ChainsDisjoint(s, g, i, s.chains[g][i]);
    }
    ChainsDisjoint(s, g, 0, g);
    ChainsDisjoint(s, g, n - 1, latest);
  }

  lemma AppendedRequests(s: State, s': State, latest: SkipBlockID, dst: Block)
    requires latest in s.blocks && s.blocks[latest].fix.roster.Roster? && |dst.fix.backLinkIDs| >= 1
    requires Appended(s, s', latest, dst)
    requires var prev := s.blocks[latest];
             && 1 <= prev.fix.maximumHeight <= prev.fix.baseHeight
             && prev.fix.index + 1 == |s.chains[SkipChainID(prev)]|
             && NextBlock(dst, prev, s.chains[SkipChainID(prev)])
    requires Base(s', SkipChainID(s.blocks[latest])) == dst.fix.baseHeight
    requires MaxHeight(s', SkipChainID(s.blocks[latest])) == dst.fix.maximumHeight
    ensures var g := SkipChainID(s.blocks[latest]); AskedFor(s, s', g, |s.chains[g]|)
  {
    forall k | |s.sent| <= k < |s'.sent| ensures s'.sent[k] == ForwardSignature(k - |s.sent| + 1, latest, dst, TipLink(s, latest, dst)) {
    }
  }

  lemma AppendView(s: State, self: nat, latest: SkipBlockID, prop: SkipBlockFix, signed: bool)
    requires Inv(s) && prop.roster.Roster? && Append(s, self, latest, prop, signed).1.Stored?
    ensures latest in s.blocks && SkipChainID(s.blocks[latest]) in s.chains
    ensures var s', g := Append(s, self, latest, prop, signed).0, SkipChainID(s.blocks[latest]);
            && Grown(s, s', g, |s.chains[g]|)
            && AskedFor(s, s', g, |s.chains[g]|)
            && (forall x :: x in s.chains && x != g ==> SameChain(s, s', x))
            && (forall x :: x in s'.chains ==> x in s.chains)
  {
    var s', dst := Append(s, self, latest, prop, signed).0, Append(s, self, latest, prop, signed).1.latest;
    AppendEffect(s, self, latest, prop, signed);
    AppendedView(s, s', latest, dst);
    StoredBlock(s, latest);
    AppendedRequests(s, s', latest, dst);
    forall x | x in s.chains && x != SkipChainID(s.blocks[latest]) ensures SameChain(s, s', x) {
      OtherChainSame(s, s', latest, dst, x);
    }
  }

  lemma GrownExact(s: State, s': State, g: SkipBlockID, n: nat, i: nat, l: nat)
    requires g in s.chains && Grown(s, s', g, n) && i <= n
    requires i < n ==> ExactAt(s, g, i, l)
    ensures ExactAt(s', g, i, l)
  {
    if i < n - 1 && l < |Links(s, g, i)| {
      assert s'.chains[g][..n][i + Pow(Base(s, g), l)] == s'.chains[g][i + Pow(Base(s, g), l)];
    }
  }

  lemma GrownCovered(s: State, s': State, d: nat, g: SkipBlockID, n: nat, i: nat, e: nat)
    requires g in s.chains && Grown(s, s', g, n) && AskedFor(s, s', g, n) && i <= n
    requires MaxHeight(s, g) <= Base(s, g) && d <= |s.sent|
    requires i < n ==> CoveredAt(s, d, g, i, e)
    ensures CoveredAt(s', d, g, i, e)
  {
    var b, m := Base(s', g), MaxHeight(s', g);
    PowPositive(b, e);
    if |Links(s', g, i)| <= e < LevelsOf(s', g, i) && i + Pow(b, e) < n + 1 {
      if i + Pow(b, e) < n {
        assert Asked(s, d, g, i, e);
        var k :| d <= k < |s.sent| && Asks(s.sent[k], g, Base(s, g), i, e);
        assert Asks(s'.sent[k], g, Base(s', g), i, e);
      } else {
        HeightAbove(b, m, i, e);
        assert e >= 1;
        assert Asks(s'.sent[|s.sent| + e - 1], g, b, i, e);
      }
    }
  }

  lemma AppendOrder(s: State, s': State, g: SkipBlockID, n: nat)
    requires Inv(s) && AllOrdered(s) && g in s.chains && n == |s.chains[g]| && AskedFor(s, s', g, n)
    ensures AllOrdered(s')
  {
    forall k, k' | 0 <= k < k' < |s'.sent| ensures SentBefore(s'.sent[k], s'.sent[k']) {
      if k' < |s.sent| {
        assert SentBefore(s.sent[k], s.sent[k']);
        assert s'.sent[k] == s.sent[k] && s'.sent[k'] == s.sent[k'];
      } else if k < |s.sent| {
        RequestView(s, k);
        assert s'.sent[k] == s.sent[k];
      }
    }
  }

  lemma OrderOf(s: State, k: nat, k': nat)
    requires AllOrdered(s) && k < k' < |s.sent|
    ensures SentBefore(s.sent[k], s.sent[k'])
  {
  }


  // ----- Serving a request ----------------------------------------------------------------------------------

  /** The index of the block that the k-th request asks for a link. */
  function Target(s: State, k: nat): int
    requires k < |s.sent|
  {
    s.sent[k].newest.fix.index - Pow(Base(s, SkipChainID(s.sent[k].newest)), s.sent[k].targetHeight)
  }

  /** Its links. */
  function TargetLinks(s: State, k: nat): seq<BlockLink>
    requires k < |s.sent|
  {
    Links(s, SkipChainID(s.sent[k].newest), Target(s, k))
  }

  /** A request is accepted exactly if the signing round completes and its target has no more links than
      the request's level. */
  lemma ServeAccepted(s: State, k: nat, completes: bool)
    requires Inv(s) && k < |s.sent|
    ensures Deliver(s, s.sent[k], completes) != s <==> completes && |TargetLinks(s, k)| <= s.sent[k].targetHeight
  {
    var fs := s.sent[k];
    assert RequestOK(s, fs);
    RequestTarget(s, fs);
    RequestView(s, k);
    var g, t := SkipChainID(fs.newest), TargetIndex(fs);
    ChainsDisjoint(s, g, t, s.chains[g][t]);
    var target := s.chains[g][t];
    if completes && |s.blocks[target].forwardLink| <= fs.targetHeight {
      assert |Deliver(s, fs, completes).blocks[target].forwardLink| == |s.blocks[target].forwardLink| + 1;
    }
  }

  /** Block t of chain g gained one link, to the block of level h; nothing else changed. */
  ghost predicate LinkAdded(s: State, s': State, g: SkipBlockID, t: nat, h: nat)
  {
    && g in s.chains && t + Pow(Base(s, g), h) < |s.chains[g]|
    && s'.sent == s.sent && s'.chains == s.chains
    && (forall x :: x in s.chains ==> Base(s', x) == Base(s, x) && MaxHeight(s', x) == MaxHeight(s, x))
    && (forall x, i :: x in s.chains && 0 <= i < |s.chains[x]| && (x != g || i != t) ==> Links(s', x, i) == Links(s, x, i))
    && |Links(s, g, t)| <= h && |Links(s', g, t)| == |Links(s, g, t)| + 1
    && Links(s, g, t) <= Links(s', g, t)
    && Links(s', g, t)[|Links(s, g, t)|].hash == s.chains[g][t + Pow(Base(s, g), h)]
  }

  /** One stored block of chain g gains a link: how the views change. */
  lemma ExtendedViews(s: State, s': State, g: SkipBlockID, t: nat, h: nat, link: BlockLink)
    requires Inv(s) && g in s.chains && t + Pow(Base(s, g), h) < |s.chains[g]| && t < |s.chains[g]| && s.chains[g][t] in s.blocks
    requires s' == s.(blocks := s.blocks[s.chains[g][t] := Extended(s.blocks[s.chains[g][t]], link)])
    requires link.hash == s.chains[g][t + Pow(Base(s, g), h)] && |Links(s, g, t)| <= h
    ensures LinkAdded(s, s', g, t, h)
  {
    ChainsDisjoint(s, g, t, s.chains[g][t]);
    forall x, i | x in s.chains && 0 <= i < |s.chains[x]| && (x != g || i != t) ensures Links(s', x, i) == Links(s, x, i) {
      ChainsDisjoint(s, x, i, s.chains[x][i]);
    }
    forall x | x in s.chains ensures Base(s', x) == Base(s, x) && MaxHeight(s', x) == MaxHeight(s, x) {
      ChainView(s, x, 0) by { assert ChainOK(s.blocks, x, s.chains[x]); }
    }
  }

  lemma ServeViews(s: State, k: nat, completes: bool)
    requires Inv(s) && k < |s.sent| && Deliver(s, s.sent[k], completes) != s
    ensures Target(s, k) >= 0
    ensures LinkAdded(s, Deliver(s, s.sent[k], completes), SkipChainID(s.sent[k].newest), Target(s, k), s.sent[k].targetHeight)
  {
    var fs := s.sent[k];
    assert RequestOK(s, fs);
    RequestView(s, k);
    DeliverEffect(s, fs, completes);
    var g, t := SkipChainID(fs.newest), TargetIndex(fs);
    var link := BlockLink(fs.newest.hash, CoSi(s.blocks[s.chains[g][t]].fix.roster.list, fs.newest.hash));
    ExtendedViews(s, Deliver(s, fs, completes), g, t, fs.targetHeight, link);
  }

  // ----- What every run keeps ---------------------------------------------------------------------------------

  /** Chains and lists of links only grow at their ends. */
  ghost predicate ViewsGrow(s: State, s': State)
  {
    && s.sent <= s'.sent
    && forall g {:trigger g in s'.chains} :: g in s.chains ==>
         && g in s'.chains && s.chains[g] <= s'.chains[g]
         && Base(s', g) == Base(s, g) && MaxHeight(s', g) == MaxHeight(s, g)
         && forall i :: 0 <= i < |s.chains[g]| ==> Links(s, g, i) <= Links(s', g, i)
  }

  lemma CreateViewsGrow(s: State, genesis: SkipBlockFix, nonce: nat)
    requires Inv(s)
    ensures ViewsGrow(s, CreateChain(s, genesis, nonce).0)
  {
    if CreateChain(s, genesis, nonce).1.Stored? { CreateViews(s, genesis, nonce); }
  }

  lemma AppendViewsGrow(s: State, self: nat, latest: SkipBlockID, prop: SkipBlockFix, signed: bool)
    requires Inv(s) && prop.roster.Roster?
    ensures ViewsGrow(s, Append(s, self, latest, prop, signed).0)
  {
    if Append(s, self, latest, prop, signed).1.Stored? {
      AppendView(s, self, latest, prop, signed);
      GrownViews(s, Append(s, self, latest, prop, signed).0, SkipChainID(s.blocks[latest]));
    }
  }

  lemma StepViewsGrow(s: State, e: Event)
    requires Inv(s) && WellFormed(e)
    ensures ViewsGrow(s, Step(s, e))
  {
    match e
    case Create(genesis, nonce) => CreateViewsGrow(s, genesis, nonce);
    case Add(self, latest, prop, signed) => AppendViewsGrow(s, self, latest, prop, signed);
    case Serve(k, completes) =>
      if k < |s.sent| && Deliver(s, s.sent[k], completes) != s {
        ServeViews(s, k, completes);
      }
  }

  lemma GrownViews(s: State, s': State, g: SkipBlockID)
    requires g in s.chains && Grown(s, s', g, |s.chains[g]|) && AskedFor(s, s', g, |s.chains[g]|)
    requires forall x :: x in s.chains && x != g ==> SameChain(s, s', x)
    ensures ViewsGrow(s, s')
  {
    forall x | x in s.chains
      ensures x in s'.chains && s.chains[x] <= s'.chains[x] && Base(s', x) == Base(s, x) && MaxHeight(s', x) == MaxHeight(s, x)
      ensures forall i :: 0 <= i < |s.chains[x]| ==> Links(s, x, i) <= Links(s', x, i)
    {
      if x != g { assert SameChain(s, s', x); }
    }
  }

  /** In every run each link that is missing was asked for, and requests are sent in order. */
  lemma {:induction false} RunAsked(es: seq<Event>)
    requires forall e :: e in es ==> WellFormed(e)
    ensures AllCovered(Run(es), 0) && AllOrdered(Run(es))
    decreases |es|
  {
    if es != [] {
      var front, last := es[..|es| - 1], es[|es| - 1];
      RunAsked(front);
      assert last in es;
      StepAsked(Run(front), last);
    }
  }

  lemma StepAsked(s: State, e: Event)
    requires Inv(s) && WellFormed(e) && AllCovered(s, 0) && AllOrdered(s)
    ensures AllCovered(Step(s, e), 0) && AllOrdered(Step(s, e))
  {
    match e
    case Create(genesis, nonce) =>
      if CreateChain(s, genesis, nonce).1.Stored? {
        CreateViews(s, genesis, nonce);
        CreateAsked(s, Step(s, e), CalculateHash(GenesisFix(genesis, nonce)));
      }
    case Add(self, latest, prop, signed) => AddAsked(s, self, latest, prop, signed);
    case Serve(k, completes) =>
      if k < |s.sent| && Deliver(s, s.sent[k], completes) != s {
        ServeViews(s, k, completes);
        ServeAsked(s, Step(s, e), SkipChainID(s.sent[k].newest), Target(s, k), s.sent[k].targetHeight);
      }
  }

  lemma AddAsked(s: State, self: nat, latest: SkipBlockID, prop: SkipBlockFix, signed: bool)
    requires Inv(s) && prop.roster.Roster? && AllCovered(s, 0) && AllOrdered(s)
    ensures AllCovered(Append(s, self, latest, prop, signed).0, 0) && AllOrdered(Append(s, self, latest, prop, signed).0)
  {
    if Append(s, self, latest, prop, signed).1.Stored? {
      AppendView(s, self, latest, prop, signed);
      AppendAsked(s, Append(s, self, latest, prop, signed).0, SkipChainID(s.blocks[latest]));
    }
  }

  lemma CreateAsked(s: State, s': State, id: SkipBlockID)
    requires AllCovered(s, 0) && AllOrdered(s) && s'.sent == s.sent
    requires forall g :: g in s.chains ==> SameChain(s, s', g)
    requires forall g :: g in s'.chains ==> g in s.chains || g == id
    requires id in s'.chains && (id !in s.chains ==> |s'.chains[id]| == 1)
    ensures AllCovered(s', 0) && AllOrdered(s')
  {
    forall g, i: nat, e: nat | g in s'.chains && i < |s'.chains[g]| ensures CoveredAt(s', 0, g, i, e) {
      if g in s.chains {
        assert SameChain(s, s', g) && CoveredAt(s, 0, g, i, e);
        CoveredKept(s, s', 0, g, i, e);
      } else {
        PowPositive(Base(s', g), e);
      }
    }
    OrderedKept(s, s');
  }

  lemma AppendAsked(s: State, s': State, g0: SkipBlockID)
    requires Inv(s) && AllCovered(s, 0) && AllOrdered(s) && g0 in s.chains
    requires Grown(s, s', g0, |s.chains[g0]|) && AskedFor(s, s', g0, |s.chains[g0]|)
    requires (forall x :: x in s.chains && x != g0 ==> SameChain(s, s', x)) && forall x :: x in s'.chains ==> x in s.chains
    ensures AllCovered(s', 0) && AllOrdered(s')
  {
    ChainView(s, g0, 0);
    forall g, i: nat, e: nat | g in s'.chains && i < |s'.chains[g]| ensures CoveredAt(s', 0, g, i, e) {
      if i < |s.chains[g]| { assert CoveredAt(s, 0, g, i, e); }
      if g == g0 {
        GrownCovered(s, s', 0, g, |s.chains[g]|, i, e);
      } else {
        assert SameChain(s, s', g);
        CoveredKept(s, s', 0, g, i, e);
      }
    }
    AppendOrder(s, s', g0, |s.chains[g0]|);
  }

  lemma ServeAsked(s: State, s': State, g0: SkipBlockID, t: nat, h: nat)
    requires LinkAdded(s, s', g0, t, h) && AllCovered(s, 0) && AllOrdered(s)
    ensures AllCovered(s', 0) && AllOrdered(s')
  {
    forall g, i: nat, e: nat | g in s'.chains && i < |s'.chains[g]| ensures CoveredAt(s', 0, g, i, e) {
      assert CoveredAt(s, 0, g, i, e);
      if Asked(s, 0, g, i, e) {
        var k :| 0 <= k < |s.sent| && Asks(s.sent[k], g, Base(s, g), i, e);
        assert Asks(s'.sent[k], g, Base(s', g), i, e);
      }
    }
    OrderedKept(s, s');
  }

  lemma OrderedKept(s: State, s': State)
    requires s'.sent == s.sent && AllOrdered(s)
    ensures AllOrdered(s')
  {
    forall k, k' | 0 <= k < k' < |s'.sent| ensures SentBefore(s'.sent[k], s'.sent[k']) {
      OrderOf(s, k, k');
    }
  }

  // ----- Premature service -------------------------------------------------------------------------------------

  /** The event serves a request, with success, whose target still lacks a lower link. */
  ghost predicate Premature(s: State, e: Event)
  {
    e.Serve? && e.k < |s.sent| && Deliver(s, s.sent[e.k], e.completes) != s && |TargetLinks(s, e.k)| < s.sent[e.k].targetHeight
  }

  ghost predicate NonePremature(es: seq<Event>)
    requires forall e :: e in es ==> WellFormed(e)
  {
    es == [] || (NonePremature(es[..|es| - 1]) && !Premature(Run(es[..|es| - 1]), es[|es| - 1]))
  }

  /** Exactness is not regained: a link on a wrong position stays there. */
  lemma ExactBefore(s: State, s': State)
    requires Inv(s) && ViewsGrow(s, s') && AllExact(s')
    ensures AllExact(s)
  {
    forall g, i: nat, l: nat | g in s.chains && i < |s.chains[g]| ensures ExactAt(s, g, i, l) {
      if l < |Links(s, g, i)| {
        assert g in s'.chains && ExactAt(s', g, i, l);
        LinkBound(s, g, i, l);
        assert Links(s', g, i)[l] == Links(s, g, i)[l];
      }
    }
  }

  /** The l-th link of a block leads at least b^l blocks ahead. */
  lemma LinkBound(s: State, g: SkipBlockID, i: nat, l: nat)
    requires Inv(s) && g in s.chains && i < |s.chains[g]| && l < |Links(s, g, i)|
    ensures i + Pow(Base(s, g), l) < |s.chains[g]|
  {
    ChainView(s, g, i);
    var b, m := Base(s, g), MaxHeight(s, g);
    var next := Links(s, g, i)[l].hash;
    assert LevelLink(next, s.chains[g], b, m, i, l);
    var e: nat :| l <= e < Height(b, m, i) && i + Pow(b, e) < |s.chains[g]| && next == s.chains[g][i + Pow(b, e)];
    PowMonotone(b, l, e);
  }

  lemma LinkAddedExact(s: State, s': State, g0: SkipBlockID, t: nat, h: nat)
    requires LinkAdded(s, s', g0, t, h) && AllExact(s) && |Links(s, g0, t)| == h
    ensures AllExact(s')
  {
    forall g, i: nat, l: nat | g in s'.chains && i < |s'.chains[g]| ensures ExactAt(s', g, i, l) {
      assert ExactAt(s, g, i, l);
      if g == g0 && i == t && l < h { assert Links(s', g, i)[l] == Links(s, g, i)[l]; }
    }
  }

  lemma LinkAddedWrong(s: State, s': State, g: SkipBlockID, t: nat, h: nat)
    requires Inv(s) && LinkAdded(s, s', g, t, h) && t < |s.chains[g]| && |Links(s, g, t)| < h < LevelsOf(s, g, t)
    ensures !AllExact(s')
  {
    var b, l := Base(s, g), |Links(s, g, t)|;
    ChainView(s, g, t);
    PowStrict(b, l, h);
    ChainsDisjoint(s, g, t + Pow(b, l), s.chains[g][t + Pow(b, l)]);
    ChainsDisjoint(s, g, t + Pow(b, h), s.chains[g][t + Pow(b, h)]);
    assert !ExactAt(s', g, t, l);
  }

  lemma LinkAddedExactIff(s: State, s': State, g: SkipBlockID, t: nat, h: nat)
    requires Inv(s) && LinkAdded(s, s', g, t, h) && t < |s.chains[g]| && h < LevelsOf(s, g, t) && ViewsGrow(s, s')
    ensures AllExact(s') <==> AllExact(s) && |Links(s, g, t)| >= h
  {
    if AllExact(s') { ExactBefore(s, s'); }
    if |Links(s, g, t)| < h {
      LinkAddedWrong(s, s', g, t, h);
    } else if AllExact(s) {
      LinkAddedExact(s, s', g, t, h);
    }
  }

  lemma ServeExact(s: State, k: nat, completes: bool)
    requires Inv(s) && k < |s.sent|
    ensures AllExact(Step(s, Serve(k, completes))) <==> AllExact(s) && !Premature(s, Serve(k, completes))
  {
    var s' := Deliver(s, s.sent[k], completes);
    if s' != s {
      ServeViews(s, k, completes);
      RequestView(s, k);
      StepViewsGrow(s, Serve(k, completes));
      LinkAddedExactIff(s, s', SkipChainID(s.sent[k].newest), Target(s, k), s.sent[k].targetHeight);
    }
  }

  lemma GrownAllExact(s: State, s': State, g0: SkipBlockID)
    requires AllExact(s) && g0 in s.chains && Grown(s, s', g0, |s.chains[g0]|)
    requires (forall x :: x in s.chains && x != g0 ==> SameChain(s, s', x)) && forall x :: x in s'.chains ==> x in s.chains
    ensures AllExact(s')
  {
    forall g, i: nat, l: nat | g in s'.chains && i < |s'.chains[g]| ensures ExactAt(s', g, i, l) {
      if i < |s.chains[g]| { assert ExactAt(s, g, i, l); }
      if g == g0 {
        GrownExact(s, s', g, |s.chains[g]|, i, l);
      } else {
        assert SameChain(s, s', g);
      }
    }
  }

  lemma StepExact(s: State, e: Event)
    requires Inv(s) && WellFormed(e)
    ensures AllExact(Step(s, e)) <==> AllExact(s) && !Premature(s, e)
  {
    var s' := Step(s, e);
    StepViewsGrow(s, e);
    if AllExact(s') { ExactBefore(s, s'); }
    match e
    case Create(genesis, nonce) =>
      if AllExact(s) && CreateChain(s, genesis, nonce).1.Stored? {
        CreateViews(s, genesis, nonce);
        CreatedExact(s, s', CalculateHash(GenesisFix(genesis, nonce)));
      }
    case Add(self, latest, prop, signed) => if AllExact(s) { AppendExact(s, self, latest, prop, signed); }
    case Serve(k, completes) =>
      if k < |s.sent| { ServeExact(s, k, completes); }
  }

  lemma AppendExact(s: State, self: nat, latest: SkipBlockID, prop: SkipBlockFix, signed: bool)
    requires Inv(s) && prop.roster.Roster? && AllExact(s)
    ensures AllExact(Append(s, self, latest, prop, signed).0)
  {
    if Append(s, self, latest, prop, signed).1.Stored? {
      AppendView(s, self, latest, prop, signed);
      GrownAllExact(s, Append(s, self, latest, prop, signed).0, SkipChainID(s.blocks[latest]));
    }
  }

  lemma CreatedExact(s: State, s': State, id: SkipBlockID)
    requires AllExact(s) && forall g :: g in s.chains ==> SameChain(s, s', g)
    requires forall g :: g in s'.chains ==> g in s.chains || g == id
    requires id in s'.chains && (id !in s.chains ==> |s'.chains[id]| == 1 && Links(s', id, 0) == [])
    ensures AllExact(s')
  {
    forall g, i: nat, l: nat | g in s'.chains && i < |s'.chains[g]| ensures ExactAt(s', g, i, l) {
      if g in s.chains { assert SameChain(s, s', g) && ExactAt(s, g, i, l); }
    }
  }

  /** In every run: all links sit on the positions of their levels exactly if no request was served while
      its target lacked a lower link. */
  lemma {:induction false} ExactIff(es: seq<Event>)
    requires forall e :: e in es ==> WellFormed(e)
    ensures AllExact(Run(es)) <==> NonePremature(es)
    decreases |es|
  {
    if es != [] {
      var front, last := es[..|es| - 1], es[|es| - 1];
      ExactIff(front);
      assert last in es;
      StepExact(Run(front), last);
    }
  }

  // ----- Completeness --------------------------------------------------------------------------------------------

  /** The requests that have had a service whose signing round completed. */
  ghost function Done(es: seq<Event>): set<nat>
    requires forall e :: e in es ==> WellFormed(e)
  {
    if es == [] then {}
    else
      var front, last := es[..|es| - 1], es[|es| - 1];
      Done(front) + if last.Serve? && last.completes && last.k < |Run(front).sent| then {last.k} else {}
  }

  ghost predicate AllDone(es: seq<Event>)
    requires forall e :: e in es ==> WellFormed(e)
  {
    forall k: nat {:trigger k in Done(es)} :: k < |Run(es).sent| ==> k in Done(es)
  }

  lemma TargetGrows(s: State, s': State, k: nat)
    requires Inv(s) && ViewsGrow(s, s') && k < |s.sent|
    ensures k < |s'.sent| && s'.sent[k] == s.sent[k] && Target(s', k) == Target(s, k)
    ensures TargetLinks(s, k) <= TargetLinks(s', k)
  {
    RequestView(s, k);
    assert SkipChainID(s.sent[k].newest) in s'.chains;
  }

  /** Without premature service, a request that is done has its link. */
  lemma {:induction false} DoneHasLink(es: seq<Event>, k: nat)
    requires forall e :: e in es ==> WellFormed(e)
    requires NonePremature(es) && k in Done(es)
    ensures k < |Run(es).sent| && |TargetLinks(Run(es), k)| > Run(es).sent[k].targetHeight
    decreases |es|
  {
    var front, last := es[..|es| - 1], es[|es| - 1];
    assert last in es;
    if k in Done(front) { DoneHasLink(front, k); }
    StepHasLink(Run(front), last, k);
  }

  lemma StepHasLink(s: State, e: Event, k: nat)
    requires Inv(s) && WellFormed(e) && k < |s.sent|
    requires |TargetLinks(s, k)| > s.sent[k].targetHeight || (e == Serve(k, true) && !Premature(s, e))
    ensures k < |Step(s, e).sent| && |TargetLinks(Step(s, e), k)| > Step(s, e).sent[k].targetHeight
  {
    if |TargetLinks(s, k)| > s.sent[k].targetHeight {
      StepViewsGrow(s, e);
      TargetGrows(s, Step(s, e), k);
    } else {
      ServedHasLink(s, k);
    }
  }

  lemma ServedHasLink(s: State, k: nat)
    requires Inv(s) && k < |s.sent| && !Premature(s, Serve(k, true))
    ensures var s' := Deliver(s, s.sent[k], true);
      k < |s'.sent| && |TargetLinks(s', k)| > s'.sent[k].targetHeight
  {
    ServeAccepted(s, k, true);
    RequestView(s, k);
    if Deliver(s, s.sent[k], true) != s { ServeViews(s, k, true); }
  }

  /** The forward links of block i are its links to the blocks i + b^e, for the levels e below its
      height with i + b^e <= tip, in the order of the levels. */
  ghost predicate CompleteAt(s: State, g: SkipBlockID, i: nat)
    requires g in s.chains && i < |s.chains[g]|
  {
    && |Links(s, g, i)| == LinkCount(Base(s, g), MaxHeight(s, g), |s.chains[g]| - 1, i)
    && forall e :: 0 <= e < |Links(s, g, i)| ==>
         && i + Pow(Base(s, g), e) < |s.chains[g]|
         && Links(s, g, i)[e].hash == s.chains[g][i + Pow(Base(s, g), e)]
  }

  ghost predicate AllComplete(s: State)
  {
    forall g, i: nat {:trigger CompleteAt(s, g, i)} :: g in s.chains && i < |s.chains[g]| ==> CompleteAt(s, g, i)
  }

  lemma CountOf(b: nat, m: nat, n: nat, i: nat, k: nat)
    requires b >= 1 && m >= 1 && k <= Height(b, m, i) && (k > 0 ==> i + Pow(b, k - 1) <= n)
    requires k < Height(b, m, i) ==> i + Pow(b, k) > n
    ensures k == LinkCount(b, m, n, i)
  {
    LinkCountLevels(b, m, n, i, k);
    if k > 0 { LinkCountLevels(b, m, n, i, k - 1); }
  }

  lemma CoveredIsComplete(s: State, g: SkipBlockID, i: nat)
    requires Inv(s) && AllExact(s) && AllCovered(s, |s.sent|) && g in s.chains && i < |s.chains[g]|
    ensures CompleteAt(s, g, i)
  {
    ChainView(s, g, i);
    CompleteFrom(s, g, i);
  }

  lemma CompleteFrom(s: State, g: SkipBlockID, i: nat)
    requires AllExact(s) && AllCovered(s, |s.sent|) && g in s.chains && i < |s.chains[g]| && |Links(s, g, i)| <= LevelsOf(s, g, i)
    ensures CompleteAt(s, g, i)
  {
    var b, k := Base(s, g), |Links(s, g, i)|;
    forall e: nat | e < k
      ensures i + Pow(b, e) < |s.chains[g]| && Links(s, g, i)[e].hash == s.chains[g][i + Pow(b, e)]
    {
      assert ExactAt(s, g, i, e);
    }
    assert CoveredAt(s, |s.sent|, g, i, k);
    CountOf(b, MaxHeight(s, g), |s.chains[g]| - 1, i, k);
  }

  ghost predicate HasLink(s: State, k: nat)
    requires k < |s.sent|
  {
    |TargetLinks(s, k)| > s.sent[k].targetHeight
  }

  /** If all requests have their links, no link is missing. */
  lemma NoneMissing(s: State, g: SkipBlockID, i: nat, e: nat)
    requires AllCovered(s, 0) && g in s.chains && i < |s.chains[g]|
    requires forall k: nat {:trigger HasLink(s, k)} :: k < |s.sent| ==> HasLink(s, k)
    ensures CoveredAt(s, |s.sent|, g, i, e)
  {
    assert CoveredAt(s, 0, g, i, e);
    if Asked(s, 0, g, i, e) {
      var k :| 0 <= k < |s.sent| && Asks(s.sent[k], g, Base(s, g), i, e);
      assert HasLink(s, k);
    }
  }

  /** Once every request sent has had a completing service: every block has exactly its links to the
      blocks i + b^e, in order, exactly if no service was premature. */
  lemma CompleteIff(es: seq<Event>)
    requires forall e :: e in es ==> WellFormed(e)
    requires AllDone(es)
    ensures AllComplete(Run(es)) <==> NonePremature(es)
  {
    var s := Run(es);
    ExactIff(es);
    if NonePremature(es) {
      RunAsked(es);
      forall k: nat | k < |s.sent| ensures HasLink(s, k) {
        assert k in Done(es);
        DoneHasLink(es, k);
      }
      forall g, i: nat, e: nat | g in s.chains && i < |s.chains[g]| ensures CoveredAt(s, |s.sent|, g, i, e) {
        NoneMissing(s, g, i, e);
      }
      forall g, i: nat | g in s.chains && i < |s.chains[g]| ensures CompleteAt(s, g, i) {
        CoveredIsComplete(s, g, i);
      }
    }
    if AllComplete(s) {
      forall g, i: nat, l: nat | g in s.chains && i < |s.chains[g]| ensures ExactAt(s, g, i, l) {
        assert CompleteAt(s, g, i);
      }
    }
  }
}
