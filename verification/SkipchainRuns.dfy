/** What holds in every state that a run of the skipchain service can reach. */
module SkipchainRuns {
  import opened Options
  import opened Powers
  import opened SkipIndex
  import opened SkipBlocks
  import opened Skipchain
  import opened SkipchainInvariant

  /** Create and Add are the two branches of StoreSkipBlock. Serve(k) is the arrival of the k-th
      request sent so far; it may happen at any time, several times or never. */
  datatype Event =
    | Create(genesis: SkipBlockFix, nonce: nat)
    | Add(self: nat, latest: SkipBlockID, prop: SkipBlockFix, signed: bool)
    | Serve(k: nat, completes: bool)

  /** An appended block must come with a roster: the service dereferences it unchecked. */
  predicate WellFormed(e: Event)
  {
    e.Add? ==> e.prop.roster.Roster?
  }

  ghost function Step(s: State, e: Event): (s': State)
    requires Inv(s) && WellFormed(e)
    ensures Inv(s')
  {
    match e
    case Create(genesis, nonce) =>
      CreateChainKeepsInv(s, genesis, nonce);
      CreateChain(s, genesis, nonce).0
    case Add(self, latest, prop, signed) =>
      AppendKeepsInv(s, self, latest, prop, signed);
      Append(s, self, latest, prop, signed).0
    case Serve(k, completes) =>
      if k < |s.sent| then
        assert RequestOK(s, s.sent[k]);
        DeliverKeepsInv(s, s.sent[k], completes);
        Deliver(s, s.sent[k], completes)
      else s
  }

  /** The state after a run from the empty store. */
  ghost function Run(es: seq<Event>): (s: State)
    requires forall e :: e in es ==> WellFormed(e)
    ensures Inv(s)
  {
    if es == [] then State(map[], [], map[])
    else Step(Run(es[..|es| - 1]), es[|es| - 1])
  }

  /** s is a state of some run. */
  ghost predicate Reachable(s: State)
  {
    exists es: seq<Event> :: (forall e :: e in es ==> WellFormed(e)) && Run(es) == s
  }

  lemma ReachableInv(s: State)
    requires Reachable(s)
    ensures Inv(s)
  {
    var es: seq<Event> :| (forall e :: e in es ==> WellFormed(e)) && Run(es) == s;
  }

  // ----- Safety under any schedule ---------------------------------------------------------------

  /** Heights and back-links of every chain: block i has the height of the deterministic skip
      list, and its level-h back-link is block i - b^h. */
  lemma RunBackLinks(s: State, g: SkipBlockID, i: nat)
    requires Reachable(s) && g in s.chains && i < |s.chains[g]|
    ensures g in s.blocks && s.chains[g][i] in s.blocks
    ensures 1 <= s.blocks[g].fix.maximumHeight <= s.blocks[g].fix.baseHeight
    ensures var c, b, m, fix := s.chains[g], s.blocks[g].fix.baseHeight, s.blocks[g].fix.maximumHeight, s.blocks[s.chains[g][i]].fix;
            && fix.index == i
            && fix.height == Height(b, m, i)
            && (i > 0 ==> BackSpec(fix.backLinkIDs, c, b, i, 0, Height(b, m, i)))
  {
    ReachableInv(s);
    assert ChainOK(s.blocks, g, s.chains[g]);
    BackLinksOfBlock(s.blocks[s.chains[g][i]], s.chains[g], s.blocks[g].fix.baseHeight, s.blocks[g].fix.maximumHeight, i) by {
      assert BlockOK(s.blocks[s.chains[g][i]], s.chains[g], s.blocks[g].fix.baseHeight, s.blocks[g].fix.maximumHeight, i);
    }
  }

  lemma BackLinksOfBlock(blk: Block, c: seq<SkipBlockID>, b: int, m: int, i: nat)
    requires 1 <= m <= b && i < |c| && FixedOK(blk, c, b, m, i)
    ensures blk.fix.index == i && blk.fix.height == Height(b, m, i)
    ensures i > 0 ==> BackSpec(blk.fix.backLinkIDs, c, b, i, 0, Height(b, m, i))
  {
    forall k | i > 0 && 0 <= k < Height(b, m, i)
      ensures 0 <= i - Pow(b, k) < i && blk.fix.backLinkIDs[k - 0] == c[i - Pow(b, k)]
    {
      assert IsBack(blk.fix.backLinkIDs[k], c, b, i, k);
      PowPositive(b, k);
    }
  }

  /** Two blocks of one chain never share an index. */
  lemma RunIndicesUnique(s: State, x: SkipBlockID, y: SkipBlockID)
    requires Reachable(s)
    requires x in s.blocks && y in s.blocks
    requires SkipChainID(s.blocks[x]) == SkipChainID(s.blocks[y])
    requires s.blocks[x].fix.index == s.blocks[y].fix.index
    ensures x == y
  {
    ReachableInv(s);
    StoredBlock(s, x);
    StoredBlock(s, y);
  }

  lemma LinkTarget(s: State, id: SkipBlockID, l: nat)
    requires Inv(s) && id in s.blocks && l < |s.blocks[id].forwardLink|
    ensures var next := s.blocks[id].forwardLink[l].hash;
            && next in s.blocks
            && s.blocks[id].fix.index < s.blocks[next].fix.index
            && SkipChainID(s.blocks[next]) == SkipChainID(s.blocks[id])
            && (l == 0 ==> s.blocks[next].fix.index == s.blocks[id].fix.index + 1)
            && VerifySignature(s.blocks[id].forwardLink[l], s.blocks[id].fix.roster)
  {
    var g, j := LinkPlace(s, id, l);
    ChainsDisjoint(s, g, j, s.chains[g][j]);
  }

  /** Where in the chain the l-th link of a block leads. */
  lemma LinkPlace(s: State, id: SkipBlockID, l: nat) returns (g: SkipBlockID, j: nat)
    requires Inv(s) && id in s.blocks && l < |s.blocks[id].forwardLink|
    ensures g == SkipChainID(s.blocks[id]) && g in s.chains && s.blocks[id].fix.index < j < |s.chains[g]|
    ensures s.chains[g][j] == s.blocks[id].forwardLink[l].hash
    ensures l == 0 ==> j == s.blocks[id].fix.index + 1
    ensures VerifySignature(s.blocks[id].forwardLink[l], s.blocks[id].fix.roster)
  {
    StoredBlock(s, id);
    g := SkipChainID(s.blocks[id]);
    var c, i, b, m := s.chains[g], s.blocks[id].fix.index, s.blocks[g].fix.baseHeight, s.blocks[g].fix.maximumHeight;
    var next := s.blocks[id].forwardLink[l].hash;
    if l == 0 {
      j := i + 1;
    } else {
      assert LevelLink(next, c, b, m, i, l);
      var e: nat :| l <= e < Height(b, m, i) && i + Pow(b, e) < |c| && next == c[i + Pow(b, e)];
      PowPositive(b, e);
      j := i + Pow(b, e);
    }
  }

  /** Whatever requests are lost, delayed, reordered or repeated: every forward link is signed and
      leads to a strictly later block of the same chain, the first leads to the direct successor,
      and no block has more links than its height. */
  lemma RunForwardLinks(s: State, id: SkipBlockID)
    requires Reachable(s)
    requires id in s.blocks
    ensures SkipChainID(s.blocks[id]) in s.chains
    ensures var blk := s.blocks[id];
            && |blk.forwardLink| <= blk.fix.height
            && (blk.forwardLink == [] <==> blk.fix.index + 1 == |s.chains[SkipChainID(blk)]|)
            && forall l :: 0 <= l < |blk.forwardLink| ==>
                 var next := blk.forwardLink[l].hash;
                 && next in s.blocks
                 && blk.fix.index < s.blocks[next].fix.index
                 && SkipChainID(s.blocks[next]) == SkipChainID(blk)
                 && (l == 0 ==> s.blocks[next].fix.index == blk.fix.index + 1)
                 && VerifySignature(blk.forwardLink[l], blk.fix.roster)
  {
    ReachableInv(s);
    StoredBlock(s, id);
    forall l | 0 <= l < |s.blocks[id].forwardLink|
      ensures var next := s.blocks[id].forwardLink[l].hash;
              && next in s.blocks
              && s.blocks[id].fix.index < s.blocks[next].fix.index
              && SkipChainID(s.blocks[next]) == SkipChainID(s.blocks[id])
              && (l == 0 ==> s.blocks[next].fix.index == s.blocks[id].fix.index + 1)
              && VerifySignature(s.blocks[id].forwardLink[l], s.blocks[id].fix.roster)
    {
      LinkTarget(s, id, l);
    }
  }

  lemma InvForwardOrdered(s: State)
    requires Inv(s)
    ensures ForwardOrdered(s.blocks)
  {
    forall id, l | id in s.blocks && 0 <= l < |s.blocks[id].forwardLink|
      ensures var h := s.blocks[id].forwardLink[l].hash;
              h in s.blocks ==> s.blocks[id].fix.index < s.blocks[h].fix.index
    {
      LinkTarget(s, id, l);
    }
  }

  /** The tip of the chain that block id belongs to. */
  ghost function Tip(s: State, id: SkipBlockID): SkipBlockID
    requires Inv(s) && id in s.blocks
  {
    StoredBlock(s, id);
    var c := s.chains[SkipChainID(s.blocks[id])];
    c[|c| - 1]
  }

  lemma {:induction false} WalkReachesTip(s: State, id: SkipBlockID)
    requires Inv(s) && id in s.blocks && ForwardOrdered(s.blocks)
    ensures Walk(s.blocks, id).Some?
    ensures var w := Walk(s.blocks, id).value; w[|w| - 1] == Tip(s, id)
    decreases Later(s.blocks, s.blocks[id].fix.index)
  {
    StoredBlock(s, id);
    var f := s.blocks[id].forwardLink;
    if f != [] {
      var next := f[|f| - 1].hash;
      StaysBelowTip(s, id, |f| - 1);
      WalkReachesTip(s, next);
    }
  }

  /** The k-th block of a walk leads by its highest link to the next one; only the last has no link. */
  ghost predicate WalkStep(blocks: Blocks, w: seq<SkipBlockID>, k: nat)
  {
    && k < |w| && w[k] in blocks
    && var f := blocks[w[k]].forwardLink;
       if f == [] then k + 1 == |w| else k + 1 < |w| && w[k + 1] == f[|f| - 1].hash && w[k + 1] in blocks
  }

  lemma {:induction false} WalkSteps(blocks: Blocks, id: SkipBlockID)
    requires ForwardOrdered(blocks) && id in blocks && Walk(blocks, id).Some?
    ensures var w := Walk(blocks, id).value;
      forall k: nat {:trigger WalkStep(blocks, w, k)} :: k < |w| ==> WalkStep(blocks, w, k)
    decreases |Walk(blocks, id).value|
  {
    var f, w := blocks[id].forwardLink, Walk(blocks, id).value;
    if f != [] {
      var next := f[|f| - 1].hash;
      var rest := Walk(blocks, next).value;
      WalkSteps(blocks, next);
      forall k: nat | k < |w| ensures WalkStep(blocks, w, k) {
        if k > 0 { assert WalkStep(blocks, rest, k - 1); }
      }
    }
  }

  /** A link leads closer to the same tip. */
  lemma StaysBelowTip(s: State, id: SkipBlockID, l: nat)
    requires Inv(s) && id in s.blocks && l < |s.blocks[id].forwardLink|
    ensures var next := s.blocks[id].forwardLink[l].hash;
      && next in s.blocks && Tip(s, next) == Tip(s, id)
      && Later(s.blocks, s.blocks[next].fix.index) < Later(s.blocks, s.blocks[id].fix.index)
  {
    LinkTarget(s, id, l);
    var next := s.blocks[id].forwardLink[l].hash;
    assert next in Later(s.blocks, s.blocks[id].fix.index);
    assert next !in Later(s.blocks, s.blocks[next].fix.index);
  }

  /** The block reached from id by following level-0 links only. */
  function LevelZeroEnd(blocks: Blocks, id: SkipBlockID): Option<SkipBlockID>
    requires ForwardOrdered(blocks) && id in blocks
    decreases Later(blocks, blocks[id].fix.index)
  {
    var f := blocks[id].forwardLink;
    if f == [] then Some(id)
    else if f[0].hash !in blocks then None
    else
      var next := f[0].hash;
      assert next in Later(blocks, blocks[id].fix.index);
      assert next !in Later(blocks, blocks[next].fix.index);
      assert Later(blocks, blocks[next].fix.index) <= Later(blocks, blocks[id].fix.index);
      LevelZeroEnd(blocks, next)
  }

  lemma {:induction false} LevelZeroReachesTip(s: State, id: SkipBlockID)
    requires Inv(s) && id in s.blocks && ForwardOrdered(s.blocks)
    ensures LevelZeroEnd(s.blocks, id) == Some(Tip(s, id))
    decreases Later(s.blocks, s.blocks[id].fix.index)
  {
    StoredBlock(s, id);
    var f := s.blocks[id].forwardLink;
    if f != [] {
      LinkTarget(s, id, 0);
      var next := f[0].hash;
      assert next in Later(s.blocks, s.blocks[id].fix.index);
      assert next !in Later(s.blocks, s.blocks[next].fix.index);
      LevelZeroReachesTip(s, next);
    }
  }

  /** Under any schedule GetLatest and GetUpdateChain end at the tip, where a walk along level 0
      ends as well; no block is missing on the way. */
  lemma RunLatest(s: State, id: SkipBlockID)
    requires Reachable(s)
    requires id in s.blocks
    ensures ForwardOrdered(s.blocks)
    ensures Walk(s.blocks, id).Some?
    ensures var w := Walk(s.blocks, id).value;
            && w[|w| - 1] == Tip(s, id)
            && LevelZeroEnd(s.blocks, id) == Some(w[|w| - 1])
  {
    ReachableInv(s);
    InvForwardOrdered(s);
    WalkReachesTip(s, id);
    LevelZeroReachesTip(s, id);
  }

  // ----- VerifyLinks ---------------------------------------------------------------------------------

  /** Every block of every reachable store passes VerifyLinks. */
  lemma RunVerifyLinks(s: State, id: SkipBlockID)
    requires Reachable(s)
    requires id in s.blocks
    ensures LinksVerify(s.blocks, s.blocks[id]) == Some(true)
  {
    ReachableInv(s);
    StoredBlock(s, id);
    if s.blocks[id].fix.index == 0 {
      GenesisLinks(s, id);
    } else {
      BackLinkAnswered(s, id);
    }
  }

  /** The block that follows block id in its chain. */
  ghost function Successor(s: State, id: SkipBlockID): Option<SkipBlockID>
    requires Inv(s) && id in s.blocks
  {
    StoredBlock(s, id);
    var c, i := s.chains[SkipChainID(s.blocks[id])], s.blocks[id].fix.index;
    if i + 1 < |c| then Some(c[i + 1]) else None
  }

  lemma FirstLink(s: State, id: SkipBlockID)
    requires Inv(s) && id in s.blocks
    ensures var f := s.blocks[id].forwardLink;
      AllVerify(f, s.blocks[id].fix.roster) && Successor(s, id) == if f == [] then None else Some(f[0].hash)
  {
    StoredBlock(s, id);
  }

  /** A block that arrives from elsewhere, against any reachable store: if its predecessor is stored, it passes
      exactly if it is the successor that the chain has; if that is the tip, the check panics. */
  lemma VerifyLinksExactly(s: State, sb: Block)
    requires Reachable(s)
    ensures Inv(s) && LinksVerify(s.blocks, sb) ==
      var p := sb.fix.parentBlockID;
      if |sb.fix.backLinkIDs| == 0 || !AllVerify(sb.forwardLink, sb.fix.roster) then Some(false)
      else if p != Null && (p !in s.blocks || sb.hash !in s.blocks[p].childSL) then Some(false)
      else if sb.fix.index == 0 then Some(true)
      else if sb.fix.backLinkIDs[0] !in s.blocks then Some(sb.forwardLink != [])
      else
        match Successor(s, sb.fix.backLinkIDs[0])
        case None => None
        case Some(next) => Some(sb.hash == next)
  {
    ReachableInv(s);
    if sb.fix.parentBlockID in s.blocks { FirstLink(s, sb.fix.parentBlockID); }
    if |sb.fix.backLinkIDs| > 0 && sb.fix.backLinkIDs[0] in s.blocks { FirstLink(s, sb.fix.backLinkIDs[0]); }
  }

  lemma GenesisLinks(s: State, id: SkipBlockID)
    requires Inv(s) && id in s.blocks && s.blocks[id].fix.index == 0
    ensures var p := s.blocks[id].fix.parentBlockID;
      p != Null ==> p in s.blocks && id in s.blocks[p].childSL && AllVerify(s.blocks[p].forwardLink, s.blocks[p].fix.roster)
  {
    StoredBlock(s, id);
    assert ParentKnows(s.blocks, SkipChainID(s.blocks[id]));
    if s.blocks[id].fix.parentBlockID != Null {
      StoredBlock(s, s.blocks[id].fix.parentBlockID);
    }
  }

  /** The block that the first back-link names has a first forward link to the block. */
  lemma BackLinkAnswered(s: State, id: SkipBlockID)
    requires Inv(s) && id in s.blocks && s.blocks[id].fix.index > 0
    ensures s.blocks[id].fix.parentBlockID == Null && |s.blocks[id].fix.backLinkIDs| > 0
    ensures var b := s.blocks[id].fix.backLinkIDs[0];
      && b in s.blocks && AllVerify(s.blocks[b].forwardLink, s.blocks[b].fix.roster)
      && |s.blocks[b].forwardLink| > 0 && s.blocks[b].forwardLink[0].hash == id
  {
    StoredBlock(s, id);
    var g, i := SkipChainID(s.blocks[id]), s.blocks[id].fix.index;
    NotTheTip(s, g, i - 1);
    assert BlockOK(s.blocks[s.chains[g][i - 1]], s.chains[g], s.blocks[g].fix.baseHeight, s.blocks[g].fix.maximumHeight, i - 1);
  }

  // ----- Links are only ever added -----------------------------------------------------------------------

  ghost predicate LinksGrow(s: State, s': State)
  {
    forall x :: x in s.blocks ==>
      && x in s'.blocks && s'.blocks[x].fix == s.blocks[x].fix && s'.blocks[x].hash == s.blocks[x].hash
      && s.blocks[x].forwardLink <= s'.blocks[x].forwardLink && s.blocks[x].childSL <= s'.blocks[x].childSL
  }

  lemma CreateLinksGrow(s: State, genesis: SkipBlockFix, nonce: nat)
    requires Inv(s)
    ensures LinksGrow(s, CreateChain(s, genesis, nonce).0)
  {
    if CreateChain(s, genesis, nonce).1.Stored? {
      if CalculateHash(GenesisFix(genesis, nonce)) in s.blocks { GenesisKnown(s, genesis, nonce); }
      CreateChainGrows(s, genesis, nonce);
    }
  }

  lemma AppendedLinksGrow(s: State, s': State, latest: SkipBlockID, dst: Block)
    requires latest in s.blocks && s.blocks[latest].fix.roster.Roster? && |dst.fix.backLinkIDs| >= 1 && Appended(s, s', latest, dst)
    ensures LinksGrow(s, s')
  {
  }

  lemma AppendLinksGrow(s: State, self: nat, latest: SkipBlockID, prop: SkipBlockFix, signed: bool)
    requires Inv(s) && prop.roster.Roster?
    ensures LinksGrow(s, Append(s, self, latest, prop, signed).0)
  {
    if Append(s, self, latest, prop, signed).1.Stored? {
      AppendEffect(s, self, latest, prop, signed);
      AppendedLinksGrow(s, Append(s, self, latest, prop, signed).0, latest, Append(s, self, latest, prop, signed).1.latest);
    }
  }

  lemma StepLinksGrow(s: State, e: Event)
    requires Inv(s) && WellFormed(e)
    ensures LinksGrow(s, Step(s, e))
  {
    match e
    case Create(genesis, nonce) => CreateLinksGrow(s, genesis, nonce);
    case Add(self, latest, prop, signed) => AppendLinksGrow(s, self, latest, prop, signed);
    case Serve(k, completes) => if k < |s.sent| { ServeLinksGrow(s, k, completes); }
  }

  lemma ServeLinksGrow(s: State, k: nat, completes: bool)
    requires Inv(s) && k < |s.sent|
    ensures LinksGrow(s, Deliver(s, s.sent[k], completes))
  {
    if Deliver(s, s.sent[k], completes) != s {
      assert RequestOK(s, s.sent[k]);
      DeliverEffect(s, s.sent[k], completes);
    }
  }

  lemma {:induction false} RunLinksGrow(es: seq<Event>, n: nat)
    requires forall e :: e in es ==> WellFormed(e)
    requires n <= |es|
    ensures LinksGrow(Run(es[..n]), Run(es))
    decreases |es|
  {
    if n == |es| {
      assert es[..n] == es;
    } else {
      var front := es[..|es| - 1];
      RunLinksGrow(front, n);
      assert front[..n] == es[..n];
      StepLinksGrow(Run(front), es[|es| - 1]);
    }
  }

  // ----- Every block of a chain has the verifiers of its genesis block --------------------------------------

  ghost predicate Inherits(s: State, id: SkipBlockID)
    requires id in s.blocks
  {
    var g := SkipChainID(s.blocks[id]);
    g in s.blocks && s.blocks[id].fix.verifierIDs == s.blocks[g].fix.verifierIDs
  }

  ghost predicate AllInherit(s: State)
  {
    forall id {:trigger Inherits(s, id)} :: id in s.blocks ==> Inherits(s, id)
  }

  lemma InheritKept(s: State, s': State, id: SkipBlockID)
    requires AllInherit(s) && LinksGrow(s, s') && (forall x :: x in s'.blocks ==> x in s.blocks || x == id)
    requires id in s'.blocks && id !in s.blocks ==> Inherits(s', id)
    ensures AllInherit(s')
  {
    forall x | x in s'.blocks ensures Inherits(s', x) {
      if x in s.blocks { assert Inherits(s, x); }
    }
  }

  lemma CreateInherits(s: State, genesis: SkipBlockFix, nonce: nat)
    requires Inv(s) && AllInherit(s)
    ensures AllInherit(CreateChain(s, genesis, nonce).0)
  {
    CreateEffect(s, genesis, nonce);
    if CreateChain(s, genesis, nonce).1.Stored? {
      CreateLinksGrow(s, genesis, nonce);
      InheritKept(s, CreateChain(s, genesis, nonce).0, CreateChain(s, genesis, nonce).1.latest.hash);
    }
  }

  lemma AppendInherits(s: State, self: nat, latest: SkipBlockID, prop: SkipBlockFix, signed: bool)
    requires Inv(s) && AllInherit(s) && prop.roster.Roster?
    ensures AllInherit(Append(s, self, latest, prop, signed).0)
  {
    AppendStoredIff(s, self, latest, prop, signed);
    if Append(s, self, latest, prop, signed).1.Stored? {
      AppendEffect(s, self, latest, prop, signed);
      AppendLinksGrow(s, self, latest, prop, signed);
      assert Inherits(s, latest);
      InheritKept(s, Append(s, self, latest, prop, signed).0, Append(s, self, latest, prop, signed).1.latest.hash);
    }
  }

  lemma ServeInherits(s: State, k: nat, completes: bool)
    requires Inv(s) && AllInherit(s) && k < |s.sent|
    ensures AllInherit(Deliver(s, s.sent[k], completes))
  {
    ServeLinksGrow(s, k, completes);
    if Deliver(s, s.sent[k], completes) != s {
      assert RequestOK(s, s.sent[k]);
      DeliverEffect(s, s.sent[k], completes);
    }
    InheritKept(s, Deliver(s, s.sent[k], completes), Null);
  }

  lemma StepInherits(s: State, e: Event)
    requires Inv(s) && WellFormed(e) && AllInherit(s)
    ensures AllInherit(Step(s, e))
  {
    match e
    case Create(genesis, nonce) => CreateInherits(s, genesis, nonce);
    case Add(self, latest, prop, signed) => AppendInherits(s, self, latest, prop, signed);
    case Serve(k, completes) => if k < |s.sent| { ServeInherits(s, k, completes); }
  }

  lemma {:induction false} RunInherits(es: seq<Event>)
    requires forall e :: e in es ==> WellFormed(e)
    ensures AllInherit(Run(es))
    decreases |es|
  {
    if es != [] {
      RunInherits(es[..|es| - 1]);
      StepInherits(Run(es[..|es| - 1]), es[|es| - 1]);
    }
  }

  /** In every reachable state every block carries the verifiers of the genesis block of its chain. */
  lemma RunVerifiers(s: State, id: SkipBlockID)
    requires Reachable(s) && id in s.blocks
    ensures var g := SkipChainID(s.blocks[id]);
      g in s.blocks && s.blocks[g].fix.index == 0 && s.blocks[id].fix.verifierIDs == s.blocks[g].fix.verifierIDs
  {
    var es: seq<Event> :| (forall e :: e in es ==> WellFormed(e)) && Run(es) == s;
    RunInherits(es);
    assert Inherits(s, id);
    StoredBlock(s, id);
    ChainsDisjoint(s, SkipChainID(s.blocks[id]), 0, SkipChainID(s.blocks[id]));
  }

  // ----- Copies of blocks ---------------------------------------------------------------------------------

  /** copy is what the service held of block id at some moment of the run. */
  ghost predicate Snapshot(es: seq<Event>, id: SkipBlockID, copy: Block)
    requires forall e :: e in es ==> WellFormed(e)
  {
    exists t: nat :: t <= |es| && id in Run(es[..t]).blocks && copy == Run(es[..t]).blocks[id]
  }

  /** Of lists that are all prefixes of one, xs is one and the longest. */
  ghost predicate MostRecent<T>(xs: seq<T>, first: seq<T>, others: seq<seq<T>>, full: seq<T>)
  {
    && first <= xs <= full && (forall k :: 0 <= k < |others| ==> others[k] <= xs)
    && (xs == first || xs in others)
  }

  function LinksOfAll(copies: seq<Block>): (r: seq<seq<BlockLink>>)
    ensures |r| == |copies| && forall k :: 0 <= k < |r| ==> r[k] == copies[k].forwardLink
  {
    seq(|copies|, k requires 0 <= k < |copies| => copies[k].forwardLink)
  }

  function ChildrenOfAll(copies: seq<Block>): (r: seq<seq<SkipBlockID>>)
    ensures |r| == |copies| && forall k :: 0 <= k < |r| ==> r[k] == copies[k].childSL
  {
    seq(|copies|, k requires 0 <= k < |copies| => copies[k].childSL)
  }

  /** Copies of a block taken at any moments of a run can be stored elsewhere in any order and with
      repeats: the receiving store ends up with the most recent links, and children, among them. */
  lemma CopiesConverge(es: seq<Event>, id: SkipBlockID, replica: Blocks, copies: seq<Block>)
    requires forall e :: e in es ==> WellFormed(e)
    requires id in replica && Snapshot(es, id, replica[id])
    requires forall k :: 0 <= k < |copies| ==> Snapshot(es, id, copies[k])
    ensures id in Run(es).blocks && id in StoreAll(replica, copies)
    ensures var r, now := StoreAll(replica, copies)[id], Run(es).blocks[id];
            && MostRecent(r.forwardLink, replica[id].forwardLink, LinksOfAll(copies), now.forwardLink)
            && MostRecent(r.childSL, replica[id].childSL, ChildrenOfAll(copies), now.childSL)
  {
    SnapshotIsPrefix(es, id, replica[id]);
    var s := Run(es);
    StoredBlock(s, id);
    var full, roster, kids := s.blocks[id].forwardLink, s.blocks[id].fix.roster, s.blocks[id].childSL;
    forall c | c in copies ensures c.hash == id && CopyOf(c, id, full, roster) && ChildrenOf(c, id, kids) {
      SnapshotIsPrefix(es, id, c);
    }
    StoreConverges(replica, copies, id, full, roster);
    ChildrenConverge(replica, copies, id, full, roster, kids);
    LinksMostRecent(replica, copies, id, full);
    ChildrenMostRecent(replica, copies, id, kids);
  }

  lemma LinksMostRecent(replica: Blocks, copies: seq<Block>, id: SkipBlockID, full: seq<BlockLink>)
    requires id in replica && replica[id].forwardLink <= full && forall c :: c in copies ==> c.hash == id && c.forwardLink <= full
    requires LongestSeen(ForwardLen, replica, copies, id) <= |full|
    ensures MostRecent(full[..LongestSeen(ForwardLen, replica, copies, id)], replica[id].forwardLink, LinksOfAll(copies), full)
  {
    LongestIsSeen(ForwardLen, replica, copies, id);
    var n := LongestSeen(ForwardLen, replica, copies, id);
    if n != ForwardLen(replica[id]) {
      var k :| 0 <= k < |copies| && n == ForwardLen(copies[k]);
      assert LinksOfAll(copies)[k] == full[..n];
    }
  }

  lemma ChildrenMostRecent(replica: Blocks, copies: seq<Block>, id: SkipBlockID, kids: seq<SkipBlockID>)
    requires id in replica && replica[id].childSL <= kids && forall c :: c in copies ==> c.hash == id && c.childSL <= kids
    requires LongestSeen(ChildLen, replica, copies, id) <= |kids|
    ensures MostRecent(kids[..LongestSeen(ChildLen, replica, copies, id)], replica[id].childSL, ChildrenOfAll(copies), kids)
  {
    LongestIsSeen(ChildLen, replica, copies, id);
    var n := LongestSeen(ChildLen, replica, copies, id);
    if n != ChildLen(replica[id]) {
      var k :| 0 <= k < |copies| && n == ChildLen(copies[k]);
      assert ChildrenOfAll(copies)[k] == kids[..n];
    }
  }

  lemma SnapshotIsPrefix(es: seq<Event>, id: SkipBlockID, copy: Block)
    requires forall e :: e in es ==> WellFormed(e)
    requires Snapshot(es, id, copy)
    ensures id in Run(es).blocks && copy.hash == id && copy.fix == Run(es).blocks[id].fix
    ensures copy.forwardLink <= Run(es).blocks[id].forwardLink && copy.childSL <= Run(es).blocks[id].childSL
  {
    var t: nat :| t <= |es| && id in Run(es[..t]).blocks && copy == Run(es[..t]).blocks[id];
    RunLinksGrow(es, t);
    StoredBlock(Run(es[..t]), id);
  }

  lemma {:induction false} LongestIsSeen(size: Block -> nat, blocks: Blocks, copies: seq<Block>, id: SkipBlockID)
    requires id in blocks
    requires forall c :: c in copies ==> c.hash == id
    ensures forall k :: 0 <= k < |copies| ==> size(copies[k]) <= LongestSeen(size, blocks, copies, id)
    ensures size(blocks[id]) <= LongestSeen(size, blocks, copies, id)
    ensures LongestSeen(size, blocks, copies, id) == size(blocks[id])
            || exists k :: 0 <= k < |copies| && LongestSeen(size, blocks, copies, id) == size(copies[k])
    decreases |copies|
  {
    if copies != [] {
      var front, c := copies[..|copies| - 1], copies[|copies| - 1];
      LongestIsSeen(size, blocks, front, id);
      assert forall k :: 0 <= k < |front| ==> front[k] == copies[k];
      assert c in copies;
    }
  }
}
