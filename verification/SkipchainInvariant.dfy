/** Every operation of the skipchain service keeps its invariant. */
module SkipchainInvariant {
  import opened Options
  import opened Powers
  import opened SkipIndex
  import opened SkipBlocks
  import opened Skipchain

  // ----- The back-link search -----------------------------------------------------------------

  /** What the search relies on: level-0 links lead one block back, and heights are as specified. */
  ghost predicate Linked(blocks: Blocks, c: seq<SkipBlockID>, b: nat, m: nat)
    requires b >= 1 && m >= 1
  {
    && (forall k :: 0 <= k < |c| ==> c[k] in blocks && blocks[c[k]].fix.height == Height(b, m, k))
    && (forall k :: 0 < k < |c| ==> |blocks[c[k]].fix.backLinkIDs| >= 1 && blocks[c[k]].fix.backLinkIDs[0] == c[k - 1])
  }

  lemma ChainLinked(blocks: Blocks, g: SkipBlockID, c: seq<SkipBlockID>, b: int, m: int)
    requires ChainOK(blocks, g, c) && b == blocks[g].fix.baseHeight && m == blocks[g].fix.maximumHeight
    ensures Linked(blocks, c, b, m)
  {
    forall k | 0 <= k < |c| ensures blocks[c[k]].fix.height == Height(b, m, k) {
      assert BlockOK(blocks[c[k]], c, b, m, k);
    }
    forall k | 0 < k < |c|
      ensures |blocks[c[k]].fix.backLinkIDs| >= 1 && blocks[c[k]].fix.backLinkIDs[0] == c[k - 1]
    {
      assert BlockOK(blocks[c[k]], c, b, m, k);
      assert IsBack(blocks[c[k]].fix.backLinkIDs[0], c, b, k, 0);
    }
  }

  /** The search from block p stops at the nearest earlier block t that reaches level h. */
  lemma {:induction false} SearchBackStops(blocks: Blocks, c: seq<SkipBlockID>, p: nat, t: nat, h: nat)
    requires Keyed(blocks) && t <= p < |c|
    requires forall k :: t <= k <= p ==> c[k] in blocks
    requires forall k :: t < k <= p ==> |blocks[c[k]].fix.backLinkIDs| >= 1 && blocks[c[k]].fix.backLinkIDs[0] == c[k - 1]
    requires h < blocks[c[t]].fix.height
    requires forall k :: t < k <= p ==> blocks[c[k]].fix.height <= h
    ensures SearchBack(blocks, c[p], h) == Some(c[t])
    decreases p
  {
    if t < p {
      assert CalculateHash(blocks[c[p]].fix) == c[p];
      SearchBackStops(blocks, c, p - 1, t, h);
    }
  }

  /** The block the search pointer stands on before it looks for level h of block i. */
  function PointerIndex(b: nat, i: nat, h: nat): int
  {
    if h == 0 then i - 1 else i - Pow(b, h - 1)
  }

  lemma PointerBounds(b: nat, m: nat, i: nat, h: nat)
    requires b >= 1 && m >= 1 && i >= 1 && h < Height(b, m, i)
    ensures 0 <= i - Pow(b, h) <= PointerIndex(b, i, h) < i
  {
    NearestBelow(b, m, i, h, i);
    PowPositive(b, h);
    if h > 0 {
      PowMonotone(b, h - 1, h);
      PowPositive(b, h - 1);
    }
  }

  lemma SearchLevel(blocks: Blocks, c: seq<SkipBlockID>, b: nat, m: nat, i: nat, h: nat)
    requires Keyed(blocks) && b >= 1 && m >= 1 && Linked(blocks, c, b, m) && 1 <= i <= |c|
    requires h < Height(b, m, i)
    ensures 0 <= i - Pow(b, h) <= PointerIndex(b, i, h) < i
    ensures SearchBack(blocks, c[PointerIndex(b, i, h)], h) == Some(c[i - Pow(b, h)])
  {
    PointerBounds(b, m, i, h);
    var p, t := PointerIndex(b, i, h), i - Pow(b, h);
    NearestBelow(b, m, i, h, i);
    forall k | t < k <= p ensures blocks[c[k]].fix.height <= h {
      NearestBelow(b, m, i, h, k);
    }
    SearchBackStops(blocks, c, p, t, h);
  }

  /** back lists the blocks i - b^k for the levels k = h, ..., n - 1. */
  ghost predicate BackSpec(back: seq<SkipBlockID>, c: seq<SkipBlockID>, b: nat, i: nat, h: nat, n: nat)
    requires i <= |c| && h <= n
  {
    && |back| == n - h
    && forall k :: h <= k < n ==> 0 <= i - Pow(b, k) < i && back[k - h] == c[i - Pow(b, k)]
  }

  /** The back-links found for a new block i are the blocks i - b^h, one per level. */
  lemma {:induction false} BackLinksFound(blocks: Blocks, c: seq<SkipBlockID>, b: nat, m: nat, i: nat, h: nat, n: nat)
    requires Keyed(blocks) && b >= 1 && m >= 1 && Linked(blocks, c, b, m) && 1 <= i <= |c|
    requires h < n == Height(b, m, i)
    requires 0 <= PointerIndex(b, i, h) < |c|
    ensures BackLinks(blocks, c[PointerIndex(b, i, h)], h, n).Some?
    ensures BackSpec(BackLinks(blocks, c[PointerIndex(b, i, h)], h, n).value, c, b, i, h, n)
    decreases n - h
  {
    SearchLevel(blocks, c, b, m, i, h);
    var p := c[i - Pow(b, h)];
    if h + 1 < n {
      BackLinksFound(blocks, c, b, m, i, h + 1, n);
      var rest := BackLinks(blocks, p, h + 1, n).value;
      BackSpecCons(p, rest, c, b, i, h, n);
    } else {
      assert BackLinks(blocks, p, h + 1, n) == Some([]);
      assert [p] + [] == [p];
      assert BackLinks(blocks, c[PointerIndex(b, i, h)], h, n) == Some([p]);
    }
  }

  lemma BackSpecCons(p: SkipBlockID, rest: seq<SkipBlockID>, c: seq<SkipBlockID>, b: nat, i: nat, h: nat, n: nat)
    requires i <= |c| && h < n && BackSpec(rest, c, b, i, h + 1, n)
    requires 0 <= i - Pow(b, h) < i && p == c[i - Pow(b, h)]
    ensures BackSpec([p] + rest, c, b, i, h, n)
  {
  }

  // ----- Frames: growing a chain and changing other blocks keeps what is known ------------------

  lemma ForwardKept(fwd: seq<BlockLink>, roster: Roster, c: seq<SkipBlockID>, id: SkipBlockID, b: nat, m: nat, i: nat)
    requires b >= 1 && m >= 1 && i + 1 < |c|
    requires ForwardOK(fwd, roster, c, b, m, i)
    ensures ForwardOK(fwd, roster, c + [id], b, m, i)
  {
    forall l | 0 <= l < |fwd| ensures LevelLink(fwd[l].hash, c + [id], b, m, i, l) {
      assert LevelLink(fwd[l].hash, c, b, m, i, l);
      var e: nat :| l <= e < Height(b, m, i) && i + Pow(b, e) < |c| && fwd[l].hash == c[i + Pow(b, e)];
      assert (c + [id])[i + Pow(b, e)] == fwd[l].hash;
    }
  }

  lemma FixedKept(blk: Block, c: seq<SkipBlockID>, id: SkipBlockID, b: int, m: int, i: nat)
    requires 1 <= m <= b && i < |c| && FixedOK(blk, c, b, m, i)
    ensures FixedOK(blk, c + [id], b, m, i)
  {
    forall h | 0 <= h < blk.fix.height && i > 0 ensures IsBack(blk.fix.backLinkIDs[h], c + [id], b, i, h) {
      assert IsBack(blk.fix.backLinkIDs[h], c, b, i, h);
    }
  }

  /** The stores agree on every block of the chain. */
  lemma ChainFrame(blocks: Blocks, blocks': Blocks, g: SkipBlockID, c: seq<SkipBlockID>)
    requires ChainOK(blocks, g, c)
    requires forall i :: 0 <= i < |c| ==> c[i] in blocks' && blocks'[c[i]].fix == blocks[c[i]].fix
                                          && blocks'[c[i]].forwardLink == blocks[c[i]].forwardLink
    ensures ChainOK(blocks', g, c)
  {
    var b, m := blocks[g].fix.baseHeight, blocks[g].fix.maximumHeight;
    forall i | 0 <= i < |c|
      ensures BlockOK(blocks'[c[i]], c, b, m, i)
    {
      assert BlockOK(blocks[c[i]], c, b, m, i);
    }
  }

  /** Blocks keep their fixed part, children are only added, chains only grow at the end. */
  ghost predicate Grows(s: State, s': State)
  {
    && (forall x :: x in s.blocks ==>
          && x in s'.blocks && s'.blocks[x].fix == s.blocks[x].fix && s'.blocks[x].hash == s.blocks[x].hash
          && s.blocks[x].childSL <= s'.blocks[x].childSL)
    && (forall g :: g in s.chains ==> g in s'.chains && s.chains[g] <= s'.chains[g])
  }

  lemma PlacedKept(s: State, s': State, x: SkipBlockID)
    requires Grows(s, s') && x in s.blocks && Placed(s, x)
    ensures Placed(s', x)
  {
  }

  lemma ParentKept(s: State, s': State, g: SkipBlockID)
    requires Grows(s, s') && ParentKnows(s.blocks, g)
    ensures ParentKnows(s'.blocks, g)
  {
    var p := s.blocks[g].fix.parentBlockID;
    if p != Null {
      var k :| 0 <= k < |s.blocks[p].childSL| && s.blocks[p].childSL[k] == g;
      assert s'.blocks[p].childSL[k] == g;
    }
  }

  lemma RequestKept(s: State, s': State, fs: ForwardSignature)
    requires Grows(s, s') && RequestOK(s, fs)
    ensures RequestOK(s', fs)
  {
  }

  /** A block of one chain is not a block of another. */
  lemma ChainsDisjoint(s: State, g: SkipBlockID, i: nat, id: SkipBlockID)
    requires Inv(s) && g in s.chains && i < |s.chains[g]| && id == s.chains[g][i]
    ensures id in s.blocks && s.blocks[id].fix.index == i && SkipChainID(s.blocks[id]) == g && id.HashOf?
  {
    assert ChainOK(s.blocks, g, s.chains[g]);
    assert BlockOK(s.blocks[id], s.chains[g], s.blocks[g].fix.baseHeight, s.blocks[g].fix.maximumHeight, i);
    assert CalculateHash(s.blocks[id].fix) == id;
  }

  // ----- Creating a chain ------------------------------------------------------------------------

  lemma GenesisChain(blocks: Blocks, prop: SkipBlockFix, nonce: nat)
    requires VerifyBlock(GenesisFix(prop, nonce))
    requires CalculateHash(GenesisFix(prop, nonce)) in blocks
    requires blocks[CalculateHash(GenesisFix(prop, nonce))].fix == GenesisFix(prop, nonce)
    requires blocks[CalculateHash(GenesisFix(prop, nonce))].forwardLink == []
    ensures ChainOK(blocks, CalculateHash(GenesisFix(prop, nonce)), [CalculateHash(GenesisFix(prop, nonce))])
  {
    var fix := GenesisFix(prop, nonce);
    var id := CalculateHash(fix);
    GenesisHeight(fix.baseHeight, fix.maximumHeight);
    assert BlockOK(blocks[id], [id], fix.baseHeight, fix.maximumHeight, 0);
  }

  /** A stored block with the hash of a genesis block is a genesis block. */
  lemma GenesisKnown(s: State, prop: SkipBlockFix, nonce: nat)
    requires Inv(s) && CalculateHash(GenesisFix(prop, nonce)) in s.blocks
    ensures CalculateHash(GenesisFix(prop, nonce)) in s.chains
  {
    var id := CalculateHash(GenesisFix(prop, nonce));
    StoredBlock(s, id);
  }

  lemma CreateChainGrows(s: State, prop: SkipBlockFix, nonce: nat)
    requires Keyed(s.blocks) && CreateChain(s, prop, nonce).1.Stored?
    requires CalculateHash(GenesisFix(prop, nonce)) in s.blocks ==> CalculateHash(GenesisFix(prop, nonce)) in s.chains
    ensures var s', id := CreateChain(s, prop, nonce).0, CalculateHash(GenesisFix(prop, nonce));
            && Grows(s, s')
            && Keyed(s'.blocks)
            && (forall x :: x in s.blocks ==> s'.blocks[x].forwardLink == s.blocks[x].forwardLink)
            && (forall x :: x in s'.blocks ==> x in s.blocks || x == id)
            && (forall g :: g in s'.chains ==> g in s.chains || g == id)
            && (forall g :: g in s.chains ==> s'.chains[g] == s.chains[g])
            && id in s'.blocks && id in s'.chains
            && ParentKnows(s'.blocks, id)
            && (id !in s.chains ==>
                  s'.chains[id] == [id] && s'.blocks[id] == Block(GenesisFix(prop, nonce), id, [], []))
  {
    GenesisStored(s.blocks, GenesisFix(prop, nonce), CalculateHash(GenesisFix(prop, nonce)));
    GenesisAnnounced(s.blocks, GenesisFix(prop, nonce), CalculateHash(GenesisFix(prop, nonce)));
  }

  /** The store after a genesis block has been announced to its parent and stored. */
  function WithGenesis(blocks: Blocks, fix: SkipBlockFix, id: SkipBlockID): Blocks
    requires fix.parentBlockID == Null || fix.parentBlockID in blocks
  {
    var parent := fix.parentBlockID;
    StoreBlock(if parent == Null then blocks else blocks[parent := AddChild(blocks[parent], id)], Block(fix, id, [], []))
  }

  /** Announcing a child and merging a copy without links changes no stored link and no fixed part. */
  ghost predicate SameFixAndLinks(blocks: Blocks, after: Blocks, x: SkipBlockID)
    requires x in blocks
  {
    && x in after && after[x].fix == blocks[x].fix && after[x].hash == blocks[x].hash
    && blocks[x].childSL <= after[x].childSL && after[x].forwardLink == blocks[x].forwardLink
  }

  lemma GenesisMerged(blocks: Blocks, fix: SkipBlockFix, id: SkipBlockID, x: SkipBlockID)
    requires (fix.parentBlockID == Null || fix.parentBlockID in blocks) && x in blocks
    ensures SameFixAndLinks(blocks, WithGenesis(blocks, fix, id), x)
  {
    var parent := fix.parentBlockID;
    var known := if parent == Null then blocks else blocks[parent := AddChild(blocks[parent], id)];
    if id in known {
      assert Merge(known[id], Block(fix, id, [], [])) == known[id];
    }
  }

  lemma GenesisStored(blocks: Blocks, fix: SkipBlockFix, id: SkipBlockID)
    requires Keyed(blocks) && id == CalculateHash(fix) && (fix.parentBlockID == Null || fix.parentBlockID in blocks)
    ensures var after := WithGenesis(blocks, fix, id);
            && Keyed(after) && id in after && after[id].fix.parentBlockID == fix.parentBlockID
            && (forall x :: x in blocks ==> SameFixAndLinks(blocks, after, x))
            && (forall x :: x in after ==> x in blocks || x == id)
            && (id !in blocks ==> after[id] == Block(fix, id, [], []))
  {
    var after := WithGenesis(blocks, fix, id);
    forall x | x in blocks ensures SameFixAndLinks(blocks, after, x) {
      GenesisMerged(blocks, fix, id, x);
    }
    if id in blocks {
      assert SameFixAndLinks(blocks, after, id) && CalculateHash(blocks[id].fix) == id;
    }
  }

  lemma GenesisAnnounced(blocks: Blocks, fix: SkipBlockFix, id: SkipBlockID)
    requires Keyed(blocks) && id == CalculateHash(fix) && (fix.parentBlockID == Null || fix.parentBlockID in blocks)
    ensures ParentKnows(WithGenesis(blocks, fix, id), id)
  {
    GenesisStored(blocks, fix, id);
    var parent := fix.parentBlockID;
    if parent != Null {
      var known := blocks[parent := AddChild(blocks[parent], id)];
      assert known[parent].childSL[|known[parent].childSL| - 1] == id;
      assert parent != id;
    }
  }

  /** A chain is created exactly for a sensible base and height, a roster and a parent that is nil or known;
      the genesis block carries what the proposal says and fixed values in the other fields. */
  lemma CreateEffect(s: State, prop: SkipBlockFix, nonce: nat)
    ensures CreateChain(s, prop, nonce).1.Stored? <==>
      && 1 <= prop.maximumHeight <= prop.baseHeight && prop.roster.Roster?
      && (prop.parentBlockID == Null || prop.parentBlockID in s.blocks)
    ensures CreateChain(s, prop, nonce).1.Failed? ==> CreateChain(s, prop, nonce) == (s, Failed(ParameterWrong))
    ensures CreateChain(s, prop, nonce).1.Stored? ==>
      var s', b := CreateChain(s, prop, nonce).0, CreateChain(s, prop, nonce).1.latest;
      && b.fix == SkipBlockFix(0, prop.maximumHeight, prop.maximumHeight, prop.baseHeight, [RandomBytes(nonce)], prop.verifierIDs,
                               prop.parentBlockID, Null, prop.data, prop.roster)
      && b.hash == CalculateHash(b.fix) && b.forwardLink == [] && b.childSL == []
      && s'.sent == s.sent && b.hash in s'.blocks && (b.hash !in s.blocks ==> s'.blocks[b.hash] == b)
      && (forall x :: x in s.blocks ==> x in s'.blocks)
      && (forall x :: x in s.blocks && (x == Null || x != prop.parentBlockID) ==> s'.blocks[x] == s.blocks[x])
      && (prop.parentBlockID != Null ==>
            s'.blocks[prop.parentBlockID] == s.blocks[prop.parentBlockID].(childSL := s.blocks[prop.parentBlockID].childSL + [b.hash]))
      && forall x :: x in s'.blocks ==> x in s.blocks || x == b.hash
  {
    var fix := GenesisFix(prop, nonce);
    var id := CalculateHash(fix);
    if CreateChain(s, prop, nonce).1.Stored? && id in s.blocks {
      assert Merge(s.blocks[id], Block(fix, id, [], [])) == s.blocks[id];
    }
  }

  lemma CreateChainKeepsInv(s: State, prop: SkipBlockFix, nonce: nat)
    requires Inv(s)
    ensures Inv(CreateChain(s, prop, nonce).0)
  {
    if CreateChain(s, prop, nonce).1.Stored? {
      var s' := CreateChain(s, prop, nonce).0;
      var id := CalculateHash(GenesisFix(prop, nonce));
      if id in s.blocks { GenesisKnown(s, prop, nonce); }
      if id in s.chains { assert ChainOK(s.blocks, id, s.chains[id]); }
      CreateChainGrows(s, prop, nonce);
      NewChainChains(s, s', prop, nonce);
      NewChainRest(s, s', id);
    }
  }

  lemma NewChainChains(s: State, s': State, prop: SkipBlockFix, nonce: nat)
    requires ChainsOK(s) && VerifyBlock(GenesisFix(prop, nonce))
    requires forall x :: x in s.blocks ==> x in s'.blocks && s'.blocks[x].fix == s.blocks[x].fix
                                           && s'.blocks[x].forwardLink == s.blocks[x].forwardLink
    requires forall g :: g in s.chains ==> g in s'.chains && s'.chains[g] == s.chains[g]
    requires forall g :: g in s'.chains ==> g in s.chains || g == CalculateHash(GenesisFix(prop, nonce))
    requires var id := CalculateHash(GenesisFix(prop, nonce));
             id in s'.blocks && id in s'.chains
             && (id !in s.chains ==> s'.chains[id] == [id] && s'.blocks[id] == Block(GenesisFix(prop, nonce), id, [], []))
    ensures ChainsOK(s')
  {
    forall g | g in s'.chains ensures ChainOK(s'.blocks, g, s'.chains[g]) {
      if g in s.chains {
        assert ChainOK(s.blocks, g, s.chains[g]);
        ChainFrame(s.blocks, s'.blocks, g, s.chains[g]);
      } else {
        GenesisChain(s'.blocks, prop, nonce);
      }
    }
  }

  /** Requests stay good when blocks and chains only grow. */
  lemma RequestsStay(s: State, s': State)
    requires RequestsOK(s) && Grows(s, s') && s'.sent == s.sent
    ensures RequestsOK(s')
  {
    forall k | 0 <= k < |s'.sent| ensures RequestOK(s', s'.sent[k]) {
      assert RequestOK(s, s.sent[k]);
      RequestKept(s, s', s.sent[k]);
    }
  }

  lemma PlacesStay(s: State, s': State, id: SkipBlockID)
    requires AllPlaced(s) && Grows(s, s') && (id in s'.blocks && id !in s.blocks ==> Placed(s', id))
    requires forall x :: x in s'.blocks ==> x in s.blocks || x == id
    ensures AllPlaced(s')
  {
    forall x | x in s'.blocks ensures Placed(s', x) {
      if x in s.blocks {
        assert Placed(s, x);
        PlacedKept(s, s', x);
      }
    }
  }

  lemma ParentsStay(s: State, s': State, id: SkipBlockID)
    requires ParentsOK(s) && Grows(s, s') && (id in s'.chains && id !in s.chains ==> ParentKnows(s'.blocks, id))
    requires forall g :: g in s'.chains ==> g in s.chains || g == id
    ensures ParentsOK(s')
  {
    forall g | g in s'.chains ensures ParentKnows(s'.blocks, g) {
      if g in s.chains {
        assert ParentKnows(s.blocks, g);
        ParentKept(s, s', g);
      }
    }
  }

  lemma NewChainRest(s: State, s': State, id: SkipBlockID)
    requires AllPlaced(s) && ParentsOK(s) && RequestsOK(s) && Grows(s, s') && s'.sent == s.sent
    requires forall x :: x in s'.blocks ==> x in s.blocks || x == id
    requires forall g :: g in s'.chains ==> g in s.chains || g == id
    requires id in s'.blocks && id in s'.chains && ParentKnows(s'.blocks, id)
    requires id !in s.blocks ==> Placed(s', id)
    ensures AllPlaced(s') && ParentsOK(s') && RequestsOK(s')
  {
    PlacesStay(s, s', id);
    ParentsStay(s, s', id);
    RequestsStay(s, s');
  }

  // ----- Appending a block -----------------------------------------------------------------------

  /** The back-link search of an append never fails, and finds i - b^h on every level h. */
  lemma AppendBackLinks(s: State, latest: SkipBlockID)
    requires Inv(s) && latest in s.blocks
    ensures var prev := s.blocks[latest];
            && 1 <= prev.fix.maximumHeight <= prev.fix.baseHeight && prev.fix.index >= 0
            && SkipChainID(prev) in s.chains && prev.fix.index < |s.chains[SkipChainID(prev)]|
    ensures var prev := s.blocks[latest];
            var b, m, i, c := prev.fix.baseHeight, prev.fix.maximumHeight, prev.fix.index + 1, s.chains[SkipChainID(prev)];
            && BackLinks(s.blocks, latest, 0, Height(b, m, i)).Some?
            && BackSpec(BackLinks(s.blocks, latest, 0, Height(b, m, i)).value, c, b, i, 0, Height(b, m, i))
  {
    StoredBlock(s, latest);
    var prev := s.blocks[latest];
    var g := SkipChainID(prev);
    var b, m, i, c := prev.fix.baseHeight, prev.fix.maximumHeight, prev.fix.index + 1, s.chains[g];
    ChainLinked(s.blocks, g, c, b, m);
    BackLinksFound(s.blocks, c, b, m, i, 0, Height(b, m, i));
  }

  lemma NotTheTip(s: State, g: SkipBlockID, i: nat)
    requires Inv(s) && g in s.chains && i + 1 < |s.chains[g]|
    ensures s.chains[g][i] in s.blocks && |s.blocks[s.chains[g][i]].forwardLink| >= 1
    ensures s.chains[g][i + 1] in s.blocks
    ensures |s.blocks[s.chains[g][i + 1]].fix.backLinkIDs| >= 1
    ensures s.blocks[s.chains[g][i + 1]].fix.backLinkIDs[0] == s.chains[g][i]
  {
    var c := s.chains[g];
    assert ChainOK(s.blocks, g, c);
    var b, m := s.blocks[g].fix.baseHeight, s.blocks[g].fix.maximumHeight;
    assert BlockOK(s.blocks[c[i]], c, b, m, i);
    assert BlockOK(s.blocks[c[i + 1]], c, b, m, i + 1);
    assert IsBack(s.blocks[c[i + 1]].fix.backLinkIDs[0], c, b, i + 1, 0);
  }

  /** A block whose previous block has no forward link yet is not stored. */
  lemma NewHashIsFresh(s: State, latest: SkipBlockID, fix: SkipBlockFix)
    requires Inv(s) && latest in s.blocks && s.blocks[latest].forwardLink == []
    requires |fix.backLinkIDs| >= 1 && fix.backLinkIDs[0] == latest
    ensures CalculateHash(fix) !in s.blocks
  {
    var id := CalculateHash(fix);
    if id in s.blocks {
      StoredBlock(s, id);
      StoredBlock(s, latest);
      var g, i := SkipChainID(s.blocks[id]), s.blocks[id].fix.index;
      if i > 0 {
        NotTheTip(s, g, i - 1);
      }
    }
  }

  /** The link that the previous tip adds when dst is appended. */
  function TipLink(s: State, latest: SkipBlockID, dst: Block): BlockLink
    requires latest in s.blocks && s.blocks[latest].fix.roster.Roster?
  {
    BlockLink(dst.hash, CoSi(s.blocks[latest].fix.roster.list, dst.hash))
  }

  /** The effect of an append that succeeds. */
  ghost predicate Appended(s: State, s': State, latest: SkipBlockID, dst: Block)
    requires latest in s.blocks && s.blocks[latest].fix.roster.Roster?
    requires |dst.fix.backLinkIDs| >= 1
  {
    var prev := s.blocks[latest];
    var g := SkipChainID(prev);
    && dst.hash !in s.blocks && dst.hash == CalculateHash(dst.fix)
    && dst.forwardLink == [] && dst.childSL == []
    && prev.forwardLink == [] && |prev.fix.roster.list| >= 2
    && s'.blocks == s.blocks[latest := prev.(forwardLink := [TipLink(s, latest, dst)])][dst.hash := dst]
    && s'.sent == s.sent + Requests(dst, latest, TipLink(s, latest, dst))
    && g in s.chains && s'.chains == s.chains[g := s.chains[g] + [dst.hash]]
  }

  /** dst is the next block of chain c. */
  ghost predicate NextBlock(dst: Block, prev: Block, c: seq<SkipBlockID>)
    requires 1 <= prev.fix.maximumHeight <= prev.fix.baseHeight
  {
    var b, m, i := prev.fix.baseHeight, prev.fix.maximumHeight, |c|;
    && dst.fix.index == i && dst.fix.baseHeight == b && dst.fix.maximumHeight == m
    && dst.fix.height == Height(b, m, i)
    && dst.fix.genesisID == SkipChainID(prev)
    && dst.fix.parentBlockID == Null
    && BackSpec(dst.fix.backLinkIDs, c, b, i, 0, Height(b, m, i))
  }

  lemma AppendEffect(s: State, self: nat, latest: SkipBlockID, prop: SkipBlockFix, completes: bool)
    requires Inv(s) && prop.roster.Roster?
    requires Append(s, self, latest, prop, completes).1.Stored?
    ensures latest in s.blocks && s.blocks[latest].fix.roster.Roster?
    ensures var s', dst := Append(s, self, latest, prop, completes).0, Append(s, self, latest, prop, completes).1.latest;
            var prev := s.blocks[latest];
            && 1 <= prev.fix.maximumHeight <= prev.fix.baseHeight
            && SkipChainID(prev) in s.chains && |dst.fix.backLinkIDs| >= 1
            && dst.fix.data == prop.data && dst.fix.roster == prop.roster && dst.fix.verifierIDs == prev.fix.verifierIDs
            && prev.fix.index + 1 == |s.chains[SkipChainID(prev)]|
            && Appended(s, s', latest, dst)
            && NextBlock(dst, prev, s.chains[SkipChainID(prev)])
  {
    StoredBlock(s, latest);
    AppendBackLinks(s, latest);
    var prev := s.blocks[latest];
    var b, m, i, c := prev.fix.baseHeight, prev.fix.maximumHeight, prev.fix.index + 1, s.chains[SkipChainID(prev)];
    var height := Height(b, m, i);
    var back := BackLinks(s.blocks, latest, 0, height).value;
    var fix := AppendFix(prop, prev, height, back);
    assert back[0] == latest;
    NewHashIsFresh(s, latest, fix);
    assert [] + [TipLink(s, latest, Block(fix, CalculateHash(fix), [], []))] == [TipLink(s, latest, Block(fix, CalculateHash(fix), [], []))];
  }

  lemma {:induction false} LevelOfFirst(back: seq<SkipBlockID>, id: SkipBlockID, from: nat, l: nat)
    requires from <= |back|
    ensures LevelOf(back, id, from) == Some(l) <==>
      from <= l < |back| && back[l] == id && forall k :: from <= k < l ==> back[k] != id
    decreases |back| - from
  {
    if from < |back| { LevelOfFirst(back, id, from + 1, l); }
  }

  /** The conodes accept a new block for src exactly if the first back-link to src is on the lowest level
      on which src has no forward link yet. */
  lemma NewBlockAccepted(blocks: Blocks, src: SkipBlockID, dst: Block)
    ensures BftVerifyNewBlock(blocks, src, dst) <==>
      && src in blocks
      && var l, back := |blocks[src].forwardLink|, dst.fix.backLinkIDs;
         l < |back| && back[l] == src && forall k :: 0 <= k < l ==> back[k] != src
  {
    if src in blocks { LevelOfFirst(dst.fix.backLinkIDs, src, 0, |blocks[src].forwardLink|); }
  }

  /** In every state that keeps the invariant an append succeeds exactly if it follows a known block that has
      no successor, one of whose two or more conodes runs it, and the signing round completes. The search
      for back-links never fails, and a failure changes nothing. */
  lemma AppendStoredIff(s: State, self: nat, latest: SkipBlockID, prop: SkipBlockFix, completes: bool)
    requires Inv(s)
    ensures var (s', r) := Append(s, self, latest, prop, completes);
      && (r.Stored? <==>
            && latest in s.blocks && s.blocks[latest].forwardLink == [] && completes
            && s.blocks[latest].fix.roster.Roster?
            && self in s.blocks[latest].fix.roster.list && |s.blocks[latest].fix.roster.list| >= 2)
      && (r.Failed? ==> s' == s && r.error == if latest in s.blocks then BlockContent else BlockNotFound)
  {
    if latest in s.blocks {
      StoredBlock(s, latest);
      AppendBackLinks(s, latest);
      var prev := s.blocks[latest];
      var height := Height(prev.fix.baseHeight, prev.fix.maximumHeight, prev.fix.index + 1);
      var back := BackLinks(s.blocks, latest, 0, height).value;
      assert back[0] == latest;
      var fix := AppendFix(prop, prev, height, back);
      NewBlockAccepted(s.blocks, latest, Block(fix, CalculateHash(fix), [], []));
    }
  }

  lemma NewBlockOK(s: State, s': State, latest: SkipBlockID, dst: Block)
    requires latest in s.blocks && s.blocks[latest].fix.roster.Roster? && |dst.fix.backLinkIDs| >= 1
    requires Appended(s, s', latest, dst) && dst.fix.roster.Roster?
    requires var prev := s.blocks[latest];
             && 1 <= prev.fix.maximumHeight <= prev.fix.baseHeight
             && |s.chains[SkipChainID(prev)]| >= 1
             && s.chains[SkipChainID(prev)][0] == SkipChainID(prev)
             && NextBlock(dst, prev, s.chains[SkipChainID(prev)])
    ensures var prev := s.blocks[latest];
            var c := s.chains[SkipChainID(prev)];
            BlockOK(dst, c + [dst.hash], prev.fix.baseHeight, prev.fix.maximumHeight, |c|)
  {
    var prev := s.blocks[latest];
    var c := s.chains[SkipChainID(prev)];
    var c', b, i := c + [dst.hash], prev.fix.baseHeight, |c|;
    forall h | 0 <= h < dst.fix.height ensures IsBack(dst.fix.backLinkIDs[h], c', b, i, h) {
      assert c'[i - Pow(b, h)] == c[i - Pow(b, h)];
    }
  }

  lemma OldTipOK(s: State, s': State, latest: SkipBlockID, dst: Block, c: seq<SkipBlockID>, b: int, m: int)
    requires latest in s.blocks && s.blocks[latest].fix.roster.Roster? && |dst.fix.backLinkIDs| >= 1
    requires Appended(s, s', latest, dst)
    requires 1 <= m <= b && |c| >= 1
    requires BlockOK(s.blocks[latest], c, b, m, |c| - 1)
    ensures latest in s'.blocks && BlockOK(s'.blocks[latest], c + [dst.hash], b, m, |c| - 1)
  {
    var i := |c| - 1;
    FixedKept(s.blocks[latest], c, dst.hash, b, m, i);
    var fwd := [TipLink(s, latest, dst)];
    assert LevelLink(fwd[0].hash, c + [dst.hash], b, m, i, 0) by {
      assert Pow(b, 0) == 1;
      assert (c + [dst.hash])[i + Pow(b, 0)] == fwd[0].hash;
    }
  }

  lemma GrownChainOK(s: State, s': State, latest: SkipBlockID, dst: Block)
    requires latest in s.blocks && s.blocks[latest].fix.roster.Roster? && |dst.fix.backLinkIDs| >= 1
    requires Appended(s, s', latest, dst) && dst.fix.roster.Roster?
    requires var prev := s.blocks[latest];
             var g := SkipChainID(prev);
             && ChainOK(s.blocks, g, s.chains[g])
             && s.blocks[g].fix.baseHeight == prev.fix.baseHeight && s.blocks[g].fix.maximumHeight == prev.fix.maximumHeight
             && prev.fix.index + 1 == |s.chains[g]| && s.chains[g][prev.fix.index] == latest
             && NextBlock(dst, prev, s.chains[g])
             && forall k :: 0 <= k < prev.fix.index ==> s.chains[g][k] != latest
    ensures var g := SkipChainID(s.blocks[latest]); ChainOK(s'.blocks, g, s'.chains[g])
  {
    var prev := s.blocks[latest];
    var g := SkipChainID(prev);
    var c, c' := s.chains[g], s'.chains[g];
    var b, m := prev.fix.baseHeight, prev.fix.maximumHeight;
    assert forall k :: 0 <= k < |c| ==> c[k] in s.blocks;
    forall k | 0 <= k < |c'| ensures BlockOK(s'.blocks[c'[k]], c', b, m, k) {
      if k == |c| {
        NewBlockOK(s, s', latest, dst);
      } else {
        assert BlockOK(s.blocks[c[k]], c, b, m, k);
        if k == |c| - 1 {
          OldTipOK(s, s', latest, dst, c, b, m);
        } else {
          FixedKept(s.blocks[c[k]], c, dst.hash, b, m, k);
          ForwardKept(s.blocks[c[k]].forwardLink, s.blocks[c[k]].fix.roster, c, dst.hash, b, m, k);
        }
      }
    }
  }

  lemma AppendKeepsInv(s: State, self: nat, latest: SkipBlockID, prop: SkipBlockFix, completes: bool)
    requires Inv(s) && prop.roster.Roster?
    ensures Inv(Append(s, self, latest, prop, completes).0)
    ensures Grows(s, Append(s, self, latest, prop, completes).0)
  {
    if Append(s, self, latest, prop, completes).1.Stored? {
      var s' := Append(s, self, latest, prop, completes).0;
      var dst := Append(s, self, latest, prop, completes).1.latest;
      AppendEffect(s, self, latest, prop, completes);
      AppendedKeepsInv(s, s', latest, dst);
    }
  }

  lemma AppendedKeepsInv(s: State, s': State, latest: SkipBlockID, dst: Block)
    requires Inv(s) && latest in s.blocks && s.blocks[latest].fix.roster.Roster? && |dst.fix.backLinkIDs| >= 1
    requires Appended(s, s', latest, dst) && dst.fix.roster.Roster?
    requires var prev := s.blocks[latest];
             && 1 <= prev.fix.maximumHeight <= prev.fix.baseHeight
             && prev.fix.index + 1 == |s.chains[SkipChainID(prev)]|
             && NextBlock(dst, prev, s.chains[SkipChainID(prev)])
    ensures Inv(s') && Grows(s, s')
  {
    StoredBlock(s, latest);
    AppendGrows(s, s', latest, dst);
    AppendKeyed(s, s', latest, dst);
    AppendChains(s, s', latest, dst);
    AppendRest(s, s', latest, dst);
    AppendRequests(s, s', latest, dst);
  }

  lemma AppendGrows(s: State, s': State, latest: SkipBlockID, dst: Block)
    requires latest in s.blocks && s.blocks[latest].fix.roster.Roster? && |dst.fix.backLinkIDs| >= 1
    requires Appended(s, s', latest, dst)
    ensures Grows(s, s')
  {
  }

  lemma AppendKeyed(s: State, s': State, latest: SkipBlockID, dst: Block)
    requires latest in s.blocks && s.blocks[latest].fix.roster.Roster? && |dst.fix.backLinkIDs| >= 1
    requires Appended(s, s', latest, dst) && Keyed(s.blocks)
    ensures Keyed(s'.blocks)
  {
  }

  lemma AppendChains(s: State, s': State, latest: SkipBlockID, dst: Block)
    requires Inv(s)
    requires latest in s.blocks && s.blocks[latest].fix.roster.Roster? && |dst.fix.backLinkIDs| >= 1
    requires Appended(s, s', latest, dst) && dst.fix.roster.Roster?
    requires var prev := s.blocks[latest];
             && 1 <= prev.fix.maximumHeight <= prev.fix.baseHeight
             && prev.fix.index + 1 == |s.chains[SkipChainID(prev)]|
             && NextBlock(dst, prev, s.chains[SkipChainID(prev)])
    ensures ChainsOK(s')
  {
    StoredBlock(s, latest);
    var g0 := SkipChainID(s.blocks[latest]);
    forall k | 0 <= k < s.blocks[latest].fix.index ensures s.chains[g0][k] != latest {
      ChainsDisjoint(s, g0, k, s.chains[g0][k]);
    }
    forall g | g in s'.chains ensures ChainOK(s'.blocks, g, s'.chains[g]) {
      if g == g0 {
        GrownChainOK(s, s', latest, dst);
      } else {
        assert ChainOK(s.blocks, g, s.chains[g]);
        forall k | 0 <= k < |s.chains[g]| ensures s.chains[g][k] != latest {
          ChainsDisjoint(s, g, k, s.chains[g][k]);
        }
        ChainFrame(s.blocks, s'.blocks, g, s.chains[g]);
      }
    }
  }

  lemma AppendRest(s: State, s': State, latest: SkipBlockID, dst: Block)
    requires AllPlaced(s) && ParentsOK(s) && Grows(s, s')
    requires latest in s.blocks && s.blocks[latest].fix.roster.Roster? && |dst.fix.backLinkIDs| >= 1
    requires Appended(s, s', latest, dst)
    requires dst.fix.genesisID == SkipChainID(s.blocks[latest])
    requires 0 < dst.fix.index == |s.chains[SkipChainID(s.blocks[latest])]|
    ensures AllPlaced(s') && ParentsOK(s')
  {
    PlacesStay(s, s', dst.hash);
    ParentsStay(s, s', dst.hash);
  }

  lemma AppendRequests(s: State, s': State, latest: SkipBlockID, dst: Block)
    requires RequestsOK(s) && Grows(s, s')
    requires latest in s.blocks && s.blocks[latest].fix.roster.Roster? && |dst.fix.backLinkIDs| >= 1
    requires Appended(s, s', latest, dst)
    requires dst.fix.genesisID == SkipChainID(s.blocks[latest])
    requires 0 < dst.fix.index == |s.chains[SkipChainID(s.blocks[latest])]|
    requires s.blocks[latest].fix.index + 1 == dst.fix.index
    requires s.chains[SkipChainID(s.blocks[latest])][dst.fix.index - 1] == latest
    ensures RequestsOK(s')
  {
    forall k | 0 <= k < |s'.sent| ensures RequestOK(s', s'.sent[k]) {
      if k < |s.sent| {
        assert RequestOK(s, s.sent[k]);
        RequestKept(s, s', s.sent[k]);
      } else {
        assert s'.sent[k] == ForwardSignature(k - |s.sent| + 1, latest, dst, TipLink(s, latest, dst));
      }
    }
  }

  // ----- Serving a forward-signature request -------------------------------------------------------

  /** The index of the block a request asks to extend. */
  function TargetIndex(fs: ForwardSignature): int
    requires fs.newest.fix.baseHeight >= 0
  {
    fs.newest.fix.index - Pow(fs.newest.fix.baseHeight, fs.targetHeight)
  }

  /** A sent request targets the block b^h before its newest block, and h is a level of both. */
  lemma RequestTarget(s: State, fs: ForwardSignature)
    requires Inv(s) && RequestOK(s, fs)
    ensures 1 <= fs.newest.fix.maximumHeight <= fs.newest.fix.baseHeight
    ensures var g, b, m, t := SkipChainID(fs.newest), fs.newest.fix.baseHeight, fs.newest.fix.maximumHeight, TargetIndex(fs);
            && 0 <= t < fs.newest.fix.index
            && fs.newest.fix.backLinkIDs[fs.targetHeight] == s.chains[g][t]
            && s.chains[g][t] in s.blocks
            && g in s.blocks && s.blocks[g].fix.baseHeight == b && s.blocks[g].fix.maximumHeight == m
            && BlockOK(s.blocks[s.chains[g][t]], s.chains[g], b, m, t)
            && fs.targetHeight < Height(b, m, t)
  {
    var g, i := SkipChainID(fs.newest), fs.newest.fix.index;
    var c := s.chains[g];
    ChainsDisjoint(s, g, i, c[i]);
    StoredBlock(s, c[i]);
    var b, m := fs.newest.fix.baseHeight, fs.newest.fix.maximumHeight;
    assert IsBack(fs.newest.fix.backLinkIDs[fs.targetHeight], c, b, i, fs.targetHeight);
    NearestBelow(b, m, i, fs.targetHeight, i);
    PowPositive(b, fs.targetHeight);
    var t := TargetIndex(fs);
    assert ChainOK(s.blocks, g, c);
    assert BlockOK(s.blocks[c[t]], c, b, m, t);
  }

  /** Whoever sent a request, and whatever it says: if it changes the store, then it carries a link to its
      newest block that the roster of its previous block signed, its target is of the same chain and had room,
      and all that changes is that the target's roster signs that same link. */
  lemma DeliverAnything(s: State, fs: ForwardSignature, completes: bool)
    ensures Deliver(s, fs, completes) != s <==>
      && completes && fs.previous in s.blocks && s.blocks[fs.previous].fix.roster.Roster?
      && fs.forwardLink == BlockLink(fs.newest.hash, CoSi(s.blocks[fs.previous].fix.roster.list, fs.newest.hash))
      && fs.targetHeight < |fs.newest.fix.backLinkIDs|
      && var target := fs.newest.fix.backLinkIDs[fs.targetHeight];
         && target in s.blocks && SkipChainID(s.blocks[target]) == SkipChainID(fs.newest)
         && |s.blocks[target].forwardLink| <= fs.targetHeight
         && s.blocks[target].fix.roster.Roster? && |s.blocks[target].fix.roster.list| >= 2
    ensures Deliver(s, fs, completes) != s ==>
      var target := fs.newest.fix.backLinkIDs[fs.targetHeight];
      var link := BlockLink(fs.newest.hash, CoSi(s.blocks[target].fix.roster.list, fs.newest.hash));
      Deliver(s, fs, completes) == s.(blocks := s.blocks[target := Extended(s.blocks[target], link)])
  {
    if fs.targetHeight < |fs.newest.fix.backLinkIDs| && fs.newest.fix.backLinkIDs[fs.targetHeight] in s.blocks {
      var target := fs.newest.fix.backLinkIDs[fs.targetHeight];
      var links := Deliver(s, fs, completes).blocks[target].forwardLink;
      assert links == s.blocks[target].forwardLink || |links| == |s.blocks[target].forwardLink| + 1;
    }
  }

  /** The block a request extends, after it was extended. */
  function Extended(blk: Block, link: BlockLink): Block
  {
    blk.(forwardLink := blk.forwardLink + [link])
  }

  lemma ExtendedOK(blk: Block, link: BlockLink, c: seq<SkipBlockID>, b: int, m: int, t: nat, h: nat)
    requires 1 <= m <= b && t + 1 < |c| && BlockOK(blk, c, b, m, t)
    requires |blk.forwardLink| <= h < Height(b, m, t)
    requires t + Pow(b, h) < |c| && link.hash == c[t + Pow(b, h)] && VerifySignature(link, blk.fix.roster)
    ensures BlockOK(Extended(blk, link), c, b, m, t)
  {
    var fwd := blk.forwardLink + [link];
    forall l | 0 <= l < |fwd| ensures LevelLink(fwd[l].hash, c, b, m, t, l) {
      if l < |blk.forwardLink| {
        assert LevelLink(blk.forwardLink[l].hash, c, b, m, t, l);
      }
    }
    assert FixedOK(Extended(blk, link), c, b, m, t);
  }

  /** The effect of a request that is served. */
  lemma DeliverEffect(s: State, fs: ForwardSignature, completes: bool)
    requires Inv(s) && RequestOK(s, fs) && Deliver(s, fs, completes) != s
    ensures fs.newest.fix.baseHeight >= 1
    ensures var g, t := SkipChainID(fs.newest), TargetIndex(fs);
            && 0 <= t < |s.chains[g]| && s.chains[g][t] in s.blocks
            && var target := s.chains[g][t];
               && s.blocks[target].fix.roster.Roster?
               && |s.blocks[target].forwardLink| <= fs.targetHeight
               && Deliver(s, fs, completes) == s.(blocks := s.blocks[target :=
                    Extended(s.blocks[target], BlockLink(fs.newest.hash, CoSi(s.blocks[target].fix.roster.list, fs.newest.hash)))])
  {
    RequestTarget(s, fs);
  }

  lemma DeliverKeepsInv(s: State, fs: ForwardSignature, completes: bool)
    requires Inv(s) && RequestOK(s, fs)
    ensures Inv(Deliver(s, fs, completes))
    ensures Grows(s, Deliver(s, fs, completes))
  {
    var s' := Deliver(s, fs, completes);
    if s' != s {
      DeliverEffect(s, fs, completes);
      DeliverChains(s, fs, completes);
      DeliverRest(s, s');
    }
  }

  lemma DeliverChains(s: State, fs: ForwardSignature, completes: bool)
    requires Inv(s) && RequestOK(s, fs) && Deliver(s, fs, completes) != s
    ensures ChainsOK(Deliver(s, fs, completes))
  {
    var s' := Deliver(s, fs, completes);
    RequestTarget(s, fs);
    DeliverEffect(s, fs, completes);
    var g0, t := SkipChainID(fs.newest), TargetIndex(fs);
    var target := s.chains[g0][t];
    forall g | g in s'.chains ensures ChainOK(s'.blocks, g, s'.chains[g]) {
      assert ChainOK(s.blocks, g, s.chains[g]);
      if g == g0 {
        DeliverSameChain(s, fs, completes);
      } else {
        forall k | 0 <= k < |s.chains[g]| ensures s.chains[g][k] != target {
          ChainsDisjoint(s, g, k, s.chains[g][k]);
          ChainsDisjoint(s, g0, t, target);
        }
        ChainFrame(s.blocks, s'.blocks, g, s.chains[g]);
      }
    }
  }

  /** A chain one of whose blocks gained the link of one of its levels. */
  lemma ExtendedChain(s: State, s': State, g: SkipBlockID, t: nat, h: nat, link: BlockLink)
    requires Inv(s) && g in s.chains && t + 1 < |s.chains[g]| && ChainOK(s.blocks, g, s.chains[g])
    requires var c, b, m := s.chains[g], s.blocks[g].fix.baseHeight, s.blocks[g].fix.maximumHeight;
             && s'.blocks == s.blocks[c[t] := Extended(s.blocks[c[t]], link)]
             && |s.blocks[c[t]].forwardLink| <= h < Height(b, m, t) && t + Pow(b, h) < |c|
             && link.hash == c[t + Pow(b, h)] && VerifySignature(link, s.blocks[c[t]].fix.roster)
    ensures ChainOK(s'.blocks, g, s.chains[g])
  {
    var c, b, m := s.chains[g], s.blocks[g].fix.baseHeight, s.blocks[g].fix.maximumHeight;
    assert BlockOK(s.blocks[c[t]], c, b, m, t);
    ExtendedOK(s.blocks[c[t]], link, c, b, m, t, h);
    forall k | 0 <= k < |c| && k != t ensures c[k] != c[t] {
      ChainsDisjoint(s, g, k, c[k]);
      ChainsDisjoint(s, g, t, c[t]);
    }
    OneExtended(s.blocks, s'.blocks, g, c, t, link);
  }

  lemma OneExtended(blocks: Blocks, blocks': Blocks, g: SkipBlockID, c: seq<SkipBlockID>, t: nat, link: BlockLink)
    requires ChainOK(blocks, g, c) && t < |c| && (forall k :: 0 <= k < |c| && k != t ==> c[k] != c[t])
    requires blocks' == blocks[c[t] := Extended(blocks[c[t]], link)]
    requires BlockOK(blocks'[c[t]], c, blocks[g].fix.baseHeight, blocks[g].fix.maximumHeight, t)
    ensures ChainOK(blocks', g, c)
  {
    var b, m := blocks[g].fix.baseHeight, blocks[g].fix.maximumHeight;
    forall k | 0 <= k < |c| ensures BlockOK(blocks'[c[k]], c, b, m, k) {
      assert BlockOK(blocks[c[k]], c, b, m, k);
    }
  }

  lemma DeliverSameChain(s: State, fs: ForwardSignature, completes: bool)
    requires Inv(s) && RequestOK(s, fs) && Deliver(s, fs, completes) != s
    ensures ChainOK(Deliver(s, fs, completes).blocks, SkipChainID(fs.newest), s.chains[SkipChainID(fs.newest)])
  {
    RequestTarget(s, fs);
    DeliverEffect(s, fs, completes);
    var g, t := SkipChainID(fs.newest), TargetIndex(fs);
    assert ChainOK(s.blocks, g, s.chains[g]);
    PowPositive(fs.newest.fix.baseHeight, fs.targetHeight);
    ExtendedChain(s, Deliver(s, fs, completes), g, t, fs.targetHeight,
                  BlockLink(fs.newest.hash, CoSi(s.blocks[s.chains[g][t]].fix.roster.list, fs.newest.hash)));
  }

  lemma DeliverRest(s: State, s': State)
    requires AllPlaced(s) && ParentsOK(s) && RequestsOK(s) && Grows(s, s')
    requires s'.sent == s.sent && s'.chains == s.chains && s'.blocks.Keys == s.blocks.Keys
    ensures AllPlaced(s') && ParentsOK(s') && RequestsOK(s')
  {
    forall x | x in s'.blocks ensures x in s.blocks { assert x in s'.blocks.Keys; }
    PlacesStay(s, s', Null);
    ParentsStay(s, s', Null);
    RequestsStay(s, s');
  }
}
