/** The service object: the mutable store and the loops of StoreSkipBlock, forwardSignature and
    GetUpdateChain, each proved against the operations of module Skipchain. */
module SkipchainService {
  import opened Options
  import opened Powers
  import opened SkipIndex
  import opened SkipBlocks
  import opened Skipchain
  import opened SkipchainInvariant
  import opened SkipchainRuns

  lemma {:induction false} PowOfOne(e: nat)
    ensures Pow(1, e) == 1
  {
    if e > 0 { PowOfOne(e - 1); }
  }

  lemma HeightBaseOne(m: nat, i: nat)
    requires m >= 1
    ensures Height(1, m, i) == m
  {
    PowOfOne(m - 1);
    HeightLevels(1, m, i, m - 1);
  }

  lemma DivideStep(b: nat, index: nat)
    requires b >= 1 && index >= 1 && index % b == 0
    ensures index / b >= 1
  {
    assert index == (index / b) * b;
  }

  /** The height loop of StoreSkipBlock. */
  method ComputeHeight(b: nat, m: nat, i: nat) returns (height: nat)
    requires b >= 1 && m >= 1 && i >= 1
    ensures height == Height(b, m, i)
  {
    var index := i;
    height := 1;
    if b == 1 { HeightBaseOne(m, i); } else { HeightIsMultiplicity(b, m, i); }
    while index % b == 0
      invariant 1 <= height <= m && index >= 1
      invariant b >= 2 ==> Multiplicity(b, i) == height - 1 + Multiplicity(b, index)
      decreases m - height
    {
      DivideStep(b, index);
      index := index / b;
      if height >= m {
        break;
      }
      height := height + 1;
    }
  }

  class Service {
    const self: nat
    const sbm: SkipBlockMap
    var outbox: seq<ForwardSignature>
    ghost var chains: map<SkipBlockID, seq<SkipBlockID>>

    constructor (self: nat)
      ensures Valid() && fresh(sbm) && Abstract() == State(map[], [], map[])
    {
      this.self := self;
      sbm := new SkipBlockMap();
      outbox := [];
      chains := map[];
    }

    ghost function Repr(): set<object>
      reads this, sbm
    {
      {this, sbm} + sbm.skipBlocks.Values
    }

    ghost predicate Valid()
      reads this, sbm, sbm.skipBlocks.Values
    {
      sbm.Valid() && Inv(Abstract())
    }

    ghost function Abstract(): State
      reads this, sbm, sbm.skipBlocks.Values
    {
      State(sbm.View(), outbox, chains)
    }

    /** The back-link search: one pointer walks back, level by level. */
    method FindBackLinks(ghost blocks: Blocks, prev: SkipBlock, height: nat) returns (r: Option<seq<SkipBlockID>>)
      requires sbm.Valid() && blocks == sbm.View() && Keyed(blocks) && Backed(blocks)
      requires prev.hash in sbm.skipBlocks && sbm.skipBlocks[prev.hash] == prev
      ensures r == BackLinks(blocks, prev.hash, 0, height)
    {
      var back: seq<SkipBlockID> := [];
      var pointer := prev;
      ghost var goal := BackLinks(blocks, prev.hash, 0, height);
      PrefixedNil(goal);
      for h := 0 to height
        invariant pointer.hash in sbm.skipBlocks && sbm.skipBlocks[pointer.hash] == pointer && pointer.hash in blocks
        invariant goal == Prefixed(back, BackLinks(blocks, pointer.hash, h, height))
      {
        BackLinksStep(blocks, pointer.hash, h, height, back);
        var found := SearchLevelBack(blocks, pointer, h);
        if found.None? {
          return None;
        }
        pointer := found.value;
        back := back + [pointer.hash];
      }
      PrefixedEnd(back);
      return Some(back);
    }

    /** The inner loop: the nearest block, from the given one back, that reaches level h. */
    method SearchLevelBack(ghost blocks: Blocks, from: SkipBlock, h: nat) returns (r: Option<SkipBlock>)
      requires sbm.Valid() && blocks == sbm.View() && Keyed(blocks) && Backed(blocks)
      requires from.hash in sbm.skipBlocks && sbm.skipBlocks[from.hash] == from
      ensures r.None? <==> SearchBack(blocks, from.hash, h).None?
      ensures r.Some? ==>
        SearchBack(blocks, from.hash, h) == Some(r.value.hash) && r.value.hash in sbm.skipBlocks && sbm.skipBlocks[r.value.hash] == r.value
    {
      var pointer := from;
      while pointer.fix.height < h + 1
        invariant pointer.hash in sbm.skipBlocks && sbm.skipBlocks[pointer.hash] == pointer && pointer.hash in blocks
        invariant SearchBack(blocks, from.hash, h) == SearchBack(blocks, pointer.hash, h)
        decreases pointer.hash
      {
        assert blocks[pointer.hash] == pointer.Value() && HasBack(blocks, pointer.hash);
        assert CalculateHash(blocks[pointer.hash].fix) == pointer.hash;
        if pointer.fix.backLinkIDs[0] !in sbm.skipBlocks {
          return None;
        }
        pointer := sbm.skipBlocks[pointer.fix.backLinkIDs[0]];
      }
      assert blocks[pointer.hash] == pointer.Value();
      return Some(pointer);
    }

    /** addForwardLink(src, dst, 1). */
    method AddForwardLinkTo(src: SkipBlock, dst: SkipBlock, completes: bool) returns (ok: bool)
      requires sbm.Valid() && src.fix.roster.Roster? && AllVerify(src.forwardLink, src.fix.roster)
      requires src.hash in sbm.skipBlocks && sbm.skipBlocks[src.hash] == src
      requires dst !in sbm.skipBlocks.Values
      modifies src`forwardLink
      ensures sbm.Valid() && sbm.View() == old(sbm.View())[src.hash := src.Value()]
      ensures ok <==> AddForwardLink(old(sbm.View()), src.hash, dst.Value(), completes).Some?
      ensures src.Value() == if ok then AddForwardLink(old(sbm.View()), src.hash, dst.Value(), completes).value else old(src.Value())
    {
      ghost var blocks := sbm.View();
      assert blocks[src.hash] == src.Value();
      if 1 <= |src.forwardLink| {
        return false;
      }
      // every conode looks for the first back-link to src and wants that level to be free
      var level := 0;
      while level < |dst.fix.backLinkIDs| && dst.fix.backLinkIDs[level] != src.hash
        invariant 0 <= level <= |dst.fix.backLinkIDs|
        invariant LevelOf(dst.fix.backLinkIDs, src.hash, 0) == LevelOf(dst.fix.backLinkIDs, src.hash, level)
      {
        level := level + 1;
      }
      var free := level < |dst.fix.backLinkIDs| && |src.forwardLink| == level;
      match StartBFT(src.fix.roster, dst.hash, free, completes)
      case None =>
        return false;
      case Some(sig) =>
        src.AddForward(BlockLink(dst.hash, sig));
        var good := src.VerifyForwardSignatures();
        return good;
    }

    /** forwardSignature: serve one request, whoever sent it. The invariant is promised for the requests
        that an append of this store can have sent. */
    method ForwardSign(fs: ForwardSignature, completes: bool)
      requires Valid()
      modifies Repr()
      ensures sbm.Valid() && Abstract() == Deliver(old(Abstract()), fs, completes)
      ensures RequestOK(old(Abstract()), fs) ==> Valid()
    {
      if RequestOK(Abstract(), fs) { DeliverKeepsInv(Abstract(), fs, completes); }
      SignTarget(fs, completes);
    }

    /** Every request in the outbox is one of these. */
    lemma OutboxOK(fs: ForwardSignature)
      requires Valid() && fs in outbox
      ensures RequestOK(Abstract(), fs)
    {
      var k :| 0 <= k < |outbox| && outbox[k] == fs;
      assert RequestOK(Abstract(), Abstract().sent[k]);
    }

    method SignTarget(fs: ForwardSignature, completes: bool)
      requires sbm.Valid()
      modifies Repr()
      ensures sbm.Valid()
      ensures Abstract() == Deliver(old(Abstract()), fs, completes)
    {
      ghost var before := Abstract();
      if fs.targetHeight >= |fs.newest.fix.backLinkIDs| || fs.newest.fix.backLinkIDs[fs.targetHeight] !in sbm.skipBlocks {
        return;
      }
      var target := fs.newest.fix.backLinkIDs[fs.targetHeight];
      assert before.blocks[target] == sbm.skipBlocks[target].Value();
      var verified := VerifyFollow(fs);
      match StartBFT(sbm.skipBlocks[target].fix.roster, fs.forwardLink.hash, verified, completes) {
        case None =>
        case Some(sig) =>
          sbm.AddForwardTo(target, BlockLink(fs.forwardLink.hash, sig));
      }
    }

    /** bftVerifyFollowBlock, the conodes' check of such a request. */
    method VerifyFollow(fs: ForwardSignature) returns (ok: bool)
      requires sbm.Valid()
      ensures ok <==> BftVerifyFollowBlock(sbm.View(), fs)
    {
      ghost var blocks := sbm.View();
      if fs.previous !in sbm.skipBlocks {
        return false;
      }
      if |fs.newest.fix.backLinkIDs| <= fs.targetHeight {
        return false;
      }
      if !VerifySignature(fs.forwardLink, sbm.skipBlocks[fs.previous].fix.roster) {
        return false;
      }
      if fs.forwardLink.hash != fs.newest.hash {
        return false;
      }
      if fs.newest.fix.backLinkIDs[fs.targetHeight] !in sbm.skipBlocks {
        return false;
      }
      var target := sbm.skipBlocks[fs.newest.fix.backLinkIDs[fs.targetHeight]];
      if |target.forwardLink| >= fs.targetHeight + 1 {
        return false;
      }
      return SkipChainID(target.Value()) == SkipChainID(fs.newest);
    }

    /** GetUpdateChain: the blocks met when the highest link is always followed, up to the tip. */
    method GetUpdateChain(latestID: SkipBlockID) returns (update: Option<seq<SkipBlock>>)
      requires Valid()
      ensures ForwardOrdered(sbm.View())
      ensures update.None? <==> latestID !in sbm.skipBlocks
      ensures update.Some? ==>
                && Walk(sbm.View(), latestID).Some?
                && |update.value| == |Walk(sbm.View(), latestID).value|
                && forall k :: 0 <= k < |update.value| ==>
                     Walk(sbm.View(), latestID).value[k] in sbm.skipBlocks
                     && update.value[k] == sbm.skipBlocks[Walk(sbm.View(), latestID).value[k]]
    {
      ghost var s, blocks := Abstract(), sbm.View();
      InvForwardOrdered(s);
      if latestID !in sbm.skipBlocks {
        return None;
      }
      WalkReachesTip(s, latestID);
      ghost var w := Walk(blocks, latestID).value;
      WalkSteps(blocks, latestID);
      var block := sbm.skipBlocks[latestID];
      var list := [block];
      while |block.forwardLink| > 0
        invariant block.hash in sbm.skipBlocks && sbm.skipBlocks[block.hash] == block
        invariant 1 <= |list| <= |w| && list[|list| - 1] == block
        invariant forall k :: 0 <= k < |list| ==> w[k] in sbm.skipBlocks && list[k] == sbm.skipBlocks[w[k]]
        invariant block.hash == w[|list| - 1]
        decreases |w| - |list|
      {
        assert WalkStep(blocks, w, |list| - 1) && blocks[block.hash] == block.Value();
        var link := block.forwardLink[|block.forwardLink| - 1];
        block := sbm.skipBlocks[link.hash];
        list := list + [block];
      }
      assert WalkStep(blocks, w, |list| - 1) && blocks[block.hash] == block.Value();
      return Some(list);
    }

    /** StoreSkipBlock: a new chain if latestID is nil, else a new block after latestID. */
    method StoreSkipBlock(latestID: SkipBlockID, prop: SkipBlock, nonce: nat, completes: bool) returns (reply: Reply)
      requires Valid() && prop !in sbm.skipBlocks.Values && prop.childSL == []
      requires latestID != Null ==> prop.forwardLink == [] && prop.fix.roster.Roster?
      modifies Repr(), prop
      ensures Valid()
      ensures latestID == Null ==> (Abstract(), reply) == CreateChain(old(Abstract()), old(prop.fix), nonce)
      ensures latestID != Null ==> (Abstract(), reply) == Append(old(Abstract()), self, latestID, old(prop.fix), completes)
    {
      if latestID == Null {
        CreateChainKeepsInv(Abstract(), prop.fix, nonce);
        reply := StoreGenesis(prop, nonce);
      } else {
        AppendKeepsInv(Abstract(), self, latestID, prop.fix, completes);
        reply := StoreNext(latestID, prop, completes);
      }
    }

    method StoreGenesis(prop: SkipBlock, nonce: nat) returns (reply: Reply)
      requires sbm.Valid() && prop !in sbm.skipBlocks.Values
      requires prop.childSL == []
      modifies Repr(), prop
      ensures sbm.Valid()
      ensures (Abstract(), reply) == CreateChain(old(Abstract()), old(prop.fix), nonce)
    {
      ghost var before, proposed := Abstract(), prop.fix;
      reply := PrepareGenesis(prop, nonce);
      if reply.Stored? {
        RecordGenesis(prop);
      }
      assert Abstract() == CreateChain(before, proposed, nonce).0;
    }

    method RecordGenesis(prop: SkipBlock)
      requires sbm.Valid() && prop !in sbm.skipBlocks.Values
      modifies Repr()
      ensures sbm.Valid() && outbox == old(outbox)
      ensures sbm.View() == StoreBlock(old(sbm.View()), prop.Value())
      ensures chains == if prop.hash in old(chains) then old(chains) else old(chains)[prop.hash := [prop.hash]]
    {
      StoreNew(prop);
      chains := if prop.hash in chains then chains else chains[prop.hash := [prop.hash]];
    }

    /** Fill in the fields of a genesis block and tell its parent. */
    method PrepareGenesis(prop: SkipBlock, nonce: nat) returns (reply: Reply)
      requires sbm.Valid() && prop !in sbm.skipBlocks.Values
      requires prop.childSL == []
      modifies sbm.skipBlocks.Values
      modifies prop
      ensures sbm.Valid() && sbm.skipBlocks == old(sbm.skipBlocks)
      ensures var fix := GenesisFix(old(prop.fix), nonce);
              && prop.Value() == Block(fix, CalculateHash(fix), [], [])
              && (reply.Stored? <==> VerifyBlock(fix) && (fix.parentBlockID == Null || fix.parentBlockID in sbm.skipBlocks))
              && (reply.Stored? ==> reply.latest == prop.Value())
              && (reply.Failed? ==> reply.error == ParameterWrong)
              && sbm.View() == if reply.Failed? || fix.parentBlockID == Null then old(sbm.View())
                               else old(sbm.View())[fix.parentBlockID := AddChild(old(sbm.View())[fix.parentBlockID], prop.hash)]
    {
      prop.fix := prop.fix.(index := 0, height := prop.fix.maximumHeight);
      prop.forwardLink := [];
      prop.fix := prop.fix.(backLinkIDs := [RandomBytes(nonce)], genesisID := Null);
      prop.UpdateHash();
      assert sbm.View() == old(sbm.View());
      if !VerifyBlock(prop.fix) {
        return Failed(ParameterWrong);
      }
      if prop.fix.parentBlockID != Null {
        if prop.fix.parentBlockID !in sbm.skipBlocks {
          return Failed(ParameterWrong);
        }
        sbm.RecordChild(prop.fix.parentBlockID, prop.hash);
      }
      return Stored(prop.Value());
    }

    /** Fill in the fields of a block that is to follow prev. */
    method PrepareNext(ghost blocks: Blocks, prev: SkipBlock, prop: SkipBlock) returns (found: bool)
      requires sbm.Valid() && blocks == sbm.View() && Keyed(blocks) && Backed(blocks)
      requires prop !in sbm.skipBlocks.Values && prop.forwardLink == [] && prop.childSL == []
      requires prev.hash in sbm.skipBlocks && sbm.skipBlocks[prev.hash] == prev
      requires 1 <= prev.fix.maximumHeight <= prev.fix.baseHeight && prev.fix.index >= 0
      modifies prop
      ensures found <==> Searched(blocks, prev.Value()).Some?
      ensures found ==> prop.Value() == Following(old(prop.fix), prev.Value(), Searched(blocks, prev.Value()).value)
    {
      var height := ComputeHeight(prev.fix.baseHeight, prev.fix.maximumHeight, prev.fix.index + 1);
      var back := FindBackLinks(blocks, prev, height);
      if back.None? {
        return false;
      }
      SetFields(prev, prop, height, back.value);
      return true;
    }

    method SetFields(prev: SkipBlock, prop: SkipBlock, height: nat, back: seq<SkipBlockID>)
      requires prop != prev && prop.forwardLink == [] && prop.childSL == []
      modifies prop
      ensures var fix := AppendFix(old(prop.fix), prev.Value(), height, back);
              prop.Value() == Block(fix, CalculateHash(fix), [], [])
    {
      prop.fix := prop.fix.(maximumHeight := prev.fix.maximumHeight, baseHeight := prev.fix.baseHeight,
                            parentBlockID := Null, verifierIDs := prev.fix.verifierIDs,
                            index := prev.fix.index + 1, genesisID := SkipChainID(prev.Value()),
                            height := height, backLinkIDs := back);
      prop.UpdateHash();
    }

    /** Ask the block of every higher back-link for a forward link. */
    method SendRequests(block: Block, prev: SkipBlockID, link: BlockLink)
      requires |block.fix.backLinkIDs| >= 1
      modifies this`outbox
      ensures outbox == old(outbox) + Requests(block, prev, link)
    {
      ghost var sent, all := outbox, Requests(block, prev, link);
      for h := 1 to |block.fix.backLinkIDs|
        invariant outbox == sent + all[..h - 1]
      {
        outbox := outbox + [ForwardSignature(h, prev, block, link)];
        assert all[..h] == all[..h - 1] + [all[h - 1]];
      }
      assert all[..|all|] == all;
    }

    method StoreNext(latestID: SkipBlockID, prop: SkipBlock, completes: bool) returns (reply: Reply)
      requires Valid() && prop !in sbm.skipBlocks.Values
      requires prop.forwardLink == [] && prop.childSL == [] && prop.fix.roster.Roster?
      modifies Repr(), prop
      ensures sbm.Valid()
      ensures (Abstract(), reply) == Append(old(Abstract()), self, latestID, old(prop.fix), completes)
    {
      if latestID !in sbm.skipBlocks {
        return Failed(BlockNotFound);
      }
      var prev := sbm.skipBlocks[latestID];
      StoredBlock(Abstract(), latestID);
      if self !in prev.fix.roster.list {
        return Failed(BlockContent);
      }
      AppendFollows(Abstract(), self, latestID, prop.fix, completes);
      reply := Follow(Abstract(), prev, prop, completes);
    }

    /** Prepare the block and link prev to it. */
    method Follow(ghost before: State, prev: SkipBlock, prop: SkipBlock, completes: bool) returns (reply: Reply)
      requires before == Abstract() && sbm.Valid() && prop !in sbm.skipBlocks.Values
      requires prop.forwardLink == [] && prop.childSL == []
      requires prev.hash in sbm.skipBlocks && sbm.skipBlocks[prev.hash] == prev && CanFollow(before, prev.hash)
      modifies Repr(), prop
      ensures sbm.Valid()
      ensures (Abstract(), reply) == Followed(before, old(prev.hash), old(prop.fix), completes)
    {
      var found := PrepareNext(before.blocks, prev, prop);
      assert sbm.View() == before.blocks;
      if !found {
        return Failed(BlockNotFound);
      }
      reply := Link(before, prev, prop, completes);
    }

    /** Sign the link from prev to the prepared block and store the block. */
    method Link(ghost before: State, prev: SkipBlock, prop: SkipBlock, completes: bool) returns (reply: Reply)
      requires before == Abstract() && sbm.Valid() && prop !in sbm.skipBlocks.Values
      requires prev.hash in sbm.skipBlocks && sbm.skipBlocks[prev.hash] == prev
      requires prev.fix.roster.Roster? && AllVerify(prev.forwardLink, prev.fix.roster)
      requires SkipChainID(prev.Value()) in chains
      modifies Repr(), prop
      ensures sbm.Valid() && prop.Value() == old(prop.Value())
      ensures (Abstract(), reply) == LinkBlock(before, old(prev.hash), old(prop.Value()), completes)
    {
      assert before.blocks[prev.hash] == prev.Value();
      var ok := AddForwardLinkTo(prev, prop, completes);
      if !ok {
        return Failed(BlockContent);
      }
      reply := Stored(prop.Value());
      Record(SkipChainID(prev.Value()), prev.hash, prev.forwardLink[0], prop);
    }

    /** Store the linked block and ask for the links on its higher levels. */
    method Record(ghost g: SkipBlockID, prev: SkipBlockID, link: BlockLink, prop: SkipBlock)
      requires sbm.Valid() && g in chains && prop !in sbm.skipBlocks.Values
      modifies Repr()
      ensures sbm.Valid()
      ensures sbm.View() == StoreBlock(old(sbm.View()), prop.Value())
      ensures outbox == old(outbox) + if |prop.fix.backLinkIDs| >= 1 then Requests(prop.Value(), prev, link) else []
      ensures chains == old(chains)[g := old(chains)[g] + [prop.hash]]
    {
      ghost var view := sbm.View();
      AskOlder(prop.Value(), prev, link);
      chains := chains[g := chains[g] + [prop.hash]];
      assert sbm.View() == view;
      StoreNew(prop);
    }

    method AskOlder(block: Block, prev: SkipBlockID, link: BlockLink)
      modifies this`outbox
      ensures outbox == old(outbox) + if |block.fix.backLinkIDs| >= 1 then Requests(block, prev, link) else []
    {
      if |block.fix.backLinkIDs| >= 1 {
        SendRequests(block, prev, link);
      } else {
        assert outbox + [] == outbox;
      }
    }

    method StoreNew(prop: SkipBlock)
      requires sbm.Valid() && prop !in sbm.skipBlocks.Values
      modifies sbm, sbm.skipBlocks.Values
      ensures sbm.Valid() && sbm.View() == StoreBlock(old(sbm.View()), prop.Value()) && prop.Value() == old(prop.Value())
    {
      var _ := sbm.Store(prop);
    }
  }

  /** What appending asks of the block to append to. */
  ghost predicate CanFollow(s: State, latest: SkipBlockID)
  {
    && Keyed(s.blocks) && Backed(s.blocks) && latest in s.blocks
    && var prev := s.blocks[latest];
       && 1 <= prev.fix.maximumHeight <= prev.fix.baseHeight && prev.fix.index >= 0
       && prev.fix.roster.Roster? && AllVerify(prev.forwardLink, prev.fix.roster) && SkipChainID(prev) in s.chains
  }

  ghost function Followed(s: State, latest: SkipBlockID, prop: SkipBlockFix, completes: bool): (State, Reply)
    requires CanFollow(s, latest)
  {
    var prev := s.blocks[latest];
    match Searched(s.blocks, prev)
    case None => (s, Failed(BlockNotFound))
    case Some(back) => LinkBlock(s, latest, Following(prop, prev, back), completes)
  }

  lemma AppendFollows(s: State, self: nat, latest: SkipBlockID, prop: SkipBlockFix, completes: bool)
    requires Inv(s) && latest in s.blocks && s.blocks[latest].fix.roster.Roster? && self in s.blocks[latest].fix.roster.list
    ensures CanFollow(s, latest) && Append(s, self, latest, prop, completes) == Followed(s, latest, prop, completes)
  {
    StoredBlock(s, latest);
    InvBacked(s);
  }

  function Prefixed<T>(front: seq<T>, rest: Option<seq<T>>): Option<seq<T>>
  {
    if rest.None? then None else Some(front + rest.value)
  }

  /** The back-links of a block that is to follow prev. */
  function Searched(blocks: Blocks, prev: Block): Option<seq<SkipBlockID>>
    requires Keyed(blocks) && prev.hash in blocks && 1 <= prev.fix.maximumHeight <= prev.fix.baseHeight && prev.fix.index >= 0
  {
    BackLinks(blocks, prev.hash, 0, Height(prev.fix.baseHeight, prev.fix.maximumHeight, prev.fix.index + 1))
  }

  /** The proposal with all fields filled in. */
  function Following(prop: SkipBlockFix, prev: Block, back: seq<SkipBlockID>): Block
    requires 1 <= prev.fix.maximumHeight <= prev.fix.baseHeight && prev.fix.index >= 0
  {
    var fix := AppendFix(prop, prev, Height(prev.fix.baseHeight, prev.fix.maximumHeight, prev.fix.index + 1), back);
    Block(fix, CalculateHash(fix), [], [])
  }

  lemma BackLinksStep(blocks: Blocks, id: SkipBlockID, h: nat, n: nat, back: seq<SkipBlockID>)
    requires Keyed(blocks) && id in blocks && h < n
    ensures Prefixed(back, BackLinks(blocks, id, h, n)) ==
      match SearchBack(blocks, id, h)
      case None => None
      case Some(p) => Prefixed(back + [p], BackLinks(blocks, p, h + 1, n))
  {
    match SearchBack(blocks, id, h)
    case None =>
    case Some(p) => PrefixedCons(back, p, BackLinks(blocks, p, h + 1, n));
  }

  lemma PrefixedEnd<T>(front: seq<T>)
    ensures Prefixed(front, Some([])) == Some(front)
  {
    assert front + [] == front;
  }

  lemma PrefixedNil<T>(rest: Option<seq<T>>)
    ensures Prefixed([], rest) == rest
  {
    if rest.Some? { assert [] + rest.value == rest.value; }
  }

  lemma PrefixedCons<T>(front: seq<T>, x: T, rest: Option<seq<T>>)
    ensures Prefixed(front + [x], rest) == if rest.None? then None else Prefixed(front, Some([x] + rest.value))
  {
    if rest.Some? { assert (front + [x]) + rest.value == front + ([x] + rest.value); }
  }

  ghost predicate HasBack(blocks: Blocks, id: SkipBlockID)
    requires id in blocks
  {
    |blocks[id].fix.backLinkIDs| >= 1
  }

  /** Every stored block has a back-link. */
  ghost predicate Backed(blocks: Blocks)
  {
    forall id {:trigger HasBack(blocks, id)} :: id in blocks ==> HasBack(blocks, id)
  }

  lemma InvBacked(s: State)
    requires Inv(s)
    ensures Backed(s.blocks)
  {
    forall id | id in s.blocks ensures HasBack(s.blocks, id) {
      StoredBlock(s, id);
    }
  }
}
