/** The skipchain service over one shared store: creating chains, appending blocks and
    serving the forward-signature requests that appending sends out. */
module Skipchain {
  import opened Options
  import opened Powers
  import opened SkipIndex
  import opened SkipBlocks

  datatype ForwardSignature = ForwardSignature(
    targetHeight: nat, previous: SkipBlockID, newest: Block, forwardLink: BlockLink)

  /** blocks is the block store; sent lists every forward-signature request ever sent, so a
      request may be served late, out of order, repeatedly or never; chains is the history
      variable that records, per genesis block, the plain list of appended blocks. */
  datatype State = State(
    blocks: Blocks, sent: seq<ForwardSignature>, chains: map<SkipBlockID, seq<SkipBlockID>>)

  datatype Error = ParameterWrong | BlockNotFound | BlockContent

  datatype Reply = Failed(error: Error) | Stored(latest: Block)

  // ----- Operations -----------------------------------------------------------------------

  predicate VerifyBlock(fix: SkipBlockFix)
  {
    && fix.maximumHeight > 0
    && fix.baseHeight > 0
    && fix.maximumHeight <= fix.baseHeight
    && fix.index >= 0
    && |fix.backLinkIDs| > 0
    && fix.height >= 1
    && fix.height <= fix.maximumHeight
    && fix.roster.Roster?
  }

  /** A collective signature needs at least two conodes, an accepting verification and a
      signing round that completes (decided by the environment). */
  function StartBFT(roster: Roster, msg: SkipBlockID, verified: bool, completes: bool): Option<Signature>
  {
    if roster.Roster? && |roster.list| >= 2 && verified && completes
    then Some(CoSi(roster.list, msg)) else None
  }

  function GenesisFix(prop: SkipBlockFix, nonce: nat): SkipBlockFix
  {
    prop.(index := 0, height := prop.maximumHeight, backLinkIDs := [RandomBytes(nonce)], genesisID := Null)
  }

  /** The genesis branch of StoreSkipBlock. */
  function CreateChain(s: State, prop: SkipBlockFix, nonce: nat): (State, Reply)
  {
    var fix := GenesisFix(prop, nonce);
    var id := CalculateHash(fix);
    if !VerifyBlock(fix) || (fix.parentBlockID != Null && fix.parentBlockID !in s.blocks) then
      (s, Failed(ParameterWrong))
    else
      var parent := fix.parentBlockID;
      var known := if parent == Null then s.blocks else s.blocks[parent := AddChild(s.blocks[parent], id)];
      var block := Block(fix, id, [], []);
      (State(StoreBlock(known, block), s.sent, if id in s.chains then s.chains else s.chains[id := [id]]),
       Stored(block))
  }

  /** Every stored block is keyed by the hash of its fixed part. */
  ghost predicate Keyed(blocks: Blocks)
  {
    forall id :: id in blocks ==> blocks[id].hash == id && CalculateHash(blocks[id].fix) == id
  }

  /** Walk back along level 0 until a block that takes part in level h. */
  function SearchBack(blocks: Blocks, id: SkipBlockID, h: nat): (r: Option<SkipBlockID>)
    requires Keyed(blocks) && id in blocks
    ensures r.Some? ==> r.value in blocks
    decreases id
  {
    if blocks[id].fix.height >= h + 1 then Some(id)
    else if |blocks[id].fix.backLinkIDs| == 0 || blocks[id].fix.backLinkIDs[0] !in blocks then None
    else
      assert CalculateHash(blocks[id].fix) == id;
      SearchBack(blocks, id.backLinkIDs[0], h)
  }

  /** The back-links for levels h to n - 1, searched from block id. */
  function BackLinks(blocks: Blocks, id: SkipBlockID, h: nat, n: nat): Option<seq<SkipBlockID>>
    requires Keyed(blocks) && id in blocks && h <= n
    decreases n - h
  {
    if h == n then Some([])
    else match SearchBack(blocks, id, h)
      case None => None
      case Some(p) =>
        match BackLinks(blocks, p, h + 1, n)
        case None => None
        case Some(rest) => Some([p] + rest)
  }

  function AppendFix(prop: SkipBlockFix, prev: Block, height: int, back: seq<SkipBlockID>): SkipBlockFix
  {
    prop.(index := prev.fix.index + 1, height := height,
          maximumHeight := prev.fix.maximumHeight, baseHeight := prev.fix.baseHeight,
          backLinkIDs := back, verifierIDs := prev.fix.verifierIDs,
          parentBlockID := Null, genesisID := SkipChainID(prev))
  }

  /** The level of the first back-link to id, as bftVerifyNewBlock looks it up. */
  function LevelOf(back: seq<SkipBlockID>, id: SkipBlockID, from: nat): Option<nat>
    requires from <= |back|
    decreases |back| - from
  {
    if from == |back| then None
    else if back[from] == id then Some(from)
    else LevelOf(back, id, from + 1)
  }

  predicate BftVerifyNewBlock(blocks: Blocks, src: SkipBlockID, dst: Block)
  {
    src in blocks && LevelOf(dst.fix.backLinkIDs, src, 0) == Some(|blocks[src].forwardLink|)
  }

  /** addForwardLink at height 1: prev with its signed link to the new block, or nothing. */
  function AddForwardLink(blocks: Blocks, prev: SkipBlockID, dst: Block, completes: bool): Option<Block>
    requires prev in blocks
  {
    var src := blocks[prev];
    if 1 <= |src.forwardLink| then None
    else match StartBFT(src.fix.roster, dst.hash, BftVerifyNewBlock(blocks, prev, dst), completes)
      case None => None
      case Some(sig) => Some(src.(forwardLink := src.forwardLink + [BlockLink(dst.hash, sig)]))
  }

  /** One request per back-link above level 0. */
  function Requests(block: Block, prev: SkipBlockID, link: BlockLink): (r: seq<ForwardSignature>)
    requires |block.fix.backLinkIDs| >= 1
    ensures |r| == |block.fix.backLinkIDs| - 1
    ensures forall k :: 0 <= k < |r| ==> r[k] == ForwardSignature(k + 1, prev, block, link)
  {
    seq(|block.fix.backLinkIDs| - 1, k requires 0 <= k => ForwardSignature(k + 1, prev, block, link))
  }

  /** Sign the link from the stored block latest to the prepared block, store it and ask for links. */
  function LinkBlock(s: State, latest: SkipBlockID, block: Block, completes: bool): (State, Reply)
    requires latest in s.blocks && SkipChainID(s.blocks[latest]) in s.chains
  {
    match AddForwardLink(s.blocks, latest, block, completes)
    case None => (s, Failed(BlockContent))
    case Some(linked) =>
      var g := SkipChainID(s.blocks[latest]);
      (State(StoreBlock(s.blocks[latest := linked], block),
             s.sent + (if |block.fix.backLinkIDs| >= 1 then Requests(block, latest, linked.forwardLink[0]) else []),
             s.chains[g := s.chains[g] + [block.hash]]),
       Stored(block))
  }

  /** The appending branch of StoreSkipBlock, run by conode self. */
  function Append(s: State, self: nat, latest: SkipBlockID, prop: SkipBlockFix, completes: bool): (State, Reply)
    requires Inv(s)
  {
    if latest !in s.blocks then (s, Failed(BlockNotFound))
    else
      var prev := s.blocks[latest];
      StoredBlock(s, latest);
      if self !in prev.fix.roster.list then (s, Failed(BlockContent))
      else
        var height := Height(prev.fix.baseHeight, prev.fix.maximumHeight, prev.fix.index + 1);
        match BackLinks(s.blocks, latest, 0, height)
        case None => (s, Failed(BlockNotFound))
        case Some(back) =>
          var fix := AppendFix(prop, prev, height, back);
          LinkBlock(s, latest, Block(fix, CalculateHash(fix), [], []), completes)
  }

  predicate BftVerifyFollowBlock(blocks: Blocks, fs: ForwardSignature)
  {
    && fs.previous in blocks
    && fs.targetHeight < |fs.newest.fix.backLinkIDs|
    && VerifySignature(fs.forwardLink, blocks[fs.previous].fix.roster)
    && fs.forwardLink.hash == fs.newest.hash
    && var target := fs.newest.fix.backLinkIDs[fs.targetHeight];
       && target in blocks
       && |blocks[target].forwardLink| < fs.targetHeight + 1
       && SkipChainID(blocks[target]) == SkipChainID(fs.newest)
  }

  /** forwardSignature: the target block signs and appends a link to the newest block. */
  function Deliver(s: State, fs: ForwardSignature, completes: bool): State
  {
    if fs.targetHeight >= |fs.newest.fix.backLinkIDs| then s
    else
      var target := fs.newest.fix.backLinkIDs[fs.targetHeight];
      if target !in s.blocks then s
      else
        var b := s.blocks[target];
        match StartBFT(b.fix.roster, fs.forwardLink.hash, BftVerifyFollowBlock(s.blocks, fs), completes)
        case None => s
        case Some(sig) =>
          s.(blocks := s.blocks[target := b.(forwardLink := b.forwardLink + [BlockLink(fs.forwardLink.hash, sig)])])
  }

  // ----- The invariant --------------------------------------------------------------------

  /** The fixed part of the i-th block of chain c: height and back-links are those of the
      deterministic skip list with base b and maximum height m. */
  ghost predicate FixedOK(blk: Block, c: seq<SkipBlockID>, b: int, m: int, i: nat)
    requires 1 <= m <= b && i < |c|
  {
    && blk.fix.index == i
    && blk.fix.baseHeight == b
    && blk.fix.maximumHeight == m
    && blk.fix.height == Height(b, m, i)
    && blk.fix.roster.Roster?
    && (i == 0 ==> blk.fix.genesisID == Null && |blk.fix.backLinkIDs| == 1 && blk.fix.backLinkIDs[0].RandomBytes?)
    && (i > 0 ==>
          && blk.fix.genesisID == c[0]
          && blk.fix.parentBlockID == Null
          && |blk.fix.backLinkIDs| == blk.fix.height
          && forall h :: 0 <= h < blk.fix.height ==> IsBack(blk.fix.backLinkIDs[h], c, b, i, h))
  }

  ghost predicate IsBack(id: SkipBlockID, c: seq<SkipBlockID>, b: nat, i: nat, h: nat)
    requires i < |c|
  {
    Pow(b, h) <= i && id == c[i - Pow(b, h)]
  }

  /** id is the block b^e after block i of the chain, for a level e >= l of block i. */
  ghost predicate LevelLink(id: SkipBlockID, c: seq<SkipBlockID>, b: nat, m: nat, i: nat, l: nat)
    requires b >= 1 && m >= 1
  {
    exists e: nat :: l <= e < Height(b, m, i) && i + Pow(b, e) < |c| && id == c[i + Pow(b, e)]
  }

  /** The forward links of the i-th block of chain c, under any schedule of requests. */
  ghost predicate ForwardOK(fwd: seq<BlockLink>, roster: Roster, c: seq<SkipBlockID>, b: nat, m: nat, i: nat)
    requires b >= 1 && m >= 1 && i < |c|
  {
    && |fwd| <= Height(b, m, i)
    && AllVerify(fwd, roster)
    && (i + 1 == |c| ==> fwd == [])
    && (i + 1 < |c| ==> |fwd| >= 1 && fwd[0].hash == c[i + 1] && roster.Roster? && |roster.list| >= 2)
    && forall l :: 0 <= l < |fwd| ==> LevelLink(fwd[l].hash, c, b, m, i, l)
  }

  ghost predicate ChainOK(blocks: Blocks, g: SkipBlockID, c: seq<SkipBlockID>)
  {
    && |c| >= 1
    && c[0] == g
    && (forall i :: 0 <= i < |c| ==> c[i] in blocks)
    && var b, m := blocks[g].fix.baseHeight, blocks[g].fix.maximumHeight;
       && 1 <= m <= b
       && forall i {:trigger BlockOK(blocks[c[i]], c, b, m, i)} :: 0 <= i < |c| ==> BlockOK(blocks[c[i]], c, b, m, i)
  }

  ghost predicate BlockOK(blk: Block, c: seq<SkipBlockID>, b: int, m: int, i: nat)
    requires 1 <= m <= b && i < |c|
  {
    FixedOK(blk, c, b, m, i) && ForwardOK(blk.forwardLink, blk.fix.roster, c, b, m, i)
  }

  /** A stored block sits in its chain at its index. */
  ghost predicate Placed(s: State, id: SkipBlockID)
    requires id in s.blocks
  {
    var g, i := SkipChainID(s.blocks[id]), s.blocks[id].fix.index;
    g in s.chains && 0 <= i < |s.chains[g]| && s.chains[g][i] == id
  }

  ghost predicate ParentKnows(blocks: Blocks, g: SkipBlockID)
  {
    && g in blocks
    && var p := blocks[g].fix.parentBlockID;
       p != Null ==> p in blocks && g in blocks[p].childSL
  }

  /** What a sent request says: its newest block is the i-th of its chain, the level is one
      of that block's, and the enclosed link is the signed link from block i - 1. */
  ghost predicate RequestOK(s: State, fs: ForwardSignature)
  {
    var g, i := SkipChainID(fs.newest), fs.newest.fix.index;
    && g in s.chains
    && 0 < i < |s.chains[g]|
    && var c := s.chains[g];
       && c[i] == fs.newest.hash
       && c[i] in s.blocks && s.blocks[c[i]].fix == fs.newest.fix
       && c[i - 1] in s.blocks && fs.previous == c[i - 1]
       && 1 <= fs.targetHeight < |fs.newest.fix.backLinkIDs|
       && fs.forwardLink.hash == c[i]
       && VerifySignature(fs.forwardLink, s.blocks[c[i - 1]].fix.roster)
  }

  ghost predicate ChainsOK(s: State)
  {
    forall g {:trigger ChainOK(s.blocks, g, s.chains[g])} :: g in s.chains ==> ChainOK(s.blocks, g, s.chains[g])
  }

  ghost predicate AllPlaced(s: State)
  {
    forall id {:trigger Placed(s, id)} :: id in s.blocks ==> Placed(s, id)
  }

  ghost predicate ParentsOK(s: State)
  {
    forall g {:trigger ParentKnows(s.blocks, g)} :: g in s.chains ==> ParentKnows(s.blocks, g)
  }

  ghost predicate RequestsOK(s: State)
  {
    forall k {:trigger RequestOK(s, s.sent[k])} :: 0 <= k < |s.sent| ==> RequestOK(s, s.sent[k])
  }

  ghost predicate Inv(s: State)
  {
    Keyed(s.blocks) && ChainsOK(s) && AllPlaced(s) && ParentsOK(s) && RequestsOK(s)
  }

  /** What the invariant says of one stored block. */
  lemma StoredBlock(s: State, id: SkipBlockID)
    requires Inv(s) && id in s.blocks
    ensures s.blocks[id].hash == id && CalculateHash(s.blocks[id].fix) == id
    ensures Placed(s, id)
    ensures var fix := s.blocks[id].fix; 1 <= fix.maximumHeight <= fix.baseHeight && fix.roster.Roster?
    ensures var g := SkipChainID(s.blocks[id]);
            && ChainOK(s.blocks, g, s.chains[g])
            && s.blocks[g].fix.baseHeight == s.blocks[id].fix.baseHeight
            && s.blocks[g].fix.maximumHeight == s.blocks[id].fix.maximumHeight
            && BlockOK(s.blocks[id], s.chains[g], s.blocks[g].fix.baseHeight, s.blocks[g].fix.maximumHeight,
                       s.blocks[id].fix.index)
  {
    assert Placed(s, id);
    var g, i := SkipChainID(s.blocks[id]), s.blocks[id].fix.index;
    var c := s.chains[g];
    assert ChainOK(s.blocks, g, s.chains[g]);
    assert BlockOK(s.blocks[c[i]], c, s.blocks[g].fix.baseHeight, s.blocks[g].fix.maximumHeight, i);
  }
}
