/** Skipblocks, their links and the map that stores them. */
module SkipBlocks {
  import opened Options

  /** The conodes responsible for a block; NoRoster is the nil pointer. */
  datatype Roster = NoRoster | Roster(list: seq<nat>)

  /** A block identifier. The hash is symbolic, so two blocks have the same identifier
      exactly when their hashed fields agree. Index, Height, MaximumHeight and BaseHeight
      are not among the hashed fields. */
  datatype SkipBlockID =
    | Null
    | RandomBytes(nonce: nat)
    | HashOf(backLinkIDs: seq<SkipBlockID>, verifierIDs: seq<nat>, parentBlockID: SkipBlockID,
             genesisID: SkipBlockID, data: seq<int>, roster: Roster)

  datatype SkipBlockFix = SkipBlockFix(
    index: int, height: int, maximumHeight: int, baseHeight: int,
    backLinkIDs: seq<SkipBlockID>, verifierIDs: seq<nat>, parentBlockID: SkipBlockID,
    genesisID: SkipBlockID, data: seq<int>, roster: Roster)

  function CalculateHash(fix: SkipBlockFix): SkipBlockID
  {
    HashOf(fix.backLinkIDs, fix.verifierIDs, fix.parentBlockID, fix.genesisID, fix.data, fix.roster)
  }

  /** The hash covers exactly these fields: the others may differ in blocks of one hash. */
  lemma HashCovers(a: SkipBlockFix, b: SkipBlockFix)
    ensures CalculateHash(a) == CalculateHash(b) <==>
      && a.backLinkIDs == b.backLinkIDs && a.verifierIDs == b.verifierIDs && a.parentBlockID == b.parentBlockID
      && a.genesisID == b.genesisID && a.data == b.data && a.roster == b.roster
  {
  }

  /** A collective signature names the roster that produced it and what it signs. */
  datatype Signature = NoSignature | CoSi(list: seq<nat>, msg: SkipBlockID)

  datatype BlockLink = BlockLink(hash: SkipBlockID, signature: Signature)

  predicate VerifySignature(link: BlockLink, roster: Roster)
  {
    roster.Roster? && link.signature == CoSi(roster.list, link.hash)
  }

  predicate AllVerify(links: seq<BlockLink>, roster: Roster)
  {
    forall l :: 0 <= l < |links| ==> VerifySignature(links[l], roster)
  }

  /** The value of a block: what a copy of it holds at one moment. */
  datatype Block = Block(fix: SkipBlockFix, hash: SkipBlockID,
                         forwardLink: seq<BlockLink>, childSL: seq<SkipBlockID>)

  function SkipChainID(b: Block): SkipBlockID
  {
    if b.fix.index == 0 then b.hash else b.fix.genesisID
  }

  type Blocks = map<SkipBlockID, Block>

  function AddChild(b: Block, id: SkipBlockID): Block
  {
    b.(childSL := b.childSL + [id])
  }

  // ----- Merging copies of a block ----------------------------------------------------

  /** The valid links at the front of a list. */
  function ValidPrefix(links: seq<BlockLink>, roster: Roster): (p: seq<BlockLink>)
    ensures p <= links
    ensures AllVerify(p, roster)
    ensures |p| < |links| ==> !VerifySignature(links[|p|], roster)
  {
    if links == [] || !VerifySignature(links[0], roster) then []
    else
      var t := ValidPrefix(links[1..], roster);
      var p := [links[0]] + t;
      assert forall l :: 0 < l < |p| ==> p[l] == t[l - 1];
      p
  }

  /** The stored copy after another copy of the same block arrived. */
  function Merge(known: Block, copy: Block): Block
  {
    if |copy.forwardLink| > |known.forwardLink| then
      var extra := copy.forwardLink[|known.forwardLink|..];
      var good := ValidPrefix(extra, known.fix.roster);
      var merged := known.(forwardLink := known.forwardLink + good);
      if |good| < |extra| then merged else MergeChildren(merged, copy)
    else
      MergeChildren(known, copy)
  }

  function MergeChildren(known: Block, copy: Block): Block
  {
    if |copy.childSL| > |known.childSL|
    then known.(childSL := known.childSL + copy.childSL[|known.childSL|..])
    else known
  }

  function StoreBlock(blocks: Blocks, copy: Block): Blocks
  {
    if copy.hash in blocks
    then blocks[copy.hash := Merge(blocks[copy.hash], copy)]
    else blocks[copy.hash := copy]
  }

  /** The identifier Store returns: nil when a link of a known block does not verify. */
  function StoreReply(blocks: Blocks, copy: Block): SkipBlockID
  {
    if copy.hash in blocks && |copy.forwardLink| > |blocks[copy.hash].forwardLink|
       && !AllVerify(copy.forwardLink[|blocks[copy.hash].forwardLink|..], blocks[copy.hash].fix.roster)
    then Null else copy.hash
  }

  function StoreAll(blocks: Blocks, copies: seq<Block>): Blocks
  {
    if copies == [] then blocks
    else StoreBlock(StoreAll(blocks, copies[..|copies| - 1]), copies[|copies| - 1])
  }

  lemma {:induction false} ValidPrefixIs(links: seq<BlockLink>, roster: Roster, l: nat)
    requires l <= |links| && AllVerify(links[..l], roster)
    requires l < |links| ==> !VerifySignature(links[l], roster)
    ensures ValidPrefix(links, roster) == links[..l]
    ensures l == |links| <==> AllVerify(links, roster)
  {
    assert forall k :: 0 <= k < l ==> links[..l][k] == links[k];
    if l > 0 {
      assert links[1..][..l - 1] == links[1..l];
      ValidPrefixIs(links[1..], roster, l - 1);
      assert links[..l] == [links[0]] + links[1..l];
    }
  }

  /** No Store drops or rewrites a stored link, a child or a fixed field, whatever arrives. */
  lemma {:induction false} StoreAllKeeps(blocks: Blocks, copies: seq<Block>, id: SkipBlockID)
    requires id in blocks
    ensures id in StoreAll(blocks, copies)
    ensures blocks[id].forwardLink <= StoreAll(blocks, copies)[id].forwardLink
    ensures blocks[id].childSL <= StoreAll(blocks, copies)[id].childSL
    ensures blocks[id].fix == StoreAll(blocks, copies)[id].fix
    ensures blocks[id].hash == StoreAll(blocks, copies)[id].hash
    decreases |copies|
  {
    if copies != [] {
      StoreAllKeeps(blocks, copies[..|copies| - 1], id);
    }
  }

  function ForwardLen(b: Block): nat
  {
    |b.forwardLink|
  }

  function ChildLen(b: Block): nat
  {
    |b.childSL|
  }

  /** The largest size of block id among the stored copy and the arriving ones. */
  function LongestSeen(size: Block -> nat, blocks: Blocks, copies: seq<Block>, id: SkipBlockID): nat
  {
    if copies == [] then
      if id in blocks then size(blocks[id]) else 0
    else
      var c := copies[|copies| - 1];
      var before := LongestSeen(size, blocks, copies[..|copies| - 1], id);
      if c.hash == id && size(c) > before then size(c) else before
  }

  ghost predicate CopyOf(b: Block, id: SkipBlockID, full: seq<BlockLink>, roster: Roster)
  {
    b.hash == id ==> b.forwardLink <= full && b.fix.roster == roster
  }

  lemma MergeConverges(known: Block, copy: Block, full: seq<BlockLink>, seen: nat)
    requires AllVerify(full, known.fix.roster)
    requires seen <= |full| && known.forwardLink == full[..seen] && copy.forwardLink <= full
    ensures Merge(known, copy).fix == known.fix
    ensures Merge(known, copy).forwardLink ==
            full[..if |copy.forwardLink| > seen then |copy.forwardLink| else seen]
  {
    if |copy.forwardLink| > seen {
      CopyTail(copy.forwardLink, full, seen, known.fix.roster);
    }
  }

  lemma CopyTail(links: seq<BlockLink>, full: seq<BlockLink>, seen: nat, roster: Roster)
    requires links <= full && seen <= |links| && AllVerify(full, roster)
    ensures ValidPrefix(links[seen..], roster) == links[seen..] && full[..seen] + links[seen..] == full[..|links|]
  {
    var extra := links[seen..];
    forall l | 0 <= l < |extra| ensures VerifySignature(extra[l], roster) {
      assert extra[l] == full[seen + l];
    }
    var p := ValidPrefix(extra, roster);
    assert |p| == |extra| && p == extra[..|p|];
  }

  /** If every copy of a block carries a prefix of one list of valid links, then any sequence
      of Stores, in any order and with repeats, leaves the longest prefix seen. */
  lemma {:induction false} StoreConverges(blocks: Blocks, copies: seq<Block>, id: SkipBlockID,
                                          full: seq<BlockLink>, roster: Roster)
    requires AllVerify(full, roster)
    requires id in blocks && blocks[id].hash == id && CopyOf(blocks[id], id, full, roster)
    requires forall c :: c in copies ==> CopyOf(c, id, full, roster)
    ensures LongestSeen(ForwardLen, blocks, copies, id) <= |full|
    ensures id in StoreAll(blocks, copies)
    ensures StoreAll(blocks, copies)[id].fix.roster == roster
    ensures StoreAll(blocks, copies)[id].forwardLink == full[..LongestSeen(ForwardLen, blocks, copies, id)]
    decreases |copies|
  {
    if copies != [] {
      var front, c := copies[..|copies| - 1], copies[|copies| - 1];
      StoreConverges(blocks, front, id, full, roster);
      assert CopyOf(c, id, full, roster);
      if c.hash == id {
        MergeConverges(StoreAll(blocks, front)[id], c, full, LongestSeen(ForwardLen, blocks, front, id));
      }
    }
  }

  ghost predicate ChildrenOf(b: Block, id: SkipBlockID, kids: seq<SkipBlockID>)
  {
    b.hash == id ==> b.childSL <= kids
  }

  lemma MergeChildrenConverges(known: Block, copy: Block, full: seq<BlockLink>, seen: nat, kids: seq<SkipBlockID>, k: nat)
    requires AllVerify(full, known.fix.roster)
    requires seen <= |full| && known.forwardLink == full[..seen] && copy.forwardLink <= full
    requires k <= |kids| && known.childSL == kids[..k] && copy.childSL <= kids
    ensures Merge(known, copy).childSL == kids[..if |copy.childSL| > k then |copy.childSL| else k]
  {
    if |copy.forwardLink| > seen {
      CopyTail(copy.forwardLink, full, seen, known.fix.roster);
    }
  }

  /** If moreover the children that the copies list are prefixes of one list, any sequence of Stores leaves
      the longest of these. */
  lemma {:induction false} ChildrenConverge(blocks: Blocks, copies: seq<Block>, id: SkipBlockID,
                                            full: seq<BlockLink>, roster: Roster, kids: seq<SkipBlockID>)
    requires AllVerify(full, roster)
    requires id in blocks && blocks[id].hash == id && CopyOf(blocks[id], id, full, roster) && ChildrenOf(blocks[id], id, kids)
    requires forall c :: c in copies ==> CopyOf(c, id, full, roster) && ChildrenOf(c, id, kids)
    ensures LongestSeen(ChildLen, blocks, copies, id) <= |kids|
    ensures id in StoreAll(blocks, copies)
    ensures StoreAll(blocks, copies)[id].childSL == kids[..LongestSeen(ChildLen, blocks, copies, id)]
    decreases |copies|
  {
    if copies != [] {
      var front, c := copies[..|copies| - 1], copies[|copies| - 1];
      StoreConverges(blocks, front, id, full, roster);
      ChildrenConverge(blocks, front, id, full, roster, kids);
      assert CopyOf(c, id, full, roster) && ChildrenOf(c, id, kids);
      if c.hash == id {
        MergeChildrenConverges(StoreAll(blocks, front)[id], c, full, LongestSeen(ForwardLen, blocks, front, id),
                               kids, LongestSeen(ChildLen, blocks, front, id));
      }
    }
  }

  /** Of the links that a copy has in addition, those before the first invalid one are taken. */
  lemma MergeTakesValid(known: Block, copy: Block)
    ensures var r, had := Merge(known, copy).forwardLink, |known.forwardLink|;
      if |copy.forwardLink| <= had then r == known.forwardLink
      else
        && had <= |r| <= |copy.forwardLink| && r == known.forwardLink + copy.forwardLink[had..|r|]
        && AllVerify(r[had..], known.fix.roster)
        && (|r| < |copy.forwardLink| ==> !VerifySignature(copy.forwardLink[|r|], known.fix.roster))
  {
    if |copy.forwardLink| > |known.forwardLink| {
      var extra := copy.forwardLink[|known.forwardLink|..];
      var good := ValidPrefix(extra, known.fix.roster);
      assert good == extra[..|good|] == copy.forwardLink[|known.forwardLink|..|known.forwardLink| + |good|];
      assert (known.forwardLink + good)[|known.forwardLink|..] == good;
    }
  }

  /** What Store's answer tells: nil exactly if the stored block still has fewer links than the copy, and then
      the copy's children were not looked at; otherwise no child that the copy adds is missing. */
  lemma StoreReplyTells(blocks: Blocks, copy: Block)
    requires copy.hash != Null
    ensures var r := StoreBlock(blocks, copy)[copy.hash];
      && StoreReply(blocks, copy) == (if |r.forwardLink| < |copy.forwardLink| then Null else copy.hash)
      && (StoreReply(blocks, copy) == Null ==> copy.hash in blocks && r.childSL == blocks[copy.hash].childSL)
      && (StoreReply(blocks, copy) != Null ==>
            && |r.childSL| >= |copy.childSL|
            && var had := if copy.hash in blocks then |blocks[copy.hash].childSL| else 0;
               forall k :: had <= k < |r.childSL| ==> r.childSL[k] == copy.childSL[k])
  {
    if copy.hash in blocks {
      MergeTakesValid(blocks[copy.hash], copy);
      var had, extra := |blocks[copy.hash].forwardLink|, [];
      if |copy.forwardLink| > had {
        extra := copy.forwardLink[had..];
        var good := ValidPrefix(extra, blocks[copy.hash].fix.roster);
        if |good| == |extra| { assert good == extra; }
      }
    }
  }

  /** A store that does not hold the block yet takes the first copy as it is. */
  lemma {:induction false} FirstCopy(blocks: Blocks, copies: seq<Block>, c: Block)
    requires c.hash !in blocks
    requires forall x :: x in copies ==> x.hash != c.hash
    ensures c.hash !in StoreAll(blocks, copies)
    ensures LongestSeen(ForwardLen, blocks, copies, c.hash) == 0
    ensures StoreAll(blocks, copies + [c])[c.hash] == c
    decreases |copies|
  {
    assert (copies + [c])[..|copies|] == copies;
    if copies != [] {
      var front, x := copies[..|copies| - 1], copies[|copies| - 1];
      FirstCopy(blocks, front, c);
      assert x in copies;
    }
  }

  // ----- Following the highest links ----------------------------------------------------

  /** Forward links lead to strictly higher indices. */
  predicate ForwardOrdered(blocks: Blocks)
  {
    forall id, l | id in blocks && 0 <= l < |blocks[id].forwardLink| ::
      var h := blocks[id].forwardLink[l].hash;
      h in blocks ==> blocks[id].fix.index < blocks[h].fix.index
  }

  function Later(blocks: Blocks, index: int): set<SkipBlockID>
  {
    set id | id in blocks && blocks[id].fix.index > index
  }

  /** The blocks met when the last forward link is always followed; None if one is missing. */
  function Walk(blocks: Blocks, id: SkipBlockID): (r: Option<seq<SkipBlockID>>)
    requires ForwardOrdered(blocks) && id in blocks
    ensures r.Some? ==> |r.value| >= 1 && r.value[0] == id && forall x :: x in r.value ==> x in blocks
    decreases Later(blocks, blocks[id].fix.index)
  {
    var f := blocks[id].forwardLink;
    if f == [] then Some([id])
    else
      var next := f[|f| - 1].hash;
      if next !in blocks then None
      else
        assert next in Later(blocks, blocks[id].fix.index);
        assert next !in Later(blocks, blocks[next].fix.index);
        assert Later(blocks, blocks[next].fix.index) <= Later(blocks, blocks[id].fix.index);
        match Walk(blocks, next)
        case None => None
        case Some(p) => Some([id] + p)
  }

  // ----- Checking a block against its neighbours ------------------------------------------

  predicate KnownToParent(blocks: Blocks, sb: Block)
  {
    sb.fix.parentBlockID != Null ==>
      && sb.fix.parentBlockID in blocks
      && AllVerify(blocks[sb.fix.parentBlockID].forwardLink, blocks[sb.fix.parentBlockID].fix.roster)
      && sb.hash in blocks[sb.fix.parentBlockID].childSL
  }

  /** VerifyLinks with the store as context; None is the run-time panic on a predecessor without a link. */
  function LinksVerify(blocks: Blocks, sb: Block): Option<bool>
  {
    if |sb.fix.backLinkIDs| == 0 || !AllVerify(sb.forwardLink, sb.fix.roster) || !KnownToParent(blocks, sb) then Some(false)
    else if sb.fix.index == 0 then Some(true)
    else if sb.fix.backLinkIDs[0] !in blocks then Some(|sb.forwardLink| > 0)
    else
      var back := blocks[sb.fix.backLinkIDs[0]];
      if !AllVerify(back.forwardLink, back.fix.roster) then Some(false)
      else if |back.forwardLink| == 0 then None
      else Some(back.forwardLink[0].hash == sb.hash)
  }

  // ----- The mutable objects --------------------------------------------------------------

  class SkipBlock {
    var fix: SkipBlockFix
    var hash: SkipBlockID
    var forwardLink: seq<BlockLink>
    var childSL: seq<SkipBlockID>

    constructor (fix: SkipBlockFix)
      ensures Value() == Block(fix, Null, [], [])
    {
      this.fix, hash, forwardLink, childSL := fix, Null, [], [];
    }

    function Value(): Block
      reads this
    {
      Block(fix, hash, forwardLink, childSL)
    }

    method AddForward(fw: BlockLink)
      modifies this`forwardLink
      ensures forwardLink == old(forwardLink) + [fw]
    {
      forwardLink := forwardLink + [fw];
    }

    method UpdateHash()
      modifies this`hash
      ensures hash == CalculateHash(fix)
    {
      hash := CalculateHash(fix);
    }

    /** What Store does with a copy of a block it already holds. */
    method MergeFrom(sb: SkipBlock) returns (ok: bool)
      modifies this`forwardLink, this`childSL
      ensures Value() == Merge(old(Value()), old(sb.Value()))
      ensures !ok <==> |old(sb.forwardLink)| > |old(forwardLink)|
                       && !AllVerify(old(sb.forwardLink)[|old(forwardLink)|..], fix.roster)
    {
      if |sb.forwardLink| > |forwardLink| {
        var have, extra := forwardLink, sb.forwardLink[|forwardLink|..];
        for l := 0 to |extra|
          modifies this`forwardLink
          invariant forwardLink == have + extra[..l]
          invariant AllVerify(extra[..l], fix.roster)
        {
          if !VerifySignature(extra[l], fix.roster) {
            ValidPrefixIs(extra, fix.roster, l);
            return false;
          }
          AddForward(extra[l]);
          assert extra[..l + 1] == extra[..l] + [extra[l]];
        }
        assert extra[..|extra|] == extra;
        ValidPrefixIs(extra, fix.roster, |extra|);
      }
      if |sb.childSL| > |childSL| {
        childSL := childSL + sb.childSL[|childSL|..];
      }
      return true;
    }

    method VerifyForwardSignatures() returns (ok: bool)
      ensures ok <==> AllVerify(forwardLink, fix.roster)
    {
      for l := 0 to |forwardLink|
        invariant forall k :: 0 <= k < l ==> VerifySignature(forwardLink[k], fix.roster)
      {
        if !VerifySignature(forwardLink[l], fix.roster) {
          return false;
        }
      }
      return true;
    }
  }

  class SkipBlockMap {
    var skipBlocks: map<SkipBlockID, SkipBlock>

    constructor ()
      ensures Valid() && View() == map[]
    {
      skipBlocks := map[];
    }

    ghost predicate Valid()
      reads this, skipBlocks.Values
    {
      forall id :: id in skipBlocks ==> skipBlocks[id].hash == id
    }

    /** The stored values, without the identity of the objects. */
    ghost function View(): Blocks
      reads this, skipBlocks.Values
    {
      map id | id in skipBlocks :: skipBlocks[id].Value()
    }

    /** Merge a copy into a stored block; every other stored block stays as it is. */
    method MergeInto(known: SkipBlock, sb: SkipBlock) returns (ok: bool)
      requires Valid() && known.hash in skipBlocks && skipBlocks[known.hash] == known
      modifies known`forwardLink, known`childSL
      ensures Valid()
      ensures View() == old(View())[known.hash := Merge(old(known.Value()), old(sb.Value()))]
      ensures !ok <==> |old(sb.forwardLink)| > |old(known.forwardLink)|
                       && !AllVerify(old(sb.forwardLink)[|old(known.forwardLink)|..], old(known.fix.roster))
    {
      ok := known.MergeFrom(sb);
    }

    method Store(sb: SkipBlock) returns (id: SkipBlockID)
      requires Valid()
      modifies this, skipBlocks.Values
      ensures Valid()
      ensures View() == StoreBlock(old(View()), old(sb.Value()))
      ensures id == StoreReply(old(View()), old(sb.Value()))
      ensures sb.hash == old(sb.hash) && sb.hash in skipBlocks
      ensures skipBlocks == if sb.hash in old(skipBlocks) then old(skipBlocks) else old(skipBlocks)[sb.hash := sb]
    {
      if sb.hash in skipBlocks {
        var sbOld := skipBlocks[sb.hash];
        var ok := MergeInto(sbOld, sb);
        if !ok {
          return Null;
        }
      } else {
        skipBlocks := skipBlocks[sb.hash := sb];
      }
      return sb.hash;
    }

    /** Append a forward link to a stored block. */
    method AddForwardTo(id: SkipBlockID, link: BlockLink)
      requires Valid() && id in skipBlocks
      modifies skipBlocks[id]
      ensures Valid()
      ensures View() == old(View())[id := old(View())[id].(forwardLink := old(View())[id].forwardLink + [link])]
    {
      var block := skipBlocks[id];
      assert forall x :: x in skipBlocks && x != id ==> skipBlocks[x] != block;
      block.AddForward(link);
    }

    /** A chain created under a parent block is recorded there. */
    method RecordChild(parentID: SkipBlockID, id: SkipBlockID)
      requires Valid() && parentID in skipBlocks
      modifies skipBlocks[parentID]
      ensures Valid()
      ensures View() == old(View())[parentID := AddChild(old(View())[parentID], id)]
    {
      var parent := skipBlocks[parentID];
      assert forall x :: x in skipBlocks && x != parentID ==> skipBlocks[x] != parent;
      parent.childSL := parent.childSL + [id];
    }

    /** VerifyLinks: the block's own links, its parent's list of children and its predecessor's first link. */
    method VerifyLinks(sb: SkipBlock) returns (r: Option<bool>)
      requires Valid()
      ensures r == LinksVerify(View(), sb.Value())
    {
      if |sb.fix.backLinkIDs| == 0 {
        return Some(false);
      }
      var ok := sb.VerifyForwardSignatures();
      if !ok {
        return Some(false);
      }
      ok := VerifyParent(sb);
      if !ok {
        return Some(false);
      }
      if sb.fix.index == 0 {
        return Some(true);
      }
      if sb.fix.backLinkIDs[0] !in skipBlocks {
        return Some(|sb.forwardLink| > 0);
      }
      var back := skipBlocks[sb.fix.backLinkIDs[0]];
      ok := back.VerifyForwardSignatures();
      if !ok {
        return Some(false);
      }
      if |back.forwardLink| == 0 {
        return None;
      }
      return Some(back.forwardLink[0].hash == sb.hash);
    }

    method VerifyParent(sb: SkipBlock) returns (ok: bool)
      requires Valid()
      ensures ok <==> KnownToParent(View(), sb.Value())
    {
      if sb.fix.parentBlockID == Null {
        return true;
      }
      if sb.fix.parentBlockID !in skipBlocks {
        return false;
      }
      var parent := skipBlocks[sb.fix.parentBlockID];
      ok := parent.VerifyForwardSignatures();
      if !ok {
        return false;
      }
      for i := 0 to |parent.childSL|
        invariant sb.hash !in parent.childSL[..i]
      {
        if parent.childSL[i] == sb.hash {
          return true;
        }
        assert parent.childSL[..i + 1] == parent.childSL[..i] + [parent.childSL[i]];
      }
      assert parent.childSL[..|parent.childSL|] == parent.childSL;
      return false;
    }

    /** GetLatest: a block without links is the latest itself; otherwise the end of the walk over the highest
        links, or nothing if a block is missing. The block need not be the stored copy. */
    method GetLatest(sb: SkipBlock) returns (latest: Option<SkipBlock>)
      requires Valid() && ForwardOrdered(View())
      ensures sb.forwardLink == [] ==> latest == Some(sb)
      ensures sb.forwardLink != [] ==>
                var next := sb.forwardLink[|sb.forwardLink| - 1].hash;
                && (latest.None? <==> next !in View() || Walk(View(), next).None?)
                && (latest.Some? ==>
                      var w := Walk(View(), next).value;
                      w[|w| - 1] in skipBlocks && latest.value == skipBlocks[w[|w| - 1]])
    {
      if |sb.forwardLink| == 0 {
        return Some(sb);
      }
      var next := sb.forwardLink[|sb.forwardLink| - 1].hash;
      if next !in skipBlocks {
        return None;
      }
      latest := FollowHighest(skipBlocks[next]);
    }

    /** The rest of the loop, from a stored block on. */
    method FollowHighest(sb: SkipBlock) returns (latest: Option<SkipBlock>)
      requires Valid() && ForwardOrdered(View())
      requires sb.hash in skipBlocks && skipBlocks[sb.hash] == sb
      ensures latest.None? <==> Walk(View(), sb.hash).None?
      ensures latest.Some? ==>
                var w := Walk(View(), sb.hash).value;
                w[|w| - 1] in skipBlocks && latest.value == skipBlocks[w[|w| - 1]]
    {
      var cur := sb;
      while |cur.forwardLink| > 0
        invariant cur.hash in skipBlocks && skipBlocks[cur.hash] == cur
        invariant Walk(View(), sb.hash).None? <==> Walk(View(), cur.hash).None?
        invariant Walk(View(), sb.hash).Some? ==>
                    var w, w' := Walk(View(), sb.hash).value, Walk(View(), cur.hash).value;
                    w[|w| - 1] == w'[|w'| - 1]
        decreases Later(View(), cur.fix.index)
      {
        var next := cur.forwardLink[|cur.forwardLink| - 1].hash;
        if next !in skipBlocks {
          return None;
        }
        assert next in Later(View(), cur.fix.index);
        cur := skipBlocks[next];
        assert next !in Later(View(), cur.fix.index);
      }
      return Some(cur);
    }
  }
}
