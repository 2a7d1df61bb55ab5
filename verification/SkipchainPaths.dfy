/** When the update chain follows the fewest links: exactly if its blocks have their farthest link last, so
    at every moment of a run without premature service; and its length once all requests are served. */
module SkipchainPaths {
  import opened Options
  import opened Powers
  import opened SkipIndex
  import opened SkipBlocks
  import opened Skipchain
  import opened SkipchainInvariant
  import opened SkipchainRuns
  import opened SkipchainLinks
  import opened SkipchainInOrder

  /** A path of forward links, on any levels, through the stored blocks. */
  ghost predicate ForwardPath(blocks: Blocks, p: seq<SkipBlockID>)
  {
    && |p| >= 1
    && (forall k :: 0 <= k < |p| ==> p[k] in blocks)
    && forall k: nat {:trigger PathStep(blocks, p, k)} :: k + 1 < |p| ==> PathStep(blocks, p, k)
  }

  ghost predicate PathStep(blocks: Blocks, p: seq<SkipBlockID>, k: nat)
  {
    k + 1 < |p| && p[k] in blocks && p[k + 1] in blocks && Follows(blocks[p[k]], p[k + 1])
  }

  ghost predicate Follows(blk: Block, next: SkipBlockID)
  {
    exists l :: 0 <= l < |blk.forwardLink| && blk.forwardLink[l].hash == next
  }

  /** A path of forward links from block id to the tip of its chain. */
  ghost predicate PathToTip(s: State, id: SkipBlockID, p: seq<SkipBlockID>)
    requires Inv(s) && id in s.blocks
  {
    ForwardPath(s.blocks, p) && p[0] == id && p[|p| - 1] == Tip(s, id)
  }

  /** The last forward link of a block is its farthest one. */
  predicate FarthestLast(blocks: Blocks, id: SkipBlockID)
    requires id in blocks
  {
    var f := blocks[id].forwardLink;
    forall l :: 0 <= l < |f| && f[l].hash in blocks && f[|f| - 1].hash in blocks ==>
      blocks[f[l].hash].fix.index <= blocks[f[|f| - 1].hash].fix.index
  }

  // ----- Paths of stored blocks as paths of indices ------------------------------------------------------------

  /** A link leads from a block to one of its levels. */
  lemma LinkEdge(s: State, id: SkipBlockID, l: nat) returns (e: nat)
    requires Inv(s) && id in s.blocks && l < |s.blocks[id].forwardLink|
    ensures var next, g := s.blocks[id].forwardLink[l].hash, SkipChainID(s.blocks[id]);
      && next in s.blocks && SkipChainID(s.blocks[next]) == g && g in s.chains
      && 0 <= s.blocks[id].fix.index && e < LevelsOf(s, g, s.blocks[id].fix.index)
      && s.blocks[next].fix.index == s.blocks[id].fix.index + Pow(Base(s, g), e) < |s.chains[g]|
  {
    StoredBlock(s, id);
    var g, i, next := SkipChainID(s.blocks[id]), s.blocks[id].fix.index, s.blocks[id].forwardLink[l].hash;
    ChainView(s, g, i);
    var c, b := s.chains[g], Base(s, g);
    assert LevelLink(next, c, b, MaxHeight(s, g), i, l);
    e :| l <= e < LevelsOf(s, g, i) && i + Pow(b, e) < |c| && next == c[i + Pow(b, e)];
    ChainsDisjoint(s, g, i + Pow(b, e), next);
  }

  /** The indices along a path of stored blocks. */
  ghost function Indices(s: State, p: seq<SkipBlockID>): (q: seq<nat>)
    requires Inv(s) && forall k :: 0 <= k < |p| ==> p[k] in s.blocks
    ensures |q| == |p| && forall k :: 0 <= k < |p| ==> q[k] == s.blocks[p[k]].fix.index
  {
    if p == [] then [] else
      StoredBlock(s, p[0]);
      [s.blocks[p[0]].fix.index] + Indices(s, p[1..])
  }

  lemma FollowsEdge(s: State, g: SkipBlockID, x: SkipBlockID, y: SkipBlockID)
    requires Inv(s) && x in s.blocks && y in s.blocks && Follows(s.blocks[x], y) && g == SkipChainID(s.blocks[x])
    ensures SkipChainID(s.blocks[y]) == g && 0 <= s.blocks[x].fix.index < s.blocks[y].fix.index
    ensures Edge(Base(s, g), MaxHeight(s, g), s.blocks[x].fix.index, s.blocks[y].fix.index)
  {
    var l: nat :| l < |s.blocks[x].forwardLink| && s.blocks[x].forwardLink[l].hash == y;
    var e := LinkEdge(s, x, l);
    PowPositive(Base(s, g), e);
  }

  lemma {:induction false} PathStaysInChain(s: State, g: SkipBlockID, p: seq<SkipBlockID>, k: nat)
    requires Inv(s) && ForwardPath(s.blocks, p) && k < |p| && g == SkipChainID(s.blocks[p[0]])
    ensures SkipChainID(s.blocks[p[k]]) == g
    decreases k
  {
    if k > 0 {
      PathStaysInChain(s, g, p, k - 1);
      assert PathStep(s.blocks, p, k - 1);
      FollowsEdge(s, g, p[k - 1], p[k]);
    }
  }

  lemma PathIndices(s: State, id: SkipBlockID, p: seq<SkipBlockID>)
    requires Inv(s) && id in s.blocks && PathToTip(s, id, p)
    ensures var g := SkipChainID(s.blocks[id]);
      g in s.chains && |s.chains[g]| >= 1 && IsPath(Base(s, g), MaxHeight(s, g), |s.chains[g]| - 1, Indices(s, p))
  {
    StoredBlock(s, id);
    var g, q := SkipChainID(s.blocks[id]), Indices(s, p);
    ChainsDisjoint(s, g, |s.chains[g]| - 1, Tip(s, id));
    forall k | 0 <= k < |q| - 1 ensures Edge(Base(s, g), MaxHeight(s, g), q[k], q[k + 1]) {
      PathEdge(s, g, p, k);
    }
  }

  lemma PathEdge(s: State, g: SkipBlockID, p: seq<SkipBlockID>, k: nat)
    requires Inv(s) && ForwardPath(s.blocks, p) && k + 1 < |p| && g == SkipChainID(s.blocks[p[0]])
    ensures 0 <= s.blocks[p[k]].fix.index < s.blocks[p[k + 1]].fix.index
    ensures Edge(Base(s, g), MaxHeight(s, g), s.blocks[p[k]].fix.index, s.blocks[p[k + 1]].fix.index)
  {
    PathStaysInChain(s, g, p, k);
    assert PathStep(s.blocks, p, k);
    FollowsEdge(s, g, p[k], p[k + 1]);
  }

  /** On a path to the tip there is no way around the block that a link of its first block leads to,
      unless the first step leads farther. */
  lemma PathMeets(s: State, id: SkipBlockID, p: seq<SkipBlockID>, l: nat) returns (i: nat)
    requires Inv(s) && id in s.blocks && PathToTip(s, id, p) && |p| >= 2 && l < |s.blocks[id].forwardLink|
    requires var next := s.blocks[id].forwardLink[l].hash;
      next in s.blocks && s.blocks[p[1]].fix.index <= s.blocks[next].fix.index
    ensures 1 <= i < |p| && p[i] == s.blocks[id].forwardLink[l].hash
  {
    var g, next := SkipChainID(s.blocks[id]), s.blocks[id].forwardLink[l].hash;
    var e := LinkEdge(s, id, l);
    PathIndices(s, id, p);
    PathEdge(s, g, p, 0);
    var i' := IndexMeets(Base(s, g), MaxHeight(s, g), |s.chains[g]| - 1, Indices(s, p), e);
    i := i' + 1;
    PathStaysInChain(s, g, p, i);
    SameBlock(s, p[i], next);
  }

  lemma SameBlock(s: State, x: SkipBlockID, y: SkipBlockID)
    requires Inv(s) && x in s.blocks && y in s.blocks
    requires SkipChainID(s.blocks[x]) == SkipChainID(s.blocks[y]) && s.blocks[x].fix.index == s.blocks[y].fix.index
    ensures x == y
  {
    StoredBlock(s, x);
    StoredBlock(s, y);
  }

  lemma IndexMeets(b: nat, m: nat, n: nat, q: seq<nat>, e: nat) returns (i: nat)
    requires b >= 1 && m >= 1 && IsPath(b, m, n, q) && |q| >= 2 && e < Height(b, m, q[0])
    requires q[0] < q[1] <= q[0] + Pow(b, e) <= n
    ensures i + 1 < |q| && q[i + 1] == q[0] + Pow(b, e)
  {
    HeightLevels(b, m, q[0], e);
    PathTail(b, m, n, q);
    i := VisitsMultiple(b, m, n, q[1..], q[0], e);
  }

  lemma PathSuffix(s: State, id: SkipBlockID, p: seq<SkipBlockID>, i: nat)
    requires Inv(s) && id in s.blocks && PathToTip(s, id, p) && i < |p|
    ensures p[i] in s.blocks && PathToTip(s, p[i], p[i..])
  {
    var t := p[i..];
    forall k: nat | k + 1 < |t| ensures PathStep(s.blocks, t, k) {
      assert PathStep(s.blocks, p, i + k);
    }
    PathStaysInChain(s, SkipChainID(s.blocks[id]), p, i);
  }

  // ----- When the update chain is shortest ---------------------------------------------------------------------

  lemma WalkOfTip(s: State, id: SkipBlockID)
    requires Inv(s) && ForwardOrdered(s.blocks) && id in s.blocks && Tip(s, id) == id
    ensures Walk(s.blocks, id) == Some([id])
  {
    StoredBlock(s, id);
    var g := SkipChainID(s.blocks[id]);
    ChainsDisjoint(s, g, |s.chains[g]| - 1, id);
    ChainView(s, g, |s.chains[g]| - 1);
  }

  /** If every block of the walk has its farthest link last, no path is shorter. */
  lemma {:induction false} WalkNoLonger(s: State, id: SkipBlockID, p: seq<SkipBlockID>)
    requires Inv(s) && ForwardOrdered(s.blocks) && id in s.blocks && Walk(s.blocks, id).Some?
    requires (forall x :: x in Walk(s.blocks, id).value ==> FarthestLast(s.blocks, x)) && PathToTip(s, id, p)
    ensures |Walk(s.blocks, id).value| <= |p|
    decreases |p|
  {
    if |p| == 1 {
      WalkOfTip(s, id);
    } else {
      var next, i := FirstHop(s, id, p);
      PathSuffix(s, id, p, i);
      assert Walk(s.blocks, id).value == [id] + Walk(s.blocks, next).value;
      WalkNoLonger(s, next, p[i..]);
    }
  }

  /** Every path passes the block to which the farthest link leads. */
  lemma FirstHop(s: State, id: SkipBlockID, p: seq<SkipBlockID>) returns (next: SkipBlockID, i: nat)
    requires Inv(s) && ForwardOrdered(s.blocks) && id in s.blocks && FarthestLast(s.blocks, id) && PathToTip(s, id, p) && |p| >= 2
    ensures var f := s.blocks[id].forwardLink; f != [] && next == f[|f| - 1].hash && next in s.blocks
    ensures 1 <= i < |p| && p[i] == next
  {
    var f := s.blocks[id].forwardLink;
    assert PathStep(s.blocks, p, 0);
    var e := LinkEdge(s, id, |f| - 1);
    next := f[|f| - 1].hash;
    i := PathMeets(s, id, p, |f| - 1);
  }

  lemma {:induction false} WalkFollows(blocks: Blocks, id: SkipBlockID)
    requires ForwardOrdered(blocks) && id in blocks && Walk(blocks, id).Some?
    ensures ForwardPath(blocks, Walk(blocks, id).value)
    decreases |Walk(blocks, id).value|
  {
    var f, w := blocks[id].forwardLink, Walk(blocks, id).value;
    if f != [] {
      var next := f[|f| - 1].hash;
      WalkFollows(blocks, next);
      PathCons(blocks, id, Walk(blocks, next).value);
    }
  }

  lemma PathCons(blocks: Blocks, id: SkipBlockID, p: seq<SkipBlockID>)
    requires ForwardPath(blocks, p) && id in blocks && Follows(blocks[id], p[0])
    ensures ForwardPath(blocks, [id] + p)
  {
    forall k: nat | k + 1 < |[id] + p| ensures PathStep(blocks, [id] + p, k) {
      if k > 0 { assert PathStep(blocks, p, k - 1); }
    }
  }

  lemma WalkIsPath(s: State, id: SkipBlockID)
    requires Inv(s) && ForwardOrdered(s.blocks) && id in s.blocks
    ensures Walk(s.blocks, id).Some? && PathToTip(s, id, Walk(s.blocks, id).value)
  {
    WalkReachesTip(s, id);
    WalkFollows(s.blocks, id);
  }

  /** A path on which a link jumps from block a to a later one. */
  lemma Joined(blocks: Blocks, w: seq<SkipBlockID>, a: nat, i: nat)
    requires ForwardPath(blocks, w) && a + i < |w| && Follows(blocks[w[a]], w[a + i])
    ensures ForwardPath(blocks, w[..a + 1] + w[a + i..])
  {
    var p := w[..a + 1] + w[a + i..];
    forall k: nat | k + 1 < |p| ensures PathStep(blocks, p, k) {
      if k < a {
        assert PathStep(blocks, w, k);
      } else if k > a {
        assert PathStep(blocks, w, k + i - 1);
      }
    }
  }

  /** A block of the walk whose last link is not the farthest makes a shorter path. */
  lemma Shortcut(s: State, id: SkipBlockID, w: seq<SkipBlockID>, a: nat, l: nat) returns (p: seq<SkipBlockID>)
    requires Inv(s) && id in s.blocks && PathToTip(s, id, w) && a + 1 < |w| && l < |s.blocks[w[a]].forwardLink|
    requires var next := s.blocks[w[a]].forwardLink[l].hash;
      next in s.blocks && s.blocks[w[a + 1]].fix.index < s.blocks[next].fix.index
    ensures PathToTip(s, id, p) && |p| < |w|
  {
    PathSuffix(s, id, w, a);
    var i := PathMeets(s, w[a], w[a..], l);
    Joined(s.blocks, w, a, i);
    p := w[..a + 1] + w[a + i..];
  }

  /** Where on the walk the last link is not the farthest. */
  lemma WrongTurn(blocks: Blocks, id: SkipBlockID, x: SkipBlockID) returns (a: nat, l: nat)
    requires ForwardOrdered(blocks) && id in blocks && Walk(blocks, id).Some?
    requires x in Walk(blocks, id).value && !FarthestLast(blocks, x)
    ensures var w := Walk(blocks, id).value;
      && a + 1 < |w| && w[a] == x && l < |blocks[x].forwardLink| && blocks[x].forwardLink[l].hash in blocks
      && blocks[w[a + 1]].fix.index < blocks[blocks[x].forwardLink[l].hash].fix.index
  {
    var w, f := Walk(blocks, id).value, blocks[x].forwardLink;
    WalkSteps(blocks, id);
    a :| a < |w| && w[a] == x;
    assert WalkStep(blocks, w, a);
    l :| l < |f| && f[l].hash in blocks && f[|f| - 1].hash in blocks
      && blocks[f[l].hash].fix.index > blocks[f[|f| - 1].hash].fix.index;
  }

  lemma WalkTooLong(s: State, id: SkipBlockID, x: SkipBlockID) returns (p: seq<SkipBlockID>)
    requires Inv(s) && ForwardOrdered(s.blocks) && id in s.blocks && Walk(s.blocks, id).Some?
    requires x in Walk(s.blocks, id).value && !FarthestLast(s.blocks, x)
    ensures PathToTip(s, id, p) && |p| < |Walk(s.blocks, id).value|
  {
    var a, l := WrongTurn(s.blocks, id, x);
    WalkIsPath(s, id);
    p := Shortcut(s, id, Walk(s.blocks, id).value, a, l);
  }

  /** In every reachable state: the update chain from a block follows the fewest forward links of any path
      to the tip exactly if every block on it has its farthest link last. */
  lemma UpdateChainShortestIff(s: State, id: SkipBlockID)
    requires Reachable(s) && id in s.blocks
    ensures Inv(s) && ForwardOrdered(s.blocks) && Walk(s.blocks, id).Some?
    ensures (forall p :: PathToTip(s, id, p) ==> |Walk(s.blocks, id).value| <= |p|)
      <==> forall x :: x in Walk(s.blocks, id).value ==> FarthestLast(s.blocks, x)
  {
    ReachableInv(s);
    InvForwardOrdered(s);
    WalkReachesTip(s, id);
    if x :| x in Walk(s.blocks, id).value && !FarthestLast(s.blocks, x) {
      var p := WalkTooLong(s, id, x);
    } else {
      forall p | PathToTip(s, id, p) ensures |Walk(s.blocks, id).value| <= |p| { WalkNoLonger(s, id, p); }
    }
  }

  /** Links on the positions of their levels lead farther and farther. */
  lemma ExactFarthest(s: State, id: SkipBlockID)
    requires Inv(s) && AllExact(s) && id in s.blocks
    ensures FarthestLast(s.blocks, id)
  {
    StoredBlock(s, id);
    var g, i, f := SkipChainID(s.blocks[id]), s.blocks[id].fix.index, s.blocks[id].forwardLink;
    forall l | 0 <= l < |f| && f[l].hash in s.blocks && f[|f| - 1].hash in s.blocks
      ensures s.blocks[f[l].hash].fix.index <= s.blocks[f[|f| - 1].hash].fix.index
    {
      LinkIndex(s, g, i, l);
      LinkIndex(s, g, i, |f| - 1);
      PowMonotone(Base(s, g), l, |f| - 1);
    }
  }

  lemma LinkIndex(s: State, g: SkipBlockID, i: nat, l: nat)
    requires Inv(s) && AllExact(s) && g in s.chains && i < |s.chains[g]| && l < |Links(s, g, i)|
    ensures var y := Links(s, g, i)[l].hash; y in s.blocks && s.blocks[y].fix.index == i + Pow(Base(s, g), l)
  {
    assert ExactAt(s, g, i, l);
    var k := i + Pow(Base(s, g), l);
    ChainsDisjoint(s, g, k, s.chains[g][k]);
  }

  /** So at every moment of every run without premature service, with any requests lost or delayed, the
      update chain from block j to the tip follows the fewest forward links of any path from j to the tip. */
  lemma UpdateChainShortest(s: State, g: SkipBlockID, j: nat, p: seq<SkipBlockID>)
    requires InTime(s) && g in s.chains && j < |s.chains[g]|
    requires ForwardPath(s.blocks, p) && p[0] == s.chains[g][j] && p[|p| - 1] == s.chains[g][|s.chains[g]| - 1]
    ensures ForwardOrdered(s.blocks) && Walk(s.blocks, s.chains[g][j]).Some?
    ensures |Walk(s.blocks, s.chains[g][j]).value| <= |p|
  {
    InTimeExact(s);
    ChainTip(s, g, j);
    ExactShortest(s, s.chains[g][j], p);
  }

  lemma ChainTip(s: State, g: SkipBlockID, j: nat)
    requires Inv(s) && g in s.chains && j < |s.chains[g]|
    ensures s.chains[g][j] in s.blocks && Tip(s, s.chains[g][j]) == s.chains[g][|s.chains[g]| - 1]
  {
    ChainsDisjoint(s, g, j, s.chains[g][j]);
  }

  lemma ExactShortest(s: State, id: SkipBlockID, p: seq<SkipBlockID>)
    requires Inv(s) && AllExact(s) && id in s.blocks && PathToTip(s, id, p)
    ensures ForwardOrdered(s.blocks) && Walk(s.blocks, id).Some? && |Walk(s.blocks, id).value| <= |p|
  {
    InvForwardOrdered(s);
    WalkReachesTip(s, id);
    forall x | x in Walk(s.blocks, id).value ensures FarthestLast(s.blocks, x) { ExactFarthest(s, x); }
    WalkNoLonger(s, id, p);
  }

  // ----- The bound once settled ------------------------------------------------------------------------------------

  lemma HopWalk(s: State, g: SkipBlockID, j: nat, k: nat)
    requires Inv(s) && ForwardOrdered(s.blocks) && g in s.chains && j < |s.chains[g]| && k < |s.chains[g]| && HighestTo(s, g, j, k)
    ensures s.chains[g][j] in s.blocks && s.chains[g][k] in s.blocks
    ensures Walk(s.blocks, s.chains[g][k]).Some? ==>
      && Walk(s.blocks, s.chains[g][j]).Some?
      && |Walk(s.blocks, s.chains[g][j]).value| == 1 + |Walk(s.blocks, s.chains[g][k]).value|
  {
    OnChain(s, g, j);
    OnChain(s, g, k);
  }

  /** The highest link of block j leads to block k. */
  ghost predicate HighestTo(s: State, g: SkipBlockID, j: nat, k: nat)
    requires g in s.chains && k < |s.chains[g]|
  {
    Links(s, g, j) != [] && Links(s, g, j)[|Links(s, g, j)| - 1].hash == s.chains[g][k]
  }

  lemma HighestLink(s: State, g: SkipBlockID, j: nat, f: nat) returns (k: nat)
    requires AllExact(s) && g in s.chains && j < |s.chains[g]| && f + 1 == |Links(s, g, j)|
    ensures k == j + Pow(Base(s, g), f) && k < |s.chains[g]| && HighestTo(s, g, j, k)
  {
    assert ExactAt(s, g, j, f);
    k := j + Pow(Base(s, g), f);
  }

  lemma OnChain(s: State, g: SkipBlockID, i: nat)
    requires Inv(s) && g in s.chains && i < |s.chains[g]|
    ensures s.chains[g][i] in s.blocks
  {
    ChainView(s, g, i);
  }

  lemma TipWalk(s: State, g: SkipBlockID)
    requires Inv(s) && ForwardOrdered(s.blocks) && g in s.chains && |s.chains[g]| >= 1
    ensures var tip := s.chains[g][|s.chains[g]| - 1];
      tip in s.blocks && Walk(s.blocks, tip) == Some([tip])
  {
    ChainView(s, g, |s.chains[g]| - 1);
  }

  lemma CompleteExact(s: State)
    requires AllComplete(s)
    ensures AllExact(s)
  {
    forall g, i: nat, l: nat | g in s.chains && i < |s.chains[g]| ensures ExactAt(s, g, i, l) {
      assert CompleteAt(s, g, i);
    }
  }

  lemma HopsOf(b: nat, m: nat, n: nat, j: nat, f: nat, k: nat)
    requires b >= 1 && m >= 1 && j < n && f + 1 == LinkCount(b, m, n, j) && k == j + Pow(b, f)
    ensures j < k <= n && Hops(b, m, n, j) == 1 + Hops(b, m, n, k)
  {
    assert Hop(b, m, n, j) == k;
  }

  lemma CompleteCount(s: State, g: SkipBlockID, j: nat) returns (f: nat)
    requires g in s.chains && j + 1 < |s.chains[g]| && CompleteAt(s, g, j)
    ensures f + 1 == |Links(s, g, j)| == LinkCount(Base(s, g), MaxHeight(s, g), |s.chains[g]| - 1, j)
  {
    LinkCountLevels(Base(s, g), MaxHeight(s, g), |s.chains[g]| - 1, j, 0);
    f := |Links(s, g, j)| - 1;
  }

  /** With complete links, the update chain from block j is as long as the greedy walk. */
  lemma {:induction false} CompleteWalkLength(s: State, g: SkipBlockID, j: nat)
    requires Inv(s) && ForwardOrdered(s.blocks) && AllComplete(s) && AllExact(s) && g in s.chains && j < |s.chains[g]|
    ensures s.chains[g][j] in s.blocks && Walk(s.blocks, s.chains[g][j]).Some?
    ensures |Walk(s.blocks, s.chains[g][j]).value| == Hops(Base(s, g), MaxHeight(s, g), |s.chains[g]| - 1, j) + 1
    decreases |s.chains[g]| - j
  {
    var b, m, n := Base(s, g), MaxHeight(s, g), |s.chains[g]| - 1;
    if j == n {
      TipWalk(s, g);
    } else {
      var k := NextHop(s, g, j);
      CompleteWalkLength(s, g, k);
    }
  }

  /** Both the update chain and the greedy walk make the same hop. */
  lemma NextHop(s: State, g: SkipBlockID, j: nat) returns (k: nat)
    requires Inv(s) && ForwardOrdered(s.blocks) && AllComplete(s) && AllExact(s) && g in s.chains && j + 1 < |s.chains[g]|
    ensures j < k < |s.chains[g]| && s.chains[g][j] in s.blocks && s.chains[g][k] in s.blocks
    ensures var b, m, n := Base(s, g), MaxHeight(s, g), |s.chains[g]| - 1; Hops(b, m, n, j) == 1 + Hops(b, m, n, k)
    ensures Walk(s.blocks, s.chains[g][k]).Some? ==>
      && Walk(s.blocks, s.chains[g][j]).Some?
      && |Walk(s.blocks, s.chains[g][j]).value| == 1 + |Walk(s.blocks, s.chains[g][k]).value|
  {
    var f := CompleteCount(s, g, j) by { assert CompleteAt(s, g, j); }
    k := HighestLink(s, g, j, f);
    HopsOf(Base(s, g), MaxHeight(s, g), |s.chains[g]| - 1, j, f, k);
    HopWalk(s, g, j, k);
  }

  lemma HopsBounded(b: nat, m: nat, n: nat, j: nat, hops: nat)
    requires b >= 1 && m >= 1 && j <= n && hops == Hops(b, m, n, j)
    ensures Pow(b, m - 1) >= 1 && hops <= 2 * (b - 1) * (m - 1) + (n - j) / Pow(b, m - 1)
  {
    HopBound(b, m, n, j);
  }

  lemma CompleteLength(s: State, g: SkipBlockID, j: nat, b: nat, m: nat)
    requires Inv(s) && AllComplete(s) && g in s.chains && j < |s.chains[g]|
    requires b == Base(s, g) && m == MaxHeight(s, g)
    ensures ForwardOrdered(s.blocks) && s.chains[g][j] in s.blocks && Walk(s.blocks, s.chains[g][j]).Some?
    ensures Pow(b, m - 1) >= 1
    ensures |Walk(s.blocks, s.chains[g][j]).value| - 1 <= 2 * (b - 1) * (m - 1) + (|s.chains[g]| - 1 - j) / Pow(b, m - 1)
  {
    InvForwardOrdered(s);
    CompleteExact(s);
    CompleteWalkLength(s, g, j);
    HopsBounded(b, m, |s.chains[g]| - 1, j, |Walk(s.blocks, s.chains[g][j]).value| - 1);
  }

  /** Once settled, the update chain from block j follows at most 2(b-1)(m-1) + (tip - j)/b^(m-1) links. */
  lemma UpdateChainLength(s: State, g: SkipBlockID, j: nat, b: nat, m: nat)
    requires Settled(s) && g in s.chains && j < |s.chains[g]|
    requires b == Base(s, g) && m == MaxHeight(s, g)
    ensures ForwardOrdered(s.blocks) && s.chains[g][j] in s.blocks && Walk(s.blocks, s.chains[g][j]).Some?
    ensures Pow(b, m - 1) >= 1
    ensures |Walk(s.blocks, s.chains[g][j]).value| - 1 <= 2 * (b - 1) * (m - 1) + (|s.chains[g]| - 1 - j) / Pow(b, m - 1)
  {
    SettledComplete(s);
    CompleteLength(s, g, j, b, m);
  }
}
