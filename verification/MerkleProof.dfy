/** Merkle proof trees with sorted-pair hashing and zero padding. */
module MerkleProof {
  import opened Options
  import opened Powers

  type Bytes = seq<bv8>

  /** A hash identifier; None is the nil slice. */
  type HashID = Option<Bytes>

  function BytesOf(id: HashID): Bytes
  {
    if id.None? then [] else id.value
  }

  // ----- Hashing a pair of nodes ------------------------------------------------------------

  /** Lexicographic order on byte strings. */
  predicate LexLeq(a: Bytes, b: Bytes)
  {
    a == [] || (b != [] && (a[0] < b[0] || (a[0] == b[0] && LexLeq(a[1..], b[1..]))))
  }

  lemma {:induction false} LexTotal(a: Bytes, b: Bytes)
    ensures LexLeq(a, b) || LexLeq(b, a)
    ensures LexLeq(a, b) && LexLeq(b, a) ==> a == b
  {
    if a != [] && b != [] {
      LexTotal(a[1..], b[1..]);
      assert a == [a[0]] + a[1..] && b == [b[0]] + b[1..];
    }
  }

  /** The string that is hashed for two nodes: the smaller one first. */
  function Pair(a: Bytes, b: Bytes): Bytes
  {
    if LexLeq(a, b) then a + b else b + a
  }

  function HashNode(h: Bytes -> Bytes, left: Bytes, right: Bytes): Bytes
  {
    h(Pair(left, right))
  }

  /** The first byte that differs decides the order; a proper prefix is smaller. */
  lemma {:induction false} LexDecided(a: Bytes, b: Bytes, k: nat)
    requires k <= |a| && k <= |b| && a[..k] == b[..k]
    ensures k == |a| ==> LexLeq(a, b)
    ensures k == |b| < |a| ==> !LexLeq(a, b)
    ensures k < |a| && k < |b| && a[k] != b[k] ==> (LexLeq(a, b) <==> a[k] < b[k])
    decreases k
  {
    if k > 0 {
      assert a[0] == a[..k][0] == b[..k][0] == b[0];
      assert a[1..][..k - 1] == a[..k][1..] == b[..k][1..] == b[1..][..k - 1];
      LexDecided(a[1..], b[1..], k - 1);
    }
  }

  /** Two nodes are hashed with the one first whose first differing byte is smaller, or that is a prefix. */
  lemma PairSorted(a: Bytes, b: Bytes, k: nat)
    requires k <= |a| && k <= |b| && a[..k] == b[..k]
    requires k == |a| || (k < |b| && a[k] < b[k])
    ensures Pair(a, b) == a + b == Pair(b, a)
  {
    LexDecided(a, b, k);
    LexTotal(a, b);
  }

  lemma PairSymmetric(a: Bytes, b: Bytes)
    ensures Pair(a, b) == Pair(b, a)
  {
    LexTotal(a, b);
  }

  /** Pairs of nodes of equal length determine the nodes up to their order. */
  lemma PairDetermines(a: Bytes, b: Bytes, c: Bytes, d: Bytes)
    requires |a| == |c| == |d| && Pair(a, b) == Pair(c, d)
    ensures (a == c && b == d) || (a == d && b == c)
  {
    assert |Pair(a, b)| == |a| + |b| && |Pair(c, d)| == |c| + |d|;
    var s := Pair(a, b);
    assert (s[..|a|] == a && s[|a|..] == b) || (s[..|a|] == b && s[|a|..] == a);
    assert (s[..|a|] == c && s[|a|..] == d) || (s[..|a|] == d && s[|a|..] == c);
  }

  // ----- The tree over a list of leaves --------------------------------------------------------

  datatype Tree = Leaf(id: Bytes) | Node(left: Tree, right: Tree)

  function Hash(h: Bytes -> Bytes, t: Tree): Bytes
  {
    match t
    case Leaf(id) => id
    case Node(l, r) => HashNode(h, Hash(h, l), Hash(h, r))
  }

  function LeafAt(lv: seq<HashID>, i: nat): Bytes
  {
    if i < |lv| then BytesOf(lv[i]) else []
  }

  /** The j-th subtree of height k: it covers the leaves j * 2^k to (j + 1) * 2^k - 1. */
  function Sub(lv: seq<HashID>, k: nat, j: nat): Tree
  {
    if k == 0 then Leaf(LeafAt(lv, j)) else Node(Sub(lv, k - 1, 2 * j), Sub(lv, k - 1, 2 * j + 1))
  }

  function Root(h: Bytes -> Bytes, lv: seq<HashID>, d: nat): Bytes
  {
    Hash(h, Sub(lv, d, 0))
  }

  function Sibling(i: nat): nat
  {
    if i % 2 == 1 then i - 1 else i + 1
  }

  lemma SiblingEven(i: nat, n: nat)
    requires i < 2 * n
    ensures Sibling(i) < 2 * n
  {
  }

  lemma SiblingBound(i: nat, d: nat)
    requires i < Pow2(d) && d > 0
    ensures Sibling(i) < Pow2(d)
  {
    SiblingEven(i, Pow2(d - 1));
  }

  /** i >> d */
  function Shr(i: nat, d: nat): nat
  {
    if d == 0 then i else Shr(i, d - 1) / 2
  }

  /** The siblings on the way from leaf i up to its ancestor at height d, the highest first. */
  function ProofFor(h: Bytes -> Bytes, lv: seq<HashID>, d: nat, i: nat): (p: seq<Bytes>)
    ensures |p| == d
  {
    if d == 0 then [] else
      [Hash(h, Sub(lv, d - 1, Sibling(Shr(i, d - 1))))] + ProofFor(h, lv, d - 1, i)
  }

  // ----- Checking a proof ------------------------------------------------------------------------

  /** Calc from the root's side: the first element of a proof is the sibling just below the root. */
  function CalcSpec(h: Bytes -> Bytes, p: seq<Bytes>, leaf: Bytes): Bytes
  {
    if p == [] then leaf else HashNode(h, CalcSpec(h, p[1..], leaf), p[0])
  }

  /** Proof.Calc climbs from the leaf. */
  method Calc(h: Bytes -> Bytes, p: seq<Bytes>, leaf: Bytes) returns (r: Bytes)
    ensures r == CalcSpec(h, p, leaf)
  {
    r := leaf;
    var i := |p|;
    while i > 0
      invariant 0 <= i <= |p|
      invariant r == CalcSpec(h, p[i..], leaf)
    {
      assert p[i - 1..][1..] == p[i..];
      i := i - 1;
      r := HashNode(h, r, p[i]);
    }
  }

  /** Proof.Check. */
  method Check(h: Bytes -> Bytes, p: seq<Bytes>, root: Bytes, leaf: Bytes) returns (ok: bool)
    ensures ok <==> CalcSpec(h, p, leaf) == root
  {
    var chk := Calc(h, p, leaf);
    ok := chk == root;
  }

  /** A node and its sibling hash to their parent. */
  lemma ParentHash(h: Bytes -> Bytes, lv: seq<HashID>, k: nat, c: nat)
    ensures Hash(h, Sub(lv, k + 1, c / 2)) == HashNode(h, Hash(h, Sub(lv, k, c)), Hash(h, Sub(lv, k, Sibling(c))))
  {
    PairSymmetric(Hash(h, Sub(lv, k, c)), Hash(h, Sub(lv, k, Sibling(c))));
    assert Sub(lv, k + 1, c / 2) == Node(Sub(lv, k, 2 * (c / 2)), Sub(lv, k, 2 * (c / 2) + 1));
  }

  /** Every proof leads from its leaf to the ancestor. */
  lemma {:induction false} ProofLeadsUp(h: Bytes -> Bytes, lv: seq<HashID>, d: nat, i: nat)
    ensures CalcSpec(h, ProofFor(h, lv, d, i), LeafAt(lv, i)) == Hash(h, Sub(lv, d, Shr(i, d)))
  {
    if d > 0 {
      ProofLeadsUp(h, lv, d - 1, i);
      ParentHash(h, lv, d - 1, Shr(i, d - 1));
      assert ProofFor(h, lv, d, i)[1..] == ProofFor(h, lv, d - 1, i);
    }
  }

  // ----- ProofTree ------------------------------------------------------------------------------

  lemma {:induction false} ShrBound(i: nat, n: nat, d: nat)
    requires d <= n
    ensures Shr(i, d) < Pow2(n - d) <==> i < Pow2(n)
  {
    if d > 0 { ShrBound(i, n, d - 1); }
  }

  /** The depth of the tree over n leaves: the least d with 2^d >= n. */
  function Depth(n: nat): (d: nat)
    ensures n <= Pow2(d) && (d > 0 ==> Pow2(d - 1) < n)
  {
    if n <= 1 then 0 else 1 + Depth((n + 1) / 2)
  }

  method TreeDepth(n: nat) returns (depth: nat, size: nat)
    requires n > 0
    ensures depth == Depth(n) && size == Pow2(depth)
  {
    depth, size := 0, 1;
    while size < n
      invariant size == Pow2(depth) && (depth > 0 ==> Pow2(depth - 1) < n)
      decreases n - size
    {
      depth, size := depth + 1, 2 * size;
    }
    if depth < Depth(n) { Pow2Monotone(depth, Depth(n) - 1); }
    if Depth(n) < depth { Pow2Monotone(Depth(n), depth - 1); }
  }

  function Zeros(size: nat): (z: Bytes)
    ensures |z| == size && forall i :: 0 <= i < size ==> z[i] == 0
  {
    seq(size, i => 0)
  }

  function PadTo(leaves: seq<HashID>, size: nat, n: nat): (lv: seq<HashID>)
    requires |leaves| <= n
    ensures |lv| == n && lv[..|leaves|] == leaves
    ensures forall i :: |leaves| <= i < n ==> lv[i] == Some(Zeros(size))
  {
    leaves + seq(n - |leaves|, i => Some(Zeros(size)))
  }

  /** The leaves of ProofTree: filled up with zeros to a power of two. */
  function Padded(leaves: seq<HashID>, size: nat): (lv: seq<HashID>)
    ensures |lv| == Pow2(Depth(|leaves|))
  {
    PadTo(leaves, size, Pow2(Depth(|leaves|)))
  }

  /** One stored level: the hashes of all subtrees of height k. Only leaves may be nil. */
  ghost predicate LevelOK(h: Bytes -> Bytes, lv: seq<HashID>, k: nat, level: seq<HashID>)
  {
    && (forall j :: 0 <= j < |level| ==> BytesOf(level[j]) == Hash(h, Sub(lv, k, j)))
    && (k == 0 ==> level == lv)
    && (k > 0 ==> forall j :: 0 <= j < |level| ==> level[j].Some?)
  }

  /** The inner loop of ProofTree: hash neighbouring identifiers. */
  method NextLevel(h: Bytes -> Bytes, ghost lv: seq<HashID>, ghost k: nat, tprev: seq<HashID>) returns (tnext: seq<HashID>)
    requires LevelOK(h, lv, k, tprev) && |tprev| % 2 == 0
    ensures LevelOK(h, lv, k + 1, tnext) && |tnext| == |tprev| / 2
  {
    tnext := [];
    for i := 0 to |tprev| / 2
      invariant |tnext| == i
      invariant LevelOK(h, lv, k + 1, tnext)
    {
      tnext := tnext + [Some(HashNode(h, BytesOf(tprev[2 * i]), BytesOf(tprev[2 * i + 1])))];
    }
  }

  /** The stored tree below and including level `from`: level t holds 2^t identifiers. */
  ghost predicate TreeOK(h: Bytes -> Bytes, tree: seq<seq<HashID>>, lv: seq<HashID>, depth: nat, from: nat)
  {
    && |tree| == depth + 1 && from <= depth
    && forall t :: from <= t <= depth ==> |tree[t]| == Pow2(t) && LevelOK(h, lv, depth - t, tree[t])
  }

  /** The levels of the tree; the single root is what the "oops" test asks for. */
  method BuildTree(h: Bytes -> Bytes, lv: seq<HashID>, depth: nat) returns (tree: seq<seq<HashID>>)
    requires |lv| == Pow2(depth)
    ensures TreeOK(h, tree, lv, depth, 0) && |tree[0]| == 1
  {
    tree := seq(depth, i => []) + [lv];
    var d := depth;
    while d > 0
      invariant 0 <= d <= depth
      invariant TreeOK(h, tree, lv, depth, d)
    {
      var tnext := NextLevel(h, lv, depth - d, tree[d]);
      d := d - 1;
      tree := tree[d := tnext];
    }
  }

  /** The proof that ProofTree stores for a leaf: nil identifiers are left out. */
  function StoredProof(h: Bytes -> Bytes, lv: seq<HashID>, d: nat, i: nat): seq<Bytes>
    requires i < |lv| == Pow2(d)
  {
    var p := ProofFor(h, lv, d, i);
    if d == 0 then p
    else
      SiblingBound(i, d);
      if lv[Sibling(i)].None? then p[..d - 1] else p
  }

  /** The element of a proof at height d. */
  lemma {:induction false} ProofAt(h: Bytes -> Bytes, lv: seq<HashID>, depth: nat, d: nat, i: nat)
    requires d < depth
    ensures ProofFor(h, lv, depth, i)[depth - 1 - d] == Hash(h, Sub(lv, d, Sibling(Shr(i, d))))
  {
    if d < depth - 1 { ProofAt(h, lv, depth - 1, d, i); }
  }

  lemma LevelAt(h: Bytes -> Bytes, tree: seq<seq<HashID>>, lv: seq<HashID>, depth: nat, d: nat, i: nat)
    requires i < |lv| == Pow2(depth) && TreeOK(h, tree, lv, depth, 0) && d < depth
    ensures var level, at := tree[depth - d], Sibling(Shr(i, d));
      && at < |level| && BytesOf(level[at]) == ProofFor(h, lv, depth, i)[depth - 1 - d]
      && (d > 0 ==> level[at].Some?) && (d == 0 ==> level == lv && at == Sibling(i))
  {
    SiblingInLevel(i, depth, d);
    ProofAt(h, lv, depth, d, i);
    assert LevelOK(h, lv, d, tree[depth - d]);
  }

  lemma SiblingInLevel(i: nat, depth: nat, d: nat)
    requires i < Pow2(depth) && d < depth
    ensures Sibling(Shr(i, d)) < Pow2(depth - d)
  {
    ShrBound(i, depth, d);
    SiblingBound(Shr(i, d), depth - d);
  }

  method BuildProof(h: Bytes -> Bytes, tree: seq<seq<HashID>>, ghost lv: seq<HashID>, depth: nat, i: nat) returns (p: seq<Bytes>)
    requires i < |lv| == Pow2(depth) && TreeOK(h, tree, lv, depth, 0)
    ensures p == StoredProof(h, lv, depth, i)
  {
    p := [];
    ghost var full := ProofFor(h, lv, depth, i);
    var d := depth;
    while d > 0
      invariant 0 <= d <= depth
      invariant d > 0 ==> p == full[..depth - d]
      invariant d == 0 ==> p == StoredProof(h, lv, depth, i)
    {
      d := d - 1;
      LevelAt(h, tree, lv, depth, d, i);
      var id := tree[depth - d][Sibling(Shr(i, d))];
      assert full[..depth - d] == full[..depth - d - 1] + [full[depth - 1 - d]];
      if id.Some? {
        p := p + [id.value];
      }
    }
  }

  /** The proofs of the first n leaves. */
  function StoredProofs(h: Bytes -> Bytes, lv: seq<HashID>, depth: nat, n: nat): (r: seq<seq<Bytes>>)
    requires n <= |lv| == Pow2(depth)
    ensures |r| == n && forall i :: 0 <= i < n ==> r[i] == StoredProof(h, lv, depth, i)
  {
    if n == 0 then [] else StoredProofs(h, lv, depth, n - 1) + [StoredProof(h, lv, depth, n - 1)]
  }

  method BuildProofs(h: Bytes -> Bytes, tree: seq<seq<HashID>>, ghost lv: seq<HashID>, depth: nat, n: nat) returns (proofs: seq<seq<Bytes>>)
    requires n <= |lv| == Pow2(depth) && TreeOK(h, tree, lv, depth, 0)
    ensures proofs == StoredProofs(h, lv, depth, n)
  {
    proofs := [];
    for i := 0 to n
      invariant proofs == StoredProofs(h, lv, depth, i)
    {
      var p := BuildProof(h, tree, lv, depth, i);
      proofs := proofs + [p];
    }
  }

  /**
    * ProofTree: the root of the tree over the padded leaves and one proof per given leaf. With no
    * leaves the root is the empty string.
    */
  method ProofTree(h: Bytes -> Bytes, size: nat, leaves: seq<HashID>) returns (root: HashID, proofs: seq<seq<Bytes>>)
    ensures |proofs| == |leaves|
    ensures leaves == [] ==> root == Some([])
    ensures leaves != [] ==> BytesOf(root) == Root(h, Padded(leaves, size), Depth(|leaves|))
    ensures forall i :: 0 <= i < |leaves| ==> proofs[i] == StoredProof(h, Padded(leaves, size), Depth(|leaves|), i)
  {
    if |leaves| == 0 {
      return Some([]), [];
    }
    var d, nleaves := TreeDepth(|leaves|);
    var lv := leaves;
    while |lv| < nleaves
      invariant |leaves| <= |lv| <= nleaves
      invariant lv == PadTo(leaves, size, |lv|)
    {
      assert PadTo(leaves, size, |lv| + 1) == lv + [Some(Zeros(size))];
      lv := lv + [Some(Zeros(size))];
    }
    var tree := BuildTree(h, lv, d);
    root := tree[0][0];
    proofs := BuildProofs(h, tree, lv, d, |leaves|);
  }
}
