/**
  * What a Merkle root and a Merkle proof say about the leaves. Collision freedom is asked for only on
  * the finite set of strings that the tree and the proof under test hash.
  */
module MerkleMeaning {
  import opened Options
  import opened Powers
  import opened MerkleProof

  // ----- Collision freedom on the hashed strings ----------------------------------------------

  ghost function TreeInputs(h: Bytes -> Bytes, t: Tree): set<Bytes>
  {
    match t
    case Leaf(_) => {}
    case Node(l, r) => TreeInputs(h, l) + TreeInputs(h, r) + {Pair(Hash(h, l), Hash(h, r))}
  }

  ghost function CalcInputs(h: Bytes -> Bytes, p: seq<Bytes>, leaf: Bytes): set<Bytes>
  {
    if p == [] then {} else CalcInputs(h, p[1..], leaf) + {Pair(CalcSpec(h, p[1..], leaf), p[0])}
  }

  ghost predicate Distinguished(h: Bytes -> Bytes, x: Bytes, y: Bytes)
  {
    h(x) == h(y) ==> x == y
  }

  /** On these strings the hash has no collision and outputs of one length. */
  ghost predicate CollisionFree(h: Bytes -> Bytes, inputs: set<Bytes>, size: nat)
  {
    && (forall x, y {:trigger Distinguished(h, x, y)} :: x in inputs && y in inputs ==> Distinguished(h, x, y))
    && forall x {:trigger h(x)} :: x in inputs ==> |h(x)| == size
  }

  /** Every string that the tree hashes is among these. */
  ghost predicate Within(h: Bytes -> Bytes, t: Tree, inputs: set<Bytes>)
  {
    t.Leaf? || (Pair(Hash(h, t.left), Hash(h, t.right)) in inputs && Within(h, t.left, inputs) && Within(h, t.right, inputs))
  }

  lemma {:induction false} InputsWithin(h: Bytes -> Bytes, t: Tree, inputs: set<Bytes>)
    requires TreeInputs(h, t) <= inputs
    ensures Within(h, t, inputs)
  {
    if t.Node? {
      assert Pair(Hash(h, t.left), Hash(h, t.right)) in TreeInputs(h, t);
      InputsWithin(h, t.left, inputs);
      InputsWithin(h, t.right, inputs);
    }
  }

  ghost predicate Known(h: Bytes -> Bytes, lv: seq<HashID>, d: nat, j: nat, inputs: set<Bytes>)
  {
    Within(h, Sub(lv, d, j), inputs)
  }

  lemma KnownBelow(h: Bytes -> Bytes, lv: seq<HashID>, k: nat, j: nat, inputs: set<Bytes>)
    requires Known(h, lv, k + 1, j, inputs)
    ensures Known(h, lv, k, 2 * j, inputs) && Known(h, lv, k, 2 * j + 1, inputs)
    ensures Pair(Hash(h, Sub(lv, k, 2 * j)), Hash(h, Sub(lv, k, 2 * j + 1))) in inputs
  {
    var t := Sub(lv, k + 1, j);
    assert t == Node(Sub(lv, k, 2 * j), Sub(lv, k, 2 * j + 1));
  }

  lemma SubSize(h: Bytes -> Bytes, lv: seq<HashID>, k: nat, j: nat, size: nat, inputs: set<Bytes>)
    requires CollisionFree(h, inputs, size) && Known(h, lv, k + 1, j, inputs)
    ensures |Hash(h, Sub(lv, k + 1, j))| == size
  {
    KnownBelow(h, lv, k, j, inputs);
  }

  lemma CalcKnown(h: Bytes -> Bytes, p: seq<Bytes>, leaf: Bytes, size: nat, inputs: set<Bytes>)
    requires p != [] && CollisionFree(h, inputs, size) && CalcInputs(h, p, leaf) <= inputs
    ensures CalcInputs(h, p[1..], leaf) <= inputs && |CalcSpec(h, p, leaf)| == size
    ensures Pair(CalcSpec(h, p[1..], leaf), p[0]) in inputs
  {
    assert Pair(CalcSpec(h, p[1..], leaf), p[0]) in CalcInputs(h, p, leaf);
  }

  // ----- A proof that is accepted is the proof of a leaf -----------------------------------------

  /**
    * The leaf and its sibling concatenate to the same string as the two neighbours 2 * k and 2 * k + 1
    * do, and the rest of the proof is the tree's own.
    */
  ghost predicate PairProof(h: Bytes -> Bytes, lv: seq<HashID>, d: nat, p: seq<Bytes>, leaf: Bytes, k: nat)
    requires |p| == d + 1
  {
    && Pair(leaf, p[d]) == Pair(LeafAt(lv, 2 * k), LeafAt(lv, 2 * k + 1))
    && p[..d] == ProofFor(h, lv, d + 1, 2 * k)[..d]
  }

  /** The value below an accepted proof's first element is that of a child, the element its sibling's. */
  lemma AcceptedChild(h: Bytes -> Bytes, lv: seq<HashID>, d: nat, j: nat, below: Bytes, other: Bytes, size: nat, inputs: set<Bytes>)
    returns (c: nat)
    requires CollisionFree(h, inputs, size) && Known(h, lv, d + 2, j, inputs)
    requires |below| == size && Pair(below, other) in inputs
    requires HashNode(h, below, other) == Hash(h, Sub(lv, d + 2, j))
    ensures c / 2 == j && Known(h, lv, d + 1, c, inputs)
    ensures below == Hash(h, Sub(lv, d + 1, c)) && other == Hash(h, Sub(lv, d + 1, Sibling(c)))
  {
    KnownBelow(h, lv, d + 1, j, inputs);
    SubSize(h, lv, d, 2 * j, size, inputs);
    SubSize(h, lv, d, 2 * j + 1, size, inputs);
    var l, r := Hash(h, Sub(lv, d + 1, 2 * j)), Hash(h, Sub(lv, d + 1, 2 * j + 1));
    ParentHash(h, lv, d + 1, 2 * j);
    assert Distinguished(h, Pair(below, other), Pair(l, r));
    PairDetermines(below, other, l, r);
    c := if below == l && other == r then 2 * j else 2 * j + 1;
  }

  /** A proof accepted under the subtree of height d + 1 at j leads down to some pair below it. */
  lemma {:induction false} AcceptedIsPair(h: Bytes -> Bytes, lv: seq<HashID>, d: nat, j: nat, p: seq<Bytes>, leaf: Bytes, size: nat, inputs: set<Bytes>)
    returns (k: nat)
    requires |p| == d + 1 && CollisionFree(h, inputs, size)
    requires Known(h, lv, d + 1, j, inputs) && CalcInputs(h, p, leaf) <= inputs
    requires CalcSpec(h, p, leaf) == Hash(h, Sub(lv, d + 1, j))
    ensures Shr(2 * k, d + 1) == j && PairProof(h, lv, d, p, leaf, k)
  {
    CalcKnown(h, p, leaf, size, inputs);
    if d == 0 {
      k := j;
      AcceptedLeaf(h, lv, j, p[0], leaf, size, inputs);
    } else {
      CalcKnown(h, p[1..], leaf, size, inputs);
      var c := AcceptedChild(h, lv, d - 1, j, CalcSpec(h, p[1..], leaf), p[0], size, inputs);
      k := AcceptedIsPair(h, lv, d - 1, c, p[1..], leaf, size, inputs);
      PairProofUp(h, lv, d - 1, c, p, leaf, k);
    }
  }

  lemma AcceptedLeaf(h: Bytes -> Bytes, lv: seq<HashID>, j: nat, other: Bytes, leaf: Bytes, size: nat, inputs: set<Bytes>)
    requires CollisionFree(h, inputs, size) && Known(h, lv, 1, j, inputs) && Pair(leaf, other) in inputs
    requires HashNode(h, leaf, other) == Hash(h, Sub(lv, 1, j))
    ensures Pair(leaf, other) == Pair(LeafAt(lv, 2 * j), LeafAt(lv, 2 * j + 1)) && Shr(2 * j, 1) == j
  {
    KnownBelow(h, lv, 0, j, inputs);
    assert Shr(2 * j, 1) == Shr(2 * j, 0) / 2;
    assert Distinguished(h, Pair(leaf, other), Pair(LeafAt(lv, 2 * j), LeafAt(lv, 2 * j + 1)));
  }

  lemma PairProofUp(h: Bytes -> Bytes, lv: seq<HashID>, d: nat, c: nat, p: seq<Bytes>, leaf: Bytes, k: nat)
    requires |p| == d + 2 && PairProof(h, lv, d, p[1..], leaf, k) && Shr(2 * k, d + 1) == c
    requires p[0] == Hash(h, Sub(lv, d + 1, Sibling(c)))
    ensures PairProof(h, lv, d + 1, p, leaf, k) && Shr(2 * k, d + 2) == c / 2
  {
    var own := ProofFor(h, lv, d + 2, 2 * k);
    assert own == [p[0]] + ProofFor(h, lv, d + 1, 2 * k);
    assert own[..d + 1] == [p[0]] + ProofFor(h, lv, d + 1, 2 * k)[..d];
    assert p[..d + 1] == [p[0]] + p[1..][..d];
  }

  /** Calc depends on the leaf and the last element only through the string they hash to. */
  lemma {:induction false} CalcLast(h: Bytes -> Bytes, p: seq<Bytes>, leaf: Bytes, n: nat)
    requires |p| == n + 1
    ensures CalcSpec(h, p, leaf) == CalcSpec(h, p[..n], h(Pair(leaf, p[n])))
  {
    if n > 0 {
      CalcLast(h, p[1..], leaf, n - 1);
      assert p[1..][..n - 1] == p[..n][1..];
    } else {
      assert CalcSpec(h, p[1..], leaf) == leaf;
    }
  }

  lemma {:induction false} PairProofAccepted(h: Bytes -> Bytes, lv: seq<HashID>, d: nat, p: seq<Bytes>, leaf: Bytes, k: nat)
    requires |p| == d + 1 && PairProof(h, lv, d, p, leaf, k)
    ensures CalcSpec(h, p, leaf) == Hash(h, Sub(lv, d + 1, Shr(2 * k, d + 1)))
  {
    var own, other := OwnPair(h, lv, d, k);
    SameCalc(h, p, leaf, own, other, d);
  }

  /** The tree's own proof of the leaf 2 * k. */
  lemma OwnPair(h: Bytes -> Bytes, lv: seq<HashID>, d: nat, k: nat) returns (own: seq<Bytes>, other: Bytes)
    ensures own == ProofFor(h, lv, d + 1, 2 * k) && |own| == d + 1 && other == LeafAt(lv, 2 * k) && own[d] == LeafAt(lv, 2 * k + 1)
    ensures CalcSpec(h, own, other) == Hash(h, Sub(lv, d + 1, Shr(2 * k, d + 1)))
  {
    own, other := ProofFor(h, lv, d + 1, 2 * k), LeafAt(lv, 2 * k);
    LastSibling(h, lv, d, 2 * k);
    ProofLeadsUp(h, lv, d + 1, 2 * k);
  }

  lemma SameCalc(h: Bytes -> Bytes, p: seq<Bytes>, leaf: Bytes, own: seq<Bytes>, other: Bytes, d: nat)
    requires |p| == |own| == d + 1 && p[..d] == own[..d] && Pair(leaf, p[d]) == Pair(other, own[d])
    ensures CalcSpec(h, p, leaf) == CalcSpec(h, own, other)
  {
    CalcLast(h, p, leaf, d);
    CalcLast(h, own, other, d);
  }

  lemma {:induction false} LastSibling(h: Bytes -> Bytes, lv: seq<HashID>, d: nat, i: nat)
    ensures ProofFor(h, lv, d + 1, i)[d] == LeafAt(lv, Sibling(i))
  {
    if d > 0 { LastSibling(h, lv, d - 1, i); }
  }

  lemma {:induction false} ShrZero(i: nat, d: nat)
    ensures Shr(i, d) == 0 <==> i < Pow2(d)
  {
    ShrBound(i, d, d);
  }

  lemma AcceptedPair(h: Bytes -> Bytes, lv: seq<HashID>, d: nat, p: seq<Bytes>, leaf: Bytes, size: nat) returns (k: nat)
    requires |p| == d + 1
    requires CollisionFree(h, TreeInputs(h, Sub(lv, d + 1, 0)) + CalcInputs(h, p, leaf), size)
    requires CalcSpec(h, p, leaf) == Root(h, lv, d + 1)
    ensures k < Pow2(d) && PairProof(h, lv, d, p, leaf, k)
  {
    InputsWithin(h, Sub(lv, d + 1, 0), TreeInputs(h, Sub(lv, d + 1, 0)) + CalcInputs(h, p, leaf));
    k := AcceptedIsPair(h, lv, d, 0, p, leaf, size, TreeInputs(h, Sub(lv, d + 1, 0)) + CalcInputs(h, p, leaf));
    ShrZero(2 * k, d + 1);
  }

  /**
    * Whatever the lengths of the leaves: Check accepts a proof of the tree's depth exactly when its
    * lowest hashed string is that of a pair of neighbours and the rest is the tree's own proof.
    */
  lemma CheckIffPair(h: Bytes -> Bytes, lv: seq<HashID>, d: nat, p: seq<Bytes>, leaf: Bytes, size: nat)
    requires |p| == d + 1
    requires CollisionFree(h, TreeInputs(h, Sub(lv, d + 1, 0)) + CalcInputs(h, p, leaf), size)
    ensures CalcSpec(h, p, leaf) == Root(h, lv, d + 1) <==> exists k: nat :: k < Pow2(d) && PairProof(h, lv, d, p, leaf, k)
  {
    if CalcSpec(h, p, leaf) == Root(h, lv, d + 1) {
      var k := AcceptedPair(h, lv, d, p, leaf, size);
    }
    if k: nat :| k < Pow2(d) && PairProof(h, lv, d, p, leaf, k) {
      ShrZero(2 * k, d + 1);
      PairProofAccepted(h, lv, d, p, leaf, k);
    }
  }

  predicate Sized(lv: seq<HashID>, size: nat)
  {
    forall i :: 0 <= i < |lv| ==> |BytesOf(lv[i])| == size
  }

  ghost predicate OwnProof(h: Bytes -> Bytes, lv: seq<HashID>, d: nat, p: seq<Bytes>, leaf: Bytes, i: nat)
  {
    i < |lv| && leaf == BytesOf(lv[i]) && p == ProofFor(h, lv, d, i)
  }

  /** With leaves of the hash's length, Check accepts exactly the tree's own proofs for its own leaves. */
  lemma CheckIff(h: Bytes -> Bytes, lv: seq<HashID>, d: nat, p: seq<Bytes>, leaf: Bytes, size: nat)
    requires |lv| == Pow2(d) && |p| == d && Sized(lv, size) && |leaf| == size
    requires CollisionFree(h, TreeInputs(h, Sub(lv, d, 0)) + CalcInputs(h, p, leaf), size)
    ensures CalcSpec(h, p, leaf) == Root(h, lv, d) <==> exists i: nat :: OwnProof(h, lv, d, p, leaf, i)
  {
    if CalcSpec(h, p, leaf) == Root(h, lv, d) {
      var i := AcceptedIsOwn(h, lv, d, p, leaf, size);
    }
    if i: nat :| OwnProof(h, lv, d, p, leaf, i) {
      ShrZero(i, d);
      ProofLeadsUp(h, lv, d, i);
    }
  }

  lemma AcceptedIsOwn(h: Bytes -> Bytes, lv: seq<HashID>, d: nat, p: seq<Bytes>, leaf: Bytes, size: nat) returns (i: nat)
    requires |lv| == Pow2(d) && |p| == d && Sized(lv, size) && |leaf| == size
    requires CollisionFree(h, TreeInputs(h, Sub(lv, d, 0)) + CalcInputs(h, p, leaf), size)
    requires CalcSpec(h, p, leaf) == Root(h, lv, d)
    ensures OwnProof(h, lv, d, p, leaf, i)
  {
    if d == 0 {
      i := 0;
    } else {
      var k := AcceptedPair(h, lv, d - 1, p, leaf, size);
      i := SizedPair(h, lv, d - 1, p, leaf, k, size);
    }
  }

  lemma {:induction false} SizedPair(h: Bytes -> Bytes, lv: seq<HashID>, d: nat, p: seq<Bytes>, leaf: Bytes, k: nat, size: nat) returns (i: nat)
    requires |p| == d + 1 && PairProof(h, lv, d, p, leaf, k) && 2 * k + 1 < |lv|
    requires Sized(lv, size) && |leaf| == size
    ensures OwnProof(h, lv, d + 1, p, leaf, i)
  {
    LeafSize(lv, 2 * k, size);
    LeafSize(lv, 2 * k + 1, size);
    PairDetermines(leaf, p[d], LeafAt(lv, 2 * k), LeafAt(lv, 2 * k + 1));
    i := OwnSide(h, lv, d, p, leaf, k);
  }

  lemma {:induction false} OwnSide(h: Bytes -> Bytes, lv: seq<HashID>, d: nat, p: seq<Bytes>, leaf: Bytes, k: nat) returns (i: nat)
    requires |p| == d + 1 && 2 * k + 1 < |lv| && p[..d] == ProofFor(h, lv, d + 1, 2 * k)[..d]
    requires (leaf == LeafAt(lv, 2 * k) && p[d] == LeafAt(lv, 2 * k + 1)) || (leaf == LeafAt(lv, 2 * k + 1) && p[d] == LeafAt(lv, 2 * k))
    ensures OwnProof(h, lv, d + 1, p, leaf, i)
  {
    if leaf == LeafAt(lv, 2 * k) && p[d] == LeafAt(lv, 2 * k + 1) {
      i := 2 * k;
    } else {
      i := 2 * k + 1;
      SameAbove(h, lv, d, k);
    }
    IsOwn(h, lv, d, p, leaf, i);
  }

  lemma LeafSize(lv: seq<HashID>, i: nat, size: nat)
    requires Sized(lv, size) && i < |lv|
    ensures LeafAt(lv, i) == BytesOf(lv[i]) && |LeafAt(lv, i)| == size
  {
  }

  lemma IsOwn(h: Bytes -> Bytes, lv: seq<HashID>, d: nat, p: seq<Bytes>, leaf: Bytes, i: nat)
    requires |p| == d + 1 && i < |lv| && leaf == BytesOf(lv[i]) && p[d] == LeafAt(lv, Sibling(i))
    requires p[..d] == ProofFor(h, lv, d + 1, i)[..d]
    ensures OwnProof(h, lv, d + 1, p, leaf, i)
  {
    LastSibling(h, lv, d, i);
    SameEnds(p, ProofFor(h, lv, d + 1, i), d);
  }

  lemma SameEnds(p: seq<Bytes>, q: seq<Bytes>, d: nat)
    requires |p| == |q| == d + 1 && p[..d] == q[..d] && p[d] == q[d]
    ensures p == q
  {
    assert p == p[..d] + [p[d]] && q == q[..d] + [q[d]];
  }

  /** Neighbours share all but the last element of their proofs. */
  lemma {:induction false} SameAbove(h: Bytes -> Bytes, lv: seq<HashID>, d: nat, k: nat)
    ensures Shr(2 * k, d + 1) == Shr(2 * k + 1, d + 1)
    ensures ProofFor(h, lv, d + 1, 2 * k)[..d] == ProofFor(h, lv, d + 1, 2 * k + 1)[..d]
  {
    if d > 0 {
      SameAbove(h, lv, d - 1, k);
      var a, b := ProofFor(h, lv, d, 2 * k), ProofFor(h, lv, d, 2 * k + 1);
      var top := [Hash(h, Sub(lv, d, Sibling(Shr(2 * k, d))))];
      assert (top + a)[..d] == top + a[..d - 1] && (top + b)[..d] == top + b[..d - 1];
    } else {
      assert Shr(2 * k, 1) == Shr(2 * k, 0) / 2 && Shr(2 * k + 1, 1) == Shr(2 * k + 1, 0) / 2;
    }
  }

  /** The length of the leaf matters: for every hash, the empty leaf has an accepted proof. */
  lemma EmptyLeafAccepted(h: Bytes -> Bytes, lv: seq<HashID>, d: nat, k: nat)
    requires k < Pow2(d)
    ensures exists p :: |p| == d + 1 && CalcSpec(h, p, []) == Root(h, lv, d + 1)
  {
    var both := Pair(LeafAt(lv, 2 * k), LeafAt(lv, 2 * k + 1));
    var p := ProofFor(h, lv, d + 1, 2 * k)[..d] + [both];
    assert p[..d] == ProofFor(h, lv, d + 1, 2 * k)[..d];
    assert Pair([], both) == both;
    PairProofAccepted(h, lv, d, p, [], k);
    ShrZero(2 * k, d + 1);
  }

  // ----- The proofs that ProofTree returns -------------------------------------------------------

  lemma StoredProofPasses(h: Bytes -> Bytes, lv: seq<HashID>, d: nat, i: nat)
    requires i < |lv| == Pow2(d) && (d > 0 ==> lv[Sibling(i)].Some?)
    ensures CalcSpec(h, StoredProof(h, lv, d, i), BytesOf(lv[i])) == Root(h, lv, d)
  {
    ShrZero(i, d);
    ProofLeadsUp(h, lv, d, i);
  }

  lemma PaddedLeaf(leaves: seq<HashID>, size: nat, j: nat)
    requires j < |Padded(leaves, size)|
    ensures Padded(leaves, size)[j] == if j < |leaves| then leaves[j] else Some(Zeros(size))
  {
    var lv := Padded(leaves, size);
    if j < |leaves| { assert lv[..|leaves|][j] == leaves[j]; }
  }

  /** Every proof that ProofTree returns for non-nil leaves passes Check against its root. */
  lemma StoredProofsPass(h: Bytes -> Bytes, leaves: seq<HashID>, size: nat, i: nat)
    requires i < |leaves| && forall j :: 0 <= j < |leaves| ==> leaves[j].Some?
    ensures var lv, d := Padded(leaves, size), Depth(|leaves|);
      CalcSpec(h, StoredProof(h, lv, d, i), leaves[i].value) == Root(h, lv, d)
  {
    var lv, d := Padded(leaves, size), Depth(|leaves|);
    PaddedLeaf(leaves, size, i);
    if d > 0 {
      SiblingBound(i, d);
      PaddedLeaf(leaves, size, Sibling(i));
    }
    StoredProofPasses(h, lv, d, i);
  }

  lemma {:induction false} CalcInjective(h: Bytes -> Bytes, p: seq<Bytes>, x: Bytes, y: Bytes, size: nat, inputs: set<Bytes>)
    requires |x| == |y| == size && (forall k :: 0 <= k < |p| ==> |p[k]| == size)
    requires CollisionFree(h, inputs, size)
    requires CalcInputs(h, p, x) <= inputs && CalcInputs(h, p, y) <= inputs
    requires CalcSpec(h, p, x) == CalcSpec(h, p, y)
    ensures x == y
  {
    if p != [] {
      var a, b := CalcSpec(h, p[1..], x), CalcSpec(h, p[1..], y);
      CalcKnown(h, p, x, size, inputs);
      CalcKnown(h, p, y, size, inputs);
      if |p| > 1 {
        CalcKnown(h, p[1..], x, size, inputs);
        CalcKnown(h, p[1..], y, size, inputs);
      }
      assert Distinguished(h, Pair(a, p[0]), Pair(b, p[0]));
      PairDetermines(a, p[0], b, p[0]);
      CalcInjective(h, p[1..], x, y, size, inputs);
    }
  }

  lemma KnownChild(h: Bytes -> Bytes, lv: seq<HashID>, d: nat, c: nat, inputs: set<Bytes>)
    requires Known(h, lv, d + 1, c / 2, inputs)
    ensures Known(h, lv, d, c, inputs) && Known(h, lv, d, Sibling(c), inputs)
  {
    KnownBelow(h, lv, d, c / 2, inputs);
    if c % 2 == 0 {
      assert 2 * (c / 2) == c;
    } else {
      assert 2 * (c / 2) + 1 == c;
    }
  }

  lemma ProofStep(h: Bytes -> Bytes, lv: seq<HashID>, d: nat, i: nat, k: nat)
    requires k <= d
    ensures ProofFor(h, lv, d + 1, i)[k] ==
      if k == 0 then Hash(h, Sub(lv, d, Sibling(Shr(i, d)))) else ProofFor(h, lv, d, i)[k - 1]
  {
  }

  lemma {:induction false} ProofSizes(h: Bytes -> Bytes, lv: seq<HashID>, d: nat, i: nat, size: nat, inputs: set<Bytes>, k: nat)
    requires CollisionFree(h, inputs, size) && Known(h, lv, d + 1, Shr(i, d + 1), inputs) && k < d
    ensures |ProofFor(h, lv, d + 1, i)[k]| == size
  {
    var c := Shr(i, d);
    ProofStep(h, lv, d, i, k);
    KnownChild(h, lv, d, c, inputs);
    if k == 0 {
      SubSize(h, lv, d - 1, Sibling(c), size, inputs);
    } else {
      ProofSizes(h, lv, d - 1, i, size, inputs, k - 1);
    }
  }

  /**
    * A leaf whose sibling is nil gets a proof that is one element short. It passes Check exactly when
    * the leaf is a fixed point of the hash.
    */
  lemma {:induction false} NilSibling(h: Bytes -> Bytes, lv: seq<HashID>, d: nat, i: nat, p: seq<Bytes>, leaf: Bytes, size: nat, inputs: set<Bytes>)
    requires i < |lv| == Pow2(d) && d > 0 && lv[Sibling(i)].None? && leaf == BytesOf(lv[i]) && p == StoredProof(h, lv, d, i)
    requires |leaf| == |h(leaf)| == size && CollisionFree(h, inputs, size) && Known(h, lv, d, 0, inputs)
    requires CalcInputs(h, p, leaf) <= inputs && CalcInputs(h, p, h(leaf)) <= inputs
    ensures CalcSpec(h, p, leaf) == Root(h, lv, d) <==> h(leaf) == leaf
  {
    NilRoot(h, lv, d, i, p, leaf);
    if CalcSpec(h, p, leaf) == CalcSpec(h, p, h(leaf)) {
      ShrZero(i, d);
      forall k | 0 <= k < |p| ensures |p[k]| == size {
        ProofSizes(h, lv, d - 1, i, size, inputs, k);
      }
      CalcInjective(h, p, leaf, h(leaf), size, inputs);
    }
  }

  /** The tree hashes a leaf with a nil sibling alone. */
  lemma {:induction false} NilRoot(h: Bytes -> Bytes, lv: seq<HashID>, d: nat, i: nat, p: seq<Bytes>, leaf: Bytes)
    requires i < |lv| == Pow2(d) && d > 0 && lv[Sibling(i)].None? && leaf == BytesOf(lv[i]) && p == ProofFor(h, lv, d, i)[..d - 1]
    ensures Root(h, lv, d) == CalcSpec(h, p, h(leaf))
  {
    LastSibling(h, lv, d - 1, i);
    CalcLast(h, ProofFor(h, lv, d, i), leaf, d - 1);
    assert Pair(leaf, []) == leaf;
    ShrZero(i, d);
    ProofLeadsUp(h, lv, d, i);
  }

  // ----- Equal roots ---------------------------------------------------------------------------------

  /** Which sibling subtrees to swap. */
  datatype Plan = Keep | Swap(flip: bool, left: Plan, right: Plan)

  function Act(plan: Plan, t: Tree): Tree
  {
    if plan.Keep? || t.Leaf? then t
    else
      var l, r := Act(plan.left, t.left), Act(plan.right, t.right);
      if plan.flip then Node(r, l) else Node(l, r)
  }

  /** Swapping sibling subtrees keeps the root, whatever the hash. */
  lemma {:induction false} ActKeepsHash(h: Bytes -> Bytes, plan: Plan, t: Tree)
    ensures Hash(h, Act(plan, t)) == Hash(h, t)
  {
    if plan.Swap? && t.Node? {
      ActKeepsHash(h, plan.left, t.left);
      ActKeepsHash(h, plan.right, t.right);
      PairSymmetric(Hash(h, t.left), Hash(h, t.right));
    }
  }

  predicate Perfect(t: Tree, d: nat, size: nat)
  {
    if d == 0 then t.Leaf? && |t.id| == size
    else t.Node? && Perfect(t.left, d - 1, size) && Perfect(t.right, d - 1, size)
  }

  lemma {:induction false} SubPerfect(lv: seq<HashID>, size: nat, n: nat, d: nat, j: nat)
    requires |lv| == Pow2(n) && Sized(lv, size) && d <= n && j < Pow2(n - d)
    ensures Perfect(Sub(lv, d, j), d, size)
  {
    if d > 0 {
      SubPerfect(lv, size, n, d - 1, 2 * j);
      SubPerfect(lv, size, n, d - 1, 2 * j + 1);
    }
  }

  lemma HashSize(h: Bytes -> Bytes, t: Tree, d: nat, size: nat, inputs: set<Bytes>)
    requires Perfect(t, d, size) && CollisionFree(h, inputs, size) && Within(h, t, inputs)
    ensures |Hash(h, t)| == size
  {
  }

  /** Nodes of equal hash have children of equal hash, up to their order. */
  lemma SameHashChildren(h: Bytes -> Bytes, s: Tree, t: Tree, size: nat, inputs: set<Bytes>) returns (flip: bool)
    requires s.Node? && t.Node? && Hash(h, s) == Hash(h, t)
    requires |Hash(h, s.left)| == |Hash(h, t.left)| == |Hash(h, t.right)|
    requires CollisionFree(h, inputs, size) && Within(h, s, inputs) && Within(h, t, inputs)
    ensures Hash(h, s.left) == Hash(h, if flip then t.right else t.left)
    ensures Hash(h, s.right) == Hash(h, if flip then t.left else t.right)
  {
    var a, b := Pair(Hash(h, s.left), Hash(h, s.right)), Pair(Hash(h, t.left), Hash(h, t.right));
    assert Distinguished(h, a, b);
    PairDetermines(Hash(h, s.left), Hash(h, s.right), Hash(h, t.left), Hash(h, t.right));
    flip := !(Hash(h, s.left) == Hash(h, t.left) && Hash(h, s.right) == Hash(h, t.right));
  }

  lemma {:induction false} SameHashPlan(h: Bytes -> Bytes, s: Tree, t: Tree, d: nat, size: nat, inputs: set<Bytes>) returns (plan: Plan)
    requires Perfect(s, d, size) && Perfect(t, d, size) && Hash(h, s) == Hash(h, t)
    requires CollisionFree(h, inputs, size) && Within(h, s, inputs) && Within(h, t, inputs)
    ensures Act(plan, s) == t
  {
    if d == 0 {
      plan := Keep;
    } else {
      HashSize(h, s.left, d - 1, size, inputs);
      HashSize(h, t.left, d - 1, size, inputs);
      HashSize(h, t.right, d - 1, size, inputs);
      var flip := SameHashChildren(h, s, t, size, inputs);
      var l := SameHashPlan(h, s.left, if flip then t.right else t.left, d - 1, size, inputs);
      var r := SameHashPlan(h, s.right, if flip then t.left else t.right, d - 1, size, inputs);
      plan := Swap(flip, l, r);
    }
  }

  /** A tree determines its list of leaves. */
  lemma {:induction false} SubInjective(a: seq<HashID>, b: seq<HashID>, d: nat, j: nat, i: nat)
    requires Sub(a, d, j) == Sub(b, d, j) && Shr(i, d) == j
    ensures LeafAt(a, i) == LeafAt(b, i)
  {
    if d > 0 {
      SubInjective(a, b, d - 1, Shr(i, d - 1), i);
    }
  }

  lemma EqualRootsPlan(h: Bytes -> Bytes, a: seq<HashID>, b: seq<HashID>, d: nat, size: nat) returns (plan: Plan)
    requires |a| == |b| == Pow2(d) && Sized(a, size) && Sized(b, size) && Root(h, a, d) == Root(h, b, d)
    requires CollisionFree(h, TreeInputs(h, Sub(a, d, 0)) + TreeInputs(h, Sub(b, d, 0)), size)
    ensures Act(plan, Sub(a, d, 0)) == Sub(b, d, 0)
  {
    var s, t := Sub(a, d, 0), Sub(b, d, 0);
    SubPerfect(a, size, d, d, 0);
    SubPerfect(b, size, d, d, 0);
    InputsWithin(h, s, TreeInputs(h, s) + TreeInputs(h, t));
    InputsWithin(h, t, TreeInputs(h, s) + TreeInputs(h, t));
    plan := SameHashPlan(h, s, t, d, size, TreeInputs(h, s) + TreeInputs(h, t));
  }

  /**
    * Two lists of leaves of one depth have equal roots exactly when one becomes the other by swapping
    * sibling subtrees.
    */
  lemma EqualRootsIff(h: Bytes -> Bytes, a: seq<HashID>, b: seq<HashID>, d: nat, size: nat)
    requires |a| == |b| == Pow2(d) && Sized(a, size) && Sized(b, size)
    requires CollisionFree(h, TreeInputs(h, Sub(a, d, 0)) + TreeInputs(h, Sub(b, d, 0)), size)
    ensures Root(h, a, d) == Root(h, b, d) <==> exists plan :: Act(plan, Sub(a, d, 0)) == Sub(b, d, 0)
  {
    if Root(h, a, d) == Root(h, b, d) {
      var plan := EqualRootsPlan(h, a, b, d, size);
    }
    if plan :| Act(plan, Sub(a, d, 0)) == Sub(b, d, 0) {
      ActKeepsHash(h, plan, Sub(a, d, 0));
    }
  }

  /** Leaves of other lengths can break this: these two lists share every root and no plan relates them. */
  lemma UnsizedRoots(h: Bytes -> Bytes, plan: Plan)
    ensures var a: seq<HashID>, b: seq<HashID> := [Some([1]), Some([2, 3])], [Some([1, 2]), Some([3])];
      Root(h, a, 1) == Root(h, b, 1) && Act(plan, Sub(a, 1, 0)) != Sub(b, 1, 0)
  {
    var a: seq<HashID>, b: seq<HashID> := [Some([1]), Some([2, 3])], [Some([1, 2]), Some([3])];
    assert Sub(a, 1, 0) == Node(Leaf([1]), Leaf([2, 3])) && Sub(b, 1, 0) == Node(Leaf([1, 2]), Leaf([3]));
    assert Pair([1], [2, 3]) == [1, 2, 3] == Pair([1, 2], [3]);
  }

  // ----- Equal roots over leaves of any length -------------------------------------------------------

  predicate Shaped(t: Tree, d: nat)
  {
    if d == 0 then t.Leaf? else t.Node? && Shaped(t.left, d - 1) && Shaped(t.right, d - 1)
  }

  lemma {:induction false} SubShaped(lv: seq<HashID>, d: nat, j: nat)
    ensures Shaped(Sub(lv, d, j), d)
  {
    if d > 0 {
      SubShaped(lv, d - 1, 2 * j);
      SubShaped(lv, d - 1, 2 * j + 1);
    }
  }

  /** The tree whose leaves are the strings hashed for pairs of leaves. */
  function Pairs(t: Tree, d: nat): Tree
    requires Shaped(t, d + 1)
  {
    if d == 0 then assert Shaped(t.left, 0) && Shaped(t.right, 0); Leaf(Pair(t.left.id, t.right.id)) else Node(Pairs(t.left, d - 1), Pairs(t.right, d - 1))
  }

  /** Hashing a tree of such strings: the leaves are hashed too. */
  function HashAll(h: Bytes -> Bytes, t: Tree): Bytes
  {
    match t
    case Leaf(id) => h(id)
    case Node(l, r) => HashNode(h, HashAll(h, l), HashAll(h, r))
  }

  lemma {:induction false} HashOfPairs(h: Bytes -> Bytes, t: Tree, d: nat)
    requires Shaped(t, d + 1)
    ensures HashAll(h, Pairs(t, d)) == Hash(h, t)
  {
    if d > 0 {
      HashOfPairs(h, t.left, d - 1);
      HashOfPairs(h, t.right, d - 1);
    }
  }

  lemma {:induction false} ActKeepsHashAll(h: Bytes -> Bytes, plan: Plan, t: Tree)
    ensures HashAll(h, Act(plan, t)) == HashAll(h, t)
  {
    if plan.Swap? && t.Node? {
      ActKeepsHashAll(h, plan.left, t.left);
      ActKeepsHashAll(h, plan.right, t.right);
      PairSymmetric(HashAll(h, t.left), HashAll(h, t.right));
    }
  }

  lemma {:induction false} SameHashPairs(h: Bytes -> Bytes, s: Tree, t: Tree, d: nat, size: nat, inputs: set<Bytes>) returns (plan: Plan)
    requires Shaped(s, d + 1) && Shaped(t, d + 1) && Hash(h, s) == Hash(h, t)
    requires CollisionFree(h, inputs, size) && Within(h, s, inputs) && Within(h, t, inputs)
    ensures Act(plan, Pairs(s, d)) == Pairs(t, d)
  {
    if d == 0 {
      assert Distinguished(h, Pair(Hash(h, s.left), Hash(h, s.right)), Pair(Hash(h, t.left), Hash(h, t.right)));
      assert Shaped(s.left, 0) && Shaped(s.right, 0) && Shaped(t.left, 0) && Shaped(t.right, 0);
      plan := Keep;
    } else {
      HashedSize(h, s.left, d - 1, size, inputs);
      HashedSize(h, t.left, d - 1, size, inputs);
      HashedSize(h, t.right, d - 1, size, inputs);
      var flip := SameHashChildren(h, s, t, size, inputs);
      var l := SameHashPairs(h, s.left, if flip then t.right else t.left, d - 1, size, inputs);
      var r := SameHashPairs(h, s.right, if flip then t.left else t.right, d - 1, size, inputs);
      plan := Swap(flip, l, r);
    }
  }

  lemma HashedSize(h: Bytes -> Bytes, t: Tree, d: nat, size: nat, inputs: set<Bytes>)
    requires Shaped(t, d + 1) && CollisionFree(h, inputs, size) && Within(h, t, inputs)
    ensures |Hash(h, t)| == size
  {
  }

  /**
    * Whatever the lengths of the leaves: two lists have equal roots exactly when swapping sibling
    * subtrees turns the strings hashed for the one's neighbouring leaves into those of the other.
    */
  lemma EqualRootsIffPairs(h: Bytes -> Bytes, s: Tree, t: Tree, d: nat, size: nat)
    requires Shaped(s, d + 1) && Shaped(t, d + 1)
    requires CollisionFree(h, TreeInputs(h, s) + TreeInputs(h, t), size)
    ensures Hash(h, s) == Hash(h, t) <==> exists plan :: Act(plan, Pairs(s, d)) == Pairs(t, d)
  {
    HashOfPairs(h, s, d);
    HashOfPairs(h, t, d);
    if Hash(h, s) == Hash(h, t) {
      InputsWithin(h, s, TreeInputs(h, s) + TreeInputs(h, t));
      InputsWithin(h, t, TreeInputs(h, s) + TreeInputs(h, t));
      var plan := SameHashPairs(h, s, t, d, size, TreeInputs(h, s) + TreeInputs(h, t));
    }
    if plan :| Act(plan, Pairs(s, d)) == Pairs(t, d) {
      ActKeepsHashAll(h, plan, Pairs(s, d));
    }
  }
}
