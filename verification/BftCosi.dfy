/** BFTCoSi: two rounds of collective signing over a tree in which nodes may refuse to sign. */
module BftCosi {
  import opened Options
  import opened GroupArith

  /** A node that refused: its index in the roster and its commitment. */
  datatype Exception = Exception(index: nat, commitment: Point)

  datatype CosiSignature = CosiSignature(commit: Point, response: int)

  datatype BFTSignature = BFTSignature(sig: Option<CosiSignature>, msg: Option<seq<int>>, exceptions: seq<Exception>)

  datatype Response = Response(response: int, exceptions: seq<Exception>)

  /** What the run needs to know of the signers: for the i-th member of the roster the private key,
      its secrets in the prepare and the commit round, and whether its verification accepts. hash is
      the challenge hash of commitment, aggregate key and message; digest hashes the message. */
  datatype Session = Session(
    q: nat, xs: seq<int>, vs: seq<int>, ws: seq<int>, accepts: seq<bool>,
    hash: (Point, Point, seq<int>) -> int, digest: seq<int> -> seq<int>)
  {
    predicate WellFormed()
    {
      q >= 1 && |xs| == |vs| == |ws| == |accepts|
    }

    function Size(): nat
    {
      |xs|
    }

    /** The public keys of the roster. */
    function Publics(): (ps: seq<Point>)
      requires WellFormed()
      ensures |ps| == Size() && forall i :: 0 <= i < |ps| ==> ps[i] == BaseMul(q, xs[i])
    {
      seq(|xs|, i requires 0 <= i < |xs| => BaseMul(q, xs[i]))
    }

    /** More refusals than this and the nodes decline the commit round. */
    function Threshold(): nat
    {
      (Size() + 1) * 2 / 3
    }
  }

  /** What Signature returns at a node that has, or has not, refused: the signature of the commit round
      alone, or no signature and the collected exceptions. */
  function RootOutput(signRefusal: bool, round: CosiSignature, msg: seq<int>, exceptions: seq<Exception>): BFTSignature
  {
    if signRefusal then BFTSignature(None, Some(msg), exceptions) else BFTSignature(Some(round), Some(msg), [])
  }

  // ----- Verification of a signature with exceptions ------------------------------------------------

  function SumPoints(q: nat, ps: seq<Point>): Point
    requires q >= 1
  {
    if ps == [] then NullPoint else PointAdd(q, SumPoints(q, ps[..|ps| - 1]), ps[|ps| - 1])
  }

  /** The aggregate commitment of the exceptions. */
  function ExceptionCommit(q: nat, exs: seq<Exception>): Point
    requires q >= 1
  {
    if exs == [] then NullPoint
    else PointAdd(q, ExceptionCommit(q, exs[..|exs| - 1]), exs[|exs| - 1].commitment)
  }

  /** The aggregate key without the keys of the exceptions. */
  function ReducedPublic(q: nat, agg: Point, publics: seq<Point>, exs: seq<Exception>): Point
    requires q >= 1 && forall e :: 0 <= e < |exs| ==> exs[e].index < |publics|
  {
    if exs == [] then agg
    else PointSub(q, ReducedPublic(q, agg, publics, exs[..|exs| - 1]), publics[exs[|exs| - 1].index])
  }

  predicate Verifies(q: nat, hash: (Point, Point, seq<int>) -> int, publics: seq<Point>, bs: BFTSignature)
    requires q >= 1 && forall e :: 0 <= e < |bs.exceptions| ==> bs.exceptions[e].index < |publics|
  {
    && bs.sig.Some? && bs.msg.Some?
    && var agg := SumPoints(q, publics);
       var reduced := ReducedPublic(q, PointAdd(q, NullPoint, agg), publics, bs.exceptions);
       var k := hash(bs.sig.value.commit, agg, bs.msg.value);
       PointAdd(q, BaseMul(q, bs.sig.value.response), PointMul(q, PointNeg(q, reduced), k))
       == PointSub(q, bs.sig.value.commit, ExceptionCommit(q, bs.exceptions))
  }

  /** BFTSignature.Verify. */
  method Verify(q: nat, hash: (Point, Point, seq<int>) -> int, publics: seq<Point>, bs: BFTSignature) returns (ok: bool)
    requires q >= 1 && forall e :: 0 <= e < |bs.exceptions| ==> bs.exceptions[e].index < |publics|
    ensures ok ==> bs.sig.Some? && bs.msg.Some?
    ensures ok <==> Verifies(q, hash, publics, bs)
  {
    if bs.sig.None? || bs.msg.None? {
      return false;
    }
    var aggPublic := NullPoint;
    for i := 0 to |publics|
      invariant aggPublic == SumPoints(q, publics[..i])
    {
      aggPublic := PointAdd(q, aggPublic, publics[i]);
      assert publics[..i + 1][..i] == publics[..i];
    }
    assert publics[..|publics|] == publics;
    var aggReducedPublic := PointAdd(q, NullPoint, aggPublic);
    ghost var start := aggReducedPublic;
    var aggExCommit := NullPoint;
    for e := 0 to |bs.exceptions|
      invariant aggExCommit == ExceptionCommit(q, bs.exceptions[..e])
      invariant aggReducedPublic == ReducedPublic(q, start, publics, bs.exceptions[..e])
    {
      var ex := bs.exceptions[e];
      aggExCommit := PointAdd(q, aggExCommit, ex.commitment);
      aggReducedPublic := PointSub(q, aggReducedPublic, publics[ex.index]);
      assert bs.exceptions[..e + 1][..e] == bs.exceptions[..e];
    }
    assert bs.exceptions[..|bs.exceptions|] == bs.exceptions;
    var origCommit := bs.sig.value.commit;
    var k := hash(origCommit, aggPublic, bs.msg.value);
    var ka := PointMul(q, PointNeg(q, aggReducedPublic), k);
    var rb := BaseMul(q, bs.sig.value.response);
    var left := PointAdd(q, rb, ka);
    var right := PointSub(q, origCommit, aggExCommit);
    return left == right;
  }

  // ----- One node -------------------------------------------------------------------------------------

  /** The node's own response to challenge k: v + k * x. */
  function OwnResponse(q: nat, v: int, k: int, x: int): int
    requires q >= 1
  {
    ScalarAdd(q, ScalarMul(q, x, k), v)
  }

  /** Commit: the node's own commitment plus those received from its children. */
  function NodeCommit(q: nat, v: int, children: seq<Point>): Point
    requires q >= 1
  {
    PointAdd(q, BaseMul(q, v), SumPoints(q, children))
  }

  /** A commitment message with the round it belongs to. */
  datatype CommitMessage = CommitMessage(prepareRound: bool, commitment: Point)

  /** The commitments of one round, in order. */
  function OfRound(msgs: seq<CommitMessage>, prepareRound: bool): (r: seq<Point>)
  {
    if msgs == [] then []
    else
      var front, last := OfRound(msgs[..|msgs| - 1], prepareRound), msgs[|msgs| - 1];
      if last.prepareRound == prepareRound then front + [last.commitment] else front
  }

  /** What handleCommitment sends, or the root keeps, for messages of both rounds in any order: after each
      message whose buffer is full, the aggregate of that buffer. v and w are the secrets of the rounds. */
  function CommitSends(q: nat, children: nat, v: int, w: int, prepares: seq<Point>, commits: seq<Point>, msgs: seq<CommitMessage>): seq<CommitMessage>
    requires q >= 1
  {
    if msgs == [] then []
    else
      var p := msgs[|msgs| - 1].prepareRound;
      var buffer := (if p then prepares else commits) + OfRound(msgs, p);
      CommitSends(q, children, v, w, prepares, commits, msgs[..|msgs| - 1])
      + if |buffer| < children then [] else [CommitMessage(p, NodeCommit(q, if p then v else w, buffer))]
  }

  /** One message more, for buffers that hold ps and cs so far. */
  lemma CommitSendsStep(q: nat, children: nat, v: int, w: int, prepares: seq<Point>, commits: seq<Point>, msgs: seq<CommitMessage>, i: nat,
                        ps: seq<Point>, cs: seq<Point>)
    requires q >= 1 && i < |msgs|
    requires ps == prepares + OfRound(msgs[..i], true) && cs == commits + OfRound(msgs[..i], false)
    ensures var p, c := msgs[i].prepareRound, msgs[i].commitment;
      var buffer := (if p then ps else cs) + [c];
      var sends := CommitSends(q, children, v, w, prepares, commits, msgs[..i]);
      && prepares + OfRound(msgs[..i + 1], true) == (if p then ps + [c] else ps)
      && commits + OfRound(msgs[..i + 1], false) == (if p then cs else cs + [c])
      && CommitSends(q, children, v, w, prepares, commits, msgs[..i + 1]) ==
           if |buffer| < children then sends else sends + [CommitMessage(p, NodeCommit(q, if p then v else w, buffer))]
  {
    var m, p, c := msgs[..i + 1], msgs[i].prepareRound, msgs[i].commitment;
    assert m[..i] == msgs[..i];
    assert OfRound(m, p) == OfRound(msgs[..i], p) + [c];
    var old' := if p then prepares else commits;
    assert old' + (OfRound(msgs[..i], p) + [c]) == (old' + OfRound(msgs[..i], p)) + [c];
    var sends := CommitSends(q, children, v, w, prepares, commits, msgs[..i]);
    assert sends + [] == sends;
  }

  /** With at most one commitment per child and round, however the two rounds are mixed, each round's
      aggregate is sent once, when all its commitments are there, and not before. */
  lemma {:induction false} CommitSendsOnce(q: nat, children: nat, v: int, w: int, msgs: seq<CommitMessage>, p: bool)
    requires q >= 1 && |OfRound(msgs, p)| <= children
    ensures OfRound(CommitSends(q, children, v, w, [], [], msgs), p) ==
      if msgs != [] && 0 < |OfRound(msgs, p)| == children then [NodeCommit(q, if p then v else w, OfRound(msgs, p))] else []
  {
    if msgs != [] {
      var front, last := msgs[..|msgs| - 1], msgs[|msgs| - 1];
      CommitSendsOnce(q, children, v, w, front, p);
      var sends, r := CommitSends(q, children, v, w, [], [], front), last.prepareRound;
      assert [] + OfRound(msgs, r) == OfRound(msgs, r);
      if |OfRound(msgs, r)| < children {
        assert sends + [] == sends;
      } else {
        OfRoundAppend(sends, CommitMessage(r, NodeCommit(q, if r then v else w, OfRound(msgs, r))), p);
      }
    }
  }

  lemma OfRoundAppend(msgs: seq<CommitMessage>, m: CommitMessage, p: bool)
    ensures OfRound(msgs + [m], p) == OfRound(msgs, p) + if m.prepareRound == p then [m.commitment] else []
  {
    assert (msgs + [m])[..|msgs|] == msgs;
  }

  function SumScalars(q: nat, rs: seq<int>): int
    requires q >= 1
  {
    if rs == [] then 0 else ScalarAdd(q, SumScalars(q, rs[..|rs| - 1]), rs[|rs| - 1])
  }

  function NodeResponse(q: nat, own: int, children: seq<int>): int
    requires q >= 1
  {
    ScalarAdd(q, own, SumScalars(q, children))
  }

  function Flatten<T>(ss: seq<seq<T>>): seq<T>
  {
    if ss == [] then [] else Flatten(ss[..|ss| - 1]) + ss[|ss| - 1]
  }

  function ResponsesOf(rs: seq<Response>): (r: seq<int>)
    ensures |r| == |rs|
  {
    seq(|rs|, i requires 0 <= i < |rs| => rs[i].response)
  }

  function ExceptionsOf(rs: seq<Response>): (r: seq<seq<Exception>>)
    ensures |r| == |rs|
  {
    seq(|rs|, i requires 0 <= i < |rs| => rs[i].exceptions)
  }

  /** The answer of a node in the prepare round: a refusing node takes its own response out of the
      aggregate and reports itself as an exception. */
  function PrepareResponse(q: nat, index: nat, v: int, x: int, accepts: bool, k: int, children: seq<Response>): Response
    requires q >= 1
  {
    var own := OwnResponse(q, v, k, x);
    var agg := NodeResponse(q, own, ResponsesOf(children));
    var exs := Flatten(ExceptionsOf(children));
    if accepts then Response(agg, exs)
    else Response(ScalarSub(q, agg, own), exs + [Exception(index, BaseMul(q, v))])
  }

  /** Whether a node declines the commit round after seeing the prepare signature. */
  predicate Declines(q: nat, hash: (Point, Point, seq<int>) -> int, publics: seq<Point>, prepared: BFTSignature, threshold: nat)
    requires q >= 1 && forall e :: 0 <= e < |prepared.exceptions| ==> prepared.exceptions[e].index < |publics|
  {
    !Verifies(q, hash, publics, prepared) || |prepared.exceptions| >= threshold
  }

  /** The answer of a node in the commit round. */
  function CommitResponse(q: nat, w: int, x: int, declines: bool, k: int, children: seq<int>): int
    requires q >= 1
  {
    var own := OwnResponse(q, w, k, x);
    var agg := NodeResponse(q, own, children);
    if declines then ScalarSub(q, agg, own) else agg
  }
}
