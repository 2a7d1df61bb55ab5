/** One node of BFTCoSi: its buffers and the handlers that fill them. Each handler is proved against
    the node-level functions of module BftCosi. */
module BftCosiNode {
  import opened Options
  import opened GroupArith
  import opened BftCosi

  /** The state of one collective-signing round at a node. */
  datatype CosiRound = CosiRound(random: int, aggregateCommit: Point, challenge: int, response: int, aggregateResponse: int)

  class ProtocolBFTCoSi {
    const q: nat
    const index: nat
    const private: int
    const publics: seq<Point>
    const hash: (Point, Point, seq<int>) -> int
    const digest: seq<int> -> seq<int>
    const children: nat
    const threshold: nat
    var prepare: CosiRound
    var commit: CosiRound
    var signRefusal: bool
    var tempExceptions: seq<Exception>
    var tempPrepareCommit: seq<Point>
    var tempCommitCommit: seq<Point>
    var tempPrepareResponse: seq<int>
    var tempCommitResponse: seq<int>
    var msg: seq<int>
    var data: seq<int>
    const root: bool

    constructor (q: nat, index: nat, private: int, publics: seq<Point>, hash: (Point, Point, seq<int>) -> int,
                 digest: seq<int> -> seq<int>, children: nat, treeSize: nat, root: bool)
      ensures this.q == q && this.index == index && this.private == private && this.publics == publics
      ensures this.hash == hash && this.digest == digest && this.children == children && threshold == (treeSize + 1) * 2 / 3
      ensures !signRefusal && tempExceptions == [] && tempPrepareCommit == [] && tempCommitCommit == []
      ensures tempPrepareResponse == [] && tempCommitResponse == [] && msg == [] && data == [] && this.root == root
    {
      this.q, this.index, this.private, this.publics, this.hash, this.digest := q, index, private, publics, hash, digest;
      this.children, threshold := children, (treeSize + 1) * 2 / 3;
      prepare, commit := CosiRound(0, NullPoint, 0, 0, 0), CosiRound(0, NullPoint, 0, 0, 0);
      signRefusal := false;
      tempExceptions, tempPrepareCommit, tempCommitCommit := [], [], [];
      tempPrepareResponse, tempCommitResponse, msg, data := [], [], [], [];
      this.root := root;
    }

    /** A leaf answers an announcement with its own commitment. */
    method StartCommitment(prepareRound: bool, secret: int) returns (sent: Point)
      requires q >= 1
      modifies this`prepare, this`commit
      ensures sent == NodeCommit(q, secret, [])
      ensures prepareRound ==> prepare == old(prepare).(random := secret, aggregateCommit := sent) && commit == old(commit)
      ensures !prepareRound ==> commit == old(commit).(random := secret, aggregateCommit := sent) && prepare == old(prepare)
    {
      sent := BaseMul(q, secret);
      if prepareRound {
        prepare := prepare.(random := secret, aggregateCommit := sent);
      } else {
        commit := commit.(random := secret, aggregateCommit := sent);
      }
    }

    /** The body of handleCommitment's loop: buffer one commitment, and aggregate a buffer that is full. The
        root keeps the aggregate for its challenge; every other node sends it to its parent. */
    method HandleCommitment(msg: CommitMessage, secret: int) returns (sent: Option<CommitMessage>)
      requires q >= 1
      modifies this`prepare, this`tempPrepareCommit, this`commit, this`tempCommitCommit
      ensures tempPrepareCommit == if msg.prepareRound then old(tempPrepareCommit) + [msg.commitment] else old(tempPrepareCommit)
      ensures tempCommitCommit == if msg.prepareRound then old(tempCommitCommit) else old(tempCommitCommit) + [msg.commitment]
      ensures var buffer := if msg.prepareRound then tempPrepareCommit else tempCommitCommit;
              sent == if |buffer| < children then None else Some(CommitMessage(msg.prepareRound, NodeCommit(q, secret, buffer)))
      ensures prepare == if sent.Some? && msg.prepareRound
                         then old(prepare).(random := secret, aggregateCommit := sent.value.commitment) else old(prepare)
      ensures commit == if sent.Some? && !msg.prepareRound
                        then old(commit).(random := secret, aggregateCommit := sent.value.commitment) else old(commit)
    {
      if msg.prepareRound {
        tempPrepareCommit := tempPrepareCommit + [msg.commitment];
        if |tempPrepareCommit| < children {
          return None;
        }
        var aggregate := Aggregate(BaseMul(q, secret), tempPrepareCommit);
        prepare := prepare.(random := secret, aggregateCommit := aggregate);
        sent := Some(CommitMessage(true, aggregate));
      } else {
        tempCommitCommit := tempCommitCommit + [msg.commitment];
        if |tempCommitCommit| < children {
          return None;
        }
        var aggregate := Aggregate(BaseMul(q, secret), tempCommitCommit);
        commit := commit.(random := secret, aggregateCommit := aggregate);
        sent := Some(CommitMessage(false, aggregate));
      }
    }

    /** handleCommitment on a batch of messages of both rounds. */
    method HandleCommitments(msgs: seq<CommitMessage>, v: int, w: int) returns (sent: seq<CommitMessage>)
      requires q >= 1
      modifies this`prepare, this`tempPrepareCommit, this`commit, this`tempCommitCommit
      ensures tempPrepareCommit == old(tempPrepareCommit) + OfRound(msgs, true)
      ensures tempCommitCommit == old(tempCommitCommit) + OfRound(msgs, false)
      ensures sent == CommitSends(q, children, v, w, old(tempPrepareCommit), old(tempCommitCommit), msgs)
    {
      sent := [];
      ghost var ps, cs := tempPrepareCommit, tempCommitCommit;
      for i := 0 to |msgs|
        invariant tempPrepareCommit == ps + OfRound(msgs[..i], true)
        invariant tempCommitCommit == cs + OfRound(msgs[..i], false)
        invariant sent == CommitSends(q, children, v, w, ps, cs, msgs[..i])
      {
        CommitSendsStep(q, children, v, w, ps, cs, msgs, i, tempPrepareCommit, tempCommitCommit);
        var one := HandleCommitment(msgs[i], if msgs[i].prepareRound then v else w);
        if one.Some? {
          sent := sent + [one.value];
        }
      }
      assert msgs[..|msgs|] == msgs;
    }

    method Aggregate(own: Point, received: seq<Point>) returns (sum: Point)
      requires q >= 1
      ensures sum == PointAdd(q, own, SumPoints(q, received))
    {
      var others := NullPoint;
      for i := 0 to |received|
        invariant others == SumPoints(q, received[..i])
      {
        others := PointAdd(q, others, received[i]);
        assert received[..i + 1][..i] == received[..i];
      }
      assert received[..|received|] == received;
      return PointAdd(q, own, others);
    }

    /** The response of a round: own response plus those received. */
    method Respond(random: int, challenge: int, received: seq<int>) returns (own: int, aggregate: int)
      requires q >= 1
      ensures own == OwnResponse(q, random, challenge, private)
      ensures aggregate == NodeResponse(q, own, received)
    {
      own := ScalarAdd(q, ScalarMul(q, private, challenge), random);
      var others := 0;
      for i := 0 to |received|
        invariant others == SumScalars(q, received[..i])
      {
        others := ScalarAdd(q, others, received[i]);
        assert received[..i + 1][..i] == received[..i];
      }
      assert received[..|received|] == received;
      aggregate := ScalarAdd(q, own, others);
    }

    /** handleChallengePrepare: every node but the root takes over the challenge and what is to be verified.
        An inner node passes the challenge on, a leaf goes on to its response. */
    method HandleChallengePrepare(challenge: int, m: seq<int>, d: seq<int>) returns (verify: (seq<int>, seq<int>), passOn: bool)
      modifies this`prepare, this`msg, this`data
      ensures prepare == if root then old(prepare) else old(prepare).(challenge := challenge)
      ensures (msg, data) == if root then (old(msg), old(data)) else (m, d)
      ensures verify == (msg, data) && passOn == (children > 0)
    {
      if !root {
        msg, data := m, d;
        prepare := prepare.(challenge := challenge);
      }
      verify := (msg, data);
      passOn := children != 0;
    }

    /** The response phase of the prepare round: the answers of all children have arrived and the node's
        own verification has finished. */
    method HandlePrepareResponses(msgs: seq<Response>, verified: bool) returns (sent: Response)
      requires q >= 1 && |msgs| == children && tempPrepareResponse == [] && tempExceptions == []
      modifies this`prepare, this`tempPrepareResponse, this`tempExceptions
      ensures sent == PrepareResponse(q, index, prepare.random, private, verified, prepare.challenge, msgs)
      ensures tempExceptions == sent.exceptions && tempPrepareResponse == ResponsesOf(msgs)
      ensures var own := OwnResponse(q, prepare.random, prepare.challenge, private);
              prepare == old(prepare).(response := own, aggregateResponse := NodeResponse(q, own, ResponsesOf(msgs)))
    {
      for i := 0 to |msgs|
        modifies this`tempPrepareResponse, this`tempExceptions
        invariant tempPrepareResponse == ResponsesOf(msgs)[..i]
        invariant tempExceptions == Flatten(ExceptionsOf(msgs)[..i])
      {
        tempPrepareResponse := tempPrepareResponse + [msgs[i].response];
        tempExceptions := tempExceptions + msgs[i].exceptions;
        assert ExceptionsOf(msgs)[..i + 1][..i] == ExceptionsOf(msgs)[..i];
      }
      assert ResponsesOf(msgs)[..|msgs|] == ResponsesOf(msgs);
      assert ExceptionsOf(msgs)[..|msgs|] == ExceptionsOf(msgs);
      sent := WaitResponseVerification(verified);
    }

    method WaitResponseVerification(verified: bool) returns (r: Response)
      requires q >= 1
      modifies this`prepare, this`tempExceptions
      ensures var own := OwnResponse(q, prepare.random, prepare.challenge, private);
              var agg := NodeResponse(q, own, tempPrepareResponse);
              r == if verified then Response(agg, old(tempExceptions))
                   else Response(ScalarSub(q, agg, own), old(tempExceptions) + [Exception(index, BaseMul(q, prepare.random))])
      ensures tempExceptions == r.exceptions
      ensures var own := OwnResponse(q, prepare.random, prepare.challenge, private);
              prepare == old(prepare).(response := own, aggregateResponse := NodeResponse(q, own, tempPrepareResponse))
    {
      var own, resp := Respond(prepare.random, prepare.challenge, tempPrepareResponse);
      prepare := prepare.(response := own, aggregateResponse := resp);
      if !verified {
        tempExceptions := tempExceptions + [Exception(index, BaseMul(q, prepare.random))];
        resp := ScalarSub(q, resp, prepare.response);
      }
      return Response(resp, tempExceptions);
    }

    /** handleChallengeCommit: check the prepare signature, which is on the digest of the message, and count
        the refusals. */
    method HandleChallengeCommit(challenge: int, signature: BFTSignature)
      requires q >= 1
      requires forall e :: 0 <= e < |signature.exceptions| ==> signature.exceptions[e].index < |publics|
      modifies this`commit, this`signRefusal, this`tempExceptions
      ensures var content := if signature.msg.None? then [] else signature.msg.value;
              signRefusal <==> old(signRefusal) || Declines(q, hash, publics, signature.(msg := Some(digest(content))), threshold)
      ensures tempExceptions == signature.exceptions
      ensures commit == if root then old(commit) else old(commit).(challenge := challenge)
    {
      if !root {
        commit := commit.(challenge := challenge);
      }
      var content := if signature.msg.None? then [] else signature.msg.value;
      var prepared := BFTSignature(signature.sig, Some(digest(content)), signature.exceptions);
      var ok := Verify(q, hash, publics, prepared);
      if !ok {
        signRefusal := true;
      }
      if |signature.exceptions| >= threshold {
        signRefusal := true;
      }
      tempExceptions := signature.exceptions;
    }

    /** The response phase of the commit round: a node that declines takes its own response out and adds
        itself to the exceptions of the message that it answers, the last one received. */
    method HandleCommitResponses(msgs: seq<Response>) returns (sent: Response)
      requires q >= 1 && |msgs| == children && tempCommitResponse == []
      modifies this`commit, this`tempCommitResponse
      ensures sent.response == CommitResponse(q, commit.random, private, signRefusal, commit.challenge, ResponsesOf(msgs))
      ensures sent.exceptions == (if msgs == [] then [] else msgs[|msgs| - 1].exceptions)
                                 + if signRefusal then [Exception(index, BaseMul(q, commit.random))] else []
      ensures commit == old(commit).(response := OwnResponse(q, commit.random, commit.challenge, private), aggregateResponse := sent.response)
      ensures tempCommitResponse == ResponsesOf(msgs)
    {
      for i := 0 to |msgs|
        modifies this`tempCommitResponse
        invariant tempCommitResponse == ResponsesOf(msgs)[..i]
      {
        tempCommitResponse := tempCommitResponse + [msgs[i].response];
      }
      assert ResponsesOf(msgs)[..|msgs|] == ResponsesOf(msgs);
      var own, r := Respond(commit.random, commit.challenge, tempCommitResponse);
      var exceptions := if |msgs| == 0 then [] else msgs[|msgs| - 1].exceptions;
      commit := commit.(response := own, aggregateResponse := r);
      if signRefusal {
        exceptions := exceptions + [Exception(index, BaseMul(q, commit.random))];
        r := ScalarSub(q, r, own);
        commit := commit.(aggregateResponse := r);
      }
      return Response(r, exceptions);
    }

    /** Signature: what the root outputs. */
    method Signature() returns (out: BFTSignature)
      ensures out == RootOutput(signRefusal, CosiSignature(commit.aggregateCommit, commit.aggregateResponse), msg, tempExceptions)
    {
      out := BFTSignature(Some(CosiSignature(commit.aggregateCommit, commit.aggregateResponse)), Some(msg), []);
      if signRefusal {
        out := out.(sig := None, exceptions := tempExceptions);
      }
    }
  }
}
