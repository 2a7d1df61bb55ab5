/** Collective signing without refusals: bottom-up commitments, one challenge, bottom-up responses. */
module Cosi {
  import opened Options
  import opened GroupArith

  /** A node's own commitment and the aggregate of its children, which a leaf leaves out. */
  datatype Commitment = Commitment(commitment: Point, children: Option<Point>)

  datatype Response = Response(response: int, children: Option<int>)

  datatype Exception = Exception(public: Point, commitment: Point)

  // ----- One node -----------------------------------------------------------------------------------

  function AddCommitment(q: nat, acc: Point, com: Commitment): Point
    requires q >= 1
  {
    var own := PointAdd(q, acc, com.commitment);
    if com.children.Some? then PointAdd(q, own, com.children.value) else own
  }

  function SumCommitments(q: nat, comms: seq<Commitment>): Point
    requires q >= 1
  {
    if comms == [] then NullPoint else AddCommitment(q, SumCommitments(q, comms[..|comms| - 1]), comms[|comms| - 1])
  }

  function AddResponse(q: nat, acc: int, resp: Response): int
    requires q >= 1
  {
    var own := ScalarAdd(q, acc, resp.response);
    if resp.children.Some? then ScalarAdd(q, own, resp.children.value) else own
  }

  function SumResponses(q: nat, resps: seq<Response>): int
    requires q >= 1
  {
    if resps == [] then 0 else AddResponse(q, SumResponses(q, resps[..|resps| - 1]), resps[|resps| - 1])
  }

  /** v - c * x. */
  function OwnResponse(q: nat, private: int, random: int, challenge: int): int
    requires q >= 1
  {
    ScalarSub(q, random, ScalarMul(q, private, challenge))
  }

  /** The commitment that a response and a challenge stand for under a public key. */
  function Recreated(q: nat, public: Point, challenge: int, response: int): Point
    requires q >= 1
  {
    PointAdd(q, BaseMul(q, response), PointMul(q, public, challenge))
  }

  /** `hash` picks the challenge for a commitment and a message. */
  predicate Verifies(q: nat, hash: (Point, seq<int>) -> int, msg: seq<int>, public: Point, challenge: int, response: int)
    requires q >= 1
  {
    hash(Recreated(q, public, challenge, response), msg) == challenge
  }

  class Node {
    const q: nat
    const hash: (Point, seq<int>) -> int
    const private: Option<int>
    var random: Option<int>
    var commitment: Option<Point>
    var aggregateCommitment: Option<Point>
    var challenge: Option<int>
    var response: Option<int>
    var aggregateResponse: Option<int>

    ghost predicate Valid()
      reads this
    {
      q >= 1 && (aggregateCommitment.Some? ==> 0 <= aggregateCommitment.value.log < q)
    }

    constructor (order: nat, pick: (Point, seq<int>) -> int, key: Option<int>)
      requires order >= 1
      ensures Valid() && q == order && hash == pick && private == key
      ensures random == None && commitment == None && aggregateCommitment == None
      ensures challenge == None && response == None && aggregateResponse == None
    {
      q, hash, private := order, pick, key;
      random, commitment, aggregateCommitment := None, None, None;
      challenge, response, aggregateResponse := None, None, None;
    }

    /** `secret` is the freshly picked random scalar. A leaf does not set its aggregate. */
    method CreateCommitment(secret: int) returns (com: Commitment)
      requires Valid()
      modifies this`random, this`commitment
      ensures Valid() && random == Some(secret) && commitment == Some(BaseMul(q, secret))
      ensures com == Commitment(BaseMul(q, secret), None)
    {
      random, commitment := Some(secret), Some(BaseMul(q, secret));
      com := Commitment(BaseMul(q, secret), None);
    }

    method Commit(secret: int, comms: seq<Commitment>) returns (com: Commitment)
      requires Valid()
      modifies this`random, this`commitment, this`aggregateCommitment
      ensures Valid() && random == Some(secret) && commitment == Some(BaseMul(q, secret))
      ensures com == Commitment(BaseMul(q, secret), Some(SumCommitments(q, comms)))
      ensures aggregateCommitment == Some(PointAdd(q, SumCommitments(q, comms), BaseMul(q, secret)))
    {
      var own := CreateCommitment(secret);
      var childVHat := NullPoint;
      for i := 0 to |comms|
        invariant childVHat == SumCommitments(q, comms[..i])
      {
        assert comms[..i + 1][..i] == comms[..i];
        childVHat := PointAdd(q, childVHat, comms[i].commitment);
        if comms[i].children.Some? {
          childVHat := PointAdd(q, childVHat, comms[i].children.value);
        }
      }
      assert comms[..|comms|] == comms;
      aggregateCommitment := Some(PointAdd(q, childVHat, own.commitment));
      com := Commitment(own.commitment, Some(childVHat));
    }

    /** None stands for the error of a node without an aggregate commitment. */
    method CreateChallenge(msg: seq<int>) returns (ch: Option<int>)
      requires Valid()
      modifies this`challenge
      ensures Valid()
      ensures ch == if aggregateCommitment.None? then None else Some(hash(aggregateCommitment.value, msg))
      ensures challenge == if ch.None? then old(challenge) else ch
    {
      if aggregateCommitment.None? {
        return None;
      }
      challenge := Some(hash(aggregateCommitment.value, msg));
      ch := challenge;
    }

    method Challenge(ch: int)
      requires Valid()
      modifies this`challenge
      ensures Valid() && challenge == Some(ch)
    {
      challenge := Some(ch);
    }

    predicate Ready()
      reads this
    {
      private.Some? && random.Some? && challenge.Some?
    }

    method GenResponse() returns (ok: bool)
      requires Valid()
      modifies this`response, this`aggregateResponse
      ensures Valid() && ok == Ready()
      ensures ok ==> response == aggregateResponse == Some(OwnResponse(q, private.value, random.value, challenge.value))
      ensures !ok ==> response == old(response) && aggregateResponse == old(aggregateResponse)
    {
      if private.None? || random.None? || challenge.None? {
        return false;
      }
      var resp := ScalarMul(q, private.value, challenge.value);
      response := Some(ScalarSub(q, random.value, resp));
      aggregateResponse := response;
      ok := true;
    }

    /** None stands for the error of a node without key, secret or challenge. */
    method Respond(resps: seq<Response>) returns (r: Option<Response>)
      requires Valid()
      modifies this`response, this`aggregateResponse
      ensures Valid() && (r.Some? <==> Ready())
      ensures r.Some? ==>
        var own := OwnResponse(q, private.value, random.value, challenge.value);
        && r.value == Response(own, Some(SumResponses(q, resps)))
        && response == Some(own) && aggregateResponse == Some(ScalarAdd(q, SumResponses(q, resps), own))
      ensures r.None? ==> response == old(response) && aggregateResponse == old(aggregateResponse)
    {
      var ok := GenResponse();
      if !ok {
        return None;
      }
      var sum := 0;
      for i := 0 to |resps|
        invariant sum == SumResponses(q, resps[..i])
      {
        assert resps[..i + 1][..i] == resps[..i];
        sum := ScalarAdd(q, sum, resps[i].response);
        if resps[i].children.Some? {
          sum := ScalarAdd(q, sum, resps[i].children.value);
        }
      }
      assert resps[..|resps|] == resps;
      aggregateResponse := Some(ScalarAdd(q, sum, response.value));
      r := Some(Response(response.value, Some(sum)));
    }

    /** Needs a finished round, as the source does. */
    method VerifyResponses(aggregatedPublic: Point) returns (ok: bool)
      requires Valid() && aggregateCommitment.Some? && aggregateResponse.Some? && challenge.Some?
      ensures ok <==> Recreated(q, aggregatedPublic, challenge.value, aggregateResponse.value) == aggregateCommitment.value
    {
      var com := PointAdd(q, BaseMul(q, aggregateResponse.value), PointMul(q, aggregatedPublic, challenge.value));
      var T := PointAdd(q, NullPoint, com);
      ok := T == aggregateCommitment.value;
    }
  }

  // ----- A whole round over a tree ----------------------------------------------------------------------

  /** The nodes with their private keys and round secrets. */
  datatype Tree = Tree(private: int, random: int, children: seq<Tree>)

  /** What a node sends up: leaves call CreateCommitment, the others Commit. */
  function CommitUp(q: nat, t: Tree): Commitment
    requires q >= 1
    decreases t, 1
  {
    Commitment(BaseMul(q, t.random), if t.children == [] then None else Some(SumCommitments(q, CommitsUp(q, t.children))))
  }

  function CommitsUp(q: nat, ts: seq<Tree>): (r: seq<Commitment>)
    requires q >= 1
    ensures |r| == |ts|
    decreases ts, 0
  {
    if ts == [] then [] else CommitsUp(q, ts[..|ts| - 1]) + [CommitUp(q, ts[|ts| - 1])]
  }

  /** The root's aggregate commitment. */
  function AggregateCommitment(q: nat, t: Tree): Point
    requires q >= 1
  {
    PointAdd(q, SumCommitments(q, CommitsUp(q, t.children)), BaseMul(q, t.random))
  }

  function RespondUp(q: nat, c: int, t: Tree): Response
    requires q >= 1
    decreases t, 1
  {
    Response(OwnResponse(q, t.private, t.random, c), if t.children == [] then None else Some(SumResponses(q, RespondsUp(q, c, t.children))))
  }

  function RespondsUp(q: nat, c: int, ts: seq<Tree>): (r: seq<Response>)
    requires q >= 1
    ensures |r| == |ts|
    decreases ts, 0
  {
    if ts == [] then [] else RespondsUp(q, c, ts[..|ts| - 1]) + [RespondUp(q, c, ts[|ts| - 1])]
  }

  function AggregateResponse(q: nat, c: int, t: Tree): int
    requires q >= 1
  {
    ScalarAdd(q, SumResponses(q, RespondsUp(q, c, t.children)), OwnResponse(q, t.private, t.random, c))
  }

  /** The sum of all public keys of the tree. */
  function PublicSum(q: nat, t: Tree): Point
    requires q >= 1
    decreases t, 1
  {
    PointAdd(q, PublicSums(q, t.children), BaseMul(q, t.private))
  }

  function PublicSums(q: nat, ts: seq<Tree>): Point
    requires q >= 1
    decreases ts, 0
  {
    if ts == [] then NullPoint else PointAdd(q, PublicSums(q, ts[..|ts| - 1]), PublicSum(q, ts[|ts| - 1]))
  }

  // ----- The sums behind the points -----------------------------------------------------------------------

  function Randoms(t: Tree): int
    decreases t, 1
  {
    RandomsOf(t.children) + t.random
  }

  function RandomsOf(ts: seq<Tree>): int
    decreases ts, 0
  {
    if ts == [] then 0 else RandomsOf(ts[..|ts| - 1]) + Randoms(ts[|ts| - 1])
  }

  function Privates(t: Tree): int
    decreases t, 1
  {
    PrivatesOf(t.children) + t.private
  }

  function PrivatesOf(ts: seq<Tree>): int
    decreases ts, 0
  {
    if ts == [] then 0 else PrivatesOf(ts[..|ts| - 1]) + Privates(ts[|ts| - 1])
  }

  function CommitTotal(com: Commitment): int
  {
    com.commitment.log + if com.children.Some? then com.children.value.log else 0
  }

  function ResponseTotal(r: Response): int
  {
    r.response + if r.children.Some? then r.children.value else 0
  }

  lemma AddedCommitment(q: nat, acc: Point, com: Commitment)
    requires q >= 1
    ensures Cong(q, AddCommitment(q, acc, com).log, acc.log + CommitTotal(com))
  {
    CongReduce(q, acc.log + com.commitment.log);
    if com.children.Some? {
      var k := com.children.value.log;
      CongModAdd(q, Reduce(q, acc.log + com.commitment.log), acc.log + com.commitment.log, k, k);
    }
  }

  lemma AddedResponse(q: nat, acc: int, r: Response)
    requires q >= 1
    ensures Cong(q, AddResponse(q, acc, r), acc + ResponseTotal(r))
  {
    CongReduce(q, acc + r.response);
    if r.children.Some? {
      CongModAdd(q, Reduce(q, acc + r.response), acc + r.response, r.children.value, r.children.value);
    }
  }

  lemma {:induction false} CommitUpSum(q: nat, t: Tree)
    requires q >= 1
    ensures Cong(q, CommitTotal(CommitUp(q, t)), Randoms(t))
    decreases t, 1
  {
    CongReduce(q, t.random);
    CommitsUpSum(q, t.children);
    CongAdd(q, SumCommitments(q, CommitsUp(q, t.children)).log, RandomsOf(t.children), Reduce(q, t.random), t.random);
  }

  lemma {:induction false} CommitsUpSum(q: nat, ts: seq<Tree>)
    requires q >= 1
    ensures Cong(q, SumCommitments(q, CommitsUp(q, ts)).log, RandomsOf(ts))
    decreases ts, 0
  {
    if ts != [] {
      var front, last := ts[..|ts| - 1], ts[|ts| - 1];
      CommitsUpSum(q, front);
      CommitUpSum(q, last);
      var cs := CommitsUp(q, ts);
      assert cs[..|cs| - 1] == CommitsUp(q, front);
      AddedCommitment(q, SumCommitments(q, CommitsUp(q, front)), CommitUp(q, last));
      CongAdd(q, SumCommitments(q, CommitsUp(q, front)).log, RandomsOf(front), CommitTotal(CommitUp(q, last)), Randoms(last));
    }
  }

  lemma OwnResponseSum(q: nat, x: int, v: int, c: int)
    requires q >= 1
    ensures Cong(q, OwnResponse(q, x, v, c), v - Times(x, c))
  {
    CongReduce(q, Times(x, c));
    CongModSub(q, v, v, Reduce(q, Times(x, c)), Times(x, c));
  }

  lemma {:induction false} RespondUpSum(q: nat, c: int, t: Tree)
    requires q >= 1
    ensures Cong(q, ResponseTotal(RespondUp(q, c, t)), Randoms(t) - Times(Privates(t), c))
    decreases t, 1
  {
    OwnResponseSum(q, t.private, t.random, c);
    RespondsUpSum(q, c, t.children);
    TimesAdd(PrivatesOf(t.children), t.private, c);
    TimesZero(c);
    CongAdd(q, SumResponses(q, RespondsUp(q, c, t.children)), RandomsOf(t.children) - Times(PrivatesOf(t.children), c),
            OwnResponse(q, t.private, t.random, c), t.random - Times(t.private, c));
  }

  lemma {:induction false} RespondsUpSum(q: nat, c: int, ts: seq<Tree>)
    requires q >= 1
    ensures Cong(q, SumResponses(q, RespondsUp(q, c, ts)), RandomsOf(ts) - Times(PrivatesOf(ts), c))
    decreases ts, 0
  {
    if ts == [] {
      TimesZero(c);
    } else {
      var front, last := ts[..|ts| - 1], ts[|ts| - 1];
      RespondsUpSum(q, c, front);
      RespondUpSum(q, c, last);
      var rs := RespondsUp(q, c, ts);
      assert rs[..|rs| - 1] == RespondsUp(q, c, front);
      AddedResponse(q, SumResponses(q, RespondsUp(q, c, front)), RespondUp(q, c, last));
      TimesAdd(PrivatesOf(front), Privates(last), c);
      CongAdd(q, SumResponses(q, RespondsUp(q, c, front)), RandomsOf(front) - Times(PrivatesOf(front), c),
              ResponseTotal(RespondUp(q, c, last)), Randoms(last) - Times(Privates(last), c));
    }
  }

  lemma {:induction false} PublicSumLog(q: nat, t: Tree)
    requires q >= 1
    ensures Cong(q, PublicSum(q, t).log, Privates(t))
    decreases t, 1
  {
    PublicSumsLog(q, t.children);
    CongReduce(q, t.private);
    CongModAdd(q, PublicSums(q, t.children).log, PrivatesOf(t.children), Reduce(q, t.private), t.private);
  }

  lemma {:induction false} PublicSumsLog(q: nat, ts: seq<Tree>)
    requires q >= 1
    ensures Cong(q, PublicSums(q, ts).log, PrivatesOf(ts))
    decreases ts, 0
  {
    if ts != [] {
      PublicSumsLog(q, ts[..|ts| - 1]);
      PublicSumLog(q, ts[|ts| - 1]);
      CongModAdd(q, PublicSums(q, ts[..|ts| - 1]).log, PrivatesOf(ts[..|ts| - 1]), PublicSum(q, ts[|ts| - 1]).log, Privates(ts[|ts| - 1]));
    }
  }

  // ----- The round verifies ----------------------------------------------------------------------------------

  lemma RecreatedLog(q: nat, public: Point, c: int, r: int, x: int, s: int)
    requires q >= 1 && Cong(q, public.log, x) && Cong(q, r, s)
    ensures Recreated(q, public, c, r).log == Reduce(q, s + Times(x, c))
  {
    CongMul(q, public.log, x, c);
    CongReduce(q, r);
    CongReduce(q, Times(public.log, c));
    CongModAdd(q, Reduce(q, r), s, Reduce(q, Times(public.log, c)), Times(x, c));
  }

  lemma AggregateLog(q: nat, t: Tree)
    requires q >= 1
    ensures AggregateCommitment(q, t).log == Reduce(q, Randoms(t))
  {
    CommitsUpSum(q, t.children);
    CongReduce(q, t.random);
    CongModAdd(q, SumCommitments(q, CommitsUp(q, t.children)).log, RandomsOf(t.children), Reduce(q, t.random), t.random);
  }

  lemma AggregateResponseLog(q: nat, c: int, t: Tree)
    requires q >= 1
    ensures Cong(q, AggregateResponse(q, c, t), Randoms(t) - Times(Privates(t), c))
  {
    OwnResponseSum(q, t.private, t.random, c);
    RespondsUpSum(q, c, t.children);
    TimesAdd(PrivatesOf(t.children), t.private, c);
    SumOfShares(q, SumResponses(q, RespondsUp(q, c, t.children)), RandomsOf(t.children), Times(PrivatesOf(t.children), c),
                OwnResponse(q, t.private, t.random, c), t.random, Times(t.private, c));
  }

  lemma SumOfShares(q: nat, a: int, v: int, x: int, b: int, w: int, y: int)
    requires q >= 1 && Cong(q, a, v - x) && Cong(q, b, w - y)
    ensures Cong(q, Reduce(q, a + b), (v + w) - (x + y))
  {
    CongModAdd(q, a, v - x, b, w - y);
  }

  /** For every tree and challenge the root's state passes VerifyResponses. */
  lemma ResponsesVerify(q: nat, c: int, t: Tree)
    requires q >= 1
    ensures Recreated(q, PublicSum(q, t), c, AggregateResponse(q, c, t)) == AggregateCommitment(q, t)
    ensures 0 <= AggregateCommitment(q, t).log < q
  {
    AggregateLog(q, t);
    AggregateResponseLog(q, c, t);
    PublicSumLog(q, t);
    RecreatedLog(q, PublicSum(q, t), c, AggregateResponse(q, c, t), Privates(t), Randoms(t) - Times(Privates(t), c));
  }

  /** For every tree and message the signature of the round verifies under the sum of all keys. */
  lemma SignatureVerifies(q: nat, hash: (Point, seq<int>) -> int, msg: seq<int>, t: Tree)
    requires q >= 1
    ensures var c := hash(AggregateCommitment(q, t), msg);
      Verifies(q, hash, msg, PublicSum(q, t), c, AggregateResponse(q, c, t))
  {
    ResponsesVerify(q, hash(AggregateCommitment(q, t), msg), t);
  }

  /** Under a key that stands for x, the check accepts a challenge and a secret on a message exactly if the
      challenge is the one for the commitment secret + x * challenge and the message. */
  lemma VerifiesExactly(q: nat, hash: (Point, seq<int>) -> int, msg: seq<int>, public: Point, x: int, challenge: int, secret: int)
    requires q >= 1 && Cong(q, public.log, x)
    ensures Verifies(q, hash, msg, public, challenge, secret) <==> hash(Point(Reduce(q, secret + Times(x, challenge))), msg) == challenge
  {
    RecreatedLog(q, public, challenge, secret, x, secret);
  }

  /** For every tree the signature of one message is accepted for another exactly if the round's commitment has
      the same challenge with both. */
  lemma SignatureFor(q: nat, hash: (Point, seq<int>) -> int, msg: seq<int>, other: seq<int>, t: Tree)
    requires q >= 1
    ensures var c := hash(AggregateCommitment(q, t), msg);
      Verifies(q, hash, other, PublicSum(q, t), c, AggregateResponse(q, c, t)) <==> hash(AggregateCommitment(q, t), other) == c
  {
    ResponsesVerify(q, hash(AggregateCommitment(q, t), msg), t);
  }

  /** With any other response the signature is accepted exactly if the commitment that is off by the difference
      has the same challenge. */
  lemma AlteredResponse(q: nat, hash: (Point, seq<int>) -> int, msg: seq<int>, t: Tree, delta: int)
    requires q >= 1
    ensures var c := hash(AggregateCommitment(q, t), msg);
      Verifies(q, hash, msg, PublicSum(q, t), c, AggregateResponse(q, c, t) + delta) <==> hash(Point(Reduce(q, Randoms(t) + delta)), msg) == c
  {
    var c := hash(AggregateCommitment(q, t), msg);
    PublicSumLog(q, t);
    AggregateResponseLog(q, c, t);
    CongAdd(q, AggregateResponse(q, c, t), Randoms(t) - Times(Privates(t), c), delta, delta);
    RecreatedLog(q, PublicSum(q, t), c, AggregateResponse(q, c, t) + delta, Privates(t), Randoms(t) - Times(Privates(t), c) + delta);
  }

  // ----- Verification with exceptions -------------------------------------------------------------------------

  function ExceptionCommitment(q: nat, exs: seq<Exception>): Point
    requires q >= 1
  {
    if exs == [] then NullPoint else PointAdd(q, ExceptionCommitment(q, exs[..|exs| - 1]), exs[|exs| - 1].commitment)
  }

  method VerifySignature(q: nat, hash: (Point, seq<int>) -> int, msg: seq<int>, public: Point, challenge: int, secret: int) returns (ok: bool)
    requires q >= 1
    ensures ok <==> Verifies(q, hash, msg, public, challenge, secret)
    ensures ok <==> hash(Point(Reduce(q, secret + Times(public.log, challenge))), msg) == challenge
  {
    VerifiesExactly(q, hash, msg, public, public.log, challenge, secret);
    var com := PointAdd(q, BaseMul(q, secret), PointMul(q, public, challenge));
    ok := hash(com, msg) == challenge;
  }

  /** The reduced key is computed and then not used: the full key enters the check. */
  method VerifySignatureWithException(q: nat, hash: (Point, seq<int>) -> int, public: Point, msg: seq<int>, challenge: int, secret: int, exceptions: seq<Exception>)
    returns (ok: bool)
    requires q >= 1
    ensures ok <==> hash(PointAdd(q, Recreated(q, public, challenge, secret), ExceptionCommitment(q, exceptions)), msg) == challenge
  {
    var subPublic := PointAdd(q, NullPoint, public);
    var aggExCommit := NullPoint;
    for i := 0 to |exceptions|
      invariant aggExCommit == ExceptionCommitment(q, exceptions[..i])
    {
      assert exceptions[..i + 1][..i] == exceptions[..i];
      subPublic := PointSub(q, subPublic, exceptions[i].public);
      aggExCommit := PointAdd(q, aggExCommit, exceptions[i].commitment);
    }
    assert exceptions[..|exceptions|] == exceptions;
    var com := PointAdd(q, BaseMul(q, secret), PointMul(q, public, challenge));
    com := PointAdd(q, com, aggExCommit);
    ok := hash(com, msg) == challenge;
  }

  /** A node that refuses, with its private key and round secret. */
  datatype Refuser = Refuser(private: int, random: int)

  function ExceptionsOf(q: nat, rs: seq<Refuser>): (exs: seq<Exception>)
    requires q >= 1
    ensures |exs| == |rs|
  {
    if rs == [] then []
    else ExceptionsOf(q, rs[..|rs| - 1]) + [Exception(BaseMul(q, rs[|rs| - 1].private), BaseMul(q, rs[|rs| - 1].random))]
  }

  function RefusedPrivates(rs: seq<Refuser>): int
  {
    if rs == [] then 0 else RefusedPrivates(rs[..|rs| - 1]) + rs[|rs| - 1].private
  }

  function RefusedRandoms(rs: seq<Refuser>): int
  {
    if rs == [] then 0 else RefusedRandoms(rs[..|rs| - 1]) + rs[|rs| - 1].random
  }

  /** The round's response without the responses of the refusers. */
  function ReducedResponse(q: nat, c: int, t: Tree, rs: seq<Refuser>): int
    requires q >= 1
  {
    if rs == [] then AggregateResponse(q, c, t)
    else ScalarSub(q, ReducedResponse(q, c, t, rs[..|rs| - 1]), OwnResponse(q, rs[|rs| - 1].private, rs[|rs| - 1].random, c))
  }

  lemma {:induction false} ExceptionLog(q: nat, rs: seq<Refuser>)
    requires q >= 1
    ensures Cong(q, ExceptionCommitment(q, ExceptionsOf(q, rs)).log, RefusedRandoms(rs))
  {
    if rs != [] {
      var front, last := rs[..|rs| - 1], rs[|rs| - 1];
      ExceptionLog(q, front);
      var exs := ExceptionsOf(q, rs);
      assert exs[..|exs| - 1] == ExceptionsOf(q, front);
      CongReduce(q, last.random);
      CongModAdd(q, ExceptionCommitment(q, ExceptionsOf(q, front)).log, RefusedRandoms(front), Reduce(q, last.random), last.random);
    }
  }

  lemma {:induction false} ReducedResponseLog(q: nat, c: int, t: Tree, rs: seq<Refuser>)
    requires q >= 1
    ensures Cong(q, ReducedResponse(q, c, t, rs),
                 Randoms(t) - Times(Privates(t), c) - (RefusedRandoms(rs) - Times(RefusedPrivates(rs), c)))
  {
    if rs == [] {
      TimesZero(c);
      AggregateResponseLog(q, c, t);
    } else {
      var front, last := rs[..|rs| - 1], rs[|rs| - 1];
      ReducedResponseLog(q, c, t, front);
      OwnResponseSum(q, last.private, last.random, c);
      TimesAdd(RefusedPrivates(front), last.private, c);
      CongModSub(q, ReducedResponse(q, c, t, front),
                 Randoms(t) - Times(Privates(t), c) - (RefusedRandoms(front) - Times(RefusedPrivates(front), c)),
                 OwnResponse(q, last.private, last.random, c), last.random - Times(last.private, c));
    }
  }

  lemma CongCancel(q: nat, a: int, b: int)
    requires q >= 1
    ensures Reduce(q, a + b) == Reduce(q, a) <==> Reduce(q, b) == 0
  {
    if Reduce(q, a + b) == Reduce(q, a) {
      CongSub(q, a + b, a, a, a);
    }
    if Reduce(q, b) == 0 {
      CongAdd(q, a, a, b, 0);
    }
  }

  /** The commitment that the check with exceptions recreates after the refusals rs. */
  function RecreatedWithout(q: nat, c: int, t: Tree, rs: seq<Refuser>): Point
    requires q >= 1
  {
    PointAdd(q, Recreated(q, PublicSum(q, t), c, ReducedResponse(q, c, t, rs)), ExceptionCommitment(q, ExceptionsOf(q, rs)))
  }

  lemma RecreatedWithoutLog(q: nat, c: int, t: Tree, rs: seq<Refuser>)
    requires q >= 1
    ensures RecreatedWithout(q, c, t, rs).log == Reduce(q, Randoms(t) + Times(RefusedPrivates(rs), c))
  {
    var s := Randoms(t) - Times(Privates(t), c) - (RefusedRandoms(rs) - Times(RefusedPrivates(rs), c));
    ReducedResponseLog(q, c, t, rs);
    PublicSumLog(q, t);
    ExceptionLog(q, rs);
    var r := Recreated(q, PublicSum(q, t), c, ReducedResponse(q, c, t, rs));
    RecreatedLog(q, PublicSum(q, t), c, ReducedResponse(q, c, t, rs), Privates(t), s);
    CongReduce(q, s + Times(Privates(t), c));
    CongModAdd(q, r.log, s + Times(Privates(t), c), ExceptionCommitment(q, ExceptionsOf(q, rs)).log, RefusedRandoms(rs));
  }

  /**
    * The check with exceptions recreates the commitment off by the challenge times the refusers' keys,
    * so it recreates the round's own commitment exactly when that product vanishes.
    */
  lemma ExceptionsRecreate(q: nat, c: int, t: Tree, rs: seq<Refuser>)
    requires q >= 1
    ensures RecreatedWithout(q, c, t, rs).log == Reduce(q, Randoms(t) + Times(RefusedPrivates(rs), c))
    ensures RecreatedWithout(q, c, t, rs) == AggregateCommitment(q, t) <==> Reduce(q, Times(RefusedPrivates(rs), c)) == 0
  {
    RecreatedWithoutLog(q, c, t, rs);
    AggregateLog(q, t);
    CongCancel(q, Randoms(t), Times(RefusedPrivates(rs), c));
  }

  /** The check with exceptions then accepts the round's signature; in general it accepts exactly if the
      challenge is also the one for the commitment that is off by that product. */
  lemma ExceptionsAccepted(q: nat, hash: (Point, seq<int>) -> int, msg: seq<int>, t: Tree, rs: seq<Refuser>)
    requires q >= 1
    ensures var c := hash(AggregateCommitment(q, t), msg);
      && (hash(RecreatedWithout(q, c, t, rs), msg) == c <==>
            hash(Point(Reduce(q, Randoms(t) + Times(RefusedPrivates(rs), c))), msg) == c)
      && (Reduce(q, Times(RefusedPrivates(rs), c)) == 0 ==> hash(RecreatedWithout(q, c, t, rs), msg) == c)
  {
    ExceptionsRecreate(q, hash(AggregateCommitment(q, t), msg), t, rs);
  }

  /** And it can be off: two nodes, one of which refuses, in a group of order five. */
  lemma ExceptionsWrong()
    ensures var t := Tree(1, 0, [Tree(1, 0, [])]); RecreatedWithout(5, 1, t, [Refuser(1, 0)]) != AggregateCommitment(5, t)
  {
    var t, rs := Tree(1, 0, [Tree(1, 0, [])]), [Refuser(1, 0)];
    assert rs[..0] == [];
    assert RefusedPrivates(rs) == 1;
    assert Times(1, 1) == 1;
    ExceptionsRecreate(5, 1, t, rs);
  }
}
