/** Safety of whole PBFT runs, and what the late state reset of the root costs. */
module PbftRuns {
  import opened Counts
  import opened Pbft
  import opened PbftSafety

  lemma {:induction false} RunKeepsInv(s: State, events: seq<Event>, t: State)
    requires Inv(s) && RunsTo(s, events, t)
    ensures Inv(t)
    decreases |events|
  {
    if events != [] {
      StepKeepsInv(s, events[0]);
      RunKeepsInv(Step(s, events[0]), events[1..], t);
    }
  }

  lemma {:induction false} RunKeepsSize(s: State, events: seq<Event>, t: State)
    requires RunsTo(s, events, t)
    ensures |t.locals| == |s.locals|
    decreases |events|
  {
    if events != [] {
      RunKeepsSize(Step(s, events[0]), events[1..], t);
    }
  }

  ghost predicate Reachable(n: nat, s: State)
  {
    exists events :: RunsTo(Init(n), events, s)
  }

  lemma ReachableInv(n: nat, s: State)
    requires n >= 1 && Reachable(n, s)
    ensures Inv(s) && |s.locals| == n
  {
    var events :| RunsTo(Init(n), events, s);
    InitInv(n);
    RunKeepsInv(Init(n), events, s);
    RunKeepsSize(Init(n), events, s);
  }

  /** In every interleaving each node broadcasts Commit at most once and finishes at most once. */
  lemma CommitsOnce(n: nat, s: State, d: nat)
    requires d < n && Reachable(n, s)
    ensures d < |s.locals| && s.locals[d].committed <= 1 && s.locals[d].finished <= s.locals[d].committed
  {
    ReachableInv(n, s);
    assert PhaseOK(d, s.locals[d]);
  }

  // ----- Who counts as a verifier ---------------------------------------------------------------------

  lemma OthersVerified(locals: seq<Local>, from: nat, d: nat)
    requires d < |locals|
    ensures PostPrepare(locals, from)[d].verified == PostCommit(locals, from)[d].verified == locals[d].verified
  {
  }

  lemma AcceptedVerifies(s: State, at: nat, ok: bool, d: nat)
    requires Inv(s) && Enabled(s, DeliverPrePrepare(at, ok)) && d < |s.locals|
    ensures d < |Step(s, DeliverPrePrepare(at, ok)).locals|
    ensures Step(s, DeliverPrePrepare(at, ok)).locals[d].verified <==> s.locals[d].verified || (d == at && ok)
  {
    assert PhaseOK(at, s.locals[at]);
    OthersVerified(s.locals[at := OnPrePrepare(s.locals[at], ok)], at, d);
  }

  lemma StepVerifies(s: State, e: Event, d: nat)
    requires Inv(s) && Enabled(s, e) && d < |s.locals|
    ensures d < |Step(s, e).locals|
    ensures Step(s, e).locals[d].verified <==> s.locals[d].verified || e == DeliverPrePrepare(d, true)
  {
    match e
    case DeliverPrePrepare(at, ok) => AcceptedVerifies(s, at, ok, d);
    case DeliverPrepare(at, from) =>
      OthersVerified(s.locals[at := OnPrepare(s.locals[at], from, PrepareThreshold(|s.locals|, at))], at, d);
    case SendPrePrepare(_) =>
    case ResetRoot(_) =>
    case DeliverCommit(_, _) =>
    case ReplayPrepare(_) =>
    case ReplayCommit(_) =>
  }

  lemma {:induction false} RunVerifies(s: State, events: seq<Event>, t: State, d: nat)
    requires Inv(s) && RunsTo(s, events, t) && d < |s.locals|
    ensures d < |t.locals| && (t.locals[d].verified <==> s.locals[d].verified || DeliverPrePrepare(d, true) in events)
    decreases |events|
  {
    if events != [] {
      StepKeepsInv(s, events[0]);
      StepVerifies(s, events[0], d);
      RunVerifies(Step(s, events[0]), events[1..], t, d);
      assert events == [events[0]] + events[1..];
    }
  }

  /** In every run a node counts as a verifier, and has broadcast Prepare, exactly if the block was delivered
      to it and its verification accepted it. */
  lemma VerifiedIff(n: nat, events: seq<Event>, s: State, d: nat)
    requires d < n && RunsTo(Init(n), events, s)
    ensures d < |s.locals| && (s.locals[d].verified <==> DeliverPrePrepare(d, true) in events)
  {
    InitInv(n);
    RunVerifies(Init(n), events, s, d);
  }

  // ----- Quorums ------------------------------------------------------------------------------------------

  predicate AllCommitted(s: State, d: nat, q: set<nat>)
  {
    forall k :: k in q ==> k != d && k < |s.locals| && s.locals[k].committed == 1
  }

  predicate AllVerified(s: State, q: set<nat>)
  {
    forall k :: k in q ==> 0 < k < |s.locals| && s.locals[k].verified
  }

  /** A node has finished only after a threshold of distinct other nodes broadcast Commit. */
  lemma FinishedQuorum(n: nat, s: State, d: nat)
    requires d < n && Reachable(n, s) && d < |s.locals| && s.locals[d].finished > 0
    ensures |s.locals[d].committedBy| >= Threshold(n) && AllCommitted(s, d, s.locals[d].committedBy)
  {
    ReachableInv(n, s);
    assert CountOK(n, d, s.locals[d]);
    forall k | k in s.locals[d].committedBy ensures k != d && k < |s.locals| && s.locals[k].committed == 1 {
      assert CopiesOK(s.locals, d, k);
      assert PhaseOK(k, s.locals[k]);
    }
  }

  /** A node has broadcast Commit only after a threshold of distinct non-root nodes verified the block. */
  lemma CommittedQuorum(n: nat, s: State, d: nat)
    requires d < n && Reachable(n, s) && d < |s.locals| && s.locals[d].committed > 0
    ensures exists q :: |q| >= Threshold(n) && AllVerified(s, q)
  {
    ReachableInv(n, s);
    var q := Verifiers(s, d);
  }

  /** The nodes whose Prepares a committed node counted, and the node itself unless it is the root. */
  lemma Verifiers(s: State, d: nat) returns (q: set<nat>)
    requires Inv(s) && d < |s.locals| && s.locals[d].committed > 0
    ensures |q| >= Threshold(|s.locals|) && AllVerified(s, q)
  {
    var x := s.locals[d];
    assert PhaseOK(d, x) && CountOK(|s.locals|, d, x);
    PreparedByOthers(s, d);
    q := if d == 0 then x.preparedBy else x.preparedBy + {d};
  }

  /** So a node finishes only if a threshold of distinct non-root nodes verified the block. */
  lemma FinishedVerified(n: nat, s: State, d: nat)
    requires d < n && Reachable(n, s) && d < |s.locals| && s.locals[d].finished > 0
    ensures exists q :: |q| >= Threshold(n) && AllVerified(s, q)
  {
    ReachableInv(n, s);
    FinishedQuorum(n, s, d);
    var k :| k in s.locals[d].committedBy;
    CommittedQuorum(n, s, k);
  }

  /** Any two nodes that finished counted the Commits of at least a third of the nodes in common. */
  lemma QuorumsMeet(n: nat, s: State, a: nat, b: nat)
    requires a < n && b < n && Reachable(n, s) && |s.locals| == n
    requires s.locals[a].finished > 0 && s.locals[b].finished > 0
    ensures 3 * |s.locals[a].committedBy * s.locals[b].committedBy| >= n
  {
    var p, q := s.locals[a].committedBy, s.locals[b].committedBy;
    FinishedQuorum(n, s, a);
    FinishedQuorum(n, s, b);
    SubsetSize(p + q, Interval(0, n));
    assert |p + q| + |p * q| == |p| + |q|;
  }

  // ----- The late reset -----------------------------------------------------------------------------

  /** The root was set back to the prepare state between its Commit and its finish. */
  predicate SetBack(s: State)
  {
    0 < |s.locals| && s.locals[0].setBack
  }

  lemma SetBackStays(s: State, e: Event)
    requires Inv(s) && SetBack(s) && Enabled(s, e)
    ensures SetBack(Step(s, e))
  {
    assert PhaseOK(0, s.locals[0]);
    if e.DeliverPrepare? && e.d == 0 && HandlePrepare(s.locals[0].node, e.from, PrepareThreshold(|s.locals|, 0)).fired {
      NoSecondQuorum(s, 0, e.from);
    }
  }

  /** From then on, whatever happens, the root never finishes. */
  lemma {:induction false} SetBackForever(n: nat, s: State, events: seq<Event>, t: State)
    requires n >= 1 && Reachable(n, s) && SetBack(s) && RunsTo(s, events, t)
    ensures SetBack(t) && t.locals[0].finished == 0
  {
    ReachableInv(n, s);
    BlockedRun(s, events, t);
    assert PhaseOK(0, t.locals[0]);
  }

  lemma {:induction false} BlockedRun(s: State, events: seq<Event>, t: State)
    requires Inv(s) && SetBack(s) && RunsTo(s, events, t)
    ensures SetBack(t) && Inv(t)
    decreases |events|
  {
    if events != [] {
      SetBackStays(s, events[0]);
      StepKeepsInv(s, events[0]);
      BlockedRun(Step(s, events[0]), events[1..], t);
    }
  }

  lemma {:induction false} RunExtends(s: State, events: seq<Event>, t: State, e: Event)
    requires RunsTo(s, events, t) && Enabled(t, e)
    ensures RunsTo(s, events + [e], Step(t, e))
    decreases |events|
  {
    if events == [] {
      assert (events + [e])[1..] == [];
    } else {
      RunExtends(Step(s, events[0]), events[1..], t, e);
      assert (events + [e])[1..] == events[1..] + [e];
    }
  }

  lemma ReachableStep(n: nat, s: State, e: Event) returns (t: State)
    requires Reachable(n, s) && Enabled(s, e)
    ensures Reachable(n, t) && t == Step(s, e)
  {
    var events :| RunsTo(Init(n), events, s);
    RunExtends(Init(n), events, s, e);
    t := Step(s, e);
  }

  /** After both PrePrepares were sent and verified, with one of the root's two resets still to come. */
  lemma BothVerified() returns (s: State)
    ensures Reachable(3, s) && |s.locals| == 3
    ensures 2 in s.unset && 2 !in s.unsent
    ensures s.locals[0] == NewLocal().(node := NewLocal().node.(phase := Prepare), prepares := multiset{1, 2})
  {
    s := Init(3);
    assert RunsTo(Init(3), [], s);
    s := ReachableStep(3, s, SendPrePrepare(1));
    s := ReachableStep(3, s, SendPrePrepare(2));
    s := ReachableStep(3, s, ResetRoot(1));
    s := ReachableStep(3, s, DeliverPrePrepare(1, true));
    s := ReachableStep(3, s, DeliverPrePrepare(2, true));
  }

  /** The reset can come that late: with three nodes the root can be set back after its Commit. */
  lemma LateReset() returns (s: State)
    ensures Reachable(3, s) && SetBack(s) && s.locals[0].finished == 0
  {
    s := BothVerified();
    assert PrepareThreshold(3, 0) == 2;
    s := ReachableStep(3, s, DeliverPrepare(0, 1));
    s := ReachableStep(3, s, DeliverPrepare(0, 2));
    s := ReachableStep(3, s, ResetRoot(2));
  }
}
