/** What holds in every interleaving of the PBFT round. */
module PbftSafety {
  import opened Counts
  import opened Pbft

  // ----- The invariant -----------------------------------------------------------------------------

  /** Copies of a sender's message that a replay goroutine may still put on the channel. */
  function Pending(r: Replay, store: seq<Message>, from: nat): nat
  {
    match r
    case Idle => multiset(store)[from]
    case Started => multiset(store)[from]
    case Sending(rest) => multiset(rest)[from]
    case Done => 0
  }

  /** Copies of a sender's Prepare (Commit) that the node has counted or may still count. */
  function PrepareCopies(x: Local, from: nat): nat
  {
    x.prepares[from] + Pending(x.replayPrepare, x.node.tempPrepare, from) + One(from in x.preparedBy)
  }

  function CommitCopies(x: Local, from: nat): nat
  {
    x.commits[from] + Pending(x.replayCommit, x.node.tempCommit, from) + One(from in x.committedBy)
  }

  /** What a node's own history says about its phase. */
  predicate PhaseOK(d: nat, x: Local)
  {
    && x.committed <= 1 && x.finished <= x.committed
    && (x.node.phase == PrePrepare ==> !x.verified && x.committed == 0)
    && (x.node.phase == Prepare && d != 0 ==> x.verified && x.committed == 0)
    && (x.node.phase == Commit ==> x.committed == 1 && x.finished == 0)
    && (x.node.phase == Finished ==> x.finished == 1)
    && (d != 0 && x.node.phase != PrePrepare ==> x.verified)
    && (d == 0 ==> !x.verified)
    && (!x.verified <==> x.replayPrepare.Idle?)
    && (x.committed == 0 <==> x.replayCommit.Idle?)
    && (x.setBack <==> x.node.phase == Prepare && x.committed == 1 && x.finished == 0)
  }

  predicate CountOK(n: nat, d: nat, x: Local)
  {
    && |x.preparedBy| == x.node.prepCount + (if x.committed == 0 then 0 else PrepareThreshold(n, d))
    && |x.committedBy| == x.node.commitCount + (if x.finished == 0 then 0 else Threshold(n))
    && x.node.prepCount < PrepareThreshold(n, d)
    && x.node.commitCount < Threshold(n)
  }

  /** Nobody gets more copies of a message than its sender has broadcast. */
  predicate CopiesOK(locals: seq<Local>, d: nat, from: nat)
    requires d < |locals|
  {
    && PrepareCopies(locals[d], from) <= One(from < |locals| && from != d && locals[from].verified)
    && CommitCopies(locals[d], from) <= One(from < |locals| && from != d && locals[from].committed > 0)
  }

  ghost predicate Inv(s: State)
  {
    && |s.locals| >= 1
    && s.unsent <= Others(|s.locals|) && s.prePrepares <= Others(|s.locals|)
    && (forall d {:trigger PhaseOK(d, s.locals[d])} :: 0 <= d < |s.locals| ==> PhaseOK(d, s.locals[d]))
    && (forall d {:trigger CountOK(|s.locals|, d, s.locals[d])} :: 0 <= d < |s.locals| ==> CountOK(|s.locals|, d, s.locals[d]))
    && (forall d: nat, from: nat {:trigger CopiesOK(s.locals, d, from)} :: d < |s.locals| ==> CopiesOK(s.locals, d, from))
  }

  lemma NewLocalOK(n: nat, d: nat, from: nat)
    requires d < n
    ensures PhaseOK(d, NewLocal()) && CountOK(n, d, NewLocal())
    ensures PrepareCopies(NewLocal(), from) == CommitCopies(NewLocal(), from) == 0
  {
  }

  lemma InitInv(n: nat)
    requires n >= 1
    ensures Inv(Init(n))
  {
    var s := Init(n);
    forall d: nat | d < n ensures s.locals[d] == NewLocal() && PhaseOK(d, s.locals[d]) && CountOK(n, d, s.locals[d]) {
      NewLocalOK(n, d, 0);
    }
    forall d: nat, from: nat | d < n ensures CopiesOK(s.locals, d, from) {
      NewLocalOK(n, d, from);
    }
  }

  // ----- Counted senders -----------------------------------------------------------------------------

  lemma PreparedByOthers(s: State, d: nat)
    requires Inv(s) && d < |s.locals|
    ensures s.locals[d].preparedBy <= Others(|s.locals|) - {d}
    ensures forall from :: from in s.locals[d].preparedBy ==> from < |s.locals| && s.locals[from].verified
  {
    forall from | from in s.locals[d].preparedBy
      ensures from in Others(|s.locals|) - {d} && s.locals[from].verified
    {
      assert CopiesOK(s.locals, d, from);
      assert PhaseOK(from, s.locals[from]);
    }
  }

  /** A message on the channel of a node has not been counted there. */
  lemma NotYetCounted(s: State, d: nat, from: nat)
    requires Inv(s) && d < |s.locals|
    ensures from in s.locals[d].prepares ==> from !in s.locals[d].preparedBy && from < |s.locals| && from != d && s.locals[from].verified
    ensures from in s.locals[d].commits ==> from !in s.locals[d].committedBy
  {
    assert CopiesOK(s.locals, d, from);
  }

  /** The root cannot collect a second quorum of Prepares, even if its state was set back. */
  lemma NoSecondQuorum(s: State, d: nat, from: nat)
    requires Inv(s) && d < |s.locals| && from in s.locals[d].prepares
    requires s.locals[d].node.phase == Prepare
    requires s.locals[d].node.prepCount + 1 >= PrepareThreshold(|s.locals|, d)
    ensures s.locals[d].committed == 0
  {
    var x, n := s.locals[d], |s.locals|;
    assert PhaseOK(d, x) && CountOK(n, d, x);
    if x.committed > 0 {
      PreparedByOthers(s, d);
      NotYetCounted(s, d, from);
      assert PhaseOK(from, s.locals[from]);
      SubsetSize(x.preparedBy + {from}, Others(n));
    }
  }

  // ----- Every step keeps the invariant ---------------------------------------------------------------

  /** A step inside one node that broadcasts nothing and creates no copies. */
  ghost predicate Quiet(x: Local, y: Local)
  {
    && x.verified == y.verified && x.committed == y.committed
    && (forall from: nat {:trigger PrepareCopies(y, from)} :: PrepareCopies(y, from) <= PrepareCopies(x, from))
    && (forall from: nat {:trigger CommitCopies(y, from)} :: CommitCopies(y, from) <= CommitCopies(x, from))
  }

  lemma QuietKeepsInv(s: State, t: State, d: nat, y: Local)
    requires Inv(s) && d < |s.locals| && t.locals == s.locals[d := y]
    requires t.unsent <= Others(|s.locals|) && t.prePrepares <= Others(|s.locals|)
    requires Quiet(s.locals[d], y) && PhaseOK(d, y) && CountOK(|s.locals|, d, y)
    ensures Inv(t)
  {
    forall k | 0 <= k < |t.locals| ensures PhaseOK(k, t.locals[k]) && CountOK(|t.locals|, k, t.locals[k]) {
      if k != d { assert PhaseOK(k, s.locals[k]) && CountOK(|s.locals|, k, s.locals[k]); }
    }
    forall k: nat, from: nat | k < |t.locals| ensures CopiesOK(t.locals, k, from) {
      assert CopiesOK(s.locals, k, from);
    }
  }

  lemma PendingStored(r: Replay, store: seq<Message>, m: Message, other: nat)
    ensures Pending(r, store + [m], other) <= Pending(r, store, other) + One(other == m)
  {
  }

  lemma PendingSent(rest: seq<Message>, other: nat)
    requires rest != []
    ensures multiset(rest)[other] == multiset(rest[1..])[other] + One(other == rest[0])
  {
    assert rest == [rest[0]] + rest[1..];
  }

  /** Counting or storing a message of the channel creates no copy. */
  lemma PrepareCopiesKept(x: Local, from: nat, threshold: int, other: nat)
    requires from in x.prepares && from !in x.preparedBy
    ensures var y := OnPrepare(x, from, threshold);
      PrepareCopies(y, other) <= PrepareCopies(x, other) && (x.replayCommit.Idle? || y.replayCommit == x.replayCommit ==> CommitCopies(y, other) == CommitCopies(x, other))
  {
    PendingStored(x.replayPrepare, x.node.tempPrepare, from, other);
  }

  lemma CommitCopiesKept(x: Local, from: nat, threshold: int, other: nat)
    requires from in x.commits && from !in x.committedBy
    ensures CommitCopies(OnCommit(x, from, threshold), other) <= CommitCopies(x, other)
    ensures PrepareCopies(OnCommit(x, from, threshold), other) == PrepareCopies(x, other)
  {
    PendingStored(x.replayCommit, x.node.tempCommit, from, other);
  }

  lemma ReplayPrepareCopies(x: Local, other: nat)
    ensures PrepareCopies(OnReplayPrepare(x), other) <= PrepareCopies(x, other)
    ensures CommitCopies(OnReplayPrepare(x), other) == CommitCopies(x, other)
  {
    if x.replayPrepare.Sending? && x.replayPrepare.rest != [] {
      PendingSent(x.replayPrepare.rest, other);
    }
  }

  lemma ReplayCommitCopies(x: Local, other: nat)
    ensures CommitCopies(OnReplayCommit(x), other) <= CommitCopies(x, other)
    ensures PrepareCopies(OnReplayCommit(x), other) == PrepareCopies(x, other)
  {
    if x.replayCommit.Sending? && x.replayCommit.rest != [] {
      PendingSent(x.replayCommit.rest, other);
    }
  }

  lemma ResetKeepsInv(s: State, d: nat)
    requires Inv(s) && Enabled(s, ResetRoot(d))
    ensures Inv(Step(s, ResetRoot(d)))
  {
    var x := s.locals[0];
    var y := OnReset(x);
    assert PhaseOK(0, x) && CountOK(|s.locals|, 0, x);
    assert Quiet(x, y);
    QuietKeepsInv(s, Step(s, ResetRoot(d)), 0, y);
  }

  lemma ReplayPrepareKeepsInv(s: State, d: nat)
    requires Inv(s) && Enabled(s, ReplayPrepare(d))
    ensures Inv(Step(s, ReplayPrepare(d)))
  {
    var x := s.locals[d];
    var y := OnReplayPrepare(x);
    assert PhaseOK(d, x) && CountOK(|s.locals|, d, x);
    forall other: nat ensures PrepareCopies(y, other) <= PrepareCopies(x, other) && CommitCopies(y, other) <= CommitCopies(x, other) {
      ReplayPrepareCopies(x, other);
    }
    QuietKeepsInv(s, Step(s, ReplayPrepare(d)), d, y);
  }

  lemma ReplayCommitKeepsInv(s: State, d: nat)
    requires Inv(s) && Enabled(s, ReplayCommit(d))
    ensures Inv(Step(s, ReplayCommit(d)))
  {
    var x := s.locals[d];
    var y := OnReplayCommit(x);
    assert PhaseOK(d, x) && CountOK(|s.locals|, d, x);
    forall other: nat ensures PrepareCopies(y, other) <= PrepareCopies(x, other) && CommitCopies(y, other) <= CommitCopies(x, other) {
      ReplayCommitCopies(x, other);
    }
    QuietKeepsInv(s, Step(s, ReplayCommit(d)), d, y);
  }

  lemma CommitKeepsInv(s: State, d: nat, from: nat)
    requires Inv(s) && Enabled(s, DeliverCommit(d, from))
    ensures Inv(Step(s, DeliverCommit(d, from)))
  {
    var x, n := s.locals[d], |s.locals|;
    var y := OnCommit(x, from, Threshold(n));
    assert PhaseOK(d, x) && CountOK(n, d, x);
    NotYetCounted(s, d, from);
    forall other: nat ensures PrepareCopies(y, other) <= PrepareCopies(x, other) && CommitCopies(y, other) <= CommitCopies(x, other) {
      CommitCopiesKept(x, from, Threshold(n), other);
    }
    assert |x.committedBy + {from}| == |x.committedBy| + 1;
    QuietKeepsInv(s, Step(s, DeliverCommit(d, from)), d, y);
  }

  lemma QuietPrepareKeepsInv(s: State, d: nat, from: nat)
    requires Inv(s) && Enabled(s, DeliverPrepare(d, from))
    requires !HandlePrepare(s.locals[d].node, from, PrepareThreshold(|s.locals|, d)).fired
    ensures Inv(Step(s, DeliverPrepare(d, from)))
  {
    var x, n := s.locals[d], |s.locals|;
    var y := OnPrepare(x, from, PrepareThreshold(n, d));
    assert PhaseOK(d, x) && CountOK(n, d, x);
    NotYetCounted(s, d, from);
    forall other: nat ensures PrepareCopies(y, other) <= PrepareCopies(x, other) && CommitCopies(y, other) <= CommitCopies(x, other) {
      PrepareCopiesKept(x, from, PrepareThreshold(n, d), other);
    }
    assert |x.preparedBy + {from}| == |x.preparedBy| + 1;
    QuietKeepsInv(s, Step(s, DeliverPrepare(d, from)), d, y);
  }

  /** A node that broadcasts: its own local state is y, every other node gets one more message. */
  lemma BroadcastKeepsInv(s: State, t: State, d: nat, y: Local, prepare: bool)
    requires Inv(s) && d < |s.locals|
    requires t.locals == if prepare then PostPrepare(s.locals[d := y], d) else PostCommit(s.locals[d := y], d)
    requires t.unsent <= Others(|s.locals|) && t.prePrepares <= Others(|s.locals|)
    requires PhaseOK(d, y) && CountOK(|s.locals|, d, y)
    requires if prepare then !s.locals[d].verified && y.verified && y.committed == s.locals[d].committed
             else s.locals[d].committed == 0 < y.committed && y.verified == s.locals[d].verified
    requires forall other: nat {:trigger PrepareCopies(y, other)} :: PrepareCopies(y, other) <= PrepareCopies(s.locals[d], other)
    requires forall other: nat {:trigger CommitCopies(y, other)} :: CommitCopies(y, other) <= CommitCopies(s.locals[d], other)
    ensures Inv(t)
  {
    var n := |s.locals|;
    forall k | 0 <= k < n ensures PhaseOK(k, t.locals[k]) && CountOK(n, k, t.locals[k]) {
      assert PhaseOK(k, s.locals[k]) && CountOK(n, k, s.locals[k]);
    }
    forall k: nat, other: nat | k < n ensures CopiesOK(t.locals, k, other) {
      assert CopiesOK(s.locals, k, other);
      if k != d { PostedCopies(s.locals, d, y, prepare, k, other); }
    }
  }

  /** One message more for every other node, from a node that has broadcast none of the kind before. */
  lemma PostedCopies(locals: seq<Local>, d: nat, y: Local, prepare: bool, k: nat, other: nat)
    requires d < |locals| && k < |locals| && k != d && CopiesOK(locals, k, other)
    requires if prepare then !locals[d].verified && y.verified && y.committed == locals[d].committed
             else locals[d].committed == 0 < y.committed && y.verified == locals[d].verified
    ensures CopiesOK(if prepare then PostPrepare(locals[d := y], d) else PostCommit(locals[d := y], d), k, other)
  {
    Received(locals[k], d, other);
  }

  lemma Received(x: Local, d: nat, other: nat)
    ensures PrepareCopies(x.(prepares := x.prepares + multiset{d}), other) == PrepareCopies(x, other) + One(other == d)
    ensures CommitCopies(x.(prepares := x.prepares + multiset{d}), other) == CommitCopies(x, other)
    ensures CommitCopies(x.(commits := x.commits + multiset{d}), other) == CommitCopies(x, other) + One(other == d)
    ensures PrepareCopies(x.(commits := x.commits + multiset{d}), other) == PrepareCopies(x, other)
  {
  }

  lemma CommittingKeepsInv(s: State, d: nat, from: nat)
    requires Inv(s) && Enabled(s, DeliverPrepare(d, from))
    requires HandlePrepare(s.locals[d].node, from, PrepareThreshold(|s.locals|, d)).fired
    ensures Inv(Step(s, DeliverPrepare(d, from)))
  {
    var x, n := s.locals[d], |s.locals|;
    var y := OnPrepare(x, from, PrepareThreshold(n, d));
    assert PhaseOK(d, x) && CountOK(n, d, x);
    NoSecondQuorum(s, d, from);
    NotYetCounted(s, d, from);
    assert |x.preparedBy + {from}| == |x.preparedBy| + 1;
    forall other: nat ensures PrepareCopies(y, other) <= PrepareCopies(x, other) && CommitCopies(y, other) <= CommitCopies(x, other) {
      PrepareCopiesKept(x, from, PrepareThreshold(n, d), other);
    }
    BroadcastKeepsInv(s, Step(s, DeliverPrepare(d, from)), d, y, false);
  }

  lemma VerifyingKeepsInv(s: State, d: nat)
    requires Inv(s) && Enabled(s, DeliverPrePrepare(d, true)) && s.locals[d].node.phase == PrePrepare
    ensures Inv(Step(s, DeliverPrePrepare(d, true)))
  {
    var x, n := s.locals[d], |s.locals|;
    var y := OnPrePrepare(x, true);
    assert PhaseOK(d, x) && CountOK(n, d, x);
    forall other: nat ensures PrepareCopies(y, other) <= PrepareCopies(x, other) && CommitCopies(y, other) <= CommitCopies(x, other) {
      assert Pending(y.replayPrepare, y.node.tempPrepare, other) == Pending(x.replayPrepare, x.node.tempPrepare, other);
    }
    BroadcastKeepsInv(s, Step(s, DeliverPrePrepare(d, true)), d, y, true);
  }

  lemma StepKeepsInv(s: State, e: Event)
    requires Inv(s) && Enabled(s, e)
    ensures Inv(Step(s, e))
  {
    match e
    case SendPrePrepare(d) =>
      assert Step(s, e).locals == s.locals;
    case ResetRoot(d) => ResetKeepsInv(s, d);
    case DeliverPrePrepare(d, ok) =>
      if ok && s.locals[d].node.phase == PrePrepare {
        VerifyingKeepsInv(s, d);
      } else {
        assert PhaseOK(d, s.locals[d]) && CountOK(|s.locals|, d, s.locals[d]);
        QuietKeepsInv(s, Step(s, e), d, s.locals[d]);
      }
    case DeliverPrepare(d, from) =>
      if HandlePrepare(s.locals[d].node, from, PrepareThreshold(|s.locals|, d)).fired {
        CommittingKeepsInv(s, d, from);
      } else {
        QuietPrepareKeepsInv(s, d, from);
      }
    case DeliverCommit(d, from) => CommitKeepsInv(s, d, from);
    case ReplayPrepare(d) => ReplayPrepareKeepsInv(s, d);
    case ReplayCommit(d) => ReplayCommitKeepsInv(s, d);
  }
}
