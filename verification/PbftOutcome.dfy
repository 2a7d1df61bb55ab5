/** When the PBFT round comes to rest: exactly which nodes have committed and finished. */
module PbftOutcome {
  import opened Counts
  import opened Pbft
  import opened PbftSafety
  import opened PbftRuns

  // ----- No message is lost while it matters ---------------------------------------------------------

  /** Before its Commit a node has counted, or can still count, every Prepare sent to it, and before its
      finish every Commit, unless its state was set back. */
  predicate Conserved(locals: seq<Local>, d: nat, from: nat)
    requires d < |locals|
  {
    && (locals[d].committed == 0 ==>
          PrepareCopies(locals[d], from) == One(from < |locals| && from != d && locals[from].verified))
    && (locals[d].finished == 0 && !locals[d].setBack ==>
          CommitCopies(locals[d], from) == One(from < |locals| && from != d && locals[from].committed > 0))
  }

  /** What the root stored early it never counts. */
  predicate EarlyOK(root: Local, from: nat)
  {
    && root.prepares[from] + One(from in root.early) + One(from in root.preparedBy) <= 1
    && (root.committed == 0 ==> multiset(root.node.tempPrepare)[from] == One(from in root.early))
  }

  ghost predicate Full(s: State)
  {
    && Inv(s)
    && (forall d: nat, from: nat {:trigger Conserved(s.locals, d, from)} :: d < |s.locals| ==> Conserved(s.locals, d, from))
    && (forall from: nat {:trigger EarlyOK(s.locals[0], from)} :: EarlyOK(s.locals[0], from))
    && forall from :: from in s.locals[0].early ==> from < |s.locals| && s.locals[from].verified
  }

  lemma InitFull(n: nat)
    requires n >= 1
    ensures Full(Init(n))
  {
    InitInv(n);
    var s := Init(n);
    forall d: nat, from: nat | d < n ensures Conserved(s.locals, d, from) {
      NewLocalOK(n, d, from);
    }
    forall from: nat ensures EarlyOK(s.locals[0], from) {
    }
  }

  /** A step inside one node that broadcasts nothing and loses no copy that matters. */
  ghost predicate Lossless(d: nat, x: Local, y: Local)
  {
    && x.verified == y.verified && x.committed == y.committed && x.finished <= y.finished && (x.setBack ==> y.setBack)
    && (y.committed == 0 ==> forall from: nat {:trigger PrepareCopies(y, from)} :: PrepareCopies(y, from) == PrepareCopies(x, from))
    && (y.finished == 0 && !y.setBack ==> forall from: nat {:trigger CommitCopies(y, from)} :: CommitCopies(y, from) == CommitCopies(x, from))
    && (d == 0 ==> forall from: nat {:trigger EarlyOK(y, from)} :: EarlyOK(y, from))
  }

  lemma LosslessKeepsFull(s: State, t: State, d: nat, y: Local)
    requires Full(s) && Inv(t) && d < |s.locals| && t.locals == s.locals[d := y] && Lossless(d, s.locals[d], y)
    requires d == 0 ==> forall from :: from in y.early ==> from < |s.locals| && s.locals[from].verified
    ensures Full(t)
  {
    forall k: nat, from: nat | k < |t.locals| ensures Conserved(t.locals, k, from) {
      assert Conserved(s.locals, k, from);
    }
    forall from: nat ensures EarlyOK(t.locals[0], from) {
      assert EarlyOK(s.locals[0], from);
    }
  }

  // ----- The steps ---------------------------------------------------------------------------------------

  lemma PrepareLossless(d: nat, x: Local, from: nat, threshold: int, other: nat)
    requires PhaseOK(d, x) && from in x.prepares && from !in x.preparedBy && x.committed == 0
    requires !HandlePrepare(x.node, from, threshold).fired
    ensures PrepareCopies(OnPrepare(x, from, threshold), other) == PrepareCopies(x, other)
  {
    assert multiset(x.node.tempPrepare + [from])[other] == multiset(x.node.tempPrepare)[other] + One(other == from);
  }

  lemma PrepareEarly(x: Local, from: nat, threshold: int, other: nat)
    requires PhaseOK(0, x) && from in x.prepares && EarlyOK(x, other) && EarlyOK(x, from)
    ensures EarlyOK(OnPrepare(x, from, threshold), other)
  {
    assert multiset(x.node.tempPrepare + [from])[other] == multiset(x.node.tempPrepare)[other] + One(other == from);
  }

  lemma CommitLossless(d: nat, x: Local, from: nat, threshold: int, other: nat)
    requires PhaseOK(d, x) && from in x.commits && from !in x.committedBy && x.finished == 0 && !x.setBack
    requires !HandleCommit(x.node, from, threshold).fired
    ensures CommitCopies(OnCommit(x, from, threshold), other) == CommitCopies(x, other)
  {
    assert multiset(x.node.tempCommit + [from])[other] == multiset(x.node.tempCommit)[other] + One(other == from);
  }

  lemma ReplayPrepareLossless(x: Local, other: nat)
    ensures PrepareCopies(OnReplayPrepare(x), other) == PrepareCopies(x, other)
    ensures CommitCopies(OnReplayPrepare(x), other) == CommitCopies(x, other)
  {
    if x.replayPrepare.Sending? && x.replayPrepare.rest != [] {
      PendingSent(x.replayPrepare.rest, other);
    }
  }

  lemma ReplayCommitLossless(x: Local, other: nat)
    ensures CommitCopies(OnReplayCommit(x), other) == CommitCopies(x, other)
    ensures PrepareCopies(OnReplayCommit(x), other) == PrepareCopies(x, other)
  {
    if x.replayCommit.Sending? && x.replayCommit.rest != [] {
      PendingSent(x.replayCommit.rest, other);
    }
  }

  lemma ResetKeepsFull(s: State, d: nat)
    requires Full(s) && Enabled(s, ResetRoot(d))
    ensures Full(Step(s, ResetRoot(d)))
  {
    var x := s.locals[0];
    var y := OnReset(x);
    StepKeepsInv(s, ResetRoot(d));
    assert PhaseOK(0, x);
    forall from: nat ensures EarlyOK(y, from) { assert EarlyOK(x, from); }
    LosslessKeepsFull(s, Step(s, ResetRoot(d)), 0, y);
  }

  lemma ReplayPrepareKeepsFull(s: State, d: nat)
    requires Full(s) && Enabled(s, ReplayPrepare(d))
    ensures Full(Step(s, ReplayPrepare(d)))
  {
    var x := s.locals[d];
    var y := OnReplayPrepare(x);
    StepKeepsInv(s, ReplayPrepare(d));
    assert PhaseOK(d, x);
    forall from: nat ensures PrepareCopies(y, from) == PrepareCopies(x, from) && CommitCopies(y, from) == CommitCopies(x, from) {
      ReplayPrepareLossless(x, from);
    }
    LosslessKeepsFull(s, Step(s, ReplayPrepare(d)), d, y);
  }

  lemma ReplayCommitKeepsFull(s: State, d: nat)
    requires Full(s) && Enabled(s, ReplayCommit(d))
    ensures Full(Step(s, ReplayCommit(d)))
  {
    var x := s.locals[d];
    var y := OnReplayCommit(x);
    StepKeepsInv(s, ReplayCommit(d));
    forall from: nat ensures PrepareCopies(y, from) == PrepareCopies(x, from) && CommitCopies(y, from) == CommitCopies(x, from) {
      ReplayCommitLossless(x, from);
    }
    forall from: nat | d == 0 ensures EarlyOK(y, from) { assert EarlyOK(x, from); }
    LosslessKeepsFull(s, Step(s, ReplayCommit(d)), d, y);
  }

  lemma CommitKeepsFull(s: State, d: nat, from: nat)
    requires Full(s) && Enabled(s, DeliverCommit(d, from))
    ensures Full(Step(s, DeliverCommit(d, from)))
  {
    var x, n := s.locals[d], |s.locals|;
    var y := OnCommit(x, from, Threshold(n));
    StepKeepsInv(s, DeliverCommit(d, from));
    NotYetCounted(s, d, from);
    assert PhaseOK(d, x);
    forall other: nat | y.finished == 0 && !y.setBack ensures CommitCopies(y, other) == CommitCopies(x, other) {
      CommitLossless(d, x, from, Threshold(n), other);
    }
    forall other: nat ensures PrepareCopies(y, other) == PrepareCopies(x, other) {
      CommitCopiesKept(x, from, Threshold(n), other);
    }
    forall other: nat | d == 0 ensures EarlyOK(y, other) { assert EarlyOK(x, other); }
    LosslessKeepsFull(s, Step(s, DeliverCommit(d, from)), d, y);
  }

  lemma QuietPrepareKeepsFull(s: State, d: nat, from: nat)
    requires Full(s) && Enabled(s, DeliverPrepare(d, from))
    requires !HandlePrepare(s.locals[d].node, from, PrepareThreshold(|s.locals|, d)).fired
    ensures Full(Step(s, DeliverPrepare(d, from)))
  {
    var x, th := s.locals[d], PrepareThreshold(|s.locals|, d);
    var y := OnPrepare(x, from, th);
    StepKeepsInv(s, DeliverPrepare(d, from));
    NotYetCounted(s, d, from);
    assert PhaseOK(d, x);
    forall other: nat | y.committed == 0 ensures PrepareCopies(y, other) == PrepareCopies(x, other) {
      PrepareLossless(d, x, from, th, other);
    }
    forall other: nat ensures CommitCopies(y, other) == CommitCopies(x, other) {
      PrepareCopiesKept(x, from, th, other);
    }
    forall other: nat | d == 0 ensures EarlyOK(y, other) {
      assert EarlyOK(x, other) && EarlyOK(x, from);
      PrepareEarly(x, from, th, other);
    }
    LosslessKeepsFull(s, Step(s, DeliverPrepare(d, from)), d, y);
  }

  // ----- Broadcasts ----------------------------------------------------------------------------------------

  lemma BroadcastKeepsFull(s: State, t: State, d: nat, y: Local, prepare: bool)
    requires Full(s) && Inv(t) && d < |s.locals|
    requires t.locals == if prepare then PostPrepare(s.locals[d := y], d) else PostCommit(s.locals[d := y], d)
    requires if prepare then d != 0 && !s.locals[d].verified && y.verified && y.committed == s.locals[d].committed
             else s.locals[d].committed == 0 < y.committed && y.verified == s.locals[d].verified
    requires y.finished == s.locals[d].finished && y.setBack == s.locals[d].setBack
    requires y.committed == 0 ==> forall other: nat {:trigger PrepareCopies(y, other)} :: PrepareCopies(y, other) == PrepareCopies(s.locals[d], other)
    requires forall other: nat {:trigger CommitCopies(y, other)} :: CommitCopies(y, other) == CommitCopies(s.locals[d], other)
    requires d == 0 ==> y.early == s.locals[0].early && forall from: nat {:trigger EarlyOK(y, from)} :: EarlyOK(y, from)
    ensures Full(t)
  {
    var n := |s.locals|;
    forall k: nat, other: nat | k < n ensures Conserved(t.locals, k, other) {
      assert Conserved(s.locals, k, other);
      if k != d { PostedConserved(s.locals, d, y, prepare, k, other); }
    }
    forall from: nat ensures EarlyOK(t.locals[0], from) {
      assert EarlyOK(s.locals[0], from);
      assert CopiesOK(s.locals, 0, from);
    }
  }

  lemma PostedConserved(locals: seq<Local>, d: nat, y: Local, prepare: bool, k: nat, other: nat)
    requires d < |locals| && k < |locals| && k != d && Conserved(locals, k, other)
    requires if prepare then !locals[d].verified && y.verified && y.committed == locals[d].committed
             else locals[d].committed == 0 < y.committed && y.verified == locals[d].verified
    ensures Conserved(if prepare then PostPrepare(locals[d := y], d) else PostCommit(locals[d := y], d), k, other)
  {
    Received(locals[k], d, other);
  }

  lemma CommittingKeepsFull(s: State, d: nat, from: nat)
    requires Full(s) && Enabled(s, DeliverPrepare(d, from))
    requires HandlePrepare(s.locals[d].node, from, PrepareThreshold(|s.locals|, d)).fired
    ensures Full(Step(s, DeliverPrepare(d, from)))
  {
    var x, th := s.locals[d], PrepareThreshold(|s.locals|, d);
    var y := OnPrepare(x, from, th);
    StepKeepsInv(s, DeliverPrepare(d, from));
    assert PhaseOK(d, x);
    NoSecondQuorum(s, d, from);
    NotYetCounted(s, d, from);
    forall other: nat ensures CommitCopies(y, other) == CommitCopies(x, other) {
      PrepareCopiesKept(x, from, th, other);
    }
    forall other: nat | d == 0 ensures EarlyOK(y, other) {
      assert EarlyOK(x, other) && EarlyOK(x, from);
      PrepareEarly(x, from, th, other);
    }
    BroadcastKeepsFull(s, Step(s, DeliverPrepare(d, from)), d, y, false);
  }

  lemma VerifyingKeepsFull(s: State, d: nat)
    requires Full(s) && Enabled(s, DeliverPrePrepare(d, true)) && s.locals[d].node.phase == PrePrepare
    ensures Full(Step(s, DeliverPrePrepare(d, true)))
  {
    var x := s.locals[d];
    var y := OnPrePrepare(x, true);
    StepKeepsInv(s, DeliverPrePrepare(d, true));
    assert PhaseOK(d, x);
    forall other: nat ensures PrepareCopies(y, other) == PrepareCopies(x, other) && CommitCopies(y, other) == CommitCopies(x, other) {
      assert Pending(y.replayPrepare, y.node.tempPrepare, other) == Pending(x.replayPrepare, x.node.tempPrepare, other);
    }
    BroadcastKeepsFull(s, Step(s, DeliverPrePrepare(d, true)), d, y, true);
  }

  lemma SameLocalsFull(s: State, t: State)
    requires Full(s) && Inv(t) && t.locals == s.locals
    ensures Full(t)
  {
    forall d: nat, from: nat | d < |t.locals| ensures Conserved(t.locals, d, from) {
      assert Conserved(s.locals, d, from);
    }
    forall from: nat ensures EarlyOK(t.locals[0], from) { assert EarlyOK(s.locals[0], from); }
  }

  lemma StepKeepsFull(s: State, e: Event)
    requires Full(s) && Enabled(s, e)
    ensures Full(Step(s, e))
  {
    match e
    case SendPrePrepare(d) =>
      StepKeepsInv(s, e);
      SameLocalsFull(s, Step(s, e));
    case ResetRoot(d) => ResetKeepsFull(s, d);
    case DeliverPrePrepare(d, ok) =>
      if ok && s.locals[d].node.phase == PrePrepare {
        VerifyingKeepsFull(s, d);
      } else {
        StepKeepsInv(s, e);
        SameLocalsFull(s, Step(s, e));
      }
    case DeliverPrepare(d, from) =>
      if HandlePrepare(s.locals[d].node, from, PrepareThreshold(|s.locals|, d)).fired {
        CommittingKeepsFull(s, d, from);
      } else {
        QuietPrepareKeepsFull(s, d, from);
      }
    case DeliverCommit(d, from) => CommitKeepsFull(s, d, from);
    case ReplayPrepare(d) => ReplayPrepareKeepsFull(s, d);
    case ReplayCommit(d) => ReplayCommitKeepsFull(s, d);
  }

  lemma {:induction false} RunKeepsFull(s: State, events: seq<Event>, t: State)
    requires Full(s) && RunsTo(s, events, t)
    ensures Full(t) && s.locals[0].early <= t.locals[0].early && |t.locals| == |s.locals|
    decreases |events|
  {
    if events != [] {
      StepKeepsFull(s, events[0]);
      EarlyGrows(s, events[0]);
      RunKeepsFull(Step(s, events[0]), events[1..], t);
    }
  }

  lemma DeliveryKeepsEarly(s: State, d: nat, from: nat)
    requires Inv(s) && Enabled(s, DeliverPrepare(d, from))
    ensures s.locals[0].early <= Step(s, DeliverPrepare(d, from)).locals[0].early
  {
    var after := s.locals[d := OnPrepare(s.locals[d], from, PrepareThreshold(|s.locals|, d))];
    assert s.locals[0].early <= after[0].early == PostCommit(after, d)[0].early;
  }

  lemma PrePrepareKeepsEarly(s: State, d: nat, ok: bool)
    requires Inv(s) && Enabled(s, DeliverPrePrepare(d, ok))
    ensures s.locals[0].early <= Step(s, DeliverPrePrepare(d, ok)).locals[0].early
  {
    var after := s.locals[d := OnPrePrepare(s.locals[d], ok)];
    assert s.locals[0].early == after[0].early == PostPrepare(after, d)[0].early;
  }

  lemma EarlyGrows(s: State, e: Event)
    requires Inv(s) && Enabled(s, e)
    ensures s.locals[0].early <= Step(s, e).locals[0].early
  {
    match e
    case DeliverPrepare(d, from) => DeliveryKeepsEarly(s, d, from);
    case DeliverPrePrepare(d, ok) => PrePrepareKeepsEarly(s, d, ok);
    case SendPrePrepare(_) =>
    case ResetRoot(_) =>
    case DeliverCommit(_, _) =>
    case ReplayPrepare(_) =>
    case ReplayCommit(_) =>
  }

  lemma ReachableFull(n: nat, s: State)
    requires n >= 1 && Reachable(n, s)
    ensures Full(s) && |s.locals| == n
  {
    var events :| RunsTo(Init(n), events, s);
    InitFull(n);
    RunKeepsFull(Init(n), events, s);
  }

  // ----- At rest -------------------------------------------------------------------------------------------------

  /** No event is enabled. */
  ghost predicate AtRest(s: State)
  {
    forall e :: !Enabled(s, e)
  }

  function Verified(s: State): set<nat>
  {
    set d: nat | d < |s.locals| && s.locals[d].verified
  }

  function Committers(s: State): set<nat>
  {
    set d: nat | d < |s.locals| && s.locals[d].committed > 0
  }

  lemma RestQuiet(s: State, d: nat, from: nat)
    requires Full(s) && AtRest(s) && d < |s.locals|
    ensures s.locals[d].prepares[from] == 0 && s.locals[d].commits[from] == 0
    ensures s.locals[d].replayPrepare.Idle? || s.locals[d].replayPrepare.Done?
    ensures s.locals[d].replayCommit.Idle? || s.locals[d].replayCommit.Done?
  {
    assert !Enabled(s, DeliverPrepare(d, from)) && !Enabled(s, DeliverCommit(d, from));
    assert !Enabled(s, ReplayPrepare(d)) && !Enabled(s, ReplayCommit(d));
  }

  /** A node that verified and has not committed has counted all other Prepares. */
  lemma RestPrepared(s: State, d: nat)
    requires Full(s) && AtRest(s) && 0 < d < |s.locals| && s.locals[d].verified && s.locals[d].committed == 0
    ensures s.locals[d].preparedBy == Verified(s) - {d}
  {
    assert PhaseOK(d, s.locals[d]);
    forall from: nat ensures from in s.locals[d].preparedBy <==> from in Verified(s) - {d} {
      RestQuiet(s, d, from);
      assert Conserved(s.locals, d, from);
    }
  }

  /** At rest another node than the root has broadcast Commit exactly if it verified and a threshold did. */
  lemma CommittedIff(s: State, d: nat)
    requires Full(s) && AtRest(s) && 0 < d < |s.locals|
    ensures s.locals[d].committed > 0 <==> s.locals[d].verified && |Verified(s)| >= Threshold(|s.locals|)
  {
    var x, n := s.locals[d], |s.locals|;
    assert PhaseOK(d, x) && CountOK(n, d, x);
    if x.committed > 0 {
      PreparedByOthers(s, d);
      SubsetSize(x.preparedBy + {d}, Verified(s));
    } else if x.verified {
      RestPrepared(s, d);
    }
  }

  lemma RootCounted(s: State)
    requires Full(s) && AtRest(s) && s.locals[0].committed == 0
    ensures Verified(s) == s.locals[0].early + s.locals[0].preparedBy
  {
    assert PhaseOK(0, s.locals[0]);
    forall from: nat ensures from in Verified(s) <==> from in s.locals[0].early + s.locals[0].preparedBy {
      RestQuiet(s, 0, from);
      assert Conserved(s.locals, 0, from) && EarlyOK(s.locals[0], from);
    }
  }

  lemma EarlyApart(s: State)
    requires Full(s)
    ensures s.locals[0].early !! s.locals[0].preparedBy && s.locals[0].early + s.locals[0].preparedBy <= Verified(s)
  {
    PreparedByOthers(s, 0);
    forall from | from in s.locals[0].early ensures from !in s.locals[0].preparedBy {
      assert EarlyOK(s.locals[0], from);
    }
  }

  /** The Prepares that the root counted need room beside the early ones, in every reachable state. */
  lemma RootCommitNeeds(s: State)
    requires Full(s) && s.locals[0].committed > 0
    ensures |Verified(s)| - |s.locals[0].early| >= Threshold(|s.locals|)
  {
    var x := s.locals[0];
    assert PhaseOK(0, x) && CountOK(|s.locals|, 0, x);
    EarlyApart(s);
    SubsetSize(x.early + x.preparedBy, Verified(s));
    assert |x.early + x.preparedBy| == |x.early| + |x.preparedBy|;
  }

  /** At rest the root has broadcast Commit exactly if a threshold of the Prepares did not come early. */
  lemma RootCommittedIff(s: State)
    requires Full(s) && AtRest(s)
    ensures s.locals[0].committed > 0 <==> |Verified(s)| - |s.locals[0].early| >= Threshold(|s.locals|)
  {
    var x := s.locals[0];
    assert CountOK(|s.locals|, 0, x);
    if x.committed > 0 {
      RootCommitNeeds(s);
    } else {
      RootCounted(s);
      EarlyApart(s);
      assert |x.early + x.preparedBy| == |x.early| + |x.preparedBy|;
    }
  }

  lemma RestCommitted(s: State, d: nat)
    requires Full(s) && AtRest(s) && d < |s.locals| && s.locals[d].committed > 0 && s.locals[d].finished == 0 && !s.locals[d].setBack
    ensures s.locals[d].committedBy == Committers(s) - {d}
  {
    assert PhaseOK(d, s.locals[d]);
    forall from: nat ensures from in s.locals[d].committedBy <==> from in Committers(s) - {d} {
      RestQuiet(s, d, from);
      assert Conserved(s.locals, d, from);
    }
  }

  lemma CommittedByCommitters(s: State, d: nat)
    requires Full(s) && d < |s.locals|
    ensures s.locals[d].committedBy <= Committers(s) - {d}
  {
    forall from | from in s.locals[d].committedBy ensures from in Committers(s) - {d} {
      assert CopiesOK(s.locals, d, from);
    }
  }

  /** At rest a node has finished exactly if it committed, a threshold of the others did, and it was not
      set back in between. */
  lemma FinishedIff(s: State, d: nat)
    requires Full(s) && AtRest(s) && d < |s.locals|
    ensures s.locals[d].finished > 0 <==>
      s.locals[d].committed > 0 && |Committers(s) - {d}| >= Threshold(|s.locals|) && !s.locals[d].setBack
  {
    var x := s.locals[d];
    assert PhaseOK(d, x) && CountOK(|s.locals|, d, x);
    if x.finished > 0 {
      CommittedByCommitters(s, d);
      SubsetSize(x.committedBy, Committers(s) - {d});
    } else if x.committed > 0 && !x.setBack {
      RestCommitted(s, d);
    }
  }

  lemma VerifiersCommit(s: State)
    requires Full(s) && AtRest(s) && |Verified(s)| >= Threshold(|s.locals|)
    ensures Verified(s) <= Committers(s) - {0}
  {
    assert PhaseOK(0, s.locals[0]);
    forall d | d in Verified(s) ensures d in Committers(s) - {0} {
      CommittedIff(s, d);
    }
  }

  /**
    * When the round has come to rest, the root has finished exactly if, of the nodes that verified, a
    * threshold sent a Prepare that reached the root after its state was first set, and no state reset
    * came between its Commit and its finish.
    */
  lemma RootFinishesIff(n: nat, s: State)
    requires n >= 1 && Reachable(n, s) && AtRest(s)
    ensures |s.locals| == n
    ensures s.locals[0].finished > 0 <==> |Verified(s)| - |s.locals[0].early| >= Threshold(n) && !s.locals[0].setBack
  {
    ReachableFull(n, s);
    FinishedIff(s, 0);
    RootCommittedIff(s);
    if |Verified(s)| - |s.locals[0].early| >= Threshold(n) {
      VerifiersCommit(s);
      SubsetSize(Verified(s), Committers(s) - {0});
    }
  }

  /** If all other nodes verified: at most n - 1 - threshold of their Prepares may come early. */
  lemma RootFinishesIfAllVerify(n: nat, s: State)
    requires n >= 1 && Reachable(n, s) && AtRest(s) && |s.locals| == n && forall d :: 0 < d < n ==> s.locals[d].verified
    ensures s.locals[0].finished > 0 <==> |s.locals[0].early| <= n - 1 - Threshold(n) && !s.locals[0].setBack
  {
    RootFinishesIff(n, s);
    ReachableFull(n, s);
    assert PhaseOK(0, s.locals[0]);
    assert Verified(s) == Others(n);
  }

  // ----- Early Prepares ------------------------------------------------------------------------------------------------

  /** Once too many Prepares have come early the root never commits, whatever happens. */
  lemma TooEarlyForever(n: nat, s: State, events: seq<Event>, t: State)
    requires n >= 1 && Reachable(n, s) && |s.locals| == n && |s.locals[0].early| > n - 1 - Threshold(n) && RunsTo(s, events, t)
    ensures |t.locals| == n && t.locals[0].committed == 0 && t.locals[0].finished == 0
  {
    ReachableFull(n, s);
    RunKeepsFull(s, events, t);
    SubsetSize(s.locals[0].early, t.locals[0].early);
    assert PhaseOK(0, t.locals[0]);
    if t.locals[0].committed > 0 {
      RootCommitNeeds(t);
      VerifiedOthers(t);
      SubsetSize(Verified(t), Others(n));
    }
  }

  lemma VerifiedOthers(s: State)
    requires Inv(s)
    ensures Verified(s) <= Others(|s.locals|)
  {
    assert PhaseOK(0, s.locals[0]);
  }

  /** With three nodes: both PrePrepares are sent. */
  lemma BothSent() returns (s: State)
    ensures Reachable(3, s) && s == State(Init(3).locals, {}, {1, 2}, {1, 2})
  {
    s := Init(3);
    assert RunsTo(Init(3), [], s);
    s := ReachableStep(3, s, SendPrePrepare(1));
    s := ReachableStep(3, s, SendPrePrepare(2));
    assert Others(3) == {1, 2};
  }

  /** Node 1 verifies. */
  lemma FirstVerified() returns (s: State)
    ensures Reachable(3, s) && |s.locals| == 3 && s.unsent == {} && s.unset == {1, 2} && s.prePrepares == {2}
    ensures s.locals[0] == s.locals[2] == NewLocal().(prepares := multiset{1}) && s.locals[1].verified
  {
    s := BothSent();
    s := ReachableStep(3, s, DeliverPrePrepare(1, true));
  }

  /** Its Prepare reaches the root before the root's state is first set. */
  lemma OneEarly() returns (s: State)
    ensures Reachable(3, s) && |s.locals| == 3 && s.locals[1].verified && s.locals[2] == NewLocal().(prepares := multiset{1})
    ensures s.unsent == {} && s.unset == {1, 2} && 2 in s.prePrepares
    ensures s.locals[0] == NewLocal().(node := NewLocal().node.(tempPrepare := [1]), early := {1})
  {
    s := FirstVerified();
    s := ReachableStep(3, s, DeliverPrepare(0, 1));
  }

  lemma BothReset() returns (s: State)
    ensures Reachable(3, s) && |s.locals| == 3 && s.locals[1].verified && s.locals[2] == NewLocal().(prepares := multiset{1})
    ensures s.unset == {} && 2 in s.prePrepares && s.locals[0].early == {1} && !s.locals[0].setBack
  {
    s := OneEarly();
    s := ReachableStep(3, s, ResetRoot(1));
    s := ReachableStep(3, s, ResetRoot(2));
  }

  /** Then both other nodes have verified, the root was not set back, and yet it will never commit. */
  lemma EarlyPrepare() returns (s: State)
    ensures Reachable(3, s) && |s.locals| == 3 && s.unset == {} && !s.locals[0].setBack
    ensures s.locals[1].verified && s.locals[2].verified && |s.locals[0].early| > 3 - 1 - Threshold(3)
    ensures forall events, t :: RunsTo(s, events, t) ==> |t.locals| == 3 && t.locals[0].committed == 0
  {
    s := BothReset();
    s := ReachableStep(3, s, DeliverPrePrepare(2, true));
    forall events, t | RunsTo(s, events, t) ensures |t.locals| == 3 && t.locals[0].committed == 0 {
      TooEarlyForever(3, s, events, t);
    }
  }
}
