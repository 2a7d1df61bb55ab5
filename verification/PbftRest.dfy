/** Every run of the PBFT round ends: a potential that each event lowers. */
module PbftRest {
  import opened Counts
  import opened Pbft
  import opened PbftSafety
  import opened PbftRuns
  import opened PbftOutcome

  // ----- The potential --------------------------------------------------------------------------------

  /** What a kind of message can still cost a node: messages on the channel, which may be stored once and
      then replayed, messages in the store, and the replay goroutine itself. */
  function Load(r: Replay, channel: nat, store: nat): nat
  {
    match r
    case Idle => 3 * channel + 2 * store
    case Started => 3 * channel + 2 * store + 2
    case Sending(rest) => channel + 2 * |rest| + 1
    case Done => channel
  }

  /** A broadcast costs less than three messages to each of the n nodes. */
  function LocalLoad(n: nat, x: Local): nat
  {
    Load(x.replayPrepare, |x.prepares|, |x.node.tempPrepare|) + Load(x.replayCommit, |x.commits|, |x.node.tempCommit|)
    + (if x.verified then 0 else 3 * n) + (if x.committed == 0 then 3 * n else 0)
  }

  function Total(n: nat, locals: seq<Local>, m: nat): nat
    requires m <= |locals|
  {
    if m == 0 then 0 else Total(n, locals, m - 1) + LocalLoad(n, locals[m - 1])
  }

  function Potential(s: State): nat
  {
    Total(|s.locals|, s.locals, |s.locals|) + 2 * |s.unsent| + |s.unset| + |s.prePrepares|
  }

  lemma {:induction false} TotalUpdate(n: nat, locals: seq<Local>, d: nat, y: Local, m: nat)
    requires d < |locals| && m <= |locals|
    ensures Total(n, locals[d := y], m) + (if d < m then LocalLoad(n, locals[d]) else 0)
      == Total(n, locals, m) + (if d < m then LocalLoad(n, y) else 0)
  {
    if m > 0 { TotalUpdate(n, locals, d, y, m - 1); }
  }

  lemma ReceivedLoad(n: nat, x: Local, d: nat)
    ensures LocalLoad(n, x.(prepares := x.prepares + multiset{d})) <= LocalLoad(n, x) + 3
    ensures LocalLoad(n, x.(commits := x.commits + multiset{d})) <= LocalLoad(n, x) + 3
  {
  }

  ghost predicate LoadGrows(n: nat, before: seq<Local>, after: seq<Local>, d: nat, i: nat)
    requires i < |before| == |after|
  {
    LocalLoad(n, after[i]) <= LocalLoad(n, before[i]) + if i == d then 0 else 3
  }

  lemma {:induction false} TotalGrows(n: nat, before: seq<Local>, after: seq<Local>, d: nat, m: nat)
    requires d < |before| == |after| && m <= |before|
    requires forall i: nat {:trigger LoadGrows(n, before, after, d, i)} :: i < |before| ==> LoadGrows(n, before, after, d, i)
    ensures Total(n, after, m) <= Total(n, before, m) + 3 * m - (if d < m then 3 else 0)
  {
    if m > 0 {
      TotalGrows(n, before, after, d, m - 1);
      assert LoadGrows(n, before, after, d, m - 1);
    }
  }

  lemma TotalPosted(n: nat, locals: seq<Local>, d: nat, prepare: bool)
    requires d < |locals|
    ensures var after := if prepare then PostPrepare(locals, d) else PostCommit(locals, d);
      Total(n, after, |locals|) <= Total(n, locals, |locals|) + 3 * |locals| - 3
  {
    var after := if prepare then PostPrepare(locals, d) else PostCommit(locals, d);
    forall i: nat | i < |locals| ensures LoadGrows(n, locals, after, d, i) { ReceivedLoad(n, locals[i], d); }
    TotalGrows(n, locals, after, d, |locals|);
  }

  // ----- Every event lowers it ---------------------------------------------------------------------------

  /** A message that is taken from the channel costs no more, stored or not. */
  lemma TakenLoad(r: Replay, channel: nat, store: nat)
    requires channel >= 1
    ensures Load(r, channel - 1, store) < Load(r, channel, store) && Load(r, channel - 1, store + 1) < Load(r, channel, store)
  {
  }

  lemma {:induction false} PrepareLoad(n: nat, x: Local, from: nat, threshold: int)
    requires from in x.prepares && !HandlePrepare(x.node, from, threshold).fired
    ensures LocalLoad(n, OnPrepare(x, from, threshold)) < LocalLoad(n, x)
  {
    var y := OnPrepare(x, from, threshold);
    assert |y.prepares| == |x.prepares| - 1;
    TakenLoad(x.replayPrepare, |x.prepares|, |x.node.tempPrepare|);
  }

  lemma CommitTaken(x: Local, from: nat, threshold: int)
    requires from in x.commits
    ensures var y := OnCommit(x, from, threshold);
            && |y.commits| == |x.commits| - 1 && |x.node.tempCommit| <= |y.node.tempCommit| <= |x.node.tempCommit| + 1
            && y.node.tempPrepare == x.node.tempPrepare && y.prepares == x.prepares
            && y.replayPrepare == x.replayPrepare && y.replayCommit == x.replayCommit
            && y.verified == x.verified && y.committed == x.committed
  {
  }

  lemma {:induction false} CommitLoad(n: nat, x: Local, from: nat, threshold: int)
    requires from in x.commits
    ensures LocalLoad(n, OnCommit(x, from, threshold)) < LocalLoad(n, x)
  {
    CommitTaken(x, from, threshold);
    TakenLoad(x.replayCommit, |x.commits|, |x.node.tempCommit|);
  }

  lemma ReplayLoad(n: nat, x: Local)
    ensures (x.replayPrepare.Started? || x.replayPrepare.Sending?) ==> LocalLoad(n, OnReplayPrepare(x)) < LocalLoad(n, x)
    ensures (x.replayCommit.Started? || x.replayCommit.Sending?) ==> LocalLoad(n, OnReplayCommit(x)) < LocalLoad(n, x)
  {
  }

  /** A node that broadcasts pays for all its messages. */
  lemma FiredLoad(n: nat, d: nat, x: Local, from: nat, threshold: int)
    requires PhaseOK(d, x) && n >= 1
    requires from in x.prepares && HandlePrepare(x.node, from, threshold).fired && x.committed == 0
    ensures LocalLoad(n, OnPrepare(x, from, threshold)) + 3 * n - 3 < LocalLoad(n, x)
  {
  }

  lemma VerifiedLoad(n: nat, d: nat, x: Local)
    requires PhaseOK(d, x) && n >= 1 && d != 0 && x.node.phase == PrePrepare
    ensures LocalLoad(n, OnPrePrepare(x, true)) + 3 * n - 3 < LocalLoad(n, x)
  {
  }

  lemma LocalStepLowers(s: State, t: State, d: nat, y: Local)
    requires d < |s.locals| && t.locals == s.locals[d := y] && LocalLoad(|s.locals|, y) < LocalLoad(|s.locals|, s.locals[d])
    requires t.unsent == s.unsent && t.unset == s.unset && t.prePrepares == s.prePrepares
    ensures Potential(t) < Potential(s)
  {
    TotalUpdate(|s.locals|, s.locals, d, y, |s.locals|);
  }

  lemma BroadcastLowers(s: State, t: State, d: nat, y: Local)
    requires d < |s.locals| && (t.locals == PostPrepare(s.locals[d := y], d) || t.locals == PostCommit(s.locals[d := y], d))
    requires LocalLoad(|s.locals|, y) + 3 * |s.locals| - 3 < LocalLoad(|s.locals|, s.locals[d])
    requires t.unsent == s.unsent && t.unset == s.unset && t.prePrepares <= s.prePrepares
    ensures Potential(t) < Potential(s)
  {
    var n := |s.locals|;
    TotalUpdate(n, s.locals, d, y, n);
    TotalPosted(n, s.locals[d := y], d, true);
    TotalPosted(n, s.locals[d := y], d, false);
    SubsetSize(t.prePrepares, s.prePrepares);
  }

  lemma PrePrepareLowers(s: State, d: nat, ok: bool)
    requires Inv(s) && Enabled(s, DeliverPrePrepare(d, ok))
    ensures Potential(Step(s, DeliverPrePrepare(d, ok))) < Potential(s)
  {
    assert PhaseOK(d, s.locals[d]);
    if ok && s.locals[d].node.phase == PrePrepare {
      VerifiedLoad(|s.locals|, d, s.locals[d]);
      BroadcastLowers(s, Step(s, DeliverPrePrepare(d, ok)), d, OnPrePrepare(s.locals[d], ok));
    } else {
      assert Step(s, DeliverPrePrepare(d, ok)).locals == s.locals;
    }
  }

  lemma PrepareLowers(s: State, d: nat, from: nat)
    requires Inv(s) && Enabled(s, DeliverPrepare(d, from))
    ensures Potential(Step(s, DeliverPrepare(d, from))) < Potential(s)
  {
    var n, th := |s.locals|, PrepareThreshold(|s.locals|, d);
    assert PhaseOK(d, s.locals[d]);
    if HandlePrepare(s.locals[d].node, from, th).fired {
      NoSecondQuorum(s, d, from);
      FiredLoad(n, d, s.locals[d], from, th);
      BroadcastLowers(s, Step(s, DeliverPrepare(d, from)), d, OnPrepare(s.locals[d], from, th));
    } else {
      PrepareLoad(n, s.locals[d], from, th);
      LocalStepLowers(s, Step(s, DeliverPrepare(d, from)), d, OnPrepare(s.locals[d], from, th));
    }
  }

  lemma ResetLowers(s: State, d: nat)
    requires Inv(s) && Enabled(s, ResetRoot(d))
    ensures Potential(Step(s, ResetRoot(d))) < Potential(s)
  {
    TotalUpdate(|s.locals|, s.locals, 0, OnReset(s.locals[0]), |s.locals|);
  }

  /** Each event lowers the potential. */
  lemma StepLowers(s: State, e: Event)
    requires Inv(s) && Enabled(s, e)
    ensures Potential(Step(s, e)) < Potential(s)
  {
    match e
    case SendPrePrepare(d) =>
      assert |s.unsent - {d}| == |s.unsent| - 1 && |s.prePrepares + {d}| <= |s.prePrepares| + 1;
    case ResetRoot(d) => ResetLowers(s, d);
    case DeliverPrePrepare(d, ok) => PrePrepareLowers(s, d, ok);
    case DeliverPrepare(d, from) => PrepareLowers(s, d, from);
    case DeliverCommit(d, from) =>
      CommitLoad(|s.locals|, s.locals[d], from, Threshold(|s.locals|));
      LocalStepLowers(s, Step(s, e), d, OnCommit(s.locals[d], from, Threshold(|s.locals|)));
    case ReplayPrepare(d) =>
      ReplayLoad(|s.locals|, s.locals[d]);
      LocalStepLowers(s, Step(s, e), d, OnReplayPrepare(s.locals[d]));
    case ReplayCommit(d) =>
      ReplayLoad(|s.locals|, s.locals[d]);
      LocalStepLowers(s, Step(s, e), d, OnReplayCommit(s.locals[d]));
  }

  // ----- Every run ends ----------------------------------------------------------------------------------------

  /** No run is longer than the potential of its first state. */
  lemma {:induction false} RunsEnd(s: State, events: seq<Event>, t: State)
    requires Inv(s) && RunsTo(s, events, t)
    ensures |events| + Potential(t) <= Potential(s)
    decreases |events|
  {
    if events != [] {
      StepLowers(s, events[0]);
      StepKeepsInv(s, events[0]);
      RunsEnd(Step(s, events[0]), events[1..], t);
    }
  }

  /** So from every reachable state the round can only come to rest. */
  lemma {:induction false} ComesToRest(n: nat, s: State) returns (t: State)
    requires n >= 1 && Reachable(n, s)
    ensures Reachable(n, t) && AtRest(t)
    decreases Potential(s)
  {
    if e :| Enabled(s, e) {
      ReachableInv(n, s);
      StepLowers(s, e);
      var next := ReachableStep(n, s, e);
      t := ComesToRest(n, next);
    } else {
      t := s;
    }
  }
}
