/** The simplified PBFT round: handlers of one node, and the system of n nodes with its goroutines. */
module Pbft {
  import opened Counts

  // ----- One node ------------------------------------------------------------------------------

  datatype Phase = PrePrepare | Prepare | Commit | Finished

  /** A Prepare or Commit message is represented by its sender, which the handlers never look at. */
  type Message = nat

  datatype Node = Node(
    phase: Phase,
    prepCount: nat,
    commitCount: nat,
    tempPrepare: seq<Message>,
    tempCommit: seq<Message>)

  /** A node after a handler, and whether the handler's threshold or verification was met. */
  datatype Effect = Effect(node: Node, fired: bool)

  /** Two thirds of the nodes, rounded up. */
  function Threshold(n: nat): (t: nat)
    ensures 2 * n <= 3 * t < 2 * n + 3
  {
    (2 * n + 2) / 3
  }

  /** Prepares that a node waits for: the root sends none, the others do not count their own. */
  function PrepareThreshold(n: nat, d: nat): int
  {
    if d == 0 then Threshold(n) else Threshold(n) - 1
  }

  function HandlePrePrepare(nd: Node, verified: bool): Effect
  {
    if nd.phase == PrePrepare && verified then Effect(nd.(phase := Prepare), true) else Effect(nd, false)
  }

  function HandlePrepare(nd: Node, m: Message, threshold: int): Effect
  {
    if nd.phase != Prepare then
      Effect(nd.(tempPrepare := nd.tempPrepare + [m]), false)
    else if nd.prepCount + 1 >= threshold then
      Effect(nd.(phase := Commit, prepCount := 0), true)
    else
      Effect(nd.(prepCount := nd.prepCount + 1), false)
  }

  function HandleCommit(nd: Node, m: Message, threshold: int): Effect
  {
    if nd.phase != Commit then
      Effect(nd.(tempCommit := nd.tempCommit + [m]), false)
    else if nd.commitCount + 1 >= threshold then
      Effect(nd.(phase := Finished, commitCount := 0), true)
    else
      Effect(nd.(commitCount := nd.commitCount + 1), false)
  }

  /** The node's object; `index` 0 is the root. */
  class Protocol {
    const n: nat
    const index: nat
    const threshold: nat
    var state: Phase
    var prepMsgCount: nat
    var commitMsgCount: nat
    var tempPrepareMsg: seq<Message>
    var tempCommitMsg: seq<Message>

    ghost predicate Valid()
      reads this
    {
      index < n && threshold == Threshold(n)
    }

    ghost function Value(): Node
      reads this
    {
      Node(state, prepMsgCount, commitMsgCount, tempPrepareMsg, tempCommitMsg)
    }

    constructor (nodes: nat, idx: nat)
      requires idx < nodes
      ensures Valid() && n == nodes && index == idx && Value() == Node(PrePrepare, 0, 0, [], [])
    {
      n, index, threshold := nodes, idx, (2 * nodes + 2) / 3;
      state, prepMsgCount, commitMsgCount := PrePrepare, 0, 0;
      tempPrepareMsg, tempCommitMsg := [], [];
    }

    /** The destinations of a broadcast: every node but this one, in the list's order. */
    method Broadcast() returns (dests: seq<nat>)
      requires Valid()
      ensures forall d :: d in dests <==> 0 <= d < n && d != index
      ensures forall i, j :: 0 <= i < j < |dests| ==> dests[i] < dests[j]
    {
      dests := [];
      for i := 0 to n
        invariant forall d :: d in dests <==> 0 <= d < i && d != index
        invariant forall k :: 0 <= k < |dests| ==> dests[k] < i
        invariant forall j, k :: 0 <= j < k < |dests| ==> dests[j] < dests[k]
      {
        if i != index {
          dests := dests + [i];
        }
      }
    }

    method OnPrePrepare(verified: bool) returns (broadcast: seq<nat>)
      requires Valid()
      modifies this
      ensures Valid()
      ensures var e := HandlePrePrepare(old(Value()), verified);
        Value() == e.node && (if e.fired then forall d :: d in broadcast <==> 0 <= d < n && d != index else broadcast == [])
    {
      broadcast := [];
      if state != PrePrepare {
        return;
      }
      if verified {
        state := Prepare;
        broadcast := Broadcast();
      }
    }

    method OnPrepare(m: Message) returns (broadcast: seq<nat>)
      requires Valid()
      modifies this
      ensures Valid()
      ensures var e := HandlePrepare(old(Value()), m, PrepareThreshold(n, index));
        Value() == e.node && (if e.fired then forall d :: d in broadcast <==> 0 <= d < n && d != index else broadcast == [])
    {
      broadcast := [];
      if state != Prepare {
        tempPrepareMsg := tempPrepareMsg + [m];
        return;
      }
      prepMsgCount := prepMsgCount + 1;
      var localThreshold: int := threshold;
      if index != 0 {
        localThreshold := localThreshold - 1;
      }
      if prepMsgCount >= localThreshold {
        state := Commit;
        prepMsgCount := 0;
        broadcast := Broadcast();
      }
    }

    method OnCommit(m: Message) returns (done: bool)
      requires Valid()
      modifies this
      ensures Valid()
      ensures Effect(Value(), done) == HandleCommit(old(Value()), m, threshold)
    {
      done := false;
      if state != Commit {
        tempCommitMsg := tempCommitMsg + [m];
        return;
      }
      commitMsgCount := commitMsgCount + 1;
      if commitMsgCount >= threshold {
        state := Finished;
        commitMsgCount := 0;
        done := true;
      }
    }
  }

  // ----- The system ------------------------------------------------------------------------------

  /**
    * The goroutine that puts a node's stored messages back on its channel: started by a transition,
    * it reads the store once, sends the messages one by one and then clears the store.
    */
  datatype Replay = Idle | Started | Sending(rest: seq<Message>) | Done

  /**
    * A node with everything on its way to it. The rest is history: whether it has broadcast Prepare,
    * how often Commit, how often it has finished, whose messages it counted, whose Prepares it got before
    * it was in the prepare state, and whether its state was set back between its Commit and its finish.
    */
  datatype Local = Local(
    node: Node,
    prepares: multiset<Message>,
    commits: multiset<Message>,
    replayPrepare: Replay,
    replayCommit: Replay,
    verified: bool,
    committed: nat,
    finished: nat,
    preparedBy: set<nat>,
    committedBy: set<nat>,
    early: set<nat>,
    setBack: bool)

  /** `unsent`: PrePrepare goroutines that have not sent; `unset`: those that have not set the state. */
  datatype State = State(locals: seq<Local>, unsent: set<nat>, unset: set<nat>, prePrepares: set<nat>)

  datatype Event =
    | SendPrePrepare(d: nat)
    | ResetRoot(d: nat)
    | DeliverPrePrepare(d: nat, ok: bool)
    | DeliverPrepare(d: nat, from: nat)
    | DeliverCommit(d: nat, from: nat)
    | ReplayPrepare(d: nat)
    | ReplayCommit(d: nat)

  function NewLocal(): Local
  {
    Local(Node(PrePrepare, 0, 0, [], []), multiset{}, multiset{}, Idle, Idle, false, 0, 0, {}, {}, {}, false)
  }

  /** Every node but the root. */
  function Others(n: nat): (r: set<nat>)
    ensures forall d :: d in r <==> 0 < d < n
    ensures n > 0 ==> |r| == n - 1
  {
    if n == 0 then {} else Interval(1, n)
  }

  function Init(n: nat): State
  {
    State(seq(n, d => NewLocal()), Others(n), Others(n), {})
  }

  /** One more Prepare, or Commit, of node `from` on its way to every other node. */
  function PostPrepare(locals: seq<Local>, from: nat): (r: seq<Local>)
    ensures |r| == |locals|
    ensures forall d :: 0 <= d < |r| && d != from ==> r[d] == locals[d].(prepares := locals[d].prepares + multiset{from})
    ensures from < |r| ==> r[from] == locals[from]
  {
    seq(|locals|, d requires 0 <= d < |locals| =>
      if d == from then locals[d] else locals[d].(prepares := locals[d].prepares + multiset{from}))
  }

  function PostCommit(locals: seq<Local>, from: nat): (r: seq<Local>)
    ensures |r| == |locals|
    ensures forall d :: 0 <= d < |r| && d != from ==> r[d] == locals[d].(commits := locals[d].commits + multiset{from})
    ensures from < |r| ==> r[from] == locals[from]
  {
    seq(|locals|, d requires 0 <= d < |locals| =>
      if d == from then locals[d] else locals[d].(commits := locals[d].commits + multiset{from}))
  }

  predicate Enabled(s: State, e: Event)
  {
    match e
    case SendPrePrepare(d) => d in s.unsent
    case ResetRoot(d) => d in s.unset && d !in s.unsent && 0 < |s.locals|
    case DeliverPrePrepare(d, _) => d in s.prePrepares && d < |s.locals|
    case DeliverPrepare(d, from) => d < |s.locals| && from in s.locals[d].prepares
    case DeliverCommit(d, from) => d < |s.locals| && from in s.locals[d].commits
    case ReplayPrepare(d) => d < |s.locals| && (s.locals[d].replayPrepare.Started? || s.locals[d].replayPrepare.Sending?)
    case ReplayCommit(d) => d < |s.locals| && (s.locals[d].replayCommit.Started? || s.locals[d].replayCommit.Sending?)
  }

  /** The goroutine of a PrePrepare sets the root's state, whatever it is by then. */
  function OnReset(x: Local): Local
  {
    x.(node := x.node.(phase := Prepare), setBack := x.setBack || x.node.phase == Commit)
  }

  function OnPrePrepare(x: Local, ok: bool): Local
  {
    var e := HandlePrePrepare(x.node, ok);
    if e.fired then x.(node := e.node, replayPrepare := Started, verified := true) else x.(node := e.node)
  }

  function OnPrepare(x: Local, from: nat, threshold: int): Local
  {
    var e := HandlePrepare(x.node, from, threshold);
    var y := x.(node := e.node, prepares := x.prepares - multiset{from},
                preparedBy := if x.node.phase == Prepare then x.preparedBy + {from} else x.preparedBy,
                early := if x.node.phase == PrePrepare then x.early + {from} else x.early);
    if e.fired then y.(replayCommit := Started, committed := y.committed + 1) else y
  }

  function OnCommit(x: Local, from: nat, threshold: int): Local
  {
    var e := HandleCommit(x.node, from, threshold);
    var y := x.(node := e.node, commits := x.commits - multiset{from},
                committedBy := if x.node.phase == Commit then x.committedBy + {from} else x.committedBy);
    if e.fired then y.(finished := y.finished + 1) else y
  }

  function OnReplayPrepare(x: Local): Local
  {
    match x.replayPrepare
    case Started => x.(replayPrepare := Sending(x.node.tempPrepare))
    case Sending(rest) =>
      if rest == [] then x.(replayPrepare := Done, node := x.node.(tempPrepare := []))
      else x.(replayPrepare := Sending(rest[1..]), prepares := x.prepares + multiset{rest[0]})
    case _ => x
  }

  function OnReplayCommit(x: Local): Local
  {
    match x.replayCommit
    case Started => x.(replayCommit := Sending(x.node.tempCommit))
    case Sending(rest) =>
      if rest == [] then x.(replayCommit := Done, node := x.node.(tempCommit := []))
      else x.(replayCommit := Sending(rest[1..]), commits := x.commits + multiset{rest[0]})
    case _ => x
  }

  function Step(s: State, e: Event): State
    requires Enabled(s, e)
  {
    var n := |s.locals|;
    match e
    case SendPrePrepare(d) => s.(unsent := s.unsent - {d}, prePrepares := s.prePrepares + {d})
    case ResetRoot(d) =>
      s.(unset := s.unset - {d}, locals := s.locals[0 := OnReset(s.locals[0])])
    case DeliverPrePrepare(d, ok) =>
      var after := s.locals[d := OnPrePrepare(s.locals[d], ok)];
      s.(prePrepares := s.prePrepares - {d},
         locals := if HandlePrePrepare(s.locals[d].node, ok).fired then PostPrepare(after, d) else after)
    case DeliverPrepare(d, from) =>
      var x := s.locals[d];
      var after := s.locals[d := OnPrepare(x, from, PrepareThreshold(n, d))];
      s.(locals := if HandlePrepare(x.node, from, PrepareThreshold(n, d)).fired then PostCommit(after, d) else after)
    case DeliverCommit(d, from) =>
      s.(locals := s.locals[d := OnCommit(s.locals[d], from, Threshold(n))])
    case ReplayPrepare(d) =>
      s.(locals := s.locals[d := OnReplayPrepare(s.locals[d])])
    case ReplayCommit(d) =>
      s.(locals := s.locals[d := OnReplayCommit(s.locals[d])])
  }

  /** The run of a list of events, if each is enabled when its turn comes. */
  predicate RunsTo(s: State, events: seq<Event>, t: State)
    decreases |events|
  {
    if events == [] then s == t else Enabled(s, events[0]) && RunsTo(Step(s, events[0]), events[1..], t)
  }
}
