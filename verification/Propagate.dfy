/** Tree propagation with counted acknowledgements: one node's loop and the system of all nodes. */
module Propagate {
  import opened Counts

  // ----- One node ------------------------------------------------------------------------------------

  datatype Input = Data | Reply

  datatype Output = StoreData | ToParent | ToChildren | OnDone(count: nat)

  /** `process` is the loop's variable of that name: false once the node has stopped. */
  datatype Node = Node(received: nat, process: bool)

  /** A node's place in the tree. */
  datatype Place = Place(root: bool, leaf: bool, subtreeCount: nat)

  function Next(nd: Node, input: Input, at: Place): Node
  {
    match input
    case Data => nd.(process := nd.process && !at.leaf)
    case Reply => Node(nd.received + 1, nd.process && nd.received + 1 != at.subtreeCount)
  }

  function Sends(input: Input, at: Place): (sent: seq<Output>)
    ensures input.Data? ==> |sent| > 0 && sent[0] == StoreData
  {
    match input
    case Data => [StoreData] + (if at.root then [] else [ToParent]) + (if at.leaf then [] else [ToChildren])
    case Reply => if at.root then [] else [ToParent]
  }

  /** What leaving the loop sends. */
  function Leaves(nd: Node, at: Place): seq<Output>
  {
    if !nd.process && at.root then [OnDone(nd.received + 1)] else []
  }

  /** The node after the inputs it takes up to its stop, and all it has sent. */
  function Loop(nd: Node, inputs: seq<Input>, at: Place): (Node, seq<Output>)
    decreases |inputs|
  {
    if !nd.process || inputs == [] then (nd, [])
    else
      var next := Next(nd, inputs[0], at);
      var (last, more) := Loop(next, inputs[1..], at);
      (last, Sends(inputs[0], at) + Leaves(next, at) + more)
  }

  /** The arguments of the calls of the callback, in order. */
  function Calls(sent: seq<Output>): seq<nat>
  {
    if sent == [] then [] else (if sent[0].OnDone? then [sent[0].count] else []) + Calls(sent[1..])
  }

  lemma {:induction false} CallsConcat(a: seq<Output>, b: seq<Output>)
    ensures Calls(a + b) == Calls(a) + Calls(b)
  {
    if a == [] {
      assert a + b == b;
    } else {
      CallsConcat(a[1..], b);
      assert (a + b)[1..] == a[1..] + b;
      var own := if a[0].OnDone? then [a[0].count] else [];
      assert own + (Calls(a[1..]) + Calls(b)) == (own + Calls(a[1..])) + Calls(b);
    }
  }

  /** The j-th input ends the loop: data at a leaf, or the last reply of the subtree. */
  predicate Ends(received: nat, inputs: seq<Input>, j: nat, at: Place)
    requires j < |inputs|
  {
    if inputs[j].Data? then at.leaf else received + Times(Reply, inputs[..j + 1]) == at.subtreeCount
  }

  /** The messages sent are those that the inputs taken demand. */
  predicate Answered(taken: seq<Input>, sent: seq<Output>, at: Place)
  {
    && Times(StoreData, sent) == Times(Data, taken)
    && Times(ToParent, sent) == (if at.root then 0 else |taken|)
    && Times(ToChildren, sent) == (if at.leaf then 0 else Times(Data, taken))
  }

  lemma AnsweredConcat(a: seq<Input>, b: seq<Input>, x: seq<Output>, y: seq<Output>, at: Place)
    requires Answered(a, x, at) && Answered(b, y, at)
    ensures Answered(a + b, x + y, at)
  {
    TimesConcat(Data, a, b);
    TimesConcat(StoreData, x, y);
    TimesConcat(ToParent, x, y);
    TimesConcat(ToChildren, x, y);
  }

  /** What a turn sends, by kind. */
  lemma SendCounts(input: Input, at: Place)
    ensures var sent := Sends(input, at);
      && Times(StoreData, sent) == One(input.Data?)
      && Times(ToParent, sent) == One(!at.root)
      && Times(ToChildren, sent) == One(input.Data? && !at.leaf)
      && Calls(sent) == []
  {
    var p, c := if at.root then [] else [ToParent], if at.leaf then [] else [ToChildren];
    SingleCounts(ToParent);
    if input.Data? {
      SingleCounts(StoreData);
      SingleCounts(ToChildren);
      PartCounts(StoreData, [StoreData], p, c);
      PartCounts(ToParent, [StoreData], p, c);
      PartCounts(ToChildren, [StoreData], p, c);
    }
  }

  lemma SingleCounts(x: Output)
    requires !x.OnDone?
    ensures Calls([x]) == [] && Times(StoreData, [x]) == One(x == StoreData)
    ensures Times(ToParent, [x]) == One(x == ToParent) && Times(ToChildren, [x]) == One(x == ToChildren)
  {
    assert [x][1..] == [];
  }

  lemma PartCounts(x: Output, a: seq<Output>, p: seq<Output>, c: seq<Output>)
    ensures Times(x, a + p + c) == Times(x, a) + Times(x, p) + Times(x, c)
    ensures Calls(a + p + c) == Calls(a) + Calls(p) + Calls(c)
  {
    TimesConcat(x, a + p, c);
    TimesConcat(x, a, p);
    CallsConcat(a + p, c);
    CallsConcat(a, p);
  }

  lemma LeaveCounts(nd: Node, at: Place)
    ensures var sent := Leaves(nd, at);
      && Times(StoreData, sent) == Times(ToParent, sent) == Times(ToChildren, sent) == 0
      && Calls(sent) == if !nd.process && at.root then [nd.received + 1] else []
  {
    var done := OnDone(nd.received + 1);
    assert [done][1..] == [];
  }

  /** A turn with what follows the loop if it ends it. */
  lemma TurnCounts(input: Input, at: Place, next: Node)
    ensures var sent := Sends(input, at) + Leaves(next, at);
      && Times(StoreData, sent) == One(input.Data?)
      && Times(ToParent, sent) == One(!at.root)
      && Times(ToChildren, sent) == One(input.Data? && !at.leaf)
      && Calls(sent) == if !next.process && at.root then [next.received + 1] else []
  {
    var a, b := Sends(input, at), Leaves(next, at);
    SendCounts(input, at);
    LeaveCounts(next, at);
    TimesConcat(StoreData, a, b);
    TimesConcat(ToParent, a, b);
    TimesConcat(ToChildren, a, b);
    CallsConcat(a, b);
  }

  /** k is where the loop stops: at the first input that ends it, or after all. */
  predicate StopsAt(received: nat, inputs: seq<Input>, k: nat, at: Place)
  {
    && k <= |inputs|
    && (forall j: nat {:trigger Ends(received, inputs, j, at)} :: j + 1 < k ==> !Ends(received, inputs, j, at))
    && (k < |inputs| ==> k > 0 && Ends(received, inputs, k - 1, at))
  }

  /**
    * What the loop does with any inputs. It takes them up to the first one that ends it, the first k. The root
    * calls back exactly if it was ended, once and last, with one more than the replies it took; and every input
    * taken is answered by the messages that it demands.
    */
  predicate LoopDoes(nd: Node, inputs: seq<Input>, k: nat, at: Place, last: Node, sent: seq<Output>)
  {
    && StopsAt(nd.received, inputs, k, at)
    && last == Node(nd.received + Times(Reply, inputs[..k]), !(k > 0 && Ends(nd.received, inputs, k - 1, at)))
    && Calls(sent) == (if at.root && !last.process then [last.received + 1] else [])
    && (Calls(sent) != [] ==> sent[|sent| - 1].OnDone?)
    && Answered(inputs[..k], sent, at)
  }

  lemma {:induction false} LoopExact(nd: Node, inputs: seq<Input>, at: Place) returns (k: nat)
    requires nd.process
    ensures LoopDoes(nd, inputs, k, at, Loop(nd, inputs, at).0, Loop(nd, inputs, at).1)
    decreases |inputs|
  {
    if inputs == [] {
      k := 0;
      NoInputs(nd, at);
    } else if Next(nd, inputs[0], at).process {
      var i := LoopExact(Next(nd, inputs[0], at), inputs[1..], at);
      k := i + 1;
      FirstTurn(nd, inputs, at);
      GoesOn(nd.received, inputs, at, i, FirstSends(nd, inputs, at), Loop(Next(nd, inputs[0], at), inputs[1..], at).0,
             Loop(Next(nd, inputs[0], at), inputs[1..], at).1);
    } else {
      k := 1;
      EndsAtOnce(nd, inputs, at);
    }
  }

  function FirstSends(nd: Node, inputs: seq<Input>, at: Place): seq<Output>
    requires inputs != []
  {
    Sends(inputs[0], at) + Leaves(Next(nd, inputs[0], at), at)
  }

  lemma NoInputs(nd: Node, at: Place)
    requires nd.process
    ensures LoopDoes(nd, [], 0, at, nd, [])
  {
  }

  lemma EndsAtOnce(nd: Node, inputs: seq<Input>, at: Place)
    requires nd.process && inputs != [] && !Next(nd, inputs[0], at).process
    ensures LoopDoes(nd, inputs, 1, at, Loop(nd, inputs, at).0, Loop(nd, inputs, at).1)
  {
    FirstTurn(nd, inputs, at);
    assert Loop(nd, inputs, at).1 == FirstSends(nd, inputs, at);
  }

  /** The loop goes on after its first input. */
  lemma {:induction false} GoesOn(received: nat, inputs: seq<Input>, at: Place, i: nat, first: seq<Output>, last: Node, later: seq<Output>)
    requires inputs != [] && !Ends(received, inputs, 0, at) && Calls(first) == [] && Answered(inputs[..1], first, at)
    requires LoopDoes(Node(received + Times(Reply, inputs[..1]), true), inputs[1..], i, at, last, later)
    ensures LoopDoes(Node(received, true), inputs, i + 1, at, last, first + later)
  {
    LaterTurns(received, inputs, at, i);
    LaterCounts(inputs, i);
    assert inputs[..i + 1] == inputs[..1] + inputs[1..][..i];
    AnsweredConcat(inputs[..1], inputs[1..][..i], first, later, at);
    CallsConcat(first, later);
  }

  lemma FirstTurn(nd: Node, inputs: seq<Input>, at: Place)
    requires nd.process && inputs != []
    ensures var next, sent := Next(nd, inputs[0], at), FirstSends(nd, inputs, at);
      && next == Node(nd.received + Times(Reply, inputs[..1]), !Ends(nd.received, inputs, 0, at))
      && Calls(sent) == (if at.root && !next.process then [next.received + 1] else [])
      && (Calls(sent) != [] ==> sent[|sent| - 1].OnDone?)
      && Answered(inputs[..1], sent, at)
  {
    assert inputs[..1] == [inputs[0]];
    TimesOne(Reply, inputs[0]);
    TimesOne(Data, inputs[0]);
    TurnCounts(inputs[0], at, Next(nd, inputs[0], at));
  }

  lemma LaterCounts(inputs: seq<Input>, i: nat)
    requires i < |inputs|
    ensures Times(Reply, inputs[..i + 1]) == Times(Reply, inputs[..1]) + Times(Reply, inputs[1..][..i])
    ensures Times(Data, inputs[..i + 1]) == Times(Data, inputs[..1]) + Times(Data, inputs[1..][..i])
  {
    assert inputs[..i + 1] == inputs[..1] + inputs[1..][..i];
    TimesConcat(Reply, inputs[..1], inputs[1..][..i]);
    TimesConcat(Data, inputs[..1], inputs[1..][..i]);
  }

  /** The inputs of the later turns end the loop as they do from its start. */
  lemma LaterTurns(received: nat, inputs: seq<Input>, at: Place, k: nat)
    requires inputs != [] && !Ends(received, inputs, 0, at) && StopsAt(received + Times(Reply, inputs[..1]), inputs[1..], k, at)
    ensures StopsAt(received, inputs, k + 1, at)
    ensures k > 0 ==> (Ends(received, inputs, k, at) <==> Ends(received + Times(Reply, inputs[..1]), inputs[1..], k - 1, at))
  {
    forall j: nat | j < k ensures !Ends(received, inputs, j, at) {
      if j > 0 { LaterEnds(received, inputs, at, j); }
    }
    if k > 0 { LaterEnds(received, inputs, at, k); }
  }

  lemma LaterEnds(received: nat, inputs: seq<Input>, at: Place, j: nat)
    requires 0 < j < |inputs|
    ensures Ends(received, inputs, j, at) <==> Ends(received + Times(Reply, inputs[..1]), inputs[1..], j - 1, at)
  {
    LaterCounts(inputs, j);
  }

  class Propagation {
    const at: Place
    var received: nat
    var process: bool

    constructor (place: Place)
      ensures at == place && received == 0 && process
    {
      at, received, process := place, 0, true;
    }

    /** One turn of the loop, with what follows the loop if this turn ends it. */
    method Take(input: Input) returns (sent: seq<Output>)
      requires process
      modifies this
      ensures Node(received, process) == Next(old(Node(received, process)), input, at)
      ensures sent == Sends(input, at) + Leaves(Node(received, process), at)
    {
      sent := [];
      if input == Data {
        sent := sent + [StoreData];
        if !at.root {
          sent := sent + [ToParent];
        }
        if at.leaf {
          process := false;
        } else {
          sent := sent + [ToChildren];
        }
      } else {
        received := received + 1;
        if !at.root {
          sent := sent + [ToParent];
        }
        if received == at.subtreeCount {
          process := false;
        }
      }
      if !process && at.root {
        sent := sent + [OnDone(received + 1)];
      }
    }

    /** Dispatch on the messages in the order in which its channels yield them; no timeout. */
    method Dispatch(inputs: seq<Input>) returns (sent: seq<Output>)
      modifies this
      ensures (Node(received, process), sent) == Loop(old(Node(received, process)), inputs, at)
    {
      sent := [];
      var k := 0;
      ghost var goal := Loop(Node(received, process), inputs, at);
      assert inputs[0..] == inputs && [] + goal.1 == goal.1;
      while process && k < |inputs|
        invariant 0 <= k <= |inputs|
        invariant goal.0 == Loop(Node(received, process), inputs[k..], at).0
        invariant goal.1 == sent + Loop(Node(received, process), inputs[k..], at).1
      {
        ghost var before, rest := Node(received, process), inputs[k..];
        assert rest[1..] == inputs[k + 1..];
        var more := Take(inputs[k]);
        ghost var later := Loop(Node(received, process), rest[1..], at);
        assert Loop(before, rest, at) == (later.0, more + later.1);
        assert sent + (more + later.1) == sent + more + later.1;
        sent := sent + more;
        k := k + 1;
      }
      assert Loop(Node(received, process), inputs[k..], at) == (Node(received, process), []);
      assert sent + [] == sent;
    }
  }

  // ----- The tree ----------------------------------------------------------------------------------------

  /** parent[y] for y > 0; node 0 is the root and parents come before their children. */
  predicate Tree(parent: seq<nat>)
  {
    |parent| >= 1 && forall y :: 0 < y < |parent| ==> parent[y] < y
  }

  predicate InSub(parent: seq<nat>, x: nat, y: nat)
    requires Tree(parent) && y < |parent|
  {
    x == y || (y > 0 && InSub(parent, x, parent[y]))
  }

  predicate IsDesc(parent: seq<nat>, x: nat, y: nat)
    requires Tree(parent) && y < |parent|
  {
    y > 0 && InSub(parent, x, parent[y])
  }

  function Sub(parent: seq<nat>, x: nat): set<nat>
    requires Tree(parent)
  {
    set y: nat | y < |parent| && InSub(parent, x, y)
  }

  function Desc(parent: seq<nat>, x: nat): set<nat>
    requires Tree(parent)
  {
    set y: nat | y < |parent| && IsDesc(parent, x, y)
  }

  predicate IsChild(parent: seq<nat>, x: nat, y: nat)
  {
    0 < y < |parent| && parent[y] == x
  }

  function At(parent: seq<nat>, x: nat): Place
    requires Tree(parent)
  {
    Place(x == 0, forall y :: 0 < y < |parent| ==> parent[y] != x, |Desc(parent, x)|)
  }

  lemma {:induction false} SubAbove(parent: seq<nat>, x: nat, y: nat)
    requires Tree(parent) && y < |parent| && InSub(parent, x, y)
    ensures x <= y
  {
    if x != y { SubAbove(parent, x, parent[y]); }
  }

  /** A node below x other than x hangs under a child of x. */
  lemma {:induction false} DescHasChild(parent: seq<nat>, x: nat, y: nat)
    requires Tree(parent) && y < |parent| && IsDesc(parent, x, y)
    ensures exists c: nat :: IsChild(parent, x, c)
  {
    if parent[y] == x {
      assert IsChild(parent, x, y);
    } else {
      DescHasChild(parent, x, parent[y]);
    }
  }

  lemma LeafIff(parent: seq<nat>, x: nat)
    requires Tree(parent) && x < |parent|
    ensures At(parent, x).leaf <==> Desc(parent, x) == {}
  {
    if y :| y in Desc(parent, x) {
      DescHasChild(parent, x, y);
      var c: nat :| IsChild(parent, x, c);
      assert parent[c] == x;
    }
    if c :| 0 < c < |parent| && parent[c] == x {
      assert InSub(parent, x, parent[c]);
      assert c in Desc(parent, x);
    }
  }

  // ----- The system -----------------------------------------------------------------------------------------

  /**
    * `data` and `replies` count the messages on their way to each node, `stored` how often a node
    * has stored the data, `calls` are the arguments of the root's callback.
    */
  datatype State = State(nodes: seq<Node>, data: seq<nat>, replies: seq<nat>, stored: seq<nat>, calls: seq<nat>)

  datatype Event = Deliver(x: nat, input: Input)

  function Fill(n: nat, v: nat): (r: seq<nat>)
    ensures |r| == n && forall i :: 0 <= i < n ==> r[i] == v
  {
    seq(n, i => v)
  }

  /** Start sends the data to the root. */
  function Init(parent: seq<nat>): State
    requires Tree(parent)
  {
    var n := |parent|;
    State(seq(n, i => Node(0, true)), Fill(n, 0)[0 := 1], Fill(n, 0), Fill(n, 0), [])
  }

  predicate Sized(s: State, n: nat)
  {
    |s.nodes| == |s.data| == |s.replies| == |s.stored| == n
  }

  predicate Enabled(s: State, e: Event)
  {
    && e.x < |s.nodes| && Sized(s, |s.nodes|) && s.nodes[e.x].process
    && (if e.input.Data? then s.data[e.x] > 0 else s.replies[e.x] > 0)
  }

  /** k messages more on their way to every child of x. */
  function SendChildren(parent: seq<nat>, data: seq<nat>, x: nat, k: nat): (r: seq<nat>)
    requires |data| == |parent|
    ensures |r| == |data|
    ensures forall y :: 0 <= y < |r| ==> r[y] == data[y] + (if IsChild(parent, x, y) then k else 0)
  {
    seq(|data|, y requires 0 <= y < |data| => data[y] + (if IsChild(parent, x, y) then k else 0))
  }

  function Bump(a: seq<nat>, x: nat, k: int): seq<nat>
    requires x < |a| && a[x] + k >= 0
  {
    a[x := a[x] + k]
  }

  /** The state after x has taken a message and has stored, acknowledged, passed on and called so often. */
  function After(parent: seq<nat>, s: State, e: Event, next: Node, stores: nat, up: nat, down: nat, calls: seq<nat>): State
    requires Tree(parent) && Sized(s, |parent|) && Enabled(s, e)
  {
    var x := e.x;
    var data := if e.input.Data? then Bump(s.data, x, -1) else s.data;
    var replies := if e.input.Reply? then Bump(s.replies, x, -1) else s.replies;
    State(s.nodes[x := next], SendChildren(parent, data, x, down), if x > 0 then Bump(replies, parent[x], up) else replies,
          Bump(s.stored, x, stores), s.calls + calls)
  }

  function Step(parent: seq<nat>, s: State, e: Event): State
    requires Tree(parent) && Sized(s, |parent|) && Enabled(s, e)
  {
    var at := At(parent, e.x);
    var next := Next(s.nodes[e.x], e.input, at);
    var sent := Sends(e.input, at) + Leaves(next, at);
    After(parent, s, e, next, Times(StoreData, sent), Times(ToParent, sent), Times(ToChildren, sent), Calls(sent))
  }

  /** What a step from s to t does, by the kind of the message. */
  predicate Stepped(parent: seq<nat>, s: State, e: Event, t: State)
    requires Tree(parent) && Sized(s, |parent|) && Enabled(s, e)
  {
    var at := At(parent, e.x);
    var next := Next(s.nodes[e.x], e.input, at);
    t == After(parent, s, e, next, One(e.input.Data?), One(!at.root), One(e.input.Data? && !at.leaf),
               if !next.process && at.root then [next.received + 1] else [])
  }

  lemma StepForm(parent: seq<nat>, s: State, e: Event)
    requires Tree(parent) && Sized(s, |parent|) && Enabled(s, e)
    ensures Stepped(parent, s, e, Step(parent, s, e))
  {
    var at := At(parent, e.x);
    TurnCounts(e.input, at, Next(s.nodes[e.x], e.input, at));
  }

  predicate RunsTo(parent: seq<nat>, s: State, events: seq<Event>, t: State)
    requires Tree(parent) && Sized(s, |parent|)
    decreases |events|
  {
    if events == [] then s == t
    else Enabled(s, events[0]) && RunsTo(parent, Step(parent, s, events[0]), events[1..], t)
  }
}
