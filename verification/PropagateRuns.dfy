/** What holds in every timeout-free run of the propagation. */
module PropagateRuns {
  import opened Counts
  import opened Propagate

  // ----- Sums over a set of nodes ---------------------------------------------------------------------

  /** The sum of a over the indices below m that lie in sel. */
  function Sum(a: seq<nat>, sel: set<nat>, m: nat): nat
    requires m <= |a|
  {
    if m == 0 then 0 else Sum(a, sel, m - 1) + (if m - 1 in sel then a[m - 1] else 0)
  }

  lemma {:induction false} SumBump(a: seq<nat>, sel: set<nat>, m: nat, x: nat, k: int)
    requires m <= |a| && x < |a| && a[x] + k >= 0
    ensures Sum(Bump(a, x, k), sel, m) == Sum(a, sel, m) + (if x < m && x in sel then k else 0)
  {
    if m > 0 { SumBump(a, sel, m - 1, x, k); }
  }

  lemma {:induction false} SumZero(a: seq<nat>, sel: set<nat>, m: nat)
    requires m <= |a| && forall i :: 0 <= i < m && i in sel ==> a[i] == 0
    ensures Sum(a, sel, m) == 0
  {
    if m > 0 { SumZero(a, sel, m - 1); }
  }

  lemma {:induction false} SumElement(a: seq<nat>, sel: set<nat>, m: nat, x: nat)
    requires m <= |a| && x < m && x in sel
    ensures a[x] <= Sum(a, sel, m)
  {
    if x < m - 1 { SumElement(a, sel, m - 1, x); }
  }

  /** Of numbers that are at most 1, the sum is at most the size of the set; equal if all are 1. */
  lemma {:induction false} SumOnes(a: seq<nat>, sel: set<nat>, m: nat)
    requires m <= |a| && (forall i :: 0 <= i < m ==> a[i] <= 1) && forall i :: i in sel ==> i < m
    ensures Sum(a, sel, m) <= |sel|
    ensures Sum(a, sel, m) == |sel| <==> forall i :: i in sel ==> a[i] == 1
  {
    if m > 0 {
      if m - 1 in sel {
        SumOnes(a, sel - {m - 1}, m - 1);
        SumSame(a, sel, sel - {m - 1}, m - 1);
      } else {
        SumOnes(a, sel, m - 1);
      }
    } else {
      assert sel == {};
    }
  }

  lemma {:induction false} SumSame(a: seq<nat>, p: set<nat>, q: set<nat>, m: nat)
    requires m <= |a| && forall i: nat :: i < m ==> (i in p <==> i in q)
    ensures Sum(a, p, m) == Sum(a, q, m)
  {
    if m > 0 { SumSame(a, p, q, m - 1); }
  }

  // ----- The invariant -----------------------------------------------------------------------------------

  /** Each node's copy of the data is on its way or stored once its parent has stored it. */
  predicate DataOK(parent: seq<nat>, s: State, x: nat)
    requires Tree(parent) && Sized(s, |parent|) && x < |parent|
  {
    s.data[x] + s.stored[x] == if x == 0 then 1 else s.stored[parent[x]]
  }

  /** Descendants that stored = replies received + replies on their way inside the subtree. */
  predicate RepliesOK(parent: seq<nat>, s: State, x: nat)
    requires Tree(parent) && Sized(s, |parent|) && x < |parent|
  {
    Sum(s.stored, Desc(parent, x), |parent|) == s.nodes[x].received + Sum(s.replies, Sub(parent, x), |parent|)
  }

  /** A leaf has stopped once it has stored, another node once all its descendants have replied. */
  predicate StopOK(parent: seq<nat>, s: State, x: nat)
    requires Tree(parent) && Sized(s, |parent|) && x < |parent|
  {
    !s.nodes[x].process <==>
      if At(parent, x).leaf then s.stored[x] > 0 else s.nodes[x].received == |Desc(parent, x)|
  }

  ghost predicate Inv(parent: seq<nat>, s: State)
    requires Tree(parent)
  {
    && Sized(s, |parent|)
    && (forall x: nat {:trigger DataOK(parent, s, x)} :: x < |parent| ==> DataOK(parent, s, x))
    && (forall x: nat {:trigger RepliesOK(parent, s, x)} :: x < |parent| ==> RepliesOK(parent, s, x))
    && (forall x: nat {:trigger StopOK(parent, s, x)} :: x < |parent| ==> StopOK(parent, s, x))
    && s.calls == if s.nodes[0].process then [] else [s.nodes[0].received + 1]
  }

  lemma InitInv(parent: seq<nat>)
    requires Tree(parent)
    ensures Inv(parent, Init(parent))
  {
    var s := Init(parent);
    forall x: nat | x < |parent| ensures DataOK(parent, s, x) && RepliesOK(parent, s, x) && StopOK(parent, s, x) {
      SumZero(s.stored, Desc(parent, x), |parent|);
      SumZero(s.replies, Sub(parent, x), |parent|);
      LeafIff(parent, x);
    }
  }

  /** Nobody stores the data twice. */
  lemma {:induction false} StoredOnce(parent: seq<nat>, s: State, x: nat)
    requires Tree(parent) && Inv(parent, s) && x < |parent|
    ensures s.stored[x] <= 1
    decreases x
  {
    assert DataOK(parent, s, x);
    if x > 0 { StoredOnce(parent, s, parent[x]); }
  }

  lemma StoredBound(parent: seq<nat>, s: State, x: nat)
    requires Tree(parent) && Inv(parent, s) && x < |parent|
    ensures var all := Sum(s.stored, Desc(parent, x), |parent|);
      all <= |Desc(parent, x)| && (all == |Desc(parent, x)| <==> forall y :: y in Desc(parent, x) ==> s.stored[y] == 1)
  {
    forall y | 0 <= y < |parent| ensures s.stored[y] <= 1 { StoredOnce(parent, s, y); }
    SumOnes(s.stored, Desc(parent, x), |parent|);
  }

  // ----- Every step keeps it ---------------------------------------------------------------------------

  lemma DataKeepsReplies(parent: seq<nat>, s: State, t: State, x: nat, z: nat)
    requires Tree(parent) && Inv(parent, s) && Enabled(s, Deliver(x, Data)) && z < |parent|
    requires Stepped(parent, s, Deliver(x, Data), t)
    ensures RepliesOK(parent, t, z)
  {
    var n := |parent|;
    assert RepliesOK(parent, s, z);
    SumBump(s.stored, Desc(parent, z), n, x, 1);
    if x > 0 {
      SumBump(s.replies, Sub(parent, z), n, parent[x], 1);
      assert x in Desc(parent, z) <==> parent[x] in Sub(parent, z);
    }
  }

  lemma ReplyKeepsReplies(parent: seq<nat>, s: State, t: State, x: nat, z: nat)
    requires Tree(parent) && Inv(parent, s) && Enabled(s, Deliver(x, Reply)) && z < |parent|
    requires Stepped(parent, s, Deliver(x, Reply), t)
    ensures RepliesOK(parent, t, z)
  {
    var n := |parent|;
    assert RepliesOK(parent, s, z);
    var less := Bump(s.replies, x, -1);
    assert t.stored == s.stored;
    SumBump(s.replies, Sub(parent, z), n, x, -1);
    if x > 0 {
      SumBump(less, Sub(parent, z), n, parent[x], 1);
      if parent[x] in Sub(parent, z) { SubAbove(parent, z, parent[x]); }
    }
    assert x in Sub(parent, z) <==> x == z || (x > 0 && parent[x] in Sub(parent, z));
  }

  /** A node that has stopped has no message on its way to it. */
  lemma StoppedIsQuiet(parent: seq<nat>, s: State, x: nat)
    requires Tree(parent) && Inv(parent, s) && x < |parent| && !s.nodes[x].process
    ensures s.stored[x] == 1 && s.data[x] == 0 && s.replies[x] == 0
  {
    var n := |parent|;
    assert StopOK(parent, s, x) && RepliesOK(parent, s, x) && DataOK(parent, s, x);
    LeafIff(parent, x);
    StoredBound(parent, s, x);
    assert x in Sub(parent, x);
    SumElement(s.replies, Sub(parent, x), n, x);
    StoredOnce(parent, s, x);
    if x > 0 { StoredOnce(parent, s, parent[x]); }
    if !At(parent, x).leaf {
      var c :| 0 < c < n && parent[c] == x;
      assert InSub(parent, x, parent[c]);
      assert c in Desc(parent, x);
      assert DataOK(parent, s, c);
    }
  }

  lemma DataKeepsRest(parent: seq<nat>, s: State, t: State, x: nat, z: nat)
    requires Tree(parent) && Inv(parent, s) && Enabled(s, Deliver(x, Data)) && z < |parent|
    requires Stepped(parent, s, Deliver(x, Data), t)
    ensures DataOK(parent, t, z) && StopOK(parent, t, z)
  {
    assert DataOK(parent, s, z) && StopOK(parent, s, z);
    assert StopOK(parent, s, x) && DataOK(parent, s, x);
    StoredOnce(parent, s, x);
    if z > 0 && parent[z] == x {
      assert IsChild(parent, x, z);
      assert !At(parent, x).leaf;
    }
  }

  lemma ReplyKeepsRest(parent: seq<nat>, s: State, t: State, x: nat, z: nat)
    requires Tree(parent) && Inv(parent, s) && Enabled(s, Deliver(x, Reply)) && z < |parent|
    requires Stepped(parent, s, Deliver(x, Reply), t)
    ensures DataOK(parent, t, z) && StopOK(parent, t, z)
  {
    assert DataOK(parent, s, z) && StopOK(parent, s, z);
    assert StopOK(parent, s, x) && RepliesOK(parent, s, x);
    LeafIff(parent, x);
    assert x in Sub(parent, x);
    SumElement(s.replies, Sub(parent, x), |parent|, x);
    StoredBound(parent, s, x);
  }

  lemma SteppedKeepsInv(parent: seq<nat>, s: State, e: Event, t: State)
    requires Tree(parent) && Inv(parent, s) && Enabled(s, e) && Stepped(parent, s, e, t)
    ensures Inv(parent, t)
  {
    forall z: nat | z < |parent| ensures DataOK(parent, t, z) && RepliesOK(parent, t, z) && StopOK(parent, t, z) {
      if e.input.Data? {
        DataKeepsReplies(parent, s, t, e.x, z);
        DataKeepsRest(parent, s, t, e.x, z);
      } else {
        ReplyKeepsReplies(parent, s, t, e.x, z);
        ReplyKeepsRest(parent, s, t, e.x, z);
      }
    }
  }

  lemma StepKeepsInv(parent: seq<nat>, s: State, e: Event)
    requires Tree(parent) && Inv(parent, s) && Enabled(s, e)
    ensures Inv(parent, Step(parent, s, e))
  {
    StepForm(parent, s, e);
    SteppedKeepsInv(parent, s, e, Step(parent, s, e));
  }

  // ----- Runs -----------------------------------------------------------------------------------------------

  lemma {:induction false} RunKeepsInv(parent: seq<nat>, s: State, events: seq<Event>, t: State)
    requires Tree(parent) && Inv(parent, s) && RunsTo(parent, s, events, t)
    ensures Inv(parent, t) && Work(t, |parent|) == Work(s, |parent|) + |events|
    decreases |events|
  {
    if events != [] {
      StepKeepsInv(parent, s, events[0]);
      StepWork(parent, s, events[0]);
      RunKeepsInv(parent, Step(parent, s, events[0]), events[1..], t);
    }
  }

  /** Messages handled so far by the nodes below m. */
  function Work(s: State, m: nat): nat
    requires m <= |s.nodes| && Sized(s, |s.nodes|)
  {
    if m == 0 then 0 else Work(s, m - 1) + s.stored[m - 1] + s.nodes[m - 1].received
  }

  lemma {:induction false} WorkAfter(parent: seq<nat>, s: State, e: Event, t: State, m: nat)
    requires Tree(parent) && Sized(s, |parent|) && Enabled(s, e) && Stepped(parent, s, e, t) && m <= |parent|
    ensures Work(t, m) == Work(s, m) + (if e.x < m then 1 else 0)
  {
    if m > 0 { WorkAfter(parent, s, e, t, m - 1); }
  }

  lemma StepWork(parent: seq<nat>, s: State, e: Event)
    requires Tree(parent) && Sized(s, |parent|) && Enabled(s, e)
    ensures Work(Step(parent, s, e), |parent|) == Work(s, |parent|) + 1
  {
    StepForm(parent, s, e);
    WorkAfter(parent, s, e, Step(parent, s, e), |parent|);
  }

  /** One message of data per node and one reply per node and ancestor. */
  function AllMessages(parent: seq<nat>, m: nat): nat
    requires Tree(parent)
  {
    if m == 0 then 0 else AllMessages(parent, m - 1) + 1 + |Desc(parent, m - 1)|
  }

  lemma {:induction false} WorkBound(parent: seq<nat>, s: State, m: nat)
    requires Tree(parent) && Inv(parent, s) && m <= |parent|
    ensures Work(s, m) <= AllMessages(parent, m)
    ensures (forall x :: 0 <= x < m ==> s.stored[x] == 1 && s.nodes[x].received == |Desc(parent, x)|) ==> Work(s, m) == AllMessages(parent, m)
  {
    if m > 0 {
      WorkBound(parent, s, m - 1);
      StoredOnce(parent, s, m - 1);
      StoredBound(parent, s, m - 1);
      assert RepliesOK(parent, s, m - 1);
    }
  }

  lemma {:induction false} BelowRoot(parent: seq<nat>, y: nat)
    requires Tree(parent) && y < |parent|
    ensures InSub(parent, 0, y)
  {
    if y > 0 { BelowRoot(parent, parent[y]); }
  }

  lemma RootDescendants(parent: seq<nat>)
    requires Tree(parent)
    ensures Desc(parent, 0) == Interval(1, |parent|)
  {
    forall y: nat | 0 < y < |parent| ensures y in Desc(parent, 0) { BelowRoot(parent, parent[y]); }
  }

  ghost predicate Reachable(parent: seq<nat>, s: State)
    requires Tree(parent)
  {
    exists events :: RunsTo(parent, Init(parent), events, s)
  }

  lemma ReachableInv(parent: seq<nat>, s: State)
    requires Tree(parent) && Reachable(parent, s)
    ensures Inv(parent, s)
  {
    var events :| RunsTo(parent, Init(parent), events, s);
    InitInv(parent);
    RunKeepsInv(parent, Init(parent), events, s);
  }

  /** Counting acknowledgements: in every run, at every node. */
  lemma RepliesCounted(parent: seq<nat>, s: State, x: nat)
    requires Tree(parent) && Reachable(parent, s) && x < |parent|
    ensures Sized(s, |parent|)
    ensures Sum(s.stored, Desc(parent, x), |parent|) == s.nodes[x].received + Sum(s.replies, Sub(parent, x), |parent|)
  {
    ReachableInv(parent, s);
    assert RepliesOK(parent, s, x);
  }

  /** The root's callback fires at most once, with the number of nodes, and only after all have stored. */
  lemma CallbackExact(parent: seq<nat>, s: State)
    requires Tree(parent) && Reachable(parent, s)
    ensures s.calls == [] || s.calls == [|parent|]
    ensures s.calls != [] ==> Sized(s, |parent|) && forall x :: 0 <= x < |parent| ==> s.stored[x] == 1
  {
    ReachableInv(parent, s);
    CallbackCounts(parent, s);
  }

  lemma CallbackCounts(parent: seq<nat>, s: State)
    requires Tree(parent) && Inv(parent, s)
    ensures s.calls == [] || s.calls == [|parent|]
    ensures s.calls != [] ==> forall x :: 0 <= x < |parent| ==> s.stored[x] == 1
  {
    if s.calls != [] {
      RootStopped(parent, s);
    }
  }

  lemma RootStopped(parent: seq<nat>, s: State)
    requires Tree(parent) && Inv(parent, s) && !s.nodes[0].process
    ensures s.nodes[0].received + 1 == |parent| && forall x :: 0 <= x < |parent| ==> s.stored[x] == 1
  {
    StoppedIsQuiet(parent, s, 0);
    LeafIff(parent, 0);
    assert StopOK(parent, s, 0) && RepliesOK(parent, s, 0);
    StoredBound(parent, s, 0);
    RootDescendants(parent);
    forall x: nat | 0 < x < |parent| ensures s.stored[x] == 1 {
      assert x in Desc(parent, 0);
    }
  }

  /** With nothing left to deliver, every node has stored, got all its replies and stopped. */
  lemma {:induction false} QuietStored(parent: seq<nat>, s: State, x: nat)
    requires Tree(parent) && Inv(parent, s) && x < |parent| && forall e :: !Enabled(s, e)
    ensures s.stored[x] == 1 && s.data[x] == 0 && s.replies[x] == 0
    decreases x
  {
    if s.nodes[x].process {
      assert !Enabled(s, Deliver(x, Data)) && !Enabled(s, Deliver(x, Reply));
      assert DataOK(parent, s, x);
      if x > 0 { QuietStored(parent, s, parent[x]); }
    } else {
      StoppedIsQuiet(parent, s, x);
    }
  }

  lemma QuietComplete(parent: seq<nat>, s: State, x: nat)
    requires Tree(parent) && Inv(parent, s) && x < |parent| && forall e :: !Enabled(s, e)
    ensures s.nodes[x].received == |Desc(parent, x)| && !s.nodes[x].process
  {
    forall y: nat | y < |parent| ensures s.stored[y] == 1 && s.replies[y] == 0 { QuietStored(parent, s, y); }
    StoredBound(parent, s, x);
    SumZero(s.replies, Sub(parent, x), |parent|);
    assert RepliesOK(parent, s, x) && StopOK(parent, s, x);
  }

  /** No state is stuck before the callback: some message can be handled. */
  lemma Progress(parent: seq<nat>, s: State)
    requires Tree(parent) && Reachable(parent, s) && s.calls == []
    ensures exists e :: Enabled(s, e)
  {
    ReachableInv(parent, s);
    if forall e :: !Enabled(s, e) {
      QuietComplete(parent, s, 0);
    }
  }

  /**
    * Every run handles at most one message of data per node and one reply per node and ancestor; a run
    * that cannot go on has handled exactly these, and its callback has fired.
    */
  lemma RunLength(parent: seq<nat>, events: seq<Event>, s: State)
    requires Tree(parent) && RunsTo(parent, Init(parent), events, s)
    ensures |events| <= AllMessages(parent, |parent|)
    ensures (forall e :: !Enabled(s, e)) ==> |events| == AllMessages(parent, |parent|) && s.calls == [|parent|]
  {
    InitInv(parent);
    RunKeepsInv(parent, Init(parent), events, s);
    InitWork(parent, |parent|);
    WorkBound(parent, s, |parent|);
    assert Reachable(parent, s);
    if forall e :: !Enabled(s, e) {
      forall x: nat | x < |parent| ensures s.stored[x] == 1 && s.nodes[x].received == |Desc(parent, x)| && !s.nodes[x].process {
        QuietStored(parent, s, x);
        QuietComplete(parent, s, x);
      }
      CallbackExact(parent, s);
    }
  }

  lemma {:induction false} InitWork(parent: seq<nat>, m: nat)
    requires Tree(parent) && m <= |parent|
    ensures Work(Init(parent), m) == 0
  {
    if m > 0 { InitWork(parent, m - 1); }
  }
}
