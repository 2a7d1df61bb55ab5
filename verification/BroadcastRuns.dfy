/** What holds in every run of the broadcast with at least two nodes. */
module BroadcastRuns {
  import opened Counts
  import opened Broadcast

  predicate Started(x: Local)
  {
    0 in x.heard
  }

  predicate Finished(x: Local)
  {
    0 in x.heard && x.left == 0
  }

  /** Contacts from i to j: on their way or handled exactly if i has started, and only from i < j. */
  predicate ContactOK(locals: seq<Local>, i: nat, j: nat)
    requires j < |locals|
  {
    locals[j].contacts[i] + One(i in locals[j].heard) ==
      if i < j then One(Started(locals[i])) else One(i == j == 0)
  }

  /** Dones from j to i: the answer to a contact, or, at the root, the sign that j has finished. */
  predicate DoneOK(locals: seq<Local>, i: nat, j: nat)
    requires i < |locals|
  {
    locals[i].dones[j] + One(j in locals[i].acked) ==
      if !(i < j < |locals|) then 0 else if i == 0 then One(Finished(locals[j])) else One(i in locals[j].heard)
  }

  predicate LeftOK(n: nat, i: nat, x: Local)
  {
    if Started(x) then x.left == n - 1 - i - |x.acked| else x.acked == {}
  }

  ghost predicate Inv(s: State)
  {
    var n := |s.locals|;
    && n >= 2
    && (forall i: nat, j: nat {:trigger ContactOK(s.locals, i, j)} :: j < n ==> ContactOK(s.locals, i, j))
    && (forall i: nat, j: nat {:trigger DoneOK(s.locals, i, j)} :: i < n ==> DoneOK(s.locals, i, j))
    && (forall i: nat {:trigger LeftOK(n, i, s.locals[i])} :: i < n ==> LeftOK(n, i, s.locals[i]))
    && s.calls == One(Finished(s.locals[0]))
  }

  lemma InitInv(n: nat)
    requires n >= 2
    ensures Inv(Init(n))
  {
    var s := Init(n);
    forall i: nat, j: nat | j < n ensures ContactOK(s.locals, i, j) {}
    forall i: nat, j: nat | i < n ensures DoneOK(s.locals, i, j) {}
  }

  lemma AckedLater(s: State, i: nat)
    requires Inv(s) && i < |s.locals|
    ensures s.locals[i].acked <= Interval(i + 1, |s.locals|)
    ensures Started(s.locals[i]) ==> s.locals[i].left >= 0 && (s.locals[i].left == 0 <==> s.locals[i].acked == Interval(i + 1, |s.locals|))
  {
    var n, x := |s.locals|, s.locals[i];
    forall j | j in x.acked ensures j in Interval(i + 1, n) {
      assert DoneOK(s.locals, i, j);
    }
    SubsetSize(x.acked, Interval(i + 1, n));
    assert LeftOK(n, i, x);
  }

  // ----- A contact from the root: the node starts ----------------------------------------------------

  function AfterStart(locals: seq<Local>, j: nat, k: nat): Local
    requires j < |locals| && k < |locals|
  {
    var n, x := |locals|, locals[k];
    if k == j then OnContact(n, j, x, 0)
    else x.(contacts := if j < k then x.contacts + multiset{j} else x.contacts,
            dones := if k == 0 && j + 1 == n then x.dones + multiset{j} else x.dones)
  }

  lemma StartEffect(s: State, j: nat, k: nat)
    requires |s.locals| >= 2 && Enabled(s, Contact(j, 0)) && k < |s.locals|
    ensures Step(s, Contact(j, 0)).locals[k] == AfterStart(s.locals, j, k)
  {
    ContactReceived(s.locals[j := OnContact(|s.locals|, j, s.locals[j], 0)][k], |s.locals|, j, 0, k);
  }

  lemma StartContact(s: State, t: State, j: nat, a: nat, b: nat)
    requires Inv(s) && Enabled(s, Contact(j, 0)) && t == Step(s, Contact(j, 0)) && b < |s.locals|
    ensures ContactOK(t.locals, a, b)
  {
    assert ContactOK(s.locals, 0, j) && ContactOK(s.locals, a, b);
    StartEffect(s, j, b);
    if a < b {
      StartEffect(s, j, a);
      StartedBy(s.locals, j, a, b);
    }
  }

  lemma StartedBy(locals: seq<Local>, j: nat, a: nat, b: nat)
    requires j < |locals| && a < b < |locals|
    ensures var x, y := AfterStart(locals, j, a), AfterStart(locals, j, b);
      && (Started(x) <==> Started(locals[a]) || a == j)
      && y.contacts[a] + One(a in y.heard) ==
           (if b == j && a == 0 then locals[b].contacts[a] - One(a in locals[b].contacts) + 1
            else locals[b].contacts[a] + One(a == j) + One(a in locals[b].heard))
  {
  }

  lemma StartDone(s: State, t: State, j: nat, a: nat, b: nat)
    requires Inv(s) && Enabled(s, Contact(j, 0)) && t == Step(s, Contact(j, 0)) && a < |s.locals|
    ensures DoneOK(t.locals, a, b)
  {
    assert ContactOK(s.locals, 0, j) && DoneOK(s.locals, a, b);
    StartEffect(s, j, a);
    StartAt(s.locals, j, a, b);
    if b < |s.locals| {
      StartEffect(s, j, b);
      StartBy(s.locals, j, a, b);
    }
  }

  lemma StartAt(locals: seq<Local>, j: nat, a: nat, b: nat)
    requires j < |locals| && a < |locals|
    ensures var x := AfterStart(locals, j, a);
      x.dones[b] == locals[a].dones[b] + One(a == 0 && a != j && b == j && j + 1 == |locals|) && x.acked == locals[a].acked
  {
  }

  lemma StartBy(locals: seq<Local>, j: nat, a: nat, b: nat)
    requires j < |locals| && b < |locals|
    ensures var y := AfterStart(locals, j, b);
      && (a in y.heard <==> a in locals[b].heard || (b == j && a == 0))
      && (Finished(y) <==> if b == j then j + 1 == |locals| else Finished(locals[b]))
  {
  }

  lemma StartKeepsInv(s: State, j: nat)
    requires Inv(s) && Enabled(s, Contact(j, 0))
    ensures Inv(Step(s, Contact(j, 0)))
  {
    var n, t := |s.locals|, Step(s, Contact(j, 0));
    forall a: nat, b: nat | b < n ensures ContactOK(t.locals, a, b) { StartContact(s, t, j, a, b); }
    forall a: nat, b: nat | a < n ensures DoneOK(t.locals, a, b) { StartDone(s, t, j, a, b); }
    assert ContactOK(s.locals, 0, j);
    forall a: nat | a < n ensures LeftOK(n, a, t.locals[a]) {
      StartEffect(s, j, a);
      assert LeftOK(n, a, s.locals[a]);
    }
    StartEffect(s, j, 0);
  }

  // ----- A contact from another node: it is answered -------------------------------------------------

  function AfterAnswer(locals: seq<Local>, j: nat, from: nat, k: nat): Local
    requires j < |locals| && k < |locals|
  {
    var x := locals[k];
    if k == j then OnContact(|locals|, j, x, from)
    else x.(dones := if k == from then x.dones + multiset{j} else x.dones)
  }

  lemma AnswerEffect(s: State, j: nat, from: nat, k: nat)
    requires Enabled(s, Contact(j, from)) && 0 < from && from != j && k < |s.locals|
    ensures Step(s, Contact(j, from)).locals[k] == AfterAnswer(s.locals, j, from, k)
  {
    ContactReceived(s.locals[j := OnContact(|s.locals|, j, s.locals[j], from)][k], |s.locals|, j, from, k);
  }

  lemma AnswerContact(s: State, t: State, j: nat, from: nat, a: nat, b: nat)
    requires Inv(s) && Enabled(s, Contact(j, from)) && 0 < from < j && t == Step(s, Contact(j, from)) && b < |s.locals|
    ensures ContactOK(t.locals, a, b)
  {
    assert ContactOK(s.locals, from, j) && ContactOK(s.locals, a, b);
    AnswerEffect(s, j, from, b);
    if a < b { AnswerEffect(s, j, from, a); }
  }

  lemma AnswerDone(s: State, t: State, j: nat, from: nat, a: nat, b: nat)
    requires Inv(s) && Enabled(s, Contact(j, from)) && 0 < from < j && t == Step(s, Contact(j, from)) && a < |s.locals|
    ensures DoneOK(t.locals, a, b)
  {
    assert ContactOK(s.locals, from, j) && DoneOK(s.locals, a, b);
    AnswerEffect(s, j, from, a);
    AnsweredAt(s.locals, j, from, a, b);
    if b < |s.locals| {
      AnswerEffect(s, j, from, b);
      AnsweredBy(s.locals, j, from, a, b);
    }
  }

  lemma AnsweredAt(locals: seq<Local>, j: nat, from: nat, a: nat, b: nat)
    requires j < |locals| && a < |locals| && from != j
    ensures var x := AfterAnswer(locals, j, from, a);
      x.dones[b] == locals[a].dones[b] + One(a == from && b == j) && x.acked == locals[a].acked
  {
  }

  lemma AnsweredBy(locals: seq<Local>, j: nat, from: nat, a: nat, b: nat)
    requires j < |locals| && b < |locals| && 0 < from
    ensures var y := AfterAnswer(locals, j, from, b);
      (a in y.heard <==> a in locals[b].heard || (b == j && a == from)) && (Finished(y) <==> Finished(locals[b]))
  {
  }

  lemma AnswerKeepsInv(s: State, j: nat, from: nat)
    requires Inv(s) && Enabled(s, Contact(j, from)) && from > 0
    ensures Inv(Step(s, Contact(j, from)))
  {
    var n, t := |s.locals|, Step(s, Contact(j, from));
    assert ContactOK(s.locals, from, j);
    forall a: nat, b: nat | b < n ensures ContactOK(t.locals, a, b) { AnswerContact(s, t, j, from, a, b); }
    forall a: nat, b: nat | a < n ensures DoneOK(t.locals, a, b) { AnswerDone(s, t, j, from, a, b); }
    forall a: nat | a < n ensures LeftOK(n, a, t.locals[a]) {
      AnswerEffect(s, j, from, a);
      assert LeftOK(n, a, s.locals[a]);
    }
    AnswerEffect(s, j, from, 0);
  }

  // ----- A Done: it is counted ---------------------------------------------------------------------------

  function AfterDone(locals: seq<Local>, i: nat, from: nat, k: nat): Local
    requires i < |locals| && k < |locals|
  {
    var x := locals[k];
    if k == i then OnDone(x, from)
    else x.(dones := if k == 0 && locals[i].left == 1 then x.dones + multiset{i} else x.dones)
  }

  lemma DoneEffect(s: State, i: nat, from: nat, k: nat)
    requires Enabled(s, Done(i, from)) && k < |s.locals|
    ensures Step(s, Done(i, from)).locals[k] == AfterDone(s.locals, i, from, k)
  {
    DoneReceived(s.locals[i := OnDone(s.locals[i], from)][k], i, s.locals[i].left, k);
  }

  /** Only a node that has started and still waits gets a Done, from a later node that it has not counted. */
  lemma DoneAwaited(s: State, i: nat, from: nat)
    requires Inv(s) && Enabled(s, Done(i, from))
    ensures i < from && from !in s.locals[i].acked && Started(s.locals[i]) && s.locals[i].left > 0
  {
    assert DoneOK(s.locals, i, from) && ContactOK(s.locals, i, from);
    AckedLater(s, i);
    assert from in Interval(i + 1, |s.locals|);
  }

  lemma DoneContact(s: State, t: State, i: nat, from: nat, a: nat, b: nat)
    requires Inv(s) && Enabled(s, Done(i, from)) && t == Step(s, Done(i, from)) && b < |s.locals|
    ensures ContactOK(t.locals, a, b)
  {
    assert ContactOK(s.locals, a, b);
    DoneEffect(s, i, from, b);
    if a < b { DoneEffect(s, i, from, a); }
  }

  lemma DoneDone(s: State, t: State, i: nat, from: nat, a: nat, b: nat)
    requires Inv(s) && Enabled(s, Done(i, from)) && t == Step(s, Done(i, from)) && a < |s.locals|
    ensures DoneOK(t.locals, a, b)
  {
    assert DoneOK(s.locals, a, b);
    DoneAwaited(s, i, from);
    DoneEffect(s, i, from, a);
    if b < |s.locals| { DoneEffect(s, i, from, b); }
  }

  lemma DoneKeepsInv(s: State, i: nat, from: nat)
    requires Inv(s) && Enabled(s, Done(i, from))
    ensures Inv(Step(s, Done(i, from)))
  {
    var n, t := |s.locals|, Step(s, Done(i, from));
    DoneAwaited(s, i, from);
    forall a: nat, b: nat | b < n ensures ContactOK(t.locals, a, b) { DoneContact(s, t, i, from, a, b); }
    forall a: nat, b: nat | a < n ensures DoneOK(t.locals, a, b) { DoneDone(s, t, i, from, a, b); }
    forall a: nat | a < n ensures LeftOK(n, a, t.locals[a]) {
      DoneEffect(s, i, from, a);
      assert LeftOK(n, a, s.locals[a]);
    }
    DoneEffect(s, i, from, 0);
  }

  lemma StepKeepsInv(s: State, e: Event)
    requires Inv(s) && Enabled(s, e)
    ensures Inv(Step(s, e))
  {
    match e
    case Contact(j, from) =>
      if from == 0 {
        StartKeepsInv(s, j);
      } else {
        AnswerKeepsInv(s, j, from);
      }
    case Done(i, from) => DoneKeepsInv(s, i, from);
  }

  // ----- Runs -------------------------------------------------------------------------------------------

  /** Messages handled so far by the nodes below m. */
  function Work(s: State, m: nat): nat
    requires m <= |s.locals|
  {
    if m == 0 then 0 else Work(s, m - 1) + |s.locals[m - 1].heard| + |s.locals[m - 1].acked|
  }

  /** The step lets node `at` handle one message more. */
  ghost predicate Handled(s: State, t: State, at: nat, k: nat)
    requires k < |s.locals| == |t.locals|
  {
    |t.locals[k].heard| + |t.locals[k].acked| == |s.locals[k].heard| + |s.locals[k].acked| + One(at == k)
  }

  lemma HandledAt(s: State, e: Event, k: nat)
    requires Inv(s) && Enabled(s, e) && k < |s.locals|
    ensures Handled(s, Step(s, e), e.at, k)
  {
    KeepsHistory(s, e, k);
    if e.Contact? {
      assert ContactOK(s.locals, e.from, e.at);
    } else {
      DoneAwaited(s, e.at, e.from);
    }
  }

  /** A step adds one name to the history of the node it happens at. */
  lemma KeepsHistory(s: State, e: Event, k: nat)
    requires Enabled(s, e) && k < |s.locals|
    ensures var x, y := s.locals[k], Step(s, e).locals[k];
      && y.heard == x.heard + (if e.Contact? && e.at == k then {e.from} else {})
      && y.acked == x.acked + (if e.Done? && e.at == k then {e.from} else {})
  {
  }

  lemma {:induction false} WorkAfter(s: State, t: State, at: nat, m: nat)
    requires m <= |s.locals| == |t.locals| && forall k: nat {:trigger Handled(s, t, at, k)} :: k < |s.locals| ==> Handled(s, t, at, k)
    ensures Work(t, m) == Work(s, m) + One(at < m)
  {
    if m > 0 {
      WorkAfter(s, t, at, m - 1);
      assert Handled(s, t, at, m - 1);
    }
  }

  lemma StepWork(s: State, e: Event)
    requires Inv(s) && Enabled(s, e)
    ensures Work(Step(s, e), |s.locals|) == Work(s, |s.locals|) + 1
  {
    forall k: nat | k < |s.locals| ensures Handled(s, Step(s, e), e.at, k) { HandledAt(s, e, k); }
    WorkAfter(s, Step(s, e), e.at, |s.locals|);
  }

  lemma {:induction false} RunKeepsInv(s: State, events: seq<Event>, t: State)
    requires Inv(s) && RunsTo(s, events, t)
    ensures Inv(t) && |t.locals| == |s.locals| && Work(t, |t.locals|) == Work(s, |s.locals|) + |events|
    decreases |events|
  {
    if events != [] {
      StepKeepsInv(s, events[0]);
      StepWork(s, events[0]);
      RunKeepsInv(Step(s, events[0]), events[1..], t);
    }
  }

  ghost predicate Reachable(n: nat, s: State)
    requires n >= 1
  {
    exists events :: RunsTo(Init(n), events, s)
  }

  lemma ReachableInv(n: nat, s: State)
    requires n >= 2 && Reachable(n, s)
    ensures Inv(s) && |s.locals| == n
  {
    var events :| RunsTo(Init(n), events, s);
    InitInv(n);
    RunKeepsInv(Init(n), events, s);
  }

  /** A node that has finished has heard back from every later node. */
  lemma FinishedAcked(s: State, i: nat, j: nat)
    requires Inv(s) && i < j < |s.locals| && Finished(s.locals[i])
    ensures j in s.locals[i].acked
    ensures if i == 0 then Finished(s.locals[j]) else i in s.locals[j].heard
  {
    AckedLater(s, i);
    assert DoneOK(s.locals, i, j);
  }

  /** The callback fires at most once, and only after every pair has had its contact delivered. */
  lemma CallbackAfterAllPairs(n: nat, s: State, i: nat, j: nat)
    requires n >= 2 && Reachable(n, s) && i < j < n
    ensures s.calls <= 1 && |s.locals| == n
    ensures s.calls == 1 ==> i in s.locals[j].heard
  {
    ReachableInv(n, s);
    if s.calls == 1 {
      FinishedAcked(s, 0, j);
      if i > 0 {
        FinishedAcked(s, 0, i);
        FinishedAcked(s, i, j);
      }
    }
  }

  ghost predicate Quiet(s: State)
  {
    forall e :: !Enabled(s, e)
  }

  lemma QuietHeard(s: State, i: nat, j: nat)
    requires Inv(s) && Quiet(s) && j < |s.locals| && (i < j || i == j == 0)
    ensures i in s.locals[j].heard
  {
    assert ContactOK(s.locals, 0, 0) && !Enabled(s, Contact(0, 0));
    assert ContactOK(s.locals, 0, i) && !Enabled(s, Contact(i, 0));
    assert ContactOK(s.locals, i, j) && !Enabled(s, Contact(j, i));
  }

  lemma QuietFinished(s: State, i: nat)
    requires Inv(s) && Quiet(s) && i < |s.locals|
    ensures Finished(s.locals[i]) && s.locals[i].acked == Interval(i + 1, |s.locals|)
    decreases One(i == 0)
  {
    var n := |s.locals|;
    forall j | i < j < n ensures j in s.locals[i].acked {
      assert DoneOK(s.locals, i, j) && !Enabled(s, Done(i, j));
      if i == 0 {
        QuietFinished(s, j);
      } else {
        QuietHeard(s, i, j);
      }
    }
    QuietHeard(s, 0, i);
    AckedLater(s, i);
    assert Interval(i + 1, n) <= s.locals[i].acked;
  }

  /** Before the callback some message is always on its way. */
  lemma Progress(n: nat, s: State)
    requires n >= 2 && Reachable(n, s) && s.calls == 0
    ensures exists e :: Enabled(s, e)
  {
    ReachableInv(n, s);
    if Quiet(s) {
      QuietFinished(s, 0);
    }
  }

  lemma HeardBound(s: State, j: nat)
    requires Inv(s) && j < |s.locals|
    ensures |s.locals[j].heard| <= j + One(j == 0)
    ensures Quiet(s) ==> |s.locals[j].heard| == j + One(j == 0)
  {
    var all := if j == 0 then {0} else Interval(0, j);
    forall i | i in s.locals[j].heard ensures i in all {
      assert ContactOK(s.locals, i, j);
    }
    SubsetSize(s.locals[j].heard, all);
    if Quiet(s) {
      forall i | i in all ensures i in s.locals[j].heard { QuietHeard(s, i, j); }
      assert s.locals[j].heard == all;
    }
  }

  /** A node hears from every earlier node and is answered by every later one: n - 1 messages. */
  lemma NodeBound(s: State, j: nat)
    requires Inv(s) && j < |s.locals|
    ensures var all := |s.locals[j].heard| + |s.locals[j].acked|;
      all <= |s.locals| - 1 + One(j == 0) && (Quiet(s) ==> all == |s.locals| - 1 + One(j == 0))
  {
    HeardBound(s, j);
    AckedLater(s, j);
    SubsetSize(s.locals[j].acked, Interval(j + 1, |s.locals|));
    if Quiet(s) { QuietFinished(s, j); }
  }

  /** n - 1 messages for each of m nodes, and the root's message to itself. */
  function Messages(n: nat, m: nat): int
  {
    if m == 0 then 0 else Messages(n, m - 1) + n - 1 + One(m == 1)
  }

  lemma {:induction false} MessagesProduct(n: nat, m: nat)
    ensures Messages(n, m) == m * (n - 1) + One(m > 0)
  {
    if m > 0 {
      MessagesProduct(n, m - 1);
      assert m * (n - 1) == (m - 1) * (n - 1) + (n - 1);
    }
  }

  lemma {:induction false} WorkBound(s: State, m: nat)
    requires Inv(s) && m <= |s.locals|
    ensures Work(s, m) <= Messages(|s.locals|, m)
    ensures Quiet(s) ==> Work(s, m) == Messages(|s.locals|, m)
  {
    if m > 0 {
      WorkBound(s, m - 1);
      NodeBound(s, m - 1);
    }
  }

  lemma {:induction false} InitWork(n: nat, m: nat)
    requires m <= n && n >= 2
    ensures Work(Init(n), m) == 0
  {
    if m > 0 { InitWork(n, m - 1); }
  }

  lemma RunMessages(n: nat, events: seq<Event>, s: State)
    requires n >= 2 && RunsTo(Init(n), events, s)
    ensures |events| <= Messages(n, n)
    ensures Quiet(s) ==> |events| == Messages(n, n) && s.calls == 1
  {
    InitInv(n);
    RunKeepsInv(Init(n), events, s);
    InitWork(n, n);
    WorkBound(s, n);
    if Quiet(s) { QuietFinished(s, 0); }
  }

  /** Every run handles at most n * (n - 1) + 1 messages; one that cannot go on, exactly these. */
  lemma RunLength(n: nat, events: seq<Event>, s: State)
    requires n >= 2 && RunsTo(Init(n), events, s)
    ensures |events| <= n * (n - 1) + 1
    ensures Quiet(s) ==> |events| == n * (n - 1) + 1 && s.calls == 1
  {
    MessagesProduct(n, n);
    RunMessages(n, events, s);
  }

  // ----- One node alone ------------------------------------------------------------------------------------

  predicate Alone(s: State)
  {
    && |s.locals| == 1 && s.calls == 0
    && var x := s.locals[0];
       || (x.left == 0 && x.contacts == multiset{0} && x.dones == multiset{})
       || (x.left == 0 && x.contacts == multiset{} && x.dones == multiset{0})
       || (x.left == -1 && x.contacts == multiset{} && x.dones == multiset{})
  }

  lemma AloneContact(s: State)
    requires |s.locals| == 1 && Enabled(s, Contact(0, 0))
    ensures var x, t := s.locals[0], Step(s, Contact(0, 0));
      && |t.locals| == 1 && t.calls == s.calls && t.locals[0].left == 0
      && t.locals[0].contacts == x.contacts - multiset{0} && t.locals[0].dones == x.dones + multiset{0}
  {
    ContactReceived(OnContact(1, 0, s.locals[0], 0), 1, 0, 0, 0);
  }

  lemma AloneDone(s: State)
    requires |s.locals| == 1 && Enabled(s, Done(0, 0)) && s.locals[0].left == 0
    ensures var x, t := s.locals[0], Step(s, Done(0, 0));
      && |t.locals| == 1 && t.calls == s.calls && t.locals[0].left == -1
      && t.locals[0].contacts == x.contacts && t.locals[0].dones == x.dones - multiset{0}
  {
    DoneReceived(OnDone(s.locals[0], 0), 0, 0, 0);
  }

  lemma AloneStep(s: State, e: Event)
    requires Alone(s) && Enabled(s, e)
    ensures Alone(Step(s, e))
  {
    if e.Contact? {
      AloneContact(s);
      assert s.locals[0].contacts - multiset{0} == multiset{};
    } else {
      AloneDone(s);
      assert s.locals[0].dones - multiset{0} == multiset{};
    }
  }

  lemma {:induction false} AloneRun(s: State, events: seq<Event>, t: State)
    requires Alone(s) && RunsTo(s, events, t)
    ensures Alone(t)
    decreases |events|
  {
    if events != [] {
      AloneStep(s, events[0]);
      AloneRun(Step(s, events[0]), events[1..], t);
    }
  }

  /** With a single node the callback is never called: its own Done takes the count below zero. */
  lemma SingleNodeNeverDone(s: State)
    requires Reachable(1, s)
    ensures s.calls == 0
  {
    var events :| RunsTo(Init(1), events, s);
    AloneRun(Init(1), events, s);
  }
}
