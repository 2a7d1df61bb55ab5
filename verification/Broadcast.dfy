/** All-pairs broadcast: every node contacts the later ones, and the root learns when all is done. */
module Broadcast {
  import opened Counts

  // ----- One node -----------------------------------------------------------------------------------

  datatype Send = SendContact(to: nat) | SendDone(to: nat)

  function ContactsAfter(i: nat, n: nat): (r: seq<Send>)
    requires i < n
    ensures |r| == n - 1 - i && forall m :: m in r <==> m.SendContact? && i < m.to < n
    decreases n - i
  {
    if i + 1 == n then [] else [SendContact(i + 1)] + ContactsAfter(i + 1, n)
  }

  lemma {:induction false} ContactsAt(i: nat, n: nat, k: nat)
    requires i < n && k < n - 1 - i
    ensures ContactsAfter(i, n)[k] == SendContact(i + 1 + k)
    decreases k
  {
    if k > 0 { ContactsAt(i + 1, n, k - 1); }
  }

  /** repliesLeft after a ContactNodes message; the root is node 0. */
  function LeftOnContact(n: nat, i: nat, left: int, from: nat): int
  {
    if from == 0 then n - i - 1 else left
  }

  function SendsOnContact(n: nat, i: nat, from: nat): seq<Send>
    requires i < n
  {
    if from != 0 then [SendDone(from)]
    else if i + 1 == n then [SendDone(0)]
    else ContactsAfter(i, n)
  }

  function SendsOnDone(i: nat, left: int): seq<Send>
  {
    if left - 1 == 0 && i != 0 then [SendDone(0)] else []
  }

  class Protocol {
    const n: nat
    const tnIndex: nat
    var onDone: bool
    var repliesLeft: int

    ghost predicate Valid()
      reads this
    {
      tnIndex < n
    }

    constructor (nodes: nat, index: nat)
      requires index < nodes
      ensures Valid() && n == nodes && tnIndex == index && repliesLeft == 0 && !onDone
    {
      n, tnIndex, repliesLeft, onDone := nodes, index, 0, false;
    }

    method RegisterOnDone()
      requires Valid()
      modifies this`onDone
      ensures Valid() && onDone
    {
      onDone := true;
    }

    method Start() returns (sent: seq<Send>)
      requires Valid()
      modifies this`repliesLeft
      ensures Valid() && 2 * repliesLeft == n * (n - 1) && sent == [SendContact(0)]
    {
      Even(n);
      repliesLeft := n * (n - 1) / 2;
      sent := [SendContact(0)];
    }

    method HandleContactNodes(from: nat) returns (sent: seq<Send>)
      requires Valid()
      modifies this`repliesLeft
      ensures Valid() && repliesLeft == LeftOnContact(n, tnIndex, old(repliesLeft), from)
      ensures sent == SendsOnContact(n, tnIndex, from)
    {
      sent := [];
      if from == 0 {
        repliesLeft := n - tnIndex - 1;
        if repliesLeft == 0 {
          return [SendDone(0)];
        }
        sent := ContactLater();
      } else {
        sent := [SendDone(from)];
      }
    }

    /** One contact for every later node. */
    method ContactLater() returns (sent: seq<Send>)
      requires Valid()
      ensures sent == ContactsAfter(tnIndex, n)
    {
      sent := [];
      ghost var all := ContactsAfter(tnIndex, n);
      for k := tnIndex + 1 to n
        invariant |all| == n - 1 - tnIndex && sent == all[..k - tnIndex - 1]
      {
        ContactsAt(tnIndex, n, k - tnIndex - 1);
        assert all[..k - tnIndex] == all[..k - tnIndex - 1] + [all[k - tnIndex - 1]];
        sent := sent + [SendContact(k)];
      }
    }

    /** `called` says whether the callback is called, which any node may have registered. */
    method HandleDone() returns (called: bool, sent: seq<Send>)
      requires Valid()
      modifies this`repliesLeft
      ensures Valid() && repliesLeft == old(repliesLeft) - 1
      ensures called <==> onDone && repliesLeft == 0
      ensures sent == SendsOnDone(tnIndex, old(repliesLeft))
    {
      called, sent := false, [];
      repliesLeft := repliesLeft - 1;
      if repliesLeft == 0 {
        called := onDone;
        if tnIndex != 0 {
          sent := [SendDone(0)];
        }
      }
    }
  }

  lemma {:induction false} Even(n: nat)
    ensures n * (n - 1) % 2 == 0
  {
    if n > 0 {
      Even(n - 1);
      assert n * (n - 1) == (n - 1) * (n - 2) + 2 * (n - 1);
    }
  }

  // ----- The system ---------------------------------------------------------------------------------

  /**
    * A node with the senders of the messages on their way to it. The last two fields are history:
    * whose contacts it has handled and whose Dones it has counted.
    */
  datatype Local = Local(left: int, contacts: multiset<nat>, dones: multiset<nat>, heard: set<nat>, acked: set<nat>)

  /** `calls` counts the callbacks of the root, the one node that has registered one. */
  datatype State = State(locals: seq<Local>, calls: nat)

  datatype Event = Contact(at: nat, from: nat) | Done(at: nat, from: nat)

  /** The state after Start on the root. */
  function Init(n: nat): State
    requires n >= 1
  {
    var blank := Local(0, multiset{}, multiset{}, {}, {});
    State(seq(n, i => blank)[0 := blank.(left := n * (n - 1) / 2, contacts := multiset{0})], 0)
  }

  predicate Enabled(s: State, e: Event)
  {
    e.at < |s.locals| && e.from < |s.locals| &&
    if e.Contact? then e.from in s.locals[e.at].contacts else e.from in s.locals[e.at].dones
  }

  /** c contacts and d Dones more from node `from` are on their way. */
  function Add(x: Local, from: nat, c: nat, d: nat): Local
  {
    x.(contacts := x.contacts[from := x.contacts[from] + c], dones := x.dones[from := x.dones[from] + d])
  }

  lemma AddOne(x: Local, from: nat, c: bool, d: bool)
    ensures Add(x, from, One(c), One(d)) ==
      x.(contacts := if c then x.contacts + multiset{from} else x.contacts, dones := if d then x.dones + multiset{from} else x.dones)
  {
    var y := Add(x, from, One(c), One(d));
    assert y.contacts == if c then x.contacts + multiset{from} else x.contacts;
    assert y.dones == if d then x.dones + multiset{from} else x.dones;
  }

  /** The messages that node `from` sends to node `at` are on their way. */
  function Receive(x: Local, from: nat, at: nat, sent: seq<Send>): Local
  {
    Add(x, from, Times(SendContact(at), sent), Times(SendDone(at), sent))
  }

  function Post(locals: seq<Local>, from: nat, sent: seq<Send>): (r: seq<Local>)
    ensures |r| == |locals|
    ensures forall k :: 0 <= k < |r| ==> r[k] == Receive(locals[k], from, k, sent)
  {
    seq(|locals|, k requires 0 <= k < |locals| => Receive(locals[k], from, k, sent))
  }

  function OnContact(n: nat, i: nat, x: Local, from: nat): Local
  {
    x.(left := LeftOnContact(n, i, x.left, from), contacts := x.contacts - multiset{from}, heard := x.heard + {from})
  }

  function OnDone(x: Local, from: nat): Local
  {
    x.(left := x.left - 1, dones := x.dones - multiset{from}, acked := x.acked + {from})
  }

  function Step(s: State, e: Event): State
    requires Enabled(s, e)
  {
    var n, i, x := |s.locals|, e.at, s.locals[e.at];
    if e.Contact? then
      s.(locals := Post(s.locals[i := OnContact(n, i, x, e.from)], i, SendsOnContact(n, i, e.from)))
    else
      State(Post(s.locals[i := OnDone(x, e.from)], i, SendsOnDone(i, x.left)),
            if i == 0 && x.left - 1 == 0 then s.calls + 1 else s.calls)
  }

  lemma {:induction false} ContactTimes(i: nat, n: nat, k: nat)
    requires i < n
    ensures Times(SendContact(k), ContactsAfter(i, n)) == One(i < k < n) && Times(SendDone(k), ContactsAfter(i, n)) == 0
    decreases n - i
  {
    if i + 1 < n { ContactTimes(i + 1, n, k); }
  }

  /** What a handler sends to node k, in whatever state x that is. */
  lemma ContactReceived(x: Local, n: nat, i: nat, from: nat, k: nat)
    requires i < n
    ensures Receive(x, i, k, SendsOnContact(n, i, from)) ==
      x.(contacts := if from == 0 && i < k < n then x.contacts + multiset{i} else x.contacts,
         dones := if k == from && (from != 0 || i + 1 == n) then x.dones + multiset{i} else x.dones)
  {
    ContactTimes(i, n, k);
    SingleDone(from, k);
    AddOne(x, i, from == 0 && i < k < n, k == from && (from != 0 || i + 1 == n));
  }

  lemma DoneReceived(x: Local, i: nat, left: int, k: nat)
    ensures Receive(x, i, k, SendsOnDone(i, left)) ==
      x.(dones := if k == 0 && left == 1 && i != 0 then x.dones + multiset{i} else x.dones)
  {
    SingleDone(0, k);
    AddOne(x, i, false, k == 0 && left == 1 && i != 0);
  }

  lemma SingleDone(to: nat, k: nat)
    ensures Times(SendDone(k), [SendDone(to)]) == One(k == to) && Times(SendContact(k), [SendDone(to)]) == 0
  {
    TimesOne(SendDone(k), SendDone(to));
    TimesOne(SendContact(k), SendDone(to));
  }

  predicate RunsTo(s: State, events: seq<Event>, t: State)
    decreases |events|
  {
    if events == [] then s == t else Enabled(s, events[0]) && RunsTo(Step(s, events[0]), events[1..], t)
  }
}
