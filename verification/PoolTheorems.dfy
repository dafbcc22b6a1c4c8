/**
  The results about the server's threads: they hold in every reachable state, whatever
  the interleaving and however many workers there are.
*/
module PoolTheorems {
  import opened Pool
  import opened PoolSafety
  import opened PoolNodes

  // ---------- conservation of sockets ----------

  /** Whether the object owns socket `k`, as a number. */
  function Own(c: Obj, k: int): nat {
    if c.sck == k then 1 else 0
  }

  function NodeOwners(nodes: seq<Node>, k: int): nat
    decreases |nodes|
  {
    if nodes == [] then 0 else Own(nodes[0].obj, k) + NodeOwners(nodes[1..], k)
  }

  /** Of the objects a worker has on its stack. */
  function StackOwners(at: WorkerAt, k: int): nat {
    match at
    case MovedOut(c) => Own(c, k)
    case Popped(c) => Own(c, k)
    case Uncounted(c) => Own(c, k)
    case Returning(c, t) => Own(c, k) + Own(t, k)
    case Passing(c) => Own(c, k)
    case Adding(c) => Own(c, k)
    case Added(c, _, _) => Own(c, k)
    case AddCounted(c, _, _) => Own(c, k)
    case AddReleased(c, _, _) => Own(c, k)
    case _ => 0
  }

  function WorkerOwners(workers: seq<WorkerAt>, k: int): nat
    decreases |workers|
  {
    if workers == [] then 0 else StackOwners(workers[0], k) + WorkerOwners(workers[1..], k)
  }

  function AcceptorOwners(at: AcceptorAt, k: int): nat {
    match at
    case Accepting => 0
    case Calling(c) => Own(c, k)
    case Pushing(c) => Own(c, k)
    case Pushed(c) => Own(c, k)
    case Counted(c) => Own(c, k)
    case Released(c) => Own(c, k)
  }

  /** How many `Client` objects own socket `k`: in the lists or on some thread's stack. */
  function Owners(s: State, k: int): nat {
    NodeOwners(s.pending.nodes, k) + NodeOwners(s.active.nodes, k)
    + AcceptorOwners(s.acceptor, k) + WorkerOwners(s.workers, k)
  }

  function Count(s: seq<int>, k: int): nat
    decreases |s|
  {
    if s == [] then 0 else Count(s[..|s| - 1], k) + if s[|s| - 1] == k then 1 else 0
  }

  /** Socket `k`, once accepted, has one owner until it is closed. */
  ghost predicate Conserved(s: State, k: int) {
    && Owners(s, k) + Count(s.closed, k) == Count(s.arrived, k)
    && (Count(s.arrived, k) <= 1 && (k !in s.arrived ==> Count(s.arrived, k) == 0))
  }

  lemma CountPush(s: seq<int>, x: int, k: int)
    ensures Count(s + [x], k) == Count(s, k) + if x == k then 1 else 0
  {
    assert (s + [x])[..|s|] == s;
  }

  lemma HeadOwners(nodes: seq<Node>, x: Node, rest: seq<Node>, k: int)
    requires nodes == [x] + rest
    ensures NodeOwners(nodes, k) == Own(x.obj, k) + NodeOwners(rest, k)
  {
    assert nodes[1..] == rest;
  }

  lemma {:induction false} NodePush(a: seq<Node>, x: Node, k: int)
    ensures NodeOwners(a + [x], k) == NodeOwners(a, k) + Own(x.obj, k)
    decreases |a|
  {
    if a != [] {
      assert (a + [x])[1..] == a[1..] + [x];
      NodePush(a[1..], x, k);
    }
  }

  lemma {:induction false} SetObjOwners(nodes: seq<Node>, x: Node, obj: Obj, k: int)
    requires x in nodes && forall i, j :: 0 <= i < j < |nodes| ==> nodes[i].id != nodes[j].id
    ensures NodeOwners(SetObj(nodes, x.id, obj), k) + Own(x.obj, k) == NodeOwners(nodes, k) + Own(obj, k)
    decreases |nodes|
  {
    var r := SetObj(nodes, x.id, obj);
    assert r[1..] == SetObj(nodes[1..], x.id, obj);
    if nodes[0] == x {
      assert SetObj(nodes[1..], x.id, obj) == nodes[1..];
    } else {
      assert x in nodes[1..];
      SetObjOwners(nodes[1..], x, obj, k);
      assert r[0] == nodes[0];
    }
  }

  lemma {:induction false} LiveOwners(nodes: seq<Node>, k: int)
    requires k != INVALID_SOCKET
    requires forall x :: x in nodes && x.obj.isClosed ==> x.obj.sck == INVALID_SOCKET
    ensures NodeOwners(Live(nodes), k) == NodeOwners(nodes, k)
    decreases |nodes|
  {
    if nodes != [] {
      assert nodes[0] in nodes;
      LiveOwners(nodes[1..], k);
      assert ([nodes[0]] + Live(nodes[1..]))[1..] == Live(nodes[1..]);
    }
  }

  lemma {:induction false} WorkerMoves(workers: seq<WorkerAt>, w: nat, at: WorkerAt, k: int)
    requires w < |workers|
    ensures WorkerOwners(workers[w := at], k) + StackOwners(workers[w], k)
         == WorkerOwners(workers, k) + StackOwners(at, k)
    decreases |workers|
  {
    if w == 0 {
      assert workers[w := at][1..] == workers[1..];
    } else {
      assert workers[w := at][1..] == workers[1..][w - 1 := at];
      WorkerMoves(workers[1..], w - 1, at, k);
    }
  }

  lemma DestroyCounts(closed: seq<int>, c: Obj, k: int)
    requires k != INVALID_SOCKET
    ensures Count(Destroyed(closed, c), k) == Count(closed, k) + Own(c, k)
  {
    CountPush(closed, c.sck, k);
  }

  lemma GetClientConserved(s: State, w: nat, choice: bool, k: int)
    requires Enabled(s, WorkerRuns(w, choice)) && InGetClient(s.workers[w]) && Conserved(s, k) && k != INVALID_SOCKET
    ensures Conserved(GetClientStep(s, w, choice), k)
  {
    hide WorkerOwners, NodeOwners, Count;
    var t, at := GetClientStep(s, w, choice), s.workers[w];
    WorkerMoves(s.workers, w, t.workers[w], k);
    if at.Popping? {
      HeadOwners(s.pending.nodes, s.pending.nodes[0], s.pending.nodes[1..], k);
      HeadOwners(t.pending.nodes, t.pending.nodes[0], s.pending.nodes[1..], k);
    } else if at.MovedOut? {
      HeadOwners(s.pending.nodes, s.pending.nodes[0], s.pending.nodes[1..], k);
      DestroyCounts(s.closed, s.pending.nodes[0].obj, k);
    } else if at.Returning? {
      DestroyCounts(s.closed, at.t, k);
    }
  }

  lemma AddClientConserved(s: State, w: nat, k: int)
    requires Enabled(s, WorkerRuns(w, true)) && InAddClient(s.workers[w]) && Conserved(s, k) && k != INVALID_SOCKET
    ensures Conserved(AddClientStep(s, w), k)
  {
    hide WorkerOwners, NodeOwners, Count;
    var t, at := AddClientStep(s, w), s.workers[w];
    WorkerMoves(s.workers, w, t.workers[w], k);
    if at.Adding? {
      NodePush(s.active.nodes, Node(s.next, at.c), k);
    } else if at.AddReleased? {
      DestroyCounts(s.closed, at.c, k);
    }
  }

  /** The object a serving worker finds, and what becomes of the owners when it changes it. */
  lemma ServingNode(s: State, w: nat, obj: Obj, k: int)
    requires w < |s.workers| && (s.workers[w].Serving? || s.workers[w].Closing?) && NodesOk(s)
    ensures var at := s.workers[w]; var c := if at.Serving? then Obj(at.sck, false) else NEVER_CLOSED;
            && ObjOf(s.active.nodes, at.node) == c
            && NodeOwners(SetObj(s.active.nodes, at.node, obj), k) + Own(c, k)
            == NodeOwners(s.active.nodes, k) + Own(obj, k)
  {
    hide Accounted, Settled, NodeOwners, ObjOf, SetObj;
    var at := s.workers[w];
    var x := Node(at.node, if at.Serving? then Obj(at.sck, false) else NEVER_CLOSED);
    assert x in s.active.nodes;
    ObjOfMember(s.active.nodes, x);
    SetObjOwners(s.active.nodes, x, obj, k);
  }

  lemma ServeConserved(s: State, w: nat, choice: bool, k: int)
    requires Enabled(s, WorkerRuns(w, choice)) && InServe(s.workers[w]) && NodesOk(s)
    requires Conserved(s, k) && k != INVALID_SOCKET
    ensures Conserved(ServeStep(s, w, choice), k)
  {
    hide WorkerOwners, NodeOwners, NodesOk, ObjOf, SetObj, Count;
    var t, at := ServeStep(s, w, choice), s.workers[w];
    WorkerMoves(s.workers, w, t.workers[w], k);
    if at.Serving? {
      ServingNode(s, w, NEVER_CLOSED, k);
      CountPush(s.closed, at.sck, k);
    } else if at.Closing? {
      ServingNode(s, w, MOVED_FROM, k);
    }
  }

  lemma SweptOwners(s: State, k: int)
    requires NodesOk(s) && k != INVALID_SOCKET
    ensures NodeOwners(Live(s.active.nodes), k) == NodeOwners(s.active.nodes, k)
    ensures DestroyedAll(s.closed, s.active.nodes) == s.closed
  {
    NoSocketInClosed(s);
    LiveOwners(s.active.nodes, k);
  }

  lemma CleanupConserved(s: State, w: nat, k: int)
    requires Enabled(s, WorkerRuns(w, true)) && InCleanup(s.workers[w]) && NodesOk(s)
    requires Conserved(s, k) && k != INVALID_SOCKET
    ensures Conserved(CleanupStep(s, w), k)
  {
    hide WorkerOwners, NodeOwners, NodesOk, Live, DestroyedAll;
    var t := CleanupStep(s, w);
    WorkerMoves(s.workers, w, t.workers[w], k);
    SweptOwners(s, k);
  }

  lemma OthersConserved(s: State, a: Action, k: int)
    requires Enabled(s, a) && Conserved(s, k) && !a.WorkerRuns? && k != INVALID_SOCKET
    ensures Conserved(Do(s, a), k)
  {
    match a
    case Accept(sck) =>
      CountPush(s.arrived, sck, k);
    case AcceptorRuns =>
      if s.acceptor.Pushing? {
        NodePush(s.pending.nodes, Node(s.next, s.acceptor.c), k);
      } else if s.acceptor.Released? {
        DestroyCounts(s.closed, s.acceptor.c, k);
      }
    case _ =>
  }

  // ---------- failed accepts ----------

  /** Whether the worker has a client in its care that came without a socket and is not served yet. */
  function Failed(at: WorkerAt): nat {
    match at
    case MovedOut(c) => Own(c, INVALID_SOCKET)
    case Popped(c) => Own(c, INVALID_SOCKET)
    case Uncounted(c) => Own(c, INVALID_SOCKET)
    case Returning(c, _) => Own(c, INVALID_SOCKET)
    case Passing(c) => Own(c, INVALID_SOCKET)
    case Adding(c) => Own(c, INVALID_SOCKET)
    case Added(_, _, sck) => if sck == INVALID_SOCKET then 1 else 0
    case AddCounted(_, _, sck) => if sck == INVALID_SOCKET then 1 else 0
    case AddReleased(_, _, sck) => if sck == INVALID_SOCKET then 1 else 0
    case Serving(_, sck) => if sck == INVALID_SOCKET then 1 else 0
    case _ => 0
  }

  function FailedClients(workers: seq<WorkerAt>): nat
    decreases |workers|
  {
    if workers == [] then 0 else Failed(workers[0]) + FailedClients(workers[1..])
  }

  lemma {:induction false} FailedMoves(workers: seq<WorkerAt>, w: nat, at: WorkerAt)
    requires w < |workers|
    ensures FailedClients(workers[w := at]) + Failed(workers[w]) == FailedClients(workers) + Failed(at)
    decreases |workers|
  {
    if w == 0 {
      assert workers[w := at][1..] == workers[1..];
    } else {
      assert workers[w := at][1..] == workers[1..][w - 1 := at];
      FailedMoves(workers[1..], w - 1, at);
    }
  }

  /** Each failed accept that was taken up is still being served or has leaked its node. */
  ghost predicate LeaksCounted(s: State) {
    |s.leaked| + FailedClients(s.workers) == Count(s.taken, INVALID_SOCKET)
  }

  lemma ServingFound(s: State, w: nat)
    requires w < |s.workers| && s.workers[w].Serving? && NodesOk(s)
    ensures ObjOf(s.active.nodes, s.workers[w].node).sck == s.workers[w].sck
    ensures s.workers[w].node !in s.leaked
  {
    ServingNode(s, w, NEVER_CLOSED, 0);
  }

  lemma GetClientLeaks(s: State, w: nat, choice: bool)
    requires Enabled(s, WorkerRuns(w, choice)) && InGetClient(s.workers[w]) && LeaksCounted(s)
    ensures LeaksCounted(GetClientStep(s, w, choice))
  {
    hide FailedClients;
    var t := GetClientStep(s, w, choice);
    FailedMoves(s.workers, w, t.workers[w]);
    if s.workers[w].Popping? {
      CountPush(s.taken, s.pending.nodes[0].obj.sck, INVALID_SOCKET);
    }
  }

  lemma AddClientLeaks(s: State, w: nat)
    requires Enabled(s, WorkerRuns(w, true)) && InAddClient(s.workers[w]) && LeaksCounted(s)
    ensures LeaksCounted(AddClientStep(s, w))
  {
    hide FailedClients;
    FailedMoves(s.workers, w, AddClientStep(s, w).workers[w]);
  }

  lemma ServeLeaks(s: State, w: nat, choice: bool)
    requires Enabled(s, WorkerRuns(w, choice)) && InServe(s.workers[w]) && NodesOk(s) && LeaksCounted(s)
    ensures LeaksCounted(ServeStep(s, w, choice))
  {
    hide NodesOk, FailedClients, ObjOf, SetObj;
    FailedMoves(s.workers, w, ServeStep(s, w, choice).workers[w]);
    if s.workers[w].Serving? {
      ServingFound(s, w);
    }
  }

  lemma CleanupLeaks(s: State, w: nat)
    requires Enabled(s, WorkerRuns(w, true)) && InCleanup(s.workers[w]) && LeaksCounted(s)
    ensures LeaksCounted(CleanupStep(s, w))
  {
    hide FailedClients;
    FailedMoves(s.workers, w, CleanupStep(s, w).workers[w]);
  }

  // ---------- all of it, in every reachable state ----------

  ghost predicate Safe(s: State) {
    Basic(s) && NodesOk(s) && LeaksCounted(s) && forall k :: k != INVALID_SOCKET ==> Conserved(s, k)
  }

  lemma OthersNodes(s: State, a: Action)
    requires Enabled(s, a) && NodesOk(s) && !a.WorkerRuns?
    ensures NodesOk(Do(s, a))
  {
    var t := Do(s, a);
    assert t.workers == s.workers && t.active.nodes == s.active.nodes && t.leaked == s.leaked && t.next >= s.next;
    if a.AcceptorRuns? && s.acceptor.Released? && s.acceptor.c.sck != INVALID_SOCKET {
      assert forall k :: k in s.closed ==> k in t.closed;
    }
  }

  lemma AcceptConserved(s: State, a: Action, k: int)
    requires Enabled(s, a) && Conserved(s, k) && k != INVALID_SOCKET && NodesOk(s)
    ensures Conserved(Do(s, a), k)
  {
    hide Conserved, NodesOk, Do;
    StepKinds(s, a);
    if a.WorkerRuns? {
      var at := s.workers[a.w];
      if InGetClient(at) { GetClientConserved(s, a.w, a.choice, k); }
      else if InAddClient(at) { AddClientConserved(s, a.w, k); }
      else if InServe(at) { ServeConserved(s, a.w, a.choice, k); }
      else { CleanupConserved(s, a.w, k); }
    } else {
      OthersConserved(s, a, k);
    }
  }

  lemma NodesStep(s: State, a: Action)
    requires Enabled(s, a) && Basic(s) && NodesOk(s) && LeaksCounted(s)
    ensures NodesOk(Do(s, a)) && LeaksCounted(Do(s, a))
  {
    hide Counters, Fifo, Travelling, NodesOk, Do, LeaksCounted;
    StepKinds(s, a);
    if a.WorkerRuns? {
      var at := s.workers[a.w];
      if InGetClient(at) {
        GetClientNodes(s, a.w, a.choice);
        GetClientLeaks(s, a.w, a.choice);
      } else if InAddClient(at) {
        AddClientNodes(s, a.w);
        AddClientLeaks(s, a.w);
      } else if InServe(at) {
        ServeNodes(s, a.w, a.choice);
        ServeLeaks(s, a.w, a.choice);
      } else {
        CleanupNodes(s, a.w);
        CleanupLeaks(s, a.w);
      }
    } else {
      OthersNodes(s, a);
      OthersLeaks(s, a);
    }
  }

  lemma OthersLeaks(s: State, a: Action)
    requires Enabled(s, a) && !a.WorkerRuns? && LeaksCounted(s)
    ensures LeaksCounted(Do(s, a))
  {
  }

  lemma StartSafe(n: nat)
    ensures Safe(Start(n))
  {
    hide Basic, NodesOk, Conserved, WorkerOwners, FailedClients;
    var s := Start(n);
    StartBasic(n);
    NobodyOwns(s.workers, 0);
    assert LeaksCounted(s);
    forall k
      ensures Conserved(s, k)
    {
      StartConserved(n, k);
    }
  }

  lemma StartBasic(n: nat)
    ensures Basic(Start(n)) && NodesOk(Start(n))
  {
    hide Travelling, Fifo, Distinct, Present, Settled, Accounted;
    StartQueues(n);
    StartNodes(n);
  }

  lemma StartQueues(n: nat)
    ensures Travelling(Start(n)) && Fifo(Start(n))
  {
    assert Queued(Start(n)) == [];
  }

  lemma StartNodes(n: nat)
    ensures var s := Start(n); Distinct(s) && Present(s) && Settled(s) && Accounted(s)
  {
  }

  lemma StartConserved(n: nat, k: int)
    ensures Conserved(Start(n), k)
  {
    NobodyOwns(Start(n).workers, k);
  }

  lemma {:induction false} NobodyOwns(workers: seq<WorkerAt>, k: int)
    requires forall w :: 0 <= w < |workers| ==> workers[w] == Waiting
    ensures WorkerOwners(workers, k) == 0 && FailedClients(workers) == 0
    decreases |workers|
  {
    if workers != [] {
      NobodyOwns(workers[1..], k);
    }
  }

  lemma {:induction false} AlwaysSafe(n: nat, actions: seq<Action>)
    requires Possible(n, actions)
    ensures Safe(Run(n, actions)) && |Run(n, actions).workers| == n
    decreases |actions|
  {
    hide Basic, NodesOk, LeaksCounted, Conserved;
    if actions == [] {
      StartSafe(n);
    } else {
      var s, a := Run(n, actions[..|actions| - 1]), actions[|actions| - 1];
      AlwaysSafe(n, actions[..|actions| - 1]);
      BasicStep(s, a);
      NodesStep(s, a);
      forall k | k != INVALID_SOCKET
        ensures Conserved(Do(s, a), k)
      {
        AcceptConserved(s, a, k);
      }
      SameWorkers(s, a);
    }
  }

  lemma SameWorkers(s: State, a: Action)
    requires Enabled(s, a)
    ensures |Do(s, a).workers| == |s.workers|
  {
  }

  /** Whenever a list's lock is free, its counter is its length; and nobody pops an empty list. */
  lemma CountersExact(n: nat, actions: seq<Action>)
    requires Possible(n, actions)
    ensures var s := Run(n, actions);
            && (s.pending.lock == Nobody ==> s.pending.size == |s.pending.nodes|)
            && (s.active.lock == Nobody ==> s.active.size == |s.active.nodes|)
            && forall w :: 0 <= w < |s.workers| && s.workers[w].Popping? ==> s.pending.nodes != []
  {
    AlwaysSafe(n, actions);
    hide NodesOk, LeaksCounted, Conserved;
  }

  /** Clients leave `pending` in the order in which they arrived. */
  lemma TakenInOrder(n: nat, actions: seq<Action>)
    requires Possible(n, actions)
    ensures var s := Run(n, actions); s.taken <= s.arrived
  {
    AlwaysSafe(n, actions);
    hide NodesOk, LeaksCounted, Conserved;
    var s := Run(n, actions);
    assert s.arrived == s.taken + (Sockets(Queued(s)) + InHand(s));
  }

  /**
    While a worker may still touch its client, the client's node is in `active` and holds
    the socket the client came with, so no cleanup by another worker takes it away. A node
    is missing only from a worker that has marked its client closed.
  */
  lemma NoUseAfterRemoval(n: nat, actions: seq<Action>, w: nat)
    requires Possible(n, actions) && w < n
    ensures var s := Run(n, actions); |s.workers| == n && (var at := s.workers[w];
            && (at.Serving? ==> Node(at.node, Obj(at.sck, false)) in s.active.nodes)
            && (at.Closing? ==> Node(at.node, NEVER_CLOSED) in s.active.nodes))
    ensures var s := Run(n, actions); |s.workers| == n && (var at := s.workers[w];
            HasNode(at) && (forall x :: x in s.active.nodes ==> x.id != at.node) ==>
              !Using(at) && at.sck != INVALID_SOCKET)
  {
    AlwaysSafe(n, actions);
    hide Basic, LeaksCounted, Conserved, Distinct;
    var s := Run(n, actions);
    var at := s.workers[w];
    if HasNode(at) && at.node in s.leaked {
      assert Node(at.node, NEVER_CLOSED) in s.active.nodes;
    }
  }

  ghost predicate Listed(s: State, node: nat) {
    exists x :: x in s.active.nodes && x.id == node
  }

  /** Only a sweep shortens the list. */
  lemma OnlySweepsRemove(s: State, a: Action, node: nat)
    requires Enabled(s, a) && Listed(s, node)
    requires !(a.WorkerRuns? && s.workers[a.w].Sweeping?)
    ensures Listed(Do(s, a), node)
  {
    hide ObjOf, Destroyed, DestroyedAll;
    var t := Do(s, a);
    var i :| 0 <= i < |s.active.nodes| && s.active.nodes[i].id == node;
    if a.WorkerRuns? && s.workers[a.w].Swept? {
      assert t.active.nodes == s.active.nodes;
    }
    assert i < |t.active.nodes| && t.active.nodes[i].id == node;
    assert t.active.nodes[i] in t.active.nodes;
  }

  lemma SweepRemoves(s: State, v: nat, w: nat)
    requires NodesOk(s) && v < |s.workers| && s.workers[v].Sweeping?
    requires w < |s.workers| && InServe(s.workers[w]) && Listed(s, s.workers[w].node)
    ensures !Listed(CleanupStep(s, v), s.workers[w].node)
       <==> s.workers[w].LeavingServe? && s.workers[w].sck != INVALID_SOCKET
  {
    var at := s.workers[w];
    var x :| x in s.active.nodes && x.id == at.node;
    LiveMembers(s.active.nodes);
    ServedNode(s, w, x);
    if !x.obj.isClosed {
      assert x in CleanupStep(s, v).active.nodes;
    } else {
      forall y | y in s.active.nodes && y.id == at.node
        ensures y == x
      {
        SameNode(s, x, y);
      }
    }
  }

  /** The node of a worker inside `serve` is marked closed exactly once its socket has been closed and marked so. */
  lemma ServedNode(s: State, w: nat, x: Node)
    requires NodesOk(s) && w < |s.workers| && InServe(s.workers[w])
    requires x in s.active.nodes && x.id == s.workers[w].node
    ensures x.obj.isClosed <==> s.workers[w].LeavingServe? && s.workers[w].sck != INVALID_SOCKET
  {
    var at := s.workers[w];
    if Using(at) {
      SameNode(s, x, Node(at.node, if at.Closing? then NEVER_CLOSED else Obj(at.sck, false)));
    } else if at.sck == INVALID_SOCKET {
      SameNode(s, x, Node(at.node, NEVER_CLOSED));
    } else {
      var v :| 0 <= v < |s.workers| && Owns(s.workers[v], x);
      assert v == w;
    }
  }

  /**
    Exactly when a node goes while its worker is inside `serve`: when another worker sweeps
    after this one has marked the client, which came with a socket, closed. No other step of
    any thread removes it.
  */
  lemma {:induction false} RemovedExactly(n: nat, actions: seq<Action>, a: Action, w: nat)
    requires Possible(n, actions) && Enabled(Run(n, actions), a)
    requires var s := Run(n, actions);
             w < |s.workers| && InServe(s.workers[w]) && Listed(s, s.workers[w].node)
    ensures var s := Run(n, actions); var at := s.workers[w];
            !Listed(Do(s, a), at.node)
            <==> a.WorkerRuns? && s.workers[a.w].Sweeping? && at.LeavingServe? && at.sck != INVALID_SOCKET
  {
    hide Basic, LeaksCounted, Conserved, NodesOk, Listed, Run, Possible;
    AlwaysSafe(n, actions);
    var s := Run(n, actions);
    if a.WorkerRuns? && s.workers[a.w].Sweeping? {
      SweepRemoves(s, a.w, w);
    } else {
      OnlySweepsRemove(s, a, s.workers[w].node);
    }
  }

  /**
    Every accepted socket has exactly one owner among all `Client` objects until it is
    closed, is closed at most once and has no owner then; and it has been closed when
    serving its client is over.
  */
  lemma {:induction false} OneOwnerUntilClosed(n: nat, actions: seq<Action>, k: int)
    requires Possible(n, actions) && k != INVALID_SOCKET
    ensures var s := Run(n, actions);
            && Count(s.closed, k) <= 1
            && (k in s.arrived ==> Owners(s, k) == 1 - Count(s.closed, k))
            && (k !in s.arrived ==> Owners(s, k) == 0)
    ensures var s := Run(n, actions);
            forall w :: 0 <= w < |s.workers| && HasNode(s.workers[w]) && !Using(s.workers[w]) ==>
              s.workers[w].sck == k ==> Count(s.closed, k) == 1
  {
    AlwaysSafe(n, actions);
    hide Basic, LeaksCounted, Distinct, Accounted, Present;
    var s := Run(n, actions);
    assert Conserved(s, k);
    CountMember(s.arrived, k);
    CountMember(s.closed, k);
  }

  lemma {:induction false} CountMember(s: seq<int>, k: int)
    ensures k in s <==> Count(s, k) > 0
    decreases |s|
  {
    if s != [] {
      assert s == s[..|s| - 1] + [s[|s| - 1]];
      CountMember(s[..|s| - 1], k);
    }
  }

  // ---------- whom a notification reaches ----------

  function IdsOf(nodes: seq<Node>): (ids: seq<nat>)
    ensures |ids| == |nodes|
  {
    seq(|nodes|, i requires 0 <= i < |nodes| => nodes[i].id)
  }

  /** In the middle of a notification, the nodes visited are the first ones of the list. */
  ghost predicate Visiting(s: State) {
    s.monitor.Notifying? ==> s.monitor.k <= |s.active.nodes| && s.visited == IdsOf(s.active.nodes)[..s.monitor.k]
  }

  /** While the lock is the monitor's, nobody changes which nodes are listed. */
  lemma VisitingStep(s: State, a: Action)
    requires Enabled(s, a) && Locked(s) && Visiting(s)
    ensures Visiting(Do(s, a))
  {
    hide ObjOf, Destroyed, DestroyedAll, Live;
    var t := Do(s, a);
    if a.MonitorRuns? {
      if s.monitor.Notifying? && s.monitor.k < |s.active.nodes| {
        var k, ids := s.monitor.k, IdsOf(s.active.nodes);
        assert ids[..k + 1] == ids[..k] + [ids[k]];
      }
    } else if s.monitor.Notifying? {
      assert s.active.lock == TheMonitor && t.monitor == s.monitor && t.visited == s.visited;
      assert a.WorkerRuns? ==> !InActive(s.workers[a.w]);
      assert IdsOf(t.active.nodes) == IdsOf(s.active.nodes);
    }
  }

  lemma {:induction false} RunVisiting(n: nat, actions: seq<Action>)
    requires Possible(n, actions)
    ensures Visiting(Run(n, actions))
    decreases |actions|
  {
    hide Visiting, Do, Enabled, NodesOk, LeaksCounted, Conserved, Sized, Queues;
    if actions == [] {
      NotVisiting(n);
    } else {
      var before, a := actions[..|actions| - 1], actions[|actions| - 1];
      RunVisiting(n, before);
      AlwaysSafe(n, before);
      VisitingStep(Run(n, before), a);
    }
  }

  lemma NotVisiting(n: nat)
    ensures Visiting(Start(n))
  {
  }

  /**
    When a notification is over it has visited every node that is listed, each once and in the
    order of the list, and the list has been the same all the time.
  */
  lemma NotifiesEach(n: nat, actions: seq<Action>)
    requires Possible(n, actions) && Enabled(Run(n, actions), MonitorRuns)
    requires var s := Run(n, actions); s.monitor.Notifying? && Do(s, MonitorRuns).monitor.Watching?
    ensures var s := Run(n, actions); s.visited == IdsOf(s.active.nodes)
  {
    hide Run, Possible;
    RunVisiting(n, actions);
    var s := Run(n, actions);
    assert IdsOf(s.active.nodes)[..|s.active.nodes|] == IdsOf(s.active.nodes);
  }

  // ---------- how long the list of active clients gets ----------

  function NodeIds(nodes: seq<Node>): set<nat> {
    set x | x in nodes :: x.id
  }

  lemma {:induction false} NodeIdsSize(nodes: seq<Node>)
    requires forall i, j :: 0 <= i < j < |nodes| ==> nodes[i].id != nodes[j].id
    ensures |NodeIds(nodes)| == |nodes|
    decreases |nodes|
  {
    if nodes == [] {
      assert NodeIds(nodes) == {};
    } else {
      NodeIdsSize(nodes[1..]);
      assert nodes == [nodes[0]] + nodes[1..];
      assert NodeIds(nodes) == {nodes[0].id} + NodeIds(nodes[1..]);
      assert forall x :: x in nodes[1..] ==> x.id != nodes[0].id;
    }
  }

  function WorkerIds(workers: seq<WorkerAt>): set<nat> {
    set at | at in workers && HasNode(at) :: at.node
  }

  lemma {:induction false} WorkerIdsSize(workers: seq<WorkerAt>)
    ensures |WorkerIds(workers)| <= |workers|
    decreases |workers|
  {
    if workers == [] {
      assert WorkerIds(workers) == {};
    } else {
      WorkerIdsSize(workers[1..]);
      assert workers == [workers[0]] + workers[1..];
      var rest := WorkerIds(workers[1..]);
      if HasNode(workers[0]) {
        assert WorkerIds(workers) == {workers[0].node} + rest;
      } else {
        assert WorkerIds(workers) == rest;
      }
    }
  }

  lemma SetSizes(a: set<nat>, b: set<nat>, c: set<nat>)
    requires a <= b + c
    ensures |a| <= |b| + |c|
  {
    SubsetSize(a, b + c);
    assert |b + c| == |b| + |c| - |b * c|;
  }

  lemma {:induction false} SubsetSize(a: set<nat>, b: set<nat>)
    requires a <= b
    ensures |a| <= |b|
    decreases |a|
  {
    if a != {} {
      var x :| x in a;
      SubsetSize(a - {x}, b - {x});
    }
  }

  lemma {:induction false} CountOfPrefix(a: seq<int>, b: seq<int>, k: int)
    ensures Count(a, k) <= Count(a + b, k)
    decreases |b|
  {
    if b == [] {
      assert a + b == a;
    } else {
      assert (a + b)[..|a + b| - 1] == a + b[..|b| - 1];
      CountOfPrefix(a, b[..|b| - 1], k);
    }
  }

  /**
    `active` never holds more clients than there are workers, plus one for every accept
    that has failed; so never more than `THREAD_NO` if the pool is not larger and no accept fails.
  */
  lemma ActiveBounded(n: nat, actions: seq<Action>)
    requires Possible(n, actions)
    ensures var s := Run(n, actions);
            && |s.active.nodes| <= n + Count(s.arrived, INVALID_SOCKET)
            && (n <= THREAD_NO && INVALID_SOCKET !in s.arrived ==> |s.active.nodes| <= THREAD_NO)
  {
    hide Basic, Present, Settled, Accounted, Conserved, Run, Possible, FailedClients, Count, NodeIds, WorkerIds;
    AlwaysSafe(n, actions);
    var s := Run(n, actions);
    OwnedOrLeaked(s);
    NodeIdsSize(s.active.nodes);
    WorkerIdsSize(s.workers);
    SetSizes(NodeIds(s.active.nodes), WorkerIds(s.workers), s.leaked);
    assert Count(s.taken, INVALID_SOCKET) <= Count(s.arrived, INVALID_SOCKET) by {
      TakenInOrder(n, actions);
      CountOfPrefix(s.taken, s.arrived[|s.taken|..], INVALID_SOCKET);
      assert s.arrived == s.taken + s.arrived[|s.taken|..];
    }
    CountMember(s.arrived, INVALID_SOCKET);
  }

  lemma OwnedOrLeaked(s: State)
    requires NodesOk(s)
    ensures NodeIds(s.active.nodes) <= WorkerIds(s.workers) + s.leaked
  {
    hide Distinct, Present, Settled;
    forall x | x in s.active.nodes && x.id !in s.leaked
      ensures x.id in WorkerIds(s.workers)
    {
      var w :| 0 <= w < |s.workers| && Owns(s.workers[w], x);
      assert s.workers[w] in s.workers;
    }
  }
}
