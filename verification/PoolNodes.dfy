/**
  Who uses which node of the list of active clients, in every interleaving.
*/
module PoolNodes {
  import opened Pool
  import opened PoolSafety

  /** A client whose accept had failed: closing it never marks it closed. */
  const NEVER_CLOSED := Obj(INVALID_SOCKET, false)

  predicate HasNode(at: WorkerAt) {
    at.Added? || at.AddCounted? || at.AddReleased? || at.Serving? || at.Closing? || at.LeavingServe?
    || at.Served? || at.Sweeping? || at.Swept? || at.Recounted?
  }

  /** The worker has not come to the end of its use of the node. */
  predicate Using(at: WorkerAt) {
    at.Added? || at.AddCounted? || at.AddReleased? || at.Serving? || at.Closing?
  }

  /** What the node of a worker holds while it is in the list. */
  predicate Owns(at: WorkerAt, x: Node) {
    && HasNode(at) && at.node == x.id
    && (if at.Closing? then x.obj == NEVER_CLOSED
        else if Using(at) then x.obj == Obj(at.sck, false)
        else (at.LeavingServe? || at.Served? || at.Sweeping?) && x.obj == MOVED_FROM)
  }

  /** Node ids are not used twice, neither by the list nor by two workers. */
  ghost predicate Distinct(s: State) {
    && (forall i, j :: 0 <= i < j < |s.active.nodes| ==> s.active.nodes[i].id != s.active.nodes[j].id)
    && (forall x :: x in s.active.nodes ==> x.id < s.next)
    && (forall id :: id in s.leaked ==> id < s.next)
    && (forall w :: 0 <= w < |s.workers| && HasNode(s.workers[w]) ==> s.workers[w].node < s.next)
    && (forall v, w :: 0 <= v < w < |s.workers| && HasNode(s.workers[v]) && HasNode(s.workers[w]) ==>
          s.workers[v].node != s.workers[w].node)
  }

  /** A worker that uses its node finds it in the list, holding what it left there. */
  ghost predicate Present(s: State) {
    forall w :: 0 <= w < |s.workers| && Using(s.workers[w]) ==>
      && s.workers[w].node !in s.leaked
      && Node(s.workers[w].node, if s.workers[w].Closing? then NEVER_CLOSED else Obj(s.workers[w].sck, false))
         in s.active.nodes
  }

  /** A client that is being closed or done has had its socket closed, or never had one and stays in the list. */
  ghost predicate Settled(s: State) {
    forall w :: 0 <= w < |s.workers| && HasNode(s.workers[w]) && (!Using(s.workers[w]) || s.workers[w].Closing?) ==>
      if s.workers[w].sck == INVALID_SOCKET then s.workers[w].node in s.leaked
      else s.workers[w].node !in s.leaked && s.workers[w].sck in s.closed
  }

  /** Every node belongs to a worker, or is one that nobody will ever remove. */
  ghost predicate Accounted(s: State) {
    && (forall id :: id in s.leaked ==> Node(id, NEVER_CLOSED) in s.active.nodes)
    && (forall x :: x in s.active.nodes && x.id !in s.leaked ==>
          exists w :: 0 <= w < |s.workers| && Owns(s.workers[w], x))
  }

  ghost predicate NodesOk(s: State) {
    Distinct(s) && Present(s) && Settled(s) && Accounted(s)
  }

  lemma {:induction false} ObjOfMember(nodes: seq<Node>, x: Node)
    requires x in nodes
    requires forall i, j :: 0 <= i < j < |nodes| ==> nodes[i].id != nodes[j].id
    ensures ObjOf(nodes, x.id) == x.obj
    decreases |nodes|
  {
    if nodes[0] != x {
      assert x in nodes[1..];
      ObjOfMember(nodes[1..], x);
    }
  }

  lemma SetObjMembers(nodes: seq<Node>, id: nat, obj: Obj)
    ensures forall x :: x in SetObj(nodes, id, obj) ==>
              if x.id == id then x.obj == obj else x in nodes
    ensures forall x :: x in nodes && x.id != id ==> x in SetObj(nodes, id, obj)
    ensures (exists x :: x in nodes && x.id == id) ==> Node(id, obj) in SetObj(nodes, id, obj)
  {
    var r := SetObj(nodes, id, obj);
    forall x | x in nodes
      ensures x.id != id ==> x in r
      ensures x.id == id ==> Node(id, obj) in r
    {
      var i :| 0 <= i < |nodes| && nodes[i] == x;
      assert r[i] == if nodes[i].id == id then Node(id, obj) else nodes[i];
    }
  }

  lemma {:induction false} LiveMembers(nodes: seq<Node>)
    ensures forall x :: x in Live(nodes) <==> x in nodes && !x.obj.isClosed
    ensures (forall i, j :: 0 <= i < j < |nodes| ==> nodes[i].id != nodes[j].id) ==>
            forall i, j :: 0 <= i < j < |Live(nodes)| ==> Live(nodes)[i].id != Live(nodes)[j].id
    decreases |nodes|
  {
    if nodes != [] {
      assert nodes == [nodes[0]] + nodes[1..];
      LiveMembers(nodes[1..]);
      assert forall i :: 0 <= i < |Live(nodes[1..])| ==> Live(nodes[1..])[i] in nodes[1..];
    }
  }

  /** What a sweep keeps stays in order. */
  lemma {:induction false} LiveInOrder(nodes: seq<Node>, i: nat, j: nat) returns (k: nat, l: nat)
    requires i < j < |nodes| && !nodes[i].obj.isClosed && !nodes[j].obj.isClosed
    ensures k < l < |Live(nodes)| && Live(nodes)[k] == nodes[i] && Live(nodes)[l] == nodes[j]
    decreases |nodes|
  {
    var d := if nodes[0].obj.isClosed then 0 else 1;
    if i == 0 {
      l := LiveAt(nodes[1..], j - 1);
      k, l := 0, l + 1;
    } else {
      k, l := LiveInOrder(nodes[1..], i - 1, j - 1);
      k, l := k + d, l + d;
    }
  }

  lemma {:induction false} LiveAt(nodes: seq<Node>, j: nat) returns (l: nat)
    requires j < |nodes| && !nodes[j].obj.isClosed
    ensures l < |Live(nodes)| && Live(nodes)[l] == nodes[j]
    decreases |nodes|
  {
    if j == 0 {
      l := 0;
    } else {
      l := LiveAt(nodes[1..], j - 1);
      l := l + if nodes[0].obj.isClosed then 0 else 1;
    }
  }

  /** The worker moves on without its node being touched, or gives up a node it no longer owns. */
  ghost predicate Quiet(old_: WorkerAt, new_: WorkerAt) {
    if HasNode(new_) then
      && HasNode(old_) && new_.node == old_.node && new_.sck == old_.sck
      && Using(old_) == Using(new_) && old_.Closing? == new_.Closing?
      && (forall x :: Owns(old_, x) ==> Owns(new_, x))
    else
      HasNode(old_) ==> old_.Recounted?
  }

  ghost predicate QuietStep(s: State, t: State, w: nat, at: WorkerAt) {
    && w < |s.workers| && t.workers == s.workers[w := at] && Quiet(s.workers[w], at)
    && t.active.nodes == s.active.nodes && t.next == s.next && t.leaked == s.leaked
    && forall k :: k in s.closed ==> k in t.closed
  }

  lemma QuietDistinct(s: State, t: State, w: nat, at: WorkerAt)
    requires Distinct(s) && QuietStep(s, t, w, at)
    ensures Distinct(t)
  {
  }

  lemma QuietAccounted(s: State, t: State, w: nat, at: WorkerAt)
    requires Accounted(s) && QuietStep(s, t, w, at)
    ensures Accounted(t)
  {
    forall x | x in t.active.nodes && x.id !in t.leaked
      ensures exists v :: 0 <= v < |t.workers| && Owns(t.workers[v], x)
    {
      var v :| 0 <= v < |s.workers| && Owns(s.workers[v], x);
      assert Owns(t.workers[v], x);
    }
  }

  lemma QuietPresent(s: State, t: State, w: nat, at: WorkerAt)
    requires Present(s) && Settled(s) && QuietStep(s, t, w, at)
    ensures Present(t) && Settled(t)
  {
  }

  lemma QuietOk(s: State, t: State, w: nat, at: WorkerAt)
    requires NodesOk(s) && QuietStep(s, t, w, at)
    ensures NodesOk(t)
  {
    hide Distinct, Accounted, Present, Settled, QuietStep;
    QuietDistinct(s, t, w, at);
    QuietAccounted(s, t, w, at);
    QuietPresent(s, t, w, at);
  }

  lemma GetClientNodes(s: State, w: nat, choice: bool)
    requires Enabled(s, WorkerRuns(w, choice)) && InGetClient(s.workers[w]) && NodesOk(s)
    ensures NodesOk(GetClientStep(s, w, choice))
  {
    hide NodesOk;
    var t := GetClientStep(s, w, choice);
    QuietOk(s, t, w, t.workers[w]);
  }

  /** Adding a node: a new one, owned by the worker that adds it. */
  lemma AddClientNodes(s: State, w: nat)
    requires Enabled(s, WorkerRuns(w, true)) && InAddClient(s.workers[w]) && NodesOk(s) && Travelling(s)
    ensures NodesOk(AddClientStep(s, w))
  {
    hide NodesOk, Travelling;
    var t := AddClientStep(s, w);
    if s.workers[w].Adding? {
      PushNodes(s, w);
    } else {
      QuietOk(s, t, w, t.workers[w]);
    }
  }

  ghost predicate PushStep(s: State, t: State, w: nat, x: Node) {
    && w < |s.workers| && s.workers[w].Adding? && x == Node(s.next, Obj(x.obj.sck, false))
    && t.workers == s.workers[w := Added(MOVED_FROM, s.next, x.obj.sck)] && t.next == s.next + 1
    && t.active.nodes == s.active.nodes + [x] && t.leaked == s.leaked && t.closed == s.closed
  }

  lemma PushDistinct(s: State, t: State, w: nat, x: Node)
    requires Distinct(s) && PushStep(s, t, w, x)
    ensures Distinct(t)
  {
    assert forall i :: 0 <= i < |s.active.nodes| ==> s.active.nodes[i] in s.active.nodes;
  }

  lemma PushPresent(s: State, t: State, w: nat, x: Node)
    requires Distinct(s) && Present(s) && Settled(s) && PushStep(s, t, w, x)
    ensures Present(t) && Settled(t)
  {
    assert x in t.active.nodes;
    assert forall y :: y in s.active.nodes ==> y in t.active.nodes;
  }

  lemma PushAccounted(s: State, t: State, w: nat, x: Node)
    requires Accounted(s) && PushStep(s, t, w, x)
    ensures Accounted(t)
  {
    assert Owns(t.workers[w], x);
    forall y | y in t.active.nodes && y.id !in t.leaked
      ensures exists v :: 0 <= v < |t.workers| && Owns(t.workers[v], y)
    {
      if y in s.active.nodes {
        var v :| 0 <= v < |s.workers| && Owns(s.workers[v], y);
        assert Owns(t.workers[v], y);
      }
    }
  }

  lemma PushNodes(s: State, w: nat)
    requires w < |s.workers| && s.workers[w].Adding? && NodesOk(s) && Travelling(s)
    ensures NodesOk(AddClientStep(s, w))
  {
    hide Distinct, Present, Settled, Accounted;
    var t, x := AddClientStep(s, w), Node(s.next, s.workers[w].c);
    assert WorkerTravelling(s.workers[w]);
    PushDistinct(s, t, w, x);
    PushPresent(s, t, w, x);
    PushAccounted(s, t, w, x);
  }

  lemma ServeNodes(s: State, w: nat, choice: bool)
    requires Enabled(s, WorkerRuns(w, choice)) && InServe(s.workers[w]) && NodesOk(s)
    ensures NodesOk(ServeStep(s, w, choice))
  {
    var t := ServeStep(s, w, choice);
    match s.workers[w]
    case Serving(node, sck) =>
      if choice {
        ObjOfMember(s.active.nodes, Node(node, Obj(sck, false)));
        if sck != INVALID_SOCKET { CloseNodes(s, w); } else { LeakNodes(s, w); }
      }
    case Closing(node, sck) => MarkNodes(s, w);
    case LeavingServe(node, sck) => QuietOk(s, t, w, Served(node, sck));
  }

  /** The owner of a node changes the object in it and moves on. */
  ghost predicate ChangeStep(s: State, t: State, w: nat, at: WorkerAt, obj: Obj) {
    && w < |s.workers| && HasNode(s.workers[w]) && HasNode(at) && at.node == s.workers[w].node
    && at.node !in s.leaked && Node(at.node, ObjOf(s.active.nodes, at.node)) in s.active.nodes
    && t.workers == s.workers[w := at] && t.next == s.next && t.leaked == s.leaked
    && t.active.nodes == SetObj(s.active.nodes, at.node, obj) && Owns(at, Node(at.node, obj))
  }

  lemma ChangeDistinct(s: State, t: State, w: nat, at: WorkerAt, obj: Obj)
    requires Distinct(s) && ChangeStep(s, t, w, at, obj)
    ensures Distinct(t)
  {
    var a, b := s.active.nodes, t.active.nodes;
    assert forall i :: 0 <= i < |a| ==> b[i].id == a[i].id;
    forall x | x in b
      ensures x.id < s.next
    {
      var i :| 0 <= i < |b| && b[i] == x;
      assert a[i] in a;
    }
  }

  lemma ChangeAccounted(s: State, t: State, w: nat, at: WorkerAt, obj: Obj)
    requires Accounted(s) && ChangeStep(s, t, w, at, obj)
    ensures Accounted(t)
  {
    SetObjMembers(s.active.nodes, at.node, obj);
    forall y | y in t.active.nodes && y.id !in t.leaked
      ensures exists v :: 0 <= v < |t.workers| && Owns(t.workers[v], y)
    {
      if y.id == at.node {
        assert Owns(t.workers[w], y);
      } else {
        var v :| 0 <= v < |s.workers| && Owns(s.workers[v], y);
        assert Owns(t.workers[v], y);
      }
    }
  }

  lemma ChangePresent(s: State, t: State, w: nat, at: WorkerAt, obj: Obj)
    requires Distinct(s) && Present(s) && ChangeStep(s, t, w, at, obj)
    requires Using(at) ==> at.Closing? && obj == NEVER_CLOSED
    ensures Present(t)
  {
    SetObjMembers(s.active.nodes, at.node, obj);
  }

  lemma CloseNodes(s: State, w: nat)
    requires w < |s.workers| && s.workers[w].Serving? && s.workers[w].sck != INVALID_SOCKET && NodesOk(s)
    requires ObjOf(s.active.nodes, s.workers[w].node) == Obj(s.workers[w].sck, false)
    ensures NodesOk(ServeStep(s, w, true))
  {
    var t := ServeStep(s, w, true);
    var at := Closing(s.workers[w].node, s.workers[w].sck);
    assert Settled(t) by { hide Distinct, Accounted; }
    assert ChangeStep(s, t, w, at, NEVER_CLOSED) by { hide Distinct, Accounted, Settled; }
    ChangeAll(s, t, w, at, NEVER_CLOSED);
  }

  lemma ChangeAll(s: State, t: State, w: nat, at: WorkerAt, obj: Obj)
    requires NodesOk(s) && ChangeStep(s, t, w, at, obj)
    requires Using(at) ==> at.Closing? && obj == NEVER_CLOSED
    ensures Distinct(t) && Present(t) && Accounted(t)
  {
    hide Distinct, Present, Accounted, Settled, ChangeStep;
    ChangeDistinct(s, t, w, at, obj);
    ChangeAccounted(s, t, w, at, obj);
    ChangePresent(s, t, w, at, obj);
  }

  lemma MarkNodes(s: State, w: nat)
    requires w < |s.workers| && s.workers[w].Closing? && NodesOk(s)
    ensures NodesOk(ServeStep(s, w, true))
  {
    hide Accounted;
    var t := ServeStep(s, w, true);
    var at := LeavingServe(s.workers[w].node, s.workers[w].sck);
    ObjOfMember(s.active.nodes, Node(at.node, NEVER_CLOSED));
    assert Settled(t) by { hide Distinct, Accounted; }
    assert ChangeStep(s, t, w, at, MOVED_FROM) by { hide Distinct, Accounted, Settled; }
    ChangeAll(s, t, w, at, MOVED_FROM);
  }

  /** A service that ends without a socket to close leaves its node behind. */
  ghost predicate LeakStep(s: State, t: State, w: nat, node: nat) {
    && w < |s.workers| && s.workers[w] == Serving(node, INVALID_SOCKET)
    && t.workers == s.workers[w := LeavingServe(node, INVALID_SOCKET)] && t.leaked == s.leaked + {node}
    && t.active.nodes == s.active.nodes && t.next == s.next && t.closed == s.closed
  }

  lemma LeakDistinct(s: State, t: State, w: nat, node: nat)
    requires Distinct(s) && LeakStep(s, t, w, node)
    ensures Distinct(t)
  {
  }

  lemma LeakPresent(s: State, t: State, w: nat, node: nat)
    requires Distinct(s) && Present(s) && Settled(s) && LeakStep(s, t, w, node)
    ensures Present(t) && Settled(t)
  {
  }

  lemma LeakAccounted(s: State, t: State, w: nat, node: nat)
    requires Present(s) && Accounted(s) && LeakStep(s, t, w, node)
    ensures Accounted(t)
  {
    assert Node(node, NEVER_CLOSED) in s.active.nodes;
    forall y | y in t.active.nodes && y.id !in t.leaked
      ensures exists v :: 0 <= v < |t.workers| && Owns(t.workers[v], y)
    {
      var v :| 0 <= v < |s.workers| && Owns(s.workers[v], y);
      assert v != w;
      assert Owns(t.workers[v], y);
    }
  }

  lemma LeakNodes(s: State, w: nat)
    requires w < |s.workers| && s.workers[w].Serving? && s.workers[w].sck == INVALID_SOCKET && NodesOk(s)
    requires ObjOf(s.active.nodes, s.workers[w].node) == Obj(INVALID_SOCKET, false)
    ensures NodesOk(ServeStep(s, w, true))
  {
    hide Distinct, Present, Settled, Accounted;
    var t, node := ServeStep(s, w, true), s.workers[w].node;
    LeakDistinct(s, t, w, node);
    LeakPresent(s, t, w, node);
    LeakAccounted(s, t, w, node);
  }

  /** The sweep takes out what is closed; whoever still uses its node keeps it. */
  lemma SweepNodes(s: State, w: nat)
    requires w < |s.workers| && s.workers[w].Sweeping? && NodesOk(s)
    ensures NodesOk(CleanupStep(s, w))
  {
    var t := CleanupStep(s, w);
    LiveMembers(s.active.nodes);
    NoSocketInClosed(s);
    assert Distinct(t) by { hide Accounted, Settled, Present; }
    assert Present(t) && Settled(t) by { hide Accounted, Distinct; }
    SweepAccounted(s, w);
  }

  lemma SweepAccounted(s: State, w: nat)
    requires w < |s.workers| && s.workers[w].Sweeping? && Accounted(s)
    ensures Accounted(CleanupStep(s, w))
  {
    var t := CleanupStep(s, w);
    LiveMembers(s.active.nodes);
    forall y | y in t.active.nodes && y.id !in t.leaked
      ensures exists v :: 0 <= v < |t.workers| && Owns(t.workers[v], y)
    {
      StillOwned(s, w, y);
    }
  }

  lemma StillOwned(s: State, w: nat, y: Node)
    requires w < |s.workers| && s.workers[w].Sweeping? && Accounted(s)
    requires y in s.active.nodes && y.id !in s.leaked && !y.obj.isClosed
    ensures var t := CleanupStep(s, w); exists v :: 0 <= v < |t.workers| && Owns(t.workers[v], y)
  {
    var v :| 0 <= v < |s.workers| && Owns(s.workers[v], y);
    assert CleanupStep(s, w).workers[v] == s.workers[v];
  }

  /** Nothing that is marked closed still has a socket, so sweeping closes none. */
  lemma NoSocketInClosed(s: State)
    requires Accounted(s) && Distinct(s)
    ensures forall x :: x in s.active.nodes && x.obj.isClosed ==> x.obj.sck == INVALID_SOCKET
    ensures DestroyedAll(s.closed, s.active.nodes) == s.closed
  {
    forall x | x in s.active.nodes && x.obj.isClosed
      ensures x.obj.sck == INVALID_SOCKET
    {
      if x.id in s.leaked {
        SameNode(s, x, Node(x.id, NEVER_CLOSED));
      } else {
        var w :| 0 <= w < |s.workers| && Owns(s.workers[w], x);
      }
    }
    NothingDestroyed(s.closed, s.active.nodes);
  }

  lemma SameNode(s: State, x: Node, y: Node)
    requires Distinct(s) && x in s.active.nodes && y in s.active.nodes && x.id == y.id
    ensures x == y
  {
    var i :| 0 <= i < |s.active.nodes| && s.active.nodes[i] == x;
    var j :| 0 <= j < |s.active.nodes| && s.active.nodes[j] == y;
    assert !(i < j) && !(j < i);
  }

  lemma {:induction false} NothingDestroyed(closed: seq<int>, nodes: seq<Node>)
    requires forall x :: x in nodes && x.obj.isClosed ==> x.obj.sck == INVALID_SOCKET
    ensures DestroyedAll(closed, nodes) == closed
    decreases |nodes|
  {
    if nodes != [] {
      assert nodes[0] in nodes;
      NothingDestroyed(closed, nodes[1..]);
    }
  }

  lemma CleanupNodes(s: State, w: nat)
    requires Enabled(s, WorkerRuns(w, true)) && InCleanup(s.workers[w]) && NodesOk(s)
    ensures NodesOk(CleanupStep(s, w))
  {
    var t := CleanupStep(s, w);
    if s.workers[w].Sweeping? {
      SweepNodes(s, w);
    } else {
      QuietOk(s, t, w, t.workers[w]);
    }
  }
}
