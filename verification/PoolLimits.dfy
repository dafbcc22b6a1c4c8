/**
  Where the guarantees about the server's threads end: runs that show that a node can be
  removed before `serve` has returned, and that failed accepts fill the list of active
  clients without bound.
*/
module PoolLimits {
  import opened Pool
  import opened PoolNodes
  import opened PoolTheorems

  ghost predicate Reachable(n: nat, s: State) {
    exists actions :: Possible(n, actions) && Run(n, actions) == s
  }

  lemma StartReachable(n: nat)
    ensures Reachable(n, Start(n))
  {
    assert Possible(n, []) && Run(n, []) == Start(n);
  }

  lemma Go(n: nat, s: State, a: Action) returns (t: State)
    requires Reachable(n, s) && Enabled(s, a)
    ensures Reachable(n, t) && t == Do(s, a)
  {
    var actions :| Possible(n, actions) && Run(n, actions) == s;
    assert (actions + [a])[..|actions|] == actions;
    assert Possible(n, actions + [a]) && Run(n, actions + [a]) == Do(s, a);
    t := Do(s, a);
  }

  /** Worker `w` waits, nobody holds a lock and nothing is queued. */
  predicate Ready(s: State, w: nat) {
    && w < |s.workers| && s.workers[w] == Waiting
    && s.acceptor == Accepting && s.monitor == Watching
    && s.pending == ClientList([], 0, Nobody) && s.active.lock == Nobody
  }

  lemma Arrive(n: nat, s: State, w: nat, sck: int) returns (t: State)
    requires Reachable(n, s) && Ready(s, w) && Enabled(s, Accept(sck))
    ensures Reachable(n, t)
    ensures t == s.(pending := ClientList([Node(s.next, Obj(sck, false))], 1, Nobody),
                    next := s.next + 1, arrived := s.arrived + [sck])
  {
    hide Possible, Run, Reachable;
    t := Go(n, s, Accept(sck));
    t := Go(n, t, AcceptorRuns);
    t := Go(n, t, AcceptorRuns);
    t := Go(n, t, AcceptorRuns);
    t := Go(n, t, AcceptorRuns);
    t := Go(n, t, AcceptorRuns);
  }

  lemma Take(n: nat, s: State, w: nat, x: Node) returns (t: State)
    requires Reachable(n, s) && w < |s.workers| && s.workers[w] == Waiting
    requires s.pending == ClientList([x], 1, Nobody)
    ensures Reachable(n, t)
    ensures t == s.(pending := ClientList([], 0, Nobody), taken := s.taken + [x.obj.sck],
                    workers := s.workers[w := Passing(x.obj)])
  {
    hide Possible, Run, Reachable;
    var run := WorkerRuns(w, true);
    t := Go(n, s, run);
    t := Go(n, t, run);
    t := Go(n, t, run);
    t := Go(n, t, run);
    t := Go(n, t, run);
    assert t.workers == s.workers[w := Passing(x.obj)];
  }

  lemma Add(n: nat, s: State, w: nat, c: Obj) returns (t: State)
    requires Reachable(n, s) && w < |s.workers| && s.workers[w] == Passing(c) && s.active.lock == Nobody
    ensures Reachable(n, t)
    ensures t == s.(active := ClientList(s.active.nodes + [Node(s.next, c)], s.active.size + 1, Nobody),
                    next := s.next + 1, workers := s.workers[w := Serving(s.next, c.sck)])
  {
    hide Possible, Run, Reachable;
    var run := WorkerRuns(w, true);
    t := Go(n, s, run);
    t := Go(n, t, run);
    t := Go(n, t, run);
    t := Go(n, t, run);
    t := Go(n, t, run);
    assert t.workers == s.workers[w := Serving(s.next, c.sck)];
  }

  /** From the arrival of a connection to its being served. */
  lemma Admit(n: nat, s: State, w: nat, sck: int) returns (t: State)
    requires Reachable(n, s) && Ready(s, w) && Enabled(s, Accept(sck))
    ensures Reachable(n, t)
    ensures var x := Node(s.next + 1, Obj(sck, false));
            t == s.(active := ClientList(s.active.nodes + [x], s.active.size + 1, Nobody),
                    next := s.next + 2, workers := s.workers[w := Serving(s.next + 1, sck)],
                    arrived := s.arrived + [sck], taken := s.taken + [sck])
  {
    hide Possible, Run, Reachable;
    t := Arrive(n, s, w, sck);
    t := Take(n, t, w, Node(s.next, Obj(sck, false)));
    t := Add(n, t, w, Obj(sck, false));
    assert t.workers == s.workers[w := Serving(s.next + 1, sck)];
  }

  lemma NewIdAbsent(nodes: seq<Node>, x: Node)
    requires forall y :: y in nodes ==> y.id != x.id
    ensures ObjOf(nodes + [x], x.id) == x.obj
    decreases |nodes|
  {
    if nodes != [] {
      assert nodes[0] in nodes;
      assert (nodes + [x])[1..] == nodes[1..] + [x];
      NewIdAbsent(nodes[1..], x);
    }
  }

  /** The cleanup that follows, up to the removal of what is closed. */
  lemma Sweep(n: nat, s: State, w: nat, node: nat, sck: int) returns (t: State)
    requires Reachable(n, s) && w < |s.workers| && s.workers[w] == LeavingServe(node, sck) && s.active.lock == Nobody
    ensures Reachable(n, t)
    ensures t == s.(workers := s.workers[w := Swept(node, sck)], closed := DestroyedAll(s.closed, s.active.nodes),
                    active := ClientList(Live(s.active.nodes), s.active.size, TheWorker(w)))
  {
    hide Possible, Run, Reachable, Live, DestroyedAll;
    t := Go(n, s, WorkerRuns(w, true));
    t := Go(n, t, WorkerRuns(w, true));
    t := Go(n, t, WorkerRuns(w, true));
    assert t.workers == s.workers[w := Swept(node, sck)];
  }

  /** Serving a client whose accept failed leaves its node behind for good. */
  lemma LeakOne(n: nat, s: State) returns (t: State)
    requires Reachable(n, s) && Ready(s, 0) && forall x :: x in s.active.nodes ==> x.id < s.next && !x.obj.isClosed
    ensures Reachable(n, t) && Ready(t, 0) && |t.active.nodes| == |s.active.nodes| + 1
    ensures t.workers == s.workers && t.arrived == s.arrived + [INVALID_SOCKET]
    ensures forall x :: x in t.active.nodes ==> x.id < t.next && !x.obj.isClosed
  {
    hide Possible, Run, Reachable, Live, DestroyedAll, ObjOf;
    var a := Admit(n, s, 0, INVALID_SOCKET);
    var x := Node(s.next + 1, NEVER_CLOSED);
    NewIdAbsent(s.active.nodes, x);
    NoneClosed(a.active.nodes);
    var run := WorkerRuns(0, true);
    t := Go(n, a, run);
    t := Sweep(n, t, 0, s.next + 1, INVALID_SOCKET);
    t := Go(n, t, run);
    t := Go(n, t, run);
    assert t.active.nodes == s.active.nodes + [x];
    assert t.workers == s.workers;
  }

  lemma {:induction false} NoneClosed(nodes: seq<Node>)
    requires forall x :: x in nodes ==> !x.obj.isClosed
    ensures Live(nodes) == nodes
    decreases |nodes|
  {
    if nodes != [] {
      assert nodes[0] in nodes;
      NoneClosed(nodes[1..]);
    }
  }

  /** So each of `f` failing accepts lengthens the list of active clients, while every worker waits. */
  lemma {:induction false} LeaksUnbounded(n: nat, f: nat) returns (t: State)
    requires n > 0
    ensures Reachable(n, t) && Ready(t, 0) && |t.active.nodes| == f
    ensures |t.arrived| == f && forall i :: 0 <= i < f ==> t.arrived[i] == INVALID_SOCKET
    ensures t.workers == Start(n).workers
    ensures forall x :: x in t.active.nodes ==> x.id < t.next && !x.obj.isClosed
    decreases f
  {
    hide Reachable;
    if f == 0 {
      StartReachable(n);
      t := Start(n);
    } else {
      t := LeaksUnbounded(n, f - 1);
      t := LeakOne(n, t);
    }
  }

  /** Workers below `m` serve a client each, the others wait. */
  predicate Busy(s: State, n: nat, m: nat) {
    && |s.workers| == n
    && (forall w :: m <= w < n ==> s.workers[w] == Waiting)
    && (forall w :: 0 <= w < m && w < n ==> s.workers[w].Serving?)
    && s.acceptor == Accepting && s.monitor == Watching
    && s.pending == ClientList([], 0, Nobody) && s.active.lock == Nobody
  }

  /** After `f` failed accepts, `m` workers serve a client each. */
  lemma {:induction false} Fill(n: nat, f: nat, m: nat) returns (t: State)
    requires 0 < n && m <= n
    ensures Reachable(n, t) && Busy(t, n, m) && |t.active.nodes| == f + m
    ensures Count(t.arrived, INVALID_SOCKET) == f && forall x :: x in t.arrived ==> x < m
    decreases m
  {
    hide Reachable, Count;
    if m == 0 {
      t := LeaksUnbounded(n, f);
      CountAll(t.arrived, INVALID_SOCKET);
    } else {
      var s := Fill(n, f, m - 1);
      t := Admit(n, s, m - 1, m - 1);
      CountPush(s.arrived, m - 1, INVALID_SOCKET);
    }
  }

  lemma RunTo(n: nat, t: State) returns (actions: seq<Action>)
    requires Reachable(n, t)
    ensures Possible(n, actions) && Run(n, actions) == t
  {
    actions :| Possible(n, actions) && Run(n, actions) == t;
  }

  lemma {:induction false} CountAll(s: seq<int>, k: int)
    requires forall i :: 0 <= i < |s| ==> s[i] == k
    ensures Count(s, k) == |s|
    decreases |s|
  {
    if s != [] {
      CountAll(s[..|s| - 1], k);
    }
  }

  /** The list of active clients stays within `bound` in every run with `n` workers and at most `f` failed accepts. */
  ghost predicate Within(n: nat, f: nat, bound: nat) {
    forall actions :: Possible(n, actions) && Count(Run(n, actions).arrived, INVALID_SOCKET) <= f ==>
      |Run(n, actions).active.nodes| <= bound
  }

  /**
    With `n` workers and at most `f` failed accepts the list of active clients stays within
    `bound` in every run if and only if `n + f` does.
  */
  lemma BoundExact(n: nat, f: nat, bound: nat)
    requires n > 0
    ensures Within(n, f, bound) <==> n + f <= bound
  {
    hide Possible, Run, Count, Reachable;
    var t := Fill(n, f, n);
    var run := RunTo(n, t);
    assert |Run(n, run).active.nodes| == n + f;
    if n + f <= bound {
      forall actions | Possible(n, actions) && Count(Run(n, actions).arrived, INVALID_SOCKET) <= f
        ensures |Run(n, actions).active.nodes| <= bound
      {
        ActiveBounded(n, actions);
      }
    }
  }

  /** So with the pool's workers, 16 bounds the list exactly if no accept fails. */
  lemma PoolSizeBound(f: nat)
    ensures Within(THREAD_NO, f, 16) <==> f == 0
  {
    BoundExact(THREAD_NO, f, 16);
  }

  /** `closeConnection` runs to its end on a client with a socket. */
  lemma Close(n: nat, s: State, w: nat, node: nat, sck: int) returns (t: State)
    requires Reachable(n, s) && w < |s.workers| && s.workers[w] == Serving(node, sck) && sck != INVALID_SOCKET
    requires ObjOf(s.active.nodes, node) == Obj(sck, false)
    requires ObjOf(SetObj(s.active.nodes, node, NEVER_CLOSED), node) == NEVER_CLOSED
    ensures Reachable(n, t)
    ensures t == s.(closed := s.closed + [sck], workers := s.workers[w := LeavingServe(node, sck)],
                    active := s.active.(nodes := SetObj(s.active.nodes, node, MOVED_FROM)))
  {
    hide Possible, Run, Reachable, ObjOf;
    t := Go(n, s, WorkerRuns(w, true));
    t := Go(n, t, WorkerRuns(w, true));
    assert t.workers == s.workers[w := LeavingServe(node, sck)];
    assert t.active.nodes == SetObj(s.active.nodes, node, MOVED_FROM);
  }

  /**
    A node can be gone while its worker is still inside `serve`: that worker has marked the
    client closed, and the cleanup of another one comes before it returns.
  */
  lemma RemovedInsideServe(n: nat) returns (t: State, node: nat)
    requires n >= 2
    ensures Reachable(n, t) && |t.workers| == n && t.workers[0] == LeavingServe(node, 0)
    ensures forall x :: x in t.active.nodes ==> x.id != node
  {
    hide Possible, Run, Reachable;
    StartReachable(n);
    t := Admit(n, Start(n), 0, 0);
    node := 1;
    t := Admit(n, t, 1, 1);
    var a, b := Obj(0, false), Obj(1, false);
    assert t.active.nodes == [Node(1, a), Node(3, b)];
    TwoNodes(a, b, NEVER_CLOSED);
    TwoNodes(a, b, MOVED_FROM);
    t := Close(n, t, 0, 1, 0);
    TwoNodes(MOVED_FROM, b, NEVER_CLOSED);
    TwoNodes(MOVED_FROM, b, MOVED_FROM);
    t := Close(n, t, 1, 3, 1);
    t := Sweep(n, t, 1, 3, 1);
    LiveTwo();
  }

  lemma TwoNodes(a: Obj, b: Obj, c: Obj)
    ensures var l := [Node(1, a), Node(3, b)];
            && ObjOf(l, 1) == a && ObjOf(l, 3) == b
            && SetObj(l, 1, c) == [Node(1, c), Node(3, b)] && SetObj(l, 3, c) == [Node(1, a), Node(3, c)]
            && ObjOf(SetObj(l, 1, c), 1) == c && ObjOf(SetObj(l, 3, c), 3) == c
  {
    assert [Node(1, a), Node(3, b)][1..] == [Node(3, b)];
    assert [Node(1, a), Node(3, c)][1..] == [Node(3, c)];
  }

  lemma LiveTwo()
    ensures Live([Node(1, MOVED_FROM), Node(3, MOVED_FROM)]) == []
  {
    var two, one := [Node(1, MOVED_FROM), Node(3, MOVED_FROM)], [Node(3, MOVED_FROM)];
    assert two[1..] == one && one[1..] == [];
    assert Live(one) == [];
  }
}
