/**
  What holds in every interleaving of the server's threads.
*/
module PoolSafety {
  import opened Pool

  predicate InPending(at: WorkerAt) {
    at.Popping? || at.MovedOut? || at.Popped? || at.Uncounted?
  }

  predicate InActive(at: WorkerAt) {
    at.Adding? || at.Added? || at.AddCounted? || at.Sweeping? || at.Swept? || at.Recounted?
  }

  predicate HoldsPending(s: State, w: nat) {
    s.pending.lock == TheWorker(w)
  }

  predicate HoldsActive(s: State, w: nat) {
    s.active.lock == TheWorker(w)
  }

  /** A lock is held by exactly the thread that is between taking and releasing it. */
  ghost predicate Locked(s: State) {
    && (forall w :: 0 <= w < |s.workers| ==> (InPending(s.workers[w]) <==> HoldsPending(s, w)))
    && (forall w :: 0 <= w < |s.workers| ==> (InActive(s.workers[w]) <==> HoldsActive(s, w)))
    && (s.pending.lock.TheWorker? ==> s.pending.lock.w < |s.workers|)
    && (s.active.lock.TheWorker? ==> s.active.lock.w < |s.workers|)
    && (s.pending.lock == TheAcceptor <==> s.acceptor.Pushing? || s.acceptor.Pushed? || s.acceptor.Counted?)
    && (s.active.lock == TheMonitor <==> s.monitor.Notifying?)
    && s.pending.lock != TheMonitor && s.active.lock != TheAcceptor
  }

  /** The worker that holds a list's lock, as far as it matters; others are `Waiting`. */
  function PendingUser(s: State): WorkerAt {
    if s.pending.lock.TheWorker? && s.pending.lock.w < |s.workers| then s.workers[s.pending.lock.w] else Waiting
  }

  function ActiveUser(s: State): WorkerAt {
    if s.active.lock.TheWorker? && s.active.lock.w < |s.workers| then s.workers[s.active.lock.w] else Waiting
  }

  /** The counters lag behind the lists only in the middle of an operation. */
  ghost predicate Sized(s: State) {
    && s.pending.size == |s.pending.nodes| - (if s.acceptor.Pushed? then 1 else 0)
                                           + (if PendingUser(s).Popped? then 1 else 0)
    && (PendingUser(s).Popping? || PendingUser(s).MovedOut? ==> s.pending.size > 0)
    && (!ActiveUser(s).Swept? ==> s.active.size == |s.active.nodes| - if ActiveUser(s).Added? then 1 else 0)
  }

  /** Every action is a step of one of these kinds. */
  lemma StepKinds(s: State, a: Action)
    requires Enabled(s, a)
    ensures match a
            case WorkerRuns(w, choice) =>
              var at := s.workers[w];
              && (InGetClient(at) ==> Do(s, a) == GetClientStep(s, w, choice))
              && (InAddClient(at) ==> Do(s, a) == AddClientStep(s, w))
              && (InServe(at) ==> Do(s, a) == ServeStep(s, w, choice))
              && (InCleanup(at) ==> Do(s, a) == CleanupStep(s, w))
              && (InGetClient(at) || InAddClient(at) || InServe(at) || InCleanup(at))
            case _ => true
  {
  }

  /** Objects on their way hold an open client, objects moved from hold nothing. */
  ghost predicate Travelling(s: State) {
    && (match s.acceptor
        case Accepting => true
        case Calling(c) => !c.isClosed
        case Pushing(c) => !c.isClosed
        case Pushed(c) => c == MOVED_FROM
        case Counted(c) => c == MOVED_FROM
        case Released(c) => c == MOVED_FROM)
    && forall w :: 0 <= w < |s.workers| ==> WorkerTravelling(s.workers[w])
  }

  predicate WorkerTravelling(at: WorkerAt) {
    match at
    case MovedOut(c) => !c.isClosed
    case Popped(c) => !c.isClosed
    case Uncounted(c) => !c.isClosed
    case Returning(c, t) => !c.isClosed && t == MOVED_FROM
    case Passing(c) => !c.isClosed
    case Adding(c) => !c.isClosed
    case Added(c, _, _) => c == MOVED_FROM
    case AddCounted(c, _, _) => c == MOVED_FROM
    case AddReleased(c, _, _) => c == MOVED_FROM
    case _ => true
  }

  /** The nodes of `pending` that hold a client: all but the one just moved from. */
  function Queued(s: State): seq<Node> {
    if PendingUser(s).MovedOut? && s.pending.nodes != [] then s.pending.nodes[1..] else s.pending.nodes
  }

  function Sockets(nodes: seq<Node>): seq<int> {
    seq(|nodes|, i requires 0 <= i < |nodes| => nodes[i].obj.sck)
  }

  function InHand(s: State): seq<int> {
    match s.acceptor
    case Calling(c) => [c.sck]
    case Pushing(c) => [c.sck]
    case _ => []
  }

  /** First come, first taken: what arrived is what was taken, then the queue, then what is being queued. */
  ghost predicate Fifo(s: State) {
    && s.arrived == s.taken + Sockets(Queued(s)) + InHand(s)
    && (forall x :: x in Queued(s) ==> !x.obj.isClosed)
    && (PendingUser(s).MovedOut? ==> s.pending.nodes != [] && s.pending.nodes[0].obj == MOVED_FROM)
  }

  ghost predicate Counters(s: State) {
    Locked(s) && Sized(s)
  }

  ghost predicate Queues(s: State) {
    Travelling(s) && Fifo(s)
  }

  /** What every step keeps of locks, counters and the queue. */
  ghost predicate Basic(s: State) {
    Counters(s) && Queues(s)
  }

  lemma GetClientCounters(s: State, w: nat, choice: bool)
    requires Enabled(s, WorkerRuns(w, choice)) && InGetClient(s.workers[w]) && Counters(s)
    ensures Counters(GetClientStep(s, w, choice))
  {
  }

  lemma GetClientQueues(s: State, w: nat, choice: bool)
    requires Enabled(s, WorkerRuns(w, choice)) && InGetClient(s.workers[w]) && Counters(s) && Queues(s)
    ensures Queues(GetClientStep(s, w, choice))
  {
    hide Sized;
    var t := GetClientStep(s, w, choice);
    if s.workers[w].Popping? {
      assert Queued(t) == s.pending.nodes[1..] && Queued(s) == s.pending.nodes;
      assert Sockets(s.pending.nodes) == [s.pending.nodes[0].obj.sck] + Sockets(s.pending.nodes[1..]);
    } else {
      assert Queued(t) == Queued(s);
    }
  }

  lemma AddClientCounters(s: State, w: nat)
    requires Enabled(s, WorkerRuns(w, true)) && InAddClient(s.workers[w]) && Counters(s)
    ensures Counters(AddClientStep(s, w))
    ensures PendingUser(AddClientStep(s, w)) == PendingUser(s)
  {
  }

  lemma AddClientQueues(s: State, w: nat)
    requires Enabled(s, WorkerRuns(w, true)) && InAddClient(s.workers[w]) && Counters(s) && Queues(s)
    ensures Queues(AddClientStep(s, w))
  {
    hide Locked, Sized, PendingUser;
    AddClientCounters(s, w);
    assert Queued(AddClientStep(s, w)) == Queued(s);
  }

  lemma ServeCounters(s: State, w: nat, choice: bool)
    requires Enabled(s, WorkerRuns(w, choice)) && InServe(s.workers[w]) && Counters(s)
    ensures Counters(ServeStep(s, w, choice))
    ensures PendingUser(ServeStep(s, w, choice)) == PendingUser(s)
  {
  }

  lemma ServeQueues(s: State, w: nat, choice: bool)
    requires Enabled(s, WorkerRuns(w, choice)) && InServe(s.workers[w]) && Counters(s) && Queues(s)
    ensures Queues(ServeStep(s, w, choice))
  {
    hide Locked, Sized, PendingUser;
    ServeCounters(s, w, choice);
    assert Queued(ServeStep(s, w, choice)) == Queued(s);
  }

  lemma CleanupCounters(s: State, w: nat)
    requires Enabled(s, WorkerRuns(w, true)) && InCleanup(s.workers[w]) && Counters(s)
    ensures Counters(CleanupStep(s, w))
    ensures PendingUser(CleanupStep(s, w)) == PendingUser(s)
  {
    hide Live, DestroyedAll;
  }

  lemma CleanupQueues(s: State, w: nat)
    requires Enabled(s, WorkerRuns(w, true)) && InCleanup(s.workers[w]) && Counters(s) && Queues(s)
    ensures Queues(CleanupStep(s, w))
  {
    hide Locked, Sized, PendingUser, Live, DestroyedAll;
    CleanupCounters(s, w);
    assert Queued(CleanupStep(s, w)) == Queued(s);
  }

  lemma OthersCounters(s: State, a: Action)
    requires Enabled(s, a) && Counters(s) && !a.WorkerRuns?
    ensures Counters(Do(s, a))
  {
  }

  lemma OthersQueues(s: State, a: Action)
    requires Enabled(s, a) && Counters(s) && Queues(s) && !a.WorkerRuns?
    ensures Queues(Do(s, a))
  {
    var t := Do(s, a);
    if a.AcceptorRuns? && s.acceptor.Pushing? {
      assert Sockets(t.pending.nodes) == Sockets(s.pending.nodes) + [s.acceptor.c.sck];
      assert Queued(t) == t.pending.nodes && Queued(s) == s.pending.nodes;
    } else {
      assert Queued(t) == Queued(s);
    }
  }

  lemma BasicStep(s: State, a: Action)
    requires Enabled(s, a) && Basic(s)
    ensures Basic(Do(s, a))
  {
    hide Counters, Queues, Do;
    StepKinds(s, a);
    if a.WorkerRuns? {
      var at := s.workers[a.w];
      if InGetClient(at) {
        GetClientCounters(s, a.w, a.choice);
        GetClientQueues(s, a.w, a.choice);
      } else if InAddClient(at) {
        AddClientCounters(s, a.w);
        AddClientQueues(s, a.w);
      } else if InServe(at) {
        ServeCounters(s, a.w, a.choice);
        ServeQueues(s, a.w, a.choice);
      } else {
        CleanupCounters(s, a.w);
        CleanupQueues(s, a.w);
      }
    } else {
      OthersCounters(s, a);
      OthersQueues(s, a);
    }
  }
}
