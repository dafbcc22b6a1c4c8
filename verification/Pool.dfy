/**
  The server's threads: one accepting connections, a pool of workers that serve them, and
  one announcing window events, over the two shared client lists. Every step is what one
  thread does between two points at which another may run; what a lock protects is taken
  apart further, so that the lists are seen while they are being changed.
*/
module Pool {

  const THREAD_NO: nat := 16

  /** Sockets are named by the order in which they were accepted; a failed accept yields this. */
  const INVALID_SOCKET: int := -1

  /** A `Client` object. */
  datatype Obj = Obj(sck: int, isClosed: bool)

  /** What a move leaves behind: the swap with a fresh object. */
  const MOVED_FROM := Obj(INVALID_SOCKET, true)

  datatype Node = Node(id: nat, obj: Obj)

  datatype Holder = Nobody | TheAcceptor | TheWorker(w: nat) | TheMonitor

  datatype ClientList = ClientList(nodes: seq<Node>, size: int, lock: Holder)

  /** Where the accepting thread is; `c` is the argument of `pending.addClient`. */
  datatype AcceptorAt =
    | Accepting
    | Calling(c: Obj)
    | Pushing(c: Obj)
    | Pushed(c: Obj)
    | Counted(c: Obj)
    | Released(c: Obj)

  /**
    Where a worker is. `c` is the client on its way from one list to the other, `t` a
    temporary left over by the return of `getClient`, `node` the client's node in `active`
    and `sck` the socket it came with.
  */
  datatype WorkerAt =
    | Waiting
    | Popping
    | MovedOut(c: Obj)
    | Popped(c: Obj)
    | Uncounted(c: Obj)
    | Returning(c: Obj, t: Obj)
    | Passing(c: Obj)
    | Adding(c: Obj)
    | Added(c: Obj, node: nat, sck: int)
    | AddCounted(c: Obj, node: nat, sck: int)
    | AddReleased(c: Obj, node: nat, sck: int)
    | Serving(node: nat, sck: int)
    | Closing(node: nat, sck: int)
    | LeavingServe(node: nat, sck: int)
    | Served(node: nat, sck: int)
    | Sweeping(node: nat, sck: int)
    | Swept(node: nat, sck: int)
    | Recounted(node: nat, sck: int)

  datatype MonitorAt = Watching | Notifying(k: nat)

  /**
    `arrived`, `taken` and `closed` record the sockets accepted, taken from `pending` and
    closed, in order; `leaked` the nodes whose service ended without marking them closed;
    `visited` the nodes the present or last notification was sent to, in order.
  */
  datatype State = State(
    pending: ClientList, active: ClientList,
    acceptor: AcceptorAt, workers: seq<WorkerAt>, monitor: MonitorAt,
    next: nat, arrived: seq<int>, taken: seq<int>, closed: seq<int>, leaked: set<nat>, visited: seq<nat>)

  datatype Action = Accept(sck: int) | AcceptorRuns | WorkerRuns(w: nat, choice: bool) | MonitorRuns

  function Start(n: nat): State {
    var none := ClientList([], 0, Nobody);
    State(none, none, Accepting, seq(n, _ => Waiting), Watching, 0, [], [], [], {}, [])
  }

  /** The destructor: an object that still has a socket closes it. */
  function Destroyed(closed: seq<int>, c: Obj): seq<int> {
    if c.sck != INVALID_SOCKET then closed + [c.sck] else closed
  }

  function Live(nodes: seq<Node>): seq<Node> {
    if nodes == [] then []
    else if nodes[0].obj.isClosed then Live(nodes[1..])
    else [nodes[0]] + Live(nodes[1..])
  }

  function DestroyedAll(closed: seq<int>, nodes: seq<Node>): seq<int>
    decreases |nodes|
  {
    if nodes == [] then closed
    else DestroyedAll(if nodes[0].obj.isClosed then Destroyed(closed, nodes[0].obj) else closed, nodes[1..])
  }

  function SetObj(nodes: seq<Node>, id: nat, obj: Obj): (r: seq<Node>)
    ensures |r| == |nodes|
    ensures forall i :: 0 <= i < |nodes| ==> r[i] == if nodes[i].id == id then Node(id, obj) else nodes[i]
  {
    seq(|nodes|, i requires 0 <= i < |nodes| => if nodes[i].id == id then Node(id, obj) else nodes[i])
  }

  predicate Enabled(s: State, a: Action) {
    match a
    case Accept(sck) => s.acceptor == Accepting && (sck == INVALID_SOCKET || (sck >= 0 && sck !in s.arrived))
    case AcceptorRuns => s.acceptor != Accepting && (s.acceptor.Calling? ==> s.pending.lock == Nobody)
    case WorkerRuns(w, _) =>
      && w < |s.workers|
      && (s.workers[w].Waiting? ==> s.pending.lock == Nobody && s.pending.size > 0)
      && (s.workers[w].Popping? || s.workers[w].MovedOut? ==> s.pending.nodes != [])
      && (s.workers[w].Passing? || s.workers[w].Served? ==> s.active.lock == Nobody)
    case MonitorRuns => s.monitor.Watching? ==> s.active.lock == Nobody
  }

  function AcceptorStep(s: State): State
    requires s.acceptor != Accepting
  {
    match s.acceptor
    case Calling(c) => s.(pending := s.pending.(lock := TheAcceptor), acceptor := Pushing(c))
    case Pushing(c) =>
      s.(pending := s.pending.(nodes := s.pending.nodes + [Node(s.next, c)]), next := s.next + 1,
      acceptor := Pushed(MOVED_FROM))
    case Pushed(c) => s.(pending := s.pending.(size := s.pending.size + 1), acceptor := Counted(c))
    case Counted(c) => s.(pending := s.pending.(lock := Nobody), acceptor := Released(c))
    case Released(c) => s.(closed := Destroyed(s.closed, c), acceptor := Accepting)
  }

  function ObjOf(nodes: seq<Node>, id: nat): Obj {
    if nodes == [] then MOVED_FROM
    else if nodes[0].id == id then nodes[0].obj
    else ObjOf(nodes[1..], id)
  }

  predicate InGetClient(at: WorkerAt) {
    at.Waiting? || at.Popping? || at.MovedOut? || at.Popped? || at.Uncounted? || at.Returning?
  }

  predicate InAddClient(at: WorkerAt) {
    at.Passing? || at.Adding? || at.Added? || at.AddCounted? || at.AddReleased?
  }

  predicate InServe(at: WorkerAt) {
    at.Serving? || at.Closing? || at.LeavingServe?
  }

  predicate InCleanup(at: WorkerAt) {
    at.Served? || at.Sweeping? || at.Swept? || at.Recounted?
  }

  function At(s: State, w: nat, at: WorkerAt): State
    requires w < |s.workers|
  {
    s.(workers := s.workers[w := at])
  }

  /** `pending.getClient`; with `choice` its result is built in place, else moved out of a local. */
  function GetClientStep(s: State, w: nat, choice: bool): State
    requires Enabled(s, WorkerRuns(w, choice)) && InGetClient(s.workers[w])
  {
    var p := s.pending;
    match s.workers[w]
    case Waiting => At(s, w, Popping).(pending := p.(lock := TheWorker(w)))
    case Popping =>
      var c := p.nodes[0].obj;
      At(s, w, MovedOut(c)).(
        pending := p.(nodes := [Node(p.nodes[0].id, MOVED_FROM)] + p.nodes[1..]), taken := s.taken + [c.sck])
    case MovedOut(c) =>
      At(s, w, Popped(c)).(pending := p.(nodes := p.nodes[1..]), closed := Destroyed(s.closed, p.nodes[0].obj))
    case Popped(c) => At(s, w, Uncounted(c)).(pending := p.(size := p.size - 1))
    case Uncounted(c) =>
      At(s, w, if choice then Passing(c) else Returning(c, MOVED_FROM)).(pending := p.(lock := Nobody))
    case Returning(c, t) => At(s, w, Passing(c)).(closed := Destroyed(s.closed, t))
  }

  /** `active.addClient`. */
  function AddClientStep(s: State, w: nat): State
    requires w < |s.workers| && InAddClient(s.workers[w])
  {
    var l := s.active;
    match s.workers[w]
    case Passing(c) => At(s, w, Adding(c)).(active := l.(lock := TheWorker(w)))
    case Adding(c) =>
      At(s, w, Added(MOVED_FROM, s.next, c.sck)).(
        active := l.(nodes := l.nodes + [Node(s.next, c)]), next := s.next + 1)
    case Added(c, node, sck) => At(s, w, AddCounted(c, node, sck)).(active := l.(size := l.size + 1))
    case AddCounted(c, node, sck) => At(s, w, AddReleased(c, node, sck)).(active := l.(lock := Nobody))
    case AddReleased(c, node, sck) => At(s, w, Serving(node, sck)).(closed := Destroyed(s.closed, c))
  }

  /** `client.serve`, which ends, when `choice` says so, in `closeConnection`. */
  function ServeStep(s: State, w: nat, choice: bool): State
    requires w < |s.workers| && InServe(s.workers[w])
  {
    var l := s.active;
    match s.workers[w]
    case Serving(node, sck) =>
      var c := ObjOf(l.nodes, node);
      if !choice then s
      else if c.sck != INVALID_SOCKET then
        At(s, w, Closing(node, sck)).(
          closed := s.closed + [c.sck],
          active := l.(nodes := SetObj(l.nodes, node, c.(sck := INVALID_SOCKET))))
      else
        At(s, w, LeavingServe(node, sck)).(leaked := s.leaked + {node})
    case Closing(node, sck) =>
      At(s, w, LeavingServe(node, sck)).(
        active := l.(nodes := SetObj(l.nodes, node, ObjOf(l.nodes, node).(isClosed := true))))
    case LeavingServe(node, sck) => At(s, w, Served(node, sck))
  }

  /** `active.cleanup`. */
  function CleanupStep(s: State, w: nat): State
    requires w < |s.workers| && InCleanup(s.workers[w])
  {
    var l := s.active;
    match s.workers[w]
    case Served(node, sck) => At(s, w, Sweeping(node, sck)).(active := l.(lock := TheWorker(w)))
    case Sweeping(node, sck) =>
      At(s, w, Swept(node, sck)).(active := l.(nodes := Live(l.nodes)), closed := DestroyedAll(s.closed, l.nodes))
    case Swept(node, sck) => At(s, w, Recounted(node, sck)).(active := l.(size := |l.nodes|))
    case Recounted(node, sck) => At(s, w, Waiting).(active := l.(lock := Nobody))
  }

  function WorkerStep(s: State, w: nat, choice: bool): State
    requires Enabled(s, WorkerRuns(w, choice))
  {
    if InGetClient(s.workers[w]) then GetClientStep(s, w, choice)
    else if InAddClient(s.workers[w]) then AddClientStep(s, w)
    else if InServe(s.workers[w]) then ServeStep(s, w, choice)
    else CleanupStep(s, w)
  }

  /** A notification visits the nodes of `active` one after the other, under the lock. */
  function MonitorStep(s: State): State {
    match s.monitor
    case Watching => s.(active := s.active.(lock := TheMonitor), monitor := Notifying(0), visited := [])
    case Notifying(k) =>
      if k < |s.active.nodes| then s.(monitor := Notifying(k + 1), visited := s.visited + [s.active.nodes[k].id])
      else s.(active := s.active.(lock := Nobody), monitor := Watching)
  }

  function Do(s: State, a: Action): State
    requires Enabled(s, a)
  {
    match a
    case Accept(sck) => s.(acceptor := Calling(Obj(sck, false)), arrived := s.arrived + [sck])
    case AcceptorRuns => AcceptorStep(s)
    case WorkerRuns(w, choice) => WorkerStep(s, w, choice)
    case MonitorRuns => MonitorStep(s)
  }

  function Run(n: nat, actions: seq<Action>): State
    requires Possible(n, actions)
    decreases |actions|, 1
  {
    if actions == [] then Start(n) else Do(Run(n, actions[..|actions| - 1]), actions[|actions| - 1])
  }

  predicate Possible(n: nat, actions: seq<Action>)
    decreases |actions|, 0
  {
    actions == [] || (
      var before := actions[..|actions| - 1];
      Possible(n, before) && Enabled(Run(n, before), actions[|actions| - 1]))
  }
}
