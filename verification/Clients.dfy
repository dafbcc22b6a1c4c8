/**
  A whole client: the bytes of its socket, through the decoder and the protocol
  object, into the connection it displays.
*/
module Clients {
  import opened Wire
  import opened Framing
  import opened Mirror
  import opened Protocols
  import opened MessageStreams
  import opened Connections

  datatype Client = Client(proto: Proto, conn: Conn)

  function NewClient(): Client {
    Client(NewProto(), NewConn())
  }

  function ReceiveOne(codec: Codec, c: Client, msg: seq<Byte>, now: nat): Client {
    var (p, signals) := Receive(codec, c.proto, msg);
    Client(p, ApplyAll(c.conn, signals, now))
  }

  function ReceiveAll(codec: Codec, c: Client, msgs: seq<seq<Byte>>, now: nat): Client
    decreases |msgs|
  {
    if msgs == [] then c else ReceiveAll(codec, ReceiveOne(codec, c, msgs[0], now), msgs[1..], now)
  }

  /** The socket connects: the protocol starts and the connection time is reset. */
  function Connected(c: Client, now: nat): Client {
    Client(Begun(c.proto), c.conn.(connectedAt := now))
  }

  /** The socket closes: the protocol stops, and if it ran the connection is cleared. */
  function Disconnected(c: Client, now: nat): Client {
    var (p, signals) := Ended(c.proto);
    Client(p, ApplyAll(c.conn, signals, now))
  }

  /** Nothing in the message, read the way the protocol object will read it, trips the assertion on application ids. */
  ghost predicate AcceptableMessage(codec: Codec, state: State, msg: seq<Byte>) {
    match state
    case Init => Acceptable(AppListReceived(codec.parseList(msg)))
    case AcceptingEvents =>
      var created := codec.parseEvent(msg).created;
      created.Some? ==> Acceptable(AppCreated(created.value))
    case Stopped => true
  }

  /** The state a message leaves a protocol object in. */
  function NextState(state: State): State {
    if state == Init then AcceptingEvents else state
  }

  ghost predicate AcceptableMessages(codec: Codec, state: State, msgs: seq<seq<Byte>>)
    decreases |msgs|
  {
    msgs == [] || (
      && AcceptableMessage(codec, state, msgs[0])
      && AcceptableMessages(codec, NextState(state), msgs[1..]))
  }

  lemma ReceiveState(codec: Codec, p: Proto, msg: seq<Byte>)
    ensures Receive(codec, p, msg).0.state == NextState(p.state)
  {
  }

  /**
    One notification from the socket, followed to the end of its consequences. Only the
    messages that are reported need to be acceptable.
  */
  method SocketReadyRead(conn: Connection, proto: ClientProtocol, codec: Codec, now: nat) returns (ending: Ending)
    requires conn.Valid() && proto.Valid() && proto.client != null
    requires AcceptableMessages(codec, proto.state, Pass(proto.stream.State()).received)
    modifies conn, conn.apps.Values
    modifies proto, proto.stream, proto.client
    ensures conn.Valid() && proto.Valid() && proto.client == old(proto.client)
    ensures fresh(conn.apps.Values - old(conn.apps.Values))
    ensures var o := old(Pass(proto.stream.State()));
            && ending == o.ending && proto.stream.State() == o.state
            && Client(proto.Model(), conn.Model())
            == ReceiveAll(codec, old(Client(proto.Model(), conn.Model())), o.received, now)
  {
    hide Pass, FlatBytes, Scan, Sound, Connection.Recs, Connection.Indexed, Connection.Model, Receive,
         ApplyAll, Failed, Consumed, AcceptableMessage, FrameAll, NextState;
    ghost var start := Client(proto.Model(), conn.Model());
    var msgs;
    ghost var lost;
    msgs, ending, lost := proto.stream.ReadyRead();
    ghost var left := proto.stream.State();
    for i := 0 to |msgs|
      invariant conn.Valid() && proto.Valid() && proto.client == old(proto.client)
      invariant fresh(conn.apps.Values - old(conn.apps.Values))
      invariant proto.stream.State() == left
      invariant AcceptableMessages(codec, proto.state, msgs[i..])
      invariant ReceiveAll(codec, start, msgs, now)
             == ReceiveAll(codec, Client(proto.Model(), conn.Model()), msgs[i..], now)
    {
      assert msgs[i..][1..] == msgs[i + 1..];
      ReceiveState(codec, proto.Model(), msgs[i]);
      MessageReceived(conn, proto, codec, msgs[i], now);
    }
  }

  method MessageReceived(conn: Connection, proto: ClientProtocol, codec: Codec, msg: seq<Byte>, now: nat)
    requires conn.Valid() && AcceptableMessage(codec, proto.state, msg)
    modifies conn, conn.apps.Values
    modifies proto`state, proto`pendingReqs
    ensures conn.Valid() && fresh(conn.apps.Values - old(conn.apps.Values))
    ensures Client(proto.Model(), conn.Model())
         == ReceiveOne(codec, old(Client(proto.Model(), conn.Model())), msg, now)
  {
    hide Sound, Connection.Recs, Connection.Indexed, Connection.Model, Apply, AcceptableMessage, Receive, Acceptable;
    AcceptableSignals(codec, proto.Model(), msg);
    ghost var before := conn.Model();
    var signals := proto.ReceiveMessage(codec, msg);
    for i := 0 to |signals|
      invariant conn.Valid() && fresh(conn.apps.Values - old(conn.apps.Values))
      invariant ApplyAll(before, signals, now) == ApplyAll(conn.Model(), signals[i..], now)
      invariant (proto.Model(), signals) == Receive(codec, old(proto.Model()), msg)
    {
      var _ := conn.Dispatch(signals[i], now);
      assert signals[i..][1..] == signals[i + 1..];
    }
    assert signals[|signals|..] == [];
  }

  lemma AcceptableSignals(codec: Codec, p: Proto, msg: seq<Byte>)
    requires AcceptableMessage(codec, p.state, msg)
    ensures forall s :: s in Receive(codec, p, msg).1 ==> Acceptable(s)
  {
    match p.state
    case AcceptingEvents =>
      var e := codec.parseEvent(msg);
      var (_, answers) := if e.response.Some? then TakeResponse(p, e.response.value) else (p, []);
      assert forall s :: s in WindowSignals(e) ==> Acceptable(s);
      assert forall s :: s in answers ==> Acceptable(s);
    case _ =>
  }
}
