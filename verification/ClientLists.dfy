/**
  The server's clients: objects that own a socket and hand it on when they are moved, and
  the lists they are kept in.
*/
module ClientLists {
  import opened Wire
  import opened Framing

  datatype WindowStatus = W_CLOSED | W_OPENED | W_ONFOCUS

  datatype Note = Note(window: Handle, status: WindowStatus)

  function NoteEvent(n: Note): Event {
    match n.status
    case W_OPENED => EMPTY_EVENT.(created := Some(Application(n.window)))
    case W_CLOSED => EMPTY_EVENT.(destroyed := Some(n.window))
    case W_ONFOCUS => EMPTY_EVENT.(gotFocus := Some(n.window))
  }

  /** The event of a note has the one field its status calls for, with the window, and no other. */
  lemma NoteEventFields(n: Note)
    ensures var e := NoteEvent(n);
            && e.response == None
            && (e.created.Some? <==> n.status == W_OPENED) && (e.created.Some? ==> e.created.value.id == n.window)
            && (e.destroyed.Some? <==> n.status == W_CLOSED) && (e.destroyed.Some? ==> e.destroyed.value == n.window)
            && (e.gotFocus.Some? <==> n.status == W_ONFOCUS) && (e.gotFocus.Some? ==> e.gotFocus.value == n.window)
  {
  }

  datatype Server = Server(wins: seq<Handle>, focus: Handle)

  function Applications(wins: seq<Handle>): (apps: seq<Application>)
    ensures |apps| == |wins|
  {
    seq(|wins|, i requires 0 <= i < |wins| => Application(wins[i]))
  }

  /** The serialized listing fits the 32-bit length prefix. */
  ghost predicate Fits(codec: Codec, wins: seq<Handle>) {
    |codec.listBytes(Applications(wins))| < 0x1_0000_0000
  }

  /** The two messages a client gets when it joins: the listing and the focus. */
  function Snapshot(codec: Codec, s: Server): seq<seq<Byte>> {
    [codec.listBytes(Applications(s.wins)), codec.eventBytes(NoteEvent(Note(s.focus, W_ONFOCUS)))]
  }

  /** A connected socket: what was written to it, and whether it is open. */
  class Socket {
    var wire: seq<Byte>
    var open: bool

    constructor ()
      ensures open && wire == []
    {
      open, wire := true, [];
    }

    method Write(bytes: seq<Byte>)
      modifies this`wire
      ensures wire == old(wire) + bytes
    {
      wire := wire + bytes;
    }

    /** A socket is closed once. */
    method Close()
      requires open
      modifies this`open
      ensures !open
    {
      open := false;
    }
  }

  class Client {
    var sck: Socket?  // null stands for INVALID_SOCKET
    var isClosed: bool

    constructor Accepted(s: Socket?)
      ensures sck == s && !isClosed
    {
      sck, isClosed := s, false;
    }

    /** The move constructor: a fresh object that swaps its contents with `src`. */
    constructor Moved(src: Client)
      modifies src
      ensures sck == old(src.sck) && isClosed == old(src.isClosed)
      ensures src.sck == null && src.isClosed
    {
      sck, isClosed := null, true;
      new;
      Swap(this, src);
    }

    method CloseConnection()
      requires sck != null ==> sck.open
      modifies this, sck
      ensures sck == null
      ensures old(sck) != null ==> isClosed && !old(sck).open && old(sck).wire == old(sck.wire)
      ensures old(sck) == null ==> isClosed == old(isClosed)
    {
      if sck != null {
        sck.Close();
        sck := null;
        isClosed := true;
      }
    }

    /** The destructor. */
    method Destroy()
      requires sck != null ==> sck.open
      modifies this, sck
      ensures sck == null && (old(sck) != null ==> !old(sck).open)
    {
      if sck != null {
        CloseConnection();
      }
    }

    /** The length, cut to 32 bits, and the payload. */
    method SendFramed(payload: seq<Byte>)
      modifies Own(sck)`wire
      ensures sck != null ==> sck.wire == old(sck.wire) + ToBigEndian(|payload| % 0x1_0000_0000) + payload
      ensures sck != null && |payload| < 0x1_0000_0000 ==> sck.wire == old(sck.wire) + Frame(payload)
    {
      if sck != null {
        sck.Write(ToBigEndian(|payload| % 0x1_0000_0000));
        sck.Write(payload);
      }
    }

    method SendProcessList(codec: Codec, windows: seq<Handle>, onFocus: Handle)
      requires codec.Lawful()
      modifies Own(sck)`wire
      ensures Fits(codec, windows) ==> var snapshot := Snapshot(codec, Server(windows, onFocus));
                && Framable(snapshot)
                && (sck != null ==> sck.wire == old(sck.wire) + FrameAll(snapshot))
      ensures var list := codec.parseList(codec.listBytes(Applications(windows)));
              |list| == |windows| && forall i :: 0 <= i < |windows| ==> list[i].id == windows[i]
      ensures sck != null ==>
                var list := codec.listBytes(Applications(windows));
                sck.wire == old(sck.wire) + ToBigEndian(|list| % 0x1_0000_0000) + list
                            + Frame(codec.eventBytes(NoteEvent(Note(onFocus, W_ONFOCUS))))
    {
      var list := codec.listBytes(Applications(windows));
      var focus := codec.eventBytes(NoteEvent(Note(onFocus, W_ONFOCUS)));
      SendFramed(list);
      SendFramed(focus);
      if |list| < 0x1_0000_0000 {
        TwoFrames(list, focus);
      }
    }

    /** One frame; what it says, read back, is that the window was opened, closed or focused, and nothing else. */
    method SendMessage(codec: Codec, note: Note) returns (ghost payload: seq<Byte>)
      requires codec.Lawful()
      modifies Own(sck)`wire
      ensures |payload| < 0x1_0000_0000 && (sck != null ==> sck.wire == old(sck.wire) + Frame(payload))
      ensures codec.parseEvent(payload) == Event(
                if note.status == W_OPENED then Some(Application(note.window)) else None,
                if note.status == W_CLOSED then Some(note.window) else None,
                if note.status == W_ONFOCUS then Some(note.window) else None,
                None)
      ensures sck != null ==> sck.wire == old(sck.wire) + Frame(codec.eventBytes(NoteEvent(note)))
    {
      var event;
      match note.status {
        case W_OPENED => event := EMPTY_EVENT.(created := Some(Application(note.window)));
        case W_CLOSED => event := EMPTY_EVENT.(destroyed := Some(note.window));
        case W_ONFOCUS => event := EMPTY_EVENT.(gotFocus := Some(note.window));
      }
      SendFramed(codec.eventBytes(event));
      payload := codec.eventBytes(event);
    }
  }

  method Swap(a: Client, b: Client)
    modifies a, b
    ensures a.sck == old(b.sck) && a.isClosed == old(b.isClosed)
    ensures b.sck == old(a.sck) && b.isClosed == old(a.isClosed)
  {
    a.sck, b.sck := b.sck, a.sck;
    a.isClosed, b.isClosed := b.isClosed, a.isClosed;
  }

  lemma TwoFrames(p: seq<Byte>, q: seq<Byte>)
    requires |p| < 0x1_0000_0000 && |q| < 0x1_0000_0000
    ensures Framable([p, q]) && FrameAll([p, q]) == Frame(p) + Frame(q)
  {
    var both, last: seq<seq<Byte>> := [p, q], [q];
    assert both[1..] == last && last[1..] == [];
    assert FrameAll(last) == Frame(q);
  }

  ghost function Own(s: Socket?): set<Socket> {
    if s == null then {} else {s}
  }

  ghost function Sockets(clients: seq<Client>): set<Socket>
    reads clients
  {
    set c | c in clients && c.sck != null :: c.sck
  }

  ghost function Wires(clients: seq<Client>): (wires: seq<seq<Byte>>)
    reads clients, Sockets(clients)
    ensures |wires| == |clients|
  {
    seq(|clients|, i requires 0 <= i < |clients| reads clients, Sockets(clients) =>
      if clients[i].sck == null then [] else clients[i].sck.wire)
  }

  ghost predicate Apart(clients: seq<Client>)
    reads clients
  {
    forall i, j :: 0 <= i < |clients| && 0 <= j < |clients| && i != j && clients[i].sck != null ==>
      clients[i].sck != clients[j].sck
  }

  /** The clients that are not marked closed, in order. */
  function StillOpen(clients: seq<Client>): seq<Client>
    reads clients
    decreases |clients|
  {
    if clients == [] then []
    else if clients[0].isClosed then StillOpen(clients[1..])
    else [clients[0]] + StillOpen(clients[1..])
  }

  class ClientList {
    var clients: seq<Client>
    var size: nat

    /**
      The counter is the length; no two clients share an object or a socket; a socket that a
      client still has is open, and a client marked closed has none.
    */
    ghost predicate Valid()
      reads this, clients, Sockets(clients)
    {
      && size == |clients|
      && (forall i, j :: 0 <= i < j < |clients| ==> clients[i] != clients[j])
      && (forall c, d :: c in clients && d in clients && c != d && c.sck != null ==> c.sck != d.sck)
      && (forall c :: c in clients && c.sck != null ==> c.sck.open && !c.isClosed)
    }

    constructor ()
      ensures Valid() && clients == []
    {
      clients, size := [], 0;
    }

    /** The client's contents move into a new node at the end. */
    method AddClient(c: Client) returns (last: Client)
      requires Valid() && c !in clients && (c.sck != null ==> c.sck !in Sockets(clients) && c.sck.open && !c.isClosed)
      modifies this, c
      ensures Valid() && fresh(last) && clients == old(clients) + [last]
      ensures last.sck == old(c.sck) && last.isClosed == old(c.isClosed)
      ensures c.sck == null && c.isClosed
    {
      last := new Client.Moved(c);
      clients := clients + [last];
      size := size + 1;
    }

    /** The contents of the first node move out, and the node goes. */
    method GetClient() returns (c: Client)
      requires Valid() && size > 0
      modifies this, clients[0]
      ensures Valid() && fresh(c) && clients == old(clients)[1..]
      ensures c.sck == old(clients[0].sck) && c.isClosed == old(clients[0].isClosed)
      ensures old(clients[0]).sck == null
    {
      var front := clients[0];
      c := new Client.Moved(front);
      clients := clients[1..];
      front.Destroy();
      size := size - 1;
    }

    /** Every client that has a socket gets the message, at the end of what it got before. */
    method Notify(codec: Codec, note: Note)
      requires Valid() && codec.Lawful()
      modifies Sockets(clients)`wire
      ensures Valid()
      ensures forall c :: c in clients && c.sck != null ==>
                c.sck.wire == old(c.sck.wire) + Frame(codec.eventBytes(NoteEvent(note)))
    {
      hide Frame, NoteEvent;
      SendToEach(codec, note);
    }

    method SendToEach(codec: Codec, note: Note)
      requires codec.Lawful() && Apart(clients)
      modifies Sockets(clients)`wire
      ensures forall i :: 0 <= i < |clients| && clients[i].sck != null ==>
                clients[i].sck.wire == old(clients[i].sck.wire) + Frame(codec.eventBytes(NoteEvent(note)))
    {
      hide Frame, NoteEvent;
      for i := 0 to |clients|
        invariant forall j :: 0 <= j < |clients| && clients[j].sck != null ==>
                    clients[j].sck.wire == old(clients[j].sck.wire)
                                           + if j < i then Frame(codec.eventBytes(NoteEvent(note))) else []
      {
        ghost var _ := clients[i].SendMessage(codec, note);
      }
    }

    /** Exactly the clients marked closed go, the others stay in order, and no socket is touched. */
    method Cleanup()
      requires Valid()
      modifies this
      ensures Valid() && clients == StillOpen(old(clients))
      ensures forall c :: c in clients <==> c in old(clients) && !c.isClosed
      ensures forall i, j :: 0 <= i < j < |old(clients)| && !old(clients)[i].isClosed && !old(clients)[j].isClosed ==>
                Precedes(clients, old(clients)[i], old(clients)[j])
    {
      var kept := Filtered();
      StillOpenMembers(clients);
      StillOpenInOrder(clients);
      assert forall c :: c in kept ==> c in clients && !c.isClosed;
      clients := kept;
      size := |clients|;
    }

    method Filtered() returns (kept: seq<Client>)
      ensures kept == StillOpen(clients)
    {
      kept := [];
      var i := |clients|;
      while i > 0
        invariant 0 <= i <= |clients| && kept == StillOpen(clients[i..])
      {
        i := i - 1;
        assert clients[i..][1..] == clients[i + 1..];
        if !clients[i].isClosed {
          kept := [clients[i]] + kept;
        }
      }
      assert clients[0..] == clients;
    }
  }

  /** `a` comes before `b`. */
  ghost predicate Precedes(clients: seq<Client>, a: Client, b: Client) {
    exists i, j :: 0 <= i < j < |clients| && clients[i] == a && clients[j] == b
  }

  /** Clients that are kept keep their order. */
  lemma {:induction false} StillOpenInOrder(clients: seq<Client>)
    ensures forall i, j :: 0 <= i < j < |clients| && !clients[i].isClosed && !clients[j].isClosed ==>
              Precedes(StillOpen(clients), clients[i], clients[j])
    decreases |clients|
  {
    if clients != [] {
      StillOpenInOrder(clients[1..]);
      var rest, kept := StillOpen(clients[1..]), StillOpen(clients);
      forall i, j | 0 <= i < j < |clients| && !clients[i].isClosed && !clients[j].isClosed
        ensures Precedes(kept, clients[i], clients[j])
      {
        if i == 0 {
          StillOpenHas(clients[1..], j - 1);
          var l :| 0 <= l < |rest| && rest[l] == clients[j];
          assert kept[0] == clients[0] && kept[l + 1] == clients[j];
        } else {
          assert clients[1..][i - 1] == clients[i] && clients[1..][j - 1] == clients[j];
          var k, l :| 0 <= k < l < |rest| && rest[k] == clients[i] && rest[l] == clients[j];
          var d := |kept| - |rest|;
          assert kept[k + d] == clients[i] && kept[l + d] == clients[j];
        }
      }
    }
  }

  lemma {:induction false} StillOpenHas(clients: seq<Client>, j: nat)
    requires j < |clients| && !clients[j].isClosed
    ensures clients[j] in StillOpen(clients)
    decreases |clients|
  {
    if j > 0 {
      StillOpenHas(clients[1..], j - 1);
    }
  }

  lemma {:induction false} StillOpenMembers(clients: seq<Client>)
    requires forall i, j :: 0 <= i < j < |clients| ==> clients[i] != clients[j]
    ensures forall c :: c in StillOpen(clients) <==> c in clients && !c.isClosed
    ensures forall i, j :: 0 <= i < j < |StillOpen(clients)| ==> StillOpen(clients)[i] != StillOpen(clients)[j]
    decreases |clients|
  {
    if clients != [] {
      assert clients == [clients[0]] + clients[1..];
      StillOpenMembers(clients[1..]);
      var rest := StillOpen(clients[1..]);
      forall i | 0 <= i < |rest|
        ensures rest[i] != clients[0]
      {
        assert rest[i] in rest;
      }
    }
  }
}
