/**
  The whole system: a server polling its desktop, any number of clients that joined
  at any time, and a network that delivers each client's bytes in order and in pieces
  of any size.
*/
module EndToEnd {
  import opened Wire
  import opened Framing
  import opened Mirror
  import opened Protocols
  import opened Clients
  import opened ClientLists
  import opened WindowsLists
  import opened Replication

  /**
    One client as both ends see it: `sent` by the server, `received` by the client. `answers`
    records the responses the server gave, `reported` those the client reported.
  */
  datatype Peer = Peer(
    joined: nat, sent: seq<seq<Byte>>, inflight: seq<Byte>,
    received: seq<Byte>, unread: seq<Byte>, stuck: bool, client: Clients.Client,
    answers: seq<Response>, reported: seq<Response>)

  /** `states`: the server after each of its rounds so far. */
  datatype Sys = Sys(states: seq<Server>, peers: seq<Peer>)

  /** `Ask`: a client sends a request; `Respond`: the server answers one, with any response. */
  datatype Action =
    | Poll(round: Round)
    | Join(at: nat)
    | Deliver(peer: nat, count: nat, at: nat)
    | Ask(peer: nat, request: KeystrokeRequest)
    | Respond(peer: nat, response: Response)

  /** A client joins only while the listing can be sent at all. */
  ghost predicate Enabled(codec: Codec, s: Sys, a: Action) {
    match a
    case Poll(round) => s.states != [] && Ascending(round.listing)
    case Join(_) => s.states != [] && Fits(codec, s.states[|s.states| - 1].wins)
    case Deliver(i, count, _) => i < |s.peers| && count <= |s.peers[i].inflight|
    case Ask(i, _) => i < |s.peers|
    case Respond(i, _) => i < |s.peers|
  }

  lemma PayloadsFit(codec: Codec, notes: seq<Note>)
    requires codec.Lawful()
    ensures Framable(NotePayloads(codec, notes)) && [] !in NotePayloads(codec, notes)
  {
    forall i | 0 <= i < |notes|
      ensures NotePayloads(codec, notes)[i] != [] && |NotePayloads(codec, notes)[i]| < 0x1_0000_0000
    {
      assert NoteEvent(notes[i]) != EMPTY_EVENT;
    }
  }

  ghost function Notified(codec: Codec, p: Peer, notes: seq<Note>): Peer
    requires codec.Lawful()
  {
    PayloadsFit(codec, notes);
    var payloads := NotePayloads(codec, notes);
    p.(sent := p.sent + payloads, inflight := p.inflight + FrameAll(payloads))
  }

  function ResponseEvent(r: Response): Event {
    EMPTY_EVENT.(response := Some(r))
  }

  /** The server has put one more frame, a response, behind all it sent before. */
  ghost function Answered(codec: Codec, p: Peer, r: Response): Peer
    requires codec.Lawful()
  {
    var payload := codec.eventBytes(ResponseEvent(r));
    p.(sent := p.sent + [payload], inflight := p.inflight + Frame(payload), answers := p.answers + [r])
  }

  /** The client has recorded one more request. */
  function Asked(p: Peer, request: KeystrokeRequest): Peer {
    p.(client := p.client.(proto := Send(p.client.proto, request).0))
  }

  /** The responses among some signals. */
  function ResponsesOf(signals: seq<Signal>): seq<Response> {
    if signals == [] then []
    else
      (if signals[0].ResponseReceived? then [signals[0].response] else []) + ResponsesOf(signals[1..])
  }

  ghost function Joined(codec: Codec, s: Sys, at: nat): Peer
    requires codec.Lawful() && s.states != [] && Fits(codec, s.states[|s.states| - 1].wins)
  {
    var snapshot := Snapshot(codec, s.states[|s.states| - 1]);
    assert Framable(snapshot);
    Peer(|s.states| - 1, snapshot, FrameAll(snapshot), [], [], false, Connected(NewClient(), at), [], [])
  }

  ghost function Delivered(codec: Codec, p: Peer, count: nat, at: nat): Peer
    requires count <= |p.inflight|
  {
    var arrived := p.inflight[..count];
    var t := Scan(p.unread + arrived);
    p.(inflight := p.inflight[count..], received := p.received + arrived,
    unread := t.rest, stuck := t.stuck, client := ReceiveAll(codec, p.client, t.frames, at),
    reported := p.reported + ResponsesOf(ReceiveEach(codec, p.client.proto, t.frames).1))
  }

  ghost function Do(codec: Codec, s: Sys, a: Action): Sys
    requires codec.Lawful() && Enabled(codec, s, a)
  {
    match a
    case Poll(round) =>
      var now := s.states[|s.states| - 1];
      Sys(s.states + [NextServer(now, round)],
        seq(|s.peers|, i requires 0 <= i < |s.peers| => Notified(codec, s.peers[i], RoundNotes(now, round))))
    case Join(at) => s.(peers := s.peers + [Joined(codec, s, at)])
    case Deliver(i, count, at) => s.(peers := s.peers[i := Delivered(codec, s.peers[i], count, at)])
    case Ask(i, request) => s.(peers := s.peers[i := Asked(s.peers[i], request)])
    case Respond(i, response) => s.(peers := s.peers[i := Answered(codec, s.peers[i], response)])
  }

  ghost predicate Possible(codec: Codec, start: Server, actions: seq<Action>)
    requires codec.Lawful()
    decreases |actions|, 0
  {
    actions == [] || (
      var before := actions[..|actions| - 1];
      Possible(codec, start, before) && Enabled(codec, Run(codec, start, before), actions[|actions| - 1]))
  }

  ghost function Run(codec: Codec, start: Server, actions: seq<Action>): Sys
    requires codec.Lawful() && Possible(codec, start, actions)
    decreases |actions|, 1
  {
    if actions == [] then Sys([start], [])
    else Do(codec, Run(codec, start, actions[..|actions| - 1]), actions[|actions| - 1])
  }

  // ---------- what a client makes of the messages, clocks and requests aside ----------

  datatype Watch = Watch(state: State, view: View)

  function WatchOf(c: Clients.Client): Watch {
    Watch(c.proto.state, ViewOf(c.conn))
  }

  function WatchOne(codec: Codec, w: Watch, msg: seq<Byte>): Watch {
    match w.state
    case Init => Watch(AcceptingEvents, Show(w.view, AppListReceived(codec.parseList(msg))))
    case AcceptingEvents => Watch(AcceptingEvents, ShowAll(w.view, WindowSignals(codec.parseEvent(msg))))
    case Stopped => w
  }

  function WatchAll(codec: Codec, w: Watch, msgs: seq<seq<Byte>>): Watch
    decreases |msgs|
  {
    if msgs == [] then w else WatchAll(codec, WatchOne(codec, w, msgs[0]), msgs[1..])
  }

  /** What is pending makes no difference to what is shown. */
  lemma ReceiveOneWatch(codec: Codec, c: Clients.Client, msg: seq<Byte>, at: nat)
    ensures WatchOf(ReceiveOne(codec, c, msg, at)) == WatchOne(codec, WatchOf(c), msg)
  {
    hide ApplyAll, ShowAll, TakeResponse, WindowSignals;
    var signals := Receive(codec, c.proto, msg).1;
    ApplyAllView(c.conn, signals, at);
    match c.proto.state
    case Init =>
      ShowOne(ViewOf(c.conn), AppListReceived(codec.parseList(msg)));
    case AcceptingEvents =>
      var e := codec.parseEvent(msg);
      var answers := if e.response.Some? then TakeResponse(c.proto, e.response.value).1 else [];
      assert signals == WindowSignals(e) + answers;
      ShowAllAppend(ViewOf(c.conn), WindowSignals(e), answers);
      AnswersUnseen(c.proto, e, ShowAll(ViewOf(c.conn), WindowSignals(e)));
    case Stopped =>
      ShowNothing(ViewOf(c.conn));
  }

  lemma AnswersUnseen(p: Proto, e: Event, v: View)
    ensures ShowAll(v, if e.response.Some? then TakeResponse(p, e.response.value).1 else []) == v
    ensures e.response.Some? ==> TakeResponse(p, e.response.value).0.state == p.state
  {
    if e.response.Some? && e.response.value.reqId in p.pending {
      ShowOne(v, ResponseReceived(p.pending[e.response.value.reqId], e.response.value));
    }
  }

  lemma ShowNothing(v: View)
    ensures ShowAll(v, []) == v
  {
  }

  lemma {:induction false} ReceiveAllWatch(codec: Codec, c: Clients.Client, msgs: seq<seq<Byte>>, at: nat)
    ensures WatchOf(ReceiveAll(codec, c, msgs, at)) == WatchAll(codec, WatchOf(c), msgs)
    decreases |msgs|
  {
    hide ReceiveOne, WatchOne;
    if msgs != [] {
      ReceiveOneWatch(codec, c, msgs[0], at);
      ReceiveAllWatch(codec, ReceiveOne(codec, c, msgs[0], at), msgs[1..], at);
    }
  }

  lemma {:induction false} WatchAllAppend(codec: Codec, w: Watch, p: seq<seq<Byte>>, q: seq<seq<Byte>>)
    ensures WatchAll(codec, w, p + q) == WatchAll(codec, WatchAll(codec, w, p), q)
    decreases |p|
  {
    if p == [] {
      assert p + q == q;
    } else {
      assert (p + q)[1..] == p[1..] + q;
      WatchAllAppend(codec, WatchOne(codec, w, p[0]), p[1..], q);
    }
  }

  lemma ShowOne(v: View, s: Signal)
    ensures ShowAll(v, [s]) == Show(v, s)
  {
    var one: seq<Signal> := [s];
    assert one[1..] == [];
  }

  lemma WatchNote(codec: Codec, w: Watch, n: Note)
    requires codec.Lawful() && w.state == AcceptingEvents
    ensures WatchOne(codec, w, codec.eventBytes(NoteEvent(n))) == Watch(AcceptingEvents, Show(w.view, NoteSignal(n)))
  {
    var e := NoteEvent(n);
    assert codec.parseEvent(codec.eventBytes(e)) == e;
    assert WindowSignals(e) == [NoteSignal(n)];
    ShowOne(w.view, NoteSignal(n));
  }

  lemma {:induction false} WatchNotes(codec: Codec, w: Watch, notes: seq<Note>)
    requires codec.Lawful() && w.state == AcceptingEvents
    ensures WatchAll(codec, w, NotePayloads(codec, notes)) == Watch(AcceptingEvents, ShowAll(w.view, Signals(notes)))
    decreases |notes|
  {
    hide WatchOne;
    if notes != [] {
      assert NotePayloads(codec, notes)[1..] == NotePayloads(codec, notes[1..]);
      assert Signals(notes)[1..] == Signals(notes[1..]);
      WatchNote(codec, w, notes[0]);
      WatchNotes(codec, Watch(AcceptingEvents, Show(w.view, NoteSignal(notes[0]))), notes[1..]);
    }
  }

  /** A response shows nothing. */
  lemma WatchResponse(codec: Codec, w: Watch, r: Response)
    requires codec.Lawful() && w.state == AcceptingEvents
    ensures WatchOne(codec, w, codec.eventBytes(ResponseEvent(r))) == w
  {
    assert codec.parseEvent(codec.eventBytes(ResponseEvent(r))) == ResponseEvent(r);
    assert WindowSignals(ResponseEvent(r)) == [];
    ShowNothing(w.view);
  }

  lemma WatchSingle(codec: Codec, w: Watch, msg: seq<Byte>)
    ensures WatchAll(codec, w, [msg]) == WatchOne(codec, w, msg)
  {
    var one: seq<seq<Byte>> := [msg];
    assert one[1..] == [];
  }

  const NEW_WATCH := Watch(Init, View({}, {}, INVALID_ID))

  lemma WatchSnapshot(codec: Codec, s: Server)
    requires codec.Lawful()
    ensures WatchAll(codec, NEW_WATCH, Snapshot(codec, s))
         == Watch(AcceptingEvents,
                  ShowAll(NEW_WATCH.view, [AppListReceived(Applications(s.wins)), AppGotFocus(ToAppId(s.focus))]))
  {
    var list, focus := AppListReceived(Applications(s.wins)), AppGotFocus(ToAppId(s.focus));
    var snapshot: seq<seq<Byte>> := Snapshot(codec, s);
    assert codec.parseList(snapshot[0]) == Applications(s.wins);
    var two: seq<Signal> := [list, focus];
    assert two[1..] == [focus];
    var w := WatchOne(codec, NEW_WATCH, snapshot[0]);
    assert w == Watch(AcceptingEvents, Show(NEW_WATCH.view, list));
    WatchNote(codec, w, Note(s.focus, W_ONFOCUS));
    assert snapshot[1..] == [snapshot[1]];
    WatchSingle(codec, w, snapshot[1]);
    ShowOne(w.view, focus);
    assert ShowAll(NEW_WATCH.view, two) == ShowAll(w.view, two[1..]);
  }

  // ---------- what every action keeps ----------

  ghost predicate Streaming(codec: Codec, p: Peer) {
    && Framable(p.sent)
    && p.received + p.inflight == FrameAll(p.sent)
    && Scan(p.received).rest == p.unread && Scan(p.received).stuck == p.stuck
    && WatchOf(p.client) == WatchAll(codec, NEW_WATCH, Scan(p.received).frames)
  }

  /** Only the listing a client starts with can be an empty message. */
  ghost predicate Sendable(codec: Codec, states: seq<Server>, p: Peer) {
    && p.joined < |states| && |p.sent| >= 2
    && p.sent[0] == codec.listBytes(Applications(states[p.joined].wins))
    && forall i :: 0 < i < |p.sent| ==> p.sent[i] != []
  }

  /** Replaying all that was sent gives the server's present state. */
  ghost predicate Current(codec: Codec, states: seq<Server>, p: Peer) {
    && states != []
    && var w := WatchAll(codec, NEW_WATCH, p.sent);
       w.state == AcceptingEvents
       && Mirrors(w.view, states[|states| - 1], Announced(states, p.joined), Held(states, p.joined))
  }

  ghost predicate PeerInv(codec: Codec, states: seq<Server>, p: Peer) {
    Streaming(codec, p) && Sendable(codec, states, p) && Current(codec, states, p)
  }

  lemma {:induction false} DeliverKeeps(codec: Codec, states: seq<Server>, p: Peer, count: nat, at: nat)
    requires PeerInv(codec, states, p) && count <= |p.inflight|
    ensures PeerInv(codec, states, Delivered(codec, p, count, at))
  {
    hide Scan, Current, Sendable, FrameAll;
    var arrived := p.inflight[..count];
    var t := Scan(p.unread + arrived);
    assert p.received + arrived + p.inflight[count..] == p.received + p.inflight;
    ScanResumes(p.received, arrived);
    ReceiveAllWatch(codec, p.client, t.frames, at);
    WatchAllAppend(codec, NEW_WATCH, Scan(p.received).frames, t.frames);
    assert Sendable(codec, states, Delivered(codec, p, count, at)) by { SendableFrame(codec, states, p, count, at); }
    assert Current(codec, states, Delivered(codec, p, count, at)) by { CurrentFrame(codec, states, p, count, at); }
  }

  lemma SendableFrame(codec: Codec, states: seq<Server>, p: Peer, count: nat, at: nat)
    requires Sendable(codec, states, p) && count <= |p.inflight|
    ensures Sendable(codec, states, Delivered(codec, p, count, at))
  {
  }

  lemma CurrentFrame(codec: Codec, states: seq<Server>, p: Peer, count: nat, at: nat)
    requires Current(codec, states, p) && count <= |p.inflight|
    ensures Current(codec, states, Delivered(codec, p, count, at))
  {
  }

  lemma {:induction false} NotifyKeeps(codec: Codec, u: set<Handle>, states: seq<Server>, p: Peer, r: Round)
    requires codec.Lawful() && PeerInv(codec, states, p) && Ascending(r.listing)
    requires var s := states[|states| - 1];
             Faithful(u) && Covers(u, s) && Covers(u, NextServer(s, r)) && Ascending(s.wins)
    ensures var s := states[|states| - 1];
            PeerInv(codec, states + [NextServer(s, r)], Notified(codec, p, RoundNotes(s, r)))
  {
    hide Scan, RoundNotes, Mirrors, Announced, Held, NextServer, FrameAll;
    var s := states[|states| - 1];
    var notes := RoundNotes(s, r);
    var payloads := NotePayloads(codec, notes);
    var q, longer := Notified(codec, p, notes), states + [NextServer(s, r)];
    PayloadsFit(codec, notes);
    FrameAllAppend(p.sent, payloads);
    assert p.received + (p.inflight + FrameAll(payloads)) == p.received + p.inflight + FrameAll(payloads);
    assert Streaming(codec, q);
    assert Sendable(codec, longer, q);
    var w := WatchAll(codec, NEW_WATCH, p.sent);
    WatchAllAppend(codec, NEW_WATCH, p.sent, payloads);
    WatchNotes(codec, w, notes);
    RoundKeepsMirror(u, w.view, s, Announced(states, p.joined), Held(states, p.joined), r);
    HistoryStep(states, p.joined, r);
    assert Current(codec, longer, q);
  }

  lemma RespondKeeps(codec: Codec, states: seq<Server>, p: Peer, r: Response)
    requires codec.Lawful() && PeerInv(codec, states, p)
    ensures PeerInv(codec, states, Answered(codec, p, r))
  {
    hide Scan, Mirrors, Announced, Held, FrameAll, WatchOne;
    var q, payload := Answered(codec, p, r), codec.eventBytes(ResponseEvent(r));
    assert ResponseEvent(r) != EMPTY_EVENT;
    FrameAllSnoc(p.sent, payload);
    assert p.received + (p.inflight + Frame(payload)) == p.received + p.inflight + Frame(payload);
    var w := WatchAll(codec, NEW_WATCH, p.sent);
    WatchAllAppend(codec, NEW_WATCH, p.sent, [payload]);
    WatchSingle(codec, w, payload);
    WatchResponse(codec, w, r);
    assert Current(codec, states, q);
  }

  lemma AskKeeps(codec: Codec, states: seq<Server>, p: Peer, request: KeystrokeRequest)
    requires PeerInv(codec, states, p)
    ensures PeerInv(codec, states, Asked(p, request))
  {
    hide Scan, Mirrors, Announced, Held, FrameAll, WatchAll;
    assert WatchOf(Asked(p, request).client) == WatchOf(p.client);
  }

  lemma JoinStarts(codec: Codec, u: set<Handle>, s: Sys, at: nat)
    requires codec.Lawful() && s.states != [] && Fits(codec, s.states[|s.states| - 1].wins)
    requires Faithful(u) && Covers(u, s.states[|s.states| - 1])
    ensures PeerInv(codec, s.states, Joined(codec, s, at))
  {
    hide Mirrors, Announced, Held, FrameAll;
    var p, now := Joined(codec, s, at), s.states[|s.states| - 1];
    assert [] + FrameAll(p.sent) == FrameAll(p.sent);
    assert p.sent[1] != [] by {
      assert NoteEvent(Note(now.focus, W_ONFOCUS)) != EMPTY_EVENT;
    }
    WatchSnapshot(codec, now);
    SnapshotMirrors(u, NEW_WATCH.view, now);
    StartHistory(s.states, p.joined);
    assert ViewOf(p.client.conn) == NEW_WATCH.view;
  }

  /** The run keeps, for every client, what both ends agree on. */
  ghost predicate SysInv(codec: Codec, s: Sys) {
    && s.states != [] && Ascending(s.states[|s.states| - 1].wins)
    && forall i :: 0 <= i < |s.peers| ==> PeerInv(codec, s.states, s.peers[i])
  }

  ghost predicate AllCovered(u: set<Handle>, states: seq<Server>) {
    forall k :: 0 <= k < |states| ==> Covers(u, states[k])
  }

  lemma StepKeeps(codec: Codec, u: set<Handle>, s: Sys, a: Action)
    requires codec.Lawful() && SysInv(codec, s) && Enabled(codec, s, a)
    requires Faithful(u) && AllCovered(u, Do(codec, s, a).states)
    ensures SysInv(codec, Do(codec, s, a))
  {
    hide PeerInv, Covers, Ascending, RoundNotes;
    var t := Do(codec, s, a);
    var n := |s.states|;
    assert t.states[n - 1] == s.states[n - 1];
    match a
    case Poll(round) =>
      assert t.states[n] == NextServer(s.states[n - 1], round);
      forall i | 0 <= i < |t.peers|
        ensures PeerInv(codec, t.states, t.peers[i])
      {
        assert PeerInv(codec, s.states, s.peers[i]);
        NotifyKeeps(codec, u, s.states, s.peers[i], round);
      }
    case Join(at) =>
      JoinStarts(codec, u, s, at);
    case Deliver(i, count, at) =>
      DeliverKeeps(codec, s.states, s.peers[i], count, at);
    case Ask(i, request) =>
      AskKeeps(codec, s.states, s.peers[i], request);
    case Respond(i, response) =>
      RespondKeeps(codec, s.states, s.peers[i], response);
  }

  /** `t` comes after `s`: rounds, clients and messages are only added. */
  ghost predicate Extends(s: Sys, t: Sys) {
    && s.states <= t.states && |s.peers| <= |t.peers|
    && forall i :: 0 <= i < |s.peers| ==>
         s.peers[i].sent <= t.peers[i].sent && s.peers[i].joined == t.peers[i].joined
  }

  lemma StepExtends(codec: Codec, s: Sys, a: Action)
    requires codec.Lawful() && Enabled(codec, s, a)
    ensures Extends(s, Do(codec, s, a))
  {
    hide Codec.Lawful, RoundNotes, Scan, FrameAll;
  }

  lemma EarlierCovered(u: set<Handle>, s: Sys, t: Sys)
    requires Extends(s, t) && AllCovered(u, t.states)
    ensures AllCovered(u, s.states)
  {
    assert forall k :: 0 <= k < |s.states| ==> t.states[k] == s.states[k];
  }

  lemma {:induction false} RunKeeps(codec: Codec, u: set<Handle>, start: Server, actions: seq<Action>)
    requires codec.Lawful() && Possible(codec, start, actions) && Ascending(start.wins)
    requires Faithful(u) && AllCovered(u, Run(codec, start, actions).states)
    ensures SysInv(codec, Run(codec, start, actions))
    decreases |actions|
  {
    hide SysInv, Do, AllCovered, Enabled, Extends;
    if actions == [] {
      assert SysInv(codec, Sys([start], [])) by { StartKeeps(codec, start); }
    } else {
      var before, last := actions[..|actions| - 1], actions[|actions| - 1];
      var s := Run(codec, start, before);
      StepExtends(codec, s, last);
      EarlierCovered(u, s, Do(codec, s, last));
      RunKeeps(codec, u, start, before);
      StepKeeps(codec, u, s, last);
    }
  }

  lemma StartKeeps(codec: Codec, start: Server)
    requires Ascending(start.wins)
    ensures SysInv(codec, Sys([start], []))
  {
  }

  /** Some window was listed when the client joined. */
  ghost predicate SawWindows(s: Sys, p: Peer) {
    p.joined < |s.states| && s.states[p.joined].wins != []
  }

  /**
    What a client that joined after round `joined` should show of the server: exactly the
    listed windows; as focused application the foreground window if that was listed when it
    was last announced, else none; and an application lit exactly if it is the foreground
    window and has been listed without a gap since the later of its becoming that and the join.
  */
  ghost predicate Reflects(c: Conn, states: seq<Server>, joined: nat) {
    && states != []
    && var server := states[|states| - 1];
       && c.apps.Keys == Ids(server.wins)
       && c.focusedApp == (if Announced(states, joined) then ToAppId(server.focus) else INVALID_ID)
       && forall id :: id in c.apps ==> (c.apps[id].focused <==> id == ToAppId(server.focus) && Held(states, joined))
  }

  lemma MirrorReflects(c: Conn, states: seq<Server>, joined: nat)
    requires states != []
    requires Mirrors(ViewOf(c), states[|states| - 1], Announced(states, joined), Held(states, joined))
    ensures Reflects(c, states, joined)
  {
    hide Held, Announced;
    var v := ViewOf(c);
    assert forall id :: id in c.apps ==> (c.apps[id].focused <==> id in v.lit);
  }

  lemma {:induction false} RunExtends(codec: Codec, start: Server, actions: seq<Action>, later: seq<Action>)
    requires codec.Lawful() && Possible(codec, start, actions + later)
    ensures Possible(codec, start, actions)
    ensures Extends(Run(codec, start, actions), Run(codec, start, actions + later))
    decreases |later|
  {
    hide Do, Enabled, Codec.Lawful;
    if later == [] {
      assert actions + later == actions;
    } else {
      var before, last := later[..|later| - 1], later[|later| - 1];
      assert (actions + later)[..|actions + later| - 1] == actions + before;
      RunExtends(codec, start, actions, before);
      StepExtends(codec, Run(codec, start, actions + before), last);
    }
  }

  /**
    However far a client lags behind: whenever it has been shown exactly what the server had
    told it by some earlier moment, it reflects the server as of that moment.
  */
  lemma {:induction false} EveryDeliveredRound(
    codec: Codec, u: set<Handle>, start: Server, actions: seq<Action>, later: seq<Action>, i: nat)
    requires codec.Lawful() && Possible(codec, start, actions + later) && Ascending(start.wins)
    requires Faithful(u) && AllCovered(u, Run(codec, start, actions + later).states)
    requires Possible(codec, start, actions)
    requires var s := Run(codec, start, actions); i < |s.peers| && SawWindows(s, s.peers[i])
    requires var t := Run(codec, start, actions + later);
             i < |t.peers| && |Scan(t.peers[i].received).frames| == |Run(codec, start, actions).peers[i].sent|
    ensures var s, t := Run(codec, start, actions), Run(codec, start, actions + later);
            !t.peers[i].stuck && Reflects(t.peers[i].client.conn, s.states, s.peers[i].joined)
  {
    hide Held, Announced, Scan, Reflects, Codec.Lawful, Extends, AllCovered, PeerInv, SawWindows, Run, Possible;
    var s, t := Run(codec, start, actions), Run(codec, start, actions + later);
    RunExtends(codec, start, actions, later);
    EarlierCovered(u, s, t);
    RunKeeps(codec, u, start, actions);
    RunKeeps(codec, u, start, actions + later);
    ShowsEarlier(codec, s, t, i);
  }

  lemma ShowsEarlier(codec: Codec, s: Sys, t: Sys, i: nat)
    requires codec.Lawful() && Extends(s, t) && SysInv(codec, s) && SysInv(codec, t)
    requires i < |s.peers| && SawWindows(s, s.peers[i])
    requires |Scan(t.peers[i].received).frames| == |s.peers[i].sent|
    ensures !t.peers[i].stuck && Reflects(t.peers[i].client.conn, s.states, s.peers[i].joined)
  {
    hide Held, Announced, Mirrors, Scan, FrameAll, WatchAll, Reflects, Codec.Lawful;
    var p, q := s.peers[i], t.peers[i];
    assert PeerInv(codec, s.states, p) && PeerInv(codec, t.states, q);
    StillSaw(s, t, i);
    ShownPrefix(codec, t.states, q);
    assert q.sent[..|p.sent|] == p.sent;
    MirrorReflects(q.client.conn, s.states, p.joined);
  }

  lemma StillSaw(s: Sys, t: Sys, i: nat)
    requires Extends(s, t) && i < |s.peers| && SawWindows(s, s.peers[i])
    ensures SawWindows(t, t.peers[i])
  {
  }

  /** What such a client was shown is a first part of what it was sent. */
  lemma ShownPrefix(codec: Codec, states: seq<Server>, p: Peer)
    requires codec.Lawful() && PeerInv(codec, states, p) && states[p.joined].wins != []
    ensures var k := |Scan(p.received).frames|;
            && !p.stuck && k <= |p.sent|
            && WatchOf(p.client) == WatchAll(codec, NEW_WATCH, p.sent[..k])
            && (k < |p.sent| ==> |p.received| < |FrameAll(p.sent[..k + 1])|)
            && (p.inflight == [] ==> k == |p.sent|)
  {
    hide Scan, FrameAll, WatchAll, Current;
    assert Applications(states[p.joined].wins) != [];
    assert [] !in p.sent;
    ScanPrefix(p.sent, |p.received|);
    assert FrameAll(p.sent)[..|p.received|] == p.received;
    if p.inflight == [] {
      assert p.received + [] == p.received;
      DecodeUndoesEncode(p.sent);
    }
  }

  /**
    Convergence. In every run, a client that joined while some window was listed reflects
    the server's present state once it has been delivered everything.
  */
  lemma {:induction false} Convergence(codec: Codec, u: set<Handle>, start: Server, actions: seq<Action>, i: nat)
    requires codec.Lawful() && Possible(codec, start, actions) && Ascending(start.wins)
    requires Faithful(u) && AllCovered(u, Run(codec, start, actions).states)
    requires var s := Run(codec, start, actions);
             i < |s.peers| && s.peers[i].inflight == [] && SawWindows(s, s.peers[i])
    ensures var s := Run(codec, start, actions); var p := s.peers[i];
            !p.stuck && Reflects(p.client.conn, s.states, p.joined)
  {
    hide Scan, FrameAll, Reflects, Held, Announced, Run, Possible, Current, Codec.Lawful;
    RunKeeps(codec, u, start, actions);
    var s := Run(codec, start, actions);
    assert PeerInv(codec, s.states, s.peers[i]);
    ShownPrefix(codec, s.states, s.peers[i]);
    assert actions + [] == actions;
    EveryDeliveredRound(codec, u, start, actions, [], i);
  }

  /**
    A client that joined while no window was listed was sent an empty message first, and
    once everything is delivered its decoder is stuck and it knows nothing. So a client
    that got everything is stuck exactly if no window was listed when it joined.
  */
  lemma {:induction false} EmptyJoinHangs(codec: Codec, u: set<Handle>, start: Server, actions: seq<Action>, i: nat)
    requires codec.Lawful() && Possible(codec, start, actions) && Ascending(start.wins)
    requires Faithful(u) && AllCovered(u, Run(codec, start, actions).states)
    requires var s := Run(codec, start, actions); i < |s.peers| && s.peers[i].inflight == []
    ensures var s := Run(codec, start, actions); var p := s.peers[i];
            && (p.stuck <==> !SawWindows(s, p))
            && (p.stuck ==> p.client.conn.apps.Keys == {} && p.client.proto.state == Init)
  {
    hide Held, Announced, Scan, FrameAll;
    RunKeeps(codec, u, start, actions);
    var s := Run(codec, start, actions);
    var p := s.peers[i];
    assert PeerInv(codec, s.states, p);
    assert p.received + [] == p.received;
    var wins := s.states[p.joined].wins;
    if wins != [] {
      Convergence(codec, u, start, actions, i);
    } else {
      assert Applications(wins) == [];
      EmptyFirstFrame(p.sent);
    }
  }

  lemma EmptyFirstFrame(sent: seq<seq<Byte>>)
    requires Framable(sent) && |sent| >= 2 && sent[0] == []
    ensures Scan(FrameAll(sent)).frames == [] && Scan(FrameAll(sent)).stuck
  {
    assert forall i :: 0 <= i < |sent[1..]| ==> sent[1..][i] == sent[i + 1];
    ScanEmptyFrame(FrameAll(sent[1..]));
    assert |FrameAll(sent[1..])| >= |Frame(sent[1])|;
  }

  /**
    At every moment, delivered or not, such a client has been shown a prefix of what the
    server told it, in order, and no complete message is missing from that prefix.
  */
  lemma {:induction false} NeverOutOfOrder(codec: Codec, u: set<Handle>, start: Server, actions: seq<Action>, i: nat)
    requires codec.Lawful() && Possible(codec, start, actions) && Ascending(start.wins)
    requires Faithful(u) && AllCovered(u, Run(codec, start, actions).states)
    requires var s := Run(codec, start, actions); i < |s.peers| && SawWindows(s, s.peers[i])
    ensures var p := Run(codec, start, actions).peers[i];
            Framable(p.sent) && !p.stuck &&
            exists k :: 0 <= k <= |p.sent|
              && WatchOf(p.client) == WatchAll(codec, NEW_WATCH, p.sent[..k])
              && (k < |p.sent| ==> |p.received| < |FrameAll(p.sent[..k + 1])|)
  {
    hide Held, Announced, Scan, FrameAll, WatchAll;
    RunKeeps(codec, u, start, actions);
    var s := Run(codec, start, actions);
    var p := s.peers[i];
    assert PeerInv(codec, s.states, p);
    ShownPrefix(codec, s.states, p);
  }
}
