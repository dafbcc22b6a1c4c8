/**
  No run of the whole system trips the client's assertion on application ids: what a client
  is delivered is always acceptable to it.
*/
module Assertions {
  import opened Wire
  import opened Framing
  import opened Mirror
  import Protocols
  import opened Connections
  import opened MessageStreams
  import opened Clients
  import opened ClientLists
  import opened WindowsLists
  import opened Replication
  import opened EndToEnd

  /** The state some messages leave a protocol object in. */
  function StateAfter(state: Protocols.State, n: nat): Protocols.State {
    if n == 0 then state else NextState(state)
  }

  lemma {:induction false} AcceptableAppend(
    codec: Codec, state: Protocols.State, p: seq<seq<Byte>>, q: seq<seq<Byte>>)
    ensures AcceptableMessages(codec, state, p + q)
       <==> AcceptableMessages(codec, state, p) && AcceptableMessages(codec, StateAfter(state, |p|), q)
    decreases |p|
  {
    hide AcceptableMessage;
    if p == [] {
      assert p + q == q;
    } else {
      assert (p + q)[1..] == p[1..] + q;
      AcceptableAppend(codec, NextState(state), p[1..], q);
    }
  }

  lemma {:induction false} AcceptableNotes(codec: Codec, notes: seq<Note>)
    requires codec.Lawful() && forall n :: n in notes && n.status == W_OPENED ==> n.window != INVALID_ID
    ensures AcceptableMessages(codec, Protocols.AcceptingEvents, NotePayloads(codec, notes))
    decreases |notes|
  {
    if notes != [] {
      assert notes[0] in notes && NotePayloads(codec, notes)[1..] == NotePayloads(codec, notes[1..]);
      assert codec.parseEvent(codec.eventBytes(NoteEvent(notes[0]))) == NoteEvent(notes[0]);
      AcceptableNotes(codec, notes[1..]);
    }
  }

  lemma AcceptableOne(codec: Codec, state: Protocols.State, msg: seq<Byte>)
    ensures AcceptableMessages(codec, state, [msg]) <==> AcceptableMessage(codec, state, msg)
  {
    var one: seq<seq<Byte>> := [msg];
    assert one[1..] == [];
  }

  ghost predicate Harmless(codec: Codec, p: Peer) {
    p.sent != [] && AcceptableMessages(codec, Protocols.Init, p.sent)
  }

  lemma NotifiedHarmless(codec: Codec, u: set<Handle>, s: Server, p: Peer, r: Round)
    requires codec.Lawful() && Harmless(codec, p) && Faithful(u) && Covers(u, NextServer(s, r))
    requires Ascending(s.wins) && Ascending(r.listing)
    ensures Harmless(codec, Notified(codec, p, RoundNotes(s, r)))
  {
    hide RoundNotes, AcceptableMessages, NotePayloads;
    var notes := RoundNotes(s, r);
    RoundAnnouncesChanges(s, r);
    forall n | n in notes && n.status == W_OPENED
      ensures n.window != INVALID_ID
    {
      assert n == Note(n.window, W_OPENED);
      assert n.window in u;
    }
    AcceptableNotes(codec, notes);
    AcceptableAppend(codec, Protocols.Init, p.sent, NotePayloads(codec, notes));
  }

  lemma JoinedHarmless(codec: Codec, u: set<Handle>, s: Sys, at: nat)
    requires codec.Lawful() && s.states != [] && Fits(codec, s.states[|s.states| - 1].wins)
    requires Faithful(u) && Covers(u, s.states[|s.states| - 1])
    ensures Harmless(codec, Joined(codec, s, at))
  {
    hide AcceptableMessages, Faithful;
    var now := s.states[|s.states| - 1];
    var list := codec.listBytes(Applications(now.wins));
    var focus := codec.eventBytes(NoteEvent(Note(now.focus, W_ONFOCUS)));
    ListAcceptable(codec, u, now.wins);
    FocusAcceptable(codec, now.focus);
    AcceptableOne(codec, Protocols.Init, list);
    AcceptableOne(codec, Protocols.AcceptingEvents, focus);
    AcceptableAppend(codec, Protocols.Init, [list], [focus]);
    assert Snapshot(codec, now) == [list] + [focus];
  }

  lemma ListAcceptable(codec: Codec, u: set<Handle>, wins: seq<Handle>)
    requires codec.Lawful() && Faithful(u) && forall h :: h in wins ==> h in u
    ensures AcceptableMessage(codec, Protocols.Init, codec.listBytes(Applications(wins)))
  {
    var apps := Applications(wins);
    assert codec.parseList(codec.listBytes(apps)) == apps;
    forall m | m in apps
      ensures m.id != INVALID_ID
    {
      var i :| 0 <= i < |apps| && apps[i] == m;
      assert wins[i] in u;
    }
  }

  lemma FocusAcceptable(codec: Codec, focus: Handle)
    requires codec.Lawful()
    ensures AcceptableMessage(codec, Protocols.AcceptingEvents, codec.eventBytes(NoteEvent(Note(focus, W_ONFOCUS))))
  {
    var e := NoteEvent(Note(focus, W_ONFOCUS));
    assert codec.parseEvent(codec.eventBytes(e)) == e;
  }

  lemma AnsweredHarmless(codec: Codec, p: Peer, r: Response)
    requires codec.Lawful() && Harmless(codec, p)
    ensures Harmless(codec, Answered(codec, p, r))
  {
    hide AcceptableMessages;
    var payload := codec.eventBytes(ResponseEvent(r));
    assert codec.parseEvent(payload) == ResponseEvent(r);
    AcceptableOne(codec, Protocols.AcceptingEvents, payload);
    AcceptableAppend(codec, Protocols.Init, p.sent, [payload]);
  }

  lemma {:induction false} RunHarmless(codec: Codec, u: set<Handle>, start: Server, actions: seq<Action>)
    requires codec.Lawful() && Possible(codec, start, actions) && Ascending(start.wins)
    requires Faithful(u) && AllCovered(u, Run(codec, start, actions).states)
    ensures forall p :: p in Run(codec, start, actions).peers ==> Harmless(codec, p)
    decreases |actions|
  {
    hide Do, AllCovered, Enabled, Extends, Harmless, PeerInv, Faithful, Ascending;
    if actions != [] {
      var before, last := actions[..|actions| - 1], actions[|actions| - 1];
      var s := Run(codec, start, before);
      StepExtends(codec, s, last);
      EarlierCovered(u, s, Do(codec, s, last));
      RunHarmless(codec, u, start, before);
      RunKeeps(codec, u, start, before);
      StepHarmless(codec, u, s, last);
    }
  }

  lemma StepHarmless(codec: Codec, u: set<Handle>, s: Sys, a: Action)
    requires codec.Lawful() && Enabled(codec, s, a) && s.states != [] && Ascending(s.states[|s.states| - 1].wins)
    requires Faithful(u) && AllCovered(u, Do(codec, s, a).states)
    requires forall p :: p in s.peers ==> Harmless(codec, p)
    ensures forall p :: p in Do(codec, s, a).peers ==> Harmless(codec, p)
  {
    hide Faithful, Covers, Ascending, AcceptableMessages, Notified, Joined, Delivered, Answered, RoundNotes;
    var t, now := Do(codec, s, a), s.states[|s.states| - 1];
    forall p | p in t.peers
      ensures Harmless(codec, p)
    {
      var k :| 0 <= k < |t.peers| && t.peers[k] == p;
      assert k < |s.peers| ==> Harmless(codec, s.peers[k]);
      match a
      case Poll(round) =>
        assert t.states[|s.states|] == NextServer(now, round);
        NotifiedHarmless(codec, u, now, s.peers[k], round);
      case Join(at) =>
        assert t.states[|s.states| - 1] == now;
        JoinedHarmless(codec, u, s, at);
      case Deliver(i, count, at) => DeliveredSent(codec, s.peers[i], count, at);
      case Ask(i, request) =>
      case Respond(i, response) => AnsweredHarmless(codec, s.peers[i], response);
    }
  }

  lemma DeliveredSent(codec: Codec, p: Peer, count: nat, at: nat)
    requires count <= |p.inflight|
    ensures Delivered(codec, p, count, at).sent == p.sent
  {
  }

  /** What is complete after any arrival is a first part of what was sent. */
  lemma ShownFirst(codec: Codec, states: seq<Server>, p: Peer, seen: seq<Byte>, unseen: seq<Byte>)
    requires codec.Lawful() && PeerInv(codec, states, p) && seen + unseen == FrameAll(p.sent)
    ensures Scan(seen).frames <= p.sent
  {
    hide Current, WatchAll;
    if p.sent[0] == [] {
      EmptyInFront(p.sent, seen, unseen);
    } else {
      assert [] !in p.sent;
      PrefixInOrder(p.sent, seen, unseen);
    }
  }

  lemma EmptyInFront(sent: seq<seq<Byte>>, seen: seq<Byte>, unseen: seq<Byte>)
    requires Framable(sent) && sent != [] && sent[0] == [] && seen + unseen == FrameAll(sent)
    ensures Scan(seen).frames == []
  {
    hide ToBigEndian, FromBigEndian;
    if |seen| >= HEADER {
      BigEndianRoundTrip(0);
      assert (seen + unseen)[..HEADER] == seen[..HEADER];
      assert FrameAll(sent)[..HEADER] == ToBigEndian(0);
    }
  }

  lemma {:induction false} WatchState(codec: Codec, w: Watch, msgs: seq<seq<Byte>>)
    ensures WatchAll(codec, w, msgs).state == StateAfter(w.state, |msgs|)
    decreases |msgs|
  {
    if msgs != [] {
      WatchState(codec, WatchOne(codec, w, msgs[0]), msgs[1..]);
    }
  }

  /**
    In every run, the messages that any further delivery completes are acceptable to the
    client in the state it is in, whatever it joined and whatever it asked.
  */
  lemma {:induction false} DeliveriesAcceptable(
    codec: Codec, u: set<Handle>, start: Server, actions: seq<Action>, i: nat, count: nat)
    requires codec.Lawful() && Possible(codec, start, actions) && Ascending(start.wins)
    requires Faithful(u) && AllCovered(u, Run(codec, start, actions).states)
    requires var s := Run(codec, start, actions); i < |s.peers| && count <= |s.peers[i].inflight|
    ensures var p := Run(codec, start, actions).peers[i];
            AcceptableMessages(codec, p.client.proto.state, Scan(p.unread + p.inflight[..count]).frames)
  {
    hide Run, Possible, AcceptableMessages, Scan, Sendable, Current, WatchAll, FrameAll, Codec.Lawful;
    RunKeeps(codec, u, start, actions);
    RunHarmless(codec, u, start, actions);
    var s := Run(codec, start, actions);
    var p := s.peers[i];
    assert p in s.peers && PeerInv(codec, s.states, p);
    var arrived, old_ := p.inflight[..count], Scan(p.received).frames;
    var new_ := Scan(p.unread + arrived).frames;
    assert p.received + arrived + p.inflight[count..] == FrameAll(p.sent);
    ShownFirst(codec, s.states, p, p.received + arrived, p.inflight[count..]);
    ScanResumes(p.received, arrived);
    assert p.sent == old_ + new_ + p.sent[|old_ + new_|..];
    AcceptableAppend(codec, Protocols.Init, old_ + new_, p.sent[|old_ + new_|..]);
    AcceptableAppend(codec, Protocols.Init, old_, new_);
    WatchState(codec, NEW_WATCH, old_);
  }

  /**
    So a decoder that holds what is unread and what arrives meets what `SocketReadyRead` asks,
    whichever of its reads fail.
  */
  lemma {:induction false} SlotAcceptable(
    codec: Codec, u: set<Handle>, start: Server, actions: seq<Action>, i: nat, count: nat, d: Decoder)
    requires codec.Lawful() && Possible(codec, start, actions) && Ascending(start.wins)
    requires Faithful(u) && AllCovered(u, Run(codec, start, actions).states)
    requires var s := Run(codec, start, actions); i < |s.peers| && count <= |s.peers[i].inflight|
    requires var p := Run(codec, start, actions).peers[i]; d.Ok() && d.Flat() == p.unread + p.inflight[..count]
    ensures AcceptableMessages(codec, Run(codec, start, actions).peers[i].client.proto.state, Pass(d).received)
  {
    hide Run, Possible, AcceptableMessages, Scan, Pass, Codec.Lawful, Accounts, FrameAll, FlatBytes;
    DeliveriesAcceptable(codec, u, start, actions, i, count);
    PassMeans(d);
    var state := Run(codec, start, actions).peers[i].client.proto.state;
    var shown, all := Pass(d).received, Scan(d.Flat()).frames;
    assert all == shown + all[|shown|..];
    AcceptableAppend(codec, state, shown, all[|shown|..]);
  }
}
