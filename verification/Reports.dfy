/**
  What a client reports as a response is a response the server gave: announcing windows and
  greeting a new client never answers a request.
*/
module Reports {
  import opened Wire
  import opened Framing
  import opened Mirror
  import Protocols
  import opened Clients
  import opened ClientLists
  import opened WindowsLists
  import opened Replication
  import opened EndToEnd
  import opened Assertions

  // ---------- what one message does to the protocol object ----------

  lemma NoteReceived(codec: Codec, p: Protocols.Proto, n: Note)
    requires codec.Lawful() && p.state == Protocols.AcceptingEvents
    ensures Protocols.Receive(codec, p, codec.eventBytes(NoteEvent(n))) == (p, [NoteSignal(n)])
  {
    var e := NoteEvent(n);
    assert codec.parseEvent(codec.eventBytes(e)) == e;
    assert Protocols.WindowSignals(e) + [] == [NoteSignal(n)];
  }

  /** The notes of any rounds give exactly their signals, and leave the table of pending requests alone. */
  lemma {:induction false} NotesReceived(codec: Codec, p: Protocols.Proto, notes: seq<Note>)
    requires codec.Lawful() && p.state == Protocols.AcceptingEvents
    ensures Protocols.ReceiveEach(codec, p, NotePayloads(codec, notes)) == (p, Signals(notes))
    decreases |notes|
  {
    hide Protocols.Receive;
    if notes != [] {
      assert NotePayloads(codec, notes)[1..] == NotePayloads(codec, notes[1..]);
      assert Signals(notes) == [NoteSignal(notes[0])] + Signals(notes[1..]);
      NoteReceived(codec, p, notes[0]);
      NotesReceived(codec, p, notes[1..]);
    }
  }

  /** So does what a client gets when it joins: the listing, and then the focus. */
  lemma SnapshotReceived(codec: Codec, p: Protocols.Proto, s: Server)
    requires codec.Lawful() && p.state == Protocols.Init
    ensures Protocols.ReceiveEach(codec, p, Snapshot(codec, s))
         == (p.(state := Protocols.AcceptingEvents),
             [AppListReceived(Applications(s.wins)), AppGotFocus(ToAppId(s.focus))])
  {
    var snapshot: seq<seq<Byte>> := Snapshot(codec, s);
    var focus := Note(s.focus, W_ONFOCUS);
    var q := p.(state := Protocols.AcceptingEvents);
    assert codec.parseList(snapshot[0]) == Applications(s.wins);
    assert snapshot[1..] == NotePayloads(codec, [focus]);
    NotesReceived(codec, q, [focus]);
    assert Signals([focus]) == [AppGotFocus(ToAppId(s.focus))];
    var list := AppListReceived(Applications(s.wins));
    assert Protocols.Receive(codec, p, snapshot[0]) == (q, [list]);
    assert [list] + Signals([focus]) == [list, AppGotFocus(ToAppId(s.focus))];
  }

  // ---------- over runs ----------

  function ResponseIn(codec: Codec, msg: seq<Byte>): seq<Response> {
    var r := codec.parseEvent(msg).response;
    if r.Some? then [r.value] else []
  }

  function ResponsesIn(codec: Codec, msgs: seq<seq<Byte>>): seq<Response>
    decreases |msgs|
  {
    if msgs == [] then [] else ResponseIn(codec, msgs[0]) + ResponsesIn(codec, msgs[1..])
  }

  lemma {:induction false} ResponsesInAppend(codec: Codec, p: seq<seq<Byte>>, q: seq<seq<Byte>>)
    ensures ResponsesIn(codec, p + q) == ResponsesIn(codec, p) + ResponsesIn(codec, q)
    decreases |p|
  {
    hide ResponseIn;
    if p == [] {
      assert p + q == q;
    } else {
      assert (p + q)[1..] == p[1..] + q;
      ResponsesInAppend(codec, p[1..], q);
    }
  }

  lemma {:induction false} NotesAnswerNothing(codec: Codec, notes: seq<Note>)
    requires codec.Lawful()
    ensures ResponsesIn(codec, NotePayloads(codec, notes)) == []
    decreases |notes|
  {
    if notes != [] {
      assert NotePayloads(codec, notes)[1..] == NotePayloads(codec, notes[1..]);
      assert codec.parseEvent(codec.eventBytes(NoteEvent(notes[0]))) == NoteEvent(notes[0]);
      NotesAnswerNothing(codec, notes[1..]);
    }
  }

  /** The responses behind the listing are those the server gave; what was reported is among them. */
  ghost predicate Honest(codec: Codec, p: Peer) {
    && p.sent != [] && ResponsesIn(codec, p.sent[1..]) == p.answers
    && forall r :: r in p.reported ==> r in p.answers
  }

  lemma {:induction false} ResponsesOfAppend(a: seq<Signal>, b: seq<Signal>)
    ensures ResponsesOf(a + b) == ResponsesOf(a) + ResponsesOf(b)
    decreases |a|
  {
    if a == [] {
      assert a + b == b;
    } else {
      assert (a + b)[0] == a[0] && (a + b)[1..] == a[1..] + b;
      ResponsesOfAppend(a[1..], b);
      var first := if a[0].ResponseReceived? then [a[0].response] else [];
      assert first + (ResponsesOf(a[1..]) + ResponsesOf(b)) == first + ResponsesOf(a[1..]) + ResponsesOf(b);
    }
  }

  /** A client reports only responses that are in events it received. */
  lemma {:induction false} ReportsReceived(codec: Codec, p: Protocols.Proto, msgs: seq<seq<Byte>>, r: Response)
    requires r in ResponsesOf(Protocols.ReceiveEach(codec, p, msgs).1)
    ensures msgs != []
    ensures r in ResponsesIn(codec, if p.state == Protocols.Init then msgs[1..] else msgs)
    decreases |msgs|
  {
    hide ResponseIn;
    var (q, signals) := Protocols.Receive(codec, p, msgs[0]);
    var (_, more) := Protocols.ReceiveEach(codec, q, msgs[1..]);
    ResponsesOfAppend(signals, more);
    ReceiveState(codec, p, msgs[0]);
    OneReport(codec, p, msgs[0]);
    if r in ResponsesOf(more) {
      ReportsReceived(codec, q, msgs[1..], r);
    }
  }

  lemma OneReport(codec: Codec, p: Protocols.Proto, msg: seq<Byte>)
    ensures var signals := Protocols.Receive(codec, p, msg).1;
            forall r :: r in ResponsesOf(signals) ==>
              p.state == Protocols.AcceptingEvents && r in ResponseIn(codec, msg)
  {
    var signals := Protocols.Receive(codec, p, msg).1;
    match p.state
    case Init =>
      assert signals == [AppListReceived(codec.parseList(msg))] && signals[1..] == [];
    case Stopped =>
    case AcceptingEvents =>
      var e := codec.parseEvent(msg);
      var answers := if e.response.Some? then Protocols.TakeResponse(p, e.response.value).1 else [];
      assert signals == Protocols.WindowSignals(e) + answers;
      ResponsesOfAppend(Protocols.WindowSignals(e), answers);
      WindowsAreNoResponses(e);
      if answers != [] {
        assert answers[1..] == [];
      }
  }

  lemma WindowsAreNoResponses(e: Event)
    ensures ResponsesOf(Protocols.WindowSignals(e)) == []
  {
    var created: seq<Signal> := if e.created.Some? then [AppCreated(e.created.value)] else [];
    var destroyed: seq<Signal> := if e.destroyed.Some? then [AppDestroyed(ToAppId(e.destroyed.value))] else [];
    var focused: seq<Signal> := if e.gotFocus.Some? then [AppGotFocus(ToAppId(e.gotFocus.value))] else [];
    assert Protocols.WindowSignals(e) == created + destroyed + focused;
    ResponsesOfAppend(created + destroyed, focused);
    ResponsesOfAppend(created, destroyed);
    assert created != [] ==> created[1..] == [];
    assert destroyed != [] ==> destroyed[1..] == [];
    assert focused != [] ==> focused[1..] == [];
  }

  lemma NotifiedHonest(codec: Codec, p: Peer, notes: seq<Note>)
    requires codec.Lawful() && Honest(codec, p)
    ensures Honest(codec, Notified(codec, p, notes))
  {
    hide ResponsesIn, NotePayloads;
    var payloads := NotePayloads(codec, notes);
    NotesAnswerNothing(codec, notes);
    ResponsesInAppend(codec, p.sent[1..], payloads);
    assert (p.sent + payloads)[1..] == p.sent[1..] + payloads;
  }

  lemma JoinedHonest(codec: Codec, s: Sys, at: nat)
    requires codec.Lawful() && s.states != [] && Fits(codec, s.states[|s.states| - 1].wins)
    ensures Honest(codec, Joined(codec, s, at))
  {
    hide ResponsesIn;
    var now := s.states[|s.states| - 1];
    var focus := [Note(now.focus, W_ONFOCUS)];
    NotesAnswerNothing(codec, focus);
    assert Snapshot(codec, now)[1..] == NotePayloads(codec, focus);
  }

  lemma AnsweredHonest(codec: Codec, p: Peer, r: Response)
    requires codec.Lawful() && Honest(codec, p)
    ensures Honest(codec, Answered(codec, p, r))
  {
    var payload := codec.eventBytes(ResponseEvent(r));
    assert codec.parseEvent(payload) == ResponseEvent(r);
    var one: seq<seq<Byte>> := [payload];
    assert one[1..] == [] && ResponsesIn(codec, one) == [r];
    ResponsesInAppend(codec, p.sent[1..], one);
    assert (p.sent + one)[1..] == p.sent[1..] + one;
  }

  lemma DeliveredHonest(codec: Codec, states: seq<Server>, p: Peer, count: nat, at: nat)
    requires codec.Lawful() && Honest(codec, p) && PeerInv(codec, states, p) && count <= |p.inflight|
    ensures Honest(codec, Delivered(codec, p, count, at))
  {
    hide Scan, ResponsesIn, Sendable, Current, WatchAll, FrameAll, Codec.Lawful, Protocols.ReceiveEach, ResponsesOf;
    var arrived, old_ := p.inflight[..count], Scan(p.received).frames;
    var new_ := Scan(p.unread + arrived).frames;
    assert p.received + arrived + p.inflight[count..] == FrameAll(p.sent);
    ShownFirst(codec, states, p, p.received + arrived, p.inflight[count..]);
    ScanResumes(p.received, arrived);
    WatchState(codec, NEW_WATCH, old_);
    var rest := p.sent[|old_ + new_|..];
    assert p.sent == old_ + new_ + rest;
    var reports := ResponsesOf(Protocols.ReceiveEach(codec, p.client.proto, new_).1);
    forall r | r in reports
      ensures r in p.answers
    {
      ReportsReceived(codec, p.client.proto, new_, r);
      if old_ == [] {
        ResponsesInAppend(codec, new_[1..], rest);
        assert p.sent[1..] == new_[1..] + rest;
      } else {
        ResponsesInAppend(codec, old_[1..], new_);
        ResponsesInAppend(codec, old_[1..] + new_, rest);
        assert p.sent[1..] == old_[1..] + new_ + rest;
      }
    }
  }

  lemma StepHonest(codec: Codec, s: Sys, a: Action)
    requires codec.Lawful() && Enabled(codec, s, a) && SysInv(codec, s)
    requires forall p :: p in s.peers ==> Honest(codec, p)
    ensures forall p :: p in Do(codec, s, a).peers ==> Honest(codec, p)
  {
    hide PeerInv, Honest, Notified, Joined, Delivered, Answered, RoundNotes;
    var t := Do(codec, s, a);
    forall p | p in t.peers
      ensures Honest(codec, p)
    {
      var k :| 0 <= k < |t.peers| && t.peers[k] == p;
      assert k < |s.peers| ==> Honest(codec, s.peers[k]);
      match a
      case Poll(round) => NotifiedHonest(codec, s.peers[k], RoundNotes(s.states[|s.states| - 1], round));
      case Join(at) => JoinedHonest(codec, s, at);
      case Deliver(i, count, at) => DeliveredHonest(codec, s.states, s.peers[i], count, at);
      case Ask(i, request) => AskedHonest(codec, s.peers[i], request);
      case Respond(i, response) => AnsweredHonest(codec, s.peers[i], response);
    }
  }

  lemma AskedHonest(codec: Codec, p: Peer, request: KeystrokeRequest)
    requires Honest(codec, p)
    ensures Honest(codec, Asked(p, request))
  {
  }

  lemma {:induction false} RunHonest(codec: Codec, u: set<Handle>, start: Server, actions: seq<Action>)
    requires codec.Lawful() && Possible(codec, start, actions) && Ascending(start.wins)
    requires Faithful(u) && AllCovered(u, Run(codec, start, actions).states)
    ensures forall p :: p in Run(codec, start, actions).peers ==> Honest(codec, p)
    decreases |actions|
  {
    hide Do, AllCovered, Enabled, Extends, Honest, SysInv;
    if actions != [] {
      var before, last := actions[..|actions| - 1], actions[|actions| - 1];
      var s := Run(codec, start, before);
      StepExtends(codec, s, last);
      EarlierCovered(u, s, Do(codec, s, last));
      RunHonest(codec, u, start, before);
      RunKeeps(codec, u, start, before);
      StepHonest(codec, s, last);
    }
  }

  function RespondedBy(a: Action, i: nat): seq<Response> {
    if a.Respond? && a.peer == i then [a.response] else []
  }

  /** The responses a run gives to its `i`-th client, in order. */
  function RespondedIn(actions: seq<Action>, i: nat): seq<Response> {
    if actions == [] then []
    else
      var last := actions[|actions| - 1];
      RespondedIn(actions[..|actions| - 1], i) + RespondedBy(last, i)
  }

  lemma AnswersStep(codec: Codec, s: Sys, a: Action, i: nat)
    requires codec.Lawful() && Enabled(codec, s, a)
    ensures var t := Do(codec, s, a);
            && |s.peers| <= |t.peers|
            && (i < |s.peers| ==> t.peers[i].answers == s.peers[i].answers + RespondedBy(a, i))
            && (i >= |s.peers| ==> RespondedBy(a, i) == [] && (i < |t.peers| ==> t.peers[i].answers == []))
  {
    hide Codec.Lawful, Scan, FrameAll, RoundNotes, NotePayloads, Fits, Ascending;
    if i < |s.peers| {
      assert s.peers[i].answers + [] == s.peers[i].answers;
    }
  }

  lemma {:induction false} AnswersAreResponded(codec: Codec, start: Server, actions: seq<Action>, i: nat)
    requires codec.Lawful() && Possible(codec, start, actions)
    ensures var s := Run(codec, start, actions);
            RespondedIn(actions, i) == if i < |s.peers| then s.peers[i].answers else []
    decreases |actions|
  {
    hide Codec.Lawful, Do, Enabled, RespondedBy;
    if actions != [] {
      var before, last := actions[..|actions| - 1], actions[|actions| - 1];
      AnswersAreResponded(codec, start, before, i);
      AnswersStep(codec, Run(codec, start, before), last, i);
    }
  }

  /**
    In every run a client reports only responses the server gave to it; so rounds and joins
    alone never make a client report one.
  */
  lemma {:induction false} ReportsWereGiven(
    codec: Codec, u: set<Handle>, start: Server, actions: seq<Action>, i: nat)
    requires codec.Lawful() && Possible(codec, start, actions) && Ascending(start.wins)
    requires Faithful(u) && AllCovered(u, Run(codec, start, actions).states) && i < |Run(codec, start, actions).peers|
    ensures var p := Run(codec, start, actions).peers[i];
            forall r :: r in p.reported ==> r in RespondedIn(actions, i)
  {
    hide Run, Possible, RespondedIn, AllCovered, Codec.Lawful;
    RunHonest(codec, u, start, actions);
    AnswersAreResponded(codec, start, actions, i);
    var p := Run(codec, start, actions).peers[i];
    assert p in Run(codec, start, actions).peers;
  }
}
