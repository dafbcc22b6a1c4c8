/**
  The client's side of the protocol: when received messages are believed, how request
  ids are chosen, and which request a response belongs to.
*/
module Protocols {
  import opened Wire
  import opened Mirror
  import Framing
  import opened MessageStreams

  datatype State = Init | AcceptingEvents | Stopped

  datatype Proto = Proto(state: State, lastId: Uint32, pending: map<Uint32, KeystrokeRequest>)

  function NewProto(): Proto {
    Proto(Stopped, 0, map[])
  }

  /** A response is of interest only while its request is pending. */
  function TakeResponse(p: Proto, r: Response): (Proto, seq<Signal>) {
    if r.reqId in p.pending then
      (p.(pending := p.pending - {r.reqId}), [ResponseReceived(p.pending[r.reqId], r)])
    else
      (p, [])
  }

  function WindowSignals(e: Event): seq<Signal> {
    (if e.created.Some? then [AppCreated(e.created.value)] else [])
    + (if e.destroyed.Some? then [AppDestroyed(ToAppId(e.destroyed.value))] else [])
    + (if e.gotFocus.Some? then [AppGotFocus(ToAppId(e.gotFocus.value))] else [])
  }

  function TakeEvent(p: Proto, e: Event): (Proto, seq<Signal>) {
    var (q, answers) := if e.response.Some? then TakeResponse(p, e.response.value) else (p, []);
    (q, WindowSignals(e) + answers)
  }

  function Receive(codec: Codec, p: Proto, msg: seq<Byte>): (Proto, seq<Signal>) {
    match p.state
    case Init => (p.(state := AcceptingEvents), [AppListReceived(codec.parseList(msg))])
    case AcceptingEvents => TakeEvent(p, codec.parseEvent(msg))
    case Stopped => (p, [])
  }

  /** Several messages in a row. */
  function ReceiveEach(codec: Codec, p: Proto, msgs: seq<seq<Byte>>): (Proto, seq<Signal>)
    decreases |msgs|
  {
    if msgs == [] then (p, [])
    else
      var (q, signals) := Receive(codec, p, msgs[0]);
      var (r, more) := ReceiveEach(codec, q, msgs[1..]);
      (r, signals + more)
  }

  function Begun(p: Proto): Proto {
    p.(state := Init)
  }

  function Ended(p: Proto): (Proto, seq<Signal>) {
    if p.state == Stopped then (p, []) else (p.(state := Stopped), [ProtocolStopped])
  }

  /** Incrementing a 32-bit counter. */
  function Increment(id: Uint32): Uint32 {
    (id + 1) % 0x1_0000_0000
  }

  function NextId(id: Uint32): Uint32 {
    if Increment(id) == INVALID_REQUEST then Increment(Increment(id)) else Increment(id)
  }

  /** A request whose id is still pending does not displace the one that is waiting. */
  function Send(p: Proto, req: KeystrokeRequest): (Proto, KeystrokeRequest) {
    var sent := req.(reqId := NextId(p.lastId));
    (Proto(p.state, sent.reqId, if sent.reqId in p.pending then p.pending else p.pending[sent.reqId := sent]), sent)
  }

  /** The requests ask for the same, whatever their ids. */
  predicate SameButId(a: KeystrokeRequest, b: KeystrokeRequest) {
    && a.appId == b.appId && a.key == b.key
    && a.ctrl == b.ctrl && a.alt == b.alt && a.shift == b.shift && a.meta == b.meta
  }

  class ClientProtocol {
    const stream: MessageStream
    var client: Device?
    var state: State
    var lastId: Uint32
    var pendingReqs: map<Uint32, KeystrokeRequest>

    function Model(): Proto
      reads this
    {
      Proto(state, lastId, pendingReqs)
    }

    ghost predicate Valid()
      reads this, stream
    {
      stream.Valid() && stream.dev == client
    }

    constructor ()
      ensures Valid() && fresh(stream) && client == null && Model() == NewProto()
    {
      stream := new MessageStream(null);
      client, state, lastId, pendingReqs := null, Stopped, 0, map[];
    }

    /** Changing socket stops the protocol and forgets the pending requests. */
    method SetSocket(socket: Device?, isOpen: bool) returns (signals: seq<Signal>)
      requires Valid()
      modifies this, stream
      ensures Valid() && client == socket
      ensures socket == old(client) ==> Model() == old(Model()) && signals == []
      ensures socket != old(client) ==>
                var (stopped, s) := if old(client) == null then (old(Model()), []) else Ended(old(Model()));
                && signals == s
                && Model() == (if socket != null && isOpen then Begun(stopped) else stopped).(pending := map[])
    {
      signals := [];
      if client == socket {
        return;
      }
      if client != null {
        signals := HardStop();
      }
      client := socket;
      stream.SetDevice(client);
      pendingReqs := map[];
      if client != null && isOpen {
        Start();
      }
    }

    method Start()
      modifies this`state
      ensures Model() == Begun(old(Model()))
    {
      state := Init;
    }

    method HardStop() returns (signals: seq<Signal>)
      modifies this`state
      ensures (Model(), signals) == Ended(old(Model()))
    {
      if state == Stopped {
        return [];
      }
      state := Stopped;
      signals := [ProtocolStopped];
    }

    method ReceiveMessage(codec: Codec, msg: seq<Byte>) returns (signals: seq<Signal>)
      modifies this`state, this`pendingReqs
      ensures (Model(), signals) == Receive(codec, old(Model()), msg)
    {
      signals := [];
      match state
      case Init =>
        signals := [AppListReceived(codec.parseList(msg))];
        state := AcceptingEvents;
      case AcceptingEvents =>
        var event := codec.parseEvent(msg);
        if event.created.Some? {
          signals := signals + [AppCreated(event.created.value)];
        }
        if event.destroyed.Some? {
          signals := signals + [AppDestroyed(ToAppId(event.destroyed.value))];
        }
        if event.gotFocus.Some? {
          signals := signals + [AppGotFocus(ToAppId(event.gotFocus.value))];
        }
        if event.response.Some? {
          var id := event.response.value.reqId;
          if id in pendingReqs {
            signals := signals + [ResponseReceived(pendingReqs[id], event.response.value)];
            pendingReqs := pendingReqs - {id};
          }
        }
        assert signals == TakeEvent(old(Model()), event).1;
      case Stopped =>
    }

    /** The loop that skips the reserved id runs at most twice. */
    method TakeId() returns (id: Uint32)
      modifies this`lastId
      ensures id == lastId == NextId(old(lastId)) && id != INVALID_REQUEST
    {
      lastId := Increment(lastId);
      ghost var rounds := 1;
      while lastId == INVALID_REQUEST
        invariant || (lastId == Increment(old(lastId)) && rounds == 1)
                  || (old(lastId) == INVALID_REQUEST - 1 && lastId == 0 && rounds == 2)
        decreases 2 - rounds
      {
        lastId := Increment(lastId);
        rounds := rounds + 1;
      }
      id := lastId;
    }

    /** What goes out, and is recorded unless the id is pending, asks for what `req` asks for, under the new id. */
    method SendRequest(codec: Codec, req: KeystrokeRequest) returns (id: Uint32, ghost sent: KeystrokeRequest)
      requires Valid() && client != null
      modifies this`lastId, this`pendingReqs, client`written
      ensures Valid()
      ensures sent.reqId == id && SameButId(sent, req)
      ensures pendingReqs == if id in old(pendingReqs) then old(pendingReqs) else old(pendingReqs)[id := sent]
      ensures (Model(), sent) == Send(old(Model()), req)
      ensures |codec.requestBytes(sent)| < 0x1_0000_0000 ==>
                client.written == old(client.written) + Framing.Frame(codec.requestBytes(sent))
    {
      id := TakeId();
      var request := req.(reqId := id);
      sent := request;
      stream.SendMessage(codec.requestBytes(request));
      if id !in pendingReqs {
        pendingReqs := pendingReqs[id := request];
      }
    }
  }

  /** The id given out by the `k`-th request after the counter stood at `last`. */
  function KthId(last: Uint32, k: nat): Uint32 {
    if k == 0 then last else NextId(KthId(last, k - 1))
  }

  /** Ids count modulo 2^32 - 1: from the initial counter 0, the k-th is k mod (2^32 - 1). */
  lemma {:induction false} IdsCount(last: Uint32, k: nat)
    requires last != INVALID_REQUEST
    ensures KthId(last, k) == (last + k) % INVALID_REQUEST
  {
    if k > 0 {
      IdsCount(last, k - 1);
    }
  }

  /** No id is the reserved one, and any 2^32 - 1 ids in a row are pairwise different. */
  lemma IdsDistinct(last: Uint32, i: nat, j: nat)
    requires last != INVALID_REQUEST && i < j < i + INVALID_REQUEST
    ensures KthId(last, i) != INVALID_REQUEST && KthId(last, i) != KthId(last, j)
  {
    hide KthId;
    IdsCount(last, i);
    IdsCount(last, j);
    if (last + i) % INVALID_REQUEST == (last + j) % INVALID_REQUEST {
      MultipleApart(last + i, last + j);
    }
  }

  lemma MultipleApart(a: nat, b: nat)
    requires a < b && a % INVALID_REQUEST == b % INVALID_REQUEST
    ensures a + INVALID_REQUEST <= b
  {
    assert a == a / INVALID_REQUEST * INVALID_REQUEST + a % INVALID_REQUEST;
    assert b == b / INVALID_REQUEST * INVALID_REQUEST + b % INVALID_REQUEST;
  }

  /** What the environment does to a protocol object. */
  datatype Input = Started | StopRequested | MessageArrived(msg: seq<Byte>)

  function Step(codec: Codec, p: Proto, i: Input): (Proto, seq<Signal>) {
    match i
    case Started => (Begun(p), [])
    case StopRequested => Ended(p)
    case MessageArrived(msg) => Receive(codec, p, msg)
  }

  function Run(codec: Codec, p: Proto, inputs: seq<Input>): Proto {
    if inputs == [] then p
    else Step(codec, Run(codec, p, inputs[..|inputs| - 1]), inputs[|inputs| - 1]).0
  }

  /** The signals with which a run answers its `k`-th input. */
  function Emitted(codec: Codec, inputs: seq<Input>, k: nat): seq<Signal>
    requires k < |inputs|
  {
    Step(codec, Run(codec, NewProto(), inputs[..k]), inputs[k]).1
  }

  /** Input `s` was the last start or stop among `inputs`. */
  ghost predicate LastControl(inputs: seq<Input>, s: nat) {
    && s < |inputs| && !inputs[s].MessageArrived?
    && forall i :: s < i < |inputs| ==> inputs[i].MessageArrived?
  }

  /** The protocol has been started and not stopped since, `n` messages ago. */
  ghost predicate StartedAgo(inputs: seq<Input>, n: nat) {
    n < |inputs| && inputs[|inputs| - 1 - n].Started? && LastControl(inputs, |inputs| - 1 - n)
  }

  /** The state machine remembers of its past only whether it runs and whether it got a message yet. */
  lemma {:induction false} StateIsHistory(codec: Codec, inputs: seq<Input>)
    ensures var state := Run(codec, NewProto(), inputs).state;
            && (state == Init <==> StartedAgo(inputs, 0))
            && (state == AcceptingEvents <==> exists n: nat :: n > 0 && StartedAgo(inputs, n))
            && (state == Stopped <==> !exists n: nat :: StartedAgo(inputs, n))
    decreases |inputs|
  {
    if inputs != [] {
      var prior, last := inputs[..|inputs| - 1], inputs[|inputs| - 1];
      StateIsHistory(codec, prior);
      if last.MessageArrived? {
        forall n: nat
          ensures StartedAgo(inputs, n + 1) == StartedAgo(prior, n)
        {
          OneMoreMessage(prior, last, n);
          assert inputs == prior + [last];
        }
        assert !StartedAgo(inputs, 0);
        forall n: nat | n > 0
          ensures StartedAgo(inputs, n) == StartedAgo(prior, n - 1)
        {
          assert StartedAgo(inputs, n - 1 + 1) == StartedAgo(prior, n - 1);
        }
      } else {
        assert last.Started? <==> StartedAgo(inputs, 0);
        assert forall n: nat :: n > 0 ==> !StartedAgo(inputs, n);
      }
    }
  }

  lemma OneMoreMessage(prior: seq<Input>, last: Input, n: nat)
    requires last.MessageArrived?
    ensures StartedAgo(prior + [last], n + 1) == StartedAgo(prior, n)
  {
    var inputs := prior + [last];
    assert forall i :: 0 <= i < |prior| ==> inputs[i] == prior[i];
    if n < |prior| {
      var s := |prior| - 1 - n;
      if LastControl(prior, s) {
        assert LastControl(inputs, s);
      }
      if LastControl(inputs, s) {
        assert LastControl(prior, s);
      }
    }
  }

  /**
    The first message after a start is delivered once, as the application list; later
    ones only as events; and a protocol that is not started says nothing.
  */
  lemma MessagesByHistory(codec: Codec, inputs: seq<Input>, k: nat)
    requires k < |inputs| && inputs[k].MessageArrived?
    ensures var past := inputs[..k]; var out := Emitted(codec, inputs, k);
            && (StartedAgo(past, 0) ==> out == [AppListReceived(codec.parseList(inputs[k].msg))])
            && ((exists n: nat :: n > 0 && StartedAgo(past, n)) ==>
                  && WindowSignals(codec.parseEvent(inputs[k].msg)) <= out
                  && forall s :: s in out ==> !s.AppListReceived? && !s.ProtocolStopped?)
            && ((!exists n: nat :: StartedAgo(past, n)) ==> out == [])
  {
    StateIsHistory(codec, inputs[..k]);
    var p, e := Run(codec, NewProto(), inputs[..k]), codec.parseEvent(inputs[k].msg);
    EventsOnly(p, e);
  }

  lemma EventsOnly(p: Proto, e: Event)
    ensures var out := TakeEvent(p, e).1;
            && WindowSignals(e) <= out
            && forall s :: s in out ==> !s.AppListReceived? && !s.ProtocolStopped?
  {
  }

  function Rank(s: Signal): nat {
    match s
    case AppListReceived(_) => 0
    case AppCreated(_) => 1
    case AppDestroyed(_) => 2
    case AppGotFocus(_) => 3
    case ResponseReceived(_, _) => 4
    case ProtocolStopped => 5
  }

  /**
    A signal is given for an event exactly if it reports one of its fields; for a response,
    exactly if its request is pending, and with that request.
  */
  lemma {:induction false} EventSpeaks(p: Proto, e: Event, s: Signal)
    ensures s in TakeEvent(p, e).1
       <==> match s
            case AppCreated(a) => e.created == Some(a)
            case AppDestroyed(id) => e.destroyed.Some? && id == ToAppId(e.destroyed.value)
            case AppGotFocus(id) => e.gotFocus.Some? && id == ToAppId(e.gotFocus.value)
            case ResponseReceived(asked, r) =>
              e.response == Some(r) && r.reqId in p.pending && asked == p.pending[r.reqId]
            case _ => false
  {
    hide TakeEvent, WindowSignals, TakeResponse, Rank;
    var created, destroyed, focused, answers := FieldSignals(p, e);
    OneOfEach(created, destroyed, focused, answers);
  }

  /**
    Each field is reported at most once, created before destroyed before focus before response,
    and the request of a response is not pending any more.
  */
  lemma {:induction false} EventOrder(p: Proto, e: Event)
    ensures var (q, out) := TakeEvent(p, e);
            && (forall i, j :: 0 <= i < j < |out| ==> Rank(out[i]) < Rank(out[j]))
            && q == p.(pending := if e.response.Some? then p.pending - {e.response.value.reqId} else p.pending)
  {
    hide TakeEvent, WindowSignals, TakeResponse, Rank;
    var created, destroyed, focused, answers := FieldSignals(p, e);
    OneOfEach(created, destroyed, focused, answers);
  }

  lemma FieldSignals(p: Proto, e: Event)
    returns (created: seq<Signal>, destroyed: seq<Signal>, focused: seq<Signal>, answers: seq<Signal>)
    ensures created == if e.created.Some? then [AppCreated(e.created.value)] else []
    ensures destroyed == if e.destroyed.Some? then [AppDestroyed(ToAppId(e.destroyed.value))] else []
    ensures focused == if e.gotFocus.Some? then [AppGotFocus(ToAppId(e.gotFocus.value))] else []
    ensures answers == if e.response.Some? && e.response.value.reqId in p.pending
                       then [ResponseReceived(p.pending[e.response.value.reqId], e.response.value)] else []
    ensures TakeEvent(p, e).1 == created + destroyed + focused + answers
    ensures TakeEvent(p, e).0
         == p.(pending := if e.response.Some? then p.pending - {e.response.value.reqId} else p.pending)
  {
    created := if e.created.Some? then [AppCreated(e.created.value)] else [];
    destroyed := if e.destroyed.Some? then [AppDestroyed(ToAppId(e.destroyed.value))] else [];
    focused := if e.gotFocus.Some? then [AppGotFocus(ToAppId(e.gotFocus.value))] else [];
    answers := if e.response.Some? then TakeResponse(p, e.response.value).1 else [];
    assert WindowSignals(e) == created + destroyed + focused;
    if e.response.Some? && e.response.value.reqId !in p.pending {
      assert p.pending - {e.response.value.reqId} == p.pending;
    }
  }

  lemma OneOfEach(a: seq<Signal>, b: seq<Signal>, c: seq<Signal>, d: seq<Signal>)
    requires |a| <= 1 && |b| <= 1 && |c| <= 1 && |d| <= 1
    requires (a != [] ==> a[0].AppCreated?) && (b != [] ==> b[0].AppDestroyed?)
    requires (c != [] ==> c[0].AppGotFocus?) && (d != [] ==> d[0].ResponseReceived?)
    ensures var out := a + b + c + d;
            && (forall s :: s in out <==> s in a || s in b || s in c || s in d)
            && (forall i, j :: 0 <= i < j < |out| ==> Rank(out[i]) < Rank(out[j]))
  {
  }

  /** A start is silent, and a request to stop is answered exactly if the protocol runs, by saying so. */
  lemma ControlsSpeak(codec: Codec, inputs: seq<Input>, k: nat)
    requires k < |inputs| && !inputs[k].MessageArrived?
    ensures var running := exists n: nat :: StartedAgo(inputs[..k], n);
            Emitted(codec, inputs, k) == if inputs[k].StopRequested? && running then [ProtocolStopped] else []
  {
    StateIsHistory(codec, inputs[..k]);
  }

  /** Between two reports that the protocol stopped there has been a start. */
  lemma StoppedOncePerStart(codec: Codec, inputs: seq<Input>, i: nat, j: nat)
    requires i < j < |inputs|
    requires ProtocolStopped in Emitted(codec, inputs, i) && ProtocolStopped in Emitted(codec, inputs, j)
    ensures exists s :: i < s < j && inputs[s].Started?
  {
    StopsSpeak(codec, inputs, i);
    StopsSpeak(codec, inputs, j);
    StateIsHistory(codec, inputs[..j]);
    var n: nat :| StartedAgo(inputs[..j], n);
    assert inputs[..j][i] == inputs[i];
  }

  lemma StopsSpeak(codec: Codec, inputs: seq<Input>, i: nat)
    requires i < |inputs| && ProtocolStopped in Emitted(codec, inputs, i)
    ensures inputs[i].StopRequested? && Run(codec, NewProto(), inputs[..i]).state != Stopped
  {
    if inputs[i].MessageArrived? {
      StateIsHistory(codec, inputs[..i]);
      MessagesByHistory(codec, inputs, i);
    }
  }
}
