/**
  The server's blocking reads and writes of exact sizes, over a socket that delivers and
  accepts as little at a time as it likes, and the request loop built on them.
*/
module SocketIO {
  import opened Wire
  import opened Framing
  import opened Requests

  /** What one `select`/`recv` does: fail, ask to be called again, or bring up to `n` bytes. */
  datatype RecvOutcome = SelectFailed | PeerClosed | RecvFailed | WouldBlock | Arrived(n: nat)

  /** What one `send` does: fail, or accept up to `n` bytes. */
  datatype SendOutcome = SendFailed | Accepted(n: nat)

  /** How the socket will behave is fixed in advance, in any way; a script that is used up blocks for good. */
  class Socket {
    var incoming: seq<Byte>
    var outgoing: seq<Byte>
    var recvScript: seq<RecvOutcome>
    var sendScript: seq<SendOutcome>

    constructor (incoming: seq<Byte>, recvScript: seq<RecvOutcome>, sendScript: seq<SendOutcome>)
      ensures this.incoming == incoming && outgoing == []
      ensures this.recvScript == recvScript && this.sendScript == sendScript
    {
      this.incoming, outgoing := incoming, [];
      this.recvScript, this.sendScript := recvScript, sendScript;
    }
  }

  function Min(a: nat, b: nat): nat {
    if a < b then a else b
  }

  /** How much the socket brings before its first failure. */
  function Supply(script: seq<RecvOutcome>): nat {
    if script == [] then 0
    else match script[0]
      case Arrived(n) => (if n == 0 then 1 else n) + Supply(script[1..])
      case WouldBlock => Supply(script[1..])
      case _ => 0
  }

  /** What fails ends the supply, whatever would come after it. */
  lemma {:induction false} SupplyEnds(p: seq<RecvOutcome>, o: RecvOutcome, q: seq<RecvOutcome>)
    requires o == SelectFailed || o == PeerClosed || o == RecvFailed
    ensures Supply(p + [o] + q) == Supply(p)
    decreases |p|
  {
    if p == [] {
      assert (p + [o] + q)[0] == o;
    } else {
      assert (p + [o] + q)[1..] == p[1..] + [o] + q;
      SupplyEnds(p[1..], o, q);
    }
  }

  /** Being asked to call again makes no difference to it. */
  lemma {:induction false} SupplyWaits(p: seq<RecvOutcome>, q: seq<RecvOutcome>)
    ensures Supply(p + [WouldBlock] + q) == Supply(p + q)
    decreases |p|
  {
    if p == [] {
      assert (p + [WouldBlock] + q)[1..] == q && p + q == q;
    } else {
      assert (p + [WouldBlock] + q)[1..] == p[1..] + [WouldBlock] + q && (p + q)[1..] == p[1..] + q;
      SupplyWaits(p[1..], q);
    }
  }

  /** What arrives before any failure, at least a byte, is added to it. */
  lemma {:induction false} SupplyArrives(p: seq<RecvOutcome>, n: nat, q: seq<RecvOutcome>)
    requires forall i :: 0 <= i < |p| ==> p[i].Arrived? || p[i] == WouldBlock
    ensures Supply(p + [Arrived(n)] + q) == Supply(p + q) + if n == 0 then 1 else n
    decreases |p|
  {
    if p == [] {
      assert (p + [Arrived(n)] + q)[1..] == q && p + q == q;
    } else {
      assert (p + [Arrived(n)] + q)[1..] == p[1..] + [Arrived(n)] + q && (p + q)[1..] == p[1..] + q;
      SupplyArrives(p[1..], n, q);
    }
  }

  /** How many calls bring something, at least a byte each, before the socket's first failure. */
  function Visits(script: seq<RecvOutcome>): (v: nat)
    ensures v <= Supply(script)
  {
    if script == [] then 0
    else match script[0]
      case Arrived(_) => 1 + Visits(script[1..])
      case WouldBlock => Visits(script[1..])
      case _ => 0
  }

  const AGAIN := -2

  /** What one call for `left` bytes returns while `avail` are on their way, and the calls to come after it. */
  function Receiving(script: seq<RecvOutcome>, left: nat, avail: nat): (r: (int, seq<RecvOutcome>))
    ensures r.0 <= left && r.0 <= avail && r.0 >= AGAIN
    ensures r.0 >= 0 || r.0 == AGAIN ==> |r.1| < |script|
  {
    if script == [] then (-1, [])
    else match script[0]
      case Arrived(n) => (Min(Min(if n == 0 then 1 else n, left), avail), script[1..])
      case WouldBlock => (AGAIN, script[1..])
      case PeerClosed => (0, script[1..])
      case _ => (-1, script[1..])
  }

  /** Whether `left` bytes come before a failure, and the calls to come after them. */
  function Reading(script: seq<RecvOutcome>, left: nat, avail: nat): (r: (bool, seq<RecvOutcome>))
    ensures r.0 ==> left <= avail && |r.1| <= |script| && (left > 0 ==> |r.1| < |script|)
    decreases |script|
  {
    var (res, rest) := Receiving(script, left, avail);
    if left == 0 then (true, script)
    else if res == AGAIN then Reading(rest, left, avail)
    else if res <= 0 then (false, rest)
    else Reading(rest, left - res, avail - res)
  }

  /**
    One `select` and `recv` asking for up to `left` bytes: how many came, 0 if the peer
    closed, -1 on failure, `AGAIN` if nothing was there after all.
  */
  method Receive(s: Socket, left: nat) returns (res: int, bytes: seq<Byte>)
    requires left > 0
    modifies s`incoming, s`recvScript
    ensures res > 0 ==> res == |bytes| <= left && res <= |old(s.incoming)|
    ensures res > 0 ==> bytes == old(s.incoming)[..res] && s.incoming == old(s.incoming)[res..]
    ensures res <= 0 ==> s.incoming == old(s.incoming)
    ensures res >= 0 || res == AGAIN ==> |s.recvScript| < |old(s.recvScript)|
    ensures |s.recvScript| <= |old(s.recvScript)|
    ensures left <= |old(s.incoming)| ==>
              (left <= Supply(old(s.recvScript)) <==>
               (res == AGAIN && left <= Supply(s.recvScript)) || (res > 0 && left - res <= Supply(s.recvScript)))
    ensures res >= AGAIN
    ensures (res, s.recvScript) == Receiving(old(s.recvScript), left, |old(s.incoming)|)
    ensures res > 0 ==> Visits(old(s.recvScript)) <= Visits(s.recvScript) + res
    ensures res == AGAIN ==> Visits(old(s.recvScript)) == Visits(s.recvScript)
  {
    bytes := [];
    if s.recvScript == [] {
      return -1, bytes;
    }
    var outcome := s.recvScript[0];
    s.recvScript := s.recvScript[1..];
    match outcome
    case SelectFailed => res := -1;
    case PeerClosed => res := 0;
    case RecvFailed => res := -1;
    case WouldBlock => res := AGAIN;
    case Arrived(n) =>
      res := Min(Min(if n == 0 then 1 else n, left), |s.incoming|);
      bytes := s.incoming[..res];
      s.incoming := s.incoming[res..];
  }

  /** A buffer with the first `got` bytes of the stream, then zeros up to `size`, then its old end. */
  ghost predicate Holds(buffer: seq<Byte>, stream: seq<Byte>, got: nat, size: nat, end: seq<Byte>) {
    && got <= size <= |buffer| && got <= |stream|
    && buffer[..got] == stream[..got]
    && (forall i :: got <= i < size ==> buffer[i] == 0)
    && buffer[size..] == end
  }

  lemma StoreHolds(
    before: seq<Byte>, after: seq<Byte>, stream: seq<Byte>, got: nat, more: nat, size: nat, end: seq<Byte>)
    requires Holds(before, stream, got, size, end) && got + more <= size && got + more <= |stream|
    requires after == before[..got] + stream[got..][..more] + before[got + more..]
    ensures Holds(after, stream, got + more, size, end)
  {
    assert stream[..got + more] == stream[..got] + stream[got..][..more];
  }

  /**
    Reading exactly `size` bytes. On success the buffer holds the next `size` bytes of the
    stream and nothing beyond them was consumed; on failure it holds those that were
    consumed, and zeros. It succeeds exactly if the stream has the bytes and the socket
    brings them before it fails.
  */
  method ReadN(s: Socket, buffer: array<Byte>, size: nat) returns (ok: bool, ghost got: nat)
    requires size <= buffer.Length
    modifies s`incoming, s`recvScript, buffer
    ensures (ok, s.recvScript) == Reading(old(s.recvScript), size, |old(s.incoming)|)
    ensures ok <==> size <= |old(s.incoming)| && size <= Supply(old(s.recvScript))
    ensures ok ==> buffer[..size] == old(s.incoming)[..size] && s.incoming == old(s.incoming)[size..]
    ensures got <= |old(s.incoming)| && (if ok then got == size else got < size)
    ensures Holds(buffer[..], old(s.incoming), got, size, old(buffer[size..])) && s.incoming == old(s.incoming)[got..]
    ensures |s.recvScript| <= |old(s.recvScript)|
    ensures size > 0 && ok ==> |s.recvScript| < |old(s.recvScript)|
    ensures ok ==> Visits(old(s.recvScript)) <= Visits(s.recvScript) + size
  {
    hide Holds, Min, Supply, Visits, Receiving;
    ghost var stream, end := s.incoming, buffer[size..];
    Clear(buffer, size);
    ClearHolds(buffer[..], stream, size, end);
    var left := size;
    got := 0;
    while left > 0
      invariant 0 <= left <= size
      invariant got == size - left <= |stream| && s.incoming == stream[got..]
      invariant Holds(buffer[..], stream, got, size, end)
      invariant size <= |stream| ==> (size <= Supply(old(s.recvScript)) <==> left <= Supply(s.recvScript))
      invariant Reading(old(s.recvScript), size, |stream|) == Reading(s.recvScript, left, |s.incoming|)
      invariant |s.recvScript| <= |old(s.recvScript)|
      invariant left < size ==> |s.recvScript| < |old(s.recvScript)|
      invariant Visits(old(s.recvScript)) <= Visits(s.recvScript) + (size - left)
      decreases |s.recvScript|
    {
      ghost var unread, supply := s.incoming, Supply(s.recvScript);
      var res, bytes := Receive(s, left);
      if res == AGAIN {
        continue;
      }
      if res <= 0 {
        return false, got;
      }
      ghost var before := buffer[..];
      Store(buffer, size - left, bytes);
      StoreHolds(before, buffer[..], stream, got, res, size, end);
      left, got := left - res, got + res;
    }
    FullHolds(buffer[..], stream, size, end);
    ok := true;
  }

  lemma ClearHolds(buffer: seq<Byte>, stream: seq<Byte>, size: nat, end: seq<Byte>)
    requires size <= |buffer| && buffer[size..] == end && forall i :: 0 <= i < size ==> buffer[i] == 0
    ensures Holds(buffer, stream, 0, size, end)
  {
  }

  lemma FullHolds(buffer: seq<Byte>, stream: seq<Byte>, size: nat, end: seq<Byte>)
    requires Holds(buffer, stream, size, size, end)
    ensures size <= |stream| && size <= |buffer| && buffer[..size] == stream[..size]
  {
  }

  method Clear(buffer: array<Byte>, size: nat)
    requires size <= buffer.Length
    modifies buffer
    ensures forall i :: 0 <= i < size ==> buffer[i] == 0
    ensures buffer[size..] == old(buffer[size..])
  {
    forall i | 0 <= i < size {
      buffer[i] := 0;
    }
  }

  method Store(buffer: array<Byte>, off: nat, bytes: seq<Byte>)
    requires off + |bytes| <= buffer.Length
    modifies buffer
    ensures buffer[..] == old(buffer[..])[..off] + bytes + old(buffer[..])[off + |bytes|..]
  {
    forall i | 0 <= i < |bytes| {
      buffer[off + i] := bytes[i];
    }
  }

  datatype SendResult = Sent | Failed | Spinning

  /** Some `send` takes all `size` bytes at once, and every one before it took nothing. */
  ghost predicate WholeSend(script: seq<SendOutcome>, size: nat) {
    exists j :: 0 <= j < |script| && script[j].Accepted? && script[j].n >= size
                && forall i :: 0 <= i < j ==> script[i] == Accepted(0)
  }

  /**
    Writing exactly the given bytes. `sent` holds what the last `send` took, not the sum, so
    success means that one single `send` took everything; after a short one the loop can
    only fail or spin.
  */
  method SendN(s: Socket, buffer: seq<Byte>) returns (result: SendResult)
    modifies s`outgoing, s`sendScript
    ensures result == Sent <==> buffer == [] || WholeSend(old(s.sendScript), |buffer|)
    ensures result == Sent ==> s.outgoing == old(s.outgoing) + buffer
    ensures exists k :: 0 <= k <= |buffer| && s.outgoing == old(s.outgoing) + buffer[..k]
  {
    var size := |buffer|;
    var sent: int, left := 0, size;
    ghost var script, out := s.sendScript, s.outgoing;
    ghost var short := false;
    while sent != size && sent != -1
      invariant 0 <= left <= size && s.outgoing == out + buffer[..size - left]
      invariant -1 <= sent <= size && (sent == size ==> left == 0)
      invariant short <==> left < size && sent != size
      invariant !short && sent != size ==>
                  (WholeSend(script, size) <==> sent != -1 && WholeSend(s.sendScript, size))
      invariant short ==> !WholeSend(script, size)
      invariant sent == size && size > 0 ==> WholeSend(script, size)
      invariant size == 0 ==> sent == 0
      decreases |s.sendScript|, if sent == -1 || sent == size then 0 else 1
    {
      if s.sendScript == [] {
        return Spinning;
      }
      var outcome := s.sendScript[0];
      NextSend(s.sendScript, size);
      s.sendScript := s.sendScript[1..];
      match outcome {
        case SendFailed =>
          sent := -1;
        case Accepted(n) =>
          sent := Min(n, left);
          var off := size - left;
          s.outgoing := s.outgoing + buffer[off..off + sent];
          assert out + buffer[..off] + buffer[off..off + sent] == out + buffer[..off + sent];
          left := left - sent;
          short := left < size && sent != size;
      }
    }
    assert buffer[..size - left] == if sent == size then buffer else buffer[..size - left];
    result := if sent == size then Sent else Failed;
  }

  lemma NextSend(script: seq<SendOutcome>, size: nat)
    requires script != [] && size > 0
    ensures WholeSend(script, size) <==>
            script[0].Accepted? && (script[0].n >= size || (script[0].n == 0 && WholeSend(script[1..], size)))
  {
    if script[0].Accepted? && script[0].n == 0 && WholeSend(script[1..], size) {
      var j :| 0 <= j < |script[1..]| && script[1..][j].Accepted? && script[1..][j].n >= size
               && forall i :: 0 <= i < j ==> script[1..][i] == Accepted(0);
      assert script[j + 1].n >= size;
      assert forall i :: 0 <= i < j + 1 ==> script[i] == Accepted(0);
    }
    if WholeSend(script, size) {
      var j :| 0 <= j < |script| && script[j].Accepted? && script[j].n >= size
               && forall i :: 0 <= i < j ==> script[i] == Accepted(0);
      if j > 0 {
        assert script[1..][j - 1].n >= size;
      }
    }
  }

  // ---------- the request loop ----------

  function ReplyPayload(codec: Codec, payload: seq<Byte>, onFocus: Handle, injected: bool): seq<Byte> {
    codec.eventBytes(EMPTY_EVENT.(response := Some(Reply(codec.parseRequest(payload), onFocus, injected))))
  }

  /**
    The message is a response and nothing else: it has the request's id, and it says success if
    and only if the request names the window in the foreground and its keys were injected.
  */
  ghost predicate Replies(codec: Codec, msg: seq<Byte>, request: KeystrokeRequest, onFocus: Handle, injected: bool) {
    var e := codec.parseEvent(msg);
    && e.created == None && e.destroyed == None && e.gotFocus == None && e.response.Some?
    && e.response.value.reqId == request.reqId
    && (e.response.value.status == Success <==> request.appId == onFocus && injected)
  }

  lemma ReplyPayloadReplies(codec: Codec, payload: seq<Byte>, onFocus: Handle, injected: bool)
    requires codec.Lawful()
    ensures var reply := ReplyPayload(codec, payload, onFocus, injected);
            Replies(codec, reply, codec.parseRequest(payload), onFocus, injected)
  {
    var e := EMPTY_EVENT.(response := Some(Reply(codec.parseRequest(payload), onFocus, injected)));
    assert codec.parseEvent(codec.eventBytes(e)) == e;
  }

  function ReplyPayloads(codec: Codec, payloads: seq<seq<Byte>>, onFocus: nat -> Handle, injected: nat -> bool)
    : seq<seq<Byte>>
  {
    seq(|payloads|, i requires 0 <= i < |payloads| => ReplyPayload(codec, payloads[i], onFocus(i), injected(i)))
  }

  /** The stream starts with a whole request that `visits` calls are sure to bring. */
  predicate Complete(stream: seq<Byte>, visits: int) {
    && HEADER <= |stream| && HEADER <= visits
    && var size := FromBigEndian(stream[..HEADER]);
       size < 0x8000_0000 && HEADER + size <= |stream| && HEADER + size <= visits
  }

  /** One reply for each request, in order. */
  ghost predicate AllReplied(codec: Codec, payloads: seq<seq<Byte>>, messages: seq<seq<Byte>>,
                             onFocus: nat -> Handle, injected: nat -> bool)
  {
    && |messages| == |payloads|
    && forall i :: 0 <= i < |payloads| ==>
         Replies(codec, messages[i], codec.parseRequest(payloads[i]), onFocus(i), injected(i))
  }

  lemma EachReplied(codec: Codec, payloads: seq<seq<Byte>>, onFocus: nat -> Handle, injected: nat -> bool)
    requires codec.Lawful()
    ensures AllReplied(codec, payloads, ReplyPayloads(codec, payloads, onFocus, injected), onFocus, injected)
  {
    hide ReplyPayload, Replies;
    forall i | 0 <= i < |payloads|
      ensures Replies(codec, ReplyPayload(codec, payloads[i], onFocus(i), injected(i)),
                codec.parseRequest(payloads[i]), onFocus(i), injected(i))
    {
      ReplyPayloadReplies(codec, payloads[i], onFocus(i), injected(i));
    }
  }

  /** The request in front of the stream, if it comes before a failure, and the calls to come after it. */
  function NextFrame(stream: seq<Byte>, script: seq<RecvOutcome>): (r: Option<(seq<Byte>, seq<RecvOutcome>)>)
    ensures r.Some? ==> HEADER + |r.value.0| <= |stream| && |r.value.1| < |script|
  {
    var (ok, rest) := Reading(script, HEADER, |stream|);
    if !ok then None
    else
      var size := FromBigEndian(stream[..HEADER]);
      if size >= 0x8000_0000 then None
      else
        var (whole, after) := Reading(rest, size, |stream| - HEADER);
        if whole then Some((stream[HEADER..HEADER + size], after)) else None
  }

  /** The requests that come before the first failure, an oversized length included. */
  function Served(stream: seq<Byte>, script: seq<RecvOutcome>): seq<seq<Byte>>
    decreases |script|
  {
    match NextFrame(stream, script)
    case None => []
    case Some((payload, after)) => [payload] + Served(stream[HEADER + |payload|..], after)
  }

  /**
    Serving requests until a read fails: the payloads are taken off the stream frame by
    frame, and each gets one framed response, in order. `onFocus(i)` and `injected(i)` are the
    foreground window and the outcome of the key injection when the i-th request is served.
    Exactly the requests are served that come before the first failure; in particular none is
    left for which at least as many calls that bring something remain as it has bytes.
    A length of 2^31 or more turns negative when it is passed on; the model stops there.
  */
  method ReadMessage(s: Socket, codec: Codec, onFocus: nat -> Handle, injected: nat -> bool)
    returns (payloads: seq<seq<Byte>>)
    requires codec.Lawful()
    modifies s
    ensures payloads == Served(old(s.incoming), old(s.recvScript))
    ensures Framable(payloads) && FrameAll(payloads) <= old(s.incoming)
    ensures Framable(ReplyPayloads(codec, payloads, onFocus, injected))
    ensures s.outgoing == old(s.outgoing) + FrameAll(ReplyPayloads(codec, payloads, onFocus, injected))
    ensures AllReplied(codec, payloads, ReplyPayloads(codec, payloads, onFocus, injected), onFocus, injected)
    ensures var served := |FrameAll(payloads)|;
            !Complete(old(s.incoming)[served..], Visits(old(s.recvScript)) - served)
  {
    hide Frame, ReplyPayload, ReplyPayloads, Codec.Lawful, Visits, Complete, NextFrame, AllReplied, Replies, Served,
         FrameAll, Framable;
    payloads := [];
    assert [] + Served(s.incoming, s.recvScript) == Served(s.incoming, s.recvScript);
    NoRequests(codec, onFocus, injected);
    while true
      invariant Served(old(s.incoming), old(s.recvScript)) == payloads + Served(s.incoming, s.recvScript)
      invariant Framable(payloads) && FrameAll(payloads) + s.incoming == old(s.incoming)
      invariant Framable(ReplyPayloads(codec, payloads, onFocus, injected))
      invariant s.outgoing == old(s.outgoing) + FrameAll(ReplyPayloads(codec, payloads, onFocus, injected))
      invariant Visits(old(s.recvScript)) <= Visits(s.recvScript) + |FrameAll(payloads)|
      decreases |s.recvScript|
    {
      ghost var rest, visits, script := s.incoming, Visits(s.recvScript), s.recvScript;
      assert old(s.incoming)[|FrameAll(payloads)|..] == rest;
      var ok, payload := ReadFrame(s);
      if !ok {
        ServedNone(rest, script);
        FewerVisits(rest, visits, Visits(old(s.recvScript)) - |FrameAll(payloads)|);
        EachReplied(codec, payloads, onFocus, injected);
        return;
      }
      OneMoreRequest(codec, payloads, payload, onFocus, injected);
      ServedOne(payloads, rest, script, payload, s.incoming, s.recvScript);
      Respond(s, codec, payload, onFocus(|payloads|), injected(|payloads|));
      payloads := payloads + [payload];
    }
  }

  lemma NoRequests(codec: Codec, onFocus: nat -> Handle, injected: nat -> bool)
    ensures ReplyPayloads(codec, [], onFocus, injected) == [] && Framable([]) && FrameAll([]) == []
  {
  }

  lemma ServedNone(stream: seq<Byte>, script: seq<RecvOutcome>)
    requires NextFrame(stream, script) == None
    ensures Served(stream, script) == []
  {
  }

  lemma ServedOne(before: seq<seq<Byte>>, stream: seq<Byte>, script: seq<RecvOutcome>,
                  payload: seq<Byte>, rest: seq<Byte>, after: seq<RecvOutcome>)
    requires NextFrame(stream, script) == Some((payload, after))
    requires |payload| < 0x1_0000_0000 && stream == Frame(payload) + rest
    ensures before + Served(stream, script) == before + [payload] + Served(rest, after)
  {
    hide NextFrame, ToBigEndian;
    assert stream[HEADER + |payload|..] == rest;
    assert before + ([payload] + Served(rest, after)) == before + [payload] + Served(rest, after);
  }

  lemma FewerVisits(stream: seq<Byte>, visits: int, fewer: int)
    requires !Complete(stream, visits) && fewer <= visits
    ensures !Complete(stream, fewer)
  {
  }

  /** The length, then that many bytes. */
  method ReadFrame(s: Socket) returns (ok: bool, payload: seq<Byte>)
    modifies s`incoming, s`recvScript
    ensures ok <==> NextFrame(old(s.incoming), old(s.recvScript)).Some?
    ensures ok ==> NextFrame(old(s.incoming), old(s.recvScript)) == Some((payload, s.recvScript))
    ensures ok ==> |payload| < 0x1_0000_0000 && old(s.incoming) == Frame(payload) + s.incoming
    ensures ok ==> |s.recvScript| < |old(s.recvScript)|
    ensures ok ==> Visits(old(s.recvScript)) <= Visits(s.recvScript) + |Frame(payload)|
    ensures Complete(old(s.incoming), Visits(old(s.recvScript))) ==> ok
  {
    hide Supply, Visits, Holds, FromBigEndian, ToBigEndian, Reading;
    payload := [];
    var header := new Byte[HEADER];
    ghost var got;
    ok, got := ReadN(s, header, HEADER);
    if ok {
      assert header[..] == header[..HEADER];
      var size := FromBigEndian(header[..]);
      BigEndianRoundTripBack(header[..]);
      if size >= 0x8000_0000 {
        return false, [];
      }
      var buffer := new Byte[size];
      ok, got := ReadN(s, buffer, size);
      payload := buffer[..];
      assert ok ==> payload == buffer[..size] == old(s.incoming)[HEADER..][..size]
                 == old(s.incoming)[HEADER..HEADER + size];
    }
  }

  method Respond(s: Socket, codec: Codec, payload: seq<Byte>, onFocus: Handle, injected: bool)
    requires codec.Lawful()
    modifies s`outgoing
    ensures |ReplyPayload(codec, payload, onFocus, injected)| < 0x1_0000_0000
    ensures s.outgoing == old(s.outgoing) + Frame(ReplyPayload(codec, payload, onFocus, injected))
    ensures var reply := ReplyPayload(codec, payload, onFocus, injected);
            Replies(codec, reply, codec.parseRequest(payload), onFocus, injected)
  {
    var request := codec.parseRequest(payload);
    var reply;
    if request.appId == onFocus && injected {
      reply := Response(request.reqId, Success);
    } else {
      reply := Response(request.reqId, WindowLostFocus);
    }
    var response := codec.eventBytes(EMPTY_EVENT.(response := Some(reply)));
    s.outgoing := s.outgoing + ToBigEndian(|response|);
    s.outgoing := s.outgoing + response;
  }

  lemma OneMoreRequest(codec: Codec, payloads: seq<seq<Byte>>, payload: seq<Byte>,
                       onFocus: nat -> Handle, injected: nat -> bool)
    requires codec.Lawful() && Framable(payloads) && |payload| < 0x1_0000_0000
    requires Framable(ReplyPayloads(codec, payloads, onFocus, injected))
    ensures |ReplyPayload(codec, payload, onFocus(|payloads|), injected(|payloads|))| < 0x1_0000_0000
    ensures Framable(payloads + [payload]) && FrameAll(payloads + [payload]) == FrameAll(payloads) + Frame(payload)
    ensures var before := ReplyPayloads(codec, payloads, onFocus, injected);
            var after := ReplyPayloads(codec, payloads + [payload], onFocus, injected);
            var reply := ReplyPayload(codec, payload, onFocus(|payloads|), injected(|payloads|));
            Framable(after) && FrameAll(after) == FrameAll(before) + Frame(reply)
  {
    var before := ReplyPayloads(codec, payloads, onFocus, injected);
    var reply := ReplyPayload(codec, payload, onFocus(|payloads|), injected(|payloads|));
    ReplyPayloadsSnoc(codec, payloads, payload, onFocus, injected);
    ReplyFits(codec, payload, onFocus(|payloads|), injected(|payloads|));
    hide ReplyPayloads, ReplyPayload, Codec.Lawful, Frame;
    FrameAllSnoc(payloads, payload);
    FrameAllSnoc(before, reply);
  }

  lemma ReplyFits(codec: Codec, payload: seq<Byte>, onFocus: Handle, injected: bool)
    requires codec.Lawful()
    ensures |ReplyPayload(codec, payload, onFocus, injected)| < 0x1_0000_0000
  {
  }

  lemma ReplyPayloadsSnoc(codec: Codec, payloads: seq<seq<Byte>>, payload: seq<Byte>,
                          onFocus: nat -> Handle, injected: nat -> bool)
    ensures ReplyPayloads(codec, payloads + [payload], onFocus, injected)
         == ReplyPayloads(codec, payloads, onFocus, injected)
          + [ReplyPayload(codec, payload, onFocus(|payloads|), injected(|payloads|))]
  {
  }

  /** The framing is prefix-free: a prefix of encoded frames that is itself frames is the first of them. */
  lemma {:induction false} FramesPrefixFree(p: seq<seq<Byte>>, q: seq<seq<Byte>>)
    requires Framable(p) && Framable(q) && FrameAll(p) <= FrameAll(q)
    ensures |p| <= |q| && p == q[..|p|]
    decreases |p|
  {
    if p != [] {
      assert q != [];
      assert Framable(p[1..]) && Framable(q[1..]);
      FirstFrame(p[0], FrameAll(p[1..]), q[0], FrameAll(q[1..]));
      FramesPrefixFree(p[1..], q[1..]);
      assert p == [p[0]] + p[1..] && q[..|p|] == [q[0]] + q[1..][..|p| - 1];
    }
  }

  lemma FirstFrame(p: seq<Byte>, ps: seq<Byte>, q: seq<Byte>, qs: seq<Byte>)
    requires |p| < 0x1_0000_0000 && |q| < 0x1_0000_0000
    requires Frame(p) + ps <= Frame(q) + qs
    ensures p == q && ps <= qs
  {
    hide ToBigEndian, FromBigEndian;
    var a, b := Frame(p) + ps, Frame(q) + qs;
    assert a[..HEADER] == b[..HEADER];
    assert a[..HEADER] == ToBigEndian(|p|) && b[..HEADER] == ToBigEndian(|q|);
    BigEndianRoundTrip(|p|);
    BigEndianRoundTrip(|q|);
    var n := |p|;
    assert a[HEADER..HEADER + n] == p && b[HEADER..HEADER + n] == q;
    assert a[HEADER + n..] == ps && b[HEADER + n..] == qs;
  }

  function RequestPayloads(codec: Codec, requests: seq<KeystrokeRequest>): seq<seq<Byte>> {
    seq(|requests|, i requires 0 <= i < |requests| => codec.requestBytes(requests[i]))
  }

  /**
    What the server takes off a stream of requests are those requests, in order from the
    first on, and the i-th response carries the id of the i-th request.
  */
  lemma {:induction false} RequestsReadBack(codec: Codec, requests: seq<KeystrokeRequest>, payloads: seq<seq<Byte>>,
                         onFocus: nat -> Handle, injected: nat -> bool)
    requires codec.Lawful() && Framable(payloads) && Framable(RequestPayloads(codec, requests))
    requires FrameAll(payloads) <= FrameAll(RequestPayloads(codec, requests))
    ensures |payloads| <= |requests|
    ensures forall i :: 0 <= i < |payloads| ==>
              && codec.parseRequest(payloads[i]) == requests[i]
              && codec.parseEvent(ReplyPayloads(codec, payloads, onFocus, injected)[i]).response
              == Some(Reply(requests[i], onFocus(i), injected(i)))
              && Replies(codec, ReplyPayloads(codec, payloads, onFocus, injected)[i],
                   requests[i], onFocus(i), injected(i))
  {
    hide Codec.Lawful, Replies, ReplyPayload;
    FramesPrefixFree(payloads, RequestPayloads(codec, requests));
    forall i | 0 <= i < |payloads|
      ensures codec.parseRequest(payloads[i]) == requests[i]
      ensures codec.parseEvent(ReplyPayloads(codec, payloads, onFocus, injected)[i]).response
           == Some(Reply(requests[i], onFocus(i), injected(i)))
      ensures Replies(codec, ReplyPayloads(codec, payloads, onFocus, injected)[i], requests[i], onFocus(i), injected(i))
    {
      ReplyPayloadReplies(codec, payloads[i], onFocus(i), injected(i));
      ReplyReadsBack(codec, requests[i], onFocus(i), injected(i));
    }
  }

  lemma ReplyReadsBack(codec: Codec, request: KeystrokeRequest, onFocus: Handle, injected: bool)
    requires codec.Lawful()
    ensures codec.parseRequest(codec.requestBytes(request)) == request
    ensures codec.parseEvent(ReplyPayload(codec, codec.requestBytes(request), onFocus, injected)).response
         == Some(Reply(request, onFocus, injected))
  {
  }
}
