/**
  The client's `MessageStream`: a two-state decoder that consumes whatever its device
  has, whenever the device says that more has arrived.
*/
module MessageStreams {
  import opened Wire
  import opened Framing

  /** A buffered device: bytes that arrived and are unread, and bytes written to it. */
  class Device {
    var unread: seq<Byte>
    var written: seq<Byte>
    var faults: seq<bool>  // for each read to come, whether it fails; those beyond succeed

    constructor (faults: seq<bool>)
      ensures unread == [] && written == [] && this.faults == faults
    {
      unread, written := [], [];
      this.faults := faults;
    }

    /** At most `max` bytes; -1 on error. */
    method Read(max: nat) returns (n: int, data: seq<Byte>)
      modifies this`unread, this`faults
      ensures faults == Next(old(faults))
      ensures n == -1 <==> Fails(old(faults))
      ensures n == -1 ==> unread == old(unread)
      ensures n != -1 ==> n == |data| && n == if max < |old(unread)| then max else |old(unread)|
      ensures n != -1 ==> old(unread) == data + unread
    {
      if faults != [] {
        var fails := faults[0];
        faults := faults[1..];
        if fails {
          return -1, [];
        }
      }
      n := if max < |unread| then max else |unread|;
      data := unread[..n];
      unread := unread[n..];
    }
  }

  /** The next read fails. */
  predicate Fails(faults: seq<bool>) {
    faults != [] && faults[0]
  }

  /** What is to come after the next read. */
  function Next(faults: seq<bool>): seq<bool> {
    if faults == [] then [] else faults[1..]
  }

  /** Some read between two states of a device has failed. */
  predicate Failed(before: seq<bool>, after: seq<bool>) {
    |after| <= |before| && true in before[..|before| - |after|]
  }

  /** The reads between two states were those to come, in order. */
  predicate Consumed(before: seq<bool>, after: seq<bool>) {
    |after| <= |before| && before[|before| - |after|..] == after
  }

  const MAX_READ: Uint32 := 1024

  /** The bytes a decoder state stands for, header of the current message included. */
  function FlatBytes(msgbuf: Option<seq<Byte>>, remaining: Uint32, unread: seq<Byte>): seq<Byte>
    requires msgbuf.Some? ==> |msgbuf.value| + remaining < 0x1_0000_0000
  {
    match msgbuf
    case None => unread
    case Some(b) => ToBigEndian(|b| + remaining) + b + unread
  }

  /** Everything one pass of the decoder depends on, the device's part included. */
  datatype Decoder = Decoder(msgbuf: Option<seq<Byte>>, remaining: Uint32, unread: seq<Byte>, faults: seq<bool>) {
    /** What was read and what is missing make up a length of 32 bits. */
    predicate Sized() {
      msgbuf.Some? ==> |msgbuf.value| + remaining < 0x1_0000_0000
    }

    /** A message being read still lacks bytes, unless its length was announced as zero. */
    predicate Ok() {
      Sized() && (msgbuf.Some? && remaining == 0 ==> msgbuf.value == [])
    }

    function Flat(): seq<Byte>
      requires Sized()
    {
      FlatBytes(msgbuf, remaining, unread)
    }
  }

  /** First state: the announced length is taken off the device. */
  function AfterLength(d: Decoder): (e: Decoder)
    requires d.msgbuf == None && |d.unread| >= HEADER
    ensures e.Ok()
  {
    Decoder(Some([]), FromBigEndian(d.unread[..HEADER]), d.unread[HEADER..], Next(d.faults))
  }

  /** Second state: at most `MAX_READ` of the missing bytes go to the buffer. */
  function AfterData(d: Decoder): (e: Decoder)
    requires d.Sized() && d.msgbuf.Some?
    ensures e.Sized() && e.msgbuf.Some?
  {
    var n := Least(if d.remaining < MAX_READ then d.remaining else MAX_READ, |d.unread|);
    Decoder(Some(d.msgbuf.value + d.unread[..n]), d.remaining - n, d.unread[n..], Next(d.faults))
  }

  function Least(a: nat, b: nat): nat {
    if a < b then a else b
  }

  /** How a pass ends: nothing is left to read, nothing can be, or a read failed. */
  datatype Ending = Drained | Spinning | LengthReadFailed | DataReadFailed

  /** What a pass reports, what it loses, the state it leaves and how it ended. */
  datatype Outcome = Outcome(received: seq<seq<Byte>>, lost: seq<Byte>, state: Decoder, ending: Ending) {
    predicate Interrupted() {
      ending == LengthReadFailed || ending == DataReadFailed
    }

    function Behind(message: seq<Byte>): Outcome {
      this.(received := [message] + received)
    }
  }

  /** One pass of the decoder, as a function of its state, the pending bytes and the reads that fail. */
  function Pass(d: Decoder): Outcome
    requires d.Ok()
    decreases |d.unread|, |d.faults|, 1
  {
    if d.unread == [] then Outcome([], [], d, Drained)
    else if d.msgbuf.Some? then PassData(d)
    else if |d.unread| < HEADER then Outcome([], [], d, Drained)
    else if Fails(d.faults) then Outcome([], [], d.(faults := Next(d.faults)), LengthReadFailed)
    else PassData(AfterLength(d))
  }

  function PassData(d: Decoder): Outcome
    requires d.Ok() && d.msgbuf.Some?
    decreases |d.unread|, |d.faults|, 0
  {
    var e := AfterData(d);
    if Fails(d.faults) then
      Outcome([], ToBigEndian(|d.msgbuf.value| + d.remaining) + d.msgbuf.value,
        d.(msgbuf := None, faults := Next(d.faults)), DataReadFailed)
    else if |e.unread| == |d.unread| then
      if e.unread == [] then Outcome([], [], e, Drained)
      else if e.faults == [] then Outcome([], [], e, Spinning)
      else Pass(e)
    else if e.remaining == 0 then Pass(e.(msgbuf := None)).Behind(e.msgbuf.value)
    else Pass(e)
  }

  class MessageStream {
    var dev: Device?
    var msgbuf: Option<seq<Byte>>
    var remaining: Uint32  // meaningful only while a message is being read

    ghost predicate Valid()
      reads this
    {
      msgbuf.Some? ==>
        && |msgbuf.value| + remaining < 0x1_0000_0000
        && (remaining == 0 ==> msgbuf.value == [])
    }

    function State(): Decoder
      requires dev != null
      reads this, dev
    {
      Decoder(msgbuf, remaining, dev.unread, dev.faults)
    }

    ghost function Flat(): seq<Byte>
      requires Valid() && dev != null
      reads this, dev
    {
      FlatBytes(msgbuf, remaining, dev.unread)
    }

    constructor (device: Device?)
      ensures Valid() && dev == device && msgbuf == None
    {
      dev, msgbuf := device, None;
    }

    /** Changing device forgets the message being read, but only if there was a device before. */
    method SetDevice(device: Device?)
      requires Valid()
      modifies this
      ensures Valid() && dev == device
      ensures old(dev) != null ==> msgbuf == None && remaining == 0
      ensures old(dev) == null ==> msgbuf == old(msgbuf) && remaining == old(remaining)
    {
      if dev != null {
        Reset();
      }
      dev := device;
    }

    method Reset()
      modifies this`msgbuf, this`remaining
      ensures Valid() && msgbuf == None && remaining == 0
    {
      msgbuf := None;
      remaining := 0;
    }

    /**
      One pass of the decoder over everything that is available: what it reports, loses and
      leaves is `Pass` of the state before. Unless a read fails, the messages it reports and
      the bytes it is left with are those of `Scan`, so they depend on the bytes alone, and it
      spins on an empty frame where `Scan` is stuck. When a read fails, what was reported
      before stays reported; bytes are lost exactly if that read was not the one of a length,
      namely the length of the message being read and what had been read of it.
    */
    method ReadyRead() returns (received: seq<seq<Byte>>, ending: Ending, ghost lost: seq<Byte>)
      requires Valid() && dev != null
      modifies this`msgbuf, this`remaining, dev`unread, dev`faults
      ensures Outcome(received, lost, State(), ending) == Pass(old(State()))
      ensures Valid() && Consumed(old(dev.faults), dev.faults)
      ensures received <= Scan(old(Flat())).frames
      ensures Framable(received) && old(Flat()) == FrameAll(received) + lost + Flat()
      ensures Failed(old(dev.faults), dev.faults) <==> ending == LengthReadFailed || ending == DataReadFailed
      ensures !Failed(old(dev.faults), dev.faults) ==>
                lost == [] && Scan(old(Flat())) == Scanned(received, Flat(), ending == Spinning)
      ensures Failed(old(dev.faults), dev.faults) ==>
                && msgbuf == None && Scan(lost) == Scanned([], lost, false)
                && (lost == [] <==> ending == LengthReadFailed) && (lost == [] || |lost| >= HEADER)
    {
      hide Scan, ToBigEndian, FlatBytes, Failed, Consumed, FrameAll, Framable, Pass;
      PassMeans(State());
      received, ending, lost := Consume();
    }

    /** The loop of the slot. */
    method Consume() returns (received: seq<seq<Byte>>, ending: Ending, ghost lost: seq<Byte>)
      requires Valid() && dev != null
      modifies this`msgbuf, this`remaining, dev`unread, dev`faults
      ensures Valid() && Outcome(received, lost, State(), ending) == Pass(old(State()))
    {
      hide FlatBytes, Decoder.Flat, ToBigEndian, FromBigEndian, Pass, PassData, AfterLength, AfterData,
           Fails;
      received, lost, ending := [], [], Drained;
      ghost var start := State();
      while |dev.unread| > 0
        invariant Valid() && ending == Drained && lost == []
        invariant Pass(start) == AfterAll(received, Pass(State()))
        decreases |dev.unread|, |dev.faults|
      {
        if msgbuf == None {
          if |dev.unread| < HEADER {
            break;
          }
          PassLength(State());
          LengthShrinks(State());
          var ok := ReadLength();
          if !ok {
            ending := LengthReadFailed;
            break;
          }
        } else {
          PassBuffered(State());
        }
        DataStep(State());
        var n := ReadData();
        if n == 0 {
          if |dev.unread| > 0 && dev.faults == [] {
            // Nothing was read and nothing changed: every further iteration is this one.
            ending := Spinning;
            break;
          }
          continue;
        }
        if n == -1 {
          lost := ToBigEndian(|msgbuf.value| + remaining) + msgbuf.value;
          ending := DataReadFailed;
          break;
        }
        if remaining == 0 {
          AfterOneMore(received, msgbuf.value, Pass(State().(msgbuf := None)));
          received := received + [msgbuf.value];
          msgbuf := None;
        }
      }
      if ending == LengthReadFailed || ending == DataReadFailed {
        msgbuf := None;
      }
      if ending == Drained {
        PassDrained(State());
      }
    }

    /** First state of the decoder: take the announced length off the device. */
    method ReadLength() returns (ok: bool)
      requires Valid() && dev != null && msgbuf == None && |dev.unread| >= HEADER
      modifies this`msgbuf, this`remaining, dev`unread, dev`faults
      ensures !ok <==> Fails(old(dev.faults))
      ensures State() == if ok then AfterLength(old(State())) else old(State()).(faults := dev.faults)
      ensures Valid() && dev.faults == Next(old(dev.faults)) && Flat() == old(Flat())
    {
      var n, header := dev.Read(HEADER);
      if n == -1 {
        return false;
      }
      remaining := FromBigEndian(header);
      msgbuf := Some([]);
      LengthFlat(old(State()));
      ok := true;
    }

    /** Second state of the decoder: move at most `MAX_READ` of the missing bytes to the buffer. */
    method ReadData() returns (n: int)
      requires Valid() && dev != null && msgbuf.Some?
      modifies this`msgbuf, this`remaining, dev`unread, dev`faults
      ensures n == -1 <==> Fails(old(dev.faults))
      ensures State() == if n == -1 then old(State()).(faults := dev.faults) else AfterData(old(State()))
      ensures dev.faults == Next(old(dev.faults)) && State().Sized() && State().Flat() == old(Flat())
      ensures n != -1 ==> n == |old(dev.unread)| - |dev.unread| <= 1024
      ensures 0 <= n < 1024 ==> remaining == 0 || dev.unread == []
    {
      var data;
      n, data := dev.Read(if remaining < MAX_READ then remaining else MAX_READ);
      if n == -1 {
        return;
      }
      msgbuf := Some(msgbuf.value + data);
      remaining := remaining - n;
      DataFlat(old(State()));
    }

    /** Big-endian length, then the data; the length is cut to 32 bits. */
    method SendMessage(data: seq<Byte>)
      requires dev != null
      modifies dev`written
      ensures |data| < 0x1_0000_0000 ==> dev.written == old(dev.written) + Frame(data)
      ensures dev.written == old(dev.written) + ToBigEndian(|data| % 0x1_0000_0000) + data
    {
      var len: Uint32 := |data| % 0x1_0000_0000;
      dev.written := dev.written + ToBigEndian(len);
      dev.written := dev.written + data;
    }
  }

  // ---------- what a pass means for the bytes ----------

  function AfterAll(received: seq<seq<Byte>>, o: Outcome): Outcome {
    o.(received := received + o.received)
  }

  lemma AfterOneMore(received: seq<seq<Byte>>, message: seq<Byte>, o: Outcome)
    ensures AfterAll(received, o.Behind(message)) == AfterAll(received + [message], o)
  {
    assert received + ([message] + o.received) == received + [message] + o.received;
  }

  lemma PassLength(d: Decoder)
    requires d.Ok() && d.msgbuf == None && |d.unread| >= HEADER
    ensures Pass(d) == if Fails(d.faults) then Outcome([], [], d.(faults := Next(d.faults)), LengthReadFailed)
                       else PassData(AfterLength(d))
  {
  }

  lemma PassBuffered(d: Decoder)
    requires d.Ok() && d.msgbuf.Some? && d.unread != []
    ensures Pass(d) == PassData(d)
  {
  }

  /** One read of data: what it leaves, and what the rest of the pass is. */
  lemma DataStep(d: Decoder)
    requires d.Ok() && d.msgbuf.Some?
    ensures var e := AfterData(d); |e.unread| <= |d.unread| && e.faults == Next(d.faults)
    ensures var e := AfterData(d);
            |e.unread| == |d.unread| ==>
              && e.Ok()
              && var o := if e.unread != [] && e.faults == [] then Outcome([], [], e, Spinning) else Pass(e);
                 (!Fails(d.faults) ==> PassData(d) == o)
    ensures var e := AfterData(d);
            |e.unread| < |d.unread| && e.remaining != 0 ==> e.Ok() && (!Fails(d.faults) ==> PassData(d) == Pass(e))
    ensures var e := AfterData(d);
            |e.unread| < |d.unread| && e.remaining == 0 ==>
              (!Fails(d.faults) ==> PassData(d) == Pass(e.(msgbuf := None)).Behind(e.msgbuf.value))
    ensures var lost := ToBigEndian(|d.msgbuf.value| + d.remaining) + d.msgbuf.value;
            var left := d.(msgbuf := None, faults := Next(d.faults));
            Fails(d.faults) ==> PassData(d) == Outcome([], lost, left, DataReadFailed)
  {
    DataShrinks(d);
  }

  lemma PassDrained(d: Decoder)
    requires d.Ok() && (d.unread == [] || (d.msgbuf == None && |d.unread| < HEADER))
    ensures Pass(d) == Outcome([], [], d, Drained)
  {
  }

  lemma LengthFlat(d: Decoder)
    requires d.msgbuf == None && |d.unread| >= HEADER
    ensures AfterLength(d).Flat() == d.Flat()
  {
    var header := d.unread[..HEADER];
    BigEndianRoundTripBack(header);
    assert header + [] + d.unread[HEADER..] == d.unread;
  }

  lemma DataFlat(d: Decoder)
    requires d.Sized() && d.msgbuf.Some?
    ensures AfterData(d).Flat() == d.Flat()
  {
    var e := AfterData(d);
    assert e.msgbuf.value + e.unread == d.msgbuf.value + d.unread;
    hide ToBigEndian;
    var length := ToBigEndian(|d.msgbuf.value| + d.remaining);
    assert length + e.msgbuf.value + e.unread == length + (d.msgbuf.value + d.unread);
    assert length + d.msgbuf.value + d.unread == length + (d.msgbuf.value + d.unread);
  }

  /** A read takes nothing only of an empty message or an empty device. */
  lemma DataShrinks(d: Decoder)
    requires d.Ok() && d.msgbuf.Some?
    ensures var e := AfterData(d);
            && |e.unread| <= |d.unread| && e.faults == Next(d.faults)
            && (|e.unread| == |d.unread| ==> e.Ok() && (e.unread == [] || (e.remaining == 0 && e.msgbuf == Some([]))))
            && (|e.unread| < |d.unread| ==> (if e.remaining == 0 then 0 < |e.msgbuf.value| < 0x1_0000_0000 else e.Ok()))
  {
  }

  /** `received` and the undecoded `rest` make up the bytes, and decoding them all comes to the same. */
  ghost predicate Decoded(flat: seq<Byte>, received: seq<seq<Byte>>, rest: seq<Byte>) {
    && Scan(flat) == Before(received, Scan(rest))
    && Framable(received) && flat == FrameAll(received) + rest
  }

  /** What the outcome says of the bytes it came from. */
  ghost predicate Explains(flat: seq<Byte>, o: Outcome) {
    && o.state.Ok() && Decoded(flat, o.received, o.lost + o.state.Flat())
    && if o.Interrupted() then
         && o.state.msgbuf == None && Scan(o.lost) == Scanned([], o.lost, false)
         && (o.lost == [] <==> o.ending == LengthReadFailed) && (o.lost == [] || |o.lost| >= HEADER)
       else
         o.lost == [] && Scan(o.state.Flat()) == Scanned([], o.state.Flat(), o.ending == Spinning)
  }

  /** ... and of the reads. */
  predicate Accounts(faults: seq<bool>, o: Outcome) {
    Consumed(faults, o.state.faults) && (Failed(faults, o.state.faults) <==> o.Interrupted())
  }

  lemma OneMoreRead(faults: seq<bool>, o: Outcome)
    requires !Fails(faults) && Accounts(Next(faults), o)
    ensures Accounts(faults, o)
  {
    if faults != [] {
      var k := |faults| - |o.state.faults|;
      assert faults[..k] == [faults[0]] + faults[1..][..k - 1] && faults[k..] == faults[1..][k - 1..];
    }
  }

  lemma LastRead(faults: seq<bool>, o: Outcome)
    requires Fails(faults) && o.Interrupted() && o.state.faults == Next(faults)
    ensures Accounts(faults, o)
  {
    assert faults[..1] == [faults[0]];
  }

  lemma NoMoreRead(o: Outcome)
    requires !o.Interrupted()
    ensures Accounts(o.state.faults, o)
  {
  }

  lemma {:induction false} PassExplained(d: Decoder)
    requires d.Ok()
    ensures Explains(d.Flat(), Pass(d)) && Accounts(d.faults, Pass(d))
    decreases |d.unread|, |d.faults|, 1
  {
    hide Explains, Accounts, PassData, AfterLength, FlatBytes, Fails, Next;
    if d.unread == [] || (d.msgbuf == None && |d.unread| < HEADER) {
      StopExplained(d);
      NoMoreRead(Pass(d));
    } else if d.msgbuf.Some? {
      PassDataExplained(d);
    } else if Fails(d.faults) {
      LengthExplained(d);
      LastRead(d.faults, Pass(d));
    } else {
      LengthFlat(d);
      LengthShrinks(d);
      PassDataExplained(AfterLength(d));
      OneMoreRead(d.faults, Pass(d));
    }
  }

  lemma LengthShrinks(d: Decoder)
    requires d.msgbuf == None && |d.unread| >= HEADER
    ensures |AfterLength(d).unread| < |d.unread| && AfterLength(d).faults == Next(d.faults)
    ensures AfterLength(d).msgbuf.Some?
  {
  }

  lemma {:induction false} PassDataExplained(d: Decoder)
    requires d.Ok() && d.msgbuf.Some?
    ensures Explains(d.Flat(), PassData(d)) && Accounts(d.faults, PassData(d))
    decreases |d.unread|, |d.faults|, 0
  {
    hide Explains, Consumed, Failed, Pass, AfterData, FlatBytes, Fails, ToBigEndian;
    var e := AfterData(d);
    DataFlat(d);
    DataShrinks(d);
    if Fails(d.faults) {
      DataExplained(d);
      LastRead(d.faults, PassData(d));
    } else {
      if |e.unread| == |d.unread| {
        if e.unread == [] {
          StopExplained(e);
          NoMoreRead(PassData(d));
        } else if e.faults == [] {
          SpinExplained(e);
          NoMoreRead(PassData(d));
        } else {
          PassExplained(e);
        }
      } else if e.remaining == 0 {
        PassExplained(e.(msgbuf := None));
        NoBuffer(e.(msgbuf := None));
        BehindExplained(e);
      } else {
        PassExplained(e);
      }
      OneMoreRead(d.faults, PassData(d));
    }
  }

  lemma NothingReceived(rest: seq<Byte>)
    ensures Decoded(rest, [], rest) && Decoded(rest, [], [] + rest)
  {
    hide Scan;
    assert [] + Scan(rest).frames == Scan(rest).frames && FrameAll([]) + rest == rest && [] + rest == rest;
  }

  lemma StopExplained(d: Decoder)
    requires d.Ok() && (d.unread == [] || (d.msgbuf == None && |d.unread| < HEADER))
    ensures Explains(d.Flat(), Outcome([], [], d, Drained))
  {
    hide Scan, Decoded, FlatBytes;
    NothingReceived(d.Flat());
    DrainedScan(d.msgbuf, d.remaining, d.unread);
  }

  lemma LengthExplained(d: Decoder)
    requires d.Ok() && d.msgbuf == None && d.unread != []
    ensures Explains(d.Flat(), Outcome([], [], d.(faults := Next(d.faults)), LengthReadFailed))
  {
    hide Decoded;
    NothingReceived(d.Flat());
  }

  lemma SpinExplained(d: Decoder)
    requires d.Ok() && d.unread != [] && d.remaining == 0 && d.msgbuf == Some([])
    ensures Explains(d.Flat(), Outcome([], [], d, Spinning))
  {
    hide Scan, Decoded;
    NothingReceived(d.Flat());
    ScanEmptyFrame(d.unread);
    assert Frame([]) + d.unread == ToBigEndian(0) + [] + d.unread;
  }

  /** A read of data failed: the length and what was read of the message are lost. */
  lemma DataExplained(d: Decoder)
    requires d.Ok() && d.msgbuf.Some?
    ensures var lost := ToBigEndian(|d.msgbuf.value| + d.remaining) + d.msgbuf.value;
            Explains(d.Flat(), Outcome([], lost, d.(msgbuf := None, faults := Next(d.faults)), DataReadFailed))
  {
    hide Scan, Decoded, ToBigEndian;
    var lost := ToBigEndian(|d.msgbuf.value| + d.remaining) + d.msgbuf.value;
    NothingReceived(d.Flat());
    DrainedScan(d.msgbuf, d.remaining, []);
    assert FlatBytes(d.msgbuf, d.remaining, []) == lost;
    assert [] + (lost + d.unread) == d.Flat();
    NothingReceived(lost + d.unread);
  }

  /** A complete message in front. */
  lemma BehindExplained(d: Decoder)
    requires d.Sized() && d.msgbuf.Some? && d.remaining == 0 && 0 < |d.msgbuf.value|
    requires Explains(d.unread, Pass(d.(msgbuf := None)))
    ensures Explains(d.Flat(), Pass(d.(msgbuf := None)).Behind(d.msgbuf.value))
  {
    hide Scan, Pass;
    var b, o := d.msgbuf.value, Pass(d.(msgbuf := None));
    var rest := o.lost + o.state.Flat();
    ScanFrame(b, d.unread);
    assert Frame(b) + d.unread == ToBigEndian(|b|) + b + d.unread;
    BeforeBefore([b], o.received, Scan(rest));
    FrameInFront(b, o.received, rest);
  }

  lemma FrameInFront(b: seq<Byte>, received: seq<seq<Byte>>, rest: seq<Byte>)
    requires |b| < 0x1_0000_0000 && Framable(received)
    ensures Framable([b] + received)
    ensures Frame(b) + (FrameAll(received) + rest) == FrameAll([b] + received) + rest
  {
    hide Frame;
    assert ([b] + received)[1..] == received;
    assert Frame(b) + (FrameAll(received) + rest) == Frame(b) + FrameAll(received) + rest;
  }

  /** What a pass reports and loses, in terms of the bytes it had before it. */
  lemma {:induction false} PassMeans(d: Decoder)
    requires d.Ok()
    ensures var o := Pass(d);
            && o.state.Ok() && Accounts(d.faults, o)
            && o.received <= Scan(d.Flat()).frames
            && Framable(o.received) && d.Flat() == FrameAll(o.received) + o.lost + o.state.Flat()
            && (!o.Interrupted() ==>
                  o.lost == [] && Scan(d.Flat()) == Scanned(o.received, o.state.Flat(), o.ending == Spinning))
            && (o.Interrupted() ==>
                  && o.state.msgbuf == None && Scan(o.lost) == Scanned([], o.lost, false)
                  && (o.lost == [] <==> o.ending == LengthReadFailed) && (o.lost == [] || |o.lost| >= HEADER))
  {
    hide Pass, Scan, FlatBytes, Accounts;
    PassExplained(d);
    var o := Pass(d);
    assert FrameAll(o.received) + (o.lost + o.state.Flat()) == FrameAll(o.received) + o.lost + o.state.Flat();
    if !o.Interrupted() {
      assert [] + o.state.Flat() == o.state.Flat() && o.received + [] == o.received;
    }
  }

  /** Encoded messages of which a first part is lost decode to themselves only if that part is empty. */
  lemma LostFrames(more: seq<seq<Byte>>, lost: seq<Byte>, rest: seq<Byte>)
    requires Framable(more) && [] !in more && FrameAll(more) == lost + rest
    ensures Scan(rest).frames == more <==> lost == []
  {
    hide Scan;
    if lost == [] {
      assert lost + rest == rest;
      DecodeUndoesEncode(more);
    } else {
      EncodeUndoesDecode(rest);
    }
  }

  /**
    A failing read costs nothing if and only if it is the read of a length. In a stream of
    non-empty messages: what was reported until then are the first of them, and from the
    bytes that are left and those to come, however they are cut, exactly the others are
    decoded if that read was to bring a length; if it was to bring data they are not.
  */
  lemma {:induction false} FailureHarmless(d: Decoder, arrivals: seq<seq<Byte>>, payloads: seq<seq<Byte>>)
    requires d.Ok() && Pass(d).Interrupted()
    requires Framable(payloads) && [] !in payloads && d.Flat() + Concat(arrivals) == FrameAll(payloads)
    ensures var o := Pass(d); var k := |o.received|;
            && k <= |payloads| && o.received == payloads[..k]
            && (Deliver(o.state.unread, arrivals).frames == payloads[k..] <==> o.ending == LengthReadFailed)
  {
    hide Pass, Scan, FlatBytes, Accounts, FrameAll, Concat, Deliver;
    PassMeans(d);
    var o := Pass(d);
    PrefixInOrder(payloads, d.Flat(), Concat(arrivals));
    NoBuffer(o.state);
    OthersDecoded(o.received, o.lost, o.state.unread, Concat(arrivals), payloads);
    AnyCutIsNoCut(o.state.unread, arrivals);
  }

  lemma {:induction false} OthersDecoded(
    received: seq<seq<Byte>>, lost: seq<Byte>, rest: seq<Byte>, later: seq<Byte>, payloads: seq<seq<Byte>>)
    requires Framable(payloads) && [] !in payloads && received <= payloads
    requires FrameAll(received) + lost + rest + later == FrameAll(payloads)
    ensures Scan(rest + later).frames == payloads[|received|..] <==> lost == []
  {
    hide Scan, FrameAll;
    var others := payloads[|received|..];
    assert payloads == received + others;
    FrameAllAppend(received, others);
    assert FrameAll(received) + (lost + (rest + later)) == FrameAll(received) + lost + rest + later;
    SameTail(FrameAll(received), lost + (rest + later), FrameAll(others));
    LostFrames(others, lost, rest + later);
  }

  lemma SameTail(p: seq<Byte>, a: seq<Byte>, b: seq<Byte>)
    requires p + a == p + b
    ensures a == b
  {
    assert (p + a)[|p|..] == a && (p + b)[|p|..] == b;
  }

  lemma NoBuffer(d: Decoder)
    requires d.Sized() && d.msgbuf == None
    ensures d.Flat() == d.unread
  {
  }

  /**
    One message is on its way, the read after that of its length fails, and the next pass
    reports another message, which was never sent.
  */
  method MisframingRun(dev: Device, sent: seq<Byte>, other: seq<Byte>)
    returns (first: seq<seq<Byte>>, second: seq<seq<Byte>>)
    requires 0 < |other| < 0x1_0000_0000 - HEADER && sent == Frame(other)
    requires dev.unread == Frame(sent) && dev.faults == [false, true]
    modifies dev
    ensures first == [] && second == [other] && other != sent
    ensures Scan(old(dev.unread)).frames == [sent] && dev.unread == []
  {
    hide Scan, ToBigEndian, FromBigEndian, FrameAll;
    var stream := new MessageStream(dev);
    ghost var d := stream.State();
    HeaderThenFault(d, sent);
    var ending;
    ghost var lost;
    first, ending, lost := stream.ReadyRead();
    assert dev.unread == sent && stream.msgbuf == None && dev.faults == [];
    assert stream.Flat() == sent;
    OneFrame(other);
    OneFrame(sent);
    second, ending, lost := stream.ReadyRead();
    assert stream.Flat() == [];
    FlatNonEmpty(stream.State());
  }

  lemma OneFrame(payload: seq<Byte>)
    requires 0 < |payload| < 0x1_0000_0000
    ensures Scan(Frame(payload)) == Scanned([payload], [], false)
  {
    hide ToBigEndian, FromBigEndian;
    ScanFrame(payload, []);
    assert Frame(payload) + [] == Frame(payload) && [payload] + [] == [payload];
  }

  lemma FlatNonEmpty(d: Decoder)
    requires d.Sized() && d.Flat() == []
    ensures d.unread == []
  {
  }

  lemma HeaderThenFault(d: Decoder, sent: seq<Byte>)
    requires d.msgbuf == None && |sent| < 0x1_0000_0000 && d.unread == ToBigEndian(|sent|) + sent
    requires d.faults == [false, true]
    ensures d.Ok() && Pass(d) == Outcome([], ToBigEndian(|sent|) + [], Decoder(None, |sent|, sent, []), DataReadFailed)
  {
    hide ToBigEndian, FromBigEndian;
    BigEndianRoundTrip(|sent|);
    assert d.unread[..HEADER] == ToBigEndian(|sent|) && d.unread[HEADER..] == sent;
    assert Next([false, true]) == [true] && Next([true]) == [];
    assert AfterLength(d) == Decoder(Some([]), |sent|, sent, [true]);
  }

  /** With nothing left to consume, the decoder has reported every complete message. */
  lemma DrainedScan(msgbuf: Option<seq<Byte>>, remaining: Uint32, unread: seq<Byte>)
    requires msgbuf.Some? ==> |msgbuf.value| + remaining < 0x1_0000_0000
    requires msgbuf.Some? && remaining == 0 ==> msgbuf.value == []
    requires if msgbuf == None then |unread| < HEADER else unread == []
    ensures var s := FlatBytes(msgbuf, remaining, unread); Scan(s) == Scanned([], s, false)
  {
    if msgbuf.Some? {
      var s := FlatBytes(msgbuf, remaining, unread);
      BigEndianRoundTrip(|msgbuf.value| + remaining);
      assert s[..HEADER] == ToBigEndian(|msgbuf.value| + remaining);
    }
  }

  /** What a decoder reports when the stream reaches it in the given arrivals. */
  function Deliver(flat: seq<Byte>, arrivals: seq<seq<Byte>>): Scanned
    decreases |arrivals|
  {
    if arrivals == [] then Scan(flat)
    else
      var t := Scan(flat + arrivals[0]);
      Before(t.frames, Deliver(t.rest, arrivals[1..]))
  }

  function Concat(chunks: seq<seq<Byte>>): seq<Byte> {
    if chunks == [] then [] else chunks[0] + Concat(chunks[1..])
  }

  /** Every cut of the stream into arrivals gives the result of the uncut stream. */
  lemma {:induction false} AnyCutIsNoCut(flat: seq<Byte>, arrivals: seq<seq<Byte>>)
    ensures Deliver(flat, arrivals) == Scan(flat + Concat(arrivals))
    decreases |arrivals|
  {
    if arrivals == [] {
      assert flat + Concat(arrivals) == flat;
    } else {
      var t := Scan(flat + arrivals[0]);
      AnyCutIsNoCut(t.rest, arrivals[1..]);
      ResumeAt(flat, arrivals[0], Concat(arrivals[1..]));
    }
  }

  lemma ResumeAt(flat: seq<Byte>, first: seq<Byte>, more: seq<Byte>)
    ensures var t := Scan(flat + first);
            Scan(flat + (first + more)) == Before(t.frames, Scan(t.rest + more))
  {
    hide Scan;
    ScanResumes(flat + first, more);
    assert flat + first + more == flat + (first + more);
  }

  /**
    A run of `SendMessage` calls decodes, however it is cut into arrivals, to the
    messages sent; and it does so only if none of them was empty.
  */
  lemma SendThenReceive(payloads: seq<seq<Byte>>, arrivals: seq<seq<Byte>>)
    requires Framable(payloads) && Concat(arrivals) == FrameAll(payloads)
    ensures Deliver([], arrivals).frames == payloads <==> [] !in payloads
    ensures [] !in payloads ==> Deliver([], arrivals) == Scanned(payloads, [], false)
  {
    AnyCutIsNoCut([], arrivals);
    assert [] + Concat(arrivals) == FrameAll(payloads);
    DecodeUndoesEncode(payloads);
  }
}
