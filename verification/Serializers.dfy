/**
  A serializer that does all that is asked of one, so that what is proved of every lawful
  serializer is proved of something. It is not the format the programs use.
*/
module Serializers {
  import opened Wire
  import opened Framing

  const WORD := 8
  const OPTIONAL_WORD := 9
  const EVENT := 33
  const REQUEST := 20

  function Word(n: Uint64): (s: seq<Byte>)
    ensures |s| == WORD
  {
    ToBigEndian(n / 0x1_0000_0000) + ToBigEndian(n % 0x1_0000_0000)
  }

  function ReadWord(s: seq<Byte>): Uint64
    requires |s| == WORD
  {
    var high: int := FromBigEndian(s[..HEADER]);
    high * 0x1_0000_0000 + FromBigEndian(s[HEADER..])
  }

  lemma WordRoundTrip(n: Uint64)
    ensures ReadWord(Word(n)) == n
  {
    hide ToBigEndian, FromBigEndian;
    BigEndianRoundTrip(n / 0x1_0000_0000);
    BigEndianRoundTrip(n % 0x1_0000_0000);
    assert Word(n)[..HEADER] == ToBigEndian(n / 0x1_0000_0000);
    assert Word(n)[HEADER..] == ToBigEndian(n % 0x1_0000_0000);
  }

  function Flag(b: bool): Byte {
    if b then 1 else 0
  }

  // ---------- listings ----------

  function ListBytes(apps: seq<Application>): (s: seq<Byte>)
    ensures |s| == WORD * |apps|
  {
    if apps == [] then [] else Word(apps[0].id) + ListBytes(apps[1..])
  }

  function ParseList(s: seq<Byte>): seq<Application>
    decreases |s|
  {
    if |s| < WORD then [] else [Application(ReadWord(s[..WORD]))] + ParseList(s[WORD..])
  }

  lemma {:induction false} ListRoundTrip(apps: seq<Application>)
    ensures ParseList(ListBytes(apps)) == apps
    decreases |apps|
  {
    hide Word, ReadWord;
    if apps != [] {
      WordRoundTrip(apps[0].id);
      ListRoundTrip(apps[1..]);
      assert ListBytes(apps)[..WORD] == Word(apps[0].id) && ListBytes(apps)[WORD..] == ListBytes(apps[1..]);
    }
  }

  // ---------- events ----------

  function OptionalWord(o: Option<Uint64>): (s: seq<Byte>)
    ensures |s| == OPTIONAL_WORD
  {
    match o
    case None => [0] + Word(0)
    case Some(n) => [1] + Word(n)
  }

  function ReadOptionalWord(s: seq<Byte>): Option<Uint64>
    requires |s| == OPTIONAL_WORD
  {
    if s[0] == 0 then None else Some(ReadWord(s[1..]))
  }

  lemma OptionalWordRoundTrip(o: Option<Uint64>)
    ensures ReadOptionalWord(OptionalWord(o)) == o
  {
    hide Word, ReadWord;
    if o.Some? {
      WordRoundTrip(o.value);
      assert OptionalWord(o)[1..] == Word(o.value);
    }
  }

  function ResponseBytes(o: Option<Response>): (s: seq<Byte>)
    ensures |s| == 6
  {
    match o
    case None => [0] + ToBigEndian(0) + [0]
    case Some(r) => [1] + ToBigEndian(r.reqId) + [Flag(r.status == Success)]
  }

  function ReadResponse(s: seq<Byte>): Option<Response>
    requires |s| == 6
  {
    if s[0] == 0 then None
    else Some(Response(FromBigEndian(s[1..5]), if s[5] == 1 then Success else WindowLostFocus))
  }

  lemma ResponseRoundTrip(o: Option<Response>)
    ensures ReadResponse(ResponseBytes(o)) == o
  {
    hide ToBigEndian, FromBigEndian;
    if o.Some? {
      BigEndianRoundTrip(o.value.reqId);
      assert ResponseBytes(o)[1..5] == ToBigEndian(o.value.reqId);
    }
  }

  function EventBytes(e: Event): (s: seq<Byte>)
    ensures |s| == if e == EMPTY_EVENT then 0 else EVENT
  {
    if e == EMPTY_EVENT then []
    else
      OptionalWord(if e.created.Some? then Some(e.created.value.id) else None)
      + OptionalWord(e.destroyed) + OptionalWord(e.gotFocus) + ResponseBytes(e.response)
  }

  function ParseEvent(s: seq<Byte>): Event {
    if |s| != EVENT then EMPTY_EVENT
    else
      var created := ReadOptionalWord(s[..9]);
      Event(
        if created.Some? then Some(Application(created.value)) else None,
        ReadOptionalWord(s[9..18]), ReadOptionalWord(s[18..27]), ReadResponse(s[27..]))
  }

  lemma EventRoundTrip(e: Event)
    ensures ParseEvent(EventBytes(e)) == e
  {
    hide OptionalWord, ReadOptionalWord, ResponseBytes, ReadResponse;
    if e != EMPTY_EVENT {
      var created := if e.created.Some? then Some(e.created.value.id) else None;
      OptionalWordRoundTrip(created);
      OptionalWordRoundTrip(e.destroyed);
      OptionalWordRoundTrip(e.gotFocus);
      ResponseRoundTrip(e.response);
      var s := EventBytes(e);
      assert s[..9] == OptionalWord(created) && s[9..18] == OptionalWord(e.destroyed);
      assert s[18..27] == OptionalWord(e.gotFocus) && s[27..] == ResponseBytes(e.response);
    }
  }

  // ---------- requests ----------

  function RequestBytes(q: KeystrokeRequest): (s: seq<Byte>)
    ensures |s| == REQUEST
  {
    ToBigEndian(q.reqId) + Word(q.appId)
    + [Flag(q.ctrl), Flag(q.alt), Flag(q.shift), Flag(q.meta)] + ToBigEndian(q.key)
  }

  function ParseRequest(s: seq<Byte>): KeystrokeRequest {
    if |s| != REQUEST then KeystrokeRequest(0, 0, false, false, false, false, 0)
    else
      KeystrokeRequest(
        FromBigEndian(s[..4]), ReadWord(s[4..12]),
        s[12] == 1, s[13] == 1, s[14] == 1, s[15] == 1, FromBigEndian(s[16..]) % 0x8000_0000)
  }

  lemma RequestRoundTrip(q: KeystrokeRequest)
    ensures ParseRequest(RequestBytes(q)) == q
  {
    hide ToBigEndian, FromBigEndian, Word, ReadWord;
    BigEndianRoundTrip(q.reqId);
    WordRoundTrip(q.appId);
    BigEndianRoundTrip(q.key);
    var s := RequestBytes(q);
    assert s[..4] == ToBigEndian(q.reqId) && s[4..12] == Word(q.appId) && s[16..] == ToBigEndian(q.key);
  }

  const SERIALIZER := Codec(EventBytes, ParseEvent, ListBytes, ParseList, RequestBytes, ParseRequest)

  /** There is a lawful serializer, and every listing of less than 2^29 windows fits. */
  lemma SerializerLawful()
    ensures SERIALIZER.Lawful()
    ensures forall apps :: |apps| < 0x2000_0000 ==> |SERIALIZER.listBytes(apps)| < 0x1_0000_0000
  {
    hide EventBytes, ParseEvent, ListBytes, ParseList, RequestBytes, ParseRequest;
    forall e ensures ParseEvent(EventBytes(e)) == e { EventRoundTrip(e); }
    forall l ensures ParseList(ListBytes(l)) == l { ListRoundTrip(l); }
    forall q ensures ParseRequest(RequestBytes(q)) == q { RequestRoundTrip(q); }
    assert forall l :: |ListBytes(l)| == WORD * |l|;
  }
}
