/**
  The values that cross the wire between the window server and its clients:
  fixed-width integers, window handles, application ids, the protocol messages
  and the serializer they travel through.
*/
module Wire {

  datatype Option<+T> = None | Some(value: T)

  type Byte = x: int | 0 <= x < 0x100
  type Uint32 = x: int | 0 <= x < 0x1_0000_0000
  type Uint64 = x: int | 0 <= x < 0x1_0000_0000_0000_0000

  /** A server-side window handle, as the 64-bit number put into a message. */
  type Handle = Uint64

  /** What the client keeps of a handle: its low 32 bits. */
  type AppId = Uint32

  const INVALID_ID: AppId := 0xFFFF_FFFF
  const INVALID_REQUEST: Uint32 := 0xFFFF_FFFF

  const NULL_WINDOW: Handle := 0

  /** The handle the server announces when the foreground window is not listed. */
  const UNLISTED_FOCUS: Handle := 0xFFFF_FFFF_FFFF_FFFF

  /** The implicit 64-to-32 bit conversion at every use of a message id by the client. */
  function ToAppId(h: Uint64): AppId {
    h % 0x1_0000_0000
  }

  /** Two handles get the same id exactly if they differ by a multiple of 2^32, and small ones keep their number. */
  lemma SameAppId(g: Uint64, h: Uint64)
    ensures ToAppId(g) == ToAppId(h) <==> (g - h) % 0x1_0000_0000 == 0
    ensures h < 0x1_0000_0000 ==> ToAppId(h) == h
  {
  }

  /** The handle announced when the foreground window is not listed has the id that stands for no application. */
  lemma UnlistedIsInvalid(h: Handle)
    ensures ToAppId(UNLISTED_FOCUS) == INVALID_ID && h <= UNLISTED_FOCUS && ToAppId(h) <= INVALID_ID
  {
  }

  datatype Application = Application(id: Uint64)

  datatype Status = Success | WindowLostFocus

  datatype Response = Response(reqId: Uint32, status: Status)

  /** Key codes are the numbers of an enumeration, from 0 up. */
  type Keycode = x: int | 0 <= x < 0x8000_0000

  datatype KeystrokeRequest = KeystrokeRequest(
    reqId: Uint32, appId: Uint64,
    ctrl: bool, alt: bool, shift: bool, meta: bool, key: Keycode)

  /** Every field of an event is optional; the client looks at each of them. */
  datatype Event = Event(
    created: Option<Application>,
    destroyed: Option<Uint64>,
    gotFocus: Option<Uint64>,
    response: Option<Response>)

  const EMPTY_EVENT := Event(None, None, None, None)

  /** The serializer. It is a parameter of every statement about bytes. */
  datatype Codec = Codec(
    eventBytes: Event -> seq<Byte>,
    parseEvent: seq<Byte> -> Event,
    listBytes: seq<Application> -> seq<Byte>,
    parseList: seq<Byte> -> seq<Application>,
    requestBytes: KeystrokeRequest -> seq<Byte>,
    parseRequest: seq<Byte> -> KeystrokeRequest)
  {
    /**
      What the model asks of the serializer: parsing undoes serializing, events and requests
      fit the 32-bit length prefix, and a message is empty exactly when nothing in it is set.
      Nothing is asked of the size of a listing, of which there are infinitely many.
    */
    ghost predicate Lawful() {
      && (forall e :: parseEvent(eventBytes(e)) == e)
      && (forall l :: parseList(listBytes(l)) == l)
      && (forall q :: parseRequest(requestBytes(q)) == q)
      && (forall e :: |eventBytes(e)| < 0x1_0000_0000)
      && (forall q :: 0 < |requestBytes(q)| < 0x1_0000_0000)
      && (forall e :: eventBytes(e) == [] <==> e == EMPTY_EVENT)
      && (forall l :: listBytes(l) == [] <==> l == [])
    }
  }
}
