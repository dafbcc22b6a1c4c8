/**
  What one connection of the client knows about its server, as a value: the
  applications by id, which of them is focused, and how long each has been focused.

  Time is counted in nanoseconds; elapsed times are read in whole milliseconds.
*/
module Mirror {
  import opened Wire

  const NS_PER_MS := 1_000_000

  function Elapsed(now: nat, start: nat): nat {
    if start <= now then (now - start) / NS_PER_MS else 0
  }

  /** Elapsed times are read in thousandths of a second, rounded down. */
  lemma ElapsedSeconds(start: nat, seconds: nat, rest: nat)
    requires rest < 1_000_000_000
    ensures 1000 * seconds <= Elapsed(start + seconds * 1_000_000_000 + rest, start) < 1000 * (seconds + 1)
    ensures rest % 1_000_000 == 0 ==>
              Elapsed(start + seconds * 1_000_000_000 + rest, start) == 1000 * seconds + rest / 1_000_000
  {
  }

  /** One application object. `serial` is its identity: no two objects ever share one. */
  datatype AppRec = AppRec(serial: nat, focused: bool, timer: Option<nat>, total: nat) {
    /** A reset does not touch the timer. */
    function Reset(): AppRec {
      this.(focused := false, total := 0)
    }

    function SetFocused(on: bool, now: nat): AppRec {
      if focused == on then this
      else if on then this.(focused := true, timer := Some(now))
      else if timer == None then this.(focused := false)
      else AppRec(serial, false, None, total + Elapsed(now, timer.value))
    }

    function FocusTime(now: nat): nat {
      total + if focused && timer.Some? then Elapsed(now, timer.value) else 0
    }
  }

  /** `doomed`: objects handed to the event loop for deletion and not deleted yet. */
  datatype Conn = Conn(
    apps: map<AppId, AppRec>, focusedApp: AppId, doomed: set<nat>, next: nat, connectedAt: nat)
  {
    function Serials(): set<nat> {
      set id | id in apps :: apps[id].serial
    }

    function Reset(): Conn {
      this.(apps := map[], focusedApp := INVALID_ID, doomed := doomed + Serials())
    }

    function Create(id: AppId): Conn {
      if id in apps then this.(apps := apps[id := apps[id].Reset()])
      else this.(apps := apps[id := AppRec(next, false, None, 0)], next := next + 1)
    }

    function CreateAll(ids: seq<AppId>): Conn
      decreases |ids|
    {
      if ids == [] then this else Create(ids[0]).CreateAll(ids[1..])
    }

    function Destroy(id: AppId): Conn {
      if id !in apps then this
      else this.(apps := apps - {id}, doomed := doomed + {apps[id].serial})
    }

    function Unfocus(now: nat): Conn {
      if focusedApp !in apps then this
      else this.(apps := apps[focusedApp := apps[focusedApp].SetFocused(false, now)])
    }

    function Focus(id: AppId, now: nat): Conn {
      if id !in apps then this.(focusedApp := INVALID_ID)
      else this.(apps := apps[id := apps[id].SetFocused(true, now)], focusedApp := id)
    }

    function SetFocusedApp(id: AppId, now: nat): Conn {
      Unfocus(now).Focus(id, now)
    }

    /** The event loop deletes one object. */
    function Delete(serial: nat): Conn {
      this.(doomed := doomed - {serial})
    }
  }

  /** What the protocol object tells the connection. */
  datatype Signal =
    | AppListReceived(apps: seq<Application>)
    | AppCreated(app: Application)
    | AppDestroyed(id: AppId)
    | AppGotFocus(id: AppId)
    | ResponseReceived(request: KeystrokeRequest, response: Response)
    | ProtocolStopped

  function AppIds(apps: seq<Application>): (ids: seq<AppId>) {
    seq(|apps|, i requires 0 <= i < |apps| => ToAppId(apps[i].id))
  }

  function Apply(c: Conn, s: Signal, now: nat): Conn {
    match s
    case AppListReceived(apps) => c.Reset().CreateAll(AppIds(apps))
    case AppCreated(app) => c.Create(ToAppId(app.id))
    case AppDestroyed(id) => c.Destroy(id)
    case AppGotFocus(id) => c.SetFocusedApp(id, now)
    case ResponseReceived(_, _) => c
    case ProtocolStopped => c.Reset()
  }

  /** The objects whose creation is announced while a signal is handled, in order. */
  function Created(c: Conn, id: AppId): seq<nat> {
    if id in c.apps then [] else [c.next]
  }

  function AllCreated(c: Conn, ids: seq<AppId>): seq<nat>
    decreases |ids|
  {
    if ids == [] then [] else Created(c, ids[0]) + AllCreated(c.Create(ids[0]), ids[1..])
  }

  function Emitted(c: Conn, s: Signal): seq<nat> {
    match s
    case AppListReceived(apps) => AllCreated(c.Reset(), AppIds(apps))
    case AppCreated(app) => Created(c, ToAppId(app.id))
    case _ => []
  }

  function ApplyAll(c: Conn, signals: seq<Signal>, now: nat): Conn
    decreases |signals|
  {
    if signals == [] then c else ApplyAll(Apply(c, signals[0], now), signals[1..], now)
  }

  function NewConn(): Conn {
    Conn(map[], INVALID_ID, {}, 0, 0)
  }

  /**
    A focused application is the one `focusedApp` names and its timer runs; objects
    are distinct, and none that is in use awaits deletion.
  */
  ghost predicate Sound(c: Conn) {
    && (forall id :: id in c.apps && c.apps[id].focused ==> id == c.focusedApp && c.apps[id].timer.Some?)
    && (forall i, j :: i in c.apps && j in c.apps && i != j ==> c.apps[i].serial != c.apps[j].serial)
    && (forall id :: id in c.apps ==> c.apps[id].serial < c.next && c.apps[id].serial !in c.doomed)
    && (forall x :: x in c.doomed ==> x < c.next)
  }

  lemma CreateSound(c: Conn, id: AppId)
    requires Sound(c)
    ensures Sound(c.Create(id))
  {
  }

  lemma DestroySound(c: Conn, id: AppId)
    requires Sound(c)
    ensures Sound(c.Destroy(id))
  {
  }

  lemma ResetSound(c: Conn)
    requires Sound(c)
    ensures Sound(c.Reset())
  {
  }

  lemma {:induction false} CreateAllSound(c: Conn, ids: seq<AppId>)
    requires Sound(c)
    ensures Sound(c.CreateAll(ids))
    decreases |ids|
  {
    hide Sound;
    if ids != [] {
      CreateSound(c, ids[0]);
      CreateAllSound(c.Create(ids[0]), ids[1..]);
    }
  }

  /** An application keeps its object while others are created, and new ones get later objects. */
  lemma {:induction false} SerialsGrow(c: Conn, ids: seq<AppId>, id: AppId)
    requires id in c.apps || id in ids
    ensures var d := c.CreateAll(ids);
            id in d.apps && if id in c.apps then d.apps[id].serial == c.apps[id].serial else d.apps[id].serial >= c.next
    decreases |ids|
  {
    if ids != [] {
      SerialsGrow(c.Create(ids[0]), ids[1..], id);
    }
  }

  /** The applications of a list are created in the order of the list. */
  lemma {:induction false} CreatedInOrder(c: Conn, ids: seq<AppId>, i: nat, j: nat)
    requires i < j < |ids| && ids[i] !in c.apps && ids[j] !in c.apps && ids[j] !in ids[..j]
    ensures var d := c.CreateAll(ids);
            ids[i] in d.apps && ids[j] in d.apps && d.apps[ids[i]].serial < d.apps[ids[j]].serial
    decreases |ids|
  {
    var d := c.Create(ids[0]);
    assert ids[0] == ids[..j][0] && ids[i] == ids[..j][i];
    if ids[i] == ids[0] {
      SerialsGrow(d, ids[1..], ids[0]);
      SerialsGrow(d, ids[1..], ids[j]);
    } else {
      assert ids[1..][..j - 1] == ids[..j][1..];
      CreatedInOrder(d, ids[1..], i - 1, j - 1);
    }
  }

  lemma ApplySound(c: Conn, s: Signal, now: nat)
    requires Sound(c)
    ensures Sound(Apply(c, s, now))
  {
    hide Sound;
    match s
    case AppListReceived(apps) =>
      ResetSound(c);
      CreateAllSound(c.Reset(), AppIds(apps));
    case AppCreated(app) =>
      CreateSound(c, ToAppId(app.id));
    case AppDestroyed(id) =>
      DestroySound(c, id);
    case AppGotFocus(id) =>
      UnfocusSound(c, now);
      FocusSound(c.Unfocus(now), id, now);
    case ProtocolStopped =>
      ResetSound(c);
    case ResponseReceived(_, _) =>
  }

  lemma UnfocusSound(c: Conn, now: nat)
    requires Sound(c)
    ensures Sound(c.Unfocus(now))
    ensures forall id :: id in c.Unfocus(now).apps ==> !c.Unfocus(now).apps[id].focused
  {
  }

  lemma FocusSound(c: Conn, id: AppId, now: nat)
    requires Sound(c) && forall id :: id in c.apps ==> !c.apps[id].focused
    ensures Sound(c.Focus(id, now))
  {
  }

  /** A signal and when it was handled. */
  datatype Stamped = Stamped(signal: Signal, at: nat)

  function After(trace: seq<Stamped>): Conn {
    if trace == [] then NewConn()
    else
      var last := trace[|trace| - 1];
      Apply(After(trace[..|trace| - 1]), last.signal, last.at)
  }

  /**
    At most one application is focused after any signals at any times, it is the one
    `focusedApp` names, and its focus timer is running, so that reading its focus time
    never meets an invalid timer.
  */
  lemma {:induction false} AtMostOneFocused(trace: seq<Stamped>)
    ensures var c := After(trace);
            && Sound(c)
            && forall i, j :: i in c.apps && j in c.apps && c.apps[i].focused && c.apps[j].focused ==>
                  i == j == c.focusedApp && c.apps[i].timer.Some?
  {
    if trace != [] {
      var last := trace[|trace| - 1];
      AtMostOneFocused(trace[..|trace| - 1]);
      ApplySound(After(trace[..|trace| - 1]), last.signal, last.at);
    }
  }

  /** The part of a connection that no clock influences. */
  datatype View = View(keys: set<AppId>, lit: set<AppId>, focusedApp: AppId)

  function ViewOf(c: Conn): View {
    View(c.apps.Keys, (set id | id in c.apps && c.apps[id].focused), c.focusedApp)
  }

  function Show(v: View, s: Signal): View {
    match s
    case AppListReceived(apps) => View((set id | id in AppIds(apps)), {}, INVALID_ID)
    case AppCreated(app) => View(v.keys + {ToAppId(app.id)}, v.lit - {ToAppId(app.id)}, v.focusedApp)
    case AppDestroyed(id) => View(v.keys - {id}, v.lit - {id}, v.focusedApp)
    case AppGotFocus(id) =>
      if id in v.keys then View(v.keys, v.lit - {v.focusedApp} + {id}, id)
      else View(v.keys, v.lit - {v.focusedApp}, INVALID_ID)
    case ResponseReceived(_, _) => v
    case ProtocolStopped => View({}, {}, INVALID_ID)
  }

  function ShowAll(v: View, signals: seq<Signal>): View
    decreases |signals|
  {
    if signals == [] then v else ShowAll(Show(v, signals[0]), signals[1..])
  }

  lemma {:induction false} CreateAllView(c: Conn, ids: seq<AppId>)
    requires forall id :: id in c.apps ==> !c.apps[id].focused
    ensures ViewOf(c.CreateAll(ids)) == View(c.apps.Keys + (set id | id in ids), {}, c.focusedApp)
    decreases |ids|
  {
    if ids != [] {
      assert ids == [ids[0]] + ids[1..];
      CreateAllView(c.Create(ids[0]), ids[1..]);
    }
  }

  /** Dropping the clock commutes with every signal. */
  lemma ApplyView(c: Conn, s: Signal, now: nat)
    ensures ViewOf(Apply(c, s, now)) == Show(ViewOf(c), s)
  {
    match s
    case AppListReceived(apps) =>
      CreateAllView(c.Reset(), AppIds(apps));
    case _ =>
  }

  lemma {:induction false} ApplyAllView(c: Conn, signals: seq<Signal>, now: nat)
    ensures ViewOf(ApplyAll(c, signals, now)) == ShowAll(ViewOf(c), signals)
    decreases |signals|
  {
    if signals != [] {
      ApplyView(c, signals[0], now);
      ApplyAllView(Apply(c, signals[0], now), signals[1..], now);
    }
  }

  lemma {:induction false} ShowAllAppend(v: View, p: seq<Signal>, q: seq<Signal>)
    ensures ShowAll(v, p + q) == ShowAll(ShowAll(v, p), q)
    decreases |p|
  {
    if p == [] {
      assert p + q == q;
    } else {
      assert (p + q)[1..] == p[1..] + q;
      ShowAllAppend(Show(v, p[0]), p[1..], q);
    }
  }
}
