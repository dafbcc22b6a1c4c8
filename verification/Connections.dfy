/**
  The client's `App` and `Connection` objects. Each method is tied to the value
  model of `Mirror`: what it does to the objects is what the model says.
*/
module Connections {
  import opened Wire
  import opened Mirror

  class App {
    const serial: nat  // the identity of this object
    var id: AppId
    var focused: bool
    var focusTimer: Option<nat>  // when the timer was started, if it is valid
    var totalFocusTime: nat

    function Rec(): AppRec
      reads this
    {
      AppRec(serial, focused, focusTimer, totalFocusTime)
    }

    constructor (msg: Application, serial: nat)
      requires msg.id != INVALID_ID
      ensures id == ToAppId(msg.id) && Rec() == AppRec(serial, false, None, 0)
    {
      this.serial := serial;
      focusTimer := None;
      new;
      ResetFromMessage(msg);
    }

    method ResetFromMessage(msg: Application)
      requires msg.id != INVALID_ID
      modifies this
      ensures id == ToAppId(msg.id) && !focused && totalFocusTime == 0 && focusTimer == old(focusTimer)
      ensures Rec() == old(Rec()).Reset()
    {
      id := ToAppId(msg.id);
      focused := false;
      totalFocusTime := 0;
    }

    method SetFocused(on: bool, now: nat)
      modifies this
      ensures id == old(id) && focused == on
      ensures on && !old(focused) ==> focusTimer == Some(now)
      ensures !on && old(focused) ==> focusTimer == None
      ensures on == old(focused) ==> focusTimer == old(focusTimer) && totalFocusTime == old(totalFocusTime)
      ensures Rec() == old(Rec()).SetFocused(on, now)
    {
      if focused == on {
        return;
      }
      focused := on;
      if focused {
        focusTimer := Some(now);
      } else {
        if focusTimer.Some? {
          totalFocusTime := totalFocusTime + Elapsed(now, focusTimer.value);
          focusTimer := None;
        }
      }
    }

    method FocusTimeMS(now: nat) returns (elapTime: nat)
      requires focused ==> focusTimer.Some?
      ensures elapTime == Rec().FocusTime(now)
    {
      elapTime := totalFocusTime;
      if focused {
        elapTime := elapTime + Elapsed(now, focusTimer.value);
      }
    }
  }

  class Connection {
    var apps: map<AppId, App>
    var focusedApp: AppId
    var doomed: set<nat>  // the objects handed to the event loop for deletion, by serial
    var created: nat      // how many App objects were ever created
    var connectionTimer: nat

    ghost function Recs(): map<AppId, AppRec>
      reads this`apps, apps.Values
    {
      map id | id in apps :: apps[id].Rec()
    }

    /** Every application sits under its own id, and no object sits under two. */
    ghost predicate Indexed()
      reads this`apps, apps.Values
    {
      && (forall id :: id in apps ==> apps[id].id == id)
      && (forall i, j :: i in apps && j in apps && i != j ==> apps[i] != apps[j])
    }

    ghost function Model(): Conn
      reads this, apps.Values
    {
      Conn(Recs(), focusedApp, doomed, created, connectionTimer)
    }

    ghost predicate Valid()
      reads this, apps.Values
    {
      Indexed() && Sound(Model())
    }

    constructor ()
      ensures Valid() && fresh(apps.Values)
      ensures Model() == NewConn()
    {
      apps, focusedApp, doomed, created, connectionTimer := map[], INVALID_ID, {}, 0, 0;
      new;
      assert Model().apps == map[];
    }

    method ResetConnectionTime(now: nat)
      requires Valid()
      modifies this`connectionTimer
      ensures Valid() && Model() == old(Model()).(connectedAt := now)
    {
      connectionTimer := now;
    }

    method Reset()
      requires Valid()
      modifies this
      ensures Valid() && Model() == old(Model()).Reset() && apps == map[]
    {
      hide Sound, Recs, Indexed;
      ghost var m := Model();
      ApplySound(m, ProtocolStopped, 0);
      var serials := SerialsInUse();
      doomed := doomed + serials;
      apps := map[];
      focusedApp := INVALID_ID;
      NoApps();
      assert Model() == m.Reset();
    }

    method SerialsInUse() returns (serials: set<nat>)
      ensures serials == Model().Serials()
    {
      serials := set id | id in apps :: apps[id].serial;
      assert forall id :: id in apps ==> apps[id].serial == Recs()[id].serial;
      forall id | id in Recs()
        ensures Recs()[id].serial in serials
      {
        assert apps[id].serial in serials;
      }
    }

    lemma NoApps()
      requires apps == map[]
      ensures Recs() == map[] && Indexed()
    {
    }

    /** The object announced, if one was created. */
    method CreateApp(msg: Application) returns (announced: App?)
      requires Valid() && msg.id != INVALID_ID
      modifies this, apps.Values
      ensures Valid() && Model() == old(Model()).Create(ToAppId(msg.id))
      ensures fresh(apps.Values - old(apps.Values))
      ensures announced == null <==> ToAppId(msg.id) in old(apps)
      ensures announced == null ==> apps == old(apps)
      ensures announced != null ==>
                announced.serial == old(Model()).next && apps == old(apps)[ToAppId(msg.id) := announced]
    {
      hide Sound, Recs, Indexed;
      SameKeys();
      ApplySound(Model(), AppCreated(msg), 0);
      if ToAppId(msg.id) !in apps {
        announced := AddApp(msg);
        created := created + 1;
      } else {
        ResetApp(msg);
        announced := null;
      }
    }

    method AddApp(msg: Application) returns (app: App)
      requires Indexed() && msg.id != INVALID_ID && ToAppId(msg.id) !in apps
      modifies this`apps
      ensures Indexed() && Recs() == old(Recs())[ToAppId(msg.id) := AppRec(created, false, None, 0)]
      ensures fresh(apps.Values - old(apps.Values))
      ensures app.serial == created && apps == old(apps)[ToAppId(msg.id) := app]
    {
      app := new App(msg, created);
      apps := apps[app.id := app];
    }

    method ResetApp(msg: Application)
      requires Indexed() && msg.id != INVALID_ID && ToAppId(msg.id) in apps
      modifies apps[ToAppId(msg.id)]
      ensures var id := ToAppId(msg.id);
              Indexed() && Recs() == old(Recs())[id := old(Recs())[id].Reset()]
    {
      apps[ToAppId(msg.id)].ResetFromMessage(msg);
    }

    method SetAppList(msgs: seq<Application>) returns (announced: seq<App>)
      requires Valid() && forall m :: m in msgs ==> m.id != INVALID_ID
      modifies this, apps.Values
      ensures Valid() && Model() == Apply(old(Model()), AppListReceived(msgs), 0)
      ensures fresh(apps.Values - old(apps.Values))
      ensures SerialsOf(announced) == Emitted(old(Model()), AppListReceived(msgs))
      ensures forall a :: a in announced ==> a in apps.Values
    {
      hide SerialsOf, Recs, Indexed, Sound, Conn.Create;
      Reset();
      announced := [];
      ghost var empty := Model();
      NothingAnnounced();
      for i := 0 to |msgs|
        invariant Valid() && fresh(apps.Values)
        invariant Model() == empty.CreateAll(AppIds(msgs[..i]))
        invariant SerialsOf(announced) == AllCreated(empty, AppIds(msgs[..i]))
        invariant forall a :: a in announced ==> a in apps.Values
      {
        SameKeys();
        AppIdsSnoc(msgs, i);
        CreateAllSnoc(empty, AppIds(msgs[..i]), ToAppId(msgs[i].id));
        ghost var known := apps;
        var app := CreateApp(msgs[i]);
        if app != null {
          OneMoreAnnounced(announced, app);
          Kept(known, announced, ToAppId(msgs[i].id), app);
          announced := announced + [app];
        }
      }
      assert msgs[..|msgs|] == msgs;
    }

    method DestroyApp(appId: AppId, now: nat)
      requires Valid()
      modifies this, apps.Values
      ensures Valid() && Model() == old(Model()).Destroy(appId)
      ensures apps == old(apps) - {appId}
    {
      hide Sound;
      ghost var before := Model();
      ApplySound(before, AppDestroyed(appId), 0);
      if appId !in apps {
        return;
      }
      apps[appId].SetFocused(false, now);
      doomed := doomed + {apps[appId].serial};
      apps := apps - {appId};
      assert Recs() == before.apps - {appId};
    }

    method SetFocusedApp(appId: AppId, now: nat)
      requires Valid()
      modifies this`focusedApp, apps.Values
      ensures Valid() && Model() == old(Model()).SetFocusedApp(appId, now)
    {
      hide Sound, Recs, Indexed, Model, Conn.Unfocus, Conn.Focus;
      ApplySound(Model(), AppGotFocus(appId), now);
      Unfocus(now);
      Focus(appId, now);
    }

    method Unfocus(now: nat)
      requires Indexed()
      modifies apps.Values
      ensures Indexed() && Model() == old(Model()).Unfocus(now)
    {
      hide Recs, Indexed;
      SameKeys();
      if focusedApp in apps {
        SetAppFocused(focusedApp, false, now);
      }
    }

    method Focus(appId: AppId, now: nat)
      requires Indexed()
      modifies this`focusedApp, apps.Values
      ensures Indexed() && Model() == old(Model()).Focus(appId, now)
    {
      hide Recs, Indexed;
      SameKeys();
      focusedApp := appId;
      if appId in apps {
        SetAppFocused(appId, true, now);
      } else {
        focusedApp := INVALID_ID;
      }
    }

    lemma SameKeys()
      ensures Recs().Keys == apps.Keys
    {
    }

    method SetAppFocused(id: AppId, on: bool, now: nat)
      requires Indexed() && id in apps
      modifies apps[id]
      ensures Indexed() && id in old(Recs())
      ensures Recs() == old(Recs())[id := old(Recs())[id].SetFocused(on, now)]
    {
      apps[id].SetFocused(on, now);
    }

    /** The slots, as the protocol object's signals reach them. */
    method Dispatch(signal: Signal, now: nat) returns (announced: seq<App>)
      requires Valid() && Acceptable(signal)
      modifies this, apps.Values
      ensures Valid() && Model() == Apply(old(Model()), signal, now)
      ensures fresh(apps.Values - old(apps.Values))
      ensures SerialsOf(announced) == Emitted(old(Model()), signal)
      ensures forall a :: a in announced ==> a in apps.Values
    {
      hide Sound, Recs, Indexed;
      SameKeys();
      announced := [];
      match signal
      case AppListReceived(msgs) => announced := SetAppList(msgs);
      case AppCreated(msg) =>
        var app := CreateApp(msg);
        if app != null {
          assert apps[ToAppId(msg.id)] == app;
          announced := [app];
        }
      case AppDestroyed(id) => DestroyApp(id, now);
      case AppGotFocus(id) => SetFocusedApp(id, now);
      case ResponseReceived(_, _) =>
      case ProtocolStopped => Reset();
    }

    method FocusedApp() returns (app: App?)
      requires Valid()
      ensures app != null <==> focusedApp in apps
      ensures app != null ==> app.id == focusedApp && app == apps[focusedApp]
    {
      app := if focusedApp in apps then apps[focusedApp] else null;
    }

    /** `list` holds every application once. */
    ghost predicate Lists(list: seq<App>)
      reads this`apps
    {
      && (forall a :: a in list ==> a in apps.Values)
      && (forall id :: id in apps ==> apps[id] in list)
      && (forall i, j :: 0 <= i < j < |list| ==> list[i] != list[j])
    }

    method Apps() returns (list: seq<App>)
      ensures Lists(list)
    {
      list := [];
      var left := apps.Values;
      while left != {}
        invariant left <= apps.Values
        invariant forall a :: a in list ==> a in apps.Values - left
        invariant forall a :: a in apps.Values - left ==> a in list
        invariant forall i, j :: 0 <= i < j < |list| ==> list[i] != list[j]
        decreases |left|
      {
        var app :| app in left;
        assert forall i :: 0 <= i < |list| ==> list[i] in list;
        list := list + [app];
        left := left - {app};
      }
    }

    /** The last whole millisecond since the connection was made, and 0 while there is none. */
    method TimeConnectedMS(connected: bool, now: nat) returns (ms: nat)
      ensures !connected || now < Model().connectedAt ==> ms == 0
      ensures connected && Model().connectedAt <= now ==>
                ms * NS_PER_MS <= now - Model().connectedAt < (ms + 1) * NS_PER_MS
    {
      ms := if connected then Elapsed(now, connectionTimer) else 0;
    }
  }

  function SerialsOf(apps: seq<App>): (serials: seq<nat>)
    ensures |serials| == |apps|
  {
    seq(|apps|, i requires 0 <= i < |apps| => apps[i].serial)
  }

  lemma NothingAnnounced()
    ensures SerialsOf([]) == []
  {
  }

  lemma OneMoreAnnounced(announced: seq<App>, app: App)
    ensures SerialsOf(announced + [app]) == SerialsOf(announced) + [app.serial]
  {
  }

  /** What is known is still known when one more application is. */
  lemma Kept(known: map<AppId, App>, announced: seq<App>, id: AppId, app: App)
    requires id !in known && forall a :: a in announced ==> a in known.Values
    ensures forall a :: a in announced + [app] ==> a in known[id := app].Values
  {
    var more := known[id := app];
    forall a | a in announced + [app]
      ensures a in more.Values
    {
      if a in announced {
        var i :| i in known && known[i] == a;
        assert more[i] == a;
      } else {
        assert more[id] == a;
      }
    }
  }

  /** The assertion at the head of `resetFromMessage`. */
  predicate Acceptable(signal: Signal) {
    match signal
    case AppListReceived(msgs) => forall m :: m in msgs ==> m.id != INVALID_ID
    case AppCreated(msg) => msg.id != INVALID_ID
    case _ => true
  }

  lemma AppIdsSnoc(msgs: seq<Application>, i: nat)
    requires i < |msgs|
    ensures AppIds(msgs[..i + 1]) == AppIds(msgs[..i]) + [ToAppId(msgs[i].id)]
  {
  }

  lemma {:induction false} CreateAllSnoc(c: Conn, ids: seq<AppId>, id: AppId)
    ensures c.CreateAll(ids + [id]) == c.CreateAll(ids).Create(id)
    ensures AllCreated(c, ids + [id]) == AllCreated(c, ids) + Created(c.CreateAll(ids), id)
    decreases |ids|
  {
    if ids == [] {
      assert ids + [id] == [id];
    } else {
      assert (ids + [id])[1..] == ids[1..] + [id];
      CreateAllSnoc(c.Create(ids[0]), ids[1..], id);
    }
  }
}
