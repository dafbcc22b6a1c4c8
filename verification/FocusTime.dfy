/**
  How long each application has been focused: the running totals kept by the client
  against a definition by history, and against the time since the connection was made.
*/
module FocusTime {
  import opened Wire
  import opened Mirror
  import opened Protocols
  import opened Clients

  /** The signal starts the application's count afresh, if it leaves it known at all. */
  predicate Restarts(s: Signal, id: AppId) {
    match s
    case AppListReceived(apps) => id in AppIds(apps)
    case AppCreated(app) => ToAppId(app.id) == id
    case _ => false
  }

  /**
    The focus intervals of an application since its count last started afresh, read off
    the history: each begins when focus goes to it and ends with the next focus
    signal, whatever that names, or at `end`; each counts in whole milliseconds.
  */
  function IntervalSum(trace: seq<Stamped>, id: AppId, end: nat): nat {
    if trace == [] then 0
    else
      var rest, last := trace[..|trace| - 1], trace[|trace| - 1];
      if Restarts(last.signal, id) then 0
      else if last.signal.AppGotFocus? then
        IntervalSum(rest, id, last.at) + if last.signal.id == id then Elapsed(end, last.at) else 0
      else
        IntervalSum(rest, id, end)
  }

  /** The time an application shows is the sum of its focus intervals. */
  lemma {:induction false} FocusTimeIsIntervals(trace: seq<Stamped>, id: AppId, now: nat)
    requires id in After(trace).apps
    ensures After(trace).apps[id].FocusTime(now) == IntervalSum(trace, id, now)
    decreases |trace|
  {
    if trace != [] {
      var rest, last := trace[..|trace| - 1], trace[|trace| - 1];
      var c := After(rest);
      AtMostOneFocused(rest);
      if Restarts(last.signal, id) {
        RestartsAtZero(c, last.signal, id, last.at, now);
      } else {
        SurvivorWasThere(c, last.signal, id, last.at);
        if last.signal.AppGotFocus? {
          FocusTimeIsIntervals(rest, id, last.at);
        } else {
          FocusTimeIsIntervals(rest, id, now);
        }
      }
    }
  }

  lemma {:induction false} CreatedAtZero(c: Conn, ids: seq<AppId>, id: AppId, now: nat)
    requires id in ids || (id in c.apps && c.apps[id].FocusTime(now) == 0 && !c.apps[id].focused)
    ensures var d := c.CreateAll(ids);
            id in d.apps && d.apps[id].FocusTime(now) == 0 && !d.apps[id].focused
    decreases |ids|
  {
    if ids != [] {
      CreatedAtZero(c.Create(ids[0]), ids[1..], id, now);
    }
  }

  lemma RestartsAtZero(c: Conn, s: Signal, id: AppId, at: nat, now: nat)
    requires Restarts(s, id)
    ensures id in Apply(c, s, at).apps && Apply(c, s, at).apps[id].FocusTime(now) == 0
  {
    if s.AppListReceived? {
      CreatedAtZero(c.Reset(), AppIds(s.apps), id, now);
    }
  }

  lemma {:induction false} CreateAllKeys(c: Conn, ids: seq<AppId>)
    ensures c.CreateAll(ids).apps.Keys == c.apps.Keys + set i | i in ids
    decreases |ids|
  {
    if ids != [] {
      assert ids == [ids[0]] + ids[1..];
      CreateAllKeys(c.Create(ids[0]), ids[1..]);
    }
  }

  /** Only a restart makes an application known, and only focus signals touch its count. */
  lemma SurvivorWasThere(c: Conn, s: Signal, id: AppId, at: nat)
    requires !Restarts(s, id) && id in Apply(c, s, at).apps
    ensures id in c.apps && (!s.AppGotFocus? ==> Apply(c, s, at).apps[id] == c.apps[id])
  {
    if s.AppListReceived? {
      CreateAllKeys(c.Reset(), AppIds(s.apps));
    }
  }

  ghost function Sum(m: map<AppId, nat>): nat
    decreases |m|
  {
    if m == map[] then 0 else
    var k :| k in m;
    m[k] + Sum(m - {k})
  }

  lemma {:induction false} SumPick(m: map<AppId, nat>, k: AppId)
    requires k in m
    ensures Sum(m) == m[k] + Sum(m - {k})
    decreases |m|
  {
    var j :| j in m && Sum(m) == m[j] + Sum(m - {j});
    if j != k {
      SumPick(m - {j}, k);
      SumPick(m - {k}, j);
      assert m - {j} - {k} == m - {k} - {j};
    }
  }

  lemma SumUpdate(m: map<AppId, nat>, k: AppId, v: nat)
    ensures Sum(m[k := v]) == v + Sum(m - {k})
    ensures Sum(m - {k}) == Sum(m) - if k in m then m[k] else 0
  {
    SumPick(m[k := v], k);
    assert m[k := v] - {k} == m - {k};
    if k in m {
      SumPick(m, k);
    } else {
      assert m - {k} == m;
    }
  }

  ghost function Totals(c: Conn): map<AppId, nat> {
    map id | id in c.apps :: c.apps[id].total
  }

  ghost function FocusTimes(c: Conn, now: nat): map<AppId, nat> {
    map id | id in c.apps :: c.apps[id].FocusTime(now)
  }

  predicate SomeFocused(c: Conn) {
    c.focusedApp in c.apps && c.apps[c.focusedApp].focused
  }

  /** The instant up to which focus time is in the totals. */
  function Settled(c: Conn, at: nat): nat {
    if SomeFocused(c) && c.apps[c.focusedApp].timer.Some? then c.apps[c.focusedApp].timer.value else at
  }

  /** The totals fit, in nanoseconds, between the connection and the instant they are settled to. */
  ghost predicate Budgeted(c: Conn, at: nat) {
    && Sound(c)
    && c.connectedAt <= Settled(c, at) <= at
    && Sum(Totals(c)) * NS_PER_MS <= Settled(c, at) - c.connectedAt
  }

  /** Only the application named by `focusedApp` can be focused, and then its timer runs. */
  lemma FocusedOnly(c: Conn)
    requires Sound(c)
    ensures SomeFocused(c) ==> c.apps[c.focusedApp].timer.Some?
    ensures forall id :: id in c.apps && c.apps[id].focused ==> SomeFocused(c) && id == c.focusedApp
  {
  }

  lemma CreateTotals(c: Conn, id: AppId)
    ensures Totals(c.Create(id)) == Totals(c)[id := 0]
  {
  }

  lemma CreateBudgeted(c: Conn, id: AppId, at: nat)
    requires Budgeted(c, at)
    ensures Budgeted(c.Create(id), at)
  {
    hide Sound;
    ApplySound(c, AppCreated(Application(id)), at);
    FocusedOnly(c);
    SumUpdate(Totals(c), id, 0);
    CreateTotals(c, id);
  }

  lemma {:induction false} CreateAllBudgeted(c: Conn, ids: seq<AppId>, at: nat)
    requires Budgeted(c, at)
    ensures Budgeted(c.CreateAll(ids), at)
    decreases |ids|
  {
    if ids != [] {
      CreateBudgeted(c, ids[0], at);
      CreateAllBudgeted(c.Create(ids[0]), ids[1..], at);
    }
  }

  lemma DestroyBudgeted(c: Conn, id: AppId, at: nat)
    requires Budgeted(c, at)
    ensures Budgeted(c.Destroy(id), at)
  {
    hide Sound;
    ApplySound(c, AppDestroyed(id), at);
    SumUpdate(Totals(c), id, 0);
    assert Totals(c.Destroy(id)) == Totals(c) - {id} || id !in c.apps;
  }

  lemma ElapsedFits(now: nat, start: nat)
    requires start <= now
    ensures Elapsed(now, start) * NS_PER_MS <= now - start
  {
  }

  lemma UnfocusBudgeted(c: Conn, now: nat)
    requires Budgeted(c, now)
    ensures Budgeted(c.Unfocus(now), now) && !SomeFocused(c.Unfocus(now))
  {
    hide Sound;
    UnfocusSound(c, now);
    FocusedOnly(c);
    if SomeFocused(c) {
      var f := c.focusedApp;
      var t := c.apps[f].timer.value;
      var m := Totals(c);
      SumUpdate(m, f, m[f] + Elapsed(now, t));
      assert Totals(c.Unfocus(now)) == m[f := m[f] + Elapsed(now, t)];
      ElapsedFits(now, t);
    } else {
      assert c.Unfocus(now) == c;
    }
  }

  lemma FocusBudgeted(c: Conn, id: AppId, now: nat)
    requires Budgeted(c, now) && !SomeFocused(c)
    ensures Budgeted(c.Focus(id, now), now)
  {
    hide Sound;
    FocusedOnly(c);
    FocusSound(c, id, now);
    assert Totals(c.Focus(id, now)) == Totals(c);
  }

  lemma ResetBudgeted(c: Conn, at: nat)
    requires Budgeted(c, at)
    ensures Budgeted(c.Reset(), at)
  {
    ApplySound(c, ProtocolStopped, at);
    assert Totals(c.Reset()) == map[];
  }

  lemma ApplyBudgeted(c: Conn, s: Signal, now: nat)
    requires Budgeted(c, now)
    ensures Budgeted(Apply(c, s, now), now)
  {
    hide Budgeted;
    match s
    case AppListReceived(apps) =>
      ResetBudgeted(c, now);
      CreateAllBudgeted(c.Reset(), AppIds(apps), now);
    case AppCreated(app) => CreateBudgeted(c, ToAppId(app.id), now);
    case AppDestroyed(id) => DestroyBudgeted(c, id, now);
    case AppGotFocus(id) =>
      UnfocusBudgeted(c, now);
      FocusBudgeted(c.Unfocus(now), id, now);
    case ResponseReceived(_, _) =>
    case ProtocolStopped => ResetBudgeted(c, now);
  }

  lemma {:induction false} ApplyAllBudgeted(c: Conn, signals: seq<Signal>, now: nat)
    requires Budgeted(c, now)
    ensures Budgeted(ApplyAll(c, signals, now), now)
    decreases |signals|
  {
    hide Budgeted;
    if signals != [] {
      ApplyBudgeted(c, signals[0], now);
      ApplyAllBudgeted(Apply(c, signals[0], now), signals[1..], now);
    }
  }

  lemma TimePasses(c: Conn, at: nat, now: nat)
    requires Budgeted(c, at) && at <= now
    ensures Budgeted(c, now)
  {
  }

  /** Whatever is settled and whatever still runs fits into the time since the connection. */
  lemma BudgetBoundsFocus(c: Conn, now: nat)
    requires Budgeted(c, now)
    ensures Sum(FocusTimes(c, now)) <= Elapsed(now, c.connectedAt)
  {
    hide Sound;
    FocusedOnly(c);
    FocusTimesSum(c, now);
    var s := Sum(FocusTimes(c, now));
    assert s * NS_PER_MS <= now - c.connectedAt;
  }

  lemma FocusTimesSum(c: Conn, now: nat)
    requires SomeFocused(c) ==> c.apps[c.focusedApp].timer.Some?
    requires forall id :: id in c.apps && c.apps[id].focused ==> SomeFocused(c) && id == c.focusedApp
    requires Settled(c, now) <= now
    ensures Sum(FocusTimes(c, now)) * NS_PER_MS <= Sum(Totals(c)) * NS_PER_MS + (now - Settled(c, now))
  {
    var m := Totals(c);
    if SomeFocused(c) {
      var f := c.focusedApp;
      var t := c.apps[f].timer.value;
      SumUpdate(m, f, m[f] + Elapsed(now, t));
      assert FocusTimes(c, now) == m[f := m[f] + Elapsed(now, t)];
      ElapsedFits(now, t);
    } else {
      assert FocusTimes(c, now) == m;
    }
  }

  datatype Happening = SocketConnected | SocketClosed | MessagesArrived(msgs: seq<seq<Byte>>)

  datatype Moment = Moment(what: Happening, at: nat)

  function Live(codec: Codec, history: seq<Moment>): Client {
    if history == [] then NewClient()
    else
      var c, m := Live(codec, history[..|history| - 1]), history[|history| - 1];
      match m.what
      case SocketConnected => Connected(c, m.at)
      case SocketClosed => Disconnected(c, m.at)
      case MessagesArrived(msgs) => ReceiveAll(codec, c, msgs, m.at)
  }

  predicate Open(history: seq<Moment>) {
    history != [] &&
    match history[|history| - 1].what
    case SocketConnected => true
    case SocketClosed => false
    case MessagesArrived(_) => Open(history[..|history| - 1])
  }

  /** The clock never goes back, and a socket connects only when it is not connected. */
  predicate Possible(history: seq<Moment>) {
    history == [] || (
      var rest, last := history[..|history| - 1], history[|history| - 1];
      && Possible(rest)
      && (rest != [] ==> rest[|rest| - 1].at <= last.at)
      && (last.what.SocketConnected? ==> !Open(rest)))
  }

  /** Applications are known only to a client whose protocol is accepting events. */
  ghost predicate Consistent(c: Client, open: bool, at: nat) {
    && Budgeted(c.conn, at)
    && (c.proto.state == Stopped <==> !open)
    && (c.proto.state != AcceptingEvents ==> c.conn.apps == map[])
  }

  lemma {:induction false} ReceiveAllConsistent(codec: Codec, c: Client, msgs: seq<seq<Byte>>, open: bool, now: nat)
    requires Consistent(c, open, now)
    ensures Consistent(ReceiveAll(codec, c, msgs, now), open, now)
    decreases |msgs|
  {
    hide Budgeted;
    if msgs != [] {
      ApplyAllBudgeted(c.conn, Receive(codec, c.proto, msgs[0]).1, now);
      ReceiveAllConsistent(codec, ReceiveOne(codec, c, msgs[0], now), msgs[1..], open, now);
    }
  }

  lemma ClosingConsistent(c: Client, open: bool, now: nat)
    requires Consistent(c, open, now)
    ensures Consistent(Disconnected(c, now), false, now)
  {
    hide Budgeted;
    ApplyAllBudgeted(c.conn, Ended(c.proto).1, now);
    if c.proto.state != Stopped {
      assert ApplyAll(c.conn, [ProtocolStopped], now) == c.conn.Reset();
    }
  }

  lemma ConnectingConsistent(c: Client, now: nat)
    requires Consistent(c, false, now)
    ensures Consistent(Connected(c, now), true, now)
  {
    assert Totals(Connected(c, now).conn) == map[];
  }

  lemma {:induction false} LiveConsistent(codec: Codec, history: seq<Moment>, now: nat)
    requires Possible(history) && (history != [] ==> history[|history| - 1].at <= now)
    ensures Consistent(Live(codec, history), Open(history), now)
    decreases |history|
  {
    if history == [] {
      assert Totals(NewConn()) == map[];
    } else {
      var rest, m := history[..|history| - 1], history[|history| - 1];
      var c := Live(codec, rest);
      LiveConsistent(codec, rest, m.at);
      match m.what {
        case SocketConnected => ConnectingConsistent(c, m.at);
        case SocketClosed => ClosingConsistent(c, Open(rest), m.at);
        case MessagesArrived(msgs) => ReceiveAllConsistent(codec, c, msgs, Open(rest), m.at);
      }
      TimePasses(Live(codec, history).conn, m.at, now);
    }
  }

  /** When the socket last connected. */
  function ConnectedSince(history: seq<Moment>): nat
    requires Open(history)
  {
    var last := history[|history| - 1];
    if last.what.SocketConnected? then last.at else ConnectedSince(history[..|history| - 1])
  }

  lemma {:induction false} CreateAllKeepsClock(c: Conn, ids: seq<AppId>)
    ensures c.CreateAll(ids).connectedAt == c.connectedAt
    decreases |ids|
  {
    if ids != [] {
      CreateAllKeepsClock(c.Create(ids[0]), ids[1..]);
    }
  }

  lemma {:induction false} ApplyAllKeepsClock(c: Conn, signals: seq<Signal>, now: nat)
    ensures ApplyAll(c, signals, now).connectedAt == c.connectedAt
    decreases |signals|
  {
    if signals != [] {
      if signals[0].AppListReceived? {
        CreateAllKeepsClock(c.Reset(), AppIds(signals[0].apps));
      }
      ApplyAllKeepsClock(Apply(c, signals[0], now), signals[1..], now);
    }
  }

  lemma {:induction false} ReceiveAllKeepsClock(codec: Codec, c: Client, msgs: seq<seq<Byte>>, now: nat)
    ensures ReceiveAll(codec, c, msgs, now).conn.connectedAt == c.conn.connectedAt
    decreases |msgs|
  {
    if msgs != [] {
      ApplyAllKeepsClock(c.conn, Receive(codec, c.proto, msgs[0]).1, now);
      ReceiveAllKeepsClock(codec, ReceiveOne(codec, c, msgs[0], now), msgs[1..], now);
    }
  }

  lemma {:induction false} ClockIsLastConnect(codec: Codec, history: seq<Moment>)
    requires Open(history)
    ensures Live(codec, history).conn.connectedAt == ConnectedSince(history)
    decreases |history|
  {
    var rest, last := history[..|history| - 1], history[|history| - 1];
    if last.what.MessagesArrived? {
      ClockIsLastConnect(codec, rest);
      ReceiveAllKeepsClock(codec, Live(codec, rest), last.what.msgs, last.at);
    }
  }

  /**
    Whatever has happened, and with every interval cut to whole milliseconds, the focus
    times of all applications together do not exceed the time connected.
  */
  lemma FocusWithinConnection(codec: Codec, history: seq<Moment>, now: nat)
    requires Possible(history) && (history != [] ==> history[|history| - 1].at <= now)
    ensures Sum(FocusTimes(Live(codec, history).conn, now))
         <= if Open(history) then Elapsed(now, ConnectedSince(history)) else 0
  {
    LiveConsistent(codec, history, now);
    var c := Live(codec, history).conn;
    if Open(history) {
      ClockIsLastConnect(codec, history);
      BudgetBoundsFocus(c, now);
    } else {
      assert FocusTimes(c, now) == map[];
    }
  }

  // ---------- focus intervals over histories ----------

  function Stamps(signals: seq<Signal>, at: nat): (trace: seq<Stamped>)
    ensures |trace| == |signals|
  {
    seq(|signals|, i requires 0 <= i < |signals| => Stamped(signals[i], at))
  }

  /** The signals a history comes down to, each with its time. */
  function Trace(codec: Codec, history: seq<Moment>): seq<Stamped> {
    if history == [] then []
    else
      var rest, m := history[..|history| - 1], history[|history| - 1];
      Trace(codec, rest) +
      match m.what
      case SocketConnected => []
      case SocketClosed => Stamps(Ended(Live(codec, rest).proto).1, m.at)
      case MessagesArrived(msgs) => Stamps(ReceiveEach(codec, Live(codec, rest).proto, msgs).1, m.at)
  }

  lemma {:induction false} ApplyAllAppend(c: Conn, p: seq<Signal>, q: seq<Signal>, at: nat)
    ensures ApplyAll(c, p + q, at) == ApplyAll(ApplyAll(c, p, at), q, at)
    decreases |p|
  {
    hide Apply;
    if p == [] {
      assert p + q == q;
    } else {
      assert (p + q)[1..] == p[1..] + q;
      ApplyAllAppend(Apply(c, p[0], at), p[1..], q, at);
    }
  }

  lemma {:induction false} ReceiveAllSignals(codec: Codec, c: Client, msgs: seq<seq<Byte>>, at: nat)
    ensures ReceiveAll(codec, c, msgs, at).conn == ApplyAll(c.conn, ReceiveEach(codec, c.proto, msgs).1, at)
    decreases |msgs|
  {
    hide Receive;
    if msgs != [] {
      var (q, signals) := Receive(codec, c.proto, msgs[0]);
      ReceiveAllSignals(codec, ReceiveOne(codec, c, msgs[0], at), msgs[1..], at);
      ApplyAllAppend(c.conn, signals, ReceiveEach(codec, q, msgs[1..]).1, at);
    }
  }

  lemma {:induction false} AfterStamps(trace: seq<Stamped>, signals: seq<Signal>, at: nat)
    ensures After(trace + Stamps(signals, at)) == ApplyAll(After(trace), signals, at)
    decreases |signals|
  {
    hide Apply;
    if signals == [] {
      assert trace + Stamps(signals, at) == trace;
    } else {
      var longer := trace + [Stamped(signals[0], at)];
      assert longer[..|longer| - 1] == trace;
      assert trace + Stamps(signals, at) == longer + Stamps(signals[1..], at);
      AfterStamps(longer, signals[1..], at);
    }
  }

  function At(c: Conn, x: nat): Conn {
    c.(connectedAt := x)
  }

  lemma {:induction false} CreateAllAt(c: Conn, ids: seq<AppId>, x: nat)
    ensures At(c, x).CreateAll(ids) == At(c.CreateAll(ids), x)
    decreases |ids|
  {
    if ids != [] {
      CreateAllAt(c.Create(ids[0]), ids[1..], x);
      assert At(c, x).Create(ids[0]) == At(c.Create(ids[0]), x);
    }
  }

  /** When the connection was made makes no difference to what signals do. */
  lemma {:induction false} ApplyAllAt(c: Conn, signals: seq<Signal>, at: nat, x: nat)
    ensures ApplyAll(At(c, x), signals, at) == At(ApplyAll(c, signals, at), x)
    decreases |signals|
  {
    if signals != [] {
      if signals[0].AppListReceived? {
        CreateAllAt(c.Reset(), AppIds(signals[0].apps), x);
        assert At(c, x).Reset() == At(c.Reset(), x);
      }
      assert Apply(At(c, x), signals[0], at) == At(Apply(c, signals[0], at), x);
      ApplyAllAt(Apply(c, signals[0], at), signals[1..], at, x);
    }
  }

  lemma {:induction false} LiveIsTrace(codec: Codec, history: seq<Moment>)
    ensures var c := Live(codec, history).conn; c == At(After(Trace(codec, history)), c.connectedAt)
    decreases |history|
  {
    hide ApplyAll, Receive, Apply;
    if history != [] {
      var rest, m := history[..|history| - 1], history[|history| - 1];
      LiveIsTrace(codec, rest);
      var c, trace := Live(codec, rest), Trace(codec, rest);
      match m.what {
        case SocketConnected =>
          assert trace + [] == trace;
        case SocketClosed =>
          Replayed(c.conn, trace, Ended(c.proto).1, m.at);
        case MessagesArrived(msgs) =>
          ReceiveAllSignals(codec, c, msgs, m.at);
          Replayed(c.conn, trace, ReceiveEach(codec, c.proto, msgs).1, m.at);
      }
    }
  }

  lemma Replayed(c: Conn, trace: seq<Stamped>, signals: seq<Signal>, at: nat)
    requires c == At(After(trace), c.connectedAt)
    ensures var d := ApplyAll(c, signals, at); d == At(After(trace + Stamps(signals, at)), d.connectedAt)
  {
    hide ApplyAll, After, Stamps;
    ApplyAllAt(After(trace), signals, at, c.connectedAt);
    AfterStamps(trace, signals, at);
  }

  /**
    After any history of connections, disconnections and messages, an application's focus
    time is the sum of its focus intervals, read off the signals that history comes down to.
  */
  lemma {:induction false} LiveFocusTime(codec: Codec, history: seq<Moment>, id: AppId, now: nat)
    requires id in Live(codec, history).conn.apps
    ensures Live(codec, history).conn.apps[id].FocusTime(now) == IntervalSum(Trace(codec, history), id, now)
  {
    hide Live, After, Trace, IntervalSum;
    LiveIsTrace(codec, history);
    FocusTimeIsIntervals(Trace(codec, history), id, now);
  }
}
