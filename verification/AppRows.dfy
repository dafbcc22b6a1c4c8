/**
  The table of applications: the rows of every connection that was added to it. A row
  stays until the event loop has deleted its application object.
*/
module AppRows {
  import opened Wire
  import opened Mirror
  import opened Connections

  ghost predicate NoDuplicates<T>(s: seq<T>) {
    forall i, j :: 0 <= i < j < |s| ==> s[i] != s[j]
  }

  /** Without the first occurrence of `x`. */
  function Removed<T(==)>(order: seq<T>, x: T): seq<T> {
    if order == [] then []
    else if order[0] == x then order[1..]
    else [order[0]] + Removed(order[1..], x)
  }

  lemma {:induction false} RemovedAt<T>(order: seq<T>, k: nat)
    requires k < |order| && order[k] !in order[..k]
    ensures Removed(order, order[k]) == order[..k] + order[k + 1..]
    decreases k
  {
    if k > 0 {
      assert order[0] == order[..k][0];
      assert order[1..][..k - 1] == order[..k][1..] && order[1..][k..] == order[k + 1..];
      RemovedAt(order[1..], k - 1);
      assert order[..k] == [order[0]] + order[..k][1..];
    }
  }

  lemma {:induction false} RemovedAbsent<T>(order: seq<T>, x: T)
    requires x !in order
    ensures Removed(order, x) == order
    decreases |order|
  {
    if order != [] {
      RemovedAbsent(order[1..], x);
    }
  }

  class AppList {
    var order: seq<App>

    constructor ()
      ensures order == []
    {
      order := [];
    }

    method AddApp(app: App?)
      modifies this
      ensures order == if app == null then old(order) else old(order) + [app]
    {
      if app == null {
        return;
      }
      order := order + [app];
    }

    method IndexOf(app: App) returns (row: int)
      ensures -1 <= row < |order| && (row == -1 <==> app !in order)
      ensures row >= 0 ==> order[row] == app && app !in order[..row]
    {
      row := 0;
      while row < |order|
        invariant 0 <= row <= |order| && app !in order[..row]
      {
        if order[row] == app {
          return;
        }
        row := row + 1;
      }
      row := -1;
    }

    method RemoveApp(app: App)
      modifies this
      ensures order == Removed(old(order), app)
    {
      var row := IndexOf(app);
      if row == -1 {
        RemovedAbsent(order, app);
        return;
      }
      RemovedAt(order, row);
      order := order[..row] + order[row + 1..];
    }

    /** The applications the connection has now, in the order its map yields them. */
    method AddConnection(conn: Connection?) returns (ghost listed: seq<App>)
      modifies this
      ensures order == old(order) + listed
      ensures conn == null ==> listed == []
      ensures conn != null ==> conn.Lists(listed)
    {
      if conn == null {
        return [];
      }
      var appList := conn.Apps();
      listed := appList;
      for i := 0 to |appList|
        invariant order == old(order) + appList[..i]
      {
        AddApp(appList[i]);
        assert appList[..i + 1] == appList[..i] + [appList[i]];
      }
      assert appList[..|appList|] == appList;
    }
  }

  // ---------- the table over whole runs ----------

  datatype Row = Row(conn: nat, serial: nat)

  datatype Screen = Screen(conns: seq<Conn>, added: set<nat>, order: seq<Row>)

  const EMPTY_SCREEN := Screen([], {}, [])

  datatype Action =
    | Open                                      // a new connection
    | Add(i: nat, listing: seq<nat>)            // a connection is added, its objects enumerated
    | Handle(i: nat, signal: Signal, now: nat)  // a connection handles a signal
    | Delete(i: nat, serial: nat)               // the event loop deletes an object

  /** Each connection is added once; only objects handed to the event loop are deleted. */
  ghost predicate Enabled(s: Screen, a: Action) {
    match a
    case Open => true
    case Add(i, listing) =>
      && i < |s.conns| && i !in s.added && NoDuplicates(listing)
      && forall x :: x in listing <==> x in s.conns[i].Serials()
    case Handle(i, _, _) => i < |s.conns|
    case Delete(i, serial) => i < |s.conns| && serial in s.conns[i].doomed
  }

  function RowsOf(i: nat, serials: seq<nat>): (rows: seq<Row>)
    ensures |rows| == |serials|
  {
    seq(|serials|, k requires 0 <= k < |serials| => Row(i, serials[k]))
  }

  function Do(s: Screen, a: Action): Screen {
    match a
    case Open => s.(conns := s.conns + [NewConn()])
    case Add(i, listing) => s.(added := s.added + {i}, order := s.order + RowsOf(i, listing))
    case Handle(i, signal, now) =>
      if i >= |s.conns| then s
      else Screen(
        s.conns[i := Apply(s.conns[i], signal, now)], s.added,
        if i in s.added then s.order + RowsOf(i, Emitted(s.conns[i], signal)) else s.order)
    case Delete(i, serial) =>
      if i >= |s.conns| then s
      else Screen(s.conns[i := s.conns[i].Delete(serial)], s.added, Removed(s.order, Row(i, serial)))
  }

  function Run(s: Screen, actions: seq<Action>): Screen {
    if actions == [] then s
    else Do(Run(s, actions[..|actions| - 1]), actions[|actions| - 1])
  }

  ghost predicate Possible(s: Screen, actions: seq<Action>) {
    actions == []
    || (Possible(s, actions[..|actions| - 1])
        && Enabled(Run(s, actions[..|actions| - 1]), actions[|actions| - 1]))
  }

  predicate Live(s: Screen, r: Row) {
    r.conn < |s.conns| && r.serial in s.conns[r.conn].Serials()
  }

  predicate Doomed(s: Screen, r: Row) {
    r.conn < |s.conns| && r.serial in s.conns[r.conn].doomed
  }

  ghost predicate RowsOk(s: Screen) {
    && (forall i :: 0 <= i < |s.conns| ==> Sound(s.conns[i]))
    && (forall i :: i in s.added ==> i < |s.conns|)
    && NoDuplicates(s.order)
    && (forall r :: r in s.order ==> r.conn in s.added && (Live(s, r) || Doomed(s, r)))
    && (forall r: Row :: r.conn in s.added && Live(s, r) ==> r in s.order)
  }

  // ---------- what a signal creates ----------

  /** From `c` to `d` no object is lost, and `new_` are the new ones. */
  ghost predicate Grows(c: Conn, d: Conn, new_: seq<nat>) {
    && c.next <= d.next
    && c.Serials() + c.doomed <= d.Serials() + d.doomed
    && NoDuplicates(new_) && (forall i, j :: 0 <= i < j < |new_| ==> new_[i] < new_[j])
    && (forall x :: x in new_ ==> c.next <= x < d.next && x in d.Serials() + d.doomed)
    && (forall x :: x in d.Serials() ==> x in c.Serials() || x in new_)
  }

  lemma GrowsTwice(c: Conn, d: Conn, e: Conn, p: seq<nat>, q: seq<nat>)
    requires Grows(c, d, p) && Grows(d, e, q)
    ensures Grows(c, e, p + q)
  {
    hide Conn.Serials;
    assert forall k :: 0 <= k < |p| ==> p[k] in p;
    assert forall k :: 0 <= k < |q| ==> q[k] in q;
  }

  lemma CreateGrows(c: Conn, id: AppId)
    ensures Grows(c, c.Create(id), Created(c, id))
  {
    var d := c.Create(id);
    forall x | x in c.Serials()
      ensures x in d.Serials()
    {
      var k :| k in c.apps && c.apps[k].serial == x;
      assert k in d.apps && d.apps[k].serial == x;
    }
    if id !in c.apps {
      assert id in d.apps && d.apps[id].serial == c.next;
    }
  }

  lemma {:induction false} CreateAllGrows(c: Conn, ids: seq<AppId>)
    ensures Grows(c, c.CreateAll(ids), AllCreated(c, ids))
    decreases |ids|
  {
    if ids != [] {
      CreateGrows(c, ids[0]);
      CreateAllGrows(c.Create(ids[0]), ids[1..]);
      GrowsTwice(c, c.Create(ids[0]), c.CreateAll(ids), Created(c, ids[0]), AllCreated(c.Create(ids[0]), ids[1..]));
    }
  }

  lemma ResetGrows(c: Conn)
    ensures Grows(c, c.Reset(), [])
  {
  }

  lemma FocusSerials(c: Conn, id: AppId, now: nat)
    ensures c.SetFocusedApp(id, now).Serials() == c.Serials()
  {
    var d := c.SetFocusedApp(id, now);
    assert d.apps.Keys == c.apps.Keys;
    assert forall k :: k in c.apps ==> d.apps[k].serial == c.apps[k].serial;
  }

  lemma DestroyGrows(c: Conn, id: AppId)
    ensures Grows(c, c.Destroy(id), [])
  {
    var d := c.Destroy(id);
    forall x | x in c.Serials()
      ensures x in d.Serials() + d.doomed
    {
      var k :| k in c.apps && c.apps[k].serial == x;
      assert k != id ==> k in d.apps && d.apps[k].serial == x;
    }
  }

  /** Every object a signal creates is announced once, and no object vanishes. */
  lemma ApplyGrows(c: Conn, s: Signal, now: nat)
    ensures Grows(c, Apply(c, s, now), Emitted(c, s))
  {
    match s
    case AppListReceived(apps) =>
      CreateAllGrows(c.Reset(), AppIds(apps));
      ResetGrows(c);
      var new_ := AllCreated(c.Reset(), AppIds(apps));
      assert [] + new_ == new_;
      GrowsTwice(c, c.Reset(), Apply(c, s, now), [], new_);
    case AppCreated(app) =>
      CreateGrows(c, ToAppId(app.id));
    case AppGotFocus(id) =>
      FocusSerials(c, id, now);
    case AppDestroyed(id) =>
      DestroyGrows(c, id);
    case ProtocolStopped =>
      ResetGrows(c);
    case ResponseReceived(_, _) =>
  }

  lemma RowsOfMembers(i: nat, serials: seq<nat>)
    ensures forall x :: x in serials <==> Row(i, x) in RowsOf(i, serials)
    ensures forall r :: r in RowsOf(i, serials) ==> r.conn == i && r.serial in serials
    ensures NoDuplicates(serials) ==> NoDuplicates(RowsOf(i, serials))
  {
    var rows := RowsOf(i, serials);
    forall x | x in serials
      ensures Row(i, x) in rows
    {
      var k :| 0 <= k < |serials| && serials[k] == x;
      assert rows[k] == Row(i, x);
    }
  }

  // ---------- what every action keeps ----------

  /** `a` is shown above `b`. */
  ghost predicate Above(order: seq<Row>, a: Row, b: Row) {
    exists i, j :: 0 <= i < j < |order| && order[i] == a && order[j] == b
  }

  lemma {:induction false} RemovedMembers(order: seq<Row>, x: Row)
    requires NoDuplicates(order)
    ensures NoDuplicates(Removed(order, x))
    ensures forall r :: r in Removed(order, x) <==> r in order && r != x
    decreases |order|
  {
    if order != [] {
      assert order == [order[0]] + order[1..];
      assert forall i :: 0 <= i < |order[1..]| ==> order[1..][i] == order[i + 1];
      RemovedMembers(order[1..], x);
      var rest := Removed(order[1..], x);
      assert forall i :: 0 <= i < |rest| ==> rest[i] in rest;
    }
  }

  lemma RemovedAbove(order: seq<Row>, x: Row, a: Row, b: Row)
    requires a != x && b != x && Above(order, a, b)
    ensures Above(Removed(order, x), a, b)
  {
    if x !in order {
      RemovedAbsent(order, x);
    } else {
      var k := FirstAt(order, x);
      RemovedAt(order, k);
      var rest := order[..k] + order[k + 1..];
      var i, j :| 0 <= i < j < |order| && order[i] == a && order[j] == b;
      var i', j' := if i < k then i else i - 1, if j < k then j else j - 1;
      assert rest[i'] == a && rest[j'] == b;
    }
  }

  lemma {:induction false} FirstAt(order: seq<Row>, x: Row) returns (k: nat)
    requires x in order
    ensures k < |order| && order[k] == x && x !in order[..k]
    decreases |order|
  {
    if order[0] == x {
      k := 0;
    } else {
      k := FirstAt(order[1..], x);
      assert order[..k + 1] == [order[0]] + order[1..][..k];
      k := k + 1;
    }
  }

  lemma AppendedRows(order: seq<Row>, rows: seq<Row>)
    requires NoDuplicates(order) && NoDuplicates(rows) && forall r :: r in rows ==> r !in order
    ensures NoDuplicates(order + rows)
  {
    assert forall k :: 0 <= k < |rows| ==> rows[k] in rows;
  }

  lemma HandleKeepsRows(s: Screen, i: nat, signal: Signal, now: nat)
    requires RowsOk(s) && i < |s.conns|
    ensures RowsOk(Do(s, Handle(i, signal, now)))
  {
    hide Sound, Apply, Emitted, Conn.Serials, NoDuplicates, RowsOf;
    var t := Do(s, Handle(i, signal, now));
    ApplySound(s.conns[i], signal, now);
    ApplyGrows(s.conns[i], signal, now);
    RowsOfMembers(i, Emitted(s.conns[i], signal));
    assert forall r: Row :: r.conn != i ==> Live(t, r) == Live(s, r) && Doomed(t, r) == Doomed(s, r);
    if i in s.added {
      forall r | r in s.order
        ensures r !in RowsOf(i, Emitted(s.conns[i], signal))
      {
        Serials(s, r);
      }
      AppendedRows(s.order, RowsOf(i, Emitted(s.conns[i], signal)));
    }
  }

  lemma Serials(s: Screen, r: Row)
    requires RowsOk(s) && (Live(s, r) || Doomed(s, r))
    ensures r.serial < s.conns[r.conn].next && !(Live(s, r) && Doomed(s, r))
  {
  }

  lemma AddKeepsRows(s: Screen, i: nat, listing: seq<nat>)
    requires RowsOk(s) && Enabled(s, Add(i, listing))
    ensures RowsOk(Do(s, Add(i, listing)))
  {
    hide Sound, Conn.Serials;
    var rows := RowsOf(i, listing);
    RowsOfMembers(i, listing);
    AppendedRows(s.order, rows);
  }

  lemma DeleteKeepsRows(s: Screen, i: nat, serial: nat)
    requires RowsOk(s) && Enabled(s, Delete(i, serial))
    ensures RowsOk(Do(s, Delete(i, serial)))
  {
    hide NoDuplicates, Removed;
    var t := Do(s, Delete(i, serial));
    RemovedMembers(s.order, Row(i, serial));
    Serials(s, Row(i, serial));
    assert t.conns[i].Serials() == s.conns[i].Serials();
    hide Conn.Serials;
    assert forall r: Row :: Live(t, r) == Live(s, r);
    assert forall r: Row :: r != Row(i, serial) ==> Doomed(t, r) == Doomed(s, r);
  }

  lemma OpenKeepsRows(s: Screen)
    requires RowsOk(s)
    ensures RowsOk(Do(s, Open))
  {
    var t := Do(s, Open);
    assert forall r: Row :: Live(t, r) == Live(s, r) && Doomed(t, r) == Doomed(s, r);
  }

  lemma StepKeepsRows(s: Screen, a: Action)
    requires RowsOk(s) && Enabled(s, a)
    ensures RowsOk(Do(s, a))
  {
    hide RowsOk, Do;
    match a
    case Open => OpenKeepsRows(s);
    case Add(i, listing) => AddKeepsRows(s, i, listing);
    case Handle(i, signal, now) => HandleKeepsRows(s, i, signal, now);
    case Delete(i, serial) => DeleteKeepsRows(s, i, serial);
  }

  lemma {:induction false} RunKeepsRows(s: Screen, actions: seq<Action>)
    requires RowsOk(s) && Possible(s, actions)
    ensures RowsOk(Run(s, actions))
    decreases |actions|
  {
    hide RowsOk, Do, Enabled;
    if actions != [] {
      var before := actions[..|actions| - 1];
      RunKeepsRows(s, before);
      StepKeepsRows(Run(s, before), actions[|actions| - 1]);
    }
  }

  /**
    In every run the table shows no object twice, shows every live application of every
    added connection, and shows nothing else but objects that await deletion.
  */
  lemma {:induction false} RowsMatch(actions: seq<Action>)
    requires Possible(EMPTY_SCREEN, actions)
    ensures var s := Run(EMPTY_SCREEN, actions);
            && NoDuplicates(s.order)
            && (forall r: Row :: r.conn in s.added && Live(s, r) ==> r in s.order)
            && (forall r :: r in s.order ==> r.conn in s.added && (Live(s, r) || Doomed(s, r)))
  {
    RunKeepsRows(EMPTY_SCREEN, actions);
  }

  /** Once the event loop has nothing to delete, the rows are exactly the live applications. */
  lemma {:induction false} RowsAreLive(actions: seq<Action>)
    requires Possible(EMPTY_SCREEN, actions)
    requires var s := Run(EMPTY_SCREEN, actions); forall i :: 0 <= i < |s.conns| ==> s.conns[i].doomed == {}
    ensures var s := Run(EMPTY_SCREEN, actions);
            forall r: Row :: r in s.order <==> r.conn in s.added && Live(s, r)
  {
    RowsMatch(actions);
  }

  // ---------- the order of the rows ----------

  /** The object exists or existed, and its connection has been added. */
  predicate Known(s: Screen, r: Row) {
    r.conn in s.added && r.conn < |s.conns| && r.serial < s.conns[r.conn].next
  }

  /** No step brings a row back, and no step exchanges two rows. */
  lemma StepKeepsOrder(s: Screen, a: Action, p: Row, q: Row)
    requires RowsOk(s) && Enabled(s, a) && Known(s, p) && Known(s, q)
    ensures var t := Do(s, a);
            && Known(t, p) && Known(t, q)
            && (p in t.order ==> p in s.order)
            && (p in t.order && q in t.order && Above(s.order, p, q) ==> Above(t.order, p, q))
  {
    hide Sound, Conn.Serials, NoDuplicates, Removed, Apply, Emitted, Above, RowsOf;
    var t := Do(s, a);
    match a
    case Open =>
    case Add(i, listing) =>
      RowsOfMembers(i, listing);
      KeptAbove(s.order, RowsOf(i, listing), p, q);
    case Handle(i, signal, now) =>
      ApplyGrows(s.conns[i], signal, now);
      RowsOfMembers(i, Emitted(s.conns[i], signal));
      KeptAbove(s.order, RowsOf(i, Emitted(s.conns[i], signal)), p, q);
    case Delete(i, serial) =>
      RemovedMembers(s.order, Row(i, serial));
      if p in t.order && q in t.order && Above(s.order, p, q) {
        RemovedAbove(s.order, Row(i, serial), p, q);
      }
  }

  /** A row that a step brings is shown below every row that was there. */
  lemma NewRowsLast(s: Screen, a: Action, p: Row, q: Row)
    requires RowsOk(s) && Enabled(s, a)
    requires p in s.order && p in Do(s, a).order && q in Do(s, a).order && q !in s.order
    ensures Above(Do(s, a).order, p, q)
  {
    hide RowsOk, Sound, Removed, Apply, Emitted, RowsOf;
    var t := Do(s, a);
    if a.Delete? {
      NoNewRows(s, a.i, a.serial, q);
    } else {
      assert s.order <= t.order;
      assert forall k :: 0 <= k < |s.order| ==> t.order[k] in s.order;
      var i :| 0 <= i < |s.order| && s.order[i] == p;
      var j :| 0 <= j < |t.order| && t.order[j] == q;
      assert t.order[i] == p && i < j;
    }
  }

  lemma NoNewRows(s: Screen, i: nat, serial: nat, q: Row)
    requires RowsOk(s) && Enabled(s, Delete(i, serial)) && q in Do(s, Delete(i, serial)).order
    ensures q in s.order
  {
    hide Removed;
    RemovedMembers(s.order, Row(i, serial));
  }

  lemma KeptAbove(order: seq<Row>, rows: seq<Row>, p: Row, q: Row)
    ensures Above(order, p, q) ==> Above(order + rows, p, q)
  {
    var all := order + rows;
    if Above(order, p, q) {
      var i, j :| 0 <= i < j < |order| && order[i] == p && order[j] == q;
      assert all[i] == p && all[j] == q;
    }
  }

  /** Whatever happens later, rows that survive stay in the order they were in. */
  lemma {:induction false} SurvivorsKeepOrder(s: Screen, later: seq<Action>, p: Row, q: Row)
    requires RowsOk(s) && Possible(s, later)
    requires p in s.order && q in s.order && Above(s.order, p, q)
    ensures var t := Run(s, later);
            && Known(t, p) && Known(t, q)
            && (p in t.order && q in t.order ==> Above(t.order, p, q))
    decreases |later|
  {
    hide RowsOk, Above, Do, Enabled;
    if later == [] {
      Shown(s, p);
      Shown(s, q);
    } else {
      var before, last := later[..|later| - 1], later[|later| - 1];
      SurvivorsKeepOrder(s, before, p, q);
      RunKeepsRows(s, before);
      StepKeepsOrder(Run(s, before), last, p, q);
      StepKeepsOrder(Run(s, before), last, q, p);
    }
  }

  lemma Shown(s: Screen, r: Row)
    requires RowsOk(s) && r in s.order
    ensures Known(s, r)
  {
    Serials(s, r);
  }

  /** A row that was removed never comes back. */
  lemma {:induction false} RemovedForGood(s: Screen, later: seq<Action>, p: Row)
    requires RowsOk(s) && Possible(s, later) && Known(s, p) && p !in s.order
    ensures Known(Run(s, later), p) && p !in Run(s, later).order
    decreases |later|
  {
    hide RowsOk, Do, Enabled, Known;
    if later != [] {
      var before := later[..|later| - 1];
      RemovedForGood(s, before, p);
      RunKeepsRows(s, before);
      StepKeepsOrder(Run(s, before), later[|later| - 1], p, p);
    }
  }
}
