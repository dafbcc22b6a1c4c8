/**
  Replaying a server's notes on a client: after every round the client knows exactly
  the listed windows, and it shows the foreground window as focused exactly as long as
  that window has stayed listed since it was announced.
*/
module Replication {
  import opened Wire
  import opened Mirror
  import opened Protocols
  import opened ClientLists
  import opened WindowsLists

  /**
    The handles of `u` can be told apart by their low 32 bits, and none of them looks
    like the id that stands for no application.
  */
  ghost predicate Faithful(u: set<Handle>) {
    && (forall g, h :: g in u && h in u && ToAppId(g) == ToAppId(h) ==> g == h)
    && (forall h :: h in u ==> ToAppId(h) != INVALID_ID)
  }

  function Ids(handles: seq<Handle>): set<AppId> {
    set h | h in handles :: ToAppId(h)
  }

  function NoteSignal(n: Note): Signal {
    match n.status
    case W_OPENED => AppCreated(Application(n.window))
    case W_CLOSED => AppDestroyed(ToAppId(n.window))
    case W_ONFOCUS => AppGotFocus(ToAppId(n.window))
  }

  function Signals(notes: seq<Note>): seq<Signal> {
    seq(|notes|, i requires 0 <= i < |notes| => NoteSignal(notes[i]))
  }

  lemma {:induction false} ClosedReplay(v: View, handles: seq<Handle>)
    ensures ShowAll(v, Signals(Notes(handles, W_CLOSED)))
         == View(v.keys - Ids(handles), v.lit - Ids(handles), v.focusedApp)
    decreases |handles|
  {
    if handles == [] {
      assert Ids(handles) == {};
    } else {
      var id := ToAppId(handles[0]);
      assert handles == [handles[0]] + handles[1..];
      assert Ids(handles) == {id} + Ids(handles[1..]);
      assert Signals(Notes(handles, W_CLOSED))[1..] == Signals(Notes(handles[1..], W_CLOSED));
      var w := View(v.keys - {id}, v.lit - {id}, v.focusedApp);
      ClosedReplay(w, handles[1..]);
      assert w.keys - Ids(handles[1..]) == v.keys - Ids(handles);
      assert w.lit - Ids(handles[1..]) == v.lit - Ids(handles);
    }
  }

  lemma {:induction false} OpenedReplay(v: View, handles: seq<Handle>)
    ensures ShowAll(v, Signals(Notes(handles, W_OPENED)))
         == View(v.keys + Ids(handles), v.lit - Ids(handles), v.focusedApp)
    decreases |handles|
  {
    if handles == [] {
      assert Ids(handles) == {};
    } else {
      var id := ToAppId(handles[0]);
      assert handles == [handles[0]] + handles[1..];
      assert Ids(handles) == {id} + Ids(handles[1..]);
      assert Signals(Notes(handles, W_OPENED))[1..] == Signals(Notes(handles[1..], W_OPENED));
      var w := View(v.keys + {id}, v.lit - {id}, v.focusedApp);
      OpenedReplay(w, handles[1..]);
      assert w.keys + Ids(handles[1..]) == v.keys + Ids(handles);
      assert w.lit - Ids(handles[1..]) == v.lit - Ids(handles);
    }
  }

  /**
    The client's view of a server: exactly its windows; as focused application the
    server's foreground window if that was listed when `announced`, else none; and that
    application lit if it stayed listed since.
  */
  ghost predicate Mirrors(v: View, s: Server, announced: bool, held: bool) {
    && v.keys == Ids(s.wins)
    && v.focusedApp == (if announced then ToAppId(s.focus) else INVALID_ID)
    && v.lit == (if held then {ToAppId(s.focus)} else {})
    && (held ==> announced && s.focus in s.wins)
  }

  /** Whether the foreground window is listed when it is announced. */
  predicate AnnouncedNext(s: Server, announced: bool, r: Round) {
    if FocusMoves(s, r) then r.foreground in r.listing else announced
  }

  predicate HeldNext(s: Server, held: bool, r: Round) {
    if FocusMoves(s, r) then r.foreground in r.listing else held && s.focus in r.listing
  }

  ghost predicate Covers(u: set<Handle>, s: Server) {
    s.focus in u && forall h :: h in s.wins ==> h in u
  }

  /** Closing what is gone and opening what is new turns the old listing into the new one. */
  lemma ListingReplay(u: set<Handle>, a: seq<Handle>, b: seq<Handle>)
    requires Ascending(a) && Ascending(b) && Faithful(u)
    requires forall h :: h in a || h in b ==> h in u
    ensures Ids(a) - Ids(Difference(a, b)) + Ids(Difference(b, a)) == Ids(b)
  {
    DifferenceIsSetDifference(a, b);
    DifferenceIsSetDifference(b, a);
    hide Difference, Ascending;
    var gone, new_ := Difference(a, b), Difference(b, a);
    forall i | i in Ids(b)
      ensures i in Ids(a) - Ids(gone) + Ids(new_)
    {
      var h :| h in b && ToAppId(h) == i;
      assert h in a ==> h !in gone;
    }
    forall i | i in Ids(a) - Ids(gone) + Ids(new_)
      ensures i in Ids(b)
    {
      if i in Ids(a) && i !in Ids(gone) {
        var h :| h in a && ToAppId(h) == i;
        assert h in b;
      }
    }
  }

  /** One round keeps the mirror. */
  lemma RoundKeepsMirror(u: set<Handle>, v: View, s: Server, announced: bool, held: bool, r: Round)
    requires Faithful(u) && Covers(u, s) && Covers(u, NextServer(s, r))
    requires Ascending(s.wins) && Ascending(r.listing)
    requires Mirrors(v, s, announced, held)
    ensures Mirrors(ShowAll(v, Signals(RoundNotes(s, r))), NextServer(s, r),
                    AnnouncedNext(s, announced, r), HeldNext(s, held, r))
  {
    var closed, new_ := Difference(s.wins, r.listing), Difference(r.listing, s.wins);
    var c, o := Notes(closed, W_CLOSED), Notes(new_, W_OPENED);
    var f := RoundNotes(s, r)[|c| + |o|..];
    assert RoundNotes(s, r) == c + o + f;
    assert Signals(RoundNotes(s, r)) == Signals(c) + Signals(o) + Signals(f);
    ShowAllAppend(v, Signals(c) + Signals(o), Signals(f));
    ShowAllAppend(v, Signals(c), Signals(o));
    ClosedReplay(v, closed);
    OpenedReplay(View(v.keys - Ids(closed), v.lit - Ids(closed), v.focusedApp), new_);
    ListingReplay(u, s.wins, r.listing);
    var w := ShowAll(v, Signals(c) + Signals(o));
    ListedView(u, v, s, held, r, w);
    FocusReplay(u, w, s, announced, held, r, f);
  }

  /** After the closed and opened notes: the new listing, and the focus if it is still listed. */
  lemma ListedView(u: set<Handle>, v: View, s: Server, held: bool, r: Round, w: View)
    requires Faithful(u) && Covers(u, s) && forall h :: h in r.listing ==> h in u
    requires Ascending(s.wins) && Ascending(r.listing)
    requires v.lit == (if held then {ToAppId(s.focus)} else {}) && (held ==> s.focus in s.wins)
    requires w.lit == v.lit - Ids(Difference(s.wins, r.listing)) - Ids(Difference(r.listing, s.wins))
    ensures w.lit == if held && s.focus in r.listing then {ToAppId(s.focus)} else {}
  {
    DifferenceIsSetDifference(s.wins, r.listing);
    DifferenceIsSetDifference(r.listing, s.wins);
    hide Difference, Ascending;
    if held {
      var closed, new_ := Difference(s.wins, r.listing), Difference(r.listing, s.wins);
      assert ToAppId(s.focus) in Ids(closed) <==> s.focus in closed;
      assert ToAppId(s.focus) in Ids(new_) <==> s.focus in new_;
    }
  }

  lemma FocusReplay(u: set<Handle>, w: View, s: Server, announced: bool, held: bool, r: Round, f: seq<Note>)
    requires Faithful(u) && Covers(u, s) && Covers(u, NextServer(s, r))
    requires f == if FocusMoves(s, r)
                  then [Note(if r.foreground in r.listing then r.foreground else UNLISTED_FOCUS, W_ONFOCUS)]
                  else []
    requires w.keys == Ids(r.listing)
    requires w.focusedApp == (if announced then ToAppId(s.focus) else INVALID_ID)
    requires held ==> announced
    requires w.lit == if held && s.focus in r.listing then {ToAppId(s.focus)} else {}
    ensures Mirrors(ShowAll(w, Signals(f)), NextServer(s, r), AnnouncedNext(s, announced, r), HeldNext(s, held, r))
  {
    if FocusMoves(s, r) {
      assert Signals(f) == [NoteSignal(f[0])];
      assert Signals(f)[1..] == [];
      assert ShowAll(w, Signals(f)) == Show(w, NoteSignal(f[0]));
      assert ToAppId(UNLISTED_FOCUS) == INVALID_ID;
      assert ToAppId(r.foreground) in Ids(r.listing) <==> r.foreground in r.listing;
      assert INVALID_ID !in Ids(r.listing);
    } else {
      assert Signals(f) == [];
    }
  }

  /** What a joining client sees once it has the listing and the focus. */
  lemma SnapshotMirrors(u: set<Handle>, v: View, s: Server)
    requires Faithful(u) && Covers(u, s)
    ensures var listed := s.focus in s.wins;
            Mirrors(ShowAll(v, [AppListReceived(Applications(s.wins)), AppGotFocus(ToAppId(s.focus))]),
                    s, listed, listed)
  {
    var ids := AppIds(Applications(s.wins));
    assert forall i :: 0 <= i < |ids| ==> ids[i] == ToAppId(s.wins[i]);
    assert (set id | id in ids) == Ids(s.wins) by {
      forall i | i in Ids(s.wins) ensures i in ids {
        var h :| h in s.wins && ToAppId(h) == i;
        var k :| 0 <= k < |s.wins| && s.wins[k] == h;
        assert ids[k] == i;
      }
    }
    var signals := [AppListReceived(Applications(s.wins)), AppGotFocus(ToAppId(s.focus))];
    var listed := Show(v, signals[0]);
    assert listed == View(Ids(s.wins), {}, INVALID_ID);
    assert signals[1..] == [AppGotFocus(ToAppId(s.focus))] && signals[1..][1..] == [];
    assert ShowAll(listed, signals[1..]) == Show(listed, signals[1]);
    assert ShowAll(v, signals) == ShowAll(listed, signals[1..]);
    assert ToAppId(s.focus) in Ids(s.wins) <==> s.focus in s.wins;
  }

  // ---------- the focus rule by history ----------

  /**
    Since the later of round `join` and the moment it became the foreground window,
    round `a`, the foreground window of the last round has not changed.
  */
  ghost predicate ForegroundSince(states: seq<Server>, join: nat, a: nat) {
    && join <= a < |states|
    && (a > join ==> states[a - 1].focus != states[a].focus)
    && forall i :: a <= i < |states| ==> states[i].focus == states[|states| - 1].focus
  }

  ghost predicate Announced(states: seq<Server>, join: nat) {
    exists a: nat :: ForegroundSince(states, join, a) && states[a].focus in states[a].wins
  }

  /** ... and it has been listed all the time. */
  ghost predicate Held(states: seq<Server>, join: nat) {
    exists a: nat :: ForegroundSince(states, join, a)
             && forall i :: a <= i < |states| ==> states[i].focus in states[i].wins
  }

  lemma StartHistory(states: seq<Server>, join: nat)
    requires join == |states| - 1
    ensures Announced(states, join) == Held(states, join) == (states[join].focus in states[join].wins)
  {
    assert ForegroundSince(states, join, join);
  }

  lemma ForegroundUnique(states: seq<Server>, join: nat, a: nat, b: nat)
    requires ForegroundSince(states, join, a) && ForegroundSince(states, join, b)
    ensures a == b
  {
  }

  /** The step-by-step bookkeeping of announcements is the one read off the history. */
  lemma HistoryStep(states: seq<Server>, join: nat, r: Round)
    requires join < |states|
    ensures var s := states[|states| - 1]; var longer := states + [NextServer(s, r)];
            && Announced(longer, join) == AnnouncedNext(s, Announced(states, join), r)
            && Held(longer, join) == HeldNext(s, Held(states, join), r)
  {
    var n := |states|;
    var s := states[n - 1];
    var longer := states + [NextServer(s, r)];
    if FocusMoves(s, r) {
      assert ForegroundSince(longer, join, n);
      forall a: nat | ForegroundSince(longer, join, a)
        ensures a == n
      {
        ForegroundUnique(longer, join, a, n);
      }
    } else {
      forall a: nat
        ensures ForegroundSince(longer, join, a) == ForegroundSince(states, join, a)
      {
        SameForeground(states, join, NextServer(s, r), a);
      }
      HeldStep(states, join, r);
    }
  }

  lemma SameForeground(states: seq<Server>, join: nat, next: Server, a: nat)
    requires join < |states| && next.focus == states[|states| - 1].focus
    ensures ForegroundSince(states + [next], join, a) == ForegroundSince(states, join, a)
  {
    var longer := states + [next];
    assert forall i :: 0 <= i < |states| ==> longer[i] == states[i];
  }

  lemma HeldStep(states: seq<Server>, join: nat, r: Round)
    requires join < |states| && !FocusMoves(states[|states| - 1], r)
    ensures var s := states[|states| - 1];
            Held(states + [NextServer(s, r)], join) == (Held(states, join) && s.focus in r.listing)
    ensures var s := states[|states| - 1];
            Announced(states + [NextServer(s, r)], join) == Announced(states, join)
  {
    var s := states[|states| - 1];
    var next := NextServer(s, r);
    var longer := states + [next];
    assert forall i :: 0 <= i < |states| ==> longer[i] == states[i];
    if Held(longer, join) {
      var a: nat :| ForegroundSince(longer, join, a)
             && forall i :: a <= i < |longer| ==> longer[i].focus in longer[i].wins;
      SameForeground(states, join, next, a);
      assert longer[|states|] == next;
    }
    if Held(states, join) && s.focus in r.listing {
      var a: nat :| ForegroundSince(states, join, a)
             && forall i :: a <= i < |states| ==> states[i].focus in states[i].wins;
      SameForeground(states, join, next, a);
    }
    if Announced(longer, join) {
      var a: nat :| ForegroundSince(longer, join, a) && longer[a].focus in longer[a].wins;
      SameForeground(states, join, next, a);
    }
    if Announced(states, join) {
      var a: nat :| ForegroundSince(states, join, a) && states[a].focus in states[a].wins;
      SameForeground(states, join, next, a);
    }
  }
}
