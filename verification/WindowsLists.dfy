/**
  The server's window list: what one round of `update` announces and to whom.
*/
module WindowsLists {
  import opened Wire
  import opened Framing
  import opened ClientLists

  /** An ordered set of handles, the way iterating it yields them. */
  ghost predicate Ascending(s: seq<Handle>) {
    forall i, j :: 0 <= i < j < |s| ==> s[i] < s[j]
  }

  /** The difference of two ordered ranges, by merging them. */
  function Difference(a: seq<Handle>, b: seq<Handle>): seq<Handle>
    decreases |a| + |b|
  {
    if a == [] then []
    else if b == [] then a
    else if a[0] < b[0] then [a[0]] + Difference(a[1..], b)
    else if b[0] < a[0] then Difference(a, b[1..])
    else Difference(a[1..], b[1..])
  }

  /** Merging ordered ranges computes the set difference, in order and without repetition. */
  lemma {:induction false} DifferenceIsSetDifference(a: seq<Handle>, b: seq<Handle>)
    requires Ascending(a) && Ascending(b)
    ensures Ascending(Difference(a, b))
    ensures forall h :: h in Difference(a, b) <==> h in a && h !in b
    decreases |a| + |b|
  {
    if a != [] && b != [] {
      HeadIsLeast(a);
      HeadIsLeast(b);
      if a[0] < b[0] {
        DifferenceIsSetDifference(a[1..], b);
        PushLeast(a[0], Difference(a[1..], b));
      } else if b[0] < a[0] {
        DifferenceIsSetDifference(a, b[1..]);
      } else {
        DifferenceIsSetDifference(a[1..], b[1..]);
      }
    }
  }

  lemma PushLeast(least: Handle, s: seq<Handle>)
    requires Ascending(s) && forall h :: h in s ==> least < h
    ensures Ascending([least] + s)
  {
    assert forall i :: 0 <= i < |s| ==> s[i] in s;
  }

  lemma HeadIsLeast(a: seq<Handle>)
    requires Ascending(a) && a != []
    ensures Ascending(a[1..])
    ensures forall h :: h in a <==> h == a[0] || h in a[1..]
    ensures forall h :: h in a[1..] ==> a[0] < h
  {
    assert a == [a[0]] + a[1..];
  }

  /** What one look at the desktop shows. */
  datatype Round = Round(listing: seq<Handle>, foreground: Handle)

  function Notes(handles: seq<Handle>, status: WindowStatus): (notes: seq<Note>)
    ensures |notes| == |handles|
  {
    seq(|handles|, i requires 0 <= i < |handles| => Note(handles[i], status))
  }

  predicate FocusMoves(s: Server, r: Round) {
    s.focus != r.foreground && r.foreground != NULL_WINDOW
  }

  /** Closed windows first, then opened ones, then the focus. */
  function RoundNotes(s: Server, r: Round): seq<Note> {
    Notes(Difference(s.wins, r.listing), W_CLOSED)
    + Notes(Difference(r.listing, s.wins), W_OPENED)
    + if FocusMoves(s, r)
      then [Note(if r.foreground in r.listing then r.foreground else UNLISTED_FOCUS, W_ONFOCUS)]
      else []
  }

  function NextServer(s: Server, r: Round): Server {
    Server(r.listing, if FocusMoves(s, r) then r.foreground else s.focus)
  }

  /** The server after some rounds. */
  function After(s: Server, rounds: seq<Round>): Server {
    if rounds == [] then s
    else NextServer(After(s, rounds[..|rounds| - 1]), rounds[|rounds| - 1])
  }

  /** The last window that was seen in the foreground, if any was. */
  function LastForeground(first: Handle, rounds: seq<Round>): Handle {
    if rounds == [] then first
    else if rounds[|rounds| - 1].foreground != NULL_WINDOW then rounds[|rounds| - 1].foreground
    else LastForeground(first, rounds[..|rounds| - 1])
  }

  lemma {:induction false} FocusIsLastForeground(s: Server, rounds: seq<Round>)
    ensures After(s, rounds).focus == LastForeground(s.focus, rounds)
    decreases |rounds|
  {
    if rounds != [] {
      FocusIsLastForeground(s, rounds[..|rounds| - 1]);
    }
  }

  /**
    A round announces a window as focused exactly if the window is in the foreground and
    listed, and another one was seen in the foreground last. Being listed only later than
    being seen is therefore never announced.
  */
  lemma {:induction false} FocusAnnounced(s: Server, rounds: seq<Round>, r: Round, h: Handle)
    requires h != UNLISTED_FOCUS
    ensures Note(h, W_ONFOCUS) in RoundNotes(After(s, rounds), r)
       <==> h == r.foreground && h != NULL_WINDOW && h in r.listing && LastForeground(s.focus, rounds) != h
  {
    hide Difference;
    FocusIsLastForeground(s, rounds);
  }

  /** A window that comes to the foreground before it is listed is not announced on the next check. */
  lemma {:induction false} LateListingUnannounced()
    ensures var seen, listed := Round([1], 5), Round([1, 5], 5);
            && RoundNotes(Server([1], 1), seen) == [Note(UNLISTED_FOCUS, W_ONFOCUS)]
            && RoundNotes(NextServer(Server([1], 1), seen), listed) == [Note(5, W_OPENED)]
  {
    var one, both, five: seq<Handle> := [1], [1, 5], [5];
    assert one[1..] == [] && both[1..] == five && five[1..] == [];
    assert Difference(one, one) == [] && Difference(one, both) == [];
    assert Difference(both, one) == Difference(five, []) == five;
    assert Notes(five, W_OPENED) == [Note(5, W_OPENED)];
  }

  function NotePayloads(codec: Codec, notes: seq<Note>): (payloads: seq<seq<Byte>>)
    ensures |payloads| == |notes|
  {
    seq(|notes|, i requires 0 <= i < |notes| => codec.eventBytes(NoteEvent(notes[i])))
  }

  class WindowsList {
    var winHandles: seq<Handle>
    var onFocus: Handle

    function Model(): Server
      reads this
    {
      Server(winHandles, onFocus)
    }

    constructor (listing: seq<Handle>, foreground: Handle)
      ensures Model() == Server(listing, foreground)
    {
      winHandles, onFocus := listing, foreground;
    }

    /** One round: every active client is told exactly the round's notes, in order. */
    method Update(codec: Codec, active: ClientList, updated: seq<Handle>, currentFocus: Handle)
      requires active.Valid() && codec.Lawful()
      modifies this, Sockets(active.clients)`wire
      ensures Model() == NextServer(old(Model()), Round(updated, currentFocus))
      ensures active.Valid()
      ensures var notes := RoundNotes(old(Model()), Round(updated, currentFocus));
              Told(codec, active, old(Wires(active.clients)), notes)
    {
      hide Told, Difference, Wires, Notes, ClientList.Valid, Sockets;
      ghost var start := Wires(active.clients);
      NothingTold(codec, active);

      var closed := Difference(winHandles, updated);
      AnnounceAll(codec, active, closed, W_CLOSED, start, []);
      ghost var told := [] + Notes(closed, W_CLOSED);

      var appeared := Difference(updated, winHandles);
      AnnounceAll(codec, active, appeared, W_OPENED, start, told);
      told := told + Notes(appeared, W_OPENED);
      assert told == Notes(closed, W_CLOSED) + Notes(appeared, W_OPENED);

      if onFocus != currentFocus && currentFocus != NULL_WINDOW {
        if currentFocus in updated {
          onFocus := currentFocus;
        } else {
          onFocus := UNLISTED_FOCUS;
        }
        Announce(codec, active, Note(onFocus, W_ONFOCUS), start, told);
        onFocus := currentFocus;
      } else {
        assert told == told + [];
      }
      winHandles := updated;
    }
  }

  /** Since `start`, every client's socket got the framed notes and nothing else. */
  ghost predicate Told(codec: Codec, active: ClientList, start: seq<seq<Byte>>, notes: seq<Note>)
    reads active, active.clients, Sockets(active.clients)
  {
    && |start| == |active.clients|
    && Framable(NotePayloads(codec, notes))
    && forall i :: 0 <= i < |start| ==>
         active.clients[i].sck != null ==>
           active.clients[i].sck.wire == start[i] + FrameAll(NotePayloads(codec, notes))
  }

  lemma NothingTold(codec: Codec, active: ClientList)
    ensures Told(codec, active, Wires(active.clients), [])
  {
    assert NotePayloads(codec, []) == [];
  }

  method Announce(codec: Codec, active: ClientList, note: Note, ghost start: seq<seq<Byte>>, ghost told: seq<Note>)
    requires active.Valid() && codec.Lawful() && Told(codec, active, start, told)
    modifies Sockets(active.clients)`wire
    ensures active.Valid() && Told(codec, active, start, told + [note])
  {
    active.Notify(codec, note);
    OneMoreNote(codec, told, note);
    ghost var before, frame := FrameAll(NotePayloads(codec, told)), Frame(codec.eventBytes(NoteEvent(note)));
    forall i | 0 <= i < |start| && active.clients[i].sck != null
      ensures active.clients[i].sck.wire == start[i] + FrameAll(NotePayloads(codec, told + [note]))
    {
      assert active.clients[i] in active.clients;
      assert start[i] + before + frame == start[i] + (before + frame);
    }
  }

  method AnnounceAll(codec: Codec, active: ClientList, handles: seq<Handle>, status: WindowStatus,
                     ghost start: seq<seq<Byte>>, ghost told: seq<Note>)
    requires active.Valid() && codec.Lawful() && Told(codec, active, start, told)
    modifies Sockets(active.clients)`wire
    ensures active.Valid() && Told(codec, active, start, told + Notes(handles, status))
  {
    hide Told;
    assert told + Notes([], status) == told;
    for i := 0 to |handles|
      invariant active.Valid() && Told(codec, active, start, told + Notes(handles[..i], status))
    {
      Announce(codec, active, Note(handles[i], status), start, told + Notes(handles[..i], status));
      assert told + Notes(handles[..i], status) + [Note(handles[i], status)] == told + Notes(handles[..i + 1], status);
    }
    assert handles[..|handles|] == handles;
  }

  lemma OneMoreNote(codec: Codec, told: seq<Note>, note: Note)
    requires codec.Lawful() && Framable(NotePayloads(codec, told))
    ensures Framable(NotePayloads(codec, told + [note]))
    ensures FrameAll(NotePayloads(codec, told + [note]))
         == FrameAll(NotePayloads(codec, told)) + Frame(codec.eventBytes(NoteEvent(note)))
  {
    var payload := codec.eventBytes(NoteEvent(note));
    assert NotePayloads(codec, told + [note]) == NotePayloads(codec, told) + [payload];
    FrameAllAppend(NotePayloads(codec, told), [payload]);
    var one: seq<seq<Byte>> := [payload];
    assert one[1..] == [];
    assert FrameAll(one) == Frame(payload);
  }

  function Rank(s: WindowStatus): nat {
    match s
    case W_CLOSED => 0
    case W_OPENED => 1
    case W_ONFOCUS => 2
  }

  lemma NotesMembers(handles: seq<Handle>, status: WindowStatus)
    requires Ascending(handles)
    ensures forall h, st :: Note(h, st) in Notes(handles, status) <==> h in handles && st == status
    ensures Ordered(Notes(handles, status))
  {
    var notes := Notes(handles, status);
    forall h | h in handles
      ensures Note(h, status) in notes
    {
      var i :| 0 <= i < |handles| && handles[i] == h;
      assert notes[i] == Note(h, status);
    }
  }

  /** No note twice, and the closed windows before the opened ones before the focus. */
  ghost predicate Ordered(notes: seq<Note>) {
    && (forall i, j :: 0 <= i < j < |notes| ==> notes[i] != notes[j])
    && (forall i, j :: 0 <= i < j < |notes| ==> Rank(notes[i].status) <= Rank(notes[j].status))
  }

  lemma OrderedAppend(p: seq<Note>, q: seq<Note>)
    requires Ordered(p) && Ordered(q)
    requires forall m, n :: m in p && n in q ==> Rank(m.status) < Rank(n.status)
    ensures Ordered(p + q)
  {
    assert forall i :: 0 <= i < |p| ==> p[i] in p;
    assert forall i :: 0 <= i < |q| ==> q[i] in q;
  }

  /** A round announces every closed handle once, every opened handle once, and no other. */
  lemma RoundAnnouncesChanges(s: Server, r: Round)
    requires Ascending(s.wins) && Ascending(r.listing)
    ensures var notes := RoundNotes(s, r);
            && (forall h :: Note(h, W_CLOSED) in notes <==> h in s.wins && h !in r.listing)
            && (forall h :: Note(h, W_OPENED) in notes <==> h in r.listing && h !in s.wins)
            && Ordered(notes)
  {
    DifferenceIsSetDifference(s.wins, r.listing);
    DifferenceIsSetDifference(r.listing, s.wins);
    var closed, appeared := Difference(s.wins, r.listing), Difference(r.listing, s.wins);
    NotesMembers(closed, W_CLOSED);
    NotesMembers(appeared, W_OPENED);
    hide Difference, Notes, Ordered;
    var p, q := Notes(closed, W_CLOSED), Notes(appeared, W_OPENED);
    var f := RoundNotes(s, r)[|p| + |q|..];
    OrderedAppend(p, q);
    OneFocus(f);
    OrderedAppend(p + q, f);
    assert RoundNotes(s, r) == p + q + f;
  }

  lemma OneFocus(f: seq<Note>)
    requires |f| <= 1
    ensures Ordered(f)
  {
  }
}
