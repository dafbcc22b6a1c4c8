/**
  Runs of the whole system that meet the hypotheses of the results about all runs.
*/
module Instances {
  import opened Wire
  import opened Framing
  import opened Mirror
  import opened ClientLists
  import opened WindowsLists
  import opened Replication
  import opened EndToEnd
  import opened Serializers

  lemma Then(codec: Codec, start: Server, actions: seq<Action>, a: Action)
    requires codec.Lawful() && Possible(codec, start, actions) && Enabled(codec, Run(codec, start, actions), a)
    ensures Possible(codec, start, actions + [a])
    ensures Run(codec, start, actions + [a]) == Do(codec, Run(codec, start, actions), a)
  {
    assert (actions + [a])[..|actions|] == actions;
  }

  /** A client joins at once and is delivered everything. */
  lemma {:induction false} JoinAndDeliver(codec: Codec, start: Server, at: nat) returns (actions: seq<Action>)
    requires codec.Lawful() && Fits(codec, start.wins)
    ensures Possible(codec, start, actions)
    ensures var s := Run(codec, start, actions);
            s.states == [start] && |s.peers| == 1 && s.peers[0].joined == 0 && s.peers[0].inflight == []
            && s.peers[0].sent == Snapshot(codec, start)
  {
    hide Codec.Lawful, Fits, Scan, FrameAll;
    Then(codec, start, [], Join(at));
    var join := [Join(at)];
    assert [] + join == join;
    var n := |Run(codec, start, join).peers[0].inflight|;
    actions := join + [Deliver(0, n, at)];
    Then(codec, start, join, Deliver(0, n, at));
  }

  /** Whatever the serializer, a client that joins an empty desktop can end up stuck. */
  lemma {:induction false} EmptyDesktopSticks(codec: Codec, focus: Handle, at: nat) returns (actions: seq<Action>)
    requires codec.Lawful() && ToAppId(focus) != INVALID_ID
    ensures Possible(codec, Server([], focus), actions)
    ensures var s := Run(codec, Server([], focus), actions);
            |s.peers| == 1 && s.peers[0].inflight == [] && s.peers[0].stuck
  {
    var start := Server([], focus);
    assert Applications([]) == [];
    actions := JoinAndDeliver(codec, start, at);
    EmptyJoinHangs(codec, {focus}, start, actions, 0);
  }

  /** What it is to reflect a desktop with one window, the one in the foreground. */
  lemma OneWindow(c: Conn)
    requires Reflects(c, [Server([1], 1)], 0)
    ensures c.apps.Keys == {1} && c.focusedApp == 1 && c.apps[1].focused
  {
    hide Held, Announced;
    StartHistory([Server([1], 1)], 0);
    assert Ids([1]) == {1};
  }

  lemma OneWindowCovered(u: set<Handle>)
    requires u == {1} || u == {1, 2}
    ensures Faithful(u) && Covers(u, Server([1], 1)) && (u == {1, 2} ==> Covers(u, Server([1, 2], 2)))
  {
  }

  /** A desktop with one window in the foreground is mirrored. */
  lemma {:induction false} OneWindowMirrored(codec: Codec) returns (actions: seq<Action>)
    requires codec.Lawful() && Fits(codec, [1])
    ensures Possible(codec, Server([1], 1), actions)
    ensures var s := Run(codec, Server([1], 1), actions);
            && |s.peers| == 1 && !s.peers[0].stuck
            && var c := s.peers[0].client.conn; c.apps.Keys == {1} && c.focusedApp == 1 && c.apps[1].focused
  {
    hide Codec.Lawful, Fits, Possible, Run, Reflects, Snapshot, Faithful, Covers;
    OneWindowCovered({1});
    actions := JoinAndDeliver(codec, Server([1], 1), 0);
    Convergence(codec, {1}, Server([1], 1), actions, 0);
    OneWindow(Run(codec, Server([1], 1), actions).peers[0].client.conn);
  }

  /** A client that has not been delivered a later round shows the desktop as of the join. */
  lemma {:induction false} LaggingClient(codec: Codec) returns (before: seq<Action>, later: seq<Action>)
    requires codec.Lawful() && Fits(codec, [1])
    ensures Possible(codec, Server([1], 1), before + later)
    ensures var t := Run(codec, Server([1], 1), before + later);
            && t.states == [Server([1], 1), Server([1, 2], 2)]
            && |t.peers| == 1 && t.peers[0].inflight != []
            && var c := t.peers[0].client.conn; c.apps.Keys == {1} && c.focusedApp == 1 && c.apps[1].focused
  {
    hide Codec.Lawful, Fits, Possible, Run, Reflects, Snapshot, Faithful, Covers, Do, Scan, PeerInv;
    var start, round := Server([1], 1), Round([1, 2], 2);
    OneWindowCovered({1, 2});
    before := JoinAndDeliver(codec, start, 0);
    later := [Poll(round)];
    var s := Run(codec, start, before);
    Undelivered(codec, s, round);
    Then(codec, start, before, Poll(round));
    RunKeeps(codec, {1, 2}, start, before);
    ShownPrefix(codec, s.states, s.peers[0]);
    EveryDeliveredRound(codec, {1, 2}, start, before, later, 0);
    OneWindow(Run(codec, start, before + later).peers[0].client.conn);
  }

  lemma Undelivered(codec: Codec, s: Sys, round: Round)
    requires codec.Lawful() && s.states == [Server([1], 1)] && round == Round([1, 2], 2) && |s.peers| == 1
    ensures Enabled(codec, s, Poll(round))
    ensures var t := Do(codec, s, Poll(round));
            && t.states == [Server([1], 1), Server([1, 2], 2)] && |t.peers| == 1
            && t.peers[0].inflight != [] && t.peers[0].received == s.peers[0].received
  {
    var notes := RoundNotes(s.states[0], round);
    PayloadsFit(codec, notes);
    assert NotePayloads(codec, notes) != [];
  }

  /** So there are a stuck client, a converged one and one that lags behind, under one serializer. */
  lemma {:induction false} SerializerRuns()
    returns (stuck: seq<Action>, shown: seq<Action>, before: seq<Action>, later: seq<Action>)
    ensures SERIALIZER.Lawful()
    ensures Possible(SERIALIZER, Server([], 0), stuck)
    ensures var s := Run(SERIALIZER, Server([], 0), stuck);
            |s.peers| == 1 && s.peers[0].inflight == [] && s.peers[0].stuck
    ensures Possible(SERIALIZER, Server([1], 1), shown)
    ensures var s := Run(SERIALIZER, Server([1], 1), shown);
            |s.peers| == 1 && !s.peers[0].stuck && s.peers[0].client.conn.apps.Keys == {1}
    ensures Possible(SERIALIZER, Server([1], 1), before + later)
    ensures var t := Run(SERIALIZER, Server([1], 1), before + later);
            && t.states == [Server([1], 1), Server([1, 2], 2)]
            && |t.peers| == 1 && t.peers[0].inflight != [] && t.peers[0].client.conn.apps.Keys == {1}
  {
    hide Codec.Lawful, Fits, Possible, Run;
    SomeSerializer();
    stuck := EmptyDesktopSticks(SERIALIZER, 0, 0);
    shown := OneWindowMirrored(SERIALIZER);
    before, later := LaggingClient(SERIALIZER);
  }

  lemma SomeSerializer()
    ensures SERIALIZER.Lawful() && Fits(SERIALIZER, []) && Fits(SERIALIZER, [1])
  {
    SerializerLawful();
  }
}
