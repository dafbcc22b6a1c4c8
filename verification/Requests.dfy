/**
  Keystroke requests and their responses: the client's table of pending requests
  against what was really sent, served and answered.
*/
module Requests {
  import opened Wire
  import opened Mirror
  import opened Protocols

  /** The server's answer: the request's own id, and success only for the foreground window. */
  function Reply(q: KeystrokeRequest, onFocus: Handle, injected: bool): Response {
    Response(q.reqId, if q.appId == onFocus && injected then Success else WindowLostFocus)
  }

  /** The response that completed the `index`-th request, and what the client reported. */
  datatype Completion = Completion(index: nat, request: KeystrokeRequest, response: Response)

  /**
    Client, server and the two directions between them. `sent`, `served`, `replies` and
    `fired` record what happened, `servedAs` which of the sent requests each served one was,
    `cases` the foreground window and the outcome of the injection when it was served;
    `open` is, for each id in use, which request uses it.
    `reused`: some request was given an id that was still pending.
  */
  datatype Exchange = Exchange(
    client: Proto, up: seq<KeystrokeRequest>, down: seq<Response>,
    sent: seq<KeystrokeRequest>, served: seq<KeystrokeRequest>, servedAs: seq<nat>, replies: seq<Response>,
    cases: seq<(Handle, bool)>, fired: seq<Completion>, open: map<Uint32, nat>, reused: bool)

  datatype Action =
    | SendRequest(req: KeystrokeRequest)
    | Serve(onFocus: Handle, injected: bool)
    | TakeNext
    | ChangeState(state: State)
    | LoseConnection

  predicate Enabled(s: Exchange, a: Action) {
    match a
    case Serve(_, _) => s.up != []
    case TakeNext => s.down != []
    case _ => true
  }

  function Do(s: Exchange, a: Action): Exchange
    requires Enabled(s, a)
  {
    match a
    case SendRequest(req) =>
      var (p, q) := Send(s.client, req);
      s.(client := p, up := s.up + [q], sent := s.sent + [q],
      open := s.open[q.reqId := |s.sent|], reused := s.reused || q.reqId in s.client.pending)
    case Serve(onFocus, injected) =>
      var r := Reply(s.up[0], onFocus, injected);
      s.(up := s.up[1..], served := s.served + [s.up[0]], down := s.down + [r], replies := s.replies + [r],
      cases := s.cases + [(onFocus, injected)],
      servedAs := s.servedAs + [if |s.up| <= |s.sent| then |s.sent| - |s.up| else 0])
    case TakeNext =>
      var r := s.down[0];
      var (p, signals) := if s.client.state == AcceptingEvents then TakeResponse(s.client, r) else (s.client, []);
      s.(client := p, down := s.down[1..],
      open := if signals == [] then s.open else s.open - {r.reqId},
      fired := if signals == [] then s.fired
               else s.fired + [Completion(if r.reqId in s.open then s.open[r.reqId] else 0,
                                          signals[0].request, signals[0].response)])
    case ChangeState(state) => s.(client := s.client.(state := state))
    case LoseConnection => s.(up := [], down := [])
  }

  function Run(actions: seq<Action>): Exchange
    requires Possible(actions)
    decreases |actions|, 1
  {
    if actions == [] then Exchange(NewProto(), [], [], [], [], [], [], [], [], map[], false)
    else Do(Run(actions[..|actions| - 1]), actions[|actions| - 1])
  }

  predicate Possible(actions: seq<Action>)
    decreases |actions|, 0
  {
    actions == [] || (
      var before := actions[..|actions| - 1];
      Possible(before) && Enabled(Run(before), actions[|actions| - 1]))
  }

  ghost predicate Answered(s: Exchange, k: nat) {
    exists i :: 0 <= i < |s.fired| && s.fired[i].index == k
  }

  /**
    The pending table holds, under its own id, exactly every request sent and not answered yet;
    what was reported was reported once per request, for that request and its own id.
  */
  ghost predicate Exact(s: Exchange) {
    && s.client.pending.Keys == s.open.Keys
    && (forall id :: id in s.open ==>
          s.open[id] < |s.sent| && s.sent[s.open[id]] == s.client.pending[id] && s.sent[s.open[id]].reqId == id)
    && (forall k :: 0 <= k < |s.sent| ==>
          (!Answered(s, k) <==> s.sent[k].reqId in s.open && s.open[s.sent[k].reqId] == k))
    && (forall i :: 0 <= i < |s.fired| ==>
          && s.fired[i].index < |s.sent| && s.fired[i].request == s.sent[s.fired[i].index]
          && s.fired[i].response.reqId == s.fired[i].request.reqId)
    && (forall i, j :: 0 <= i < j < |s.fired| ==> s.fired[i].index != s.fired[j].index)
  }

  /** Nothing in flight is answered yet, and no id is in flight twice. */
  ghost predicate InFlight(s: Exchange) {
    && (forall i :: 0 <= i < |s.up| ==> s.up[i].reqId in s.client.pending && s.client.pending[s.up[i].reqId] == s.up[i])
    && (forall i :: 0 <= i < |s.down| ==> s.down[i].reqId in s.client.pending)
    && (forall i, j :: 0 <= i < j < |s.up| ==> s.up[i].reqId != s.up[j].reqId)
    && (forall i, j :: 0 <= i < j < |s.down| ==> s.down[i].reqId != s.down[j].reqId)
    && (forall i, j :: 0 <= i < |s.up| && 0 <= j < |s.down| ==> s.up[i].reqId != s.down[j].reqId)
  }

  lemma SendExact(s: Exchange, req: KeystrokeRequest)
    requires Exact(s) && NextId(s.client.lastId) !in s.client.pending
    ensures Exact(Do(s, SendRequest(req)))
  {
    var t := Do(s, SendRequest(req));
    assert t.fired == s.fired;
    assert forall k :: 0 <= k < |s.sent| ==> t.sent[k] == s.sent[k];
    assert forall k: nat :: Answered(t, k) == Answered(s, k);
    var n := |s.sent|;
    assert t.sent[n].reqId == NextId(s.client.lastId) && !Answered(t, n);
  }

  lemma TakeExact(s: Exchange)
    requires Exact(s) && s.down != []
    ensures Exact(Do(s, TakeNext))
  {
    var t, r := Do(s, TakeNext), s.down[0];
    if s.client.state == AcceptingEvents && r.reqId in s.client.pending {
      var done := Completion(s.open[r.reqId], s.client.pending[r.reqId], r);
      assert t == s.(client := s.client.(pending := s.client.pending - {r.reqId}), down := s.down[1..],
                     open := s.open - {r.reqId}, fired := s.fired + [done]);
      CompletionExact(s, t, r);
    } else {
      assert t.fired == s.fired && t.open == s.open;
      assert forall l: nat :: Answered(t, l) == Answered(s, l);
    }
  }

  lemma CompletionExact(s: Exchange, t: Exchange, r: Response)
    requires Exact(s) && r.reqId in s.open
    requires t.client.pending == s.client.pending - {r.reqId} && t.open == s.open - {r.reqId}
    requires t.fired == s.fired + [Completion(s.open[r.reqId], s.client.pending[r.reqId], r)] && t.sent == s.sent
    ensures Exact(t)
  {
    var k := s.open[r.reqId];
    assert !Answered(s, k);
    AnsweredSnoc(s, t, k);
    assert forall i :: 0 <= i < |s.fired| ==> t.fired[i] == s.fired[i];
    assert forall i :: 0 <= i < |s.fired| ==> s.fired[i].index != k;
  }

  lemma AnsweredSnoc(s: Exchange, t: Exchange, k: nat)
    requires |t.fired| == |s.fired| + 1 && t.fired[..|s.fired|] == s.fired && t.fired[|s.fired|].index == k
    ensures forall l: nat :: Answered(t, l) == (Answered(s, l) || l == k)
  {
    assert forall i :: 0 <= i < |s.fired| ==> t.fired[i] == s.fired[i];
  }

  lemma OtherExact(s: Exchange, a: Action)
    requires Exact(s) && Enabled(s, a) && !a.SendRequest? && !a.TakeNext?
    ensures Exact(Do(s, a))
  {
    var t := Do(s, a);
    assert t.fired == s.fired && t.sent == s.sent && t.open == s.open;
    assert forall l: nat :: Answered(t, l) == Answered(s, l);
  }

  lemma StepInFlight(s: Exchange, a: Action)
    requires Enabled(s, a) && InFlight(s)
    requires a.SendRequest? ==> NextId(s.client.lastId) !in s.client.pending
    ensures InFlight(Do(s, a))
  {
  }

  /** In every run that never reused a pending id, the pending table is exact. */
  lemma {:induction false} PendingIsUnanswered(actions: seq<Action>)
    requires Possible(actions) && !Run(actions).reused
    ensures Exact(Run(actions)) && InFlight(Run(actions))
    decreases |actions|
  {
    hide Exact, InFlight;
    if actions == [] {
      StartExact();
    } else {
      var before, a := actions[..|actions| - 1], actions[|actions| - 1];
      PendingIsUnanswered(before);
      var s := Run(before);
      StepInFlight(s, a);
      match a
      case SendRequest(req) => SendExact(s, req);
      case TakeNext => TakeExact(s);
      case _ => OtherExact(s, a);
    }
  }

  lemma StartExact()
    ensures Exact(Run([])) && InFlight(Run([]))
  {
  }

  /**
    Responses with an id that was never sent, or whose request has been answered and whose id
    was not given out again, change nothing.
  */
  lemma StrayResponseIgnored(actions: seq<Action>, r: Response)
    requires Possible(actions) && !Run(actions).reused
    requires var s := Run(actions);
             forall k :: 0 <= k < |s.sent| && s.sent[k].reqId == r.reqId ==> Answered(s, k)
    ensures TakeResponse(Run(actions).client, r) == (Run(actions).client, [])
  {
    PendingIsUnanswered(actions);
  }

  /** The server answers every request it decodes, in order, with the request's id. */
  ghost predicate Answering(s: Exchange) {
    && |s.replies| == |s.served|
    && (forall i :: 0 <= i < |s.served| ==> s.replies[i].reqId == s.served[i].reqId)
    && |s.up| <= |s.sent| && s.up == s.sent[|s.sent| - |s.up|..]
    && |s.down| <= |s.replies| && s.down == s.replies[|s.replies| - |s.down|..]
  }

  lemma {:induction false} OneReplyPerRequest(actions: seq<Action>)
    requires Possible(actions)
    ensures Answering(Run(actions))
    decreases |actions|
  {
    hide Answering, Do;
    OneReplyStart();
    if actions != [] {
      OneReplyPerRequest(actions[..|actions| - 1]);
      AnsweringStep(Run(actions[..|actions| - 1]), actions[|actions| - 1]);
    }
  }

  lemma OneReplyStart()
    ensures Answering(Run([]))
  {
  }

  lemma AnsweringStep(s: Exchange, a: Action)
    requires Enabled(s, a) && Answering(s)
    ensures Answering(Do(s, a))
  {
    hide NextId, TakeResponse, Send;
    match a
    case SendRequest(req) =>
      SuffixGrows(s.sent, s.up, Send(s.client, req).1);
    case Serve(onFocus, injected) =>
      SuffixGrows(s.replies, s.down, Reply(s.up[0], onFocus, injected));
    case _ =>
  }

  lemma SuffixGrows<T>(all: seq<T>, tail: seq<T>, x: T)
    requires |tail| <= |all| && tail == all[|all| - |tail|..]
    ensures tail + [x] == (all + [x])[|all| - |tail|..]
  {
  }

  /**
    Taking a response is what the protocol object does with its bytes, once it has its list: the
    same table afterwards, and a report exactly if a completion is recorded.
  */
  lemma TakeNextReceives(codec: Codec, s: Exchange)
    requires codec.Lawful() && s.down != [] && s.client.state != Init
    ensures var t := Do(s, TakeNext);
            var (p, out) := Receive(codec, s.client, codec.eventBytes(EMPTY_EVENT.(response := Some(s.down[0]))));
            && p == t.client
            && (out == [] <==> t.fired == s.fired)
            && (out != [] ==>
                  && |t.fired| == |s.fired| + 1 && t.fired[..|s.fired|] == s.fired
                  && out == [ResponseReceived(t.fired[|s.fired|].request, t.fired[|s.fired|].response)])
  {
    var e := EMPTY_EVENT.(response := Some(s.down[0]));
    assert codec.parseEvent(codec.eventBytes(e)) == e;
    assert WindowSignals(e) == [];
  }

  // ---------- which reply a request gets ----------

  /** Each served request is one of those sent, and they are served in order. */
  ghost predicate Tracked(s: Exchange) {
    && |s.servedAs| == |s.served| && |s.up| <= |s.sent|
    && (forall j :: 0 <= j < |s.served| ==>
          s.servedAs[j] < |s.sent| - |s.up| && s.served[j] == s.sent[s.servedAs[j]])
    && (forall i, j :: 0 <= i < j < |s.servedAs| ==> s.servedAs[i] < s.servedAs[j])
  }

  /** What is under way belongs to the request its id is in use for. */
  ghost predicate Addressed(s: Exchange) {
    && |s.servedAs| == |s.replies| && |s.up| <= |s.sent| && |s.down| <= |s.replies|
    && (forall q :: |s.sent| - |s.up| <= q < |s.sent| ==> s.sent[q].reqId in s.open && s.open[s.sent[q].reqId] == q)
    && (forall j :: |s.replies| - |s.down| <= j < |s.replies| ==>
          s.replies[j].reqId in s.open && s.open[s.replies[j].reqId] == s.servedAs[j])
  }

  /** `r` was computed when the `index`-th request was served. */
  ghost predicate ReplyTo(s: Exchange, index: nat, r: Response) {
    exists j :: 0 <= j < |s.replies| && j < |s.servedAs| && s.servedAs[j] == index && s.replies[j] == r
  }

  ghost predicate OwnReplies(s: Exchange) {
    forall i :: 0 <= i < |s.fired| ==> ReplyTo(s, s.fired[i].index, s.fired[i].response)
  }

  lemma TrackedStep(s: Exchange, a: Action)
    requires Enabled(s, a) && Tracked(s) && Answering(s)
    ensures Tracked(Do(s, a))
  {
    hide NextId, TakeResponse, Send, Reply;
    if a.Serve? {
      assert s.up[0] == s.sent[|s.sent| - |s.up|];
    }
  }

  lemma AddressedStep(s: Exchange, a: Action)
    requires Enabled(s, a) && Answering(s) && Addressed(s) && InFlight(s) && s.client.pending.Keys == s.open.Keys
    requires a.SendRequest? ==> NextId(s.client.lastId) !in s.client.pending
    ensures Addressed(Do(s, a))
  {
    hide Addressed, InFlight, Answering, Do;
    match a
    case SendRequest(req) => SentAddressed(s, req);
    case Serve(onFocus, injected) => ServedAddressed(s, onFocus, injected);
    case TakeNext => TakenAddressed(s);
    case ChangeState(state) => SameAddressed(s, Do(s, a), a);
    case LoseConnection => SameAddressed(s, Do(s, a), a);
  }

  lemma SentAddressed(s: Exchange, req: KeystrokeRequest)
    requires Answering(s) && Addressed(s) && NextId(s.client.lastId) !in s.open
    ensures Addressed(Do(s, SendRequest(req)))
  {
    hide NextId, TakeResponse, Reply, Answering;
    var t, q := Do(s, SendRequest(req)), Send(s.client, req).1;
    assert t.sent == s.sent + [q] && t.open == s.open[q.reqId := |s.sent|] && q.reqId !in s.open;
    assert forall k :: 0 <= k < |s.sent| ==> t.sent[k] == s.sent[k];
    assert |t.sent| - |t.up| == |s.sent| - |s.up|;
  }

  lemma ServedAddressed(s: Exchange, onFocus: Handle, injected: bool)
    requires s.up != [] && Answering(s) && Addressed(s)
    ensures Addressed(Do(s, Serve(onFocus, injected)))
  {
    hide NextId, TakeResponse, Send, Reply;
    var t, q := Do(s, Serve(onFocus, injected)), |s.sent| - |s.up|;
    ReplyId(s.up[0], onFocus, injected);
    assert s.up[0] == s.sent[q];
    assert t.servedAs == s.servedAs + [q] && t.open == s.open && t.sent == s.sent;
    assert forall k :: 0 <= k < |s.replies| ==> t.replies[k] == s.replies[k];
  }

  lemma SameAddressed(s: Exchange, t: Exchange, a: Action)
    requires Enabled(s, a) && t == Do(s, a) && Addressed(s) && (a.ChangeState? || a.LoseConnection?)
    ensures Addressed(t)
  {
    hide NextId, TakeResponse, Send, Reply;
    assert t.sent == s.sent && t.open == s.open && t.replies == s.replies && t.servedAs == s.servedAs;
  }

  lemma ReplyId(q: KeystrokeRequest, onFocus: Handle, injected: bool)
    ensures Reply(q, onFocus, injected).reqId == q.reqId
  {
  }

  lemma TakenAddressed(s: Exchange)
    requires s.down != [] && Answering(s) && Addressed(s) && InFlight(s)
    ensures Addressed(Do(s, TakeNext))
  {
    hide NextId, Send, Reply;
    var t, first := Do(s, TakeNext), |s.replies| - |s.down|;
    forall j | first < j < |s.replies|
      ensures s.replies[j].reqId != s.down[0].reqId
    {
      assert s.replies[j] == s.down[j - first];
    }
    forall q | |s.sent| - |s.up| <= q < |s.sent|
      ensures s.sent[q].reqId != s.down[0].reqId
    {
      assert s.sent[q] == s.up[q - (|s.sent| - |s.up|)];
    }
  }

  lemma OwnRepliesStep(s: Exchange, a: Action)
    requires Enabled(s, a) && Answering(s) && Addressed(s) && OwnReplies(s)
    ensures OwnReplies(Do(s, a))
  {
    hide NextId, Reply;
    var t := Do(s, a);
    forall index: nat, r | ReplyTo(s, index, r)
      ensures ReplyTo(t, index, r)
    {
      var j :| 0 <= j < |s.replies| && j < |s.servedAs| && s.servedAs[j] == index && s.replies[j] == r;
      assert t.servedAs[j] == index && t.replies[j] == r;
    }
    if a.TakeNext? {
      var j := |s.replies| - |s.down|;
      assert s.down[0] == s.replies[j];
      assert ReplyTo(s, s.servedAs[j], s.down[0]);
      assert forall i :: 0 <= i < |s.fired| ==> t.fired[i] == s.fired[i];
    } else {
      assert t.fired == s.fired;
    }
  }

  lemma {:induction false} RunTracked(actions: seq<Action>)
    requires Possible(actions) && !Run(actions).reused
    ensures Tracked(Run(actions)) && Addressed(Run(actions)) && OwnReplies(Run(actions))
    decreases |actions|
  {
    hide Tracked, Addressed, OwnReplies, InFlight, Answering;
    if actions == [] {
      StartTracked();
    } else {
      var before, a := actions[..|actions| - 1], actions[|actions| - 1];
      RunTracked(before);
      PendingIsUnanswered(before);
      OneReplyPerRequest(before);
      var s := Run(before);
      TrackedStep(s, a);
      AddressedStep(s, a);
      OwnRepliesStep(s, a);
    }
  }

  lemma StartTracked()
    ensures Tracked(Run([])) && Addressed(Run([])) && OwnReplies(Run([]))
  {
  }

  /**
    What the client reports for a request is the very reply the server computed when it
    served that request: not one computed for another, whatever was lost in between.
  */
  lemma ResponsesAreOwn(actions: seq<Action>)
    requires Possible(actions) && !Run(actions).reused
    ensures var s := Run(actions);
            && |s.servedAs| == |s.served| == |s.replies|
            && (forall j :: 0 <= j < |s.served| ==> s.servedAs[j] < |s.sent| && s.served[j] == s.sent[s.servedAs[j]])
            && (forall i, j :: 0 <= i < j < |s.servedAs| ==> s.servedAs[i] < s.servedAs[j])
            && (forall i :: 0 <= i < |s.fired| ==> ReplyTo(s, s.fired[i].index, s.fired[i].response))
  {
    hide Run, Possible;
    RunTracked(actions);
    OneReplyPerRequest(actions);
  }

  lemma NothingLostStep(s: Exchange, a: Action)
    requires Enabled(s, a) && a != LoseConnection && s.sent == s.served + s.up
    ensures Do(s, a).sent == Do(s, a).served + Do(s, a).up
  {
    hide NextId, TakeResponse, Reply;
    if a.Serve? {
      assert s.served + s.up == s.served + [s.up[0]] + s.up[1..];
    }
  }

  // ---------- what is asked and what is answered ----------

  /** The requests a run's user asked for, in order. */
  function AskedIn(actions: seq<Action>): seq<KeystrokeRequest> {
    if actions == [] then []
    else
      var last := actions[|actions| - 1];
      AskedIn(actions[..|actions| - 1]) + if last.SendRequest? then [last.req] else []
  }

  lemma SendKeepsRequest(p: Proto, req: KeystrokeRequest)
    ensures SameButId(Send(p, req).1, req)
  {
  }

  /** What is sent asks for what the user asked for, request by request. */
  lemma {:induction false} SentAsAsked(actions: seq<Action>)
    requires Possible(actions)
    ensures var s := Run(actions); var asked := AskedIn(actions);
            |s.sent| == |asked| && forall k :: 0 <= k < |asked| ==> SameButId(s.sent[k], asked[k])
    decreases |actions|
  {
    hide Do, Enabled, NextId, SameButId;
    if actions != [] {
      var before, a := actions[..|actions| - 1], actions[|actions| - 1];
      SentAsAsked(before);
      SentFrom(Run(before), a);
    }
  }

  lemma SentFrom(s: Exchange, a: Action)
    requires Enabled(s, a)
    ensures var t := Do(s, a);
            if a.SendRequest? then |t.sent| == |s.sent| + 1 && t.sent[..|s.sent|] == s.sent
                                   && SameButId(t.sent[|s.sent|], a.req)
            else t.sent == s.sent
  {
    hide NextId, TakeResponse, Reply;
  }

  /** So the server decodes what was asked for, in order, except for what was lost with a connection. */
  lemma ServedAsAsked(actions: seq<Action>)
    requires Possible(actions) && !Run(actions).reused
    ensures var s := Run(actions); var asked := AskedIn(actions);
            && |s.servedAs| == |s.served|
            && (forall i, j :: 0 <= i < j < |s.servedAs| ==> s.servedAs[i] < s.servedAs[j])
            && (forall j :: 0 <= j < |s.served| ==>
                  s.servedAs[j] < |asked| && SameButId(s.served[j], asked[s.servedAs[j]]))
  {
    hide Run, Possible, AskedIn;
    RunTracked(actions);
    SentAsAsked(actions);
  }

  /** Each reply says success exactly if its request named the foreground window and the injection worked. */
  ghost predicate Truthful(s: Exchange) {
    && |s.cases| == |s.served| == |s.replies|
    && forall j :: 0 <= j < |s.served| ==>
         (s.replies[j].status == Success <==> s.served[j].appId == s.cases[j].0 && s.cases[j].1)
  }

  /** The foreground window and the outcome at each serving of a run, in order. */
  function CasesIn(actions: seq<Action>): seq<(Handle, bool)> {
    if actions == [] then []
    else
      var last := actions[|actions| - 1];
      CasesIn(actions[..|actions| - 1]) + if last.Serve? then [(last.onFocus, last.injected)] else []
  }

  lemma {:induction false} RepliesTruthful(actions: seq<Action>)
    requires Possible(actions)
    ensures Truthful(Run(actions)) && Run(actions).cases == CasesIn(actions)
    decreases |actions|
  {
    hide Do, Enabled, Truthful;
    if actions == [] {
      NothingServed();
    } else {
      var before, a := actions[..|actions| - 1], actions[|actions| - 1];
      RepliesTruthful(before);
      TruthfulStep(Run(before), a);
    }
  }

  lemma NothingServed()
    ensures Truthful(Run([])) && Run([]).cases == []
  {
  }

  lemma TruthfulStep(s: Exchange, a: Action)
    requires Enabled(s, a) && Truthful(s)
    ensures Truthful(Do(s, a))
    ensures Do(s, a).cases == s.cases + if a.Serve? then [(a.onFocus, a.injected)] else []
  {
    hide NextId, TakeResponse, Send;
    if !a.Serve? {
      assert s.cases + [] == s.cases;
    }
  }

  /**
    What the client reports for a request says success exactly if, when that request was
    served, it named the window in the foreground and its keys were injected.
  */
  lemma ReportsTruthful(actions: seq<Action>, i: nat)
    requires Possible(actions) && !Run(actions).reused && i < |Run(actions).fired|
    ensures var s := Run(actions); var f := s.fired[i]; var cases := CasesIn(actions);
            exists j :: 0 <= j < |cases| && j < |s.servedAs| && s.servedAs[j] == f.index
              && (f.response.status == Success <==> f.request.appId == cases[j].0 && cases[j].1)
  {
    hide Run, Possible, CasesIn, InFlight, Answered;
    RunTracked(actions);
    RepliesTruthful(actions);
    PendingIsUnanswered(actions);
    var s := Run(actions);
    assert ReplyTo(s, s.fired[i].index, s.fired[i].response);
    var j :| 0 <= j < |s.replies| && j < |s.servedAs| && s.servedAs[j] == s.fired[i].index
             && s.replies[j] == s.fired[i].response;
    assert s.served[j] == s.sent[s.servedAs[j]];
  }

  /** While the connection lasts, every request sent has been served or is on its way, in order. */
  lemma {:induction false} NothingLost(actions: seq<Action>)
    requires Possible(actions) && LoseConnection !in actions
    ensures var s := Run(actions); s.sent == s.served + s.up
    decreases |actions|
  {
    hide Do, Enabled;
    if actions != [] {
      var before, a := actions[..|actions| - 1], actions[|actions| - 1];
      assert actions == before + [a];
      NothingLost(before);
      NothingLostStep(Run(before), a);
    }
  }

  /** Requests carry the ids the counter gives out. */
  lemma SentStep(s: Exchange, a: Action)
    requires Enabled(s, a)
    ensures var t := Do(s, a);
            if a.SendRequest?
            then |t.sent| == |s.sent| + 1 && t.sent[..|s.sent|] == s.sent
                 && t.client.lastId == t.sent[|s.sent|].reqId == NextId(s.client.lastId)
            else t.sent == s.sent && t.client.lastId == s.client.lastId
  {
  }

  lemma {:induction false} SentIds(actions: seq<Action>)
    requires Possible(actions)
    ensures var s := Run(actions);
            && s.client.lastId == KthId(0, |s.sent|)
            && forall k :: 0 <= k < |s.sent| ==> s.sent[k].reqId == KthId(0, k + 1)
    decreases |actions|
  {
    hide Do, Enabled, NextId;
    if actions != [] {
      var before, a := actions[..|actions| - 1], actions[|actions| - 1];
      SentIds(before);
      SentStep(Run(before), a);
    }
  }

  lemma SendsOnlyGrow(s: Exchange, a: Action)
    requires Enabled(s, a)
    ensures |s.sent| <= |Do(s, a).sent|
  {
  }

  /** Before the counter comes round, no pending id is reused. */
  lemma {:induction false} NoReuseBeforeWrap(actions: seq<Action>)
    requires Possible(actions) && |Run(actions).sent| <= INVALID_REQUEST
    ensures !Run(actions).reused
    decreases |actions|
  {
    if actions != [] {
      var before, a := actions[..|actions| - 1], actions[|actions| - 1];
      var s := Run(before);
      SendsOnlyGrow(s, a);
      NoReuseBeforeWrap(before);
      if a.SendRequest? {
        NextIdFree(before);
      }
    }
  }

  lemma NextIdFree(actions: seq<Action>)
    requires Possible(actions) && !Run(actions).reused && |Run(actions).sent| < INVALID_REQUEST
    ensures NextId(Run(actions).client.lastId) !in Run(actions).client.pending
  {
    hide InFlight, Run, Possible, Answered, NextId;
    var s := Run(actions);
    SentIds(actions);
    PendingIsUnanswered(actions);
    var id := NextId(s.client.lastId);
    assert id == KthId(0, |s.sent| + 1);
    if id in s.client.pending {
      var k := s.open[id];
      assert s.sent[k].reqId == id;
      IdsDistinct(0, k + 1, |s.sent| + 1);
    }
  }

  /** Sending keeps the table exact if and only if the next id is not pending. */
  lemma SendExactly(s: Exchange, req: KeystrokeRequest)
    requires Exact(s)
    ensures Exact(Do(s, SendRequest(req))) <==> NextId(s.client.lastId) !in s.client.pending
  {
    var t, id := Do(s, SendRequest(req)), NextId(s.client.lastId);
    if id !in s.client.pending {
      SendExact(s, req);
    } else {
      var k := s.open[id];
      assert !Answered(s, k) && t.fired == s.fired;
      assert !Answered(t, k) && t.sent[k].reqId == id && t.open[id] == |s.sent|;
    }
  }

  /**
    Right after a pending id was given out again, the new request is unanswered and not
    recorded, the table is not exact, and the next response with that id is reported for the
    older request.
  */
  lemma ReuseShadows(actions: seq<Action>, req: KeystrokeRequest, r: Response)
    requires Possible(actions) && !Run(actions).reused
    requires var p := Run(actions).client; NextId(p.lastId) in p.pending && r.reqId == NextId(p.lastId)
    ensures var s := Run(actions); var t := Do(s, SendRequest(req));
            && t.reused && !Exact(t)
            && |t.sent| == |s.sent| + 1 && !Answered(t, |s.sent|) && t.client.pending == s.client.pending
            && exists k :: 0 <= k < |s.sent| && !Answered(s, k) && s.sent[k].reqId == r.reqId
                           && TakeResponse(t.client, r).1 == [ResponseReceived(s.sent[k], r)]
  {
    hide Run, Possible, InFlight;
    PendingIsUnanswered(actions);
    var s := Run(actions);
    SendExactly(s, req);
    var t, k := Do(s, SendRequest(req)), s.open[r.reqId];
    assert t.fired == s.fired;
    assert !Answered(s, k) && s.sent[k] == s.client.pending[r.reqId];
  }

  function Sends(req: KeystrokeRequest, k: nat): (actions: seq<Action>)
    ensures |actions| == k
  {
    seq(k, _ => SendRequest(req))
  }

  lemma NoSends(req: KeystrokeRequest)
    ensures Sends(req, 0) == [] && Possible([]) && Run([]).sent == []
  {
  }

  lemma OneMoreSend(req: KeystrokeRequest, k: nat)
    requires k > 0 && Possible(Sends(req, k - 1))
    ensures Possible(Sends(req, k)) && Run(Sends(req, k)) == Do(Run(Sends(req, k - 1)), SendRequest(req))
  {
    assert Sends(req, k)[..k - 1] == Sends(req, k - 1) && Sends(req, k)[k - 1] == SendRequest(req);
  }

  /** `k` requests without a response: possible, and from 2^32 on a pending id has been reused. */
  lemma {:induction false} UnansweredSends(req: KeystrokeRequest, k: nat)
    ensures Possible(Sends(req, k)) && |Run(Sends(req, k)).sent| == k
    ensures k >= 1 ==> 1 in Run(Sends(req, k)).client.pending
    ensures k > INVALID_REQUEST ==> Run(Sends(req, k)).reused
  {
    hide NextId, Possible, Run, TakeResponse, Reply;
    NoSends(req);
    if k > 0 {
      UnansweredSends(req, k - 1);
      var s := Run(Sends(req, k - 1));
      OneMoreSend(req, k);
      SentIds(Sends(req, k - 1));
      IdsCount(0, k - 1);
      IdsCount(0, k);
      assert NextId(s.client.lastId) == KthId(0, k);
    }
  }

  /** Some run of `k` requests reuses a pending id if and only if `k` is at least 2^32. */
  lemma ReusePossible(k: nat)
    ensures (exists actions :: Possible(actions) && |Run(actions).sent| == k && Run(actions).reused)
       <==> k > INVALID_REQUEST
  {
    hide Possible, Run;
    if k > INVALID_REQUEST {
      UnansweredSends(KeystrokeRequest(0, 0, false, false, false, false, 0), k);
    } else {
      forall actions | Possible(actions) && |Run(actions).sent| == k
        ensures !Run(actions).reused
      {
        NoReuseBeforeWrap(actions);
      }
    }
  }
}
