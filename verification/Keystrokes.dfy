/**
  Injecting a requested keystroke: the modifiers and the key are pressed in one batch,
  then the same slots are rewritten and released in a second one.
*/
module Keystrokes {
  import opened Wire
  import opened Requests

  const VK_SHIFT := 0x10
  const VK_CONTROL := 0x11
  const VK_MENU := 0x12
  const VK_LWIN := 0x5B

  /** What the key mapping yields for a key it does not know. */
  const NO_KEY := -1

  const SLOTS := 5

  datatype Input = Input(vk: int, keyUp: bool)

  function PressKey(vk: int): Input {
    Input(vk, false)
  }

  /** The keys that are down after some events. */
  function Played(held: set<int>, inputs: seq<Input>): set<int>
    decreases |inputs|
  {
    if inputs == [] then held
    else Played(if inputs[0].keyUp then held - {inputs[0].vk} else held + {inputs[0].vk}, inputs[1..])
  }

  lemma {:induction false} PlayedAppend(held: set<int>, p: seq<Input>, q: seq<Input>)
    ensures Played(held, p + q) == Played(Played(held, p), q)
    decreases |p|
  {
    if p == [] {
      assert p + q == q;
    } else {
      assert (p + q)[1..] == p[1..] + q;
      PlayedAppend(if p[0].keyUp then held - {p[0].vk} else held + {p[0].vk}, p[1..], q);
    }
  }

  function Least(a: nat, b: nat): nat {
    if a < b then a else b
  }

  /** The input queue of the desktop. */
  class Keyboard {
    var log: seq<Input>
    var held: set<int>

    constructor (held: set<int>)
      ensures log == [] && this.held == held
    {
      log, this.held := [], held;
    }

    /** Inserts the first `n` events of the array, or only the first `room` if something blocks the rest. */
    method SendInput(n: nat, ip: array<Input>, room: nat) returns (inserted: nat)
      requires n <= ip.Length
      modifies this
      ensures inserted == Least(n, room)
      ensures log == old(log) + ip[..inserted] && held == Played(old(held), ip[..inserted])
    {
      inserted := Least(n, room);
      for i := 0 to inserted
        invariant log == old(log) + ip[..i] && held == Played(old(held), ip[..i])
      {
        log := log + [ip[i]];
        held := if ip[i].keyUp then held - {ip[i].vk} else held + {ip[i].vk};
        assert ip[..i + 1] == ip[..i] + [ip[i]];
        PlayedAppend(old(held), ip[..i], [ip[i]]);
        PlayedOne(Played(old(held), ip[..i]), ip[i]);
      }
    }
  }

  lemma PlayedOne(held: set<int>, i: Input)
    ensures Played(held, [i]) == if i.keyUp then held - {i.vk} else held + {i.vk}
  {
    var one: seq<Input> := [i];
    assert one[1..] == [];
  }

  function Wanted(on: bool, vk: int): (keys: seq<int>)
    ensures |keys| <= 1
  {
    if on then [vk] else []
  }

  /** The keys a request asks for, in the order they are pressed. */
  function Keys(req: KeystrokeRequest, virtualKey: int): (keys: seq<int>)
    ensures 1 <= |keys| <= SLOTS
  {
    Wanted(req.ctrl, VK_CONTROL) + Wanted(req.alt, VK_MENU) + Wanted(req.shift, VK_SHIFT)
    + Wanted(req.meta, VK_LWIN) + [virtualKey]
  }

  function Inputs(keys: seq<int>, keyUp: bool): (inputs: seq<Input>)
    ensures |inputs| == |keys|
  {
    seq(|keys|, i requires 0 <= i < |keys| => Input(keys[i], keyUp))
  }

  function Bit(b: bool): nat {
    if b then 1 else 0
  }

  /** Ctrl, Alt, Shift and Win by their codes, in the order in which they are pressed; any other key after them. */
  function PressRank(vk: int): nat {
    if vk == 0x11 then 0 else if vk == 0x12 then 1 else if vk == 0x10 then 2 else if vk == 0x5B then 3 else 4
  }

  predicate IsModifier(req: KeystrokeRequest, vk: int) {
    (vk == 0x11 && req.ctrl) || (vk == 0x12 && req.alt) || (vk == 0x10 && req.shift) || (vk == 0x5B && req.meta)
  }

  /**
    The events are those of the request: twice as many as it has keys, its modifiers pressed
    in order and the mapped key last, and then the same keys released in the same order.
  */
  ghost predicate Spells(events: seq<Input>, req: KeystrokeRequest, virtualKey: int) {
    var n := 1 + Bit(req.ctrl) + Bit(req.alt) + Bit(req.shift) + Bit(req.meta);
    && |events| == 2 * n
    && (forall i :: 0 <= i < n ==> !events[i].keyUp && events[n + i] == Input(events[i].vk, true))
    && events[n - 1].vk == virtualKey
    && (forall i :: 0 <= i < n - 1 ==> IsModifier(req, events[i].vk))
    && (forall i, j :: 0 <= i < j < n - 1 ==> PressRank(events[i].vk) < PressRank(events[j].vk))
  }

  /** So a modifier is pressed if and only if the request has it or it is the mapped key itself. */
  lemma SpelledModifiers(events: seq<Input>, req: KeystrokeRequest, virtualKey: int, vk: int)
    requires Spells(events, req, virtualKey) && vk in {0x11, 0x12, 0x10, 0x5B}
    ensures Input(vk, false) in events <==> IsModifier(req, vk) || vk == virtualKey
  {
    var n := 1 + Bit(req.ctrl) + Bit(req.alt) + Bit(req.shift) + Bit(req.meta);
    if IsModifier(req, vk) {
      ModifierPressed(events, req, virtualKey, vk);
    } else if vk == virtualKey {
      assert events[n - 1] == Input(vk, false);
    } else {
      forall i | 0 <= i < |events|
        ensures events[i] != Input(vk, false)
      {
        if i >= n {
          assert events[n + (i - n)] == Input(events[i - n].vk, true);
        } else if i < n - 1 {
          assert IsModifier(req, events[i].vk);
        }
      }
    }
  }

  /** As many different modifiers are pressed as the request has, so each of them is. */
  lemma ModifierPressed(events: seq<Input>, req: KeystrokeRequest, virtualKey: int, vk: int)
    requires Spells(events, req, virtualKey) && IsModifier(req, vk)
    ensures Input(vk, false) in events
  {
    var n := 1 + Bit(req.ctrl) + Bit(req.alt) + Bit(req.shift) + Bit(req.meta);
    assert forall i :: 0 <= i < n - 1 ==> events[i] in events && events[i] == Input(events[i].vk, false);
    if n == 2 {
      assert IsModifier(req, events[0].vk);
    } else if n == 3 {
      assert IsModifier(req, events[0].vk) && IsModifier(req, events[1].vk);
    } else if n == 4 {
      assert IsModifier(req, events[0].vk) && IsModifier(req, events[1].vk) && IsModifier(req, events[2].vk);
    } else {
      assert IsModifier(req, events[0].vk) && IsModifier(req, events[1].vk);
      assert IsModifier(req, events[2].vk) && IsModifier(req, events[3].vk);
    }
  }

  lemma WholeBatchesSpell(req: KeystrokeRequest, virtualKey: int, room: nat, moreRoom: nat)
    requires room >= SLOTS && moreRoom >= SLOTS
    ensures Spells(Events(Keys(req, virtualKey), room, moreRoom), req, virtualKey)
  {
    hide Keys, Inputs;
    var keys := Keys(req, virtualKey);
    KeysInOrder(req, virtualKey);
    InputsAt(keys);
    WholeBatches(keys, room, moreRoom);
  }

  lemma WholeBatches(keys: seq<int>, room: nat, moreRoom: nat)
    requires 0 < |keys| <= room && |keys| <= moreRoom
    ensures var events, n := Events(keys, room, moreRoom), |keys|;
            && |events| == 2 * n
            && forall i :: 0 <= i < n ==> events[i] == Input(keys[i], false) && events[n + i] == Input(keys[i], true)
  {
    InputsAt(keys);
    hide Inputs;
    assert Events(keys, room, moreRoom) == Inputs(keys, false) + Inputs(keys, true);
  }

  lemma InputsAt(keys: seq<int>)
    ensures forall i :: 0 <= i < |keys| ==>
              Inputs(keys, false)[i] == Input(keys[i], false) && Inputs(keys, true)[i] == Input(keys[i], true)
  {
  }

  lemma KeysInOrder(req: KeystrokeRequest, virtualKey: int)
    ensures var keys := Keys(req, virtualKey);
            && |keys| == 1 + Bit(req.ctrl) + Bit(req.alt) + Bit(req.shift) + Bit(req.meta)
            && keys[|keys| - 1] == virtualKey
            && (forall i :: 0 <= i < |keys| - 1 ==> IsModifier(req, keys[i]))
            && (forall i, j :: 0 <= i < j < |keys| - 1 ==> PressRank(keys[i]) < PressRank(keys[j]))
  {
  }

  /**
    `virtualKey` is what the mapping yields for the requested key; `room` and `moreRoom` are how
    many events the desktop would take from each batch. The key is pressed last; the second
    batch releases exactly what the first one listed, in the same order; an unknown key
    injects nothing.
  */
  method SendKeystroke(keyboard: Keyboard, req: KeystrokeRequest, virtualKey: int, room: nat, moreRoom: nat)
    returns (ok: bool)
    modifies keyboard
    ensures virtualKey == NO_KEY ==> !ok && keyboard.log == old(keyboard.log) && keyboard.held == old(keyboard.held)
    ensures virtualKey != NO_KEY ==>
              var events := Events(Keys(req, virtualKey), room, moreRoom);
              && ok == (room > 0 && moreRoom > 0)
              && keyboard.log == old(keyboard.log) + events
              && keyboard.held == Played(old(keyboard.held), events)
    ensures virtualKey != NO_KEY && room >= SLOTS && moreRoom >= SLOTS ==>
              && old(keyboard.log) <= keyboard.log
              && Spells(keyboard.log[|old(keyboard.log)|..], req, virtualKey)
  {
    hide Inputs, Played, Events, Wanted, Keys, Spells;
    if room >= SLOTS && moreRoom >= SLOTS {
      WholeBatchesSpell(req, virtualKey, room, moreRoom);
    }
    var ip := new Input[SLOTS](_ => PressKey(0));
    var numMods := 0;
    ghost var keys: seq<int> := [];
    NoInputs(ip[..numMods]);
    numMods, keys := Push(ip, numMods, req.ctrl, VK_CONTROL, keys);
    numMods, keys := Push(ip, numMods, req.alt, VK_MENU, keys);
    numMods, keys := Push(ip, numMods, req.shift, VK_SHIFT, keys);
    numMods, keys := Push(ip, numMods, req.meta, VK_LWIN, keys);
    if virtualKey == NO_KEY {
      return false;
    }
    numMods, keys := Push(ip, numMods, true, virtualKey, keys);
    AllWanted(req, virtualKey);
    ok := PressAndRelease(keyboard, ip, numMods, keys, room, moreRoom);
  }

  lemma AllWanted(req: KeystrokeRequest, virtualKey: int)
    ensures [] + Wanted(req.ctrl, VK_CONTROL) + Wanted(req.alt, VK_MENU) + Wanted(req.shift, VK_SHIFT)
            + Wanted(req.meta, VK_LWIN) + Wanted(true, virtualKey)
         == Keys(req, virtualKey)
  {
  }

  lemma NoInputs(inputs: seq<Input>)
    requires inputs == []
    ensures inputs == Inputs([], false)
  {
  }

  /** The next slot, if the key is wanted. */
  method Push(ip: array<Input>, n: nat, on: bool, vk: int, ghost keys: seq<int>)
    returns (next: nat, ghost pushed: seq<int>)
    requires n == |keys| < ip.Length && ip[..n] == Inputs(keys, false)
    modifies ip
    ensures pushed == keys + Wanted(on, vk) && next == |pushed| && ip[..next] == Inputs(pushed, false)
  {
    next, pushed := n, keys + Wanted(on, vk);
    if on {
      ip[n] := PressKey(vk);
      next := n + 1;
    }
  }

  method PressAndRelease(
    keyboard: Keyboard, ip: array<Input>, numMods: nat, ghost keys: seq<int>, room: nat, moreRoom: nat)
    returns (ok: bool)
    requires 0 < numMods == |keys| <= ip.Length && ip[..numMods] == Inputs(keys, false)
    modifies keyboard, ip
    ensures var events := Events(keys, room, moreRoom);
            && ok == (room > 0 && moreRoom > 0)
            && keyboard.log == old(keyboard.log) + events
            && keyboard.held == Played(old(keyboard.held), events)
  {
    hide Played, Inputs;
    var pressed := keyboard.SendInput(numMods, ip, room);
    assert ip[..pressed] == ip[..numMods][..pressed];
    if pressed > 0 {
      Release(ip, numMods, keys);
      var released := keyboard.SendInput(numMods, ip, moreRoom);
      assert ip[..released] == ip[..numMods][..released];
      PlayedAppend(old(keyboard.held), Inputs(keys, false)[..pressed], Inputs(keys, true)[..released]);
      if released > 0 {
        return true;
      }
    }
    return false;
  }

  method Release(ip: array<Input>, n: nat, ghost keys: seq<int>)
    requires n == |keys| <= ip.Length && ip[..n] == Inputs(keys, false)
    modifies ip
    ensures ip[..n] == Inputs(keys, true)
  {
    for i := 0 to n
      invariant forall j :: 0 <= j < n ==> ip[j] == Input(keys[j], j < i)
    {
      ip[i] := ip[i].(keyUp := true);
    }
  }

  /** Everything one request makes the desktop insert. */
  function Events(keys: seq<int>, room: nat, moreRoom: nat): seq<Input> {
    var pressed, released := Least(|keys|, room), Least(|keys|, moreRoom);
    Inputs(keys, false)[..pressed] + if pressed > 0 then Inputs(keys, true)[..released] else []
  }

  function Members(keys: seq<int>): set<int> {
    set k | k in keys
  }

  lemma {:induction false} Batch(held: set<int>, keys: seq<int>, keyUp: bool)
    ensures Played(held, Inputs(keys, keyUp)) == if keyUp then held - Members(keys) else held + Members(keys)
    decreases |keys|
  {
    if keys != [] {
      assert keys == [keys[0]] + keys[1..];
      assert Members(keys) == {keys[0]} + Members(keys[1..]);
      assert Inputs(keys, keyUp)[1..] == Inputs(keys[1..], keyUp);
      Batch(if keyUp then held - {keys[0]} else held + {keys[0]}, keys[1..], keyUp);
    }
  }

  /** A request presses a first part of its keys, and releases a first part of its keys. */
  lemma HeldAfter(held: set<int>, keys: seq<int>, room: nat, moreRoom: nat)
    requires keys != []
    ensures var down, up := keys[..Least(|keys|, room)], keys[..Least(|keys|, moreRoom)];
            Played(held, Events(keys, room, moreRoom)) ==
            if room == 0 then held else held + Members(down) - Members(up)
  {
    var pressed, released := Least(|keys|, room), Least(|keys|, moreRoom);
    var down, up := keys[..pressed], keys[..released];
    assert Inputs(keys, false)[..pressed] == Inputs(down, false);
    assert Inputs(keys, true)[..released] == Inputs(up, true);
    Batch(held, down, false);
    if pressed > 0 {
      PlayedAppend(held, Inputs(down, false), Inputs(up, true));
      Batch(held + Members(down), up, true);
    } else {
      assert Events(keys, room, moreRoom) == Inputs(down, false);
      assert Members(down) == {};
    }
  }

  /**
    The keys that are held are the same before and after exactly if nothing was pressed, or
    no key that was released had been held before and every key that was pressed was held
    before or released.
  */
  lemma HeldUnchanged(held: set<int>, keys: seq<int>, room: nat, moreRoom: nat)
    requires keys != []
    ensures var down, up := Members(keys[..Least(|keys|, room)]), Members(keys[..Least(|keys|, moreRoom)]);
            Played(held, Events(keys, room, moreRoom)) == held
            <==> room == 0 || (up !! held && down <= held + up)
  {
    HeldAfter(held, keys, room, moreRoom);
    var down, up := Members(keys[..Least(|keys|, room)]), Members(keys[..Least(|keys|, moreRoom)]);
    if room != 0 && held + down - up == held {
      assert forall k :: k in up ==> k !in held + down - up;
      assert forall k :: k in down && k !in up ==> k in held + down - up;
    }
  }

  /** When the desktop takes whole batches, a request leaves the held keys as they were iff none of its own was held. */
  lemma AllOrNothing(held: set<int>, req: KeystrokeRequest, virtualKey: int, room: nat, moreRoom: nat)
    requires room >= SLOTS && moreRoom >= SLOTS
    ensures var keys := Keys(req, virtualKey);
            Played(held, Events(keys, room, moreRoom)) == held <==> Members(keys) !! held
  {
    var keys := Keys(req, virtualKey);
    assert keys[..|keys|] == keys;
    HeldUnchanged(held, keys, room, moreRoom);
  }

  /**
    With a short first or second batch success can leave keys down: of distinct keys that
    were not held, those stay down that were pressed but are beyond the released part.
  */
  lemma StuckKeys(held: set<int>, keys: seq<int>, room: nat, moreRoom: nat)
    requires keys != [] && Members(keys) !! held
    requires forall i, j :: 0 <= i < j < |keys| ==> keys[i] != keys[j]
    ensures forall i :: 0 <= i < |keys| ==>
              (keys[i] in Played(held, Events(keys, room, moreRoom)) <==> moreRoom <= i < room)
  {
    HeldAfter(held, keys, room, moreRoom);
    var down, up := keys[..Least(|keys|, room)], keys[..Least(|keys|, moreRoom)];
    forall i | 0 <= i < |keys|
      ensures keys[i] in down <==> i < room
      ensures keys[i] in up <==> i < moreRoom
      ensures keys[i] !in held
    {
      assert keys[i] in Members(keys);
      assert i < room ==> down[i] == keys[i];
      assert i < moreRoom ==> up[i] == keys[i];
    }
  }

  /** The server injects only into the window in the foreground, and answers accordingly. */
  method Answer(keyboard: Keyboard, req: KeystrokeRequest, onFocus: Handle, virtualKey: int, room: nat, moreRoom: nat)
    returns (response: Response)
    modifies keyboard
    ensures req.appId != onFocus || virtualKey == NO_KEY ==>
              keyboard.log == old(keyboard.log) && keyboard.held == old(keyboard.held)
    ensures req.appId == onFocus && virtualKey != NO_KEY ==>
              var events := Events(Keys(req, virtualKey), room, moreRoom);
              keyboard.log == old(keyboard.log) + events && keyboard.held == Played(old(keyboard.held), events)
    ensures req.appId == onFocus && virtualKey != NO_KEY && room >= SLOTS && moreRoom >= SLOTS ==>
              && old(keyboard.log) <= keyboard.log
              && Spells(keyboard.log[|old(keyboard.log)|..], req, virtualKey)
    ensures response.reqId == req.reqId
    ensures response.status == Success
       <==> req.appId == onFocus && virtualKey != NO_KEY && room > 0 && moreRoom > 0
    ensures response == Reply(req, onFocus, virtualKey != NO_KEY && room > 0 && moreRoom > 0)
  {
    var injected := false;
    if req.appId == onFocus {
      injected := SendKeystroke(keyboard, req, virtualKey, room, moreRoom);
    }
    if req.appId == onFocus && injected {
      response := Response(req.reqId, Success);
    } else {
      response := Response(req.reqId, WindowLostFocus);
    }
  }
}
