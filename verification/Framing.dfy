/**
  Length-prefixed framing of a byte stream, as a function of the bytes alone.

  `Scan` says what a reader of the stream has been told once it has seen the bytes
  `s`: the frames that are complete, the bytes that belong to the next frame, and
  whether the client's decoder loop can still make progress.
*/
module Framing {
  import opened Wire

  const HEADER := 4

  function ToBigEndian(n: Uint32): (s: seq<Byte>)
    ensures |s| == HEADER
  {
    [n / 0x100_0000, n / 0x1_0000 % 0x100, n / 0x100 % 0x100, n % 0x100]
  }

  function FromBigEndian(s: seq<Byte>): Uint32
    requires |s| == HEADER
  {
    var b0: int, b1: int, b2: int := s[0], s[1], s[2];
    b0 * 0x100_0000 + b1 * 0x1_0000 + b2 * 0x100 + s[3]
  }

  lemma BigEndianRoundTrip(n: Uint32)
    ensures FromBigEndian(ToBigEndian(n)) == n
  {
    assert n / 0x100 == n / 0x1_0000 * 0x100 + n / 0x100 % 0x100;
    assert n / 0x1_0000 == n / 0x100_0000 * 0x100 + n / 0x1_0000 % 0x100;
  }

  lemma BigEndianRoundTripBack(s: seq<Byte>)
    requires |s| == HEADER
    ensures ToBigEndian(FromBigEndian(s)) == s
  {
    var n := FromBigEndian(s);
    var b0: int, b1: int := s[0], s[1];
    assert n / 0x100 == b0 * 0x1_0000 + b1 * 0x100 + s[2];
    assert n / 0x1_0000 == b0 * 0x100 + b1;
    assert n / 0x100_0000 == b0;
  }

  /** `s` comes before `t` in the dictionary. */
  ghost predicate Before4(s: seq<Byte>, t: seq<Byte>)
    requires |s| == |t| == HEADER
  {
    exists k :: 0 <= k < HEADER && s[..k] == t[..k] && s[k] < t[k]
  }

  /** The most significant byte comes first: numbers are ordered as their bytes are in the dictionary. */
  lemma BigEndianOrder(m: Uint32, n: Uint32)
    ensures m < n <==> Before4(ToBigEndian(m), ToBigEndian(n))
  {
    hide Before4;
    if m < n {
      SmallerFirst(m, n);
    } else if n < m {
      SmallerFirst(n, m);
      NotBoth(ToBigEndian(n), ToBigEndian(m));
    } else {
      NotItself(ToBigEndian(m));
    }
  }

  lemma SmallerFirst(m: Uint32, n: Uint32)
    requires m < n
    ensures Before4(ToBigEndian(m), ToBigEndian(n))
  {
    SmallerDigits(m, n);
    var s, t := ToBigEndian(m), ToBigEndian(n);
    hide ToBigEndian;
    if s[0] != t[0] {
      assert s[..0] == t[..0];
    } else if s[1] != t[1] {
      assert s[..1] == t[..1];
    } else if s[2] != t[2] {
      assert s[..2] == t[..2];
    } else {
      assert s[..3] == t[..3];
    }
  }

  lemma SmallerDigits(m: Uint32, n: Uint32)
    requires m < n
    ensures var s, t := ToBigEndian(m), ToBigEndian(n);
            && s[0] <= t[0] && (s[0] == t[0] ==> s[1] <= t[1])
            && (s[0] == t[0] && s[1] == t[1] ==> s[2] <= t[2])
            && (s[0] == t[0] && s[1] == t[1] && s[2] == t[2] ==> s[3] < t[3])
  {
    Digits(m);
    Digits(n);
    assert m / 0x100_0000 <= n / 0x100_0000 && m / 0x1_0000 <= n / 0x1_0000 && m / 0x100 <= n / 0x100;
  }

  lemma Digits(n: Uint32)
    ensures n / 0x1_0000 == n / 0x100_0000 * 0x100 + n / 0x1_0000 % 0x100
    ensures n / 0x100 == n / 0x1_0000 * 0x100 + n / 0x100 % 0x100
    ensures n == n / 0x100 * 0x100 + n % 0x100
  {
  }

  lemma NotBoth(s: seq<Byte>, t: seq<Byte>)
    requires |s| == |t| == HEADER && Before4(s, t)
    ensures !Before4(t, s)
  {
    var k :| 0 <= k < HEADER && s[..k] == t[..k] && s[k] < t[k];
    forall l | 0 <= l < HEADER
      ensures !(t[..l] == s[..l] && t[l] < s[l])
    {
      if l < k {
        assert s[..k][l] == s[l] && t[..k][l] == t[l];
      } else if k < l {
        assert s[..l][k] == s[k] && t[..l][k] == t[k];
      }
    }
  }

  lemma NotItself(s: seq<Byte>)
    requires |s| == HEADER
    ensures !Before4(s, s)
  {
  }

  /** One message as the sender writes it. */
  function Frame(payload: seq<Byte>): (s: seq<Byte>)
    requires |payload| < 0x1_0000_0000
    ensures |s| == HEADER + |payload|
  {
    ToBigEndian(|payload|) + payload
  }

  ghost predicate Framable(payloads: seq<seq<Byte>>) {
    forall i :: 0 <= i < |payloads| ==> |payloads[i]| < 0x1_0000_0000
  }

  function FrameAll(payloads: seq<seq<Byte>>): seq<Byte>
    requires Framable(payloads)
  {
    if payloads == [] then [] else Frame(payloads[0]) + FrameAll(payloads[1..])
  }

  /** `stuck`: the client's loop spins on an empty frame that has bytes behind it. */
  datatype Scanned = Scanned(frames: seq<seq<Byte>>, rest: seq<Byte>, stuck: bool)

  function Scan(s: seq<Byte>): Scanned
    decreases |s|
  {
    if |s| < HEADER then Scanned([], s, false) else
    var n := FromBigEndian(s[..HEADER]);
    if n == 0 then Scanned([], s, |s| > HEADER) else
    if |s| < HEADER + n then Scanned([], s, false) else
    var t := Scan(s[HEADER + n..]);
    Scanned([s[HEADER..HEADER + n]] + t.frames, t.rest, t.stuck)
  }

  function Before(frames: seq<seq<Byte>>, t: Scanned): Scanned {
    t.(frames := frames + t.frames)
  }

  lemma ScanFrame(payload: seq<Byte>, tail: seq<Byte>)
    requires 0 < |payload| < 0x1_0000_0000
    ensures Scan(Frame(payload) + tail) == Before([payload], Scan(tail))
  {
    var s := Frame(payload) + tail;
    BigEndianRoundTrip(|payload|);
    assert s[..HEADER] == ToBigEndian(|payload|);
    assert s[HEADER..HEADER + |payload|] == payload;
    assert s[HEADER + |payload|..] == tail;
  }

  /** Cutting the stream anywhere and resuming from the unfinished bytes loses nothing. */
  lemma {:induction false} ScanResumes(a: seq<Byte>, b: seq<Byte>)
    ensures Scan(a + b) == Before(Scan(a).frames, Scan(Scan(a).rest + b))
    decreases |a|
  {
    if Scan(a).frames == [] {
      ScanNothing(a);
    } else {
      var first, tail := SplitFrame(a);
      ScanResumes(tail, b);
      ResumePastFrame(first, tail, b);
    }
  }

  lemma ResumePastFrame(first: seq<Byte>, tail: seq<Byte>, b: seq<Byte>)
    requires 0 < |first| < 0x1_0000_0000
    requires Scan(tail + b) == Before(Scan(tail).frames, Scan(Scan(tail).rest + b))
    ensures var a := Frame(first) + tail; Scan(a + b) == Before(Scan(a).frames, Scan(Scan(a).rest + b))
  {
    hide Scan;
    ScanFrame(first, tail);
    ScanFrame(first, tail + b);
    assert Frame(first) + tail + b == Frame(first) + (tail + b);
    BeforeBefore([first], Scan(tail).frames, Scan(Scan(tail).rest + b));
  }

  lemma BeforeBefore(p: seq<seq<Byte>>, q: seq<seq<Byte>>, t: Scanned)
    ensures Before(p, Before(q, t)) == Before(p + q, t)
  {
    assert p + (q + t.frames) == p + q + t.frames;
  }

  lemma ScanNothing(a: seq<Byte>)
    requires Scan(a).frames == []
    ensures Scan(a).rest == a
  {
  }

  /** The bytes that hold a complete frame are that frame and a shorter tail. */
  lemma SplitFrame(a: seq<Byte>) returns (payload: seq<Byte>, tail: seq<Byte>)
    requires Scan(a).frames != []
    ensures 0 < |payload| < 0x1_0000_0000 && a == Frame(payload) + tail && |tail| < |a|
  {
    var n := FromBigEndian(a[..HEADER]);
    BigEndianRoundTripBack(a[..HEADER]);
    payload, tail := a[HEADER..HEADER + n], a[HEADER + n..];
  }

  lemma ScanEmptyFrame(tail: seq<Byte>)
    ensures Scan(Frame([]) + tail) == Scanned([], Frame([]) + tail, tail != [])
  {
    BigEndianRoundTrip(0);
    assert (Frame([]) + tail)[..HEADER] == ToBigEndian(0);
  }

  lemma {:induction false} FrameAllAppend(p: seq<seq<Byte>>, q: seq<seq<Byte>>)
    requires Framable(p) && Framable(q)
    ensures Framable(p + q) && FrameAll(p + q) == FrameAll(p) + FrameAll(q)
  {
    hide Frame;
    if p == [] {
      assert p + q == q;
    } else {
      assert forall i :: 0 <= i < |p[1..]| ==> p[1..][i] == p[i + 1];
      FrameAllAppend(p[1..], q);
      assert (p + q)[1..] == p[1..] + q;
    }
  }

  lemma FrameAllSnoc(p: seq<seq<Byte>>, q: seq<Byte>)
    requires Framable(p) && |q| < 0x1_0000_0000
    ensures Framable(p + [q]) && FrameAll(p + [q]) == FrameAll(p) + Frame(q)
  {
    var one: seq<seq<Byte>> := [q];
    assert one[1..] == [];
    FrameAllAppend(p, one);
  }

  /** Decoding undoes encoding, and it does so exactly when no payload is empty. */
  lemma {:induction false} DecodeUndoesEncode(payloads: seq<seq<Byte>>)
    requires Framable(payloads)
    ensures Scan(FrameAll(payloads)).frames == payloads <==> [] !in payloads
    ensures [] !in payloads ==> Scan(FrameAll(payloads)) == Scanned(payloads, [], false)
  {
    if payloads != [] {
      assert forall i :: 0 <= i < |payloads[1..]| ==> payloads[1..][i] == payloads[i + 1];
      assert payloads == [payloads[0]] + payloads[1..];
      DecodeUndoesEncode(payloads[1..]);
      if payloads[0] == [] {
        ScanEmptyFrame(FrameAll(payloads[1..]));
      } else {
        ScanFrame(payloads[0], FrameAll(payloads[1..]));
      }
    }
  }

  /**
    Once an empty frame has a byte behind it nothing more is ever decoded: whatever
    arrives later only lengthens the unread bytes.
  */
  lemma StuckForever(a: seq<Byte>, b: seq<Byte>)
    requires Scan(a).stuck
    ensures Scan(a + b) == Scanned(Scan(a).frames, Scan(a).rest + b, true)
  {
    ScanResumes(a, b);
    StuckRest(a);
    var r := Scan(a).rest;
    assert (r + b)[..HEADER] == r[..HEADER];
  }

  lemma {:induction false} StuckRest(a: seq<Byte>)
    ensures Scan(Scan(a).rest) == Scanned([], Scan(a).rest, Scan(a).stuck)
    ensures Scan(a).stuck ==>
              |Scan(a).rest| > HEADER && FromBigEndian(Scan(a).rest[..HEADER]) == 0
    decreases |a|
  {
    if Scan(a).frames == [] {
      ScanNothing(a);
    } else {
      var first, tail := SplitFrame(a);
      ScanFrame(first, tail);
      StuckRest(tail);
    }
  }

  /** Every byte string is the encoding of what was decoded from it, followed by the rest. */
  lemma {:induction false} EncodeUndoesDecode(s: seq<Byte>)
    ensures var t := Scan(s);
            && Framable(t.frames) && [] !in t.frames
            && FrameAll(t.frames) + t.rest == s
    decreases |s|
  {
    if Scan(s).frames == [] {
      ScanNothing(s);
    } else {
      var first, tail := SplitFrame(s);
      EncodeUndoesDecode(tail);
      ScanFrame(first, tail);
      var f := Scan(tail).frames;
      assert ([first] + f)[1..] == f;
      assert Frame(first) + (FrameAll(f) + Scan(tail).rest) == Frame(first) + FrameAll(f) + Scan(tail).rest;
    }
  }

  /**
    Decoding the first `n` bytes of the encoding of non-empty payloads never gets stuck,
    yields payloads in order from the first one on, and misses none that is complete.
  */
  lemma {:induction false} ScanPrefix(payloads: seq<seq<Byte>>, n: nat)
    requires Framable(payloads) && [] !in payloads
    requires n <= |FrameAll(payloads)|
    ensures var t := Scan(FrameAll(payloads)[..n]); var k := |t.frames|;
            && !t.stuck
            && k <= |payloads| && t.frames == payloads[..k]
            && (k < |payloads| ==> n < |FrameAll(payloads[..k + 1])|)
  {
    var k := |Scan(FrameAll(payloads)[..n]).frames|;
    PrefixInOrder(payloads, FrameAll(payloads)[..n], FrameAll(payloads)[n..]);
    if k < |payloads| {
      assert payloads == payloads[..k + 1] + payloads[k + 1..];
      NotOneMore(payloads[..k + 1], payloads[k + 1..], n);
    }
  }

  lemma PrefixInOrder(payloads: seq<seq<Byte>>, seen: seq<Byte>, unseen: seq<Byte>)
    requires Framable(payloads) && [] !in payloads
    requires seen + unseen == FrameAll(payloads)
    ensures var t := Scan(seen); !t.stuck && |t.frames| <= |payloads| && t.frames == payloads[..|t.frames|]
  {
    hide Scan;
    DecodeUndoesEncode(payloads);
    var t := Scan(seen);
    if t.stuck {
      StuckForever(seen, unseen);
    }
    ScanResumes(seen, unseen);
    assert payloads == t.frames + Scan(t.rest + unseen).frames;
  }

  lemma NotOneMore(p: seq<seq<Byte>>, q: seq<seq<Byte>>, n: nat)
    requires Framable(p) && Framable(q) && [] !in p
    requires Framable(p + q) && n <= |FrameAll(p + q)|
    requires |Scan(FrameAll(p + q)[..n]).frames| < |p|
    ensures n < |FrameAll(p)|
  {
    hide Scan;
    FrameAllAppend(p, q);
    if n >= |FrameAll(p)| {
      var more := FrameAll(q)[..n - |FrameAll(p)|];
      assert FrameAll(p + q)[..n] == FrameAll(p) + more;
      ScanResumes(FrameAll(p), more);
      DecodeUndoesEncode(p);
    }
  }
}
