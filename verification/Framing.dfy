/** The bus wire format: an 8-byte host-order header in front of every payload. */
module Framing {
  import opened Bytes

  const HEADER := 8             // sizeof(daemon_hdr_t): length, type, two bytes of padding
  const MAX_PAYLOAD := 4096     // DAEMON_MAX_MSG_PAYLOAD
  const RX_SIZE := HEADER + MAX_PAYLOAD
  const NAME_SIZE := 32         // DAEMON_NAME_MAX

  const REGISTER: u16 := 1
  const REGISTER_OK: u16 := 2
  const STATE_GET: u16 := 3
  const STATE_VALUE: u16 := 4
  const STATE_SET: u16 := 5
  const SEND: u16 := 6
  const DELIVER: u16 := 7
  const ERROR: u16 := 8
  const PING: u16 := 9
  const PONG: u16 := 10

  datatype Message = Msg(typ: u16, payload: seq<byte>)

  /** A message whose length fits the 32-bit header field. */
  type WireMsg = m: Message | |m.payload| < 0x1_0000_0000 witness Msg(PONG, [])

  function Frame(m: WireMsg): (f: seq<byte>)
    ensures |f| == HEADER + |m.payload|
  {
    Le32(|m.payload|) + Le16(m.typ) + [0, 0] + m.payload
  }

  /** A frame, byte for byte: the length and the type in host order, two bytes of padding,
      and the payload. */
  lemma FrameLayout(m: WireMsg)
    ensures var f := Frame(m);
            |f| == 8 + |m.payload| && f[8..] == m.payload
            && Weight(f[3], f[2], f[1], f[0]) == |m.payload| && Weight(0, 0, f[5], f[4]) == m.typ
  {
    var f := Frame(m);
    Le32Weighs(|m.payload|);
    assert f[..4] == Le32(|m.payload|) && f[4..6] == Le16(m.typ);
    assert forall k :: 0 <= k < 4 ==> f[k] == f[..4][k];
    assert f[4] == f[4..6][0] && f[5] == f[4..6][1];
  }

  /** Several messages back to back. */
  function Stream(ms: seq<WireMsg>): seq<byte>
  {
    if ms == [] then [] else Frame(ms[0]) + Stream(ms[1..])
  }

  function HeaderLength(s: seq<byte>): u32
    requires HEADER <= |s|
  {
    FromLe32(s[..4])
  }

  function HeaderType(s: seq<byte>): u16
    requires HEADER <= |s|
  {
    FromLe16(s[4..6])
  }

  lemma FrameHeader(m: WireMsg, tail: seq<byte>)
    ensures var s := Frame(m) + tail;
            HeaderLength(s) == |m.payload| && HeaderType(s) == m.typ
            && s[HEADER..][..|m.payload|] == m.payload && s[HEADER + |m.payload|..] == tail
  {
    var s := Frame(m) + tail;
    assert s[..4] == Le32(|m.payload|);
    assert s[4..6] == Le16(m.typ);
    Le32RoundTrip(|m.payload|);
  }

  lemma {:induction false} StreamAppend(a: seq<WireMsg>, b: seq<WireMsg>)
    ensures Stream(a + b) == Stream(a) + Stream(b)
  {
    if a == [] {
      assert a + b == b;
    } else {
      assert (a + b)[1..] == a[1..] + b;
      StreamAppend(a[1..], b);
    }
  }

  lemma StreamSnoc(a: seq<WireMsg>, m: WireMsg)
    ensures Stream(a + [m]) == Stream(a) + Frame(m)
  {
    StreamAppend(a, [m]);
    assert Stream([m]) == Frame(m) + Stream([]);
  }

  // ---- one-shot parse -------------------------------------------------

  /** What a byte stream says: its whole messages, the bytes left over, and
      whether the leftover begins with a header announcing too large a body. */
  datatype Parsed = Parsed(msgs: seq<WireMsg>, rest: seq<byte>, oversized: bool)

  /** The bytes begin with the header of a body no server accepts. */
  predicate Oversized(s: seq<byte>) {
    HEADER <= |s| && HeaderLength(s) > MAX_PAYLOAD
  }

  /** The bytes begin with one complete acceptable message. */
  predicate HasMessage(s: seq<byte>) {
    HEADER <= |s| && HeaderLength(s) <= MAX_PAYLOAD && HEADER + HeaderLength(s) <= |s|
  }

  function First(s: seq<byte>): WireMsg
    requires HasMessage(s)
  {
    Msg(HeaderType(s), s[HEADER..HEADER + HeaderLength(s)])
  }

  function AfterFirst(s: seq<byte>): (t: seq<byte>)
    requires HasMessage(s)
    ensures |t| < |s|
  {
    s[HEADER + HeaderLength(s)..]
  }

  function Parse(s: seq<byte>): Parsed
    decreases |s|
  {
    if HasMessage(s) then Prepend([First(s)], Parse(AfterFirst(s)))
    else Parsed([], s, Oversized(s))
  }

  function Prepend(ms: seq<WireMsg>, p: Parsed): Parsed {
    p.(msgs := ms + p.msgs)
  }

  /** Parsing resumes: what the first bytes said stands, and the leftover of
      the first part is parsed together with whatever follows it. */
  lemma {:induction false} ParseResumes(a: seq<byte>, b: seq<byte>)
    ensures var p := Parse(a);
            Parse(a + b) == if p.oversized then Parsed(p.msgs, p.rest + b, true)
                            else Prepend(p.msgs, Parse(p.rest + b))
    decreases |a|
  {
    FirstStable(a, b);
    if HasMessage(a) {
      ParseResumes(AfterFirst(a), b);
      var p := Parse(AfterFirst(a));
      if !p.oversized {
        PrependTwice([First(a)], p.msgs, Parse(p.rest + b));
      }
    } else {
      PrependNothing(Parse(a + b));
    }
  }

  /** More bytes never change a message or an oversized header already there. */
  lemma FirstStable(a: seq<byte>, b: seq<byte>)
    ensures Oversized(a) ==> Oversized(a + b) && !HasMessage(a + b)
    ensures HasMessage(a) ==> HasMessage(a + b) && First(a + b) == First(a)
                              && AfterFirst(a + b) == AfterFirst(a) + b
  {
    if HEADER <= |a| {
      assert (a + b)[..4] == a[..4];
      assert (a + b)[4..6] == a[4..6];
      if HasMessage(a) {
        var n := HEADER + HeaderLength(a);
        assert (a + b)[HEADER..n] == a[HEADER..n];
        assert (a + b)[n..] == a[n..] + b;
      }
    }
  }

  lemma PrependTwice(x: seq<WireMsg>, y: seq<WireMsg>, p: Parsed)
    ensures Prepend(x, Prepend(y, p)) == Prepend(x + y, p)
  {
    assert x + (y + p.msgs) == (x + y) + p.msgs;
  }

  lemma PrependNothing(p: Parsed)
    ensures Prepend([], p) == p
  {
    assert [] + p.msgs == p.msgs;
  }

  /** Every body is one a server accepts. */
  predicate Bounded(ms: seq<WireMsg>) {
    forall i :: 0 <= i < |ms| ==> |ms[i].payload| <= MAX_PAYLOAD
  }

  /** Parsing undoes framing, as long as every body is one a server accepts, and goes on
      with whatever follows. */
  lemma {:induction false} ParseStream(ms: seq<WireMsg>, tail: seq<byte>)
    requires Bounded(ms)
    ensures Parse(Stream(ms) + tail) == Prepend(ms, Parse(tail))
  {
    if ms == [] {
      assert Stream(ms) + tail == tail;
      PrependNothing(Parse(tail));
    } else {
      var t := Stream(ms[1..]) + tail;
      assert Stream(ms) + tail == Frame(ms[0]) + t;
      FrameFirst(ms[0], t);
      ParseStream(ms[1..], tail);
      PrependTwice([ms[0]], ms[1..], Parse(tail));
      assert [ms[0]] + ms[1..] == ms;
    }
  }

  lemma FrameFirst(m: WireMsg, t: seq<byte>)
    requires |m.payload| <= MAX_PAYLOAD
    ensures HasMessage(Frame(m) + t) && First(Frame(m) + t) == m && AfterFirst(Frame(m) + t) == t
  {
    FrameHeader(m, t);
    var s := Frame(m) + t;
    assert s[HEADER..HEADER + |m.payload|] == s[HEADER..][..|m.payload|];
  }
}
