/** Blocking framed messages over a stream socket, as client processes use them. */
module Ipc {
  import opened Bytes
  import opened Framing

  // ---- what a receiver gets out of a byte stream ----------------------

  /** The outcome of one daemon_recv(): a message, one too long for the caller's
      buffer (dropped), or the end of the stream. */
  datatype Received = Message(m: WireMsg) | TooLong | Ended

  /** One daemon_recv() with room for `cap` bytes: the outcome and what is left. */
  function RecvOne(s: seq<byte>, cap: nat): (Received, seq<byte>) {
    if |s| < HEADER then (Ended, [])
    else
      var n := HEADER + HeaderLength(s);
      var rest := if n <= |s| then s[n..] else [];
      if HeaderLength(s) > cap then (TooLong, rest)
      else if n <= |s| then (Message(Msg(HeaderType(s), s[HEADER..n])), rest)
      else (Ended, rest)
  }

  /** `k` calls in a row. */
  function RecvMany(s: seq<byte>, cap: nat, k: nat): seq<Received>
    decreases k
  {
    if k == 0 then [] else [RecvOne(s, cap).0] + RecvMany(RecvOne(s, cap).1, cap, k - 1)
  }

  function Seen(m: WireMsg, cap: nat): Received {
    if |m.payload| <= cap then Message(m) else TooLong
  }

  /** A stream of frames is read back message by message; one too long for the
      buffer costs exactly itself, and the next is read correctly. */
  lemma {:induction false} ReadBack(ms: seq<WireMsg>, tail: seq<byte>, cap: nat)
    ensures RecvMany(Stream(ms) + tail, cap, |ms|) == seq(|ms|, i requires 0 <= i < |ms| => Seen(ms[i], cap))
  {
    if ms != [] {
      var t := Stream(ms[1..]) + tail;
      assert Stream(ms) + tail == Frame(ms[0]) + t;
      RecvFrame(ms[0], t, cap);
      ReadBack(ms[1..], tail, cap);
    }
  }

  lemma RecvFrame(m: WireMsg, t: seq<byte>, cap: nat)
    ensures RecvOne(Frame(m) + t, cap) == (Seen(m, cap), t)
  {
    FrameHeader(m, t);
    var s := Frame(m) + t;
    assert s[HEADER..HEADER + |m.payload|] == s[HEADER..][..|m.payload|];
  }

  /** A frame cut off: the end of the stream, unless its length alone is reason enough to
      refuse it. */
  lemma TornEnds(m: WireMsg, k: nat, cap: nat)
    requires k < |Frame(m)|
    ensures RecvOne(Frame(m)[..k], cap) == (if 8 <= k && |m.payload| > cap then TooLong else Ended, [])
  {
    var s := Frame(m)[..k];
    if 8 <= k {
      FrameHeader(m, []);
      assert Frame(m) + [] == Frame(m) && s[..4] == Frame(m)[..4];
    }
  }

  // ---- the sending end ------------------------------------------------

  /** One answer of write(): some bytes taken, EINTR, any other error. */
  datatype WriteOutcome = Wrote(n: nat) | WriteSignal | WriteError

  class Writer {
    var answers: seq<WriteOutcome>   // once these run out, write() takes everything
    var wire: seq<byte>                // everything it has taken

    constructor (answers: seq<WriteOutcome>)
      ensures this.answers == answers && wire == []
    {
      this.answers, wire := answers, [];
    }

    /** The socket never fails and always takes something. */
    ghost predicate Smooth()
      reads this
    {
      forall i :: 0 <= i < |answers| ==> answers[i] != WriteError && answers[i] != Wrote(0)
    }

    method Write(data: seq<byte>) returns (o: WriteOutcome)
      modifies this
      ensures o.Wrote? ==> o.n <= |data| && wire == old(wire) + data[..o.n]
      ensures !o.Wrote? ==> wire == old(wire) && old(answers) != [] && o == old(answers)[0]
      ensures if old(answers) == [] then answers == [] && o == Wrote(|data|) else answers == old(answers)[1..]
      ensures old(Smooth()) && data != [] ==> Smooth() && o != WriteError && o != Wrote(0)
    {
      o := if answers == [] then Wrote(|data|) else answers[0];
      answers := if answers == [] then [] else answers[1..];
      if o.Wrote? {
        o := Wrote(Min(o.n, |data|));
        wire := wire + data[..o.n];
      }
    }

    /** daemon_write_all(): 0, -1 on error, -2 if the peer takes nothing more. */
    method WriteAll(data: seq<byte>) returns (ret: int)
      modifies this
      ensures ret == 0 || ret == -1 || ret == -2
      ensures old(Smooth()) ==> ret == 0 && Smooth()
      ensures ret == 0 ==> wire == old(wire) + data
      ensures ret != 0 ==> exists k :: 0 <= k < |data| && wire == old(wire) + data[..k]
    {
      var off := 0;
      assert data[..off] == [];
      while off < |data|
        invariant 0 <= off <= |data| && wire == old(wire) + data[..off]
        invariant old(Smooth()) ==> Smooth()
        decreases |answers|, |data| - off
      {
        var o := Write(data[off..]);
        match o {
          case WriteSignal =>
          case WriteError => return -1;
          case Wrote(n) =>
            if n == 0 {
              return -2;
            }
            assert data[..off] + data[off..][..n] == data[..off + n];
            off := off + n;
        }
      }
      assert data[..off] == data;
      ret := 0;
    }

    /** daemon_send(): the whole frame, or a torn one and a nonzero result. */
    method Send(m: WireMsg) returns (ret: int)
      modifies this
      ensures ret == 0 || ret == -1
      ensures old(Smooth()) ==> ret == 0 && Smooth()
      ensures ret == 0 ==> wire == old(wire) + Frame(m)
      ensures ret != 0 ==> exists k :: 0 <= k < |Frame(m)| && wire == old(wire) + Frame(m)[..k]
    {
      var hdr := Le32(|m.payload|) + Le16(m.typ) + [0, 0];
      assert Frame(m) == hdr + m.payload;
      var r := WriteAll(hdr);
      if r != 0 {
        ghost var k :| 0 <= k < |hdr| && wire == old(wire) + hdr[..k];
        assert Frame(m)[..k] == hdr[..k];
        return -1;
      }
      ghost var mid := wire;
      if |m.payload| > 0 {
        r := WriteAll(m.payload);
        if r != 0 {
          ghost var k :| 0 <= k < |m.payload| && wire == mid + m.payload[..k];
          assert Frame(m)[..|hdr| + k] == hdr + m.payload[..k];
          return -1;
        }
      }
      ret := 0;
    }
  }

  // ---- the receiving end ----------------------------------------------

  /** One answer of read(): up to so many bytes (at least one, unless the stream
      has ended), EINTR, any other error. */
  datatype ReadOutcome = Upto(n: nat) | ReadSignal | ReadError

  class Reader {
    var stream: seq<byte>          // what the peer wrote and nobody has read yet
    var answers: seq<ReadOutcome>    // once these run out, read() delivers all it can

    constructor (stream: seq<byte>, answers: seq<ReadOutcome>)
      ensures this.stream == stream && this.answers == answers
    {
      this.stream, this.answers := stream, answers;
    }

    ghost predicate Clean()
      reads this
    {
      forall i :: 0 <= i < |answers| ==> answers[i] != ReadError
    }

    /** read() of at most `room` bytes; -1 stands for EINTR, -2 for an error. */
    method Read(buf: array<byte>, off: nat, room: nat) returns (n: int)
      requires 0 < room && off + room <= buf.Length
      modifies this, buf
      ensures n == -1 || n == -2 ==> stream == old(stream) && buf[..] == old(buf[..])
      ensures n >= 0 ==> n <= room && n <= |old(stream)| && stream == old(stream)[n..] && (n == 0 ==> old(stream) == [])
                         && buf[..] == old(buf[..off]) + old(stream)[..n] + old(buf[off + n..])
      ensures -2 <= n && (n == -2 ==> !old(Clean())) && (old(Clean()) ==> Clean())
      ensures |answers| < |old(answers)| || (answers == old(answers) && n >= 0)
    {
      var o := if answers == [] then Upto(room) else answers[0];
      answers := if answers == [] then [] else answers[1..];
      match o {
        case ReadSignal => return -1;
        case ReadError => return -2;
        case Upto(k) =>
          n := Min(Min(if k == 0 then 1 else k, room), |stream|);
          forall i | 0 <= i < n {
            buf[off + i] := stream[i];
          }
          stream := stream[n..];
      }
    }

    /** daemon_read_all(): exactly `len` bytes into the buffer, -1 on error, -2 if
        the stream ended first. */
    method ReadAll(buf: array<byte>, len: nat) returns (ret: int)
      requires len <= buf.Length
      modifies this, buf
      ensures ret == 0 || ret == -1 || ret == -2
      ensures ret == 0 ==> len <= |old(stream)| && buf[..len] == old(stream)[..len] && stream == old(stream)[len..]
      ensures ret == -2 ==> |old(stream)| < len && stream == []
      ensures old(Clean()) ==> ret != -1 && Clean()
      ensures buf[len..] == old(buf[len..])
    {
      var off := 0;
      while off < len
        invariant 0 <= off <= len && off <= |old(stream)| && stream == old(stream)[off..]
        invariant buf[..off] == old(stream)[..off] && buf[len..] == old(buf[len..])
        invariant old(Clean()) ==> Clean()
        decreases |answers|, len - off
      {
        ghost var before := buf[..];
        var n := Read(buf, off, len - off);
        if n == -2 {
          return -1;
        }
        if n == 0 {
          return -2;
        }
        if n > 0 {
          assert buf[..off + n] == before[..off] + old(stream)[off..][..n];
          assert buf[len..] == before[len..];
          off := off + n;
        }
      }
      ret := 0;
    }

    /** The drain loop of daemon_recv(): `length` bytes read into a scratch buffer
        and forgotten. */
    method Drain(length: nat)
      modifies this
      ensures old(Clean()) ==> Clean()
                               && stream == if length <= |old(stream)| then old(stream)[length..] else []
    {
      var scratch := new byte[256];
      var remaining := length;
      while remaining > 0
        invariant 0 <= remaining <= length && (old(Clean()) ==> Clean())
        invariant length - remaining <= |old(stream)| && stream == old(stream)[length - remaining..]
      {
        var chunk := Min(remaining, 256);
        var r := ReadAll(scratch, chunk);
        if r != 0 {
          return;
        }
        remaining := remaining - chunk;
      }
    }

    /** daemon_recv(): 0 and a message, -2 and the too long message drained, or -1. */
    method Recv(buf: array<byte>) returns (ret: int, typ: u16, len: u32)
      modifies this, buf
      ensures ret == 0 || ret == -1 || ret == -2
      ensures ret == 0 ==> len <= buf.Length
      ensures old(Clean()) ==>
                var o := RecvOne(old(stream), buf.Length);
                Clean() && stream == o.1
                && o.0 == if ret == 0 then Message(Msg(typ, buf[..len])) else if ret == -2 then TooLong else Ended
    {
      typ, len := 0, 0;
      var hdr := new byte[HEADER];
      var r := ReadAll(hdr, HEADER);
      if r != 0 {
        return -1, typ, len;
      }
      assert old(stream)[..HEADER][..4] == old(stream)[..4] && old(stream)[..HEADER][4..6] == old(stream)[4..6];
      var h := hdr[..HEADER];
      len, typ := HeaderLength(h), HeaderType(h);
      if len > buf.Length {
        Drain(len);
        return -2, typ, len;
      }
      if len > 0 {
        r := ReadAll(buf, len);
        if r != 0 {
          return -1, typ, len;
        }
      }
      assert old(stream)[HEADER..][..len] == old(stream)[HEADER..HEADER + len];
      ret := 0;
    }
  }

  method SendAll(ms: seq<WireMsg>, w: Writer)
    requires w.Smooth()
    modifies w
    ensures w.wire == old(w.wire) + Stream(ms)
  {
    for k := 0 to |ms|
      invariant w.Smooth() && w.wire == old(w.wire) + Stream(ms[..k])
    {
      var r := w.Send(ms[k]);
      StreamSnoc(ms[..k], ms[k]);
      assert ms[..k + 1] == ms[..k] + [ms[k]];
    }
    assert ms[..|ms|] == ms;
  }

  method RecvAll(r: Reader, cap: nat, k: nat) returns (got: seq<Received>)
    requires r.Clean()
    modifies r
    ensures got == RecvMany(old(r.stream), cap, k)
  {
    var buf := new byte[cap];
    got := [];
    while |got| < k
      invariant r.Clean() && |got| <= k
      invariant RecvMany(old(r.stream), cap, k) == got + RecvMany(r.stream, cap, k - |got|)
    {
      ghost var s := r.stream;
      var ret, typ, len := r.Recv(buf);
      var o := if ret == 0 then Message(Msg(typ, buf[..len])) else if ret == -2 then TooLong else Ended;
      RecvStep(got, s, cap, k - |got|);
      got := got + [o];
    }
  }

  lemma RecvStep(got: seq<Received>, s: seq<byte>, cap: nat, k: nat)
    requires 0 < k
    ensures got + RecvMany(s, cap, k) == (got + [RecvOne(s, cap).0]) + RecvMany(RecvOne(s, cap).1, cap, k - 1)
  {
  }

  /** A whole conversation: every message sent, under any short writes, short reads
      and interruptions the two sockets come up with, is received as itself; one
      that does not fit the receiver's buffer is skipped without disturbing the rest. */
  method Converse(ms: seq<WireMsg>, w: Writer, answers: seq<ReadOutcome>, cap: nat) returns (got: seq<Received>)
    requires w.wire == [] && w.Smooth()
    requires forall i :: 0 <= i < |answers| ==> answers[i] != ReadError
    modifies w
    ensures got == seq(|ms|, i requires 0 <= i < |ms| => Seen(ms[i], cap))
  {
    SendAll(ms, w);
    assert w.wire == Stream(ms) + [];
    ReadBack(ms, [], cap);
    var r := new Reader(w.wire, answers);
    got := RecvAll(r, cap, |ms|);
  }
}
