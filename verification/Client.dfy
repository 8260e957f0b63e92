/** The client library: relaying messages to a named peer and receiving deliveries. */
module Client {
  import opened Bytes
  import opened Framing
  import opened Names
  import opened Ipc

  /** A destination as strncpy() truncates it into its field. */
  function Truncated(dest: seq<byte>): Name {
    var s := CString(dest);
    if |s| < NAME_SIZE then s else s[..NAME_SIZE - 1]
  }

  /** At most 31 bytes of it, and all if there are no more. */
  lemma TruncatedExact(dest: seq<byte>)
    ensures var s, t := CString(dest), Truncated(dest); t <= s && |t| == Min(31, |s|)
  {
  }

  /** The message daemon_client_send() builds. */
  function SendMsg(dest: seq<byte>, data: seq<byte>): WireMsg
    requires |data| <= MAX_PAYLOAD
  {
    Msg(SEND, Field(Truncated(dest)) + data)
  }

  /** The library takes up to 4096 bytes, but the server takes the message exactly if
      they are at most 4064: beyond that the connection is lost over it. */
  lemma ServerTakes(dest: seq<byte>, data: seq<byte>)
    requires |data| <= MAX_PAYLOAD
    ensures var p := Parse(Frame(SendMsg(dest, data)));
            if |data| <= MAX_PAYLOAD - NAME_SIZE then p == Parsed([SendMsg(dest, data)], [], false)
            else p.msgs == [] && p.oversized
  {
    var m := SendMsg(dest, data);
    assert Frame(m) + [] == Frame(m);
    if |data| <= MAX_PAYLOAD - NAME_SIZE {
      FrameFirst(m, []);
      assert Parse([]) == Parsed([], [], false);
      PrependNothing(Parse([]));
    } else {
      FrameHeader(m, []);
    }
  }

  /** daemon_client_send(). */
  method ClientSend(w: Writer, dest: seq<byte>, data: seq<byte>) returns (ret: int)
    modifies w
    ensures |data| > MAX_PAYLOAD ==> ret == -1 && w.wire == old(w.wire)
    ensures |data| <= MAX_PAYLOAD && ret == 0 ==> w.wire == old(w.wire) + Frame(SendMsg(dest, data))
    ensures |data| <= MAX_PAYLOAD && old(w.Smooth()) ==> ret == 0
  {
    if |data| > MAX_PAYLOAD {
      return -1;
    }
    ret := w.Send(SendMsg(dest, data));
  }

  /** What daemon_client_recv() makes of a message: for a delivery the sender's name
      field as it came and the bytes, for anything else its payload as it is. */
  datatype Incoming = Delivery(src: seq<byte>, data: seq<byte>) | Other(typ: u16, payload: seq<byte>)
                    | Malformed | NoRoom

  function Interpret(m: WireMsg, room: nat): Incoming {
    if m.typ == DELIVER then
      if |m.payload| < NAME_SIZE then Malformed
      else if |m.payload| - NAME_SIZE > room then NoRoom
      else Delivery(m.payload[..NAME_SIZE], m.payload[NAME_SIZE..])
    else if |m.payload| > room then NoRoom
    else Other(m.typ, m.payload)
  }

  /** For every message: a delivery is one if it has a sender field, and it or anything else
      is taken exactly if its bytes fit. */
  lemma InterpretExact(name: Name, data: seq<byte>, m: WireMsg, room: nat)
    requires |data| <= MAX_PAYLOAD
    ensures Interpret(Msg(DELIVER, Field(name) + data), room) == if |data| <= room then Delivery(Field(name), data) else NoRoom
    ensures m.typ != DELIVER ==> Interpret(m, room) == if |m.payload| <= room then Other(m.typ, m.payload) else NoRoom
    ensures m.typ == DELIVER ==> (Interpret(m, room) == Malformed <==> |m.payload| < 32)
  {
    var p := Field(name) + data;
    assert p[..NAME_SIZE] == Field(name) && p[NAME_SIZE..] == data;
  }

  /** daemon_client_recv(), reading through a buffer for the largest delivery. */
  method ClientRecv(r: Reader, buf: array<byte>) returns (ret: int, src: seq<byte>, typ: u16, len: nat)
    modifies r, buf
    ensures ret == 0 ==> len <= buf.Length
    ensures old(r.Clean()) ==>
              var o := RecvOne(old(r.stream), NAME_SIZE + MAX_PAYLOAD);
              r.Clean() && r.stream == o.1
              && (!o.0.Message? ==> ret == -1)
              && (o.0.Message? ==>
                    var i := Interpret(o.0.m, buf.Length);
                    ret == (if i.Malformed? then -1 else if i.NoRoom? then -2 else 0)
                    && (ret == 0 ==> i == if typ == DELIVER then Delivery(src, buf[..len]) else Other(typ, buf[..len]))
                    && (typ != DELIVER ==> src == Zeros(NAME_SIZE)))
  {
    var frame := new byte[NAME_SIZE + MAX_PAYLOAD];
    var got;
    src, len := [], 0;
    var n;
    got, typ, n := r.Recv(frame);
    if got != 0 {
      return -1, src, typ, len;
    }
    var payload := frame[..n];
    if typ == DELIVER {
      if n < NAME_SIZE {
        return -1, src, typ, len;
      }
      src := payload[..NAME_SIZE];
      if n - NAME_SIZE > buf.Length {
        return -2, src, typ, len;
      }
      len := n - NAME_SIZE;
      CopyOut(buf, payload[NAME_SIZE..]);
    } else {
      src := Zeros(NAME_SIZE);
      if n > buf.Length {
        return -2, src, typ, len;
      }
      len := n;
      CopyOut(buf, payload);
    }
    ret := 0;
  }

  method CopyOut(buf: array<byte>, data: seq<byte>)
    requires |data| <= buf.Length
    modifies buf
    ensures buf[..|data|] == data
  {
    forall i | 0 <= i < |data| {
      buf[i] := data[i];
    }
  }
}
