/** The way of a message from a payload process, over the bus and the network bridge,
    into a link body, and back out of one. */
module Bridge {
  import opened Bytes
  import opened Framing
  import opened Names
  import opened Bus
  import opened BusProofs
  import opened Client

  const NET_IPC_HEADER := 4
  const NET_IPC_MAX_DATA := 512
  const BODY_HEADER := 4      // LINK_BODY_HDR_SIZE
  const BODY_MIN := 7         // PL_MIN_BODY_LEN
  const BODY_MAX := 518       // PL_MAX_BODY_LEN
  const BODY_MAX_DATA := BODY_MAX - BODY_HEADER

  /** A message on the link: an application process id and its data. */
  datatype Traffic = Traffic(apid: u16, data: seq<byte>)

  // ---- between payload process and bridge ------------------------------

  /** net_ipc_hdr_t and the data, as send_to_network() and forward_to_app() build it. */
  function NetFrame(t: Traffic): (f: seq<byte>)
    requires |t.data| <= NET_IPC_MAX_DATA
    ensures |f| == NET_IPC_HEADER + |t.data|
  {
    Le16(t.apid) + Le16(|t.data|) + t.data
  }

  /** How handle_app_delivery() and handle_deliver() read it; None for a short or
      truncated frame. */
  function ReadNetFrame(buf: seq<byte>): Option<Traffic> {
    if |buf| < NET_IPC_HEADER then None
    else
      var n := FromLe16(buf[2..4]);
      if NET_IPC_HEADER + n > |buf| then None
      else Some(Traffic(FromLe16(buf[..2]), buf[NET_IPC_HEADER..NET_IPC_HEADER + n]))
  }

  lemma NetFrameRoundTrip(t: Traffic)
    requires |t.data| <= NET_IPC_MAX_DATA
    ensures ReadNetFrame(NetFrame(t)) == Some(t)
  {
    Slices(Le16(t.apid), Le16(|t.data|), t.data, []);
    assert NetFrame(t) == Le16(t.apid) + Le16(|t.data|) + t.data + [];
  }

  /** The frame, byte for byte, in host order; and a frame is read exactly if it has the
      data it announces. */
  lemma NetFrameLayout(t: Traffic, buf: seq<byte>)
    requires |t.data| <= 512
    ensures var f := NetFrame(t);
            f[4..] == t.data && Weight(0, 0, f[1], f[0]) == t.apid && Weight(0, 0, f[3], f[2]) == |t.data|
    ensures ReadNetFrame(buf).Some? <==> 4 <= |buf| && 4 + Weight(0, 0, buf[3], buf[2]) <= |buf|
  {
    var f, id, len := NetFrame(t), Le16(t.apid), Le16(|t.data|);
    assert f[..4] == id + len;
    assert f[0] == id[0] && f[1] == id[1] && f[2] == len[0] && f[3] == len[1];
  }

  // ---- on the link -----------------------------------------------------

  /** The body link_send() and build_body() pack: zero-padded to the link's minimum. */
  function LinkBody(t: Traffic): (b: seq<byte>)
    requires |t.data| < 0x1_0000
    ensures BODY_MIN <= |b| && BODY_HEADER + |t.data| <= |b|
  {
    var b := Be16(t.apid) + Be16(|t.data|) + t.data;
    if |b| < BODY_MIN then b + Zeros(BODY_MIN - |b|) else b
  }

  /** The body parse of the bridge's event loop; None for a runt or a length that lies. */
  function ReadBody(body: seq<byte>): Option<Traffic> {
    if |body| < BODY_HEADER then None
    else
      var n := FromBe16(body[2..4]);
      if BODY_HEADER + n > |body| then None
      else Some(Traffic(FromBe16(body[..2]), body[BODY_HEADER..BODY_HEADER + n]))
  }

  /** The padding is never taken for data. */
  lemma BodyRoundTrip(t: Traffic)
    requires |t.data| < 0x1_0000
    ensures ReadBody(LinkBody(t)) == Some(t)
  {
    BodyParts(t);
  }

  lemma BodyParts(t: Traffic)
    requires |t.data| < 0x1_0000
    ensures var b := LinkBody(t); b[..2] == Be16(t.apid) && b[2..4] == Be16(|t.data|) && b[4..4 + |t.data|] == t.data
  {
    var id, len, n := Be16(t.apid), Be16(|t.data|), 4 + |t.data|;
    var pad := if n < BODY_MIN then Zeros(BODY_MIN - n) else [];
    Slices(id, len, t.data, pad);
    assert LinkBody(t) == id + len + t.data + pad;
  }

  /** The body, byte for byte, in network order, padded to 7 bytes; and a body is read exactly
      if it has the data it announces. */
  lemma BodyLayout(t: Traffic, body: seq<byte>)
    requires |t.data| < 0x1_0000
    ensures var b := LinkBody(t);
            |b| == (if |t.data| < 3 then 7 else 4 + |t.data|) && b[4..4 + |t.data|] == t.data
            && Weight(0, 0, b[0], b[1]) == t.apid && Weight(0, 0, b[2], b[3]) == |t.data|
    ensures ReadBody(body).Some? <==> 4 <= |body| && 4 + Weight(0, 0, body[2], body[3]) <= |body|
  {
    BodyParts(t);
    var b := LinkBody(t);
    assert b[0] == b[..2][0] && b[1] == b[..2][1] && b[2] == b[2..4][0] && b[3] == b[2..4][1];
  }

  /** link_send() up to the frame: the body packed into its buffer piece by piece. */
  method PackBody(apid: u16, payload: seq<byte>) returns (ret: int, body: array<byte>, len: nat)
    requires |payload| < 0x1_0000
    ensures fresh(body) && len <= body.Length && (ret == 0 || ret == -1)
    ensures ret == 0 <==> |payload| <= BODY_MAX_DATA
    ensures ret == 0 ==> body[..len] == LinkBody(Traffic(apid, payload)) && BODY_MIN <= len <= BODY_MAX
  {
    body, len := new byte[BODY_MAX], 0;
    if |payload| > BODY_MAX_DATA {
      return -1, body, len;
    }
    len := PackAt(body, 0, Be16(apid));
    len := PackAt(body, len, Be16(|payload|));
    len := PackAt(body, len, payload);
    if len < BODY_MIN {
      len := PackAt(body, len, Zeros(BODY_MIN - len));
    }
    ret := 0;
  }

  /** One packing helper: the bytes at the offset, the offset moved on. */
  method PackAt(buf: array<byte>, off: nat, bytes: seq<byte>) returns (next: nat)
    requires off + |bytes| <= buf.Length
    modifies buf
    ensures next == off + |bytes| && buf[..next] == old(buf[..off]) + bytes
  {
    forall i | 0 <= i < |bytes| {
      buf[off + i] := bytes[i];
    }
    next := off + |bytes|;
  }

  // ---- the bridge ------------------------------------------------------

  /** handle_app_delivery(): what is handed to link_send(), given which ids may go to
      the bus. */
  function ToLink(buf: seq<byte>, allowed: u16 -> bool): Option<Traffic> {
    match ReadNetFrame(buf)
    case None => None
    case Some(t) => if allowed(t.apid) then Some(t) else None
  }

  /** From the payload process' call to the link body and out of it again: with the
      bridge registered under its name, the message is relayed to it and to nobody
      else, is recognised as coming from the sender, and goes out exactly if its id may,
      unchanged. */
  lemma PayloadReachesLink(s: Server, i: int, bridge: int, name: Name, t: Traffic, allowed: u16 -> bool)
    requires Ok(s) && Registered(s, i) && Holds(s, bridge, name) && |t.data| <= NET_IPC_MAX_DATA
    ensures Truncated(name) == name
    ensures var sent := SendMsg(name, NetFrame(t));
            var r := Handle(s, i, sent);
            var delivered := Msg(DELIVER, Field(At(s, i).name) + NetFrame(t));
            Parse(Frame(sent)) == Parsed([sent], [], false)
            && OnlyDiffersAt(s, r, bridge)
            && At(r, bridge).tx.outbox == At(s, bridge).tx.outbox + [delivered]
            && Interpret(delivered, MAX_PAYLOAD) == Delivery(Field(At(s, i).name), NetFrame(t))
            && NameIn(Field(At(s, i).name)) == At(s, i).name
            && ToLink(NetFrame(t), allowed) == (if allowed(t.apid) then Some(t) else None)
            && ReadBody(LinkBody(t)) == Some(t)
  {
    CStringStops(name, []);
    assert name + [] == name;
    ServerTakes(name, NetFrame(t));
    NameRoundTrip(name, NetFrame(t));
    var payload := Field(name) + NetFrame(t);
    assert payload[NAME_SIZE..] == NetFrame(t);
    SendRoutes(s, i, payload);
    NameRoundTrip(At(s, i).name, NetFrame(t));
    var d := Field(At(s, i).name) + NetFrame(t);
    assert d[..NAME_SIZE] == Field(At(s, i).name) && d[NAME_SIZE..] == NetFrame(t);
    NameRoundTrip(At(s, i).name, []);
    assert Field(At(s, i).name) + [] == Field(At(s, i).name);
    NetFrameRoundTrip(t);
    BodyRoundTrip(t);
  }
}
