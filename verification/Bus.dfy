/** The bus server as a value: its connection table, its shared satellite state,
    and what one service pass does to them. */
module Bus {
  import opened Bytes
  import opened Framing
  import opened Names
  import opened Transmit
  import opened Receive
  import Record

  const MAX_CLIENTS := 32   // DAEMON_MAX_CLIENTS

  /** The satellite state as clients exchange it, and as it is stored. */
  type StateImage = Record.State

  const BAD_MESSAGE: u32 := 1
  const NOT_REGISTERED: u32 := 2
  const NAME_TAKEN: u32 := 3
  const UNKNOWN_DEST: u32 := 4

  /** One live connection; `serial` tells it from every other connection ever
      accepted, even one on the same slot and descriptor; `gentle` says whether its socket
      was going to take all that is sent, sooner or later. */
  datatype Link = Link(serial: nat, fd: int, gentle: bool, registered: bool, name: Name, rx: Rx, tx: Tx)

  /** One message dispatched, with the connection it came from and what that was
      registered as by then. */
  datatype Dispatch = Dispatch(serial: nat, registered: bool, name: Name, m: WireMsg)

  /** One message queued, with the connection it was queued for. */
  datatype Post = Post(to: nat, m: WireMsg)

  /** The server: one optional connection per table slot, and the satellite state.
      So far: `closed` are the connections closed, as they were in the end; `served` says
      which connections got their turns, in order; `dispatched` are the messages
      dispatched and `posts` those queued; `saves` is what sat_state_store() was called
      with. */
  datatype Server = Server(slots: seq<Option<Link>>, state: StateImage, next: nat,
                           closed: seq<Link>, served: seq<nat>, dispatched: seq<Dispatch>, posts: seq<Post>,
                           saves: seq<StateImage>)

  predicate Live(s: Server, i: int) {
    0 <= i < |s.slots| && s.slots[i].Some?
  }

  function At(s: Server, i: int): Link
    requires Live(s, i)
  {
    s.slots[i].value
  }

  predicate Registered(s: Server, i: int) {
    Live(s, i) && At(s, i).registered
  }

  function Put(s: Server, i: int, l: Link): (r: Server)
    requires Live(s, i)
  {
    s.(slots := s.slots[i := Some(l)])
  }

  /** The same connections on the same slots, with the same receive sides. */
  ghost predicate SameLinks(s: Server, r: Server) {
    |r.slots| == |s.slots| && r.next == s.next && r.closed == s.closed && r.served == s.served
    && r.dispatched == s.dispatched
    && forall j :: 0 <= j < |s.slots| ==>
      r.slots[j].Some? == s.slots[j].Some?
      && (s.slots[j].Some? ==> var a, b := s.slots[j].value, r.slots[j].value;
                               a.serial == b.serial && a.fd == b.fd && a.rx == b.rx)
  }

  // ---- dispatch -------------------------------------------------------

  /** queue_send() on the connection in slot `i`. */
  function Reply(s: Server, i: int, m: WireMsg): (r: Server)
    requires Live(s, i)
    ensures SameLinks(s, r)
  {
    Put(s, i, At(s, i).(tx := Queue(At(s, i).tx, m))).(posts := s.posts + [Post(At(s, i).serial, m)])
  }

  function Doom(s: Server, i: int): (r: Server)
    requires Live(s, i)
    ensures SameLinks(s, r)
  {
    var l := At(s, i);
    Put(s, i, l.(tx := l.tx.(closing := true)))
  }

  function ErrorMsg(code: u32): WireMsg {
    Msg(ERROR, Le32(code))
  }

  predicate Holds(s: Server, i: int, name: Name) {
    Registered(s, i) && At(s, i).name == name
  }

  /** find_client_by_name(): the first holder of the name at slot `from` or above,
      other than `exclude`; -1 if there is none. */
  function Find(s: Server, name: Name, exclude: int, from: nat): (i: int)
    requires from <= |s.slots|
    ensures i == -1 || (from <= i < |s.slots| && Holds(s, i, name) && i != exclude)
    ensures forall j :: from <= j < (if i == -1 then |s.slots| else i) && Holds(s, j, name) ==> j == exclude
    decreases |s.slots| - from
  {
    if from == |s.slots| then -1
    else if Holds(s, from, name) && from != exclude then from
    else Find(s, name, exclude, from + 1)
  }

  /** handle_message() before registration. */
  function HandleRegister(s: Server, i: int, m: WireMsg): (r: Server)
    requires Live(s, i)
    ensures SameLinks(s, r)
  {
    if m.typ != REGISTER then Doom(Reply(s, i, ErrorMsg(NOT_REGISTERED)), i)
    else if |m.payload| < NAME_SIZE then Doom(Reply(s, i, ErrorMsg(BAD_MESSAGE)), i)
    else
      var name := NameIn(m.payload);
      if name == [] then Doom(Reply(s, i, ErrorMsg(BAD_MESSAGE)), i)
      else if Find(s, name, i, 0) != -1 then Doom(Reply(s, i, ErrorMsg(NAME_TAKEN)), i)
      else Reply(Put(s, i, At(s, i).(name := name, registered := true)), i, Msg(REGISTER_OK, []))
  }

  /** The DMSG_SEND case of handle_message(). */
  function HandleSend(s: Server, i: int, payload: seq<byte>): (r: Server)
    requires Live(s, i) && |payload| < 0x1_0000_0000
    ensures SameLinks(s, r)
  {
    if |payload| < NAME_SIZE then Reply(s, i, ErrorMsg(BAD_MESSAGE))
    else
      var target := Find(s, NameIn(payload), -1, 0);
      if target == -1 then Reply(s, i, ErrorMsg(UNKNOWN_DEST))
      else Reply(s, target, Msg(DELIVER, Field(At(s, i).name) + payload[NAME_SIZE..]))
  }

  /** A new satellite state, also handed to the store. */
  function SetState(s: Server, image: StateImage): Server {
    s.(state := image, saves := s.saves + [image])
  }

  /** handle_message(). */
  function Handle(s: Server, i: int, m: WireMsg): (r: Server)
    requires Live(s, i)
    ensures SameLinks(s, r)
  {
    if !At(s, i).registered then HandleRegister(s, i, m)
    else if m.typ == STATE_GET then Reply(s, i, Msg(STATE_VALUE, s.state))
    else if m.typ == STATE_SET then
      if |m.payload| != Record.STATE_SIZE then Reply(s, i, ErrorMsg(BAD_MESSAGE))
      else Reply(SetState(s, m.payload), i, Msg(STATE_VALUE, m.payload))
    else if m.typ == SEND then HandleSend(s, i, m.payload)
    else if m.typ == PING then Reply(s, i, Msg(PONG, []))
    else Reply(s, i, ErrorMsg(BAD_MESSAGE))
  }

  // ---- one service pass -----------------------------------------------

  /** The parse loop of ipc_server_service() on slot `i`. */
  function Drain(s: Server, i: int): (r: Server)
    requires Live(s, i)
    ensures Live(r, i)
    decreases if Live(s, i) then |At(s, i).rx.rest| else 0
  {
    var l := At(s, i);
    if l.tx.closing then s
    else if Oversized(l.rx.rest) then Doom(s, i)
    else if !HasMessage(l.rx.rest) then s
    else Drain(HandleFirst(s, i), i)
  }

  function DispatchFor(l: Link, m: WireMsg): Dispatch {
    Dispatch(l.serial, l.registered, l.name, m)
  }

  /** The message is entered among those dispatched. */
  function Note(s: Server, i: int, m: WireMsg): Server
    requires Live(s, i)
  {
    s.(dispatched := s.dispatched + [DispatchFor(At(s, i), m)])
  }

  /** One turn of that loop: dispatch the first message, then drop it from the buffer. */
  function HandleFirst(s: Server, i: int): (r: Server)
    requires Live(s, i) && HasMessage(At(s, i).rx.rest)
    ensures Live(r, i) && |At(r, i).rx.rest| < |At(s, i).rx.rest|
  {
    var r := Handle(Note(s, i, First(At(s, i).rx.rest)), i, First(At(s, i).rx.rest));
    Put(r, i, At(r, i).(rx := Pop(At(r, i).rx)))
  }

  /** What poll() reported for one descriptor. */
  datatype Revents = Revents(hangup: bool, readable: bool)

  /** The recv() loop on slot `i`. */
  function ReadSlot(s: Server, i: int): (r: Server)
    requires Live(s, i)
    ensures Live(r, i)
  {
    var l := At(s, i);
    var o := ReceiveAll(l.rx);
    Put(s, i, l.(rx := o.rx, tx := l.tx.(closing := l.tx.closing || o.dead)))
  }

  /** close_client(). */
  function CloseLink(s: Server, i: int, l: Link): Server
    requires Live(s, i)
  {
    s.(slots := s.slots[i := None], closed := s.closed + [l])
  }

  /** The transmit step and the close at the end of a connection's turn. */
  function FinishSlot(s: Server, i: int): (r: Server)
    requires Live(s, i)
  {
    var l := At(s, i);
    var tx := if l.tx.closing then l.tx else Flush(l.tx);
    if tx.closing then CloseLink(s, i, l.(tx := tx)) else Put(s, i, l.(tx := tx))
  }

  /** The connection's turn begins. */
  function Begin(s: Server, i: int): Server
    requires Live(s, i)
  {
    s.(served := s.served + [At(s, i).serial])
  }

  /** One connection's turn in ipc_server_service(). */
  function ServiceSlot(s: Server, i: int, rev: Revents): (r: Server)
    requires Live(s, i)
  {
    var s := Begin(s, i);
    var s := if rev.hangup then Doom(s, i) else s;
    var s := if !At(s, i).tx.closing && rev.readable then Drain(ReadSlot(s, i), i) else s;
    FinishSlot(s, i)
  }

  /** One poll entry: the table slot and descriptor it was collected for, and
      what poll() reported. */
  datatype Entry = Entry(slot: int, fd: int, rev: Revents)

  const NOTHING := Revents(false, false)

  /** ipc_server_collect_pollfds(): one entry per live connection, in slot order. */
  function Collect(s: Server, from: nat): seq<Entry>
    requires from <= |s.slots|
    decreases |s.slots| - from
  {
    if from == |s.slots| then []
    else (if Live(s, from) then [Entry(from, At(s, from).fd, NOTHING)] else []) + Collect(s, from + 1)
  }

  /** The guard at the top of a connection's turn. */
  predicate Current(s: Server, e: Entry) {
    Live(s, e.slot) && At(s, e.slot).fd == e.fd
  }

  /** The client loop of ipc_server_service(). */
  function ServiceAll(s: Server, es: seq<Entry>): (r: Server)
    decreases |es|
  {
    if es == [] then s
    else ServiceAll(if Current(s, es[0]) then ServiceSlot(s, es[0].slot, es[0].rev) else s, es[1..])
  }

  /** One answer of accept4(): a connection with the answers its socket is going
      to give, or EINTR; it would block once they run out. */
  datatype Arrival = Accepted(fd: int, sends: seq<SendOutcome>, allocs: seq<bool>, recvs: seq<RecvOutcome>)
                   | AcceptSignal

  function FreeSlot(s: Server, from: nat): (i: int)
    requires from <= |s.slots|
    ensures i == -1 || (from <= i < |s.slots| && s.slots[i].None?)
    ensures forall j :: from <= j < (if i == -1 then |s.slots| else i) ==> s.slots[j].Some?
    decreases |s.slots| - from
  {
    if from == |s.slots| then -1 else if s.slots[from].None? then from else FreeSlot(s, from + 1)
  }

  function NewLink(serial: nat, a: Arrival): Link
    requires a.Accepted?
  {
    Link(serial, a.fd, Gentle(a.sends, a.allocs), false, [], Rx([], a.recvs, [], [], Incoming(a.recvs)), Fresh(a.sends, a.allocs))
  }

  /** A connection into the first free slot; turned away if the table is full. */
  function Admit(s: Server, a: Arrival): (r: Server)
    ensures |r.slots| == |s.slots|
  {
    var i := FreeSlot(s, 0);
    if a.AcceptSignal? || i == -1 then s
    else s.(slots := s.slots[i := Some(NewLink(s.next, a))], next := s.next + 1)
  }

  /** accept_new_connections(). */
  function AdmitAll(s: Server, arrivals: seq<Arrival>): (r: Server)
    ensures |r.slots| == |s.slots|
    decreases |arrivals|
  {
    if arrivals == [] then s else AdmitAll(Admit(s, arrivals[0]), arrivals[1..])
  }

  /** ipc_server_service(). */
  function Service(s: Server, accepting: bool, arrivals: seq<Arrival>, es: seq<Entry>): Server {
    ServiceAll(if accepting then AdmitAll(s, arrivals) else s, es)
  }

  /** What one turn of the daemon's event loop meets: whether the listener is
      ready, who connects, and what poll() reports for each entry. */
  datatype Turn = Turn(accepting: bool, arrivals: seq<Arrival>, revs: nat -> Revents)

  /** poll() fills in the entries. */
  function Polled(es: seq<Entry>, revs: nat -> Revents): seq<Entry> {
    seq(|es|, k requires 0 <= k < |es| => es[k].(rev := revs(k)))
  }

  /** Collect, poll, service. */
  function Pass(s: Server, t: Turn): Server {
    Service(s, t.accepting, t.arrivals, Polled(Collect(s, 0), t.revs))
  }

  function Passes(s: Server, ts: seq<Turn>): Server
    decreases |ts|
  {
    if ts == [] then s else Passes(Pass(s, ts[0]), ts[1..])
  }

  /** The server as ipc_server_create() leaves it. */
  function Empty(state: StateImage): Server {
    Server(seq(MAX_CLIENTS, _ => None), state, 0, [], [], [], [], [])
  }
}
