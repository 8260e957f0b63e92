/** A gap in what a client receives, as the bus server makes it. */
module BusGap {
  import opened Bytes
  import opened Framing
  import opened Names
  import opened Transmit
  import opened Receive
  import opened ReceiveExact
  import opened Bus
  import opened BusProofs

  const LONGEST := MAX_PAYLOAD - NAME_SIZE   // what a request can carry

  function Registration(name: Name): WireMsg {
    Msg(REGISTER, Field(name))
  }

  /** A request to relay `data`, and what is made of it. */
  function Request(to: Name, data: seq<byte>): WireMsg
    requires |data| <= LONGEST
  {
    Msg(SEND, Field(to) + data)
  }

  function Relayed(from: Name, data: seq<byte>): WireMsg
    requires |data| <= LONGEST
  {
    Msg(DELIVER, Field(from) + data)
  }

  // ---- in any state of the server -------------------------------------

  lemma RequestIs(s: Server, i: int, t: int, to: Name, data: seq<byte>)
    requires Ok(s) && Registered(s, i) && Holds(s, t, to) && |data| <= LONGEST
    ensures Handle(s, i, Request(to, data)) == Reply(s, t, Relayed(At(s, i).name, data))
  {
    var payload := Field(to) + data;
    NameRoundTrip(to, data);
    assert payload[NAME_SIZE..] == data;
    var f := Find(s, to, -1, 0);
    assert f != -1;
    SharedNameMeansSame(s, f, t);
  }

  /** The transmit side is about to lose one message to a signal and to take the next. */
  predicate AboutToLose(t: Tx, n: nat) {
    !t.closing && t.pending == [] && |t.sends| >= 2 && t.sends[0] == Interrupted
    && t.sends[1].Sent? && n <= t.sends[1].n
  }

  /** Whatever state the server is in: if a client's next direct send is interrupted and
      the one after it is not, two requests of equal length in one turn of another client
      leave a gap in what that client receives. */
  lemma TwoRequestsGap(s: Server, i: int, t: int, to: Name, a: seq<byte>, b: seq<byte>)
    requires Ok(s) && Registered(s, i) && Holds(s, t, to) && i != t && |a| == |b| <= LONGEST && a != b
    requires AboutToLose(At(s, t).tx, HEADER + NAME_SIZE + |b|)
    ensures var r := Handle(Handle(s, i, Request(to, a)), i, Request(to, b));
            !NoGap(At(r, t).tx)
  {
    var s1 := Handle(s, i, Request(to, a));
    RequestIs(s, i, t, to, a);
    HandleLeaves(s, i, Request(to, a));
    RequestIs(s1, i, t, to, b);
    QueuedTwiceGaps(s, t, Relayed(At(s, i).name, a), Relayed(At(s, i).name, b));
    RelayedDiffer(At(s, i).name, a, b);
  }

  lemma RelayedDiffer(from: Name, a: seq<byte>, b: seq<byte>)
    requires |a| == |b| <= LONGEST && a != b
    ensures Relayed(from, a) != Relayed(from, b)
  {
    assert Relayed(from, a).payload[NAME_SIZE..] == a && Relayed(from, b).payload[NAME_SIZE..] == b;
  }

  lemma QueuedTwiceGaps(s: Server, t: int, x: WireMsg, y: WireMsg)
    requires Ok(s) && Live(s, t) && AboutToLose(At(s, t).tx, |Frame(y)|)
    ensures |x.payload| == |y.payload| && x != y ==> !NoGap(Queue(Queue(At(s, t).tx, x), y))
  {
    var tx := At(s, t).tx;
    assert SlotOk(s.slots[t], s.next);
    assert tx.wire + [] == tx.wire;
    LostThenSent(tx, x, y);
    if |x.payload| == |y.payload| && x != y {
      LostThenSentGaps(tx, x, y);
    }
  }

  // ---- one message out of the buffer ----------------------------------

  lemma FirstIs(s: Server, i: int, m: WireMsg, tail: seq<byte>)
    requires Live(s, i) && |m.payload| <= MAX_PAYLOAD && At(s, i).rx.rest == Frame(m) + tail
    ensures HasMessage(At(s, i).rx.rest) && First(At(s, i).rx.rest) == m && AfterFirst(At(s, i).rx.rest) == tail
    ensures !At(s, i).tx.closing ==> Drain(s, i) == Drain(HandleFirst(s, i), i)
    ensures var h, r := Handle(Note(s, i, m), i, m), HandleFirst(s, i);
            r == Put(h, i, At(h, i).(rx := Pop(At(h, i).rx))) && At(r, i).rx.rest == tail
  {
    FrameFirst(m, tail);
  }

  /** The records do not matter for the invariant. */
  lemma RecordsOk(s: Server, r: Server)
    requires Ok(s) && r.slots == s.slots && r.next == s.next
    ensures Ok(r)
  {
  }

  lemma RegistrationIs(s: Server, i: int, name: Name)
    requires Live(s, i) && !At(s, i).registered && name != [] && forall j :: !Holds(s, j, name)
    ensures Handle(s, i, Registration(name))
            == Reply(Put(s, i, At(s, i).(name := name, registered := true)), i, Msg(REGISTER_OK, []))
  {
    NameRoundTrip(name, []);
    assert Field(name) + [] == Field(name);
    assert Find(s, name, i, 0) == -1;
  }

  lemma OkGoesOut(t: Tx)
    requires t.pending == [] && t.sends != [] && t.sends[0] == Sent(8)
    ensures var u := Queue(t, Msg(REGISTER_OK, []));
            u.closing == t.closing && u.pending == [] && u.sends == t.sends[1..]
  {
    var f := Frame(Msg(REGISTER_OK, []));
    assert f[..8] == f;
  }

  /** A registered healthy client with nothing waiting to be sent to it. */
  predicate Idle(l: Link, name: Name, sends: seq<SendOutcome>) {
    l.registered && l.name == name && !l.tx.closing && l.tx.pending == [] && l.tx.sends == sends
  }

  /** The table after a registration was dispatched. */
  lemma RegistrationTable(s: Server, i: int, name: Name, tail: seq<byte>)
    requires Live(s, i) && At(s, i).rx.rest == Frame(Registration(name)) + tail
    requires !At(s, i).registered && name != [] && forall j :: !Holds(s, j, name)
    ensures HasMessage(At(s, i).rx.rest)
    ensures var l := At(s, i);
            HandleFirst(s, i).slots == s.slots[i := Some(l.(name := name, registered := true, rx := Pop(l.rx),
                                                            tx := Queue(l.tx, Msg(REGISTER_OK, []))))]
    ensures Pop(At(s, i).rx).rest == tail
  {
    var m := Registration(name);
    FirstIs(s, i, m, tail);
    var n := Note(s, i, m);
    forall j
      ensures !Holds(n, j, name)
    {
      assert Holds(n, j, name) ==> Holds(s, j, name);
    }
    RegistrationIs(n, i, name);
  }

  lemma FirstIsRegistration(s: Server, i: int, name: Name, sends: seq<SendOutcome>, tail: seq<byte>)
    requires Ok(s) && Buffered(s, i, [Sent(8)] + sends, Frame(Registration(name)) + tail)
    requires name != [] && forall j :: !Holds(s, j, name)
    ensures HasMessage(At(s, i).rx.rest)
    ensures var r := HandleFirst(s, i);
            Ok(r) && Drain(s, i) == Drain(r, i) && Elsewhere(s, r, i)
            && Idle(At(r, i), name, sends) && At(r, i).rx.rest == tail
  {
    FirstIs(s, i, Registration(name), tail);
    HandleFirstLeaves(s, i);
    RegistrationTable(s, i, name, tail);
    OkGoesOut(At(s, i).tx);
    assert ([Sent(8)] + sends)[1..] == sends;
  }

  /** The table after a request was dispatched. */
  lemma RequestTable(s: Server, i: int, t: int, to: Name, data: seq<byte>, tail: seq<byte>)
    requires Ok(s) && Registered(s, i) && Holds(s, t, to) && i != t && |data| <= LONGEST
    requires At(s, i).rx.rest == Frame(Request(to, data)) + tail
    ensures HasMessage(At(s, i).rx.rest) && Pop(At(s, i).rx).rest == tail
    ensures var l, o := At(s, i), At(s, t);
            HandleFirst(s, i).slots
            == s.slots[t := Some(o.(tx := Queue(o.tx, Relayed(l.name, data))))][i := Some(l.(rx := Pop(l.rx)))]
  {
    var m := Request(to, data);
    FirstIs(s, i, m, tail);
    var n := Note(s, i, m);
    RecordsOk(s, n);
    RequestIs(n, i, t, to, data);
  }

  lemma FirstIsRequest(s: Server, i: int, t: int, to: Name, data: seq<byte>, tail: seq<byte>)
    requires Ok(s) && Registered(s, i) && Holds(s, t, to) && i != t && |data| <= LONGEST && !At(s, i).tx.closing
    requires At(s, i).rx.rest == Frame(Request(to, data)) + tail
    ensures HasMessage(At(s, i).rx.rest)
    ensures var r := HandleFirst(s, i);
            Ok(r) && Drain(s, i) == Drain(r, i)
            && Holds(r, t, to) && At(r, t).tx == Queue(At(s, t).tx, Relayed(At(s, i).name, data))
            && Registered(r, i) && At(r, i).name == At(s, i).name && At(r, i).tx == At(s, i).tx
            && At(r, i).rx.rest == tail
  {
    FirstIs(s, i, Request(to, data), tail);
    HandleFirstLeaves(s, i);
    RequestTable(s, i, t, to, data, tail);
  }

  // ---- the two turns --------------------------------------------------

  const READABLE := Revents(false, true)

  lemma ReadsAll(s: Server, i: int, d: seq<byte>)
    requires Ok(s) && Live(s, i) && At(s, i).rx.rest == [] && At(s, i).rx.recvs == [Got(d)] && 0 < |d| < RX_SIZE
    ensures var r := ReadSlot(s, i);
            Ok(r) && |r.slots| == |s.slots| && At(r, i) == At(s, i).(rx := At(r, i).rx) && At(r, i).rx.rest == d
            && forall j :: 0 <= j < |s.slots| && j != i ==> r.slots[j] == s.slots[j]
  {
    ReadLeaves(s, i);
    ReadsOne(At(s, i).rx, d);
  }

  lemma ReadsOne(rx: Rx, d: seq<byte>)
    requires rx.rest == [] && rx.recvs == [Got(d)] && 0 < |d| < RX_SIZE
    ensures ReceiveAll(rx).rx.rest == d && !ReceiveAll(rx).dead
  {
    ReceivesUp(rx);
    assert rx.recvs[1..] == [] && Available(rx.recvs) == d + [] == d && d[..|d|] == d;
  }

  /** Nothing to flush and no reason to close: the turn ends as it is. */
  lemma EndsQuietly(s: Server, i: int)
    requires Live(s, i) && !At(s, i).tx.closing && At(s, i).tx.pending == []
    ensures FinishSlot(s, i).slots == s.slots
  {
    var l := At(s, i);
    assert l.(tx := Flush(l.tx)) == l;
  }

  /** A new connection, as accept4() delivered it. */
  predicate IsNew(l: Link, sends: seq<SendOutcome>, input: seq<byte>) {
    !l.registered && !l.tx.closing && l.tx.pending == [] && l.tx.sends == sends
    && l.rx.rest == [] && l.rx.recvs == [Got(input)]
  }

  lemma TurnIs(s: Server, i: int)
    requires Live(s, i) && !At(s, i).tx.closing
    ensures ServiceSlot(s, i, READABLE) == FinishSlot(Drain(ReadSlot(Begin(s, i), i), i), i)
  {
  }

  /** A turn begins, with all the input in the buffer. */
  lemma TurnReads(s: Server, i: int, sends: seq<SendOutcome>, input: seq<byte>)
    requires Ok(s) && Live(s, i) && IsNew(At(s, i), sends, input) && 0 < |input| < RX_SIZE
    ensures var r := ReadSlot(Begin(s, i), i);
            Ok(r) && Buffered(r, i, sends, input) && Elsewhere(s, r, i)
  {
    RecordsOk(s, Begin(s, i));
    ReadsAll(Begin(s, i), i, input);
  }

  /** An unregistered healthy connection with its input in the buffer. */
  predicate Buffered(s: Server, i: int, sends: seq<SendOutcome>, input: seq<byte>) {
    Live(s, i)
    && var l := At(s, i);
       !l.registered && !l.tx.closing && l.tx.pending == [] && l.tx.sends == sends && l.rx.rest == input
  }

  /** Only slot `i` has changed. */
  ghost predicate Elsewhere(s: Server, r: Server, i: int) {
    |r.slots| == |s.slots| && forall j :: 0 <= j < |s.slots| && j != i ==> r.slots[j] == s.slots[j]
  }

  lemma DrainsRegistration(s: Server, i: int, name: Name, sends: seq<SendOutcome>)
    requires Ok(s) && Buffered(s, i, [Sent(8)] + sends, Frame(Registration(name)))
    requires name != [] && forall j :: !Holds(s, j, name)
    ensures var r := Drain(s, i); Live(r, i) && Idle(At(r, i), name, sends) && Elsewhere(s, r, i)
  {
    var d := Frame(Registration(name));
    assert d + [] == d;
    FirstIsRegistration(s, i, name, sends, []);
    var r := HandleFirst(s, i);
    assert Drain(r, i) == r;
  }

  lemma FirstClientRegisters(s: Server, name: Name, sends: seq<SendOutcome>)
    requires Ok(s) && Live(s, 0) && IsNew(At(s, 0), [Sent(8)] + sends, Frame(Registration(name)))
    requires name != [] && forall j :: !Registered(s, j)
    ensures var r := ServiceSlot(s, 0, READABLE);
            Live(r, 0) && Idle(At(r, 0), name, sends) && Elsewhere(s, r, 0)
  {
    TurnIs(s, 0);
    TurnReads(s, 0, [Sent(8)] + sends, Frame(Registration(name)));
    var s1 := ReadSlot(Begin(s, 0), 0);
    forall j
      ensures !Holds(s1, j, name)
    {
      assert j != 0 && Holds(s1, j, name) ==> Registered(s, j);
    }
    DrainsRegistration(s1, 0, name, sends);
    EndsQuietly(Drain(s1, 0), 0);
  }

  lemma DrainsLast(s: Server, to: Name, data: seq<byte>)
    requires Ok(s) && Registered(s, 1) && !At(s, 1).tx.closing && Holds(s, 0, to) && |data| <= 1000
    requires At(s, 1).rx.rest == Frame(Request(to, data))
    ensures var r := Drain(s, 1);
            Live(r, 0) && At(r, 0).tx == Queue(At(s, 0).tx, Relayed(At(s, 1).name, data))
            && Live(r, 1) && At(r, 1).tx == At(s, 1).tx
  {
    assert Frame(Request(to, data)) + [] == Frame(Request(to, data));
    FirstIsRequest(s, 1, 0, to, data, []);
    var r := HandleFirst(s, 1);
    assert Drain(r, 1) == r;
  }

  lemma DrainsRequests(s: Server, to: Name, name: Name, a: seq<byte>, b: seq<byte>)
    requires Ok(s) && Registered(s, 1) && At(s, 1).name == name && !At(s, 1).tx.closing && At(s, 1).tx.pending == []
    requires Holds(s, 0, to) && AboutToLose(At(s, 0).tx, HEADER + NAME_SIZE + |b|)
    requires |a| == |b| <= 1000 && a != b
    requires At(s, 1).rx.rest == Frame(Request(to, a)) + Frame(Request(to, b))
    ensures var r := Drain(s, 1);
            Live(r, 1) && !At(r, 1).tx.closing && At(r, 1).tx.pending == [] && Live(r, 0) && !NoGap(At(r, 0).tx)
  {
    FirstIsRequest(s, 1, 0, to, a, Frame(Request(to, b)));
    DrainsLast(HandleFirst(s, 1), to, b);
    QueuedTwiceGaps(s, 0, Relayed(name, a), Relayed(name, b));
    RelayedDiffer(name, a, b);
  }

  lemma SecondClientSends(s: Server, to: Name, name: Name, a: seq<byte>, b: seq<byte>)
    requires Ok(s) && Live(s, 0) && Live(s, 1) && |a| == |b| <= 1000 && a != b
    requires Idle(At(s, 0), to, [Interrupted, Sent(HEADER + NAME_SIZE + |b|)])
    requires IsNew(At(s, 1), [Sent(8)], Frame(Registration(name)) + (Frame(Request(to, a)) + Frame(Request(to, b))))
    requires name != [] && name != to && forall j :: Registered(s, j) ==> j == 0
    ensures var r := ServiceSlot(s, 1, READABLE); Live(r, 0) && !NoGap(At(r, 0).tx)
  {
    var rest := Frame(Request(to, a)) + Frame(Request(to, b));
    TurnIs(s, 1);
    TurnReads(s, 1, [Sent(8)], Frame(Registration(name)) + rest);
    var s1 := ReadSlot(Begin(s, 1), 1);
    NobodyHolds(s, s1, to, name);
    DrainsAll(s1, to, name, a, b);
    EndsQuietly(Drain(s1, 1), 1);
  }

  lemma NobodyHolds(s: Server, s1: Server, to: Name, name: Name)
    requires Elsewhere(s, s1, 1) && Live(s, 0) && At(s, 0).name == to && name != to
    requires (forall j :: Registered(s, j) ==> j == 0) && Live(s1, 1) && !At(s1, 1).registered
    ensures s1.slots[0] == s.slots[0] && forall j :: !Holds(s1, j, name)
  {
    forall j
      ensures !Holds(s1, j, name)
    {
      assert j != 1 && Holds(s1, j, name) ==> Registered(s, j);
    }
  }

  lemma DrainsAll(s: Server, to: Name, name: Name, a: seq<byte>, b: seq<byte>)
    requires Ok(s) && Live(s, 0) && Idle(At(s, 0), to, [Interrupted, Sent(HEADER + NAME_SIZE + |b|)])
    requires |a| == |b| <= 1000 && a != b && name != [] && forall j :: !Holds(s, j, name)
    requires Buffered(s, 1, [Sent(8)], Frame(Registration(name)) + (Frame(Request(to, a)) + Frame(Request(to, b))))
    ensures var r := Drain(s, 1);
            Live(r, 1) && !At(r, 1).tx.closing && At(r, 1).tx.pending == [] && Live(r, 0) && !NoGap(At(r, 0).tx)
  {
    assert [Sent(8)] + [] == [Sent(8)];
    FirstIsRegistration(s, 1, name, [], Frame(Request(to, a)) + Frame(Request(to, b)));
    var r := HandleFirst(s, 1);
    assert r.slots[0] == s.slots[0];
    DrainsRequests(r, to, name, a, b);
  }

  // ---- the whole run --------------------------------------------------

  lemma {:induction false} NobodyFrom(s: Server, from: nat)
    requires from <= |s.slots| && forall j :: from <= j < |s.slots| ==> s.slots[j].None?
    ensures Collect(s, from) == []
    decreases |s.slots| - from
  {
    if from < |s.slots| {
      NobodyFrom(s, from + 1);
    }
  }

  function Listener(fd: int, name: Name, n: nat): Arrival {
    Accepted(fd, [Sent(8), Interrupted, Sent(n)], [], [Got(Frame(Registration(name)))])
  }

  function Talker(fd: int, name: Name, to: Name, a: seq<byte>, b: seq<byte>): Arrival
    requires |a| <= 1000 && |b| <= 1000
  {
    Accepted(fd, [Sent(8)], [], [Got(Frame(Registration(name)) + (Frame(Request(to, a)) + Frame(Request(to, b))))])
  }

  /** The turn in which both connect, and the one in which both have something to read. */
  function Connecting(x: Arrival, y: Arrival): Turn {
    Turn(true, [x, y], _ => NOTHING)
  }

  const READING := Turn(false, [], _ => READABLE)

  lemma BothConnect(state: StateImage, x: Arrival, y: Arrival)
    requires x.Accepted? && y.Accepted?
    ensures var s := Pass(Empty(state), Connecting(x, y));
            Ok(s) && Settled(s) && |s.slots| == MAX_CLIENTS
            && s.slots[0] == Some(NewLink(0, x)) && s.slots[1] == Some(NewLink(1, y))
            && forall j :: 2 <= j < MAX_CLIENTS ==> s.slots[j].None?
  {
    var e := Empty(state);
    EmptyOk(state);
    PassServes(e, Connecting(x, y));
    NobodyFrom(e, 0);
    assert Polled(Collect(e, 0), Connecting(x, y).revs) == [];
    var s1 := Admit(e, x);
    assert FreeSlot(e, 0) == 0 && FreeSlot(s1, 0) == 1;
    assert [x, y][1..] == [y] && [y][1..] == [];
    assert AdmitAll(e, [x, y]) == AdmitAll(s1, [y]) == AdmitAll(Admit(s1, y), []);
  }

  lemma TwoCollected(s: Server)
    requires |s.slots| == MAX_CLIENTS && Live(s, 0) && Live(s, 1) && forall j :: 2 <= j < MAX_CLIENTS ==> s.slots[j].None?
    ensures Polled(Collect(s, 0), READING.revs)
            == [Entry(0, At(s, 0).fd, READABLE), Entry(1, At(s, 1).fd, READABLE)]
  {
    NobodyFrom(s, 2);
    assert Collect(s, 1) == [Entry(1, At(s, 1).fd, NOTHING)] + Collect(s, 2);
    assert Collect(s, 0) == [Entry(0, At(s, 0).fd, NOTHING)] + Collect(s, 1);
  }

  /** Two turns of a new server, for any names and any two messages of one length: two
      clients connect; the first registers; the second registers and sends it both
      messages, and the first one of them is lost to a signal. The second arrives. */
  lemma GapHappens(state: StateImage, fd: int, fd': int, to: Name, name: Name, a: seq<byte>, b: seq<byte>)
    requires to != [] && name != [] && name != to && |a| == |b| <= 1000 && a != b
    ensures var ts := [Connecting(Listener(fd, to, HEADER + NAME_SIZE + |b|), Talker(fd', name, to, a, b)), READING];
            var r := Passes(Empty(state), ts);
            Live(r, 0) && !NoGap(At(r, 0).tx)
  {
    var x, y := Listener(fd, to, HEADER + NAME_SIZE + |b|), Talker(fd', name, to, a, b);
    var s := Pass(Empty(state), Connecting(x, y));
    BothConnect(state, x, y);
    assert x.sends == [Sent(8)] + [Interrupted, Sent(HEADER + NAME_SIZE + |b|)];
    ReadingGaps(s, to, name, a, b);
    var ts := [Connecting(x, y), READING];
    assert ts[1..] == [READING] && [READING][1..] == [];
    assert Passes(Empty(state), ts) == Passes(s, [READING]) == Pass(s, READING);
  }

  lemma ReadingGaps(s: Server, to: Name, name: Name, a: seq<byte>, b: seq<byte>)
    requires Ok(s) && Settled(s) && to != [] && name != [] && name != to && |a| == |b| <= 1000 && a != b
    requires Live(s, 0) && Live(s, 1) && forall j :: 2 <= j < MAX_CLIENTS ==> s.slots[j].None?
    requires IsNew(At(s, 0), [Sent(8)] + [Interrupted, Sent(HEADER + NAME_SIZE + |b|)], Frame(Registration(to)))
    requires IsNew(At(s, 1), [Sent(8)], Frame(Registration(name)) + (Frame(Request(to, a)) + Frame(Request(to, b))))
    ensures var r := Pass(s, READING); Live(r, 0) && !NoGap(At(r, 0).tx)
  {
    TwoCollected(s);
    var s1 := FirstDone(s, to, [Interrupted, Sent(HEADER + NAME_SIZE + |b|)]);
    SecondClientSends(s1, to, name, a, b);
    TwoTurns(s, Entry(0, At(s, 0).fd, READABLE), s1, Entry(1, At(s, 1).fd, READABLE));
  }

  lemma FirstDone(s: Server, to: Name, sends: seq<SendOutcome>) returns (s1: Server)
    requires Ok(s) && Settled(s) && to != [] && Live(s, 0) && Live(s, 1) && !At(s, 1).registered
    requires forall j :: 2 <= j < MAX_CLIENTS ==> s.slots[j].None?
    requires IsNew(At(s, 0), [Sent(8)] + sends, Frame(Registration(to)))
    ensures s1 == ServiceSlot(s, 0, READABLE) && Ok(s1) && Live(s1, 0) && Idle(At(s1, 0), to, sends)
    ensures Live(s1, 1) && s1.slots[1] == s.slots[1] && forall j :: Registered(s1, j) ==> j == 0
  {
    s1 := ServiceSlot(s, 0, READABLE);
    assert forall j :: !Registered(s, j);
    FirstClientRegisters(s, to, sends);
    ServiceSlotLeaves(s, 0, READABLE);
  }

  lemma FirstTurnIs(s: Server, e: Entry, rest: seq<Entry>)
    requires Current(s, e)
    ensures ServiceAll(s, [e] + rest) == ServiceAll(ServiceSlot(s, e.slot, e.rev), rest)
  {
    assert ([e] + rest)[1..] == rest;
  }

  lemma TwoTurns(s: Server, e: Entry, s1: Server, e': Entry)
    requires Current(s, e) && s1 == ServiceSlot(s, e.slot, e.rev) && Current(s1, e')
    ensures ServiceAll(s, [e, e']) == ServiceSlot(s1, e'.slot, e'.rev)
  {
    FirstTurnIs(s, e, [e']);
    FirstTurnIs(s1, e', []);
    assert [e] + [e'] == [e, e'] && [e'] + [] == [e'];
  }
}
