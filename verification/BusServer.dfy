/** The bus server itself: its connection table, updated in place. */
module BusServer {
  import opened Bytes
  import opened Framing
  import opened Names
  import opened Transmit
  import opened Receive
  import opened Bus
  import Record
  import opened Connection

  /** One poll entry as the event loop passes it around. */
  datatype PollFd = PollFd(fd: int, pollOut: bool, rev: Revents)

  type SlotMap = s: seq<int> | |s| == MAX_CLIENTS + 1 witness seq(MAX_CLIENTS + 1, _ => -1)

  class IpcServer {
    const clients: seq<Conn>
    var slotMap: SlotMap   // the slot each poll entry was collected for
    var state: StateImage
    var saves: seq<StateImage>   // what sat_state_store() was called with

    /** What the table amounts to; Valid() ties it to the connections. */
    ghost var model: Server

    /** Every object the connections use, or have used. */
    ghost var repr: set<object>

    /** No two connections share an object. */
    ghost predicate Separate()
      reads clients
    {
      && (forall i, j :: 0 <= i < j < |clients| ==>
            clients[i] != clients[j] && clients[i].rxbuf != clients[j].rxbuf && clients[i].txbuf != clients[j].txbuf)
      && (forall i, j :: 0 <= i < |clients| && 0 <= j < |clients| ==> clients[i].rxbuf != clients[j].txbuf)
    }

    ghost predicate Matches(i: nat)
      requires i < |clients|
      reads this`model, clients[i], clients[i].rxbuf, clients[i].txbuf
    {
      clients[i].Valid() && i < |model.slots| && clients[i].Model() == model.slots[i]
    }

    ghost predicate Valid()
      reads this`model, this`state, this`saves, this`repr, repr
    {
      && |clients| == |model.slots| == MAX_CLIENTS && model.state == state && model.saves == saves
      && this !in repr && (forall i :: 0 <= i < |clients| ==> clients[i] in repr)
      && (forall i :: 0 <= i < |clients| ==> clients[i].rxbuf in repr && clients[i].txbuf in repr)
      && Separate()
      && forall i :: 0 <= i < |clients| ==> Matches(i)
    }

    /** find_client_by_name(); `exclude` is a slot, or -1. */
    method FindByName(name: Name, exclude: int) returns (i: int)
      requires Valid()
      ensures i == Find(model, name, exclude, 0)
    {
      i := 0;
      while i < |clients|
        invariant 0 <= i <= |clients| && Find(model, name, exclude, 0) == Find(model, name, exclude, i)
      {
        var c := clients[i];
        assert Matches(i);
        if c.inUse && c.registered && i != exclude && c.name == name {
          return;
        }
        i := i + 1;
      }
      i := -1;
    }

    /** An operation that touched only the connection in slot `t`. */
    twostate lemma OneChanged(t: nat)
      requires t < |clients| && old(Valid())
      requires clients[t].Valid() && |model.slots| == MAX_CLIENTS && model.state == state && model.saves == saves
      requires model.slots == old(model.slots)[t := clients[t].Model()]
      requires forall i :: 0 <= i < |clients| && i != t ==>
                 unchanged(clients[i], clients[i].rxbuf) && unchanged(old(clients[i].txbuf))
      requires clients[t].txbuf == old(clients[t].txbuf) || fresh(clients[t].txbuf)
      requires repr == old(repr) + {clients[t].txbuf}
      ensures Valid() && fresh(repr - old(repr))
    {
      forall i | 0 <= i < |clients|
        ensures Matches(i)
      {
        if i != t {
          assert old(Matches(i));
        }
      }
    }

    /** queue_send() on slot `t`. */
    method QueueTo(t: nat, m: WireMsg)
      requires Valid() && Live(model, t)
      modifies this`model, this`repr, repr
      ensures Valid() && fresh(repr - old(repr))
      ensures model == Reply(old(model), t, m) && state == old(state)
    {
      assert Matches(t);
      var c := clients[t];
      c.QueueSend(m);
      assert c.Model() == Some(At(model, t).(tx := Queue(At(model, t).tx, m)));
      model := Reply(model, t, m);
      repr := repr + {clients[t].txbuf};
      OneChanged(t);
    }

    method DoomSlot(i: nat)
      requires Valid() && Live(model, i)
      modifies this`model, this`repr, repr
      ensures Valid() && fresh(repr - old(repr))
      ensures model == Doom(old(model), i) && state == old(state)
    {
      assert Matches(i);
      clients[i].shouldClose := true;
      model := Doom(model, i);
      repr := repr + {clients[i].txbuf};
      OneChanged(i);
    }

    /** An error reply after which the connection is closed. */
    method Refuse(i: nat, code: u32)
      requires Valid() && Live(model, i)
      modifies this`model, this`repr, repr
      ensures Valid() && fresh(repr - old(repr))
      ensures model == Doom(Reply(old(model), i, ErrorMsg(code)), i) && state == old(state)
    {
      QueueTo(i, ErrorMsg(code));
      DoomSlot(i);
    }

    /** handle_message() before registration. */
    method Register(i: nat, m: WireMsg)
      requires Valid() && Live(model, i)
      modifies this`model, this`repr, repr
      ensures Valid() && fresh(repr - old(repr))
      ensures model == HandleRegister(old(model), i, m) && state == old(state)
    {
      if m.typ != REGISTER || |m.payload| < NAME_SIZE {
        Refuse(i, if m.typ != REGISTER then NOT_REGISTERED else BAD_MESSAGE);
        return;
      }
      var name := NameIn(m.payload);
      if name == [] {
        Refuse(i, BAD_MESSAGE);
        return;
      }
      var holder := FindByName(name, i);
      if holder != -1 {
        Refuse(i, NAME_TAKEN);
        return;
      }
      TakeName(i, name);
      QueueTo(i, Msg(REGISTER_OK, []));
    }

    method TakeName(i: nat, name: Name)
      requires Valid() && Live(model, i)
      modifies this`model, this`repr, repr
      ensures Valid() && fresh(repr - old(repr)) && state == old(state)
      ensures model == Put(old(model), i, At(old(model), i).(name := name, registered := true))
    {
      assert Matches(i);
      clients[i].name := name;
      clients[i].registered := true;
      model := Put(model, i, At(model, i).(name := name, registered := true));
      repr := repr + {clients[i].txbuf};
      OneChanged(i);
    }

    /** The DMSG_SEND case of handle_message(). */
    method Relay(i: nat, payload: seq<byte>)
      requires Valid() && Live(model, i) && |payload| <= MAX_PAYLOAD
      modifies this`model, this`repr, repr
      ensures Valid() && fresh(repr - old(repr))
      ensures model == HandleSend(old(model), i, payload) && state == old(state)
    {
      if |payload| < NAME_SIZE {
        QueueTo(i, ErrorMsg(BAD_MESSAGE));
        return;
      }
      var target := FindByName(NameIn(payload), -1);
      if target == -1 {
        QueueTo(i, ErrorMsg(UNKNOWN_DEST));
        return;
      }
      assert Matches(i);
      QueueTo(target, Msg(DELIVER, Field(clients[i].name) + payload[NAME_SIZE..]));
    }

    /** handle_message(). */
    method HandleMessage(i: nat, m: WireMsg)
      requires Valid() && Live(model, i) && |m.payload| <= MAX_PAYLOAD
      modifies this`model, this`state, this`saves, this`repr, repr
      ensures Valid() && fresh(repr - old(repr))
      ensures model == Handle(old(model), i, m)
    {
      assert Matches(i);
      if !clients[i].registered {
        Register(i, m);
      } else if m.typ == STATE_GET {
        QueueTo(i, Msg(STATE_VALUE, state));
      } else if m.typ == STATE_SET {
        if |m.payload| != Record.STATE_SIZE {
          QueueTo(i, ErrorMsg(BAD_MESSAGE));
        } else {
          ChangeState(m.payload);
          QueueTo(i, Msg(STATE_VALUE, state));
        }
      } else if m.typ == SEND {
        Relay(i, m.payload);
      } else if m.typ == PING {
        QueueTo(i, Msg(PONG, []));
      } else {
        QueueTo(i, ErrorMsg(BAD_MESSAGE));
      }
    }

    /** The new state, and the call of sat_state_store(), whose result is only logged. */
    method ChangeState(image: StateImage)
      requires Valid()
      modifies this`model, this`state, this`saves
      ensures Valid() && fresh(repr - old(repr))
      ensures state == image && model == SetState(old(model), image)
    {
      state := image;
      saves := saves + [image];
      model := SetState(model, image);
      forall i | 0 <= i < |clients|
        ensures Matches(i)
      {
        assert old(Matches(i));
      }
    }

    // ---- one connection's turn ----------------------------------------

    method Read(i: nat)
      requires Valid() && Live(model, i)
      modifies this`model, this`repr, repr
      ensures Valid() && fresh(repr - old(repr))
      ensures model == ReadSlot(old(model), i) && state == old(state)
    {
      assert Matches(i);
      clients[i].ReadSocket();
      model := ReadSlot(model, i);
      repr := repr + {clients[i].txbuf};
      OneChanged(i);
    }

    method Drop(i: nat, framelen: nat)
      requires Valid() && Live(model, i) && HasMessage(At(model, i).rx.rest)
      requires framelen == HEADER + HeaderLength(At(model, i).rx.rest)
      modifies this`model, this`repr, repr
      ensures Valid() && fresh(repr - old(repr)) && state == old(state)
      ensures model == Put(old(model), i, At(old(model), i).(rx := Pop(At(old(model), i).rx)))
    {
      assert Matches(i);
      clients[i].DropFirst(framelen);
      model := Put(model, i, At(model, i).(rx := Pop(At(model, i).rx)));
      repr := repr + {clients[i].txbuf};
      OneChanged(i);
    }

    /** Nothing the program does: the record of what is dispatched. */
    ghost method EnterMessage(i: nat, m: WireMsg)
      requires Valid() && Live(model, i)
      modifies this`model
      ensures Valid() && model == Note(old(model), i, m)
    {
      model := Note(model, i, m);
      forall j | 0 <= j < |clients|
        ensures Matches(j)
      {
        assert old(Matches(j));
      }
    }

    /** One complete message: dispatched, then dropped from the buffer. */
    method Dispatch(i: nat)
      requires Valid() && Live(model, i) && HasMessage(At(model, i).rx.rest)
      modifies this`model, this`state, this`saves, this`repr, repr
      ensures Valid() && fresh(repr - old(repr))
      ensures model == HandleFirst(old(model), i)
    {
      assert Matches(i);
      var rx := clients[i].rxbuf[..clients[i].rxLen];
      var framelen := HEADER + HeaderLength(rx);
      EnterMessage(i, Msg(HeaderType(rx), rx[HEADER..framelen]));
      HandleMessage(i, Msg(HeaderType(rx), rx[HEADER..framelen]));
      Drop(i, framelen);
    }

    /** The parse loop. */
    method DrainSlot(i: nat)
      requires Valid() && Live(model, i)
      modifies this`model, this`state, this`saves, this`repr, repr
      ensures Valid() && fresh(repr - old(repr))
      ensures model == Drain(old(model), i)
    {
      assert Matches(i);
      while !clients[i].shouldClose && clients[i].rxLen >= HEADER
        invariant Valid() && fresh(repr - old(repr))
        invariant Live(model, i) && Drain(model, i) == Drain(old(model), i)
        invariant Matches(i)
        decreases |At(model, i).rx.rest|
      {
        var length := HeaderLength(clients[i].rxbuf[..clients[i].rxLen]);
        if length > MAX_PAYLOAD {
          DoomSlot(i);
          return;
        }
        if clients[i].rxLen < HEADER + length {
          return;
        }
        Dispatch(i);
        assert Matches(i);
      }
    }

    method FlushSlot(i: nat)
      requires Valid() && Live(model, i)
      modifies this`model, this`repr, repr
      ensures Valid() && fresh(repr - old(repr)) && state == old(state)
      ensures model == Put(old(model), i, At(old(model), i).(tx := Flush(At(old(model), i).tx)))
    {
      assert Matches(i);
      clients[i].FlushTx();
      model := Put(model, i, At(model, i).(tx := Flush(At(model, i).tx)));
      repr := repr + {clients[i].txbuf};
      OneChanged(i);
    }

    /** close_client(). */
    method CloseSlot(i: nat)
      requires Valid() && Live(model, i)
      modifies this`model, this`repr, repr
      ensures Valid() && fresh(repr - old(repr)) && state == old(state)
      ensures model == CloseLink(old(model), i, At(old(model), i))
    {
      assert Matches(i);
      clients[i].Close();
      model := CloseLink(model, i, At(model, i));
      repr := repr + {clients[i].txbuf};
      OneChanged(i);
    }

    /** The flush and, for a doomed connection, the close that end a turn. */
    method Finish(i: nat)
      requires Valid() && Live(model, i)
      modifies this`model, this`repr, repr
      ensures Valid() && fresh(repr - old(repr)) && state == old(state)
      ensures model == FinishSlot(old(model), i)
    {
      assert Matches(i);
      if !clients[i].shouldClose {
        FlushSlot(i);
        assert Matches(i);
      }
      if clients[i].shouldClose {
        CloseSlot(i);
      }
    }

    /** Nothing the program does: the record of whose turn it is. */
    ghost method BeginTurn(i: nat)
      requires Valid() && Live(model, i)
      modifies this`model
      ensures Valid() && model == Begin(old(model), i)
    {
      model := Begin(model, i);
      forall j | 0 <= j < |clients|
        ensures Matches(j)
      {
        assert old(Matches(j));
      }
    }

    method ServeSlot(i: nat, rev: Revents)
      requires Valid() && Live(model, i)
      modifies this`model, this`state, this`saves, this`repr, repr
      ensures Valid() && fresh(repr - old(repr))
      ensures model == ServiceSlot(old(model), i, rev)
    {
      BeginTurn(i);
      if rev.hangup {
        DoomSlot(i);
      }
      assert Matches(i);
      if !clients[i].shouldClose && rev.readable {
        ReadAndDrain(i);
      }
      Finish(i);
    }

    method ReadAndDrain(i: nat)
      requires Valid() && Live(model, i)
      modifies this`model, this`state, this`saves, this`repr, repr
      ensures Valid() && fresh(repr - old(repr))
      ensures model == Drain(ReadSlot(old(model), i), i)
    {
      Read(i);
      DrainSlot(i);
    }

    // ---- a whole pass --------------------------------------------------

    /** The first slot not in use, or -1. */
    method FindFree() returns (i: int)
      requires Valid()
      ensures i == FreeSlot(model, 0)
    {
      i := 0;
      while i < |clients|
        invariant 0 <= i <= |clients| && FreeSlot(model, 0) == FreeSlot(model, i)
      {
        assert Matches(i);
        if !clients[i].inUse {
          return;
        }
        i := i + 1;
      }
      i := -1;
    }

    /** One round of accept_new_connections(). */
    method AcceptOne(a: Arrival)
      requires Valid()
      modifies this`model, this`repr, repr
      ensures Valid() && fresh(repr - old(repr)) && state == old(state)
      ensures model == Admit(old(model), a)
    {
      if a.AcceptSignal? {
        return;
      }
      var i := FindFree();
      if i == -1 {
        return;
      }
      assert Matches(i);
      clients[i].Open(a, model.next);
      model := Admit(model, a);
      repr := repr + {clients[i].txbuf};
      OneChanged(i);
    }

    /** accept_new_connections(). */
    method AcceptNew(arrivals: seq<Arrival>)
      requires Valid()
      modifies this`model, this`repr, repr
      ensures Valid() && fresh(repr - old(repr)) && state == old(state)
      ensures model == AdmitAll(old(model), arrivals)
    {
      var k := 0;
      while k < |arrivals|
        invariant k <= |arrivals| && Valid() && fresh(repr - old(repr)) && state == old(state)
        invariant AdmitAll(model, arrivals[k..]) == AdmitAll(old(model), arrivals)
      {
        AcceptOne(arrivals[k]);
        k := k + 1;
      }
    }

    /** A poll entry and the slot noted for it stand for `e`. */
    static ghost predicate StandsFor(s: Server, f: PollFd, slot: int, e: Entry) {
      e.slot == slot && e.fd == f.fd && Live(s, slot) && (f.pollOut <==> At(s, slot).tx.pending != [])
    }

    /** Entry 0 is the listener's; the others stand for `es`, one for one. */
    static ghost predicate AllStandFor(s: Server, fds: seq<PollFd>, slots: seq<int>, es: seq<Entry>) {
      |fds| == 1 + |es| && |fds| <= |slots|
      && forall k :: 0 <= k < |es| ==> StandsFor(s, fds[k + 1], slots[k + 1], es[k])
    }

    static lemma OneMoreStands(s: Server, fds: seq<PollFd>, slots: seq<int>, es: seq<Entry>, f: PollFd, e: Entry)
      requires AllStandFor(s, fds, slots, es) && |fds| < |slots| && StandsFor(s, f, e.slot, e)
      ensures AllStandFor(s, fds + [f], slots[|fds| := e.slot], es + [e])
    {
    }

    /** ipc_server_collect_pollfds(): the listener and then, as far as there is room,
        one entry per connection, with its slot noted in slotMap. A connection is
        polled for output exactly when some waits. */
    method CollectPollfds(maxFds: nat) returns (fds: seq<PollFd>)
      requires Valid()
      modifies this`slotMap
      ensures Valid() && |fds| == Min(maxFds, 1 + |Collect(model, 0)|)
      ensures 0 < maxFds ==> AllStandFor(model, fds, slotMap, Collect(model, 0)[..|fds| - 1])
    {
      fds := [];
      if 0 < maxFds {
        fds := [PollFd(-1, false, NOTHING)];
        slotMap := slotMap[0 := -1];
        ghost var es := [];
        CollectBounded(model, 0);
        var i := 0;
        while i < |clients| && |fds| < maxFds
          invariant 0 <= i <= |clients| && Valid() && |fds| <= maxFds && |es| <= i
          invariant Collect(model, 0) == es + Collect(model, i) && AllStandFor(model, fds, slotMap, es)
        {
          fds, es := CollectSlot(i, fds, es);
          i := i + 1;
        }
        assert Collect(model, 0)[..|es|] == es;
      }
    }

    /** One round of that loop. */
    method CollectSlot(i: nat, fds: seq<PollFd>, ghost es: seq<Entry>) returns (fds': seq<PollFd>, ghost es': seq<Entry>)
      requires Valid() && i < |clients| && AllStandFor(model, fds, slotMap, es) && |es| <= i
      modifies this`slotMap
      ensures Valid() && AllStandFor(model, fds', slotMap, es') && |es'| <= |es| + 1
      ensures es + Collect(model, i) == es' + Collect(model, i + 1)
    {
      fds', es' := fds, es;
      var used, f := PollSlot(i);
      CollectStep(model, i, es);
      if used {
        OneMoreStands(model, fds, slotMap, es, f, Entry(i, f.fd, NOTHING));
        slotMap := slotMap[|fds| := i];
        fds', es' := fds + [f], es + [Entry(i, f.fd, NOTHING)];
      }
    }

    method PollSlot(i: nat) returns (used: bool, f: PollFd)
      requires Valid() && i < |clients|
      ensures used == Live(model, i)
      ensures used ==> StandsFor(model, f, i, Entry(i, f.fd, NOTHING)) && f.fd == At(model, i).fd
    {
      assert Matches(i);
      var c := clients[i];
      used, f := c.inUse, PollFd(c.fd, c.txSent < c.txLen, NOTHING);
    }

    static lemma CollectStep(s: Server, i: nat, es: seq<Entry>)
      requires i < |s.slots|
      ensures es + Collect(s, i) ==
              (if Live(s, i) then es + [Entry(i, At(s, i).fd, NOTHING)] else es) + Collect(s, i + 1)
    {
    }

    static lemma CollectBounded(s: Server, from: nat)
      requires from <= |s.slots|
      ensures |Collect(s, from)| <= |s.slots| - from
      decreases |s.slots| - from
    {
      if from < |s.slots| {
        CollectBounded(s, from + 1);
      }
    }

    /** The entries a poll set stands for, as poll() has filled it in. */
    ghost function EntriesOf(fds: seq<PollFd>): seq<Entry>
      requires |fds| <= |slotMap|
      reads this`slotMap
    {
      EntriesFrom(fds, 1, slotMap)
    }

    static ghost function EntriesFrom(fds: seq<PollFd>, k: nat, slots: seq<int>): seq<Entry>
      requires |fds| <= |slots|
      decreases |fds| - k
    {
      if |fds| <= k then [] else [Entry(slots[k], fds[k].fd, fds[k].rev)] + EntriesFrom(fds, k + 1, slots)
    }

    /** ipc_server_service(). */
    method ServicePass(fds: seq<PollFd>, arrivals: seq<Arrival>)
      requires Valid() && |fds| <= |slotMap|
      requires forall k :: 1 <= k < |fds| ==> -1 <= slotMap[k] < MAX_CLIENTS
      modifies this`model, this`state, this`saves, this`repr, repr
      ensures Valid() && fresh(repr - old(repr))
      ensures model == Service(old(model), fds != [] && fds[0].rev.readable, arrivals, EntriesOf(fds))
    {
      if fds != [] && fds[0].rev.readable {
        AcceptNew(arrivals);
      }
      ghost var s1 := model;
      var k := 1;
      while k < |fds|
        invariant 1 <= k && Valid() && fresh(repr - old(repr))
        invariant ServiceAll(model, EntriesFrom(fds, k, slotMap)) == ServiceAll(s1, EntriesOf(fds))
      {
        ghost var es := EntriesFrom(fds, k, slotMap);
        assert es[0] == Entry(slotMap[k], fds[k].fd, fds[k].rev) && es[1..] == EntriesFrom(fds, k + 1, slotMap);
        ServeEntry(slotMap[k], fds[k]);
        k := k + 1;
      }
    }

    /** One turn of the client loop, with its guard against recycled slots. */
    method ServeEntry(slot: int, f: PollFd)
      requires Valid() && -1 <= slot < MAX_CLIENTS
      modifies this`model, this`state, this`saves, this`repr, repr
      ensures Valid() && fresh(repr - old(repr))
      ensures var e := Entry(slot, f.fd, f.rev);
              model == if Current(old(model), e) then ServiceSlot(old(model), slot, f.rev) else old(model)
    {
      if slot < 0 {
        return;
      }
      assert Matches(slot);
      if clients[slot].inUse && clients[slot].fd == f.fd {
        ServeSlot(slot, f.rev);
      }
    }

    /** poll(): entry 0 learns of arrivals, entry k + 1 what turn `t` has for it. */
    static function Poll(fds: seq<PollFd>, t: Turn): (r: seq<PollFd>) {
      seq(|fds|, k requires 0 <= k < |fds| =>
        fds[k].(rev := if k == 0 then Revents(false, t.accepting) else t.revs(k - 1)))
    }

    static lemma {:induction false} PolledEntries(s: Server, fds: seq<PollFd>, slots: seq<int>, es: seq<Entry>, t: Turn, k: nat)
      requires AllStandFor(s, fds, slots, es) && k <= |es|
      ensures EntriesFrom(Poll(fds, t), k + 1, slots) == Polled(es, t.revs)[k..]
      decreases |es| - k
    {
      if k < |es| {
        PolledEntries(s, fds, slots, es, t, k + 1);
        assert StandsFor(s, fds[k + 1], slots[k + 1], es[k]);
        assert Polled(es, t.revs)[k..] == [Polled(es, t.revs)[k]] + Polled(es, t.revs)[k + 1..];
      }
    }

    /** One turn of the daemon's event loop: collect, poll, service. */
    method Turn(t: Turn)
      requires Valid()
      modifies this`model, this`state, this`saves, this`repr, this`slotMap, repr
      ensures Valid() && fresh(repr - old(repr))
      ensures model == Pass(old(model), t)
    {
      CollectBounded(model, 0);
      var fds := CollectPollfds(MAX_CLIENTS + 1);
      ghost var es := Collect(model, 0);
      assert es[..|fds| - 1] == es;
      PolledEntries(model, fds, slotMap, es, t, 0);
      forall k | 1 <= k < |fds|
        ensures 0 <= slotMap[k] < MAX_CLIENTS
      {
        assert StandsFor(model, fds[k - 1 + 1], slotMap[k - 1 + 1], es[k - 1]);
      }
      ServicePass(Poll(fds, t), t.arrivals);
    }

    /** The server as ipc_server_create() leaves it. */
    constructor (image: StateImage)
      ensures Valid() && fresh(repr) && model == Empty(image)
    {
      var table: seq<Conn> := [];
      ghost var used: set<object> := {};
      while |table| < MAX_CLIENTS
        invariant |table| <= MAX_CLIENTS && fresh(used)
        invariant forall i :: 0 <= i < |table| ==> IsFresh(table[i], used)
        invariant forall i, j :: 0 <= i < j < |table| ==> table[i] != table[j] && table[i].Repr() !! table[j].Repr()
      {
        var c := new Conn();
        table := table + [c];
        used := used + c.Repr();
      }
      clients, slotMap, state, saves := table, seq(MAX_CLIENTS + 1, _ => -1), image, [];
      model, repr := Empty(image), used;
      new;
      forall i, j | 0 <= i < |clients| && 0 <= j < |clients|
        ensures clients[i].rxbuf != clients[j].txbuf
      {
        assert IsFresh(clients[i], used) && IsFresh(clients[j], used);
      }
    }

    static ghost predicate IsFresh(c: Conn, used: set<object>)
      reads c, c.rxbuf, c.txbuf
    {
      c.Valid() && c.Model() == None && c in used && c.rxbuf in used && c.txbuf in used
    }
  }
}
