/** What every run of the bus server keeps. */
module BusProofs {
  import opened Bytes
  import opened Framing
  import opened Names
  import opened Transmit
  import opened Receive
  import opened Bus
  import Record

  type Slot = Option<Link>

  // ---- the invariant --------------------------------------------------

  /** One connection: its output is a FIFO of messages its peer can take, its
      input is in step with the one-shot parse and has lost nothing, it keeps to its
      stream to the end if its socket does not fail, and it is never registered
      without a name. */
  ghost predicate LinkOk(l: Link) {
    Fifo(l.tx) && Bounded(l.tx.outbox) && InStep(l.rx) && Conserved(l.rx) && (l.registered ==> l.name != [])
    && (l.gentle ==> Clean(l.tx))
  }

  ghost predicate SlotOk(o: Slot, next: nat) {
    o.Some? ==> LinkOk(o.value) && o.value.serial < next
  }

  /** Two slots never hold the same connection, nor two holders of one name. */
  predicate Apart(a: Slot, b: Slot) {
    a.Some? && b.Some? ==>
      a.value.serial != b.value.serial
      && (a.value.registered && b.value.registered ==> a.value.name != b.value.name)
  }

  ghost predicate Ok(s: Server) {
    && |s.slots| == MAX_CLIENTS
    && (forall i :: 0 <= i < |s.slots| ==> SlotOk(s.slots[i], s.next))
    && (forall i, j :: 0 <= i < j < |s.slots| ==> Apart(s.slots[i], s.slots[j]))
  }

  /** A healthy connection has had all its complete messages dispatched. */
  predicate SettledSlot(o: Slot) {
    o.Some? && !o.value.tx.closing ==> Quiet(o.value.rx)
  }

  ghost predicate SettledBut(s: Server, i: int) {
    forall j :: 0 <= j < |s.slots| && j != i ==> SettledSlot(s.slots[j])
  }

  ghost predicate Settled(s: Server) {
    SettledBut(s, -1)
  }

  /** A connection that was there before is there still: same descriptor, same peer
      and, once registered, same name. */
  predicate SlotPersists(a: Slot, b: Slot, next: nat) {
    b.Some? && b.value.serial < next ==>
      a.Some? && a.value.serial == b.value.serial && a.value.fd == b.value.fd
      && a.value.rx.supply == b.value.rx.supply && a.value.gentle == b.value.gentle
      && (a.value.registered ==> b.value.registered && b.value.name == a.value.name)
  }

  /** From `s` to `r` connections may come and go, but one that stays keeps its
      slot, its descriptor and its name, and what is closed or stored stays on record. */
  ghost predicate Persists(s: Server, r: Server) {
    |s.slots| == |r.slots| && s.next <= r.next && s.closed <= r.closed && s.saves <= r.saves
    && forall i :: 0 <= i < |s.slots| ==> SlotPersists(s.slots[i], r.slots[i], s.next)
  }

  predicate SameConnection(a: Slot, b: Slot) {
    a.Some? == b.Some?
    && (a.Some? ==> a.value.serial == b.value.serial && a.value.fd == b.value.fd && a.value.rx == b.value.rx
                    && (a.value.tx.closing ==> b.value.tx.closing)
                    && (Stuck(a.value.tx) ==> Stuck(b.value.tx) && b.value.tx.wire == a.value.tx.wire))
  }

  /** Doomed with bytes waiting, as a backlog overflow leaves it. */
  predicate Stuck(t: Tx) {
    t.closing && t.pending != []
  }

  /** The connection has been closed, with just these bytes on its wire. */
  ghost predicate Ended(s: Server, serial: nat, wire: seq<byte>) {
    exists k :: 0 <= k < |s.closed| && s.closed[k].serial == serial && s.closed[k].tx.wire == wire
  }

  /** What slot `i` does in its turn may change its own connection; the others
      stay where they are. */
  ghost predicate Leaves(s: Server, r: Server, i: int) {
    Ok(r) && Persists(s, r) && s.next == r.next && s.served == r.served && (SettledBut(s, i) ==> SettledBut(r, i))
    && forall j :: 0 <= j < |s.slots| && j != i ==> SameConnection(s.slots[j], r.slots[j])
  }

  lemma LeavesTrans(s: Server, r: Server, t: Server, i: int)
    requires Ok(s) && Leaves(s, r, i) && Leaves(r, t, i)
    ensures Leaves(s, t, i)
  {
    forall j | 0 <= j < |s.slots|
      ensures SlotPersists(s.slots[j], t.slots[j], s.next)
    {
      assert SlotPersists(s.slots[j], r.slots[j], s.next) && SlotPersists(r.slots[j], t.slots[j], r.next);
    }
    forall j | 0 <= j < |s.slots| && j != i
      ensures SameConnection(s.slots[j], t.slots[j])
    {
      assert SameConnection(s.slots[j], r.slots[j]) && SameConnection(r.slots[j], t.slots[j]);
    }
  }

  // ---- one dispatch ---------------------------------------------------

  /** Updating one connection in place keeps the invariant if the connection
      stays well-formed and keeps its identity. */
  lemma PutLeaves(s: Server, t: int, l: Link, i: int)
    requires Ok(s) && Live(s, t) && LinkOk(l)
    requires var o := At(s, t); l.serial == o.serial && l.fd == o.fd && l.registered == o.registered && l.name == o.name
                                 && l.rx.supply == o.rx.supply && l.gentle == o.gentle
    requires t != i ==> l.rx == At(s, t).rx && (At(s, t).tx.closing ==> l.tx.closing)
                        && (Stuck(At(s, t).tx) ==> Stuck(l.tx) && l.tx.wire == At(s, t).tx.wire)
    ensures Leaves(s, Put(s, t, l), i)
  {
    PutOk(s, t, l);
    var r := Put(s, t, l);
    forall j | 0 <= j < |r.slots|
      ensures SlotPersists(s.slots[j], r.slots[j], s.next)
    {
    }
  }

  lemma PutOk(s: Server, t: int, l: Link)
    requires Ok(s) && Live(s, t) && LinkOk(l)
    requires var o := At(s, t); l.serial == o.serial && l.registered == o.registered && l.name == o.name
    ensures Ok(Put(s, t, l))
  {
    var r := Put(s, t, l);
    assert SlotOk(s.slots[t], s.next);
    forall j, k | 0 <= j < k < |r.slots|
      ensures Apart(r.slots[j], r.slots[k])
    {
      assert Apart(s.slots[j], s.slots[k]);
    }
  }

  lemma ReplyLeaves(s: Server, t: int, m: WireMsg, i: int)
    requires Ok(s) && Live(s, t) && |m.payload| <= MAX_PAYLOAD
    ensures Leaves(s, Reply(s, t, m), i)
  {
    QueueKeepsFifo(At(s, t).tx, m);
    if At(s, t).gentle {
      QueueClean(At(s, t).tx, m);
    }
    if Stuck(At(s, t).tx) {
      DoomedApply(At(s, t).tx, DoQueue(m));
    }
    PutLeaves(s, t, At(s, t).(tx := Queue(At(s, t).tx, m)), i);
  }

  lemma DoomLeaves(s: Server, i: int)
    requires Ok(s) && Live(s, i)
    ensures Leaves(s, Doom(s, i), i)
  {
    var l := At(s, i);
    PutLeaves(s, i, l.(tx := l.tx.(closing := true)), i);
  }

  lemma RefuseLeaves(s: Server, i: int, code: u32)
    requires Ok(s) && Live(s, i)
    ensures Leaves(s, Doom(Reply(s, i, ErrorMsg(code)), i), i)
  {
    var r := Reply(s, i, ErrorMsg(code));
    ReplyLeaves(s, i, ErrorMsg(code), i);
    DoomLeaves(r, i);
    LeavesTrans(s, r, Doom(r, i), i);
  }

  /** Taking a name nobody holds. */
  lemma NamingLeaves(s: Server, i: int, name: Name)
    requires Ok(s) && Live(s, i) && !At(s, i).registered && name != [] && Find(s, name, i, 0) == -1
    ensures Leaves(s, Put(s, i, At(s, i).(name := name, registered := true)), i)
  {
    var r := Put(s, i, At(s, i).(name := name, registered := true));
    forall j, k | 0 <= j < k < |r.slots|
      ensures Apart(r.slots[j], r.slots[k])
    {
      NamingApart(s, i, name, j, k);
    }
    forall j | 0 <= j < |r.slots|
      ensures SlotOk(r.slots[j], r.next) && SlotPersists(s.slots[j], r.slots[j], s.next)
    {
      assert SlotOk(s.slots[j], s.next);
    }
  }

  lemma NamingApart(s: Server, i: int, name: Name, j: int, k: int)
    requires Live(s, i) && Find(s, name, i, 0) == -1 && 0 <= j < k < |s.slots| && Apart(s.slots[j], s.slots[k])
    ensures var r := Put(s, i, At(s, i).(name := name, registered := true)); Apart(r.slots[j], r.slots[k])
  {
    assert !Holds(s, j, name) || j == i;
    assert !Holds(s, k, name) || k == i;
  }

  lemma HandleRegisterLeaves(s: Server, i: int, m: WireMsg)
    requires Ok(s) && Live(s, i) && !At(s, i).registered
    ensures Leaves(s, HandleRegister(s, i, m), i)
  {
    if m.typ != REGISTER {
      RefuseLeaves(s, i, NOT_REGISTERED);
    } else if |m.payload| < NAME_SIZE || NameIn(m.payload) == [] {
      RefuseLeaves(s, i, BAD_MESSAGE);
    } else if Find(s, NameIn(m.payload), i, 0) != -1 {
      RefuseLeaves(s, i, NAME_TAKEN);
    } else {
      var name := NameIn(m.payload);
      var r := Put(s, i, At(s, i).(name := name, registered := true));
      NamingLeaves(s, i, name);
      ReplyLeaves(r, i, Msg(REGISTER_OK, []), i);
      LeavesTrans(s, r, Reply(r, i, Msg(REGISTER_OK, [])), i);
    }
  }

  lemma HandleSendLeaves(s: Server, i: int, payload: seq<byte>)
    requires Ok(s) && Live(s, i) && |payload| <= MAX_PAYLOAD
    ensures Leaves(s, HandleSend(s, i, payload), i)
  {
    if |payload| < NAME_SIZE {
      ReplyLeaves(s, i, ErrorMsg(BAD_MESSAGE), i);
    } else {
      var t := Find(s, NameIn(payload), -1, 0);
      if t == -1 {
        ReplyLeaves(s, i, ErrorMsg(UNKNOWN_DEST), i);
      } else {
        ReplyLeaves(s, t, Msg(DELIVER, Field(At(s, i).name) + payload[NAME_SIZE..]), i);
      }
    }
  }

  lemma HandleLeaves(s: Server, i: int, m: WireMsg)
    requires Ok(s) && Live(s, i) && |m.payload| <= MAX_PAYLOAD
    ensures Leaves(s, Handle(s, i, m), i)
  {
    if !At(s, i).registered {
      HandleRegisterLeaves(s, i, m);
    } else if m.typ == SEND {
      HandleSendLeaves(s, i, m.payload);
    } else if m.typ == STATE_SET && |m.payload| == Record.STATE_SIZE {
      var s1 := SetState(s, m.payload);
      ReplyLeaves(s1, i, Msg(STATE_VALUE, m.payload), i);
    } else if m.typ == STATE_GET {
      ReplyLeaves(s, i, Msg(STATE_VALUE, s.state), i);
    } else if m.typ == PING {
      ReplyLeaves(s, i, Msg(PONG, []), i);
    } else {
      ReplyLeaves(s, i, ErrorMsg(BAD_MESSAGE), i);
    }
  }

  // ---- one connection's turn ------------------------------------------

  lemma HandleFirstLeaves(s: Server, i: int)
    requires Ok(s) && Live(s, i) && HasMessage(At(s, i).rx.rest)
    ensures Leaves(s, HandleFirst(s, i), i)
  {
    var m := First(At(s, i).rx.rest);
    var r := Handle(Note(s, i, m), i, m);
    HandleLeaves(Note(s, i, m), i, m);
    PopInStep(At(r, i).rx);
    PutLeaves(r, i, At(r, i).(rx := Pop(At(r, i).rx)), i);
    LeavesTrans(s, r, HandleFirst(s, i), i);
  }

  lemma {:induction false} DrainLeaves(s: Server, i: int)
    requires Ok(s) && Live(s, i)
    ensures Leaves(s, Drain(s, i), i) && SettledSlot(Drain(s, i).slots[i])
    decreases if Live(s, i) then |At(s, i).rx.rest| else 0
  {
    var l := At(s, i);
    if !l.tx.closing {
      if Oversized(l.rx.rest) {
        DoomLeaves(s, i);
      } else if HasMessage(l.rx.rest) {
        HandleFirstLeaves(s, i);
        DrainLeaves(HandleFirst(s, i), i);
        LeavesTrans(s, HandleFirst(s, i), Drain(s, i), i);
      }
    }
  }

  lemma ReadLeaves(s: Server, i: int)
    requires Ok(s) && Live(s, i)
    ensures Leaves(s, ReadSlot(s, i), i)
  {
    var l := At(s, i);
    var o := ReceiveAll(l.rx);
    ReceiveInStep(l.rx);
    ReceiveConserves(l.rx);
    PutLeaves(s, i, l.(rx := o.rx, tx := l.tx.(closing := l.tx.closing || o.dead)), i);
  }

  lemma FinishLeaves(s: Server, i: int)
    requires Ok(s) && Live(s, i) && SettledSlot(s.slots[i])
    ensures var r := FinishSlot(s, i);
            Leaves(s, r, i) && SettledSlot(r.slots[i])
            && (At(s, i).tx.closing ==> r.slots[i].None? && r.closed == s.closed + [At(s, i)])
  {
    var l := At(s, i);
    var r := FinishSlot(s, i);
    FlushKeepsFifo(l.tx);
    if l.gentle && !l.tx.closing {
      FlushClean(l.tx);
    }
    if r.slots[i].Some? {
      PutLeaves(s, i, l.(tx := Flush(l.tx)), i);
    } else {
      forall j, k | 0 <= j < k < |r.slots|
        ensures Apart(r.slots[j], r.slots[k])
      {
        assert Apart(s.slots[j], s.slots[k]);
      }
    }
  }

  /** One connection's turn: every invariant kept, every other connection where it
      was, and this one gone if it was doomed when its turn came. */
  lemma ServiceSlotLeaves(s: Server, i: int, rev: Revents)
    requires Ok(s) && Live(s, i) && SettledSlot(s.slots[i])
    ensures var r := ServiceSlot(s, i, rev);
            Leaves(Begin(s, i), r, i) && SettledSlot(r.slots[i])
            && (At(s, i).tx.closing ==> r.slots[i].None? && r.closed == s.closed + [At(s, i)])
  {
    var s0 := Begin(s, i);
    var s1 := if rev.hangup then Doom(s0, i) else s0;
    if rev.hangup {
      DoomLeaves(s0, i);
    }
    if !At(s1, i).tx.closing && rev.readable {
      ReadLeaves(s1, i);
      var s2 := ReadSlot(s1, i);
      DrainLeaves(s2, i);
      LeavesTrans(s1, s2, Drain(s2, i), i);
      FinishLeaves(Drain(s2, i), i);
      LeavesTrans(s1, Drain(s2, i), ServiceSlot(s, i, rev), i);
    } else {
      FinishLeaves(s1, i);
    }
    if rev.hangup {
      LeavesTrans(s0, s1, ServiceSlot(s, i, rev), i);
    }
  }

  // ---- one pass -------------------------------------------------------

  /** Entries as ipc_server_collect_pollfds() leaves them: slots ascending, each
      entry that of the connection now in its slot. */
  ghost predicate Collected(s: Server, es: seq<Entry>) {
    && (forall k :: 0 <= k < |es| ==> Current(s, es[k]))
    && (forall j, k :: 0 <= j < k < |es| ==> es[j].slot < es[k].slot)
  }

  /** The serials of the connections the entries name. */
  function SerialsOf(s: Server, es: seq<Entry>): seq<nat>
    requires forall k :: 0 <= k < |es| ==> Current(s, es[k])
  {
    seq(|es|, k requires 0 <= k < |es| && Current(s, es[k]) => At(s, es[k].slot).serial)
  }

  /** What a client loop over the entries makes of the server. */
  ghost predicate ServedThrough(s: Server, es: seq<Entry>, r: Server)
    requires Collected(s, es)
  {
    Persists(s, r) && r.next == s.next && r.served == s.served + SerialsOf(s, es)
    && UnlistedSame(s, es, r)
    && AllCleared(s, es, r)
  }

  ghost predicate AllCleared(s: Server, es: seq<Entry>, r: Server) {
    forall k :: 0 <= k < |es| && Live(s, es[k].slot) ==> Cleared(s, es[k].slot, r)
  }

  /** A doomed connection is gone; if bytes were waiting, none went out any more. */
  ghost predicate Cleared(s: Server, i: int, r: Server)
    requires Live(s, i)
  {
    var l := At(s, i);
    (l.tx.closing ==> !Live(r, i)) && (Stuck(l.tx) ==> Ended(r, l.serial, l.tx.wire))
  }

  ghost predicate Unlisted(es: seq<Entry>, j: int) {
    forall k :: 0 <= k < |es| ==> es[k].slot != j
  }

  lemma PersistsTrans(s: Server, r: Server, t: Server)
    requires Persists(s, r) && Persists(r, t)
    ensures Persists(s, t)
  {
    forall j | 0 <= j < |s.slots|
      ensures SlotPersists(s.slots[j], t.slots[j], s.next)
    {
      assert SlotPersists(s.slots[j], r.slots[j], s.next) && SlotPersists(r.slots[j], t.slots[j], r.next);
    }
  }

  /** The entries still to come are untouched by the first one's turn. */
  lemma RestStaysCurrent(s: Server, s1: Server, es: seq<Entry>)
    requires es != [] && Collected(s, es) && |s1.slots| == |s.slots|
    requires forall j :: 0 <= j < |s.slots| && j != es[0].slot ==> SameConnection(s.slots[j], s1.slots[j])
    ensures Collected(s1, es[1..]) && Current(s, es[0])
    ensures SerialsOf(s, es) == [At(s, es[0].slot).serial] + SerialsOf(s1, es[1..])
  {
    assert Current(s, es[0]);
    var rest := es[1..];
    forall k | 0 <= k < |rest|
      ensures Current(s1, rest[k]) && At(s1, rest[k].slot).serial == At(s, es[k + 1].slot).serial
    {
      var e := es[k + 1];
      assert rest[k] == e && Current(s, e) && e.slot != es[0].slot;
      assert SameConnection(s.slots[e.slot], s1.slots[e.slot]);
    }
  }

  /** What one connection's turn makes of the server. */
  ghost predicate TurnDone(s: Server, r: Server, i: int)
    requires Live(s, i)
  {
    Persists(s, r) && r.next == s.next && r.served == s.served + [At(s, i).serial]
    && OthersSame(s, r, i)
  }

  lemma FirstTurn(s: Server, es: seq<Entry>)
    requires Ok(s) && Settled(s) && Collected(s, es) && es != []
    ensures Current(s, es[0])
    ensures var s1 := ServiceSlot(s, es[0].slot, es[0].rev);
            Ok(s1) && Settled(s1) && TurnDone(s, s1, es[0].slot) && Collected(s1, es[1..])
            && SerialsOf(s, es) == [At(s, es[0].slot).serial] + SerialsOf(s1, es[1..])
            && Cleared(s, es[0].slot, s1)
  {
    assert Current(s, es[0]);
    var i := es[0].slot;
    assert SettledBut(s, i);
    ServiceSlotLeaves(s, i, es[0].rev);
    var s1 := ServiceSlot(s, i, es[0].rev);
    assert At(s, i).tx.closing ==> s1.closed[|s.closed|] == At(s, i);
    RestStaysCurrent(s, s1, es);
  }

  /** A whole client loop: the guard that looks for recycled slots never fires, so
      the connections that get turns are those the entries were collected for, each
      one once and in order; and no connection doomed beforehand survives its turn. */
  lemma {:induction false} ServiceAllServes(s: Server, es: seq<Entry>)
    requires Ok(s) && Settled(s) && Collected(s, es)
    ensures var r := ServiceAll(s, es); Ok(r) && Settled(r) && ServedThrough(s, es, r)
    decreases |es|
  {
    if es != [] {
      FirstTurn(s, es);
      var s1 := ServiceSlot(s, es[0].slot, es[0].rev);
      ServiceAllServes(s1, es[1..]);
      ServedStep(s, es, s1, ServiceAll(s, es));
    }
  }

  /** Slots other than `i` hold the connections they held. */
  ghost predicate OthersSame(s: Server, r: Server, i: int) {
    |r.slots| == |s.slots|
    && forall j :: 0 <= j < |s.slots| && j != i ==> SameConnection(s.slots[j], r.slots[j])
  }

  ghost predicate UnlistedSame(s: Server, es: seq<Entry>, r: Server) {
    |r.slots| == |s.slots|
    && forall j :: 0 <= j < |s.slots| && Unlisted(es, j) ==> SameConnection(s.slots[j], r.slots[j])
  }

  lemma UnlistedStep(s: Server, es: seq<Entry>, s1: Server, r: Server)
    requires es != [] && OthersSame(s, s1, es[0].slot) && UnlistedSame(s1, es[1..], r)
    ensures UnlistedSame(s, es, r)
  {
    forall j | 0 <= j < |s.slots| && Unlisted(es, j)
      ensures SameConnection(s.slots[j], r.slots[j])
    {
      assert Unlisted(es[1..], j);
      assert j != es[0].slot;
      assert SameConnection(s.slots[j], s1.slots[j]) && SameConnection(s1.slots[j], r.slots[j]);
    }
  }

  lemma ClearedStep(s: Server, es: seq<Entry>, s1: Server, r: Server, k: nat)
    requires k < |es| && Collected(s, es) && Live(s, es[0].slot) && Live(s, es[k].slot)
    requires OthersSame(s, s1, es[0].slot) && Cleared(s, es[0].slot, s1) && UnlistedSame(s1, es[1..], r)
    requires s1.closed <= r.closed && AllCleared(s1, es[1..], r)
    ensures Cleared(s, es[k].slot, r)
  {
    var j := es[k].slot;
    if k == 0 {
      assert Unlisted(es[1..], j);
      assert SameConnection(s1.slots[j], r.slots[j]);
      EndedStays(s1, r, At(s, j).serial, At(s, j).tx.wire);
    } else {
      assert es[1..][k - 1] == es[k];
      assert SameConnection(s.slots[j], s1.slots[j]);
      assert Cleared(s1, j, r);
    }
  }

  lemma AllClearedStep(s: Server, es: seq<Entry>, s1: Server, r: Server)
    requires es != [] && Collected(s, es) && Live(s, es[0].slot)
    requires OthersSame(s, s1, es[0].slot) && Cleared(s, es[0].slot, s1) && UnlistedSame(s1, es[1..], r)
    requires s1.closed <= r.closed && AllCleared(s1, es[1..], r)
    ensures AllCleared(s, es, r)
  {
    forall k | 0 <= k < |es| && Live(s, es[k].slot)
      ensures Cleared(s, es[k].slot, r)
    {
      ClearedStep(s, es, s1, r, k);
    }
  }

  lemma ServedStep(s: Server, es: seq<Entry>, s1: Server, r: Server)
    requires es != [] && Collected(s, es) && Current(s, es[0])
    requires TurnDone(s, s1, es[0].slot) && Cleared(s, es[0].slot, s1)
    requires Collected(s1, es[1..]) && SerialsOf(s, es) == [At(s, es[0].slot).serial] + SerialsOf(s1, es[1..])
    requires ServedThrough(s1, es[1..], r)
    ensures ServedThrough(s, es, r)
  {
    PersistsTrans(s, s1, r);
    UnlistedStep(s, es, s1, r);
    AllClearedStep(s, es, s1, r);
  }

  lemma EndedStays(s: Server, r: Server, serial: nat, wire: seq<byte>)
    requires s.closed <= r.closed
    ensures Ended(s, serial, wire) ==> Ended(r, serial, wire)
  {
    if Ended(s, serial, wire) {
      var k :| 0 <= k < |s.closed| && s.closed[k].serial == serial && s.closed[k].tx.wire == wire;
      assert r.closed[k] == s.closed[k];
    }
  }

  // ---- whole runs -----------------------------------------------------

  /** Every live connection gets exactly one entry, and nothing else gets one. */
  lemma {:induction false} CollectSorted(s: Server, from: nat)
    requires from <= |s.slots|
    ensures Collected(s, Collect(s, from))
    ensures forall k :: 0 <= k < |Collect(s, from)| ==> from <= Collect(s, from)[k].slot
    decreases |s.slots| - from
  {
    if from < |s.slots| {
      CollectSorted(s, from + 1);
      if Live(s, from) {
        var es, rest := Collect(s, from), Collect(s, from + 1);
        assert es == [Entry(from, At(s, from).fd, NOTHING)] + rest;
      }
    }
  }

  lemma {:induction false} CollectHas(s: Server, from: nat, i: int) returns (k: nat)
    requires from <= i && Live(s, i)
    ensures k < |Collect(s, from)| && Collect(s, from)[k].slot == i
    decreases |s.slots| - from
  {
    if from == i {
      k := 0;
    } else {
      k := CollectHas(s, from + 1, i);
      if Live(s, from) {
        k := k + 1;
      }
    }
  }

  lemma NewLinkOk(serial: nat, a: Arrival)
    requires a.Accepted?
    ensures LinkOk(NewLink(serial, a))
  {
    assert Stream([]) == [];
    PrependNothing(Parse([]));
  }

  /** Accepting touches no connection that is already there. */
  lemma AdmitKeeps(s: Server, a: Arrival)
    requires Ok(s) && Settled(s)
    ensures var r := Admit(s, a);
            Ok(r) && Settled(r) && Persists(s, r) && r.served == s.served
            && forall i :: Live(s, i) ==> Live(r, i) && At(r, i) == At(s, i)
  {
    var r := Admit(s, a);
    var f := FreeSlot(s, 0);
    if a.Accepted? && f != -1 {
      NewLinkOk(s.next, a);
      forall j, k | 0 <= j < k < |r.slots|
        ensures Apart(r.slots[j], r.slots[k])
      {
        assert Apart(s.slots[j], s.slots[k]) && SlotOk(s.slots[j], s.next) && SlotOk(s.slots[k], s.next);
      }
    }
  }

  lemma {:induction false} AdmitAllKeeps(s: Server, arrivals: seq<Arrival>)
    requires Ok(s) && Settled(s)
    ensures var r := AdmitAll(s, arrivals);
            Ok(r) && Settled(r) && Persists(s, r) && r.served == s.served
            && forall i :: Live(s, i) ==> Live(r, i) && At(r, i) == At(s, i)
    decreases |arrivals|
  {
    if arrivals != [] {
      var s1 := Admit(s, arrivals[0]);
      AdmitKeeps(s, arrivals[0]);
      AdmitAllKeeps(s1, arrivals[1..]);
      PersistsTrans(s, s1, AdmitAll(s, arrivals));
    }
  }

  /** Every connection there at the start of a pass, in slot order. */
  function Present(s: Server): seq<nat>
    requires Collected(s, Collect(s, 0))
  {
    SerialsOf(s, Collect(s, 0))
  }

  /** The server when the client loop starts. */
  function AfterAccepting(s: Server, t: Turn): Server {
    if t.accepting then AdmitAll(s, t.arrivals) else s
  }

  lemma PolledStaysCurrent(s: Server, t: Turn)
    requires Ok(s) && Settled(s)
    ensures var s1, ps := AfterAccepting(s, t), Polled(Collect(s, 0), t.revs);
            Ok(s1) && Settled(s1) && Persists(s, s1) && Collected(s, Collect(s, 0)) && Collected(s1, ps)
            && SerialsOf(s1, ps) == Present(s) && s1.served == s.served
            && forall i :: Live(s, i) ==> Live(s1, i) && At(s1, i) == At(s, i)
  {
    CollectSorted(s, 0);
    AdmitAllKeeps(s, t.arrivals);
    var es, s1 := Collect(s, 0), AfterAccepting(s, t);
    forall k | 0 <= k < |es|
      ensures Current(s1, es[k]) && At(s1, es[k].slot) == At(s, es[k].slot)
    {
      assert Current(s, es[k]);
    }
  }

  /** One collect, poll, service turn, whatever happens in it: each connection
      present at the start is served exactly once and on its own entry, although
      others are accepted in between; and the invariant stands at the end. */
  lemma PassServes(s: Server, t: Turn)
    requires Ok(s) && Settled(s)
    ensures var r := Pass(s, t); Ok(r) && Settled(r) && Persists(s, r)
    ensures Collected(s, Collect(s, 0)) && Pass(s, t).served == s.served + Present(s)
  {
    PolledStaysCurrent(s, t);
    ServiceAllServes(AfterAccepting(s, t), Polled(Collect(s, 0), t.revs));
    PersistsTrans(s, AfterAccepting(s, t), Pass(s, t));
  }

  /** No connection doomed at the start of a pass survives it; and if bytes were waiting,
      its wire stays as it is until it is closed, whoever sends to it in between. */
  lemma PassClosesDoomed(s: Server, t: Turn, i: int)
    requires Ok(s) && Settled(s) && Live(s, i) && At(s, i).tx.closing
    ensures Cleared(s, i, Pass(s, t))
  {
    PolledStaysCurrent(s, t);
    var s1, ps := AfterAccepting(s, t), Polled(Collect(s, 0), t.revs);
    ServiceAllServes(s1, ps);
    var k := CollectHas(s, 0, i);
    assert ps[k].slot == i && At(s1, i) == At(s, i);
    assert Cleared(s1, i, Pass(s, t));
  }

  lemma EmptyOk(state: StateImage)
    ensures Ok(Empty(state)) && Settled(Empty(state)) && |Empty(state).slots| == 32
  {
  }

  /** Every state the server can reach. */
  lemma {:induction false} ReachableOk(s: Server, ts: seq<Turn>)
    requires Ok(s) && Settled(s)
    ensures var r := Passes(s, ts); Ok(r) && Settled(r) && Persists(s, r)
    decreases |ts|
  {
    if ts != [] {
      PassServes(s, ts[0]);
      ReachableOk(Pass(s, ts[0]), ts[1..]);
      PersistsTrans(s, Pass(s, ts[0]), Passes(s, ts));
    }
  }

  // ---- what a user of the bus may rely on -----------------------------

  /** In every reachable state, on every connection not marked for closing: what
      went out followed by what waits is exactly what was queued, the peer reads
      whole messages of it in order, and it can tell nothing of how the sends
      were cut up. */
  lemma OutputIsFifo(state: StateImage, ts: seq<Turn>, i: int)
    requires var r := Passes(Empty(state), ts); Live(r, i) && !At(r, i).tx.closing
    ensures var t := At(Passes(Empty(state), ts), i).tx;
            t.wire + t.pending == Stream(t.outbox) && |t.pending| <= t.cap <= 262144
            && !Parse(t.wire).oversized && Parse(t.wire).msgs <= t.outbox
  {
    EmptyOk(state);
    ReachableOk(Empty(state), ts);
    var r := Passes(Empty(state), ts);
    assert SlotOk(r.slots[i], r.next);
    var t := At(r, i).tx;
    WireParses(t);
    CapBounded(t.cap);
  }

  lemma CapBounded(cap: nat)
    requires CapOk(cap)
    ensures cap <= BACKLOG_LIMIT
  {
    if cap != 0 {
      var k: nat :| k <= 6 && cap == Pages(k);
      PagesGrow(k, 6);
      assert Pages(6) == BACKLOG_LIMIT;
    }
  }

  /** Over whole runs: whatever connection is doomed with bytes waiting, as after a backlog
      overflow, and whatever turns follow, it is closed with just what was on its wire. */
  lemma StuckWireIsFinal(state: StateImage, ts: seq<Turn>, i: int, more: seq<Turn>)
    requires var s := Passes(Empty(state), ts); Live(s, i) && Stuck(At(s, i).tx) && more != []
    ensures var s := Passes(Empty(state), ts);
            Ended(Passes(s, more), At(s, i).serial, At(s, i).tx.wire)
  {
    EmptyOk(state);
    ReachableOk(Empty(state), ts);
    var s := Passes(Empty(state), ts);
    PassClosesDoomed(s, more[0], i);
    PassServes(s, more[0]);
    ReachableOk(Pass(s, more[0]), more[1..]);
    EndedStays(Pass(s, more[0]), Passes(s, more), At(s, i).serial, At(s, i).tx.wire);
  }

  /** In every reachable state, on every connection: what was received, followed by what
      is still to come, is all its peer sends; what was dispatched is a prefix of the
      one-shot parse of what was received, however it arrived; on one not
      marked for closing it is all of it, the buffer holds just the unfinished
      tail, and there is room for more, so that only a real end of the connection is ever
      taken for one. */
  lemma InputIsParsed(state: StateImage, ts: seq<Turn>, i: int)
    requires Live(Passes(Empty(state), ts), i)
    ensures var l := At(Passes(Empty(state), ts), i);
            l.rx.received + Incoming(l.rx.recvs) == l.rx.supply
            && l.rx.handled <= Parse(l.rx.received).msgs
            && (!l.tx.closing ==> Parse(l.rx.received) == Parsed(l.rx.handled, l.rx.rest, false)
                                  && |l.rx.rest| < RX_SIZE
                                  && (StaysUp(l.rx.recvs) ==> !ReceiveAll(l.rx).dead))
  {
    EmptyOk(state);
    ReachableOk(Empty(state), ts);
    var r := Passes(Empty(state), ts);
    assert SlotOk(r.slots[i], r.next) && SettledSlot(r.slots[i]);
    var l := At(r, i);
    if !l.tx.closing {
      QuietMeansParsed(l.rx);
      QuietHasRoom(l.rx);
      if StaysUp(l.rx.recvs) {
        NoFalseEnd(l.rx);
      }
    }
  }

  /** In every reachable state a name has at most one holder, and is not empty. */
  lemma NamesAreUnique(state: StateImage, ts: seq<Turn>, i: int, j: int)
    requires var r := Passes(Empty(state), ts); Registered(r, i) && Registered(r, j)
    ensures var r := Passes(Empty(state), ts);
            At(r, i).name != [] && (At(r, i).name == At(r, j).name ==> i == j)
  {
    EmptyOk(state);
    ReachableOk(Empty(state), ts);
    var r := Passes(Empty(state), ts);
    assert SlotOk(r.slots[i], r.next);
    if At(r, i).name == At(r, j).name {
      SharedNameMeansSame(r, i, j);
    }
  }

  lemma SharedNameMeansSame(s: Server, i: int, j: int)
    requires Ok(s) && Registered(s, i) && Registered(s, j) && At(s, i).name == At(s, j).name
    ensures i == j
  {
    var a, b := if i < j then i else j, if i < j then j else i;
    assert a < b ==> Apart(s.slots[a], s.slots[b]);
  }

  /** Two states are the same but for the connection in slot `i`. */
  ghost predicate OnlyDiffersAt(s: Server, r: Server, i: int) {
    |s.slots| == |r.slots| && s.next == r.next && s.closed == r.closed && s.served == r.served
    && s.dispatched == r.dispatched
    && forall j :: 0 <= j < |s.slots| && j != i ==> s.slots[j] == r.slots[j]
  }

  /** A relayed message reaches the one holder of its destination name with the
      sender's true name and its bytes unchanged, and nobody else; without a holder
      the sender is told so, and nobody else hears of it. */
  lemma SendRoutes(s: Server, i: int, payload: seq<byte>)
    requires Ok(s) && Registered(s, i) && NAME_SIZE <= |payload| <= MAX_PAYLOAD
    ensures var r, dest, data := Handle(s, i, Msg(SEND, payload)), NameIn(payload), payload[NAME_SIZE..];
            r.state == s.state && r.saves == s.saves
            && (forall t :: Holds(s, t, dest) ==>
                  OnlyDiffersAt(s, r, t)
                  && At(r, t).tx.outbox == At(s, t).tx.outbox + [Msg(DELIVER, Field(At(s, i).name) + data)])
            && ((forall t :: !Holds(s, t, dest)) ==>
                  OnlyDiffersAt(s, r, i)
                  && At(r, i).tx.outbox == At(s, i).tx.outbox + [ErrorMsg(UNKNOWN_DEST)])
  {
    var dest := NameIn(payload);
    var t := Find(s, dest, -1, 0);
    if t == -1 {
      QueueKeepsFifo(At(s, i).tx, ErrorMsg(UNKNOWN_DEST));
    } else {
      QueueKeepsFifo(At(s, t).tx, Msg(DELIVER, Field(At(s, i).name) + payload[NAME_SIZE..]));
      forall u | Holds(s, u, dest)
        ensures u == t
      {
        assert t <= u;
        if t < u {
          SharedNameMeansSame(s, t, u);
        }
      }
    }
  }

  /** Before it registers, a connection can change neither the shared state nor
      any other connection; and it ends up registered, under the name it asked
      for, exactly when that name is non-empty and free. */
  lemma UnregisteredIsIsolated(s: Server, i: int, m: WireMsg)
    requires Ok(s) && Live(s, i) && !At(s, i).registered
    ensures var r := Handle(s, i, m);
            OnlyDiffersAt(s, r, i) && r.state == s.state && r.saves == s.saves
            && (Registered(r, i) <==>
                  m.typ == REGISTER && NAME_SIZE <= |m.payload| && NameIn(m.payload) != []
                  && forall j :: !Holds(s, j, NameIn(m.payload)))
            && (Registered(r, i) ==> At(r, i).name == NameIn(m.payload))
            && (!Registered(r, i) ==> At(r, i).tx.closing)
  {
    var wants := m.typ == REGISTER && NAME_SIZE <= |m.payload| && NameIn(m.payload) != [];
    if wants {
      var name := NameIn(m.payload);
      var h := Find(s, name, i, 0);
      assert h != -1 ==> Holds(s, h, name);
      assert h == -1 ==> forall j :: Holds(s, j, name) ==> j == i;
    }
  }

  /** The shared state is a register: a registered client reads what was last written,
      a well-formed write replaces it and is confirmed with the new value, nothing else
      changes it, nobody but the client hears of it, and each write goes to the store. */
  lemma StateIsRegister(s: Server, i: int, m: WireMsg)
    requires Ok(s) && Registered(s, i)
    ensures var r := Handle(s, i, m);
            (m.typ == STATE_GET || (m.typ == STATE_SET && |m.payload| == Record.STATE_SIZE) ==>
               OnlyDiffersAt(s, r, i) && At(r, i).tx.outbox == At(s, i).tx.outbox + [Msg(STATE_VALUE, r.state)])
            && (if m.typ == STATE_SET && |m.payload| == Record.STATE_SIZE
                then r.state == m.payload && r.saves == s.saves + [m.payload]
                else r.state == s.state && r.saves == s.saves)
  {
    if m.typ == STATE_GET {
      QueueKeepsFifo(At(s, i).tx, Msg(STATE_VALUE, s.state));
    } else if m.typ == STATE_SET && |m.payload| == Record.STATE_SIZE {
      QueueKeepsFifo(At(s, i).tx, Msg(STATE_VALUE, m.payload));
    }
  }
}
