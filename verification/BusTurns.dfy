/** What a connection's turn does do: read, end, send, close. */
module BusTurns {
  import opened Bytes
  import opened Framing
  import opened Names
  import opened Transmit
  import opened TransmitExact
  import opened Receive
  import opened ReceiveExact
  import opened Bus
  import opened BusProofs
  import Record

  // ---- one turn -------------------------------------------------------

  /** The connection of slot `i` after its turn: still there, or closed just now. */
  function After(s: Server, r: Server, i: int): Link
    requires Live(r, i) || |s.closed| < |r.closed|
  {
    if Live(r, i) then At(r, i) else r.closed[|s.closed|]
  }

  /** The parse loop reads nothing from the socket. */
  lemma {:induction false} DrainKeepsInput(s: Server, i: int)
    requires Live(s, i)
    ensures var r := Drain(s, i);
            r.closed == s.closed && At(r, i).serial == At(s, i).serial && At(r, i).rx.received == At(s, i).rx.received
            && (At(s, i).tx.closing ==> r == s)
    decreases if Live(s, i) then |At(s, i).rx.rest| else 0
  {
    var l := At(s, i);
    if !l.tx.closing && !Oversized(l.rx.rest) && HasMessage(l.rx.rest) {
      var m := First(l.rx.rest);
      assert SameLinks(Note(s, i, m), Handle(Note(s, i, m), i, m));
      DrainKeepsInput(HandleFirst(s, i), i);
    }
  }

  /** The end of a turn: what waits goes out as far as the socket takes it; the connection
      is closed exactly if it was marked, or the socket fails while bytes still wait. */
  lemma FinishExact(s: Server, i: int)
    requires Live(s, i)
    ensures var l, r := At(s, i), FinishSlot(s, i);
            |r.slots| == |s.slots|
            && (Live(r, i) <==> !l.tx.closing && !(Uptake(l.tx.sends) < |l.tx.pending| && Fails(l.tx.sends)))
            && (!Live(r, i) ==> |r.closed| == |s.closed| + 1)
            && After(s, r, i).serial == l.serial && After(s, r, i).rx == l.rx
            && (l.tx.closing ==> After(s, r, i).tx == l.tx)
            && (!l.tx.closing ==> FlushedUp(l.tx, After(s, r, i).tx))
  {
    FlushExact(At(s, i).tx);
  }

  /** A turn with something to read: everything there is, as far as there is room; and an
      end of file or an error found on the way closes the connection. */
  lemma TurnReads(s: Server, i: int, rev: Revents)
    requires Ok(s) && Live(s, i) && SettledSlot(s.slots[i]) && !At(s, i).tx.closing && !rev.hangup && rev.readable
    ensures var l, r := At(s, i), ServiceSlot(s, i, rev);
            var a := Available(l.rx.recvs);
            |l.rx.rest| < 4104 && (Live(r, i) || |s.closed| < |r.closed|)
            && After(s, r, i).serial == l.serial
            && After(s, r, i).rx.received == l.rx.received + a[..Min(|a|, 4104 - |l.rx.rest|)]
            && (|l.rx.rest| + |a| < 4104 && Ends(l.rx.recvs) ==> !Live(r, i))
  {
    var l := At(s, i);
    QuietHasRoom(l.rx);
    ReceivesUp(l.rx);
    var s1 := ReadSlot(Begin(s, i), i);
    DrainKeepsInput(s1, i);
    FinishExact(Drain(s1, i), i);
  }

  /** A turn with nothing to read: what waits goes out as far as the socket takes it. */
  lemma TurnSends(s: Server, i: int, rev: Revents)
    requires Live(s, i) && !At(s, i).tx.closing && !rev.hangup && !rev.readable
    ensures var l, r := At(s, i), ServiceSlot(s, i, rev);
            (Live(r, i) <==> !(Uptake(l.tx.sends) < |l.tx.pending| && Fails(l.tx.sends)))
            && (!Live(r, i) ==> |s.closed| < |r.closed|)
            && After(s, r, i).rx == l.rx && FlushedUp(l.tx, After(s, r, i).tx)
  {
    FinishExact(Begin(s, i), i);
  }

  /** A turn in which poll() reports a hangup: the connection is closed, and nothing is
      read or sent any more. */
  lemma TurnHangsUp(s: Server, i: int, rev: Revents)
    requires Live(s, i) && rev.hangup
    ensures var l, r := At(s, i), ServiceSlot(s, i, rev);
            !Live(r, i) && |s.closed| < |r.closed|
            && After(s, r, i).rx == l.rx && After(s, r, i).tx == l.tx.(closing := true)
  {
    FinishExact(Doom(Begin(s, i), i), i);
  }

  // ---- what does not close a connection -------------------------------

  /** A healthy connection whose socket does not fail, with room for one more message. */
  predicate Roomy(l: Link) {
    l.gentle && !l.tx.closing && |l.tx.pending| + 4104 <= 262144
  }

  lemma ReplyKeepsOpen(s: Server, t: int, m: WireMsg, j: int)
    requires Ok(s) && Live(s, t) && |m.payload| <= 4096 && Live(s, j) && Roomy(At(s, j))
    ensures var r := Reply(s, t, m); Live(r, j) && !At(r, j).tx.closing
  {
    if t == j {
      assert SlotOk(s.slots[t], s.next);
      ApplyStaysOpen(At(s, t).tx, DoQueue(m));
    }
  }

  lemma SendKeepsOpen(s: Server, i: int, payload: seq<byte>, j: int)
    requires Ok(s) && Live(s, i) && |payload| <= 4096 && Live(s, j) && Roomy(At(s, j))
    ensures var r := HandleSend(s, i, payload); Live(r, j) && !At(r, j).tx.closing
  {
    if NAME_SIZE <= |payload| {
      var t := Find(s, NameIn(payload), -1, 0);
      if t == -1 {
        ReplyKeepsOpen(s, i, ErrorMsg(UNKNOWN_DEST), j);
      } else {
        ReplyKeepsOpen(s, t, Msg(DELIVER, Field(At(s, i).name) + payload[NAME_SIZE..]), j);
      }
    } else {
      ReplyKeepsOpen(s, i, ErrorMsg(BAD_MESSAGE), j);
    }
  }

  /** A well-formed write changes no connection but by its answer. */
  lemma SetKeepsOpen(s: Server, i: int, image: StateImage, j: int)
    requires Ok(s) && Live(s, i) && Live(s, j) && Roomy(At(s, j))
    ensures var r := Reply(SetState(s, image), i, Msg(STATE_VALUE, image)); Live(r, j) && !At(r, j).tx.closing
  {
    ReplyKeepsOpen(s, i, Msg(STATE_VALUE, image), j);
  }

  /** Whatever message is dispatched for `i`, it does not close such a connection, unless
      that is `i` itself failing to register. */
  lemma HandleKeepsOpen(s: Server, i: int, m: WireMsg, j: int)
    requires Ok(s) && Live(s, i) && |m.payload| <= 4096 && Live(s, j) && Roomy(At(s, j))
    requires At(s, i).registered || i != j
    ensures var r := Handle(s, i, m); Live(r, j) && !At(r, j).tx.closing
  {
    if !At(s, i).registered {
      UnregisteredIsIsolated(s, i, m);
    } else if m.typ == SEND {
      SendKeepsOpen(s, i, m.payload, j);
    } else if m.typ == STATE_SET && |m.payload| == Record.STATE_SIZE {
      SetKeepsOpen(s, i, m.payload, j);
    } else if m.typ == STATE_GET {
      ReplyKeepsOpen(s, i, Msg(STATE_VALUE, s.state), j);
    } else {
      ReplyKeepsOpen(s, i, if m.typ == PING then Msg(PONG, []) else ErrorMsg(BAD_MESSAGE), j);
    }
  }

  /** Nor does its own turn, if there is nothing to read. */
  lemma TurnKeepsOpen(s: Server, i: int, rev: Revents)
    requires Ok(s) && Live(s, i) && At(s, i).gentle && !At(s, i).tx.closing && !rev.hangup && !rev.readable
    ensures Live(ServiceSlot(s, i, rev), i)
  {
    assert SlotOk(s.slots[i], s.next);
    TurnSends(s, i, rev);
    GentleFlush(At(s, i).tx);
  }

  // ---- one pass -------------------------------------------------------

  /** What a pass owes to a connection, given what poll() reports for it. */
  ghost predicate Attended(l: Link, rev: Revents, r: Server, i: int) {
    var a := Available(l.rx.recvs);
    |l.rx.rest| < 4104
    && (rev.hangup ==> !Live(r, i))
    && (rev.readable && |l.rx.rest| + |a| < 4104 && Ends(l.rx.recvs) ==> !Live(r, i))
    && (Live(r, i) ==>
          At(r, i).serial == l.serial
          && At(r, i).rx.received
             == if rev.readable then l.rx.received + a[..Min(|a|, 4104 - |l.rx.rest|)] else l.rx.received)
  }

  lemma TurnAttends(s: Server, i: int, rev: Revents)
    requires Ok(s) && Live(s, i) && SettledSlot(s.slots[i]) && !At(s, i).tx.closing
    ensures Attended(At(s, i), rev, ServiceSlot(s, i, rev), i)
  {
    QuietHasRoom(At(s, i).rx);
    if rev.hangup {
      TurnHangsUp(s, i, rev);
    } else if rev.readable {
      TurnReads(s, i, rev);
    } else {
      TurnSends(s, i, rev);
    }
  }

  /** Other turns change nothing about it. */
  lemma AttendedStays(l: Link, rev: Revents, r: Server, r': Server, i: int)
    requires Attended(l, rev, r, i) && 0 <= i < |r.slots| == |r'.slots| && SameConnection(r.slots[i], r'.slots[i])
    ensures Attended(l, rev, r', i)
  {
  }

  lemma AttendedAlike(l: Link, l': Link, rev: Revents, r: Server, i: int)
    requires Attended(l', rev, r, i) && l.rx == l'.rx && l.serial == l'.serial
    ensures Attended(l, rev, r, i)
  {
  }

  lemma FirstIsAttended(s: Server, es: seq<Entry>)
    requires Ok(s) && Settled(s) && Collected(s, es) && es != []
    requires Live(s, es[0].slot) && !At(s, es[0].slot).tx.closing
    ensures Attended(At(s, es[0].slot), es[0].rev, ServiceAll(s, es), es[0].slot)
  {
    var i := es[0].slot;
    FirstTurn(s, es);
    var s1, rest := ServiceSlot(s, i, es[0].rev), es[1..];
    ServiceAllServes(s1, rest);
    assert SettledSlot(s.slots[i]);
    TurnAttends(s, i, es[0].rev);
    assert Unlisted(rest, i);
    AttendedStays(At(s, i), es[0].rev, s1, ServiceAll(s1, rest), i);
  }

  lemma {:induction false} LoopAttends(s: Server, es: seq<Entry>, k: nat)
    requires Ok(s) && Settled(s) && Collected(s, es) && k < |es|
    requires Live(s, es[k].slot) && !At(s, es[k].slot).tx.closing
    ensures Attended(At(s, es[k].slot), es[k].rev, ServiceAll(s, es), es[k].slot)
    decreases |es|
  {
    if k == 0 {
      FirstIsAttended(s, es);
    } else {
      var s1 := NextTurn(s, es, k);
      if At(s1, es[k].slot).tx.closing {
        DoomedIsAttended(s, s1, es[1..], k - 1);
      } else {
        LoopAttends(s1, es[1..], k - 1);
        AttendedAlike(At(s, es[k].slot), At(s1, es[k].slot), es[k].rev, ServiceAll(s1, es[1..]), es[k].slot);
      }
    }
  }

  /** After the first turn, seen from a connection yet to come. */
  lemma NextTurn(s: Server, es: seq<Entry>, k: nat) returns (s1: Server)
    requires Ok(s) && Settled(s) && Collected(s, es) && 0 < k < |es| && Live(s, es[k].slot)
    ensures Ok(s1) && Settled(s1) && Collected(s1, es[1..]) && es[1..][k - 1] == es[k]
    ensures ServiceAll(s, es) == ServiceAll(s1, es[1..]) && SettledSlot(s.slots[es[k].slot])
    ensures Live(s1, es[k].slot) && At(s1, es[k].slot).rx == At(s, es[k].slot).rx
            && At(s1, es[k].slot).serial == At(s, es[k].slot).serial
  {
    FirstTurn(s, es);
    s1 := ServiceSlot(s, es[0].slot, es[0].rev);
    var i := es[k].slot;
    assert SameConnection(s.slots[i], s1.slots[i]);
  }

  /** Marked by another's turn, it is closed in any case. */
  lemma DoomedIsAttended(s: Server, s1: Server, es: seq<Entry>, k: nat)
    requires Ok(s1) && Settled(s1) && Collected(s1, es) && k < |es|
    requires Live(s1, es[k].slot) && At(s1, es[k].slot).tx.closing
    requires Live(s, es[k].slot) && SettledSlot(s.slots[es[k].slot]) && !At(s, es[k].slot).tx.closing
    ensures Attended(At(s, es[k].slot), es[k].rev, ServiceAll(s1, es), es[k].slot)
  {
    QuietHasRoom(At(s, es[k].slot).rx);
    ServiceAllServes(s1, es);
    assert Cleared(s1, es[k].slot, ServiceAll(s1, es));
  }

  /** A whole pass, for every connection there at its start and not marked for closing:
      reported a hangup, or an end of file or an error behind what there is to read, it is
      closed; and if it stays, everything there was to read has been read, as far as there
      was room. */
  lemma PassAttends(s: Server, t: Turn, k: nat)
    requires Ok(s) && Settled(s) && k < |Collect(s, 0)|
    ensures var i := Collect(s, 0)[k].slot;
            Live(s, i) && (!At(s, i).tx.closing ==> Attended(At(s, i), t.revs(k), Pass(s, t), i))
  {
    PolledStaysCurrent(s, t);
    var i := Collect(s, 0)[k].slot;
    assert Current(s, Collect(s, 0)[k]);
    if !At(s, i).tx.closing {
      LoopAttends(AfterAccepting(s, t), Polled(Collect(s, 0), t.revs), k);
    }
  }

  // ---- accepting ------------------------------------------------------

  /** How many slots from `i` on are taken. */
  function Taken(slots: seq<Option<Link>>, i: nat): nat
    requires i <= |slots|
    decreases |slots| - i
  {
    if i == |slots| then 0 else (if slots[i].Some? then 1 else 0) + Taken(slots, i + 1)
  }

  lemma {:induction false} TakenMore(slots: seq<Option<Link>>, i: nat, f: nat, l: Link)
    requires i <= |slots| && f < |slots| && slots[f].None?
    ensures Taken(slots[f := Some(l)], i) == Taken(slots, i) + if i <= f then 1 else 0
    decreases |slots| - i
  {
    if i < |slots| {
      TakenMore(slots, i + 1, f, l);
    }
  }

  lemma {:induction false} TakenAll(slots: seq<Option<Link>>, i: nat)
    requires i <= |slots|
    ensures Taken(slots, i) <= |slots| - i
    ensures Taken(slots, i) == |slots| - i <==> forall j :: i <= j < |slots| ==> slots[j].Some?
    decreases |slots| - i
  {
    if i < |slots| {
      TakenAll(slots, i + 1);
    }
  }

  /** How many connections arrive. */
  function Arriving(arrivals: seq<Arrival>): nat {
    if arrivals == [] then 0 else (if arrivals[0].Accepted? then 1 else 0) + Arriving(arrivals[1..])
  }

  lemma AdmitCounts(s: Server, a: Arrival)
    ensures var r := Admit(s, a);
            if a.Accepted? && Taken(s.slots, 0) < |s.slots|
            then
              Taken(r.slots, 0) == Taken(s.slots, 0) + 1 && r.next == s.next + 1
              && exists f :: 0 <= f < |s.slots| && s.slots[f].None? && r.slots == s.slots[f := Some(NewLink(s.next, a))]
                             && forall j :: 0 <= j < f ==> s.slots[j].Some?
            else r == s
  {
    TakenAll(s.slots, 0);
    var f := FreeSlot(s, 0);
    if f != -1 {
      TakenMore(s.slots, 0, f, NewLink(s.next, if a.Accepted? then a else Accepted(0, [], [], [])));
    }
  }

  /** Everyone who connects is let in, in order, as long as there are slots. */
  lemma {:induction false} AllAreAdmitted(s: Server, arrivals: seq<Arrival>)
    ensures var r := AdmitAll(s, arrivals);
            Taken(r.slots, 0) == Min(|s.slots|, Taken(s.slots, 0) + Arriving(arrivals))
            && r.next == s.next + Taken(r.slots, 0) - Taken(s.slots, 0)
    decreases |arrivals|
  {
    TakenAll(s.slots, 0);
    if arrivals != [] {
      AdmitCounts(s, arrivals[0]);
      AllAreAdmitted(Admit(s, arrivals[0]), arrivals[1..]);
    }
  }
}
