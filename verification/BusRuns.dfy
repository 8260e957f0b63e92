/** What the bus server's records say after any run. */
module BusRuns {
  import opened Bytes
  import opened Framing
  import opened Transmit
  import opened Receive
  import opened Bus
  import opened BusProofs
  import opened BusLog
  import opened BusRoutes

  ghost predicate Kept(s: Server, initial: StateImage) {
    Register(s, initial) && Complete(s) && Routed(s, initial)
    && forall k :: 0 <= k < |s.closed| ==> LinkOk(s.closed[k])
  }

  lemma PutKept(s: Server, i: int, l: Link, initial: StateImage)
    requires Live(s, i) && Kept(s, initial) && SameOutput(s.slots[i], Some(l))
    requires l.rx.handled == At(s, i).rx.handled
    ensures Kept(Put(s, i, l), initial)
  {
    PutComplete(s, i, l);
    PutRouted(s, i, l, initial);
  }

  lemma HandleFirstKept(s: Server, i: int, initial: StateImage)
    requires Ok(s) && Live(s, i) && HasMessage(At(s, i).rx.rest) && Kept(s, initial)
    ensures Kept(HandleFirst(s, i), initial)
  {
    HandleFirstRegister(s, i, initial);
    HandleFirstComplete(s, i);
    HandleFirstRouted(s, i, initial);
    HandleSameInput(s, i, First(At(s, i).rx.rest));
  }

  lemma DoomKept(s: Server, i: int, initial: StateImage)
    requires Live(s, i) && Kept(s, initial)
    ensures Kept(Doom(s, i), initial)
  {
    PutKept(s, i, At(s, i).(tx := At(s, i).tx.(closing := true)), initial);
  }

  lemma ReadKept(s: Server, i: int, initial: StateImage)
    requires Ok(s) && Live(s, i) && Kept(s, initial)
    ensures Kept(ReadSlot(s, i), initial)
  {
    var l := At(s, i);
    assert SlotOk(s.slots[i], s.next);
    ReceiveInStep(l.rx);
    var o := ReceiveAll(l.rx);
    PutKept(s, i, l.(rx := o.rx, tx := l.tx.(closing := l.tx.closing || o.dead)), initial);
  }

  lemma {:induction false} DrainKept(s: Server, i: int, initial: StateImage)
    requires Ok(s) && Live(s, i) && Kept(s, initial)
    ensures Kept(Drain(s, i), initial)
    decreases if Live(s, i) then |At(s, i).rx.rest| else 0
  {
    var l := At(s, i);
    if !l.tx.closing {
      if Oversized(l.rx.rest) {
        DoomKept(s, i, initial);
      } else if HasMessage(l.rx.rest) {
        HandleFirstLeaves(s, i);
        HandleFirstKept(s, i, initial);
        DrainKept(HandleFirst(s, i), i, initial);
      }
    }
  }

  lemma CloseKept(s: Server, i: int, l: Link, initial: StateImage)
    requires Ok(s) && Live(s, i) && Kept(s, initial) && SameOutput(s.slots[i], Some(l)) && l.rx == At(s, i).rx
             && LinkOk(l)
    ensures Kept(CloseLink(s, i, l), initial)
  {
    CloseComplete(s, i, l);
    CloseRouted(s, i, l, initial);
  }

  lemma FinishKept(s: Server, i: int, initial: StateImage)
    requires Ok(s) && Live(s, i) && Kept(s, initial)
    ensures Kept(FinishSlot(s, i), initial)
  {
    var l := At(s, i);
    assert SlotOk(s.slots[i], s.next);
    FlushKeepsFifo(l.tx);
    if l.gentle && !l.tx.closing {
      FlushClean(l.tx);
    }
    var tx := if l.tx.closing then l.tx else Flush(l.tx);
    if tx.closing {
      CloseKept(s, i, l.(tx := tx), initial);
    } else {
      PutKept(s, i, l.(tx := tx), initial);
    }
  }

  lemma BeginKept(s: Server, i: int, initial: StateImage)
    requires Ok(s) && Live(s, i) && Kept(s, initial)
    ensures Ok(Begin(s, i)) && Kept(Begin(s, i), initial)
  {
  }

  lemma ServiceSlotKept(s: Server, i: int, rev: Revents, initial: StateImage)
    requires Ok(s) && Live(s, i) && Kept(s, initial)
    ensures Kept(ServiceSlot(s, i, rev), initial)
  {
    var s0 := Begin(s, i);
    BeginKept(s, i, initial);
    var s1 := if rev.hangup then Doom(s0, i) else s0;
    if rev.hangup {
      DoomLeaves(s0, i);
      DoomKept(s0, i, initial);
    }
    if !At(s1, i).tx.closing && rev.readable {
      ReadLeaves(s1, i);
      ReadKept(s1, i, initial);
      DrainLeaves(ReadSlot(s1, i), i);
      DrainKept(ReadSlot(s1, i), i, initial);
      FinishKept(Drain(ReadSlot(s1, i), i), i, initial);
    } else {
      FinishKept(s1, i, initial);
    }
  }

  lemma {:induction false} ServiceAllKept(s: Server, es: seq<Entry>, initial: StateImage)
    requires Ok(s) && Settled(s) && Collected(s, es) && Kept(s, initial)
    ensures Kept(ServiceAll(s, es), initial)
    decreases |es|
  {
    if es != [] {
      FirstTurn(s, es);
      ServiceSlotKept(s, es[0].slot, es[0].rev, initial);
      ServiceAllKept(ServiceSlot(s, es[0].slot, es[0].rev), es[1..], initial);
    }
  }

  lemma {:induction false} AdmitAllKept(s: Server, arrivals: seq<Arrival>, initial: StateImage)
    requires Ok(s) && Settled(s) && Kept(s, initial)
    ensures Kept(AdmitAll(s, arrivals), initial)
    decreases |arrivals|
  {
    if arrivals != [] {
      AdmitKeeps(s, arrivals[0]);
      AdmitComplete(s, arrivals[0]);
      AdmitRouted(s, arrivals[0], initial);
      AdmitAllKept(Admit(s, arrivals[0]), arrivals[1..], initial);
    }
  }

  lemma {:induction false} PassesKept(s: Server, ts: seq<Turn>, initial: StateImage)
    requires Ok(s) && Settled(s) && Kept(s, initial)
    ensures Kept(Passes(s, ts), initial)
    decreases |ts|
  {
    if ts != [] {
      var t := ts[0];
      AdmitAllKept(s, t.arrivals, initial);
      PolledStaysCurrent(s, t);
      ServiceAllKept(AfterAccepting(s, t), Polled(Collect(s, 0), t.revs), initial);
      PassServes(s, t);
      PassesKept(Pass(s, t), ts[1..], initial);
    }
  }

  lemma ReachableKept(state: StateImage, ts: seq<Turn>)
    ensures Kept(Passes(Empty(state), ts), state)
  {
    EmptyOk(state);
    PassesKept(Empty(state), ts, state);
  }

  // ---- what a user of the bus may rely on -----------------------------

  /** In every reachable state: the satellite state is that of the last well-formed write
      by a registered client, or the one the server began with; the store was called with
      just these writes, in order; and the messages this goes by are, connection by
      connection, closed ones included, exactly those it handed in. */
  lemma StateIsLastWrite(state: StateImage, ts: seq<Turn>, i: int, k: int)
    ensures var r := Passes(Empty(state), ts);
            r.saves == Sets(r.dispatched) && r.state == Latest(state, r.saves)
            && (Live(r, i) ==> Of(r.dispatched, At(r, i).serial) == At(r, i).rx.handled)
            && (0 <= k < |r.closed| ==> Of(r.dispatched, r.closed[k].serial) == r.closed[k].rx.handled)
  {
    ReachableKept(state, ts);
    var r := Passes(Empty(state), ts);
    assert Live(r, i) ==> TalliedSlot(r.slots[i], r.dispatched);
    assert 0 <= k < |r.closed| ==> Tallied(r.closed[k], r.dispatched);
  }

  /** In every reachable state: every message dispatched has had exactly one answer, the
      n-th message the n-th answer. A relayed message is the answer to one sent, under the
      sender's true name and with its bytes unchanged; every other answer went to the
      sender; and a read of the satellite state got the state as of then. */
  lemma EveryMessageIsAnswered(state: StateImage, ts: seq<Turn>, n: nat)
    ensures var r := Passes(Empty(state), ts);
            |r.posts| == |r.dispatched|
            && (n < |r.posts| ==> Answers(r.dispatched[n], r.posts[n], Latest(state, Sets(r.dispatched[..n + 1]))))
  {
    ReachableKept(state, ts);
    var r := Passes(Empty(state), ts);
    assert n < |r.posts| ==> Answered(state, r.dispatched, r.posts, n);
  }

  /** In every reachable state, for every connection, `l` being one that is open or has
      been closed: what was queued for it is exactly these answers, in order, and those
      relayed to it were sent to its own name. */
  lemma OutputIsRouted(state: StateImage, ts: seq<Turn>, l: Link, n: nat)
    requires var r := Passes(Empty(state), ts); Some(l) in r.slots || l in r.closed
    ensures var r := Passes(Empty(state), ts);
            l.tx.outbox == To(r.posts, l.serial) && |r.posts| == |r.dispatched|
            && (n < |r.posts| && r.posts[n].to == l.serial && r.posts[n].m.typ == DELIVER ==>
                  Addressed(l, r.dispatched[n]))
  {
    ReachableKept(state, ts);
    var r := Passes(Empty(state), ts);
    if Some(l) in r.slots {
      var i :| 0 <= i < |r.slots| && r.slots[i] == Some(l);
      assert RoutedSlot(r.slots[i], r.dispatched, r.posts);
    }
    assert RoutedLink(l, r.dispatched, r.posts);
    assert n < |r.posts| ==> Meant(l, r.dispatched[n], r.posts[n]);
  }

  /** In every reachable state a connection is closed at most once, and never in use
      again; and up to then nothing its peer sent was lost, and what was dispatched for it
      is a prefix of the one-shot parse of what was received. */
  lemma ClosedForGood(state: StateImage, ts: seq<Turn>, i: int, j: int, k: int)
    requires 0 <= j < |Passes(Empty(state), ts).closed| && 0 <= k < |Passes(Empty(state), ts).closed|
    ensures var r := Passes(Empty(state), ts);
            (r.closed[j].serial == r.closed[k].serial ==> j == k)
            && (Live(r, i) ==> At(r, i).serial != r.closed[k].serial)
            && var rx := r.closed[k].rx;
               rx.received + Incoming(rx.recvs) == rx.supply && rx.handled <= Parse(rx.received).msgs
  {
    ReachableKept(state, ts);
    var r := Passes(Empty(state), ts);
    assert Live(r, i) ==> Elsewhere(r.slots[i], r.closed[k].serial);
    assert LinkOk(r.closed[k]);
  }

  /** In every reachable state, for every connection open or closed whose socket never
      answers send() with EINTR or an error, and for which memory never runs out: what its
      peer got is a prefix of what was queued for it, even if it was marked for closing or
      overflowed its backlog. */
  lemma GentleNeverGaps(state: StateImage, ts: seq<Turn>, l: Link)
    requires var r := Passes(Empty(state), ts); (Some(l) in r.slots || l in r.closed) && l.gentle
    ensures l.tx.wire <= Stream(l.tx.outbox)
  {
    EmptyOk(state);
    ReachableOk(Empty(state), ts);
    ReachableKept(state, ts);
    var r := Passes(Empty(state), ts);
    if Some(l) in r.slots {
      var i :| 0 <= i < |r.slots| && r.slots[i] == Some(l);
      assert SlotOk(r.slots[i], r.next);
    }
    assert LinkOk(l);
  }
}
