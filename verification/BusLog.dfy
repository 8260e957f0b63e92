/** The record of what the bus server has dispatched, and what the satellite state and
    the store make of it. */
module BusLog {
  import opened Framing
  import opened Receive
  import opened Bus
  import opened BusProofs
  import Record

  // ---- the shared state as a register ---------------------------------

  /** The state a dispatched message sets, if it is a well-formed write by a registered
      client. */
  function SetBy(d: Dispatch): seq<StateImage> {
    if d.registered && d.m.typ == STATE_SET && |d.m.payload| == Record.STATE_SIZE then [d.m.payload] else []
  }

  /** All states written, in order. */
  function Sets(ds: seq<Dispatch>): seq<StateImage> {
    if ds == [] then [] else Sets(ds[..|ds| - 1]) + SetBy(ds[|ds| - 1])
  }

  function Latest(initial: StateImage, sets: seq<StateImage>): StateImage {
    if sets == [] then initial else sets[|sets| - 1]
  }

  /** The state is the last one written, and every one written went to the store. */
  predicate Register(s: Server, initial: StateImage) {
    s.saves == Sets(s.dispatched) && s.state == Latest(initial, s.saves)
  }

  lemma SetsSnoc(ds: seq<Dispatch>, d: Dispatch)
    ensures Sets(ds + [d]) == Sets(ds) + SetBy(d)
  {
    assert (ds + [d])[..|ds|] == ds;
  }

  lemma HandleSets(s: Server, i: int, m: WireMsg)
    requires Live(s, i)
    ensures var r, d := Handle(s, i, m), DispatchFor(At(s, i), m);
            r.saves == s.saves + SetBy(d) && r.state == Latest(s.state, SetBy(d))
  {
  }

  lemma HandleFirstRegister(s: Server, i: int, initial: StateImage)
    requires Live(s, i) && HasMessage(At(s, i).rx.rest) && Register(s, initial)
    ensures Register(HandleFirst(s, i), initial)
  {
    var m := First(At(s, i).rx.rest);
    var d := DispatchFor(At(s, i), m);
    SetsSnoc(s.dispatched, d);
    HandleSets(Note(s, i, m), i, m);
  }

  // ---- whose messages they were ---------------------------------------

  /** The messages dispatched for one connection, in order. */
  function Of(ds: seq<Dispatch>, serial: nat): seq<WireMsg> {
    if ds == [] then []
    else
      var d := ds[|ds| - 1];
      Of(ds[..|ds| - 1], serial) + if d.serial == serial then [d.m] else []
  }

  lemma OfSnoc(ds: seq<Dispatch>, d: Dispatch, serial: nat)
    ensures Of(ds + [d], serial) == if d.serial == serial then Of(ds, serial) + [d.m] else Of(ds, serial)
  {
    assert (ds + [d])[..|ds|] == ds;
  }

  lemma {:induction false} OfNobody(ds: seq<Dispatch>, serial: nat)
    requires forall k :: 0 <= k < |ds| ==> ds[k].serial < serial
    ensures Of(ds, serial) == []
  {
    if ds != [] {
      OfNobody(ds[..|ds| - 1], serial);
    }
  }

  /** What was dispatched for the connection is what it handed in. */
  predicate Tallied(l: Link, ds: seq<Dispatch>) {
    Of(ds, l.serial) == l.rx.handled
  }

  predicate TalliedSlot(o: Slot, ds: seq<Dispatch>) {
    o.Some? ==> Tallied(o.value, ds)
  }

  predicate Elsewhere(o: Slot, serial: nat) {
    o.Some? ==> o.value.serial != serial
  }

  /** A closed connection is not in the table any more, nor closed twice. */
  ghost predicate Buried(s: Server) {
    && (forall k :: 0 <= k < |s.closed| ==> s.closed[k].serial < s.next)
    && (forall i, k :: 0 <= i < |s.slots| && 0 <= k < |s.closed| ==> Elsewhere(s.slots[i], s.closed[k].serial))
    && (forall j, k :: 0 <= j < k < |s.closed| ==> s.closed[j].serial != s.closed[k].serial)
  }

  ghost predicate Complete(s: Server) {
    && Buried(s)
    && (forall k :: 0 <= k < |s.dispatched| ==> s.dispatched[k].serial < s.next)
    && (forall i :: 0 <= i < |s.slots| ==> TalliedSlot(s.slots[i], s.dispatched))
    && (forall k :: 0 <= k < |s.closed| ==> Tallied(s.closed[k], s.dispatched))
  }

  /** A change of one connection that is no dispatch. */
  lemma PutComplete(s: Server, i: int, l: Link)
    requires Live(s, i) && Complete(s)
    requires l.serial == At(s, i).serial && l.rx.handled == At(s, i).rx.handled
    ensures Complete(Put(s, i, l))
  {
    var r := Put(s, i, l);
    assert TalliedSlot(s.slots[i], s.dispatched);
    forall j, k | 0 <= j < |r.slots| && 0 <= k < |r.closed|
      ensures Elsewhere(r.slots[j], r.closed[k].serial)
    {
      assert Elsewhere(s.slots[j], s.closed[k].serial);
    }
  }

  /** The same connections in the table, with the same records of their input. */
  ghost predicate SameInput(s: Server, r: Server) {
    |r.slots| == |s.slots| && r.next == s.next && r.closed == s.closed
    && forall j :: 0 <= j < |s.slots| ==> SameSource(s.slots[j], r.slots[j])
  }

  predicate SameSource(a: Slot, b: Slot) {
    a.Some? == b.Some? && (a.Some? ==> a.value.serial == b.value.serial && a.value.rx.handled == b.value.rx.handled)
  }

  lemma HandleSameInput(s: Server, i: int, m: WireMsg)
    requires Live(s, i)
    ensures SameInput(s, Handle(Note(s, i, m), i, m))
  {
    var n, r := Note(s, i, m), Handle(Note(s, i, m), i, m);
    assert SameLinks(n, r);
  }

  lemma SameInputBuried(s: Server, r: Server)
    requires Buried(s) && SameInput(s, r)
    ensures Buried(r)
  {
    forall j, k | 0 <= j < |r.slots| && 0 <= k < |r.closed|
      ensures Elsewhere(r.slots[j], r.closed[k].serial)
    {
      assert Elsewhere(s.slots[j], s.closed[k].serial) && SameSource(s.slots[j], r.slots[j]);
    }
  }

  lemma HandleFirstBuried(s: Server, i: int)
    requires Live(s, i) && HasMessage(At(s, i).rx.rest) && Buried(s)
    ensures Buried(HandleFirst(s, i))
  {
    var m := First(At(s, i).rx.rest);
    var r := Handle(Note(s, i, m), i, m);
    HandleSameInput(s, i, m);
    SameInputBuried(s, r);
    var t := HandleFirst(s, i);
    forall j, k | 0 <= j < |t.slots| && 0 <= k < |t.closed|
      ensures Elsewhere(t.slots[j], t.closed[k].serial)
    {
      assert Elsewhere(r.slots[j], r.closed[k].serial);
    }
  }

  /** Where the message is counted: for its own connection and for no other. */
  lemma HandleFirstTallies(s: Server, i: int, j: int)
    requires Ok(s) && Live(s, i) && HasMessage(At(s, i).rx.rest) && Complete(s) && 0 <= j < |s.slots|
    ensures |HandleFirst(s, i).slots| == |s.slots|
    ensures TalliedSlot(HandleFirst(s, i).slots[j], HandleFirst(s, i).dispatched)
  {
    var m := First(At(s, i).rx.rest);
    var d := DispatchFor(At(s, i), m);
    HandleSameInput(s, i, m);
    var r := Handle(Note(s, i, m), i, m);
    assert SameLinks(Note(s, i, m), r);
    assert SameSource(s.slots[j], r.slots[j]) && TalliedSlot(s.slots[j], s.dispatched);
    if Live(s, j) {
      OfSnoc(s.dispatched, d, At(s, j).serial);
      assert i < j ==> Apart(s.slots[i], s.slots[j]);
      assert j < i ==> Apart(s.slots[j], s.slots[i]);
    }
  }

  lemma HandleFirstComplete(s: Server, i: int)
    requires Ok(s) && Live(s, i) && HasMessage(At(s, i).rx.rest) && Complete(s)
    ensures Complete(HandleFirst(s, i))
  {
    HandleFirstBuried(s, i);
    var m := First(At(s, i).rx.rest);
    var d := DispatchFor(At(s, i), m);
    HandleSameInput(s, i, m);
    var r := HandleFirst(s, i);
    assert r.dispatched == s.dispatched + [d];
    assert SlotOk(s.slots[i], s.next);
    forall j | 0 <= j < |r.slots|
      ensures TalliedSlot(r.slots[j], r.dispatched)
    {
      HandleFirstTallies(s, i, j);
    }
    forall k | 0 <= k < |r.closed|
      ensures Tallied(r.closed[k], r.dispatched)
    {
      assert Tallied(s.closed[k], s.dispatched) && Elsewhere(s.slots[i], s.closed[k].serial);
      OfSnoc(s.dispatched, d, s.closed[k].serial);
    }
  }

  lemma CloseComplete(s: Server, i: int, l: Link)
    requires Ok(s) && Live(s, i) && Complete(s)
    requires l.serial == At(s, i).serial && l.rx == At(s, i).rx
    ensures Complete(CloseLink(s, i, l))
  {
    var r := CloseLink(s, i, l);
    assert SlotOk(s.slots[i], s.next) && TalliedSlot(s.slots[i], s.dispatched);
    forall j, k | 0 <= j < |r.slots| && 0 <= k < |r.closed|
      ensures Elsewhere(r.slots[j], r.closed[k].serial)
    {
      if k < |s.closed| {
        assert Elsewhere(s.slots[j], s.closed[k].serial);
      } else {
        assert i < j ==> Apart(s.slots[i], s.slots[j]);
        assert j < i ==> Apart(s.slots[j], s.slots[i]);
      }
    }
    forall j | 0 <= j < |s.closed|
      ensures s.closed[j].serial != l.serial
    {
      assert Elsewhere(s.slots[i], s.closed[j].serial);
    }
  }

  lemma AdmitComplete(s: Server, a: Arrival)
    requires Ok(s) && Complete(s)
    ensures Complete(Admit(s, a))
  {
    var r := Admit(s, a);
    OfNobody(s.dispatched, s.next);
    forall i | 0 <= i < |r.slots|
      ensures TalliedSlot(r.slots[i], r.dispatched)
    {
      assert TalliedSlot(s.slots[i], s.dispatched);
    }
    forall i, k | 0 <= i < |r.slots| && 0 <= k < |r.closed|
      ensures Elsewhere(r.slots[i], r.closed[k].serial)
    {
      assert Elsewhere(s.slots[i], s.closed[k].serial);
    }
  }
}
