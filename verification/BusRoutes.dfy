/** Which messages the bus server queues, for whom, and in answer to what. */
module BusRoutes {
  import opened Bytes
  import opened Framing
  import opened Names
  import opened Transmit
  import opened Receive
  import opened Bus
  import opened BusProofs
  import opened BusLog
  import Record

  // ---- the answer to one message --------------------------------------

  /** What may be queued in answer to `d`, when the satellite state is `state` after it: a
      relayed message with the sender's true name and its bytes unchanged, or something for
      the sender itself: the state for a read or a well-formed write, a pong for a ping, a
      registration confirmed, or an error. */
  predicate Answers(d: Dispatch, p: Post, state: StateImage) {
    if p.m.typ == DELIVER then
      d.registered && d.m.typ == SEND && NAME_SIZE <= |d.m.payload|
      && p.m == Msg(DELIVER, Field(d.name) + d.m.payload[NAME_SIZE..])
    else
      p.to == d.serial
      && if !d.registered then
           if d.m.typ != REGISTER then p.m == ErrorMsg(NOT_REGISTERED)
           else if |d.m.payload| < NAME_SIZE || d.m.payload[0] == 0 then p.m == ErrorMsg(BAD_MESSAGE)
           else p.m == Msg(REGISTER_OK, []) || p.m == ErrorMsg(NAME_TAKEN)
         else if d.m.typ == STATE_GET || SetBy(d) != [] then p.m == Msg(STATE_VALUE, state)
         else if d.m.typ == PING then p.m == Msg(PONG, [])
         else if d.m.typ == SEND && NAME_SIZE <= |d.m.payload| then p.m == ErrorMsg(UNKNOWN_DEST)
         else p.m == ErrorMsg(BAD_MESSAGE)
  }

  /** The connection holds the name the message was sent to. */
  predicate Addressed(l: Link, d: Dispatch) {
    l.registered && NAME_SIZE <= |d.m.payload| && NameIn(d.m.payload) == l.name
  }

  predicate SameOutput(a: Slot, b: Slot) {
    a.Some? == b.Some?
    && (a.Some? ==> a.value.serial == b.value.serial && a.value.tx.outbox == b.value.tx.outbox
                    && (a.value.registered ==> b.value.registered && a.value.name == b.value.name))
  }

  /** From `s` to `r` just one message was queued: `x`, for the connection in slot `t`. */
  ghost predicate Posted(s: Server, r: Server, t: int, x: WireMsg) {
    Live(s, t) && |r.slots| == |s.slots| && Live(r, t)
    && r.posts == s.posts + [Post(At(s, t).serial, x)]
    && SameOutput(Some(At(s, t).(tx := At(s, t).tx.(outbox := At(s, t).tx.outbox + [x]))), r.slots[t])
    && forall j :: 0 <= j < |s.slots| && j != t ==> SameOutput(s.slots[j], r.slots[j])
  }

  lemma QueueOutbox(t: Tx, m: WireMsg)
    ensures Queue(t, m).outbox == t.outbox + [m]
  {
  }

  lemma ReplyPosts(s: Server, t: int, x: WireMsg)
    requires Live(s, t)
    ensures Posted(s, Reply(s, t, x), t, x)
  {
    QueueOutbox(At(s, t).tx, x);
  }

  lemma RefusePosts(s: Server, i: int, code: u32)
    requires Live(s, i)
    ensures Posted(s, Doom(Reply(s, i, ErrorMsg(code)), i), i, ErrorMsg(code))
  {
    ReplyPosts(s, i, ErrorMsg(code));
  }

  lemma RegisterPosts(s: Server, i: int, m: WireMsg) returns (x: WireMsg)
    requires Live(s, i) && !At(s, i).registered
    ensures Posted(s, HandleRegister(s, i, m), i, x)
    ensures if m.typ != REGISTER then x == ErrorMsg(NOT_REGISTERED)
            else if |m.payload| < NAME_SIZE || m.payload[0] == 0 then x == ErrorMsg(BAD_MESSAGE)
            else x == Msg(REGISTER_OK, []) || x == ErrorMsg(NAME_TAKEN)
  {
    if m.typ != REGISTER {
      x := ErrorMsg(NOT_REGISTERED);
      RefusePosts(s, i, NOT_REGISTERED);
    } else if |m.payload| < NAME_SIZE || NameIn(m.payload) == [] {
      x := ErrorMsg(BAD_MESSAGE);
      RefusePosts(s, i, BAD_MESSAGE);
    } else if Find(s, NameIn(m.payload), i, 0) != -1 {
      x := ErrorMsg(NAME_TAKEN);
      RefusePosts(s, i, NAME_TAKEN);
    } else {
      x := Msg(REGISTER_OK, []);
      ReplyPosts(Put(s, i, At(s, i).(name := NameIn(m.payload), registered := true)), i, x);
    }
  }

  lemma SendPosts(s: Server, i: int, payload: seq<byte>) returns (t: int, x: WireMsg)
    requires Registered(s, i) && |payload| < 0x1_0000_0000
    ensures Posted(s, HandleSend(s, i, payload), t, x)
    ensures if x.typ == DELIVER
            then NAME_SIZE <= |payload| && Holds(s, t, NameIn(payload))
                 && x == Msg(DELIVER, Field(At(s, i).name) + payload[NAME_SIZE..])
            else t == i && x == if NAME_SIZE <= |payload| then ErrorMsg(UNKNOWN_DEST) else ErrorMsg(BAD_MESSAGE)
  {
    t, x := i, ErrorMsg(BAD_MESSAGE);
    if NAME_SIZE <= |payload| {
      var f := Find(s, NameIn(payload), -1, 0);
      if f == -1 {
        x := ErrorMsg(UNKNOWN_DEST);
      } else {
        t, x := f, Msg(DELIVER, Field(At(s, i).name) + payload[NAME_SIZE..]);
      }
    }
    ReplyPosts(s, t, x);
  }

  /** Every message dispatched has just one answer. */
  lemma HandlePosts(s: Server, i: int, m: WireMsg) returns (t: int, x: WireMsg)
    requires Live(s, i)
    ensures Posted(s, Handle(s, i, m), t, x)
    ensures Answers(DispatchFor(At(s, i), m), Post(At(s, t).serial, x), Handle(s, i, m).state)
    ensures x.typ == DELIVER ==> Addressed(At(s, t), DispatchFor(At(s, i), m))
  {
    t := i;
    if !At(s, i).registered {
      x := RegisterPosts(s, i, m);
    } else if m.typ == SEND {
      t, x := SendPosts(s, i, m.payload);
    } else if m.typ == STATE_GET {
      x := Msg(STATE_VALUE, s.state);
      ReplyPosts(s, i, x);
    } else if m.typ == STATE_SET && |m.payload| == Record.STATE_SIZE {
      x := Msg(STATE_VALUE, m.payload);
      ReplyPosts(SetState(s, m.payload), i, x);
    } else {
      x := if m.typ == PING then Msg(PONG, []) else ErrorMsg(BAD_MESSAGE);
      ReplyPosts(s, i, x);
    }
  }

  // ---- what every run keeps -------------------------------------------

  /** The messages queued for one connection, in order. */
  function To(ps: seq<Post>, serial: nat): seq<WireMsg> {
    if ps == [] then []
    else
      var p := ps[|ps| - 1];
      To(ps[..|ps| - 1], serial) + if p.to == serial then [p.m] else []
  }

  lemma ToSnoc(ps: seq<Post>, p: Post, serial: nat)
    ensures To(ps + [p], serial) == if p.to == serial then To(ps, serial) + [p.m] else To(ps, serial)
  {
    assert (ps + [p])[..|ps|] == ps;
  }

  lemma {:induction false} ToNobody(ps: seq<Post>, serial: nat)
    requires forall k :: 0 <= k < |ps| ==> ps[k].to < serial
    ensures To(ps, serial) == []
  {
    if ps != [] {
      ToNobody(ps[..|ps| - 1], serial);
    }
  }

  /** If message `d` was relayed as `p` to this connection, it was sent to its name. */
  predicate Meant(l: Link, d: Dispatch, p: Post) {
    p.to == l.serial && p.m.typ == DELIVER ==> Addressed(l, d)
  }

  /** The connection's output is what was queued for it, and what was relayed to it was
      meant for it. */
  ghost predicate RoutedLink(l: Link, ds: seq<Dispatch>, ps: seq<Post>) {
    To(ps, l.serial) == l.tx.outbox && forall k :: 0 <= k < |ds| && k < |ps| ==> Meant(l, ds[k], ps[k])
  }

  ghost predicate RoutedSlot(o: Slot, ds: seq<Dispatch>, ps: seq<Post>) {
    o.Some? ==> RoutedLink(o.value, ds, ps)
  }

  /** Answer `k` is one to message `k`, in the state that message left. */
  predicate Answered(initial: StateImage, ds: seq<Dispatch>, ps: seq<Post>, k: nat)
    requires k < |ds| && k < |ps|
  {
    Answers(ds[k], ps[k], Latest(initial, Sets(ds[..k + 1])))
  }

  ghost predicate AllAnswered(initial: StateImage, ds: seq<Dispatch>, ps: seq<Post>) {
    |ps| == |ds| && forall k :: 0 <= k < |ps| ==> Answered(initial, ds, ps, k)
  }

  ghost predicate Routed(s: Server, initial: StateImage) {
    && AllAnswered(initial, s.dispatched, s.posts)
    && (forall k :: 0 <= k < |s.posts| ==> s.posts[k].to < s.next)
    && (forall i :: 0 <= i < |s.slots| ==> RoutedSlot(s.slots[i], s.dispatched, s.posts))
    && (forall k :: 0 <= k < |s.closed| ==> RoutedLink(s.closed[k], s.dispatched, s.posts))
  }

  lemma AnsweredSnoc(initial: StateImage, ds: seq<Dispatch>, ps: seq<Post>, d: Dispatch, p: Post)
    requires AllAnswered(initial, ds, ps) && Answers(d, p, Latest(initial, Sets(ds + [d])))
    ensures AllAnswered(initial, ds + [d], ps + [p])
  {
    forall k | 0 <= k < |ps + [p]|
      ensures Answered(initial, ds + [d], ps + [p], k)
    {
      if k < |ps| {
        assert (ds + [d])[..k + 1] == ds[..k + 1];
        assert Answered(initial, ds, ps, k);
      } else {
        assert (ds + [d])[..k + 1] == ds + [d];
      }
    }
  }

  /** A connection not concerned: nothing more was queued for it. */
  lemma RoutedOther(l: Link, ds: seq<Dispatch>, ps: seq<Post>, d: Dispatch, p: Post)
    requires |ds| == |ps| && RoutedLink(l, ds, ps) && p.to != l.serial
    ensures RoutedLink(l, ds + [d], ps + [p])
  {
    ToSnoc(ps, p, l.serial);
    forall k | 0 <= k < |ps| + 1
      ensures Meant(l, (ds + [d])[k], (ps + [p])[k])
    {
      assert k < |ps| ==> Meant(l, ds[k], ps[k]);
    }
  }

  /** The connection concerned, `l` before and `r` after. */
  lemma RoutedOwn(l: Link, r: Link, ds: seq<Dispatch>, ps: seq<Post>, d: Dispatch, p: Post)
    requires |ds| == |ps| && RoutedLink(l, ds, ps) && p.to == l.serial == r.serial
    requires r.tx.outbox == l.tx.outbox + [p.m] && (l.registered ==> r.registered && r.name == l.name)
    requires p.m.typ == DELIVER ==> Addressed(l, d)
    ensures RoutedLink(r, ds + [d], ps + [p])
  {
    ToSnoc(ps, p, l.serial);
    forall k | 0 <= k < |ps| + 1
      ensures Meant(r, (ds + [d])[k], (ps + [p])[k])
    {
      assert k < |ps| ==> Meant(l, ds[k], ps[k]);
    }
  }

  /** An unchanged record, and a connection that has queued nothing. */
  lemma RoutedSame(a: Slot, b: Slot, ds: seq<Dispatch>, ps: seq<Post>)
    requires RoutedSlot(a, ds, ps) && SameOutput(a, b)
    ensures RoutedSlot(b, ds, ps)
  {
    if a.Some? {
      forall k | 0 <= k < |ds| && k < |ps|
        ensures Meant(b.value, ds[k], ps[k])
      {
        assert Meant(a.value, ds[k], ps[k]);
      }
    }
  }

  lemma HandleFirstSlot(s: Server, i: int, t: int, x: WireMsg, j: int)
    requires Ok(s) && Live(s, i) && HasMessage(At(s, i).rx.rest) && |s.dispatched| == |s.posts|
    requires var m := First(At(s, i).rx.rest);
             Posted(Note(s, i, m), Handle(Note(s, i, m), i, m), t, x)
             && (x.typ == DELIVER ==> Addressed(At(s, t), DispatchFor(At(s, i), m)))
    requires 0 <= j < |s.slots| && RoutedSlot(s.slots[j], s.dispatched, s.posts)
    ensures var r := HandleFirst(s, i); j < |r.slots| && RoutedSlot(r.slots[j], r.dispatched, r.posts)
  {
    var m := First(At(s, i).rx.rest);
    var d, p := DispatchFor(At(s, i), m), Post(At(s, t).serial, x);
    var r, h := HandleFirst(s, i), Handle(Note(s, i, m), i, m);
    assert r.dispatched == s.dispatched + [d] && r.posts == s.posts + [p];
    assert SameOutput(h.slots[j], r.slots[j]);
    if j == t {
      RoutedOwn(At(s, t), At(r, t), s.dispatched, s.posts, d, p);
    } else if Live(s, j) {
      assert SameOutput(s.slots[j], h.slots[j]);
      assert t < j ==> Apart(s.slots[t], s.slots[j]);
      assert j < t ==> Apart(s.slots[j], s.slots[t]);
      RoutedOther(At(s, j), s.dispatched, s.posts, d, p);
      RoutedSame(s.slots[j], r.slots[j], r.dispatched, r.posts);
    }
  }

  lemma HandleFirstRouted(s: Server, i: int, initial: StateImage)
    requires Ok(s) && Live(s, i) && HasMessage(At(s, i).rx.rest)
    requires Buried(s) && Register(s, initial) && Routed(s, initial)
    ensures Routed(HandleFirst(s, i), initial)
  {
    var m := First(At(s, i).rx.rest);
    var d := DispatchFor(At(s, i), m);
    var t, x := HandlePosts(Note(s, i, m), i, m);
    var p := Post(At(s, t).serial, x);
    var r := HandleFirst(s, i);
    HandleFirstRegister(s, i, initial);
    assert r.dispatched == s.dispatched + [d] && r.posts == s.posts + [p];
    AnsweredSnoc(initial, s.dispatched, s.posts, d, p);
    assert SlotOk(s.slots[t], s.next);
    forall j | 0 <= j < |r.slots|
      ensures RoutedSlot(r.slots[j], r.dispatched, r.posts)
    {
      HandleFirstSlot(s, i, t, x, j);
    }
    forall k | 0 <= k < |r.closed|
      ensures RoutedLink(r.closed[k], r.dispatched, r.posts)
    {
      assert RoutedLink(s.closed[k], s.dispatched, s.posts) && Elsewhere(s.slots[t], s.closed[k].serial);
      RoutedOther(s.closed[k], s.dispatched, s.posts, d, p);
    }
  }

  /** A change of one connection that queues nothing. */
  lemma PutRouted(s: Server, i: int, l: Link, initial: StateImage)
    requires Live(s, i) && Routed(s, initial) && SameOutput(s.slots[i], Some(l))
    ensures Routed(Put(s, i, l), initial)
  {
    var r := Put(s, i, l);
    assert RoutedSlot(s.slots[i], s.dispatched, s.posts);
    RoutedSame(s.slots[i], r.slots[i], s.dispatched, s.posts);
    forall j | 0 <= j < |r.slots|
      ensures RoutedSlot(r.slots[j], r.dispatched, r.posts)
    {
      assert RoutedSlot(s.slots[j], s.dispatched, s.posts);
    }
  }

  lemma CloseRouted(s: Server, i: int, l: Link, initial: StateImage)
    requires Live(s, i) && Routed(s, initial) && SameOutput(s.slots[i], Some(l))
    ensures Routed(CloseLink(s, i, l), initial)
  {
    var r := CloseLink(s, i, l);
    assert RoutedSlot(s.slots[i], s.dispatched, s.posts);
    RoutedSame(s.slots[i], Some(l), s.dispatched, s.posts);
    forall j | 0 <= j < |r.slots|
      ensures RoutedSlot(r.slots[j], r.dispatched, r.posts)
    {
      assert RoutedSlot(s.slots[j], s.dispatched, s.posts);
    }
  }

  lemma AdmitRouted(s: Server, a: Arrival, initial: StateImage)
    requires Routed(s, initial)
    ensures Routed(Admit(s, a), initial)
  {
    var r := Admit(s, a);
    ToNobody(s.posts, s.next);
    forall i | 0 <= i < |r.slots|
      ensures RoutedSlot(r.slots[i], r.dispatched, r.posts)
    {
      assert RoutedSlot(s.slots[i], s.dispatched, s.posts);
    }
  }
}
