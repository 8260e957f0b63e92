/** What one connection's transmit side does, as a byte queue in front of a
    socket whose answers the environment has fixed in advance. */
module Transmit {
  import opened Bytes
  import opened Framing

  const BACKLOG_LIMIT := 256 * 1024   // TX_BACKLOG_LIMIT
  const MIN_CAP := 4096               // TX_MIN_CAP

  /** One answer of send(): some bytes taken, EAGAIN, EINTR, any other error. */
  datatype SendOutcome = Sent(n: nat) | Again | Interrupted | Refused

  /** One connection's transmit side.
      `pending` is txbuf[tx_sent..tx_len], `cap` is tx_cap, `closing` is should_close;
      `sends` and `allocs` are the answers send() and realloc() are still going to give
      (send() would block once they run out, realloc() succeeds);
      `wire` is every byte the socket has taken and `outbox` every message queued since accept. */
  datatype Tx = Tx(closing: bool, pending: seq<byte>, cap: nat,
                   sends: seq<SendOutcome>, allocs: seq<bool>,
                   wire: seq<byte>, outbox: seq<WireMsg>)

  function Fresh(sends: seq<SendOutcome>, allocs: seq<bool>): Tx {
    Tx(false, [], 0, sends, allocs, [], [])
  }

  function NextSend(sends: seq<SendOutcome>): SendOutcome {
    if sends == [] then Again else sends[0]
  }

  function NextAlloc(allocs: seq<bool>): bool {
    allocs == [] || allocs[0]
  }

  function Tail<T>(s: seq<T>): seq<T> {
    if s == [] then [] else s[1..]
  }

  // ---- capacities -----------------------------------------------------

  /** The least doubling of `from` that holds `needed` bytes. */
  function Fit(from: nat, needed: nat): (cap: nat)
    requires 0 < from
    ensures needed <= cap
    ensures cap == from || cap < 2 * needed
    decreases needed - from
  {
    if needed <= from then from else Fit(2 * from, needed)
  }

  /** A capacity the buffer may have: none, or a power-of-two number of 4 KiB pages up to 256 KiB. */
  ghost predicate CapOk(cap: nat) {
    cap == 0 || exists k: nat {:trigger Pages(k)} :: k <= 6 && cap == Pages(k)
  }

  function Pages(k: nat): (cap: nat)
    ensures MIN_CAP <= cap
  {
    if k == 0 then MIN_CAP else 2 * Pages(k - 1)
  }

  lemma {:induction false} PagesGrow(j: nat, k: nat)
    requires j <= k
    ensures Pages(j) <= Pages(k) && (Pages(j) == Pages(k) ==> j == k)
    ensures MIN_CAP <= Pages(j)
    decreases k
  {
    if j < k {
      PagesGrow(j, k - 1);
    } else if 0 < j {
      PagesGrow(j - 1, k - 1);
    }
  }

  /** Growing from any legal capacity and shrinking from scratch reach the same
      place: the least legal capacity that holds the data. */
  lemma {:induction false} FitFromCap(cap: nat, needed: nat)
    requires CapOk(cap) && needed <= BACKLOG_LIMIT
    ensures CapOk(Fit(MIN_CAP, needed))
    ensures 0 < cap < needed ==> Fit(2 * cap, needed) == Fit(MIN_CAP, needed)
    ensures 4 * needed < cap ==> Fit(MIN_CAP, needed) < cap || cap == MIN_CAP
  {
    FitPages(0, needed);
    if 0 < cap {
      var k: nat :| k <= 6 && cap == Pages(k);
      if cap < needed {
        FitClimbs(k + 1, needed);
      }
      PagesGrow(0, k);
    }
  }

  lemma {:induction false} FitPages(k: nat, needed: nat)
    requires k <= 6 && needed <= BACKLOG_LIMIT
    ensures exists j: nat {:trigger Pages(j)} :: k <= j <= 6 && Fit(Pages(k), needed) == Pages(j)
    decreases 6 - k
  {
    PagesGrow(0, k);
    if needed <= Pages(k) {
      assert Fit(Pages(k), needed) == Pages(k);
    } else {
      assert Pages(6) == BACKLOG_LIMIT;
      assert Pages(k + 1) == 2 * Pages(k);
      FitPages(k + 1, needed);
    }
  }

  lemma {:induction false} FitClimbs(k: nat, needed: nat)
    requires 0 < k && Pages(k - 1) < needed
    ensures Fit(Pages(k), needed) == Fit(MIN_CAP, needed)
  {
    PagesGrow(0, k - 1);
    if 1 < k {
      PagesGrow(k - 2, k - 1);
      FitClimbs(k - 1, needed);
    }
  }

  // ---- operations -----------------------------------------------------

  /** Capacity after room has been made for `needed` bytes, given realloc()'s answer;
      shrinking may fail silently. */
  function CapFor(cap: nat, needed: nat, granted: bool): nat {
    if needed > cap then Fit(MIN_CAP, needed)
    else if cap > MIN_CAP && needed < cap / 4 && granted then Fit(MIN_CAP, needed)
    else cap
  }

  predicate Reallocates(cap: nat, needed: nat) {
    needed > cap || (cap > MIN_CAP && needed < cap / 4)
  }

  /** append_tx() accepts the data: the backlog stays bounded and memory was found. */
  predicate Accepts(t: Tx, len: nat) {
    var needed := |t.pending| + len;
    needed <= BACKLOG_LIMIT && (needed > t.cap ==> NextAlloc(t.allocs))
  }

  /** append_tx(): data joins the queue whole, or not at all. */
  function Append(t: Tx, data: seq<byte>): Tx {
    var needed := |t.pending| + |data|;
    if needed > BACKLOG_LIMIT then t
    else
      var allocs := if Reallocates(t.cap, needed) then Tail(t.allocs) else t.allocs;
      if Accepts(t, |data|)
      then t.(pending := t.pending + data, cap := CapFor(t.cap, needed, NextAlloc(t.allocs)), allocs := allocs)
      else t.(allocs := allocs)
  }

  /** append_tx() with its caller's reaction: a refusal dooms the connection. */
  function AppendOrClose(t: Tx, data: seq<byte>): Tx {
    if Accepts(t, |data|) then Append(t, data) else Append(t, data).(closing := true)
  }

  /** queue_send() with nothing waiting: straight to the socket, the rest queued. */
  function Direct(t: Tx, f: seq<byte>): Tx {
    var answer := NextSend(t.sends);
    var t := t.(sends := Tail(t.sends));
    match answer
    case Sent(n) =>
      var k := Min(n, |f|);
      var t := t.(wire := t.wire + f[..k]);
      if k == |f| then t else AppendOrClose(t, f[k..])
    case Again => AppendOrClose(t, f)
    case Interrupted => t.(closing := true)
    case Refused => t.(closing := true)
  }

  /** queue_send(): behind whatever waits, so that nothing overtakes it. */
  function Queue(t: Tx, m: WireMsg): Tx {
    var t := t.(outbox := t.outbox + [m]);
    if t.pending == [] then Direct(t, Frame(m)) else AppendOrClose(t, Frame(m))
  }

  /** flush_tx(): as many bytes as the socket takes before it would block. */
  function Flush(t: Tx): Tx
    decreases |t.sends|
  {
    if t.pending == [] || t.sends == [] then t
    else
      var rest := t.(sends := t.sends[1..]);
      match t.sends[0]
      case Sent(n) =>
        var k := Min(n, |t.pending|);
        Flush(rest.(wire := t.wire + t.pending[..k], pending := t.pending[k..]))
      case Again => rest
      case Interrupted => Flush(rest)
      case Refused => rest.(closing := true)
  }

  // ---- what every run keeps -------------------------------------------

  ghost predicate Fits(t: Tx) {
    CapOk(t.cap) && |t.pending| <= t.cap
  }

  /** While the connection is healthy, what went out followed by what waits is
      exactly what was queued, in order. */
  ghost predicate Fifo(t: Tx) {
    Fits(t) && (!t.closing ==> t.wire + t.pending == Stream(t.outbox))
  }

  lemma AppendKeepsFit(t: Tx, data: seq<byte>)
    requires Fits(t)
    ensures Fits(Append(t, data)) && Append(t, data).outbox == t.outbox
    ensures Append(t, data).pending == if Accepts(t, |data|) then t.pending + data else t.pending
  {
    var needed := |t.pending| + |data|;
    if needed <= BACKLOG_LIMIT {
      CapForOk(t.cap, needed, NextAlloc(t.allocs));
    }
  }

  lemma CapForOk(cap: nat, needed: nat, granted: bool)
    requires CapOk(cap) && needed <= BACKLOG_LIMIT
    ensures CapOk(CapFor(cap, needed, granted)) && needed <= CapFor(cap, needed, granted)
  {
    FitFromCap(cap, needed);
  }

  lemma AppendKeepsFifo(t: Tx, data: seq<byte>)
    requires Fits(t)
    requires !t.closing ==> t.wire + t.pending + data == Stream(t.outbox)
    ensures Fifo(AppendOrClose(t, data)) && AppendOrClose(t, data).outbox == t.outbox
    ensures t.closing ==> AppendOrClose(t, data).closing
  {
    AppendKeepsFit(t, data);
    assert t.wire + (t.pending + data) == t.wire + t.pending + data;
  }

  lemma DirectKeepsFifo(t: Tx, f: seq<byte>)
    requires Fits(t) && t.pending == []
    requires !t.closing ==> t.wire + f == Stream(t.outbox)
    ensures Fifo(Direct(t, f)) && Direct(t, f).outbox == t.outbox
    ensures t.closing ==> Direct(t, f).closing
  {
    var t2 := t.(sends := Tail(t.sends));
    match NextSend(t.sends) {
      case Sent(n) =>
        var k := Min(n, |f|);
        assert t.wire + f[..k] + [] + f[k..] == t.wire + f;
        AppendKeepsFifo(t2.(wire := t.wire + f[..k]), f[k..]);
      case Again =>
        assert t.wire + [] + f == t.wire + f;
        AppendKeepsFifo(t2, f);
      case Interrupted =>
      case Refused =>
    }
  }

  lemma QueueKeepsFifo(t: Tx, m: WireMsg)
    requires Fifo(t)
    ensures Fifo(Queue(t, m)) && Queue(t, m).outbox == t.outbox + [m]
    ensures t.closing ==> Queue(t, m).closing
  {
    var t1 := t.(outbox := t.outbox + [m]);
    StreamSnoc(t.outbox, m);
    if t.pending == [] {
      assert t.wire + t.pending == t.wire;
      DirectKeepsFifo(t1, Frame(m));
    } else {
      AppendKeepsFifo(t1, Frame(m));
    }
  }

  lemma {:induction false} FlushKeepsFifo(t: Tx)
    requires Fifo(t)
    ensures Fifo(Flush(t))
    ensures Flush(t).outbox == t.outbox && Flush(t).cap == t.cap
    ensures t.closing ==> Flush(t).closing
    decreases |t.sends|
  {
    if t.pending != [] && t.sends != [] {
      var rest := t.(sends := t.sends[1..]);
      match t.sends[0] {
        case Sent(n) =>
          var k := Min(n, |t.pending|);
          assert (t.wire + t.pending[..k]) + t.pending[k..] == t.wire + t.pending;
          FlushKeepsFifo(rest.(wire := t.wire + t.pending[..k], pending := t.pending[k..]));
        case Interrupted => FlushKeepsFifo(rest);
        case Again =>
        case Refused =>
      }
    }
  }

  /** One thing the server does to a connection's transmit side; a doomed
      connection is never flushed. */
  datatype Event = DoQueue(m: WireMsg) | DoFlush

  function Apply(t: Tx, e: Event): Tx {
    match e
    case DoQueue(m) => Queue(t, m)
    case DoFlush => if t.closing then t else Flush(t)
  }

  function Run(t: Tx, es: seq<Event>): Tx
    decreases |es|
  {
    if es == [] then t else Run(Apply(t, es[0]), es[1..])
  }

  /** What one event queues. */
  function QueuedBy(e: Event): seq<WireMsg> {
    if e.DoQueue? then [e.m] else []
  }

  /** The messages a run queues, in order. */
  function Queued(es: seq<Event>): seq<WireMsg> {
    if es == [] then []
    else QueuedBy(es[0]) + Queued(es[1..])
  }

  lemma ApplyKeepsFifo(t: Tx, e: Event)
    requires Fifo(t)
    ensures Fifo(Apply(t, e)) && Apply(t, e).outbox == t.outbox + QueuedBy(e)
  {
    match e {
      case DoQueue(m) => QueueKeepsFifo(t, m);
      case DoFlush => FlushKeepsFifo(t);
    }
  }

  /** On every run, whatever the socket answers: the healthy connection's bytes
      are a FIFO of exactly the messages queued. */
  lemma {:induction false} RunKeepsFifo(t: Tx, es: seq<Event>)
    requires Fifo(t)
    ensures Fifo(Run(t, es)) && Run(t, es).outbox == t.outbox + Queued(es)
    decreases |es|
  {
    if es != [] {
      ApplyKeepsFifo(t, es[0]);
      RunKeepsFifo(Apply(t, es[0]), es[1..]);
      JoinAssoc(t.outbox, QueuedBy(es[0]), Queued(es[1..]));
    }
  }

  /** The peer of a healthy connection reads whole messages in queue order, no
      matter where the bytes on the wire happen to stop. */
  lemma WireParses(t: Tx)
    requires Fifo(t) && !t.closing && Bounded(t.outbox)
    ensures !Parse(t.wire).oversized && Parse(t.wire).msgs <= t.outbox
    ensures t.pending == [] ==> Parse(t.wire) == Parsed(t.outbox, [], false)
  {
    ParseStream(t.outbox, []);
    assert Stream(t.outbox) + [] == Stream(t.outbox);
    assert t.outbox + [] == t.outbox;
    ParseResumes(t.wire, t.pending);
    if t.pending == [] {
      assert t.wire + [] == t.wire;
    }
  }

  // ---- after a connection is doomed -----------------------------------

  lemma DoomedApply(t: Tx, e: Event)
    requires t.closing && t.pending != []
    ensures var u := Apply(t, e);
            u.closing && u.pending != [] && u.wire == t.wire && u.outbox == t.outbox + QueuedBy(e)
  {
  }

  lemma {:induction false} DoomedWireFrozen(t: Tx, es: seq<Event>)
    requires t.closing && t.pending != []
    ensures var u := Run(t, es); u.closing && u.wire == t.wire && u.outbox == t.outbox + Queued(es)
    decreases |es|
  {
    if es != [] {
      DoomedApply(t, es[0]);
      DoomedWireFrozen(Apply(t, es[0]), es[1..]);
      JoinAssoc(t.outbox, QueuedBy(es[0]), Queued(es[1..]));
    }
  }

  /** A backlog overflow stops the wire for good, at a prefix of what was queued. */
  lemma OverflowFreezesWire(t: Tx, m: WireMsg, es: seq<Event>)
    requires Fifo(t) && !t.closing
    requires t.pending != [] && !Accepts(t, |Frame(m)|)
    ensures var u := Run(Queue(t, m), es);
            u.closing && u.wire == t.wire && u.outbox == t.outbox + [m] + Queued(es)
            && u.wire <= Stream(u.outbox)
  {
    QueueKeepsFifo(t, m);
    RunKeepsFifo(Queue(t, m), es);
    DoomedWireFrozen(Queue(t, m), es);
    var all := t.outbox + ([m] + Queued(es));
    assert all == t.outbox + [m] + Queued(es);
    StreamAppend(t.outbox, [m] + Queued(es));
  }

  /** Whatever the socket answers and whatever is queued from here on, the bytes on the
      wire are a prefix of what was queued. */
  ghost predicate NeverGaps(t: Tx) {
    forall sends, es :: NoGap(Run(t.(sends := sends), es))
  }

  predicate NoGap(t: Tx) {
    t.wire <= Stream(t.outbox)
  }

  /** A step that leads to a state in which a gap is possible. */
  lemma GapAhead(t: Tx, answers: seq<SendOutcome>, e: Event, u: Tx)
    requires forall sends :: Apply(t.(sends := answers + sends), e) == u.(sends := sends)
    requires !NeverGaps(u)
    ensures !NeverGaps(t)
  {
    var sends, es :| !NoGap(Run(u.(sends := sends), es));
    assert ([e] + es)[1..] == es;
    assert Run(t.(sends := answers + sends), [e] + es) == Run(u.(sends := sends), es);
  }

  /** A doomed connection that owes bytes its buffer does not hold: the next message
      goes straight out, past them. */
  lemma OwingGaps(t: Tx)
    requires t.closing && t.pending == [] && t.wire < Stream(t.outbox)
    ensures !NeverGaps(t)
  {
    var missing: int := Stream(t.outbox)[|t.wire|];
    var m := Msg(PONG, Zeros((missing + 1) % 256));
    var f := Frame(m);
    assert f[0] == Le32(|m.payload|)[0] == (missing + 1) % 256;
    var sends, es := [Sent(|f|)], [DoQueue(m)];
    var u := Run(t.(sends := sends), es);
    assert es[1..] == [];
    assert u == Run(Apply(t.(sends := sends), es[0]), []);
    assert f[..|f|] == f;
    StreamSnoc(t.outbox, m);
    assert u.wire[|t.wire|] == f[0];
    assert !NoGap(u);
  }

  /** With an empty buffer and nothing owed: a direct send interrupted by a signal leads
      there, for the code takes that for a broken connection. */
  lemma EmptyGaps(t: Tx)
    requires t.pending == [] && t.wire == Stream(t.outbox)
    ensures !NeverGaps(t)
  {
    var m := Msg(PONG, []);
    var u := t.(outbox := t.outbox + [m], closing := true);
    StreamSnoc(t.outbox, m);
    OwingGaps(u);
    forall sends
      ensures Apply(t.(sends := [Interrupted] + sends), DoQueue(m)) == u.(sends := sends)
    {
      assert ([Interrupted] + sends)[1..] == sends;
    }
    GapAhead(t, [Interrupted], DoQueue(m), u);
  }

  /** With bytes waiting on a healthy connection: a flush empties the buffer first. */
  lemma WaitingGaps(t: Tx)
    requires !t.closing && t.pending != [] && t.wire + t.pending == Stream(t.outbox)
    ensures !NeverGaps(t)
  {
    var n := |t.pending|;
    var u := t.(wire := t.wire + t.pending, pending := []);
    EmptyGaps(u);
    forall sends
      ensures Apply(t.(sends := [Sent(n)] + sends), DoFlush) == u.(sends := sends)
    {
      var v := t.(sends := [Sent(n)] + sends);
      assert v.sends[1..] == sends;
      assert t.pending[..n] == t.pending && t.pending[n..] == [];
      assert Flush(v) == Flush(u.(sends := sends)) == u.(sends := sends);
    }
    GapAhead(t, [Sent(n)], DoFlush, u);
  }

  /** Exactly which transmit sides keep to their stream under every use and every answer of
      the socket: those that have so far, are doomed, and have bytes waiting. Any other one
      can be made to pass over bytes it owes. */
  lemma GapExactly(t: Tx)
    requires Fifo(t)
    ensures NeverGaps(t) <==> NoGap(t) && t.closing && t.pending != []
  {
    if !NoGap(t) {
      assert t.(sends := t.sends) == t;
      assert Run(t.(sends := t.sends), []) == t;
    } else if t.closing && t.pending != [] {
      forall sends, es
        ensures NoGap(Run(t.(sends := sends), es))
      {
        DoomedWireFrozen(t.(sends := sends), es);
        StreamAppend(t.outbox, Queued(es));
      }
    } else if t.pending != [] {
      WaitingGaps(t);
    } else {
      assert t.wire + [] == t.wire;
      if t.wire == Stream(t.outbox) {
        EmptyGaps(t);
      } else {
        OwingGaps(t);
      }
    }
  }

  /** The shape of a gap: one message lost to a signal, the next one taken. */
  lemma LostThenSent(t: Tx, a: WireMsg, b: WireMsg)
    requires t.pending == [] && |t.sends| >= 2 && t.sends[0] == Interrupted
    requires t.sends[1].Sent? && |Frame(b)| <= t.sends[1].n
    ensures var u := Queue(Queue(t, a), b);
            u.wire == t.wire + Frame(b) && u.outbox == t.outbox + [a] + [b] && u.closing && u.pending == []
  {
    assert Frame(b)[..|Frame(b)|] == Frame(b);
  }

  /** It is one if the second is not a beginning of the first. */
  lemma LostThenSentGaps(t: Tx, a: WireMsg, b: WireMsg)
    requires t.wire == Stream(t.outbox) && |a.payload| == |b.payload| && a != b
    ensures !(t.wire + Frame(b) <= Stream(t.outbox + [a] + [b]))
  {
    StreamSnoc(t.outbox, a);
    StreamSnoc(t.outbox + [a], b);
    FramesDiffer(a, b);
    var n := |t.wire|;
    if t.wire + Frame(b) <= Stream(t.outbox + [a] + [b]) {
      assert (t.wire + Frame(b))[n..] == Frame(b);
      assert Stream(t.outbox + [a] + [b])[n..n + |Frame(b)|] == Frame(a);
    }
  }

  lemma FramesDiffer(a: WireMsg, b: WireMsg)
    requires a != b
    ensures Frame(a) != Frame(b)
  {
    FrameHeader(a, []);
    FrameHeader(b, []);
    assert Frame(a) + [] == Frame(a) && Frame(b) + [] == Frame(b);
    assert Frame(a)[HEADER..] == a.payload && Frame(b)[HEADER..] == b.payload;
  }

  // ---- sockets that do not fail ---------------------------------------

  /** The socket never answers send() with EINTR or an error, and memory never runs out. */
  predicate Gentle(sends: seq<SendOutcome>, allocs: seq<bool>) {
    (forall k :: 0 <= k < |sends| ==> sends[k].Sent? || sends[k].Again?)
    && forall k :: 0 <= k < |allocs| ==> allocs[k]
  }

  /** No gap, and none to come: what is owed is in the buffer, or there is something. */
  predicate Clean(t: Tx) {
    Gentle(t.sends, t.allocs) && NoGap(t) && (t.pending == [] ==> t.wire == Stream(t.outbox))
  }

  lemma AppendClean(t: Tx, data: seq<byte>)
    requires Fits(t) && Gentle(t.sends, t.allocs) && data != []
    requires if t.pending == [] then t.wire + data == Stream(t.outbox) && |data| <= BACKLOG_LIMIT
             else t.wire <= Stream(t.outbox)
    ensures Clean(AppendOrClose(t, data))
  {
    AppendKeepsFit(t, data);
  }

  /** Such a connection keeps to its stream even when it is doomed for another reason. */
  lemma QueueClean(t: Tx, m: WireMsg)
    requires Fits(t) && Clean(t) && |m.payload| <= MAX_PAYLOAD
    ensures Clean(Queue(t, m))
  {
    var t1, f := t.(outbox := t.outbox + [m]), Frame(m);
    StreamSnoc(t.outbox, m);
    if t.pending == [] {
      var t2 := t1.(sends := Tail(t.sends));
      match NextSend(t.sends) {
        case Sent(n) =>
          var k := Min(n, |f|);
          assert t.wire + f[..k] + f[k..] == t.wire + f;
          if k < |f| {
            AppendClean(t2.(wire := t.wire + f[..k]), f[k..]);
          }
        case Again => AppendClean(t2, f);
      }
    } else {
      AppendClean(t1, f);
    }
  }

  lemma {:induction false} FlushClean(t: Tx)
    requires Clean(t) && t.wire + t.pending == Stream(t.outbox)
    ensures Clean(Flush(t))
    decreases |t.sends|
  {
    if t.pending != [] && t.sends != [] && t.sends[0].Sent? {
      var k := Min(t.sends[0].n, |t.pending|);
      assert (t.wire + t.pending[..k]) + t.pending[k..] == t.wire + t.pending;
      FlushClean(t.(sends := t.sends[1..], wire := t.wire + t.pending[..k], pending := t.pending[k..]));
    }
  }
}
