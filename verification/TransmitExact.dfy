/** What queueing and flushing do send, and when they give a connection up. */
module TransmitExact {
  import opened Bytes
  import opened Framing
  import opened Transmit

  /** There is room for `n` more bytes: 256 KiB are not exceeded, and they fit or memory
      is found. */
  predicate Room(t: Tx, n: nat) {
    |t.pending| + n <= 262144 && (|t.pending| + n <= t.cap || t.allocs == [] || t.allocs[0])
  }

  /** What becomes of a connection when `data` is to wait behind what waits already. */
  predicate Waits(t: Tx, u: Tx, data: seq<byte>) {
    u.wire == t.wire && u.outbox == t.outbox
    && if Room(t, |data|) then u.pending == t.pending + data && u.closing == t.closing
       else u.pending == t.pending && u.closing
  }

  lemma AppendExact(t: Tx, data: seq<byte>)
    ensures Waits(t, AppendOrClose(t, data), data)
  {
  }

  /** queue_send() while bytes wait: the message joins them, or there is no room and the
      connection is given up. */
  lemma QueueBehind(t: Tx, m: WireMsg)
    requires t.pending != []
    ensures Waits(t.(outbox := t.outbox + [m]), Queue(t, m), Frame(m))
  {
    AppendExact(t.(outbox := t.outbox + [m]), Frame(m));
  }

  /** queue_send() with nothing waiting: the socket gets what it takes at once and the
      rest waits; if it fails, the connection is given up and nothing goes out. */
  lemma QueueDirect(t: Tx, m: WireMsg)
    requires t.pending == []
    ensures var f, u := Frame(m), Queue(t, m);
            if t.sends != [] && (t.sends[0] == Interrupted || t.sends[0] == Refused)
            then u.wire == t.wire && u.pending == [] && u.closing
            else
              var k := if t.sends != [] && t.sends[0].Sent? then Min(t.sends[0].n, |f|) else 0;
              u.wire == t.wire + f[..k]
              && if k == |f| then u.pending == [] && u.closing == t.closing
                 else if Room(t, |f| - k) then u.pending == f[k..] && u.closing == t.closing
                 else u.pending == [] && u.closing
  {
    var f := Frame(m);
    var t1 := t.(outbox := t.outbox + [m], sends := Tail(t.sends));
    assert f[0..] == f && t.wire + f[..0] == t.wire;
    match NextSend(t.sends) {
      case Sent(n) => AppendExact(t1.(wire := t.wire + f[..Min(n, |f|)]), f[Min(n, |f|)..]);
      case Again => AppendExact(t1, f);
      case Interrupted =>
      case Refused =>
    }
  }

  /** How many bytes the socket takes before it would block or fails. */
  function Uptake(sends: seq<SendOutcome>): nat {
    if sends == [] then 0
    else
      match sends[0]
      case Sent(n) => n + Uptake(sends[1..])
      case Interrupted => Uptake(sends[1..])
      case Again => 0
      case Refused => 0
  }

  /** It fails before it would block. */
  predicate Fails(sends: seq<SendOutcome>) {
    sends != [] && (sends[0] == Refused || ((sends[0].Sent? || sends[0] == Interrupted) && Fails(sends[1..])))
  }

  /** As many waiting bytes have gone out as the socket takes, in order, and the
      connection is given up exactly if the socket failed while some still waited. */
  predicate FlushedUp(t: Tx, u: Tx) {
    var k := Min(|t.pending|, Uptake(t.sends));
    u.wire == t.wire + t.pending[..k] && u.pending == t.pending[k..]
    && (u.closing <==> t.closing || (Uptake(t.sends) < |t.pending| && Fails(t.sends)))
  }

  /** That is what flush_tx() does. */
  lemma {:induction false} FlushExact(t: Tx)
    ensures FlushedUp(t, Flush(t))
    decreases |t.sends|
  {
    if t.pending != [] && t.sends != [] && t.sends[0].Sent? {
      var k := Min(t.sends[0].n, |t.pending|);
      FlushExact(t.(sends := t.sends[1..], wire := t.wire + t.pending[..k], pending := t.pending[k..]));
      FlushedMore(t, Flush(t));
    } else {
      assert t.wire + t.pending[..0] == t.wire && t.pending[0..] == t.pending;
      if t.pending != [] && t.sends != [] && t.sends[0] == Interrupted {
        FlushExact(t.(sends := t.sends[1..]));
      }
    }
  }

  lemma FlushedMore(t: Tx, u: Tx)
    requires t.pending != [] && t.sends != [] && t.sends[0].Sent?
    requires var k := Min(t.sends[0].n, |t.pending|);
             FlushedUp(t.(sends := t.sends[1..], wire := t.wire + t.pending[..k], pending := t.pending[k..]), u)
    ensures FlushedUp(t, u)
  {
    var k := Min(t.sends[0].n, |t.pending|);
    SlicesMeet(t.wire, t.pending, k, Min(|t.pending| - k, Uptake(t.sends[1..])));
  }

  lemma SlicesMeet(wire: seq<byte>, p: seq<byte>, k: nat, n: nat)
    requires k + n <= |p|
    ensures wire + p[..k] + p[k..][..n] == wire + p[..k + n] && p[k..][n..] == p[k + n..]
  {
    assert p[..k] + p[k..][..n] == p[..k + n];
  }

  /** Nothing is ever queued that would exceed 256 KiB. */
  predicate Fitting(t: Tx, es: seq<Event>)
    decreases |es|
  {
    es == []
    || ((es[0].DoQueue? ==> |es[0].m.payload| <= 4096 && |t.pending| + |Frame(es[0].m)| <= 262144)
        && Fitting(Apply(t, es[0]), es[1..]))
  }

  lemma ApplyStaysOpen(t: Tx, e: Event)
    requires Fifo(t) && !t.closing && Gentle(t.sends, t.allocs)
    requires e.DoQueue? ==> |e.m.payload| <= 4096 && |t.pending| + |Frame(e.m)| <= 262144
    ensures var u := Apply(t, e); !u.closing && Gentle(u.sends, u.allocs)
  {
    match e {
      case DoQueue(m) =>
        if t.pending == [] {
          QueueDirect(t, m);
        } else {
          QueueBehind(t, m);
        }
      case DoFlush =>
        FlushExact(t);
        GentleFlush(t);
    }
  }

  lemma {:induction false} GentleFlush(t: Tx)
    requires Gentle(t.sends, t.allocs)
    ensures Gentle(Flush(t).sends, Flush(t).allocs) && !Fails(t.sends)
    decreases |t.sends|
  {
    if t.sends != [] && t.sends[0].Sent? {
      var k := Min(t.sends[0].n, |t.pending|);
      GentleFlush(t.(sends := t.sends[1..], wire := t.wire + t.pending[..k], pending := t.pending[k..]));
    }
  }

  /** A connection whose socket does not fail, for which memory suffices and whose backlog
      stays within 256 KiB is never given up by queueing or flushing, and loses nothing. */
  lemma {:induction false} RunStaysOpen(t: Tx, es: seq<Event>)
    requires Fifo(t) && !t.closing && Gentle(t.sends, t.allocs) && Fitting(t, es)
    ensures var u := Run(t, es);
            !u.closing && u.wire + u.pending == Stream(u.outbox) && u.outbox == t.outbox + Queued(es)
    decreases |es|
  {
    RunKeepsFifo(t, es);
    if es != [] {
      ApplyStaysOpen(t, es[0]);
      ApplyKeepsFifo(t, es[0]);
      RunStaysOpen(Apply(t, es[0]), es[1..]);
    }
  }

  /** Memory is given back: after an append for which memory is found, the buffer is at
      most four times as large as what waits in it, or 4 KiB. */
  lemma CapacityFits(t: Tx, data: seq<byte>)
    requires Fits(t) && Room(t, |data|) && (t.allocs == [] || t.allocs[0]) && 0 < |t.pending| + |data|
    ensures var u := Append(t, data); |u.pending| <= u.cap && (u.cap <= 4096 || u.cap <= 4 * |u.pending|)
  {
    AppendKeepsFit(t, data);
    FourPages(t.cap);
  }

  lemma FourPages(cap: nat)
    requires CapOk(cap)
    ensures cap % 4 == 0
  {
    if cap != 0 {
      var k: nat :| k <= 6 && cap == Pages(k);
      PagesByFour(k);
    }
  }

  lemma {:induction false} PagesByFour(k: nat)
    ensures Pages(k) % 4 == 0
  {
    if k != 0 {
      PagesByFour(k - 1);
    }
  }
}
