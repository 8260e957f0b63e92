/** What one connection's receive side does: a bounded buffer in front of a
    socket whose answers the environment has fixed in advance. */
module Receive {
  import opened Bytes
  import opened Framing

  /** One answer of recv(): bytes (none at all means end of file), EAGAIN, EINTR,
      any other error. */
  datatype RecvOutcome = Got(data: seq<byte>) | Blocked | Signal | Broken

  /** What the fixed-size receive buffer can hold. */
  type Buffered = s: seq<byte> | |s| <= RX_SIZE

  /** One connection's receive side.
      `rest` is rxbuf[..rx_len]; `recvs` are the answers recv() is still going to
      give (it would block once they run out); `received` is every byte recv()
      delivered and `handled` every message dispatched since accept; `supply` is all the
      peer ever sends. */
  datatype Rx = Rx(rest: Buffered, recvs: seq<RecvOutcome>, received: seq<byte>, handled: seq<WireMsg>,
                   supply: seq<byte>)

  /** The recv() loop of ipc_server_service(); `dead` is what it does to should_close.
      A recv() into a full buffer returns 0 and is taken for end of file. */
  datatype Outcome = Outcome(rx: Rx, dead: bool)

  function ReceiveAll(rx: Rx): Outcome
    decreases |rx.recvs|
  {
    if rx.recvs == [] then Outcome(rx, false)
    else
      match rx.recvs[0]
      case Got(d) =>
        var k := Min(|d|, RX_SIZE - |rx.rest|);
        if k == 0 then Outcome(if d == [] then rx.(recvs := rx.recvs[1..]) else rx, true)
        else
          var rx' := Take(rx, k);
          if RX_SIZE <= |rx'.rest| then Outcome(rx', false) else ReceiveAll(rx')
      case Blocked => Outcome(rx.(recvs := rx.recvs[1..]), false)
      case Signal => ReceiveAll(rx.(recvs := rx.recvs[1..]))
      case Broken => Outcome(rx.(recvs := rx.recvs[1..]), true)
  }

  /** recv() hands over the first `k` bytes it has; the others stay in the socket. */
  function Take(rx: Rx, k: nat): Rx
    requires rx.recvs != [] && rx.recvs[0].Got? && k <= |rx.recvs[0].data| && |rx.rest| + k <= RX_SIZE
  {
    var d := rx.recvs[0].data;
    rx.(rest := rx.rest + d[..k], received := rx.received + d[..k],
        recvs := (if k < |d| then [Got(d[k..])] else []) + rx.recvs[1..])
  }

  /** The dispatch of the message at the front of the buffer is done. */
  function Pop(rx: Rx): Rx
    requires HasMessage(rx.rest)
  {
    rx.(rest := AfterFirst(rx.rest), handled := rx.handled + [First(rx.rest)])
  }

  // ---- what every run keeps -------------------------------------------

  /** What was dispatched, followed by what the buffer still says, is the one-shot
      parse of everything received, however recv() cut it up. */
  ghost predicate InStep(rx: Rx) {
    Parse(rx.received) == Prepend(rx.handled, Parse(rx.rest))
  }

  /** Nothing in the buffer is ready for dispatch, and nothing is wrong with it. */
  predicate Quiet(rx: Rx) {
    !HasMessage(rx.rest) && !Oversized(rx.rest)
  }

  /** All the bytes the socket is still going to deliver. */
  function Incoming(recvs: seq<RecvOutcome>): seq<byte> {
    if recvs == [] then []
    else (if recvs[0].Got? then recvs[0].data else []) + Incoming(recvs[1..])
  }

  lemma TakeInStep(rx: Rx, k: nat)
    requires InStep(rx)
    requires rx.recvs != [] && rx.recvs[0].Got? && k <= |rx.recvs[0].data| && |rx.rest| + k <= RX_SIZE
    ensures InStep(Take(rx, k))
  {
    var d := rx.recvs[0].data[..k];
    ParseResumes(rx.received, d);
    ParseResumes(rx.rest, d);
    var p := Parse(rx.rest);
    if !p.oversized {
      PrependTwice(rx.handled, p.msgs, Parse(p.rest + d));
    }
  }

  lemma TakeConserves(rx: Rx, k: nat)
    requires rx.recvs != [] && rx.recvs[0].Got? && k <= |rx.recvs[0].data| && |rx.rest| + k <= RX_SIZE
    ensures var rx' := Take(rx, k); rx'.received + Incoming(rx'.recvs) == rx.received + Incoming(rx.recvs)
  {
    var d := rx.recvs[0].data;
    var rx' := Take(rx, k);
    assert d[..k] + d[k..] == d;
    if k < |d| {
      assert rx'.recvs[1..] == rx.recvs[1..];
      assert rx'.received + Incoming(rx'.recvs) == rx.received + (d[..k] + (d[k..] + Incoming(rx.recvs[1..])));
    } else {
      assert rx'.recvs == rx.recvs[1..];
    }
  }

  /** However the socket cuts the stream up, the recv() loop stays in step with the
      one-shot parse and dispatches nothing itself. */
  lemma {:induction false} ReceiveInStep(rx: Rx)
    requires InStep(rx)
    ensures InStep(ReceiveAll(rx).rx) && ReceiveAll(rx).rx.handled == rx.handled
    decreases |rx.recvs|
  {
    if rx.recvs != [] {
      match rx.recvs[0] {
        case Got(d) =>
          var k := Min(|d|, RX_SIZE - |rx.rest|);
          if k != 0 {
            TakeInStep(rx, k);
            if |Take(rx, k).rest| < RX_SIZE {
              ReceiveInStep(Take(rx, k));
            }
          }
        case Signal => ReceiveInStep(rx.(recvs := rx.recvs[1..]));
        case _ =>
      }
    }
  }

  /** What was delivered, followed by what is still to come, is all the peer sends. */
  ghost predicate Conserved(rx: Rx) {
    rx.received + Incoming(rx.recvs) == rx.supply
  }

  /** The recv() loop neither loses nor invents nor reorders a byte. */
  lemma {:induction false} ReceiveConserves(rx: Rx)
    ensures var rx' := ReceiveAll(rx).rx;
            rx'.received + Incoming(rx'.recvs) == rx.received + Incoming(rx.recvs) && rx'.supply == rx.supply
    decreases |rx.recvs|
  {
    if rx.recvs != [] {
      match rx.recvs[0] {
        case Got(d) =>
          var k := Min(|d|, RX_SIZE - |rx.rest|);
          if k != 0 {
            TakeConserves(rx, k);
            if |Take(rx, k).rest| < RX_SIZE {
              ReceiveConserves(Take(rx, k));
            }
          }
        case Signal => ReceiveConserves(rx.(recvs := rx.recvs[1..]));
        case _ =>
      }
    }
  }

  /** The socket never reports an end of file or an error. */
  ghost predicate StaysUp(recvs: seq<RecvOutcome>) {
    forall i :: 0 <= i < |recvs| ==> recvs[i] != Got([]) && recvs[i] != Broken
  }

  /** A quiet buffer has room, so recv() is never asked for zero bytes: the loop
      ends the connection only if the socket really reported an end or an error. */
  lemma {:induction false} NoFalseEnd(rx: Rx)
    requires |rx.rest| < RX_SIZE && StaysUp(rx.recvs)
    ensures !ReceiveAll(rx).dead
    decreases |rx.recvs|
  {
    if rx.recvs != [] {
      match rx.recvs[0] {
        case Got(d) =>
          var rx' := Take(rx, Min(|d|, RX_SIZE - |rx.rest|));
          if |rx'.rest| < RX_SIZE {
            NoFalseEnd(rx');
          }
        case Signal => NoFalseEnd(rx.(recvs := rx.recvs[1..]));
        case _ =>
      }
    }
  }

  lemma QuietHasRoom(rx: Rx)
    requires Quiet(rx)
    ensures |rx.rest| < RX_SIZE && Parse(rx.rest) == Parsed([], rx.rest, false)
  {
  }

  lemma PopInStep(rx: Rx)
    requires InStep(rx) && HasMessage(rx.rest)
    ensures InStep(Pop(rx))
  {
    PrependTwice(rx.handled, [First(rx.rest)], Parse(AfterFirst(rx.rest)));
  }

  /** The two halves meet: a quiet buffer holds exactly the unparsed tail, and
      exactly the whole messages of the stream have been dispatched. */
  lemma QuietMeansParsed(rx: Rx)
    requires InStep(rx) && Quiet(rx)
    ensures Parse(rx.received) == Parsed(rx.handled, rx.rest, false)
  {
    assert rx.handled + [] == rx.handled;
  }
}
