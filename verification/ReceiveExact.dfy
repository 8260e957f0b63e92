/** What the recv() loop does read, and when it ends a connection. */
module ReceiveExact {
  import opened Bytes
  import opened Framing
  import opened Receive

  /** The bytes the socket has before it would block, ends or fails. */
  function Available(recvs: seq<RecvOutcome>): seq<byte> {
    if recvs == [] then []
    else
      match recvs[0]
      case Got(d) => if d == [] then [] else d + Available(recvs[1..])
      case Signal => Available(recvs[1..])
      case Blocked => []
      case Broken => []
  }

  /** The socket reports an end of file or an error before it would block. */
  predicate Ends(recvs: seq<RecvOutcome>) {
    recvs != []
    && match recvs[0]
       case Got(d) => d == [] || Ends(recvs[1..])
       case Signal => Ends(recvs[1..])
       case Blocked => false
       case Broken => true
  }

  /** All that was there has been read, as far as there was room; and the connection is
      ended exactly if an end or an error was reported before the buffer was full. */
  predicate ReadUp(rx: Rx, o: Outcome) {
    var a := Available(rx.recvs);
    |rx.rest| < 4104
    && var k := Min(|a|, 4104 - |rx.rest|);
       o.rx.received == rx.received + a[..k] && o.rx.rest == rx.rest + a[..k]
       && (o.dead <==> |rx.rest| + |a| < 4104 && Ends(rx.recvs))
  }

  /** That is what the recv() loop does. */
  lemma {:induction false} ReceivesUp(rx: Rx)
    requires |rx.rest| < 4104
    ensures ReadUp(rx, ReceiveAll(rx))
    decreases |rx.recvs|
  {
    if rx.recvs != [] {
      match rx.recvs[0] {
        case Got(d) =>
          var k := Min(|d|, RX_SIZE - |rx.rest|);
          if k != 0 {
            if |Take(rx, k).rest| < RX_SIZE {
              ReceivesUp(Take(rx, k));
              TakesMore(rx, k, ReceiveAll(rx));
            } else {
              TakesFull(rx, k);
            }
          }
        case Signal => ReceivesUp(rx.(recvs := rx.recvs[1..]));
        case _ =>
      }
    }
  }

  lemma TakesMore(rx: Rx, k: nat, o: Outcome)
    requires rx.recvs != [] && rx.recvs[0].Got? && rx.recvs[0].data != []
    requires k == |rx.recvs[0].data| && |rx.rest| + k < RX_SIZE && ReadUp(Take(rx, k), o)
    ensures ReadUp(rx, o)
  {
    var d, a := rx.recvs[0].data, Available(rx.recvs[1..]);
    TakeExact(rx, k);
    PrefixesMeet(rx.received, d, a, RX_SIZE - |rx.rest| - |d|);
    PrefixesMeet(rx.rest, d, a, RX_SIZE - |rx.rest| - |d|);
  }

  lemma TakesFull(rx: Rx, k: nat)
    requires rx.recvs != [] && rx.recvs[0].Got? && rx.recvs[0].data != [] && |rx.rest| < RX_SIZE
    requires k == Min(|rx.recvs[0].data|, RX_SIZE - |rx.rest|) && |rx.rest| + k == RX_SIZE
    ensures ReadUp(rx, Outcome(Take(rx, k), false))
  {
    var d, a := rx.recvs[0].data, Available(rx.recvs[1..]);
    TakeExact(rx, k);
    assert (d + a)[..k] == d[..k];
  }

  lemma TakeExact(rx: Rx, k: nat)
    requires rx.recvs != [] && rx.recvs[0].Got? && rx.recvs[0].data != []
    requires k == Min(|rx.recvs[0].data|, RX_SIZE - |rx.rest|)
    ensures var d, t := rx.recvs[0].data, Take(rx, k);
            t.received == rx.received + d[..k] && t.rest == rx.rest + d[..k]
            && Available(rx.recvs) == d + Available(rx.recvs[1..]) && Ends(rx.recvs) == Ends(rx.recvs[1..])
            && (k == |d| ==> t.recvs == rx.recvs[1..] && d[..k] == d)
            && (k < |d| ==> (d + Available(rx.recvs[1..]))[..k] == d[..k])
  {
  }

  lemma PrefixesMeet(before: seq<byte>, d: seq<byte>, a: seq<byte>, room: nat)
    ensures var k := Min(|a|, room);
            before + d + a[..k] == before + (d + a)[..Min(|d + a|, |d| + room)]
  {
    var k := Min(|a|, room);
    assert (d + a)[..|d| + k] == d + a[..k];
  }
}
