/** client_conn_t and the operations that work on its buffers in place. */
module Connection {
  import opened Bytes
  import opened Framing
  import opened Names
  import opened Transmit
  import opened Receive
  import opened Bus

  class Conn {
    var fd: int
    var inUse: bool
    var registered: bool
    var shouldClose: bool
    var name: Name

    const rxbuf: array<byte>
    var rxLen: nat

    var txbuf: array<byte>   // tx_cap is its length
    var txLen: nat
    var txSent: nat

    // The socket and the allocator: the answers they are going to give.
    var sends: seq<SendOutcome>
    var recvs: seq<RecvOutcome>
    var allocs: seq<bool>

    ghost var serial: nat
    ghost var gentle: bool
    ghost var wire: seq<byte>
    ghost var outbox: seq<WireMsg>
    ghost var received: seq<byte>
    ghost var handled: seq<WireMsg>
    ghost var supply: seq<byte>

    ghost predicate Valid()
      reads this
    {
      && rxbuf.Length == RX_SIZE && rxLen <= RX_SIZE
      && txSent <= txLen <= txbuf.Length && CapOk(txbuf.Length)
      && rxbuf != txbuf
    }

    /** The heap this connection owns. */
    ghost function Repr(): set<object>
      reads this
    {
      {this, rxbuf, txbuf}
    }

    ghost function TxModel(): Tx
      requires Valid()
      reads this, txbuf
    {
      Tx(shouldClose, txbuf[txSent..txLen], txbuf.Length, sends, allocs, wire, outbox)
    }

    ghost function RxModel(): Rx
      requires Valid()
      reads this, rxbuf
    {
      Rx(rxbuf[..rxLen], recvs, received, handled, supply)
    }

    ghost function Model(): Option<Link>
      requires Valid()
      reads this, rxbuf, txbuf
    {
      if inUse then Some(Link(serial, fd, gentle, registered, name, RxModel(), TxModel())) else None
    }

    /** realloc() of txbuf: the old bytes that fit move along; on failure nothing changes. */
    method Realloc(newcap: nat) returns (ok: bool)
      requires Valid() && txLen <= newcap && CapOk(newcap)
      modifies this`txbuf, this`allocs
      ensures Valid() && ok == NextAlloc(old(allocs)) && allocs == Tail(old(allocs))
      ensures txbuf[..txLen] == old(txbuf[..txLen])
      ensures if ok then fresh(txbuf) && txbuf.Length == newcap else txbuf == old(txbuf)
    {
      ok := NextAlloc(allocs);
      allocs := Tail(allocs);
      if ok {
        var nb := new byte[newcap];
        forall i | 0 <= i < txLen {
          nb[i] := txbuf[i];
        }
        txbuf := nb;
      }
    }

    /** append_tx(): compact, grow or shrink, copy. */
    method AppendTx(data: seq<byte>) returns (ok: bool)
      requires Valid()
      modifies this`txbuf, this`txLen, this`txSent, this`allocs, txbuf
      ensures Valid() && (txbuf == old(txbuf) || fresh(txbuf))
      ensures ok == Accepts(old(TxModel()), |data|)
      ensures TxModel() == Append(old(TxModel()), data)
    {
      Compact();
      ghost var t := TxModel();
      var needed := txLen + |data|;
      assert needed == |t.pending| + |data|;
      if needed > BACKLOG_LIMIT {
        return false;
      }
      ok := MakeRoom(needed);
      assert ok == Accepts(t, |data|);
      if ok {
        CopyIn(data);
      }
    }

    /** The capacity part of append_tx(): grow when the data does not fit, shrink
        when it would leave most of the buffer unused. */
    method MakeRoom(needed: nat) returns (ok: bool)
      requires Valid() && txSent == 0 && txLen <= needed <= BACKLOG_LIMIT
      modifies this`txbuf, this`allocs
      ensures Valid() && (txbuf == old(txbuf) || fresh(txbuf))
      ensures ok == (needed > old(txbuf.Length) ==> NextAlloc(old(allocs)))
      ensures TxModel() == old(TxModel()).(
                cap := if ok then CapFor(old(txbuf.Length), needed, NextAlloc(old(allocs))) else old(txbuf.Length),
                allocs := if Reallocates(old(txbuf.Length), needed) then Tail(old(allocs)) else old(allocs))
    {
      FitFromCap(txbuf.Length, needed);
      ghost var kept := txbuf[..txLen];
      ok := true;
      if needed > txbuf.Length {
        var newcap := GrowTo(if txbuf.Length != 0 then 2 * txbuf.Length else MIN_CAP, needed);
        ok := Realloc(newcap);
      } else if txbuf.Length > MIN_CAP && needed < txbuf.Length / 4 {
        var newcap := GrowTo(MIN_CAP, needed);
        if newcap < txbuf.Length {
          var shrunk := Realloc(newcap);   // failure is not fatal: keep the larger buffer
        }
      }
      assert txbuf[0..txLen] == kept;
    }

    method CopyIn(data: seq<byte>)
      requires Valid() && txLen + |data| <= txbuf.Length
      modifies this`txLen, txbuf
      ensures Valid() && TxModel() == old(TxModel()).(pending := old(TxModel()).pending + data)
    {
      forall i | 0 <= i < |data| {
        txbuf[txLen + i] := data[i];
      }
      txLen := txLen + |data|;
      assert txbuf[txSent..txLen] == old(txbuf[txSent..txLen]) + data;
    }

    /** The pending bytes move to the front of the buffer. */
    method Compact()
      requires Valid()
      modifies this`txLen, this`txSent, txbuf
      ensures Valid() && txSent == 0 && TxModel() == old(TxModel())
    {
      if txSent > 0 {
        var remaining := txLen - txSent;
        forall i | 0 <= i < remaining {
          txbuf[i] := txbuf[txSent + i];
        }
        assert txbuf[..remaining] == old(txbuf[txSent..txLen]);
        txLen, txSent := remaining, 0;
      }
    }

    /** The doubling loops of append_tx(). */
    static method GrowTo(from: nat, needed: nat) returns (cap: nat)
      requires 0 < from
      ensures cap == Fit(from, needed)
    {
      cap := from;
      while cap < needed
        invariant 0 < cap && Fit(cap, needed) == Fit(from, needed)
        decreases needed - cap
      {
        cap := cap * 2;
      }
    }

    /** send() on this connection's socket. */
    method Send(data: seq<byte>) returns (o: SendOutcome)
      modifies this`sends, this`wire
      ensures sends == Tail(old(sends))
      ensures var answer := NextSend(old(sends));
              o == if answer.Sent? then Sent(Min(answer.n, |data|)) else answer
      ensures wire == if o.Sent? then old(wire) + data[..o.n] else old(wire)
    {
      o := NextSend(sends);
      sends := Tail(sends);
      if o.Sent? {
        o := Sent(Min(o.n, |data|));
        wire := wire + data[..o.n];
      }
    }

    /** One send() of everything that waits. */
    method SendPending() returns (o: SendOutcome)
      requires Valid() && txSent < txLen
      modifies this`txSent, this`sends, this`wire
      ensures Valid()
      ensures var t, answer := old(TxModel()), NextSend(old(sends));
              var k := if answer.Sent? then Min(answer.n, |t.pending|) else 0;
              o == (if answer.Sent? then Sent(k) else answer)
              && TxModel() == t.(sends := Tail(t.sends), wire := t.wire + t.pending[..k], pending := t.pending[k..])
    {
      ghost var waiting := txbuf[txSent..txLen];
      o := Send(txbuf[txSent..txLen]);
      if o.Sent? {
        txSent := txSent + o.n;
        assert txbuf[txSent..txLen] == waiting[o.n..];
      }
    }

    /** flush_tx(). */
    method FlushTx()
      requires Valid()
      modifies this`txLen, this`txSent, this`sends, this`wire, this`shouldClose
      ensures Valid() && TxModel() == Flush(old(TxModel()))
    {
      while txSent < txLen
        invariant Valid() && Flush(TxModel()) == Flush(old(TxModel()))
        decreases |sends|
      {
        ghost var t := TxModel();
        assert t.wire + t.pending[..0] == t.wire && t.pending[0..] == t.pending;
        var o := SendPending();
        match o {
          case Again => return;
          case Interrupted =>
          case Refused => shouldClose := true; return;
          case Sent(n) =>
        }
      }
      txLen, txSent := 0, 0;
    }

    /** queue_send(). */
    method QueueSend(m: WireMsg)
      requires Valid()
      modifies this`txbuf, this`txLen, this`txSent, this`allocs, this`sends, this`wire, this`outbox, this`shouldClose, txbuf
      ensures Valid() && (txbuf == old(txbuf) || fresh(txbuf))
      ensures TxModel() == Queue(old(TxModel()), m)
    {
      var frame := Frame(m);
      outbox := outbox + [m];
      if txLen == txSent {
        var o := Send(frame);
        match o {
          case Sent(n) =>
            if n < |frame| {
              AppendTxOrClose(frame[n..]);
            }
          case Again => AppendTxOrClose(frame);
          case Interrupted => shouldClose := true;
          case Refused => shouldClose := true;
        }
      } else {
        AppendTxOrClose(frame);
      }
    }

    method AppendTxOrClose(data: seq<byte>)
      requires Valid()
      modifies this`txbuf, this`txLen, this`txSent, this`allocs, this`shouldClose, txbuf
      ensures Valid() && (txbuf == old(txbuf) || fresh(txbuf))
      ensures TxModel() == AppendOrClose(old(TxModel()), data)
    {
      var ok := AppendTx(data);
      if !ok {
        shouldClose := true;
      }
    }

    /** recv() into the free part of rxbuf. */
    method Recv() returns (o: RecvOutcome)
      requires Valid() && recvs != []
      modifies this`recvs, this`received, this`rxLen, rxbuf
      ensures Valid() && o.Got? == old(recvs[0]).Got?
      ensures o.Got? ==>
                var k := Min(|old(recvs[0]).data|, RX_SIZE - old(rxLen));
                |o.data| == k
                && RxModel() == if k == 0 && old(recvs[0]).data != [] then old(RxModel()) else Take(old(RxModel()), k)
      ensures !o.Got? ==> o == old(recvs[0]) && RxModel() == old(RxModel()).(recvs := old(recvs)[1..])
    {
      o := recvs[0];
      if o.Got? {
        var d := o.data;
        var k := Min(|d|, rxbuf.Length - rxLen);
        forall i | 0 <= i < k {
          rxbuf[rxLen + i] := d[i];
        }
        rxLen := rxLen + k;
        recvs := (if k < |d| then [Got(d[k..])] else []) + recvs[1..];
        received := received + d[..k];
        o := Got(d[..k]);
        assert rxbuf[..rxLen] == old(rxbuf[..rxLen]) + d[..k];
        if k == 0 && d != [] {
          assert recvs == old(recvs);
        }
      } else {
        recvs := recvs[1..];
      }
    }

    /** The recv() loop of ipc_server_service(). */
    method ReadSocket()
      requires Valid()
      modifies this`recvs, this`received, this`rxLen, this`shouldClose, rxbuf
      ensures Valid()
      ensures var o := ReceiveAll(old(RxModel()));
              RxModel() == o.rx && shouldClose == (old(shouldClose) || o.dead)
    {
      while recvs != []   // recv() would block once its answers run out
        invariant Valid() && shouldClose == old(shouldClose)
        invariant ReceiveAll(RxModel()) == ReceiveAll(old(RxModel()))
        decreases |recvs|
      {
        var o := Recv();
        match o {
          case Blocked => return;
          case Signal =>
          case Broken => shouldClose := true; return;
          case Got(d) =>
            if d == [] {
              shouldClose := true;
              return;
            }
            if rxLen >= rxbuf.Length {
              return;
            }
        }
      }
    }

    /** The dispatched message leaves the buffer. */
    method DropFirst(framelen: nat)
      requires Valid() && HasMessage(rxbuf[..rxLen]) && framelen == HEADER + HeaderLength(rxbuf[..rxLen])
      modifies this`rxLen, this`handled, rxbuf
      ensures Valid() && RxModel() == Pop(old(RxModel()))
    {
      ghost var was := rxbuf[..rxLen];
      handled := handled + [First(was)];
      var left := rxLen - framelen;
      forall i | 0 <= i < left {
        rxbuf[i] := rxbuf[framelen + i];
      }
      rxLen := left;
      assert forall i | 0 <= i < left :: rxbuf[i] == was[framelen + i];
      assert rxbuf[..rxLen] == was[framelen..];
    }

    /** memset() of the whole structure; txbuf has been freed, or never was. */
    method Reset()
      requires Valid()
      modifies this`txbuf, this`rxLen, this`txLen, this`txSent, this`inUse, this`registered, this`shouldClose, this`name
      ensures Valid() && !inUse && !registered && !shouldClose && name == []
      ensures rxLen == txLen == txSent == 0 && txbuf.Length == 0 && fresh(txbuf)
    {
      txbuf := new byte[0];
      rxLen, txLen, txSent := 0, 0, 0;
      inUse, registered, shouldClose, name := false, false, false, [];
    }

    /** close_client(): the slot is as good as new. */
    method Close()
      requires Valid()
      modifies this
      ensures Valid() && Model() == None && fresh(txbuf)
    {
      Reset();
      fd := -1;
    }

    /** A new connection takes the slot. */
    method Open(a: Arrival, ghost serial: nat)
      requires Valid() && a.Accepted?
      modifies this
      ensures Valid() && Model() == Some(NewLink(serial, a)) && fresh(txbuf)
    {
      Reset();
      fd, inUse := a.fd, true;
      this.serial, gentle := serial, Gentle(a.sends, a.allocs);
      Connect(a.sends, a.allocs, a.recvs);
      assert RxModel() == NewLink(serial, a).rx && TxModel() == NewLink(serial, a).tx;
    }

    /** A fresh socket, with no history yet. */
    method Connect(sends: seq<SendOutcome>, allocs: seq<bool>, recvs: seq<RecvOutcome>)
      requires Valid() && rxLen == txLen == txSent == 0
      modifies this`sends, this`allocs, this`recvs, this`wire, this`outbox, this`received, this`handled,
               this`supply
      ensures Valid() && RxModel() == Rx([], recvs, [], [], Incoming(recvs))
      ensures TxModel() == Fresh(sends, allocs).(closing := shouldClose, cap := txbuf.Length)
    {
      this.sends, this.allocs, this.recvs := sends, allocs, recvs;
      wire, outbox, received, handled, supply := [], [], [], [], Incoming(recvs);
    }

    /** A slot of the table calloc() made. */
    constructor ()
      ensures Valid() && Model() == None && fresh(rxbuf) && fresh(txbuf)
    {
      rxbuf := new byte[RX_SIZE];
      txbuf := new byte[0];
      inUse, registered, shouldClose, name, fd := false, false, false, [], -1;
      rxLen, txLen, txSent := 0, 0, 0;
      sends, allocs, recvs := [], [], [];
    }
  }
}
