/** bulk_rx_t: the reassembly buffers, updated chunk by chunk. */
module BulkRx {
  import opened Bytes
  import opened BulkFormat
  import opened BulkReceive

  /** The chunk numbers marked as seen. */
  ghost function SeenIn(marks: seq<bool>): (r: set<nat>)
    ensures forall i: nat :: i in r <==> i < |marks| && marks[i]
  {
    set i: nat | i < |marks| && marks[i]
  }

  /** Memory and lengths that make up 64 chunk slots. */
  ghost predicate Fits(mem: seq<byte>, lens: seq<nat>) {
    |mem| == MAX_CHUNKS * CHUNK_MAX && |lens| == MAX_CHUNKS && forall i :: 0 <= i < |lens| ==> lens[i] <= CHUNK_MAX
  }

  ghost function SlotIn(mem: seq<byte>, lens: seq<nat>, i: nat): seq<byte>
    requires Fits(mem, lens) && i < MAX_CHUNKS
  {
    mem[i * CHUNK_MAX..i * CHUNK_MAX + lens[i]]
  }

  /** What the chunk slots hold. */
  ghost function SlotsIn(mem: seq<byte>, lens: seq<nat>): (r: seq<seq<byte>>)
    requires Fits(mem, lens)
    ensures |r| == MAX_CHUNKS && forall k :: 0 <= k < |r| ==> r[k] == SlotIn(mem, lens, k)
  {
    seq(MAX_CHUNKS, i requires 0 <= i < MAX_CHUNKS => SlotIn(mem, lens, i))
  }

  /** Writing one slot's bytes at their place leaves the other slots alone. */
  lemma SlotsUpdate(mem: seq<byte>, lens: seq<nat>, mem': seq<byte>, chunk: nat, bytes: seq<byte>)
    requires Fits(mem, lens) && chunk < MAX_CHUNKS && |bytes| <= CHUNK_MAX && |mem'| == |mem|
    requires forall j :: 0 <= j < |mem| ==>
               var at := chunk * CHUNK_MAX; mem'[j] == if at <= j < at + |bytes| then bytes[j - at] else mem[j]
    ensures Fits(mem', lens[chunk := |bytes|])
    ensures SlotsIn(mem', lens[chunk := |bytes|]) == SlotsIn(mem, lens)[chunk := bytes]
  {
    var lens' := lens[chunk := |bytes|];
    forall i: nat | i < MAX_CHUNKS
      ensures SlotIn(mem', lens', i) == if i == chunk then bytes else SlotIn(mem, lens, i)
    {
      if i == chunk {
        assert SlotIn(mem', lens', i) == bytes;
      } else {
        assert i < chunk ==> i * CHUNK_MAX + CHUNK_MAX <= chunk * CHUNK_MAX;
        assert chunk < i ==> chunk * CHUNK_MAX + CHUNK_MAX <= i * CHUNK_MAX;
        assert SlotIn(mem', lens', i) == SlotIn(mem, lens, i);
      }
    }
  }

  class Receiver {
    var active: bool
    var transferId: u32
    var totalChunks: u32
    var chunksReceived: nat
    const seen: array<bool>
    const chunkLen: array<nat>
    const data: array<byte>

    ghost predicate Valid()
      reads this, seen, chunkLen, data
    {
      && seen.Length == MAX_CHUNKS && Fits(data[..], chunkLen[..])
      && chunksReceived == |SeenIn(seen[..])|
    }

    /** Between calls an active session is never too large. */
    ghost predicate Ready()
      reads this, seen, chunkLen, data
    {
      Valid() && (active ==> totalChunks <= MAX_CHUNKS)
    }

    ghost function Slots(): (r: seq<seq<byte>>)
      requires Fits(data[..], chunkLen[..])
      reads chunkLen, data
    {
      SlotsIn(data[..], chunkLen[..])
    }

    ghost function Model(): (s: Session)
      requires Valid()
      reads this, seen, chunkLen, data
      ensures Ready() ==> Sound(s)
    {
      Session(active, transferId, totalChunks, SeenIn(seen[..]), Slots())
    }

    constructor ()
      ensures Ready() && !active && fresh(seen) && fresh(chunkLen) && fresh(data)
    {
      active, transferId, totalChunks, chunksReceived := false, 0, 0, 0;
      seen := new bool[MAX_CHUNKS](_ => false);
      chunkLen := new nat[MAX_CHUNKS](_ => 0);
      data := new byte[MAX_CHUNKS * CHUNK_MAX](_ => 0);
      new;
      assert SeenIn(seen[..]) == {};
    }

    /** The session switch at the top of handle_bulk_chunk(). */
    method JoinSession(tid: u32, total: u32)
      requires Valid()
      modifies this, seen
      ensures Valid() && Model() == Join(old(Model()), tid, total)
    {
      if !active || transferId != tid {
        forall i | 0 <= i < seen.Length {
          seen[i] := false;
        }
        active, transferId, totalChunks, chunksReceived := true, tid, total, 0;
        assert SeenIn(seen[..]) == {};
      }
    }

    /** A chunk not seen before goes to its place. */
    method StoreChunk(chunk: nat, bytes: seq<byte>)
      requires Valid() && chunk < MAX_CHUNKS && |bytes| <= CHUNK_MAX
      modifies this`chunksReceived, seen, chunkLen, data
      ensures Valid() && Model() == Keep(old(Model()), chunk, bytes)
    {
      if !seen[chunk] {
        ghost var mem: seq<byte> := data[..];
        ghost var lens: seq<nat> := chunkLen[..];
        ghost var was := SeenIn(seen[..]);
        CopyTo(chunk * CHUNK_MAX, bytes);
        chunkLen[chunk] := |bytes|;
        assert chunkLen[..] == lens[chunk := |bytes|];
        SlotsUpdate(mem, lens, data[..], chunk, bytes);
        seen[chunk] := true;
        chunksReceived := chunksReceived + 1;
        assert SeenIn(seen[..]) == was + {chunk};
      }
    }

    method CopyTo(at: nat, bytes: seq<byte>)
      requires at + |bytes| <= data.Length
      modifies data
      ensures forall j :: 0 <= j < data.Length ==>
                data[j] == if at <= j < at + |bytes| then bytes[j - at] else old(data[j])
    {
      forall i | 0 <= i < |bytes| {
        data[at + i] := bytes[i];
      }
    }

    /** The assembly loop: the slots of the session, one behind the other. */
    method Assemble() returns (out: seq<byte>)
      requires Valid() && totalChunks <= MAX_CHUNKS
      ensures out == Flatten(Slots()[..totalChunks])
    {
      var buf := new byte[MAX_CHUNKS * CHUNK_MAX];
      var totalLen := 0;
      ghost var slots := Slots();
      for i := 0 to totalChunks
        invariant 0 <= totalLen <= i * CHUNK_MAX && buf[..totalLen] == Flatten(slots[..i])
      {
        var n := AppendSlot(buf, totalLen, i);
        OneMoreSlot(slots, i);
        totalLen := totalLen + n;
      }
      out := buf[..totalLen];
    }

    static lemma OneMoreSlot(slots: seq<seq<byte>>, i: nat)
      requires i < |slots|
      ensures Flatten(slots[..i + 1]) == Flatten(slots[..i]) + slots[i]
    {
      FlattenSnoc(slots[..i], slots[i]);
      assert slots[..i + 1] == slots[..i] + [slots[i]];
    }

    method AppendSlot(buf: array<byte>, at: nat, i: nat) returns (n: nat)
      requires Valid() && i < MAX_CHUNKS && at + CHUNK_MAX <= buf.Length && buf != data
      modifies buf
      ensures n <= CHUNK_MAX && buf[..at + n] == old(buf[..at]) + Slots()[i]
    {
      n := chunkLen[i];
      assert Slots()[i] == SlotIn(data[..], chunkLen[..], i);
      forall j | 0 <= j < n {
        buf[at + j] := data[i * CHUNK_MAX + j];
      }
    }

    /** handle_bulk_chunk() on `len` bytes at the start of the readable memory `mem`: the
        header is trusted for how much data follows, so `mem` may be read past `len`. */
    method HandleBulkChunk(mem: seq<byte>, len: u16) returns (done: Option<Complete>)
      requires Ready() && len <= |mem| && PACKET_MAX <= |mem|
      modifies this, seen, chunkLen, data
      ensures Ready()
      ensures var r := FeedBytes(old(Model()), mem, len); Model() == r.0 && done == r.1
    {
      done := None;
      if len < WRAPPER_HEADER {
        return;
      }
      var tid, chunk, total, n := FromBe32(mem[..4]), FromBe32(mem[4..8]), FromBe32(mem[8..12]), FromBe16(mem[12..14]);
      done := TakeChunk(tid, chunk, total, n, mem);
    }

    /** What it does once the header is read, with `n` bytes of data announced. */
    method TakeChunk(tid: u32, chunk: u32, total: u32, n: u16, mem: seq<byte>) returns (done: Option<Complete>)
      requires Ready() && WRAPPER_HEADER + CHUNK_MAX <= |mem|
      modifies this, seen, chunkLen, data
      ensures Ready()
      ensures if n > CHUNK_MAX then Model() == Join(old(Model()), tid, total).(active := false) && done == None
              else var r := Feed(old(Model()), Packet(tid, chunk, total, mem[WRAPPER_HEADER..WRAPPER_HEADER + n]));
                   Model() == r.0 && done == r.1
    {
      done := None;
      JoinSession(tid, total);
      if chunk >= MAX_CHUNKS || total > MAX_CHUNKS || n > CHUNK_MAX {
        active := false;
        return;
      }
      StoreChunk(chunk, mem[WRAPPER_HEADER..WRAPPER_HEADER + n]);
      done := SettleSession();
    }

    /** The end of handle_bulk_chunk(): once enough chunks are in, put them together. */
    method SettleSession() returns (done: Option<Complete>)
      requires Ready() && active
      modifies this`active
      ensures Ready() && Model() == Settle(old(Model())).0 && done == Settle(old(Model())).1
    {
      if chunksReceived < totalChunks {
        return None;
      }
      var out := Assemble();
      ghost var slots := Slots();
      active := false;
      assert Slots() == slots;
      done := Some(Complete(transferId, out));
    }
  }
}
