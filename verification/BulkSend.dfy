/** The independently written senders of bulk transfers, and what each puts on the wire. */
module BulkSend {
  import opened Bytes
  import opened BulkFormat

  /** The chunk count as the senders compute it, in 32-bit arithmetic. */
  function CountOf(items: u32, max: u32): u32
    requires 0 < max
  {
    ((items + max - 1) % 0x1_0000_0000) / max
  }

  /** That the 32-bit sum does not wrap; what a caller would have to check. */
  predicate Countable(items: nat, max: nat) {
    items + max - 1 < 0x1_0000_0000
  }

  /** The count is right exactly when the sum does not wrap; otherwise it is zero. */
  lemma CountExact<T>(data: seq<T>, max: u32)
    requires 0 < max && 0 < |data| < 0x1_0000_0000
    ensures CountOf(|data|, max) == |Chunks(data, max)| <==> Countable(|data|, max)
    ensures !Countable(|data|, max) ==> CountOf(|data|, max) == 0
  {
    ChunkCount(data, max);
    var sum := |data| + max - 1;
    if Countable(|data|, max) {
      assert sum % 0x1_0000_0000 == sum;
    } else {
      assert sum % 0x1_0000_0000 == sum - 0x1_0000_0000;
      DivIs(sum - 0x1_0000_0000, max, 0);
    }
  }

  /** The pieces send_bulk() and the uploader really cut: the chunks of the data,
      or just the first of them if the count wrapped. */
  function Pieces(data: seq<byte>, max: nat): (ps: seq<seq<byte>>)
    requires 0 < max <= CHUNK_MAX && |data| < 0x1_0000_0000
    ensures 0 < |ps| < 0x1_0000_0000 && forall p <- ps :: |p| <= max
  {
    ChunksFit(data, max);
    if Countable(|data|, max) then Chunks(data, max) else [data[..max]]
  }

  /** Everything sent when no chunk fails. */
  function Sent(tid: u32, data: seq<byte>, max: nat): seq<Packet>
    requires 0 < max <= CHUNK_MAX && |data| < 0x1_0000_0000
  {
    Packets(tid, Pieces(data, max))
  }

  /** What the senders cut out of the data in turn `k`. */
  function Cut(data: seq<byte>, max: nat, k: nat): (c: seq<byte>)
    requires 0 < max && k * max <= |data|
    ensures |c| <= max
  {
    data[k * max..k * max + Min(|data| - k * max, max)]
  }

  lemma PieceAt(data: seq<byte>, max: nat, k: nat)
    requires 0 < max <= CHUNK_MAX && |data| < 0x1_0000_0000 && k < |Pieces(data, max)|
    ensures k * max <= |data| && Pieces(data, max)[k] == Cut(data, max, k)
  {
    if Countable(|data|, max) {
      ChunkAt(data, max, k);
      assert (k + 1) * max == k * max + max;
    }
  }

  /** The packet the senders build in turn `k` is the next one due. */
  lemma NextPacket(tid: u32, data: seq<byte>, max: nat, k: nat)
    requires 0 < max <= CHUNK_MAX && |data| < 0x1_0000_0000 && k < |Pieces(data, max)|
    ensures k * max <= |data|
    ensures Sent(tid, data, max)[..k] + [Packet(tid, k, |Pieces(data, max)|, Cut(data, max, k))]
            == Sent(tid, data, max)[..k + 1]
  {
    PieceAt(data, max, k);
    var s := Sent(tid, data, max);
    assert s[..k + 1] == s[..k] + [s[k]];
  }

  lemma PieceCount(data: seq<byte>, max: nat)
    requires 0 < max <= CHUNK_MAX && |data| < 0x1_0000_0000
    ensures var n := CountOf(|data|, max); |Pieces(data, max)| == if n == 0 then 1 else n
  {
    if data == [] {
      DivIs(max - 1, max, 0);
    } else {
      CountExact(data, max);
    }
  }

  /** What arrives is the data exactly when the count did not wrap. */
  lemma SplitExact(data: seq<byte>, max: nat)
    requires 0 < max <= CHUNK_MAX && |data| < 0x1_0000_0000
    ensures Flatten(Pieces(data, max)) == data <==> Countable(|data|, max)
  {
    ChunksMakeUp(data, max);
    if !Countable(|data|, max) {
      assert Flatten([data[..max]]) == data[..max];
    }
  }

  lemma ChunksFit(data: seq<byte>, max: nat)
    requires 0 < max && |data| < 0x1_0000_0000
    ensures |Chunks(data, max)| < 0x1_0000_0000
    ensures forall c <- Chunks(data, max) :: |c| <= max
  {
    ChunksMakeUp(data, max);
    ChunksFew(data, max);
  }

  lemma {:induction false} ChunksFew(data: seq<byte>, max: nat)
    requires 0 < max
    ensures |Chunks(data, max)| <= if data == [] then 1 else |data|
    decreases |data|
  {
    if max < |data| {
      ChunksFew(data[max..], max);
    }
  }

  /** None of the first `n` packets fails. */
  predicate AllWell(faults: seq<bool>, n: nat) {
    forall k :: 0 <= k < |faults| && k < n ==> !faults[k]
  }

  /** The count, with an empty transfer still announced by one chunk. */
  method CountPieces(data: seq<byte>, max: nat) returns (total: u32)
    requires 0 < max <= CHUNK_MAX && |data| < 0x1_0000_0000
    ensures total == |Pieces(data, max)|
  {
    PieceCount(data, max);
    total := CountOf(|data|, max);
    if total == 0 {
      total := 1;
    }
  }

  // ---- payload_app ----------------------------------------------------

  /** send_bulk(): the packets handed to send_to_network(). */
  method SendBulk(tid: u32, data: seq<byte>, max: u16) returns (sent: seq<Packet>)
    requires 0 < max <= CHUNK_MAX && |data| < 0x1_0000_0000
    ensures sent == Sent(tid, data, max)
  {
    var total := CountPieces(data, max);
    sent := [];
    for chunk := 0 to total
      invariant sent == Sent(tid, data, max)[..chunk]
    {
      NextPacket(tid, data, max, chunk);
      var start := chunk * max;
      var remaining := |data| - start;
      var n := Min(remaining, max);
      sent := sent + [Packet(tid, chunk, total, data[start..start + n])];
    }
  }

  // ---- video_uploader -------------------------------------------------

  /** The streaming loop: `faults[k]` says whether chunk k's fread() comes up short or
      its send fails; the file is read through one reused buffer. */
  method Upload(tid: u32, file: seq<byte>, faults: seq<bool>) returns (ok: bool, sent: seq<Packet>)
    requires |file| < 0x1_0000_0000
    ensures sent <= Sent(tid, file, CHUNK_MAX)
    ensures ok <==> sent == Sent(tid, file, CHUNK_MAX)
    ensures ok <==> AllWell(faults, |Pieces(file, CHUNK_MAX)|)
  {
    var total := CountPieces(file, CHUNK_MAX);
    var chunkData := new byte[CHUNK_MAX];
    var sentBytes := 0;
    ok, sent := true, [];
    for chunk := 0 to total
      invariant ok && sent == Sent(tid, file, CHUNK_MAX)[..chunk]
      invariant sentBytes == Min(chunk * CHUNK_MAX, |file|)
      invariant AllWell(faults, chunk)
    {
      NextPacket(tid, file, CHUNK_MAX, chunk);
      var n := Min(|file| - sentBytes, CHUNK_MAX);
      if chunk < |faults| && faults[chunk] {
        return false, sent;
      }
      Fread(chunkData, file, sentBytes, n);
      assert file[sentBytes..sentBytes + n] == Cut(file, CHUNK_MAX, chunk);
      sent := sent + [Packet(tid, chunk, total, chunkData[..n])];
      sentBytes := sentBytes + n;
    }
  }

  /** fread() of `n` bytes at the current position. */
  method Fread(buf: array<byte>, file: seq<byte>, pos: nat, n: nat)
    requires n <= buf.Length && pos + n <= |file|
    modifies buf
    ensures buf[..n] == file[pos..pos + n]
  {
    forall i | 0 <= i < n {
      buf[i] := file[pos + i];
    }
  }

  // ---- network bridge -------------------------------------------------

  /** send_bulk_video_data(): `faults[k]` says whether link_send() of packet k fails.
      With nothing to send, or a wrapped count, it sends nothing and reports success. */
  method SendVideo(tid: u32, data: seq<byte>, faults: seq<bool>) returns (ret: int, sent: seq<Packet>)
    requires |data| < 0x1_0000_0000
    ensures data != [] && Countable(|data|, CHUNK_MAX) ==>
              sent <= Sent(tid, data, CHUNK_MAX) && (ret == 0 <==> sent == Sent(tid, data, CHUNK_MAX))
              && (ret == 0 <==> AllWell(faults, |Pieces(data, CHUNK_MAX)|))
    ensures data == [] || !Countable(|data|, CHUNK_MAX) ==> ret == 0 && sent == []
  {
    var total := CountChunks(data, CHUNK_MAX);
    ret, sent := 0, [];
    for chunk := 0 to total
      invariant if total == 0 then sent == [] else sent == Sent(tid, data, CHUNK_MAX)[..chunk]
      invariant ret == 0 && AllWell(faults, chunk)
    {
      NextPacket(tid, data, CHUNK_MAX, chunk);
      var start := chunk * CHUNK_MAX;
      var count := Min(|data| - start, CHUNK_MAX);
      if chunk < |faults| && faults[chunk] {
        return -1, sent;
      }
      sent := sent + [Packet(tid, chunk, total, data[start..start + count])];
    }
  }

  /** The count without that: nothing for an empty transfer or a wrapped sum. */
  method CountChunks<T>(data: seq<T>, max: u32) returns (total: u32)
    requires 0 < max && |data| < 0x1_0000_0000
    ensures total == if data == [] || !Countable(|data|, max) then 0 else |Chunks(data, max)|
  {
    total := CountOf(|data|, max);
    if data == [] {
      DivIs(max - 1, max, 0);
    } else {
      CountExact(data, max);
    }
  }
}
