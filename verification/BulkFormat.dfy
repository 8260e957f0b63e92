/** Bulk transfers: the chunk wrapper and the plain definition of splitting. */
module BulkFormat {
  import opened Bytes

  const PACKET_MAX := 512                          // NET_IPC_MAX_DATA
  const WRAPPER_HEADER := 14                       // BULK_WRAPPER_HEADER_SIZE
  const CHUNK_MAX := PACKET_MAX - WRAPPER_HEADER   // MAX_CHUNK_DATA

  /** One chunk of a transfer, with what its wrapper header says. */
  datatype Packet = Packet(tid: u32, chunk: u32, total: u32, data: seq<byte>)

  /** A packet whose data length fits the 16-bit header field. */
  type Packable = p: Packet | |p.data| < 0x1_0000 witness Packet(0, 0, 0, [])

  /** pack_bulk_wrapper(). */
  function Wrapper(p: Packable): (w: seq<byte>)
    ensures |w| == WRAPPER_HEADER + |p.data|
  {
    Be32(p.tid) + Be32(p.chunk) + Be32(p.total) + Be16(|p.data|) + p.data
  }

  /** The header fields, as handle_bulk_chunk() reads them back. */
  function Unwrap(m: seq<byte>): Packet
    requires WRAPPER_HEADER <= |m| && WRAPPER_HEADER + FromBe16(m[12..14]) <= |m|
  {
    Packet(FromBe32(m[..4]), FromBe32(m[4..8]), FromBe32(m[8..12]),
           m[WRAPPER_HEADER..WRAPPER_HEADER + FromBe16(m[12..14])])
  }

  /** A wrapper carries its packet across, whatever lies behind it in memory. */
  lemma WrapperRoundTrip(p: Packable, tail: seq<byte>)
    ensures var m := Wrapper(p) + tail;
            FromBe16(m[12..14]) == |p.data| && Unwrap(m) == p
  {
    var m := Wrapper(p) + tail;
    assert m[..4] == Be32(p.tid) && m[4..8] == Be32(p.chunk) && m[8..12] == Be32(p.total);
    assert m[12..14] == Be16(|p.data|);
    Be32RoundTrip(p.tid);
    Be32RoundTrip(p.chunk);
    Be32RoundTrip(p.total);
    assert m[14..14 + |p.data|] == p.data;
  }

  /** The wrapper, byte for byte: three 32-bit numbers and the 16-bit data length, all in
      network order, and the data. */
  lemma WrapperLayout(p: Packable)
    ensures var w := Wrapper(p);
            |w| == 14 + |p.data| && w[14..] == p.data
            && Weight(w[0], w[1], w[2], w[3]) == p.tid && Weight(w[4], w[5], w[6], w[7]) == p.chunk
            && Weight(w[8], w[9], w[10], w[11]) == p.total && Weight(0, 0, w[12], w[13]) == |p.data|
  {
    var w, a, b, c := Wrapper(p), Be32(p.tid), Be32(p.chunk), Be32(p.total);
    Be32Weighs(p.tid);
    Be32Weighs(p.chunk);
    Be32Weighs(p.total);
    assert w[..4] == a && w[4..8] == b && w[8..12] == c && w[12..14] == Be16(|p.data|);
    assert forall k :: 0 <= k < 4 ==> w[k] == w[..4][k] && w[4 + k] == w[4..8][k] && w[8 + k] == w[8..12][k];
  }

  /** Full chunks, and a last one that may be shorter; an empty transfer is one
      empty chunk. */
  function Chunks<T>(data: seq<T>, max: nat): (cs: seq<seq<T>>)
    requires 0 < max
    ensures 0 < |cs|
    decreases |data|
  {
    if |data| <= max then [data] else [data[..max]] + Chunks(data[max..], max)
  }

  /** Splitting loses nothing: the chunks make up the data, and all but the last are full. */
  lemma {:induction false} ChunksMakeUp<T>(data: seq<T>, max: nat)
    requires 0 < max
    ensures var cs := Chunks(data, max);
            Flatten(cs) == data
            && (forall k :: 0 <= k < |cs| - 1 ==> |cs[k]| == max) && |cs[|cs| - 1]| <= max
            && (data != [] ==> cs[|cs| - 1] != [])
    decreases |data|
  {
    if |data| <= max {
      assert Flatten([data]) == data;
    } else {
      ChunksMakeUp(data[max..], max);
      assert data[..max] + data[max..] == data;
    }
  }

  /** Where each chunk lies in the data. */
  lemma {:induction false} ChunkAt<T>(data: seq<T>, max: nat, k: nat)
    requires 0 < max && k < |Chunks(data, max)|
    ensures k * max <= |data|
    ensures Chunks(data, max)[k] == data[k * max..Min((k + 1) * max, |data|)]
    decreases k
  {
    if max < |data| && 0 < k {
      var rest := data[max..];
      ChunkAt(rest, max, k - 1);
      assert (k - 1) * max == k * max - max && k * max + max == (k + 1) * max;
      assert rest[k * max - max..Min(k * max, |rest|)] == data[k * max..Min((k + 1) * max, |data|)];
    } else {
      assert k == 0;
      assert data[..Min(max, |data|)] == Chunks(data, max)[0];
    }
  }

  lemma {:induction false} ChunkCount<T>(data: seq<T>, max: nat)
    requires 0 < max
    ensures |Chunks(data, max)| == if data == [] then 1 else (|data| + max - 1) / max
    decreases |data|
  {
    if |data| <= max {
      if data != [] {
        DivIs(|data| + max - 1, max, 1);
      }
    } else {
      ChunkCount(data[max..], max);
      var q := |Chunks(data[max..], max)|;
      DivBounds(|data| - 1, max);
      DivIs(|data| + max - 1, max, q + 1);
    }
  }

  lemma DivBounds(a: nat, m: nat)
    requires 0 < m
    ensures a / m * m <= a < a / m * m + m
  {
  }

  /** The quotient is what its bounds say it is. */
  lemma DivIs(a: nat, m: nat, q: nat)
    requires 0 < m && q * m <= a < q * m + m
    ensures a / m == q
  {
    var d := a / m;
    assert d < q ==> (d + 1) * m <= q * m;
    assert q < d ==> (q + 1) * m <= d * m;
  }

  /** The packets of a transfer: each chunk numbered. */
  function Packets(tid: u32, cs: seq<seq<byte>>): seq<Packet>
    requires |cs| < 0x1_0000_0000
  {
    seq(|cs|, k requires 0 <= k < |cs| => Packet(tid, k, |cs|, cs[k]))
  }
}
