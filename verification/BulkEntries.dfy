/** Bulk transfers of fixed-size records, packed record by record. */
module BulkEntries {
  import opened Bytes
  import opened BulkFormat
  import opened BulkSend

  // ---- records --------------------------------------------------------

  /** Floats travel as their 32-bit patterns. */
  type Vec3 = v: seq<u32> | |v| == 3 witness [0, 0, 0]
  type Vec4 = v: seq<u32> | |v| == 4 witness [0, 0, 0, 0]

  datatype CalcEntry = CalcEntry(missionTime: u64, angularAccel: Vec3, commandedTorque: Vec4)
  datatype FtEntry = FtEntry(missionTime: u64, force: Vec3, torque: Vec3)

  const CALC_SIZE := 36        // BULK_CALC_ENTRY_SIZE
  const FT_SIZE := 32          // BULK_FT_ENTRY_SIZE
  const CALC_PER_CHUNK := CHUNK_MAX / CALC_SIZE
  const FT_PER_CHUNK := CHUNK_MAX / FT_SIZE

  /** pack_be_float_array(). */
  function Floats(vals: seq<u32>): (s: seq<byte>)
    ensures |s| == 4 * |vals|
  {
    if vals == [] then [] else Be32(vals[0]) + Floats(vals[1..])
  }

  function PackCalc(e: CalcEntry): (s: seq<byte>)
    ensures |s| == CALC_SIZE
  {
    Be64(e.missionTime) + Floats(e.angularAccel) + Floats(e.commandedTorque)
  }

  function PackFt(e: FtEntry): (s: seq<byte>)
    ensures |s| == FT_SIZE
  {
    Be64(e.missionTime) + Floats(e.force) + Floats(e.torque)
  }

  lemma {:induction false} FloatAt(vals: seq<u32>, i: nat)
    requires i < |vals|
    ensures FromBe32(Floats(vals)[4 * i..4 * i + 4]) == vals[i]
  {
    if i == 0 {
      assert Floats(vals)[..4] == Be32(vals[0]);
      Be32RoundTrip(vals[0]);
    } else {
      FloatAt(vals[1..], i - 1);
      assert Floats(vals)[4 * i..4 * i + 4] == Floats(vals[1..])[4 * (i - 1)..4 * (i - 1) + 4];
    }
  }

  /** Where the other side finds the fields of a packed calculation record. */
  lemma CalcFields(e: CalcEntry, i: nat)
    requires i < 4
    ensures var s := PackCalc(e);
            FromBe64(s[..8]) == e.missionTime
            && (i < 3 ==> FromBe32(s[8 + 4 * i..12 + 4 * i]) == e.angularAccel[i])
            && FromBe32(s[20 + 4 * i..24 + 4 * i]) == e.commandedTorque[i]
  {
    var s, a, t := PackCalc(e), Floats(e.angularAccel), Floats(e.commandedTorque);
    Slices(Be64(e.missionTime), a, t, []);
    assert s == Be64(e.missionTime) + a + t + [];
    Be64RoundTrip(e.missionTime);
    if i < 3 {
      FloatAt(e.angularAccel, i);
      SliceWithin(s, 8, 20, 4 * i);
    }
    FloatAt(e.commandedTorque, i);
    SliceWithin(s, 20, 36, 4 * i);
  }

  /** Where it finds those of a packed force and torque record. */
  lemma FtFields(e: FtEntry, i: nat)
    requires i < 3
    ensures var s := PackFt(e);
            FromBe64(s[..8]) == e.missionTime
            && FromBe32(s[8 + 4 * i..12 + 4 * i]) == e.force[i]
            && FromBe32(s[20 + 4 * i..24 + 4 * i]) == e.torque[i]
  {
    var s, f, t := PackFt(e), Floats(e.force), Floats(e.torque);
    Slices(Be64(e.missionTime), f, t, []);
    assert s == Be64(e.missionTime) + f + t + [];
    Be64RoundTrip(e.missionTime);
    FloatAt(e.force, i);
    FloatAt(e.torque, i);
    SliceWithin(s, 8, 20, 4 * i);
    SliceWithin(s, 20, 32, 4 * i);
  }

  /** Four bytes of a part of `s`. */
  lemma SliceWithin(s: seq<byte>, lo: nat, hi: nat, k: nat)
    requires lo + k + 4 <= hi <= |s|
    ensures s[lo..hi][k..k + 4] == s[lo + k..lo + k + 4]
  {
    var a, b := s[lo..hi][k..k + 4], s[lo + k..lo + k + 4];
    assert |a| == |b|;
    assert forall j :: 0 <= j < 4 ==> a[j] == b[j];
  }

  /** A chunk holds as many records as fit into its 498 bytes: 13, and 15. */
  lemma RecordsPerChunk()
    ensures CALC_PER_CHUNK == 13 && 13 * 36 <= 498 < 14 * 36 && FT_PER_CHUNK == 15 && 15 * 32 <= 498 < 16 * 32
  {
  }

  // ---- packing commutes with splitting --------------------------------

  /** All records packed end to end. */
  function Flat<T>(es: seq<T>, pack: T -> seq<byte>): seq<byte> {
    if es == [] then [] else pack(es[0]) + Flat(es[1..], pack)
  }

  /** Every record packs to `size` bytes. */
  ghost predicate Sized<T>(es: seq<T>, pack: T -> seq<byte>, size: nat) {
    forall i :: 0 <= i < |es| ==> |pack(es[i])| == size
  }

  lemma {:induction false} FlatAppend<T>(a: seq<T>, b: seq<T>, pack: T -> seq<byte>)
    ensures Flat(a + b, pack) == Flat(a, pack) + Flat(b, pack)
  {
    if a == [] {
      assert a + b == b;
    } else {
      assert (a + b)[1..] == a[1..] + b;
      FlatAppend(a[1..], b, pack);
    }
  }

  lemma {:induction false} FlatLength<T>(es: seq<T>, pack: T -> seq<byte>, size: nat)
    requires Sized(es, pack, size)
    ensures |Flat(es, pack)| == |es| * size
  {
    if es != [] {
      FlatLength(es[1..], pack, size);
    }
  }

  function FlatEach<T>(groups: seq<seq<T>>, pack: T -> seq<byte>): seq<seq<byte>> {
    seq(|groups|, k requires 0 <= k < |groups| => Flat(groups[k], pack))
  }

  /** Grouping the records and packing each group gives the very chunks of packing
      everything and splitting by bytes: no record straddles two chunks. */
  lemma {:induction false} SplitCommutes<T>(es: seq<T>, pack: T -> seq<byte>, size: nat, per: nat)
    requires Sized(es, pack, size) && 0 < size && 0 < per
    ensures 0 < per * size
    ensures Chunks(Flat(es, pack), per * size) == FlatEach(Chunks(es, per), pack)
    decreases |es|
  {
    var max := per * size;
    FlatLength(es, pack, size);
    SizesCompare(|es|, per, size);
    if |es| > per {
      FirstGroup(es, pack, size, per);
      SplitCommutes(es[per..], pack, size, per);
      FlatEachCons(es[..per], Chunks(es[per..], per), pack);
    }
  }

  lemma SizesCompare(n: nat, per: nat, size: nat)
    requires 0 < size && 0 < per
    ensures 0 < per * size && (n <= per <==> n * size <= per * size)
  {
    if n <= per {
      assert n * size <= per * size;
    } else {
      assert (per + 1) * size <= n * size;
    }
  }

  lemma FirstGroup<T>(es: seq<T>, pack: T -> seq<byte>, size: nat, per: nat)
    requires Sized(es, pack, size) && per <= |es|
    ensures per * size <= |Flat(es, pack)|
    ensures Flat(es, pack)[..per * size] == Flat(es[..per], pack)
    ensures Flat(es, pack)[per * size..] == Flat(es[per..], pack)
  {
    FlatLength(es[..per], pack, size);
    FlatAppend(es[..per], es[per..], pack);
    assert es[..per] + es[per..] == es;
  }

  lemma FlatEachCons<T>(g: seq<T>, gs: seq<seq<T>>, pack: T -> seq<byte>)
    ensures FlatEach([g] + gs, pack) == [Flat(g, pack)] + FlatEach(gs, pack)
  {
  }

  // ---- the senders ----------------------------------------------------

  /** The packets due for the records: each group packed. */
  function Due<T>(tid: u32, es: seq<T>, pack: T -> seq<byte>, per: nat): seq<Packet>
    requires 0 < per && |Chunks(es, per)| < 0x1_0000_0000
  {
    Packets(tid, FlatEach(Chunks(es, per), pack))
  }

  /** The inner loop of both senders: `count` records from `start` on, packed one
      behind the other into the chunk buffer. */
  method PackGroup<T>(buf: array<byte>, es: seq<T>, pack: T -> seq<byte>, size: nat) returns (off: nat)
    requires Sized(es, pack, size) && |es| * size <= buf.Length
    modifies buf
    ensures off <= buf.Length && buf[..off] == Flat(es, pack)
  {
    off := 0;
    for i := 0 to |es|
      invariant off == i * size && off <= buf.Length && buf[..off] == Flat(es[..i], pack)
    {
      RoomForOne(i, |es|, size);
      FlatMore(es, i, pack);
      PackOne(buf, off, pack(es[i]));
      off := off + size;
    }
    assert es[..|es|] == es;
  }

  lemma RoomForOne(i: nat, n: nat, size: nat)
    requires i < n
    ensures (i + 1) * size == i * size + size <= n * size
  {
    assert n * size == (i + 1) * size + (n - i - 1) * size;
  }

  lemma FlatMore<T>(es: seq<T>, i: nat, pack: T -> seq<byte>)
    requires i < |es|
    ensures Flat(es[..i + 1], pack) == Flat(es[..i], pack) + pack(es[i])
  {
    assert es[..i + 1] == es[..i] + [es[i]] && Flat([es[i]], pack) == pack(es[i]) + [];
    FlatAppend(es[..i], [es[i]], pack);
  }

  /** One record into the chunk buffer. */
  method PackOne(buf: array<byte>, off: nat, bytes: seq<byte>)
    requires off + |bytes| <= buf.Length
    modifies buf
    ensures buf[..off + |bytes|] == old(buf[..off]) + bytes
  {
    forall j | 0 <= j < |bytes| {
      buf[off + j] := bytes[j];
    }
  }

  /** send_bulk_calculation_data() and send_bulk_force_torque_data(), which differ only
      in the record; `faults[k]` says whether link_send() of packet k fails. */
  method SendEntries<T>(tid: u32, es: seq<T>, pack: T -> seq<byte>, size: nat, per: u32, faults: seq<bool>)
    returns (ret: int, sent: seq<Packet>)
    requires Sized(es, pack, size) && 0 < size && 0 < per && |es| < 0x1_0000_0000
    ensures es == [] || !Countable(|es|, per) ==> ret == 0 && sent == []
    ensures es != [] && Countable(|es|, per) ==>
              |Chunks(es, per)| < 0x1_0000_0000 && sent <= Due(tid, es, pack, per)
              && (ret == 0 <==> sent == Due(tid, es, pack, per))
              && (ret == 0 <==> AllWell(faults, |Chunks(es, per)|))
  {
    var total := CountChunks(es, per);
    var chunkData := new byte[per * size];
    ret, sent := 0, [];
    for chunk := 0 to total
      invariant if total == 0 then sent == [] else sent == Due(tid, es, pack, per)[..chunk]
      invariant ret == 0 && AllWell(faults, chunk)
    {
      GroupIs(es, per, size, chunk);
      var start := chunk * per;
      var count := Min(|es| - start, per);
      var off := PackGroup(chunkData, es[start..start + count], pack, size);
      if chunk < |faults| && faults[chunk] {
        return -1, sent;
      }
      DueMore(tid, es, pack, per, chunk);
      sent := sent + [Packet(tid, chunk, total, chunkData[..off])];
    }
  }

  /** Where the records of a chunk are. */
  lemma GroupIs<T>(es: seq<T>, per: nat, size: nat, chunk: nat)
    requires 0 < per && chunk < |Chunks(es, per)|
    ensures chunk * per <= |es|
    ensures var start := chunk * per;
            var count := Min(|es| - start, per);
            es[start..start + count] == Chunks(es, per)[chunk] && count * size <= per * size
  {
    ChunkAt(es, per, chunk);
    OneMore(chunk, per);
    TimesGrows(Min(|es| - chunk * per, per), per, size);
  }

  lemma OneMore(chunk: nat, per: nat)
    ensures (chunk + 1) * per == chunk * per + per
  {
  }

  lemma TimesGrows(a: nat, b: nat, size: nat)
    requires a <= b
    ensures a * size <= b * size
  {
  }

  /** The packet due next. */
  lemma DueMore<T>(tid: u32, es: seq<T>, pack: T -> seq<byte>, per: nat, chunk: nat)
    requires 0 < per && chunk < |Chunks(es, per)| < 0x1_0000_0000
    ensures var due, cs := Due(tid, es, pack, per), Chunks(es, per);
            due[..chunk + 1] == due[..chunk] + [Packet(tid, chunk, |cs|, Flat(cs[chunk], pack))]
  {
    var due := Due(tid, es, pack, per);
    assert due[..chunk + 1] == due[..chunk] + [due[chunk]];
  }

  /** Sending records one by one and sending their bytes through send_bulk() puts the
      same packets on the wire, as long as the byte count does not wrap. */
  lemma SendersAgree<T>(tid: u32, es: seq<T>, pack: T -> seq<byte>, size: nat, per: nat)
    requires Sized(es, pack, size) && 0 < size && 0 < per && per * size <= CHUNK_MAX
    requires Countable(|es| * size, per * size) && 0 < per * size
    ensures |Flat(es, pack)| < 0x1_0000_0000 && |Chunks(es, per)| < 0x1_0000_0000
    ensures Countable(|es|, per) && Due(tid, es, pack, per) == Sent(tid, Flat(es, pack), per * size)
  {
    SplitCommutes(es, pack, size, per);
    FlatLength(es, pack, size);
    ChunksFit(Flat(es, pack), per * size);
    FewerRecords(|es|, size, per);
  }

  lemma FewerRecords(n: nat, size: nat, per: nat)
    requires 0 < size && 0 < per && Countable(n * size, per * size)
    ensures Countable(n, per)
  {
    assert n <= n * size && per <= per * size;
  }

  /** send_bulk_calculation_data(). */
  method SendCalc(tid: u32, es: seq<CalcEntry>, faults: seq<bool>) returns (ret: int, sent: seq<Packet>)
    requires |es| < 0x1_0000_0000
    ensures es == [] || !Countable(|es|, CALC_PER_CHUNK) ==> ret == 0 && sent == []
    ensures es != [] && Countable(|es|, CALC_PER_CHUNK) ==>
              |Chunks(es, CALC_PER_CHUNK)| < 0x1_0000_0000 && sent <= Due(tid, es, PackCalc, CALC_PER_CHUNK)
              && (ret == 0 <==> sent == Due(tid, es, PackCalc, CALC_PER_CHUNK))
              && (ret == 0 <==> AllWell(faults, |Chunks(es, CALC_PER_CHUNK)|))
    ensures var max := CALC_PER_CHUNK * CALC_SIZE;
            es != [] && Countable(|es| * CALC_SIZE, max) ==>
              |Flat(es, PackCalc)| < 0x1_0000_0000
              && sent <= Sent(tid, Flat(es, PackCalc), max)
              && (ret == 0 <==> sent == Sent(tid, Flat(es, PackCalc), max))
  {
    ret, sent := SendEntries(tid, es, PackCalc, CALC_SIZE, CALC_PER_CHUNK, faults);
    if Countable(|es| * CALC_SIZE, CALC_PER_CHUNK * CALC_SIZE) {
      SendersAgree(tid, es, PackCalc, CALC_SIZE, CALC_PER_CHUNK);
    }
  }

  /** send_bulk_force_torque_data(). */
  method SendFt(tid: u32, es: seq<FtEntry>, faults: seq<bool>) returns (ret: int, sent: seq<Packet>)
    requires |es| < 0x1_0000_0000
    ensures es == [] || !Countable(|es|, FT_PER_CHUNK) ==> ret == 0 && sent == []
    ensures es != [] && Countable(|es|, FT_PER_CHUNK) ==>
              |Chunks(es, FT_PER_CHUNK)| < 0x1_0000_0000 && sent <= Due(tid, es, PackFt, FT_PER_CHUNK)
              && (ret == 0 <==> sent == Due(tid, es, PackFt, FT_PER_CHUNK))
              && (ret == 0 <==> AllWell(faults, |Chunks(es, FT_PER_CHUNK)|))
    ensures var max := FT_PER_CHUNK * FT_SIZE;
            es != [] && Countable(|es| * FT_SIZE, max) ==>
              |Flat(es, PackFt)| < 0x1_0000_0000
              && sent <= Sent(tid, Flat(es, PackFt), max)
              && (ret == 0 <==> sent == Sent(tid, Flat(es, PackFt), max))
  {
    ret, sent := SendEntries(tid, es, PackFt, FT_SIZE, FT_PER_CHUNK, faults);
    if Countable(|es| * FT_SIZE, FT_PER_CHUNK * FT_SIZE) {
      SendersAgree(tid, es, PackFt, FT_SIZE, FT_PER_CHUNK);
    }
  }
}
