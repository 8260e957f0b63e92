/** The on-disk image of the satellite state. */
module Record {
  import opened Bytes
  import opened Fnv

  const STATE_SIZE := 16    // sizeof(satellite_state_t)
  const RECORD_SIZE := 32   // sizeof(sat_state_record_t): magic, version, data, checksum, padding
  const CHECKED := 28       // what comes before the padding

  /** The memory image of a satellite_state_t. */
  type State = s: seq<byte> | |s| == STATE_SIZE witness Zeros(STATE_SIZE)

  /** The padding the compiler puts at the end; nobody sets or reads it. */
  type Padding = s: seq<byte> | |s| == RECORD_SIZE - CHECKED witness [0, 0, 0, 0]

  const MAGIC: seq<byte> := [0x53, 0x54, 0x41, 0x53]   // 0x53415453, host order
  const VERSION: seq<byte> := [1, 0, 0, 0]

  function Checksum(s: State): (c: seq<byte>)
    ensures |c| == 4
  {
    Le32(Hash(OFFSET_BASIS, s))
  }

  /** The record sat_state_store() writes. */
  function Image(s: State, pad: Padding): (r: seq<byte>)
    ensures |r| == RECORD_SIZE
  {
    MAGIC + VERSION + s + Checksum(s) + pad
  }

  /** What read_record_locked() makes of a file's bytes. */
  function Decode(file: seq<byte>): Option<State> {
    if RECORD_SIZE <= |file| && file[..4] == MAGIC && file[4..8] == VERSION && file[24..28] == Checksum(file[8..24])
    then Some(file[8..24]) else None
  }

  /** What lies behind the record does not matter; a shorter file is none. */
  lemma DecodeLength(file: seq<byte>, tail: seq<byte>)
    ensures |file| < 32 ==> Decode(file) == None
    ensures 32 <= |file| ==> Decode(file + tail) == Decode(file)
  {
    if 32 <= |file| {
      var f := file + tail;
      assert f[..4] == file[..4] && f[4..8] == file[4..8] && f[8..24] == file[8..24] && f[24..28] == file[24..28];
    }
  }

  /** What was stored is what is read, whatever the padding. */
  lemma ImageDecodes(s: State, pad: Padding)
    ensures Decode(Image(s, pad)) == Some(s)
  {
    var f := Image(s, pad);
    assert f[..4] == MAGIC && f[4..8] == VERSION && f[8..24] == s && f[24..28] == Checksum(s);
  }

  /** A change to exactly one byte of a valid file is detected if and only if that byte
      is part of the record proper; otherwise it changes nothing. */
  lemma OneByteDetected(file: seq<byte>, k: nat, b: byte)
    requires Decode(file).Some? && k < |file| && b != file[k]
    ensures Decode(file[k := b]).None? <==> k < CHECKED
    ensures CHECKED <= k ==> Decode(file[k := b]) == Decode(file)
  {
    var f := file[k := b];
    if k < 8 {
      assert if k < 4 then f[..4][k] != file[..4][k] else f[4..8][k - 4] != file[4..8][k - 4];
    } else if k < 24 {
      DataByteDetected(file, k, b);
    } else if k < CHECKED {
      assert f[8..24] == file[8..24];
      assert f[24..28][k - 24] != file[24..28][k - 24];
    } else {
      assert f[..4] == file[..4] && f[4..8] == file[4..8] && f[8..24] == file[8..24] && f[24..28] == file[24..28];
    }
  }

  lemma DataByteDetected(file: seq<byte>, k: nat, b: byte)
    requires Decode(file).Some? && 8 <= k < 24 && b != file[k]
    ensures Decode(file[k := b]).None?
  {
    var f := file[k := b];
    assert f[24..28] == file[24..28];
    assert f[8..24] == file[8..24][k - 8 := b];
    OneByteShows(OFFSET_BASIS, file[8..24], k - 8, b);
    if Checksum(f[8..24]) == Checksum(file[8..24]) {
      Le32RoundTrip(Hash(OFFSET_BASIS, f[8..24]));
      Le32RoundTrip(Hash(OFFSET_BASIS, file[8..24]));
    }
  }

  /** The record, byte for byte: the magic number 0x53415453 and version 1 in host order,
      the state, and behind it its FNV-1a hash in host order. */
  lemma RecordLayout(s: State, pad: Padding)
    ensures var r := Image(s, pad);
            |r| == 32 && r[..8] == [0x53, 0x54, 0x41, 0x53, 1, 0, 0, 0] && r[8..24] == s
            && Hash(0x811C9DC5, s) == Weight(r[27], r[26], r[25], r[24])
  {
    var r, h := Image(s, pad), Hash(OFFSET_BASIS, s);
    var c := Checksum(s);
    Le32Weighs(h);
    assert r[24] == c[0] && r[25] == c[1] && r[26] == c[2] && r[27] == c[3];
  }
}
