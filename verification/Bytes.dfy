/** Bytes, fixed-width integers and their host-order and big-endian images. */
module Bytes {

  type byte = x: int | 0 <= x < 256
  type u16 = x: int | 0 <= x < 0x1_0000
  type u32 = x: int | 0 <= x < 0x1_0000_0000
  type u64 = x: int | 0 <= x < 0x1_0000_0000_0000_0000

  datatype Option<+T> = None | Some(value: T)

  function Min(a: nat, b: nat): nat {
    if a < b then a else b
  }

  // Host order: the bus runs on one little-endian machine.

  function Le16(v: u16): (s: seq<byte>)
    ensures |s| == 2
  {
    [v % 256, v / 256]
  }

  function FromLe16(s: seq<byte>): (v: u16)
    requires |s| == 2
  {
    s[0] as int + 256 * (s[1] as int)
  }

  function Le32(v: u32): (s: seq<byte>)
    ensures |s| == 4
  {
    Le16(v % 0x1_0000) + Le16(v / 0x1_0000)
  }

  function FromLe32(s: seq<byte>): (v: u32)
    requires |s| == 4
  {
    FromLe16(s[..2]) + 0x1_0000 * FromLe16(s[2..])
  }

  // Big-endian: everything that leaves the machine.

  function Be16(v: u16): (s: seq<byte>)
    ensures |s| == 2
  {
    [v / 256, v % 256]
  }

  function FromBe16(s: seq<byte>): (v: u16)
    requires |s| == 2
  {
    256 * (s[0] as int) + s[1] as int
  }

  function Be32(v: u32): (s: seq<byte>)
    ensures |s| == 4
  {
    Be16(v / 0x1_0000) + Be16(v % 0x1_0000)
  }

  function FromBe32(s: seq<byte>): (v: u32)
    requires |s| == 4
  {
    0x1_0000 * FromBe16(s[..2]) + FromBe16(s[2..])
  }

  function Be64(v: u64): (s: seq<byte>)
    ensures |s| == 8
  {
    Be32(v / 0x1_0000_0000) + Be32(v % 0x1_0000_0000)
  }

  function FromBe64(s: seq<byte>): (v: u64)
    requires |s| == 8
  {
    0x1_0000_0000 * FromBe32(s[..4]) + FromBe32(s[4..])
  }

  lemma Le32RoundTrip(v: u32)
    ensures FromLe32(Le32(v)) == v
  {
    assert Le32(v)[..2] == Le16(v % 0x1_0000);
    assert Le32(v)[2..] == Le16(v / 0x1_0000);
  }

  lemma Be32RoundTrip(v: u32)
    ensures FromBe32(Be32(v)) == v
  {
    assert Be32(v)[..2] == Be16(v / 0x1_0000);
    assert Be32(v)[2..] == Be16(v % 0x1_0000);
  }

  lemma Be64RoundTrip(v: u64)
    ensures FromBe64(Be64(v)) == v
  {
    assert Be64(v)[..4] == Be32(v / 0x1_0000_0000);
    assert Be64(v)[4..] == Be32(v % 0x1_0000_0000);
    Be32RoundTrip(v / 0x1_0000_0000);
    Be32RoundTrip(v % 0x1_0000_0000);
  }

  /** What four bytes weigh, the highest first. */
  function Weight(a: byte, b: byte, c: byte, d: byte): int {
    16777216 * (a as int) + 65536 * (b as int) + 256 * (c as int) + d as int
  }

  lemma Le32Weighs(v: u32)
    ensures var s := Le32(v); Weight(s[3], s[2], s[1], s[0]) == v
  {
  }

  lemma Be32Weighs(v: u32)
    ensures var s := Be32(v); Weight(s[0], s[1], s[2], s[3]) == v
  {
  }

  lemma Be64Weighs(v: u64)
    ensures var s := Be64(v);
            0x1_0000_0000 * Weight(s[0], s[1], s[2], s[3]) + Weight(s[4], s[5], s[6], s[7]) == v
  {
    var h, l := Be32(v / 0x1_0000_0000), Be32(v % 0x1_0000_0000);
    Be32Weighs(v / 0x1_0000_0000);
    Be32Weighs(v % 0x1_0000_0000);
    assert Be64(v) == h + l;
  }

  /** `n` zero bytes, as memset leaves them. */
  function Zeros(n: nat): (z: seq<byte>)
    ensures |z| == n
    ensures forall i :: 0 <= i < n ==> z[i] == 0
  {
    seq(n, _ => 0)
  }

  lemma JoinAssoc<T>(a: seq<T>, b: seq<T>, c: seq<T>)
    ensures (a + b) + c == a + (b + c)
  {
  }

  /** Where the parts of four laid end to end are found. */
  lemma Slices<T>(a: seq<T>, b: seq<T>, c: seq<T>, d: seq<T>)
    ensures var s, i, j := a + b + c + d, |a| + |b|, |a| + |b| + |c|;
            s[..|a|] == a && s[|a|..i] == b && s[i..j] == c && s[j..] == d
  {
  }

  /** The parts laid end to end. */
  function Flatten<T>(parts: seq<seq<T>>): seq<T> {
    if parts == [] then [] else parts[0] + Flatten(parts[1..])
  }

  lemma {:induction false} FlattenAppend<T>(a: seq<seq<T>>, b: seq<seq<T>>)
    ensures Flatten(a + b) == Flatten(a) + Flatten(b)
  {
    if a == [] {
      assert a + b == b;
    } else {
      assert (a + b)[1..] == a[1..] + b;
      FlattenAppend(a[1..], b);
    }
  }

  lemma FlattenSnoc<T>(a: seq<seq<T>>, p: seq<T>)
    ensures Flatten(a + [p]) == Flatten(a) + p
  {
    FlattenAppend(a, [p]);
    assert Flatten([p]) == p;
  }
}
