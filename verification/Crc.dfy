/** CRC-16/CCITT-FALSE (polynomial 0x1021, initial value 0xFFFF) and the errors it
    detects. Words are their bits, the most significant first. */
module Crc {
  import opened Bytes

  type Reg = s: seq<bool> | |s| == 16 witness seq(16, _ => false)

  const POLY: Reg := [false, false, false, true, false, false, false, false,
                      false, false, true, false, false, false, false, true]   // 0x1021
  const INITIAL: Reg := seq(16, _ => true)                                    // 0xFFFF

  function Clear(n: nat): (s: seq<bool>)
    ensures |s| == n && forall i :: 0 <= i < n ==> !s[i]
  {
    seq(n, _ => false)
  }

  function XorBits(a: seq<bool>, b: seq<bool>): (s: seq<bool>)
    requires |a| == |b|
    ensures |s| == |a| && forall i :: 0 <= i < |s| ==> s[i] == (a[i] != b[i])
  {
    seq(|a|, i requires 0 <= i < |a| && i < |b| => a[i] != b[i])
  }

  /** One turn of the inner loop: shift left, and subtract the polynomial if a bit fell out. */
  function Shift(c: Reg): Reg {
    var s := c[1..] + [false];
    if c[0] then XorBits(s, POLY) else s
  }

  function ShiftN(c: Reg, n: nat): Reg
    decreases n
  {
    if n == 0 then c else ShiftN(Shift(c), n - 1)
  }

  /** The four bits of a number below 16. */
  function Nibble(n: nat): (s: seq<bool>)
    ensures |s| == 4
  {
    [n >= 8, n % 8 >= 4, n % 4 >= 2, n % 2 == 1]
  }

  /** The eight bits of a byte. */
  function BitsOf(b: byte): (s: seq<bool>)
    ensures |s| == 8
  {
    Nibble(b / 16) + Nibble(b % 16)
  }

  /** What one byte does to the register. */
  function Absorb(c: Reg, b: byte): Reg {
    ShiftN(XorBits(c, BitsOf(b) + Clear(8)), 8)
  }

  function Crc(c: Reg, data: seq<byte>): Reg
    decreases |data|
  {
    if data == [] then c else Crc(Absorb(c, data[0]), data[1..])
  }

  /** crc16_ccitt_false(). */
  method Crc16CcittFalse(data: seq<byte>) returns (crc: Reg)
    ensures crc == Crc(INITIAL, data)
  {
    crc := INITIAL;
    var i := 0;
    while i < |data|
      invariant 0 <= i <= |data| && Crc(crc, data[i..]) == Crc(INITIAL, data)
    {
      var mixed := XorBits(crc, BitsOf(data[i]) + Clear(8));
      crc := EightShifts(mixed);
      i := i + 1;
    }
  }

  method EightShifts(start: Reg) returns (crc: Reg)
    ensures crc == ShiftN(start, 8)
  {
    crc := start;
    var k := 8;
    while k > 0
      invariant 0 <= k <= 8 && ShiftN(crc, k) == ShiftN(start, 8)
    {
      crc := Shift(crc);
      k := k - 1;
    }
  }

  // ---- every shift is one-to-one --------------------------------------

  /** The polynomial is odd, so the last bit gives away the one that fell out. */
  lemma ShiftInjective(a: Reg, b: Reg)
    requires Shift(a) == Shift(b)
    ensures a == b
  {
    assert Shift(a)[15] == a[0] && Shift(b)[15] == b[0];
    forall i | 1 <= i < 16
      ensures a[i] == b[i]
    {
      assert Shift(a)[i - 1] == (a[i] != (a[0] && POLY[i - 1]));
      assert Shift(b)[i - 1] == (b[i] != (b[0] && POLY[i - 1]));
    }
  }

  lemma {:induction false} ShiftNInjective(a: Reg, b: Reg, n: nat)
    requires ShiftN(a, n) == ShiftN(b, n)
    ensures a == b
    decreases n
  {
    if n != 0 {
      ShiftNInjective(Shift(a), Shift(b), n - 1);
      ShiftInjective(a, b);
    }
  }

  // ---- bit by bit -----------------------------------------------------

  function Enter(c: Reg, bit: bool): Reg {
    c[0 := c[0] != bit]
  }

  /** The register fed one bit at a time. */
  function Serial(c: Reg, bits: seq<bool>): Reg
    decreases |bits|
  {
    if bits == [] then c else Serial(Shift(Enter(c, bits[0])), bits[1..])
  }

  /** Up to sixteen bits may as well be added all at once, before the shifts. */
  lemma {:induction false} SerialIsBlock(c: Reg, bits: seq<bool>)
    requires |bits| <= 16
    ensures Serial(c, bits) == ShiftN(XorBits(c, bits + Clear(16 - |bits|)), |bits|)
    decreases |bits|
  {
    if bits == [] {
      assert XorBits(c, bits + Clear(16)) == c;
    } else {
      var rest := bits[1..];
      SerialIsBlock(Shift(Enter(c, bits[0])), rest);
      EnterThenAdd(c, bits);
    }
  }

  lemma EnterThenAdd(c: Reg, bits: seq<bool>)
    requires 0 < |bits| <= 16
    ensures Shift(XorBits(c, bits + Clear(16 - |bits|)))
            == XorBits(Shift(Enter(c, bits[0])), bits[1..] + Clear(16 - |bits[1..]|))
  {
    var d := XorBits(c, bits + Clear(16 - |bits|));
    var e := Enter(c, bits[0]);
    var r := XorBits(Shift(e), bits[1..] + Clear(16 - |bits[1..]|));
    forall i | 0 <= i < 16
      ensures Shift(d)[i] == r[i]
    {
      assert d[0] == e[0];
    }
  }

  /** Two different runs of at most sixteen bits never leave the same register. */
  lemma ShortRunsDiffer(c: Reg, a: seq<bool>, b: seq<bool>)
    requires |a| == |b| <= 16 && a != b
    ensures Serial(c, a) != Serial(c, b)
  {
    SerialIsBlock(c, a);
    SerialIsBlock(c, b);
    var z := Clear(16 - |a|);
    if Serial(c, a) == Serial(c, b) {
      ShiftNInjective(XorBits(c, a + z), XorBits(c, b + z), |a|);
      forall i | 0 <= i < |a|
        ensures a[i] == b[i]
      {
        assert XorBits(c, a + z)[i] == (c[i] != a[i]) && XorBits(c, b + z)[i] == (c[i] != b[i]);
      }
    }
  }

  lemma {:induction false} SerialAppend(c: Reg, a: seq<bool>, b: seq<bool>)
    ensures Serial(c, a + b) == Serial(Serial(c, a), b)
    decreases |a|
  {
    if a == [] {
      assert a + b == b;
    } else {
      assert (a + b)[1..] == a[1..] + b;
      SerialAppend(Shift(Enter(c, a[0])), a[1..], b);
    }
  }

  lemma {:induction false} SerialInjective(c: Reg, d: Reg, bits: seq<bool>)
    requires Serial(c, bits) == Serial(d, bits)
    ensures c == d
    decreases |bits|
  {
    if bits != [] {
      SerialInjective(Shift(Enter(c, bits[0])), Shift(Enter(d, bits[0])), bits[1..]);
      ShiftInjective(Enter(c, bits[0]), Enter(d, bits[0]));
      assert Enter(Enter(c, bits[0]), bits[0]) == c && Enter(Enter(d, bits[0]), bits[0]) == d;
    }
  }

  // ---- bursts ---------------------------------------------------------

  /** All bits of a body. */
  function AllBits(data: seq<byte>): (s: seq<bool>)
    ensures |s| == 8 * |data|
  {
    if data == [] then [] else BitsOf(data[0]) + AllBits(data[1..])
  }

  lemma {:induction false} CrcIsSerial(c: Reg, data: seq<byte>)
    ensures Crc(c, data) == Serial(c, AllBits(data))
    decreases |data|
  {
    if data != [] {
      SerialIsBlock(c, BitsOf(data[0]));
      SerialAppend(c, BitsOf(data[0]), AllBits(data[1..]));
      CrcIsSerial(Absorb(c, data[0]), data[1..]);
    }
  }

  /** `a` and `b` agree outside the `n` bits from `from` on. */
  predicate DifferWithin(a: seq<bool>, b: seq<bool>, from: nat, n: nat) {
    |a| == |b| && forall i :: 0 <= i < |a| && !(from <= i < from + n) ==> a[i] == b[i]
  }

  /** Two streams that differ, but only within sixteen consecutive bits. */
  lemma BurstShows(c: Reg, a: seq<bool>, b: seq<bool>, from: nat)
    requires DifferWithin(a, b, from, 16) && a != b
    ensures Serial(c, a) != Serial(c, b)
  {
    var lo := Min(from, |a|);
    var hi := Min(from + 16, |a|);
    assert a[..lo] == b[..lo] && a[hi..] == b[hi..];
    assert a == a[..lo] + (a[lo..hi] + a[hi..]) && b == b[..lo] + (b[lo..hi] + b[hi..]);
    assert a[lo..hi] != b[lo..hi];
    var d := Serial(c, a[..lo]);
    SerialAppend(c, a[..lo], a[lo..hi] + a[hi..]);
    SerialAppend(c, b[..lo], b[lo..hi] + b[hi..]);
    SerialAppend(d, a[lo..hi], a[hi..]);
    SerialAppend(d, b[lo..hi], b[hi..]);
    ShortRunsDiffer(d, a[lo..hi], b[lo..hi]);
    if Serial(c, a) == Serial(c, b) {
      SerialInjective(Serial(d, a[lo..hi]), Serial(d, b[lo..hi]), a[hi..]);
    }
  }

  lemma {:induction false} BitsInjective(a: seq<byte>, b: seq<byte>)
    requires |a| == |b| && AllBits(a) == AllBits(b)
    ensures a == b
  {
    if a != [] {
      assert BitsOf(a[0]) == AllBits(a)[..8] && BitsOf(b[0]) == AllBits(b)[..8];
      assert AllBits(a[1..]) == AllBits(a)[8..] && AllBits(b[1..]) == AllBits(b)[8..];
      ByteBits(a[0], b[0]);
      BitsInjective(a[1..], b[1..]);
    }
  }

  lemma NibbleInjective(m: nat, n: nat)
    requires m < 16 && n < 16 && Nibble(m) == Nibble(n)
    ensures m == n
  {
    var s, t := Nibble(m), Nibble(n);
    assert s[0] == t[0] && s[1] == t[1] && s[2] == t[2] && s[3] == t[3];
  }

  lemma ByteBits(a: byte, b: byte)
    requires BitsOf(a) == BitsOf(b)
    ensures a == b
  {
    assert BitsOf(a)[..4] == Nibble(a / 16) && BitsOf(b)[..4] == Nibble(b / 16);
    assert BitsOf(a)[4..] == Nibble(a % 16) && BitsOf(b)[4..] == Nibble(b % 16);
    NibbleInjective(a / 16, b / 16);
    NibbleInjective(a % 16, b % 16);
  }

  /** The checksum tells apart any two bodies of one length whose difference lies
      within sixteen consecutive bits, wherever those are. */
  lemma BurstDetected(a: seq<byte>, b: seq<byte>, from: nat)
    requires a != b && DifferWithin(AllBits(a), AllBits(b), from, 16)
    ensures Crc(INITIAL, a) != Crc(INITIAL, b)
  {
    CrcIsSerial(INITIAL, a);
    CrcIsSerial(INITIAL, b);
    if AllBits(a) == AllBits(b) {
      BitsInjective(a, b);
    }
    BurstShows(INITIAL, AllBits(a), AllBits(b), from);
  }

  /** Sixteen is the limit: wherever a stream is changed by the polynomial itself,
      seventeen bits long, the register does not notice. */
  lemma SeventeenBitsMissed(c: Reg, before: seq<bool>, bit: bool, bits: Reg, after: seq<bool>)
    ensures Serial(c, before + ([bit] + bits) + after) == Serial(c, before + ([!bit] + XorBits(bits, POLY)) + after)
  {
    var d := Serial(c, before);
    var plain, changed := [bit] + bits, [!bit] + XorBits(bits, POLY);
    SerialAppend(c, before + plain, after);
    SerialAppend(c, before, plain);
    SerialAppend(c, before + changed, after);
    SerialAppend(c, before, changed);
    var e, f := Shift(Enter(d, bit)), Shift(Enter(d, !bit));
    assert plain[1..] == bits && changed[1..] == XorBits(bits, POLY);
    assert f == XorBits(e, POLY);
    SerialIsBlock(e, bits);
    SerialIsBlock(f, XorBits(bits, POLY));
    assert XorBits(f, XorBits(bits, POLY) + Clear(0)) == XorBits(e, bits + Clear(0));
  }
}
