/** 32-bit FNV-1a. */
module Fnv {
  import opened Bytes

  const MODULUS := 0x1_0000_0000
  const OFFSET_BASIS: u32 := 0x811C9DC5
  const PRIME := 0x01000193

  // ---- exclusive or ---------------------------------------------------

  /** Exclusive or, bit by bit from the lowest. */
  function Xor(x: nat, y: nat): (r: nat)
    decreases x + y
  {
    if x == 0 && y == 0 then 0 else (x + y) % 2 + 2 * Xor(x / 2, y / 2)
  }

  lemma {:induction false} XorBound(x: nat, y: nat, bound: nat)
    requires x < 2 * bound && y < 2 * bound && (x / 2 < bound && y / 2 < bound ==> Xor(x / 2, y / 2) < bound)
    ensures Xor(x, y) < 2 * bound
  {
  }

  /** The exclusive or of two bytes is a byte. */
  lemma XorByte(x: byte, y: byte)
    ensures Xor(x, y) < 256
  {
    assert x / 2 / 2 / 2 / 2 / 2 / 2 / 2 / 2 == 0 && y / 2 / 2 / 2 / 2 / 2 / 2 / 2 / 2 == 0;
    XorBound(x / 2 / 2 / 2 / 2 / 2 / 2 / 2, y / 2 / 2 / 2 / 2 / 2 / 2 / 2, 1);
    XorBound(x / 2 / 2 / 2 / 2 / 2 / 2, y / 2 / 2 / 2 / 2 / 2 / 2, 2);
    XorBound(x / 2 / 2 / 2 / 2 / 2, y / 2 / 2 / 2 / 2 / 2, 4);
    XorBound(x / 2 / 2 / 2 / 2, y / 2 / 2 / 2 / 2, 8);
    XorBound(x / 2 / 2 / 2, y / 2 / 2 / 2, 16);
    XorBound(x / 2 / 2, y / 2 / 2, 32);
    XorBound(x / 2, y / 2, 64);
    XorBound(x, y, 128);
  }

  lemma {:induction false} XorCommutes(x: nat, y: nat)
    ensures Xor(x, y) == Xor(y, x)
    decreases x + y
  {
    if x != 0 || y != 0 {
      XorCommutes(x / 2, y / 2);
    }
  }

  /** The lowest bit and the others of `bit + 2 * rest`, with `y`'s lowest bit taken back out. */
  lemma LowestBit(x: nat, y: nat, rest: nat)
    ensures var r := (x + y) % 2 + 2 * rest; (r + y) % 2 == x % 2 && r / 2 == rest
  {
  }

  /** Exclusive or undoes itself. */
  lemma {:induction false} XorTwice(x: nat, y: nat)
    ensures Xor(Xor(x, y), y) == x
    decreases x + y
  {
    if x != 0 || y != 0 {
      XorTwice(x / 2, y / 2);
      XorTwiceStep(x, y, Xor(x / 2, y / 2));
    }
  }

  lemma XorTwiceStep(x: nat, y: nat, rest: nat)
    requires Xor(rest, y / 2) == x / 2
    ensures Xor((x + y) % 2 + 2 * rest, y) == x
  {
    LowestBit(x, y, rest);
    XorUnfold((x + y) % 2 + 2 * rest, y);
  }

  lemma XorUnfold(r: nat, y: nat)
    ensures Xor(r, y) == (r + y) % 2 + 2 * Xor(r / 2, y / 2)
  {
    if r == 0 && y == 0 {
      assert Xor(0, 0) == 0;
    }
  }

  // ---- one turn of the hash -------------------------------------------

  /** `hash ^= p[i]`: only the low byte changes. */
  function Stir(h: u32, b: byte): u32 {
    XorByte(h % 256, b);
    h - h % 256 + Xor(h % 256, b)
  }

  /** `hash *= 0x01000193`, modulo 2^32. */
  function Scale(h: u32): u32 {
    h * PRIME % MODULUS
  }

  function Mix(h: u32, b: byte): u32 {
    Scale(Stir(h, b))
  }

  function Hash(h: u32, data: seq<byte>): u32
    decreases |data|
  {
    if data == [] then h else Hash(Mix(h, data[0]), data[1..])
  }

  /** fnv1a(). */
  method Fnv1a(data: seq<byte>) returns (hash: u32)
    ensures hash == Hash(OFFSET_BASIS, data)
  {
    hash := OFFSET_BASIS;
    var i := 0;
    while i < |data|
      invariant 0 <= i <= |data| && Hash(hash, data[i..]) == Hash(OFFSET_BASIS, data)
    {
      hash := Stir(hash, data[i]);
      hash := Scale(hash);
      i := i + 1;
    }
  }

  // ---- every turn is one-to-one ---------------------------------------

  const INVERSE := 0x359C449B   // PRIME * INVERSE is 1 modulo 2^32

  /** Multiplying by an odd number can be undone. */
  lemma ScaleUndone(h: u32)
    ensures Scale(h) * INVERSE % MODULUS == h
  {
    var q := h * PRIME / MODULUS;
    var k := PRIME * INVERSE / MODULUS;
    assert PRIME * INVERSE == 1 + k * MODULUS;
    assert Scale(h) * INVERSE == h + MODULUS * (k * h - q * INVERSE);
    ModIs(Scale(h) * INVERSE, k * h - q * INVERSE, h);
  }

  lemma ModIs(a: int, t: int, h: u32)
    requires a == h + MODULUS * t
    ensures a % MODULUS == h
  {
  }

  lemma XorTells(x: nat, y: nat, a: nat, b: nat)
    requires Xor(x, a) == Xor(y, b)
    ensures (a == b ==> x == y) && (x == y ==> a == b)
  {
    XorTwice(x, a);
    XorTwice(y, b);
    XorCommutes(x, a);
    XorCommutes(y, b);
    XorTwice(a, x);
    XorTwice(b, y);
  }

  lemma LowByte(g: u32, h: u32, u: byte, v: byte)
    requires g - g % 256 + u == h - h % 256 + v
    ensures u == v && g - g % 256 == h - h % 256
  {
  }

  lemma StirTells(g: u32, h: u32, a: byte, b: byte)
    requires Stir(g, a) == Stir(h, b)
    ensures (a == b ==> g == h) && (g == h ==> a == b)
  {
    var x, y := g % 256, h % 256;
    XorByte(x, a);
    XorByte(y, b);
    LowByte(g, h, Xor(x, a), Xor(y, b));
    XorTells(x, y, a, b);
  }

  lemma MixTells(g: u32, h: u32, a: byte, b: byte)
    requires Mix(g, a) == Mix(h, b)
    ensures (a == b ==> g == h) && (g == h ==> a == b)
  {
    ScaleUndone(Stir(g, a));
    ScaleUndone(Stir(h, b));
    StirTells(g, h, a, b);
  }

  /** The same bytes never bring two different hashes together. */
  lemma {:induction false} HashInjective(g: u32, h: u32, data: seq<byte>)
    requires Hash(g, data) == Hash(h, data)
    ensures g == h
    decreases |data|
  {
    if data != [] {
      HashInjective(Mix(g, data[0]), Mix(h, data[0]), data[1..]);
      MixTells(g, h, data[0], data[0]);
    }
  }

  /** A change to exactly one byte always changes the hash. */
  lemma {:induction false} OneByteShows(h: u32, data: seq<byte>, k: nat, b: byte)
    requires k < |data| && b != data[k]
    ensures Hash(h, data[k := b]) != Hash(h, data)
    decreases |data|
  {
    var changed := data[k := b];
    if k == 0 {
      assert changed[1..] == data[1..];
      if Hash(h, changed) == Hash(h, data) {
        HashInjective(Mix(h, b), Mix(h, data[0]), data[1..]);
        MixTells(h, h, b, data[0]);
      }
    } else {
      assert changed[1..] == data[1..][k - 1 := b];
      OneByteShows(Mix(h, data[0]), data[1..], k - 1, b);
    }
  }

  // ---- which hash it is -----------------------------------------------

  /** Bit `k` of a number. */
  function Bit(n: nat, k: nat): nat {
    if k == 0 then n % 2 else Bit(n / 2, k - 1)
  }

  /** Exclusive or, bit for bit. */
  lemma {:induction false} XorBit(x: nat, y: nat, k: nat)
    ensures Bit(Xor(x, y), k) == (Bit(x, k) + Bit(y, k)) % 2
    decreases k
  {
    XorHalves(x, y);
    if k != 0 {
      XorBit(x / 2, y / 2, k - 1);
    }
  }

  lemma XorHalves(x: nat, y: nat)
    ensures Xor(x, y) % 2 == (x + y) % 2 && Xor(x, y) / 2 == Xor(x / 2, y / 2)
  {
    XorUnfold(x, y);
    HalvesOf(Xor(x, y), (x + y) % 2, Xor(x / 2, y / 2));
  }

  lemma HalvesOf(r: nat, bit: nat, rest: nat)
    requires bit < 2 && r == bit + 2 * rest
    ensures r % 2 == bit && r / 2 == rest
  {
  }

  lemma {:induction false} HashSnoc(h: u32, data: seq<byte>, b: byte)
    ensures Hash(h, data + [b]) == Mix(Hash(h, data), b)
    decreases |data|
  {
    if data == [] {
      assert data + [b] == [b] && [b][1..] == [];
    } else {
      assert (data + [b])[1..] == data[1..] + [b];
      HashSnoc(Mix(h, data[0]), data[1..], b);
    }
  }

  /** FNV-1a as it is published: begin with 0x811C9DC5; for each byte first exclusive or
      into the low byte, then multiply by 0x01000193 modulo 2^32. */
  lemma HashIsFnv1a(data: seq<byte>, b: byte)
    ensures Hash(OFFSET_BASIS, []) == 0x811C9DC5
    ensures var g := Hash(OFFSET_BASIS, data);
            Hash(OFFSET_BASIS, data + [b]) == (g - g % 256 + Xor(g % 256, b)) * 0x01000193 % 0x1_0000_0000
  {
    HashSnoc(OFFSET_BASIS, data, b);
  }

  /** Its published value for the one byte 0x61. */
  lemma PublishedValue(h: u32, b: byte)
    requires h == 0x811C9DC5 && b == 0x61
    ensures h == OFFSET_BASIS && Hash(h, [b]) == 0xE40C292C
  {
    HashOne(h, b);
    StirOf(h, b);
    Product(Stir(h, b));
  }

  lemma HashOne(h: u32, b: byte)
    ensures Hash(h, [b]) == Stir(h, b) * 0x01000193 % 0x1_0000_0000
  {
    assert [b][1..] == [];
  }

  lemma StirOf(h: u32, b: byte)
    requires h == 0x811C9DC5 && b == 0x61
    ensures Stir(h, b) == 0x811C9DA4
  {
    XorOf(h % 256, b);
  }

  lemma Product(x: nat)
    requires x == 0x811C9DA4
    ensures x * 0x01000193 % 0x1_0000_0000 == 0xE40C292C
  {
  }

  lemma XorOf(x: nat, y: nat)
    requires x == 0xC5 && y == 0x61
    ensures Xor(x, y) == 0xA4
  {
    XorUnfold(x, y);
    XorUnfold(x / 2, y / 2);
    XorUnfold(x / 4, y / 4);
    XorUnfold(x / 8, y / 8);
    XorUnfold(x / 16, y / 16);
    XorUnfold(x / 32, y / 32);
    XorUnfold(x / 64, y / 64);
    XorUnfold(x / 128, y / 128);
    assert Xor(x / 256, y / 256) == 0;
  }
}
