/** The checksum register as a remainder: polynomials over the field of two elements, each
    the set of its exponents. */
module CrcDivision {
  import opened Bytes
  import opened Crc

  type Poly = set<nat>

  // ---- polynomials ----------------------------------------------------

  /** The sum: equal terms cancel. */
  function Add(a: Poly, b: Poly): (r: Poly)
    ensures forall e: nat :: e in r <==> (e in a) != (e in b)
  {
    (a - b) + (b - a)
  }

  /** The polynomial times x to the `n`. */
  function Up(a: Poly, n: nat): (r: Poly)
    ensures forall e: nat :: e in r <==> n <= e && e - n in a
  {
    set e | e in a :: e + n
  }

  /** x to the `n`, or nothing. */
  function Term(b: bool, n: nat): (r: Poly)
    ensures forall e: nat :: e in r <==> b && e == n
  {
    if b then {n} else {}
  }

  /** The polynomial times the generator, x^16 + x^12 + x^5 + 1. */
  function TimesGenerator(q: Poly): Poly {
    Add(Add(Up(q, 16), Up(q, 12)), Add(Up(q, 5), Up(q, 0)))
  }

  lemma AddAssoc(a: Poly, b: Poly, c: Poly)
    ensures Add(Add(a, b), c) == Add(a, Add(b, c))
  {
  }

  lemma UpAdd(a: Poly, b: Poly, n: nat)
    ensures Up(Add(a, b), n) == Add(Up(a, n), Up(b, n))
  {
  }

  lemma UpUp(a: Poly, m: nat, n: nat)
    ensures Up(Up(a, m), n) == Up(Up(a, n), m)
  {
  }

  /** The sum of two sums, term by term. */
  lemma AddPairs(a: Poly, b: Poly, c: Poly, d: Poly)
    ensures Add(Add(a, b), Add(c, d)) == Add(Add(a, c), Add(b, d))
  {
  }

  lemma GeneratorAdd(p: Poly, q: Poly)
    ensures TimesGenerator(Add(p, q)) == Add(TimesGenerator(p), TimesGenerator(q))
  {
    UpAdd(p, q, 16);
    UpAdd(p, q, 12);
    UpAdd(p, q, 5);
    UpAdd(p, q, 0);
    AddPairs(Up(p, 16), Up(q, 16), Up(p, 12), Up(q, 12));
    AddPairs(Up(p, 5), Up(q, 5), Up(p, 0), Up(q, 0));
    AddPairs(Add(Up(p, 16), Up(p, 12)), Add(Up(q, 16), Up(q, 12)), Add(Up(p, 5), Up(p, 0)), Add(Up(q, 5), Up(q, 0)));
  }

  lemma GeneratorUp(q: Poly)
    ensures TimesGenerator(Up(q, 1)) == Up(TimesGenerator(q), 1)
  {
    UpUp(q, 1, 16);
    UpUp(q, 1, 12);
    UpUp(q, 1, 5);
    UpUp(q, 1, 0);
    UpAdd(Up(q, 16), Up(q, 12), 1);
    UpAdd(Up(q, 5), Up(q, 0), 1);
    UpAdd(Add(Up(q, 16), Up(q, 12)), Add(Up(q, 5), Up(q, 0)), 1);
  }

  /** The generator itself, or nothing. */
  function Generator(b: bool): Poly {
    Add(Add(Term(b, 16), Term(b, 12)), Add(Term(b, 5), Term(b, 0)))
  }

  lemma GeneratorOnce(b: bool)
    ensures TimesGenerator(Term(b, 0)) == Generator(b)
  {
    UpTerm(b, 16);
    UpTerm(b, 12);
    UpTerm(b, 5);
    UpTerm(b, 0);
  }

  lemma UpTerm(b: bool, n: nat)
    ensures Up(Term(b, 0), n) == Term(b, n)
  {
  }

  // ---- the register ---------------------------------------------------

  /** The coefficient of x to the `e`: the first bit of the register is that of x^15. */
  predicate Coefficient(c: Reg, e: nat) {
    e < 16 && c[15 - e]
  }

  function PolyOf(c: Reg): (r: Poly)
    ensures forall e: nat :: e in r <==> Coefficient(c, e)
  {
    set e: nat | e < 16 && Coefficient(c, e)
  }

  /** What is divided: the bits, the first one the highest, times x^16, with the initial
      register added in front. */
  function Dividend(c: Reg, bits: seq<bool>): Poly {
    if bits == [] then PolyOf(c)
    else Add(Up(Dividend(c, bits[..|bits| - 1]), 1), Term(bits[|bits| - 1], 16))
  }

  /** One bit shifted in, coefficient by coefficient. */
  lemma ShiftCoefficient(c: Reg, bit: bool, e: nat)
    ensures var lead := c[0] != bit;
            ((0 < e && Coefficient(c, e - 1)) != (bit && e == 16))
            == ((lead && (e == 16 || e == 12 || e == 5 || e == 0)) != Coefficient(Shift(Enter(c, bit)), e))
  {
    var d := Enter(c, bit);
    if e < 16 {
      assert Shift(d)[15 - e] == ((if e == 0 then false else d[16 - e]) != (d[0] && POLY[15 - e]));
    }
  }

  /** Shifting in one bit: times x, and the generator taken away if x^16 comes up. */
  lemma ShiftDivides(c: Reg, bit: bool)
    ensures Add(Up(PolyOf(c), 1), Term(bit, 16)) == Add(Generator(c[0] != bit), PolyOf(Shift(Enter(c, bit))))
  {
    var lead, d := c[0] != bit, Shift(Enter(c, bit));
    var left, right := Add(Up(PolyOf(c), 1), Term(bit, 16)), Add(Generator(lead), PolyOf(d));
    forall e: nat
      ensures e in left <==> e in right
    {
      ShiftCoefficient(c, bit, e);
      GeneratorTerms(lead, e);
      assert e in Up(PolyOf(c), 1) <==> 0 < e && Coefficient(c, e - 1);
    }
  }

  lemma GeneratorTerms(b: bool, e: nat)
    ensures e in Generator(b) <==> b && (e == 16 || e == 12 || e == 5 || e == 0)
  {
  }

  /** Dividing goes on: if the bits so far leave `c`, one more leaves its shift. */
  lemma DivisionStep(d: Poly, q: Poly, c: Reg, bit: bool) returns (q': Poly)
    requires d == Add(TimesGenerator(q), PolyOf(c))
    ensures Add(Up(d, 1), Term(bit, 16)) == Add(TimesGenerator(q'), PolyOf(Shift(Enter(c, bit))))
  {
    var lead := c[0] != bit;
    var g, rest, t := Generator(lead), PolyOf(Shift(Enter(c, bit))), Up(TimesGenerator(q), 1);
    q' := Add(Up(q, 1), Term(lead, 0));
    GeneratorAdd(Up(q, 1), Term(lead, 0));
    GeneratorUp(q);
    GeneratorOnce(lead);
    assert TimesGenerator(q') == Add(t, g);
    UpAdd(TimesGenerator(q), PolyOf(c), 1);
    AddAssoc(t, Up(PolyOf(c), 1), Term(bit, 16));
    ShiftDivides(c, bit);
    AddAssoc(t, g, rest);
  }

  lemma SerialSnoc(c: Reg, bits: seq<bool>, bit: bool)
    ensures Serial(c, bits + [bit]) == Shift(Enter(Serial(c, bits), bit))
  {
    SerialAppend(c, bits, [bit]);
    assert [bit][1..] == [];
  }

  /** The register after any bits is the remainder of the division by x^16 + x^12 + x^5 + 1;
      `q` is the quotient. */
  lemma {:induction false} SerialIsRemainder(c: Reg, bits: seq<bool>) returns (q: Poly)
    ensures Dividend(c, bits) == Add(TimesGenerator(q), PolyOf(Serial(c, bits)))
    decreases |bits|
  {
    if bits == [] {
      q := {};
      NothingTimes(PolyOf(c));
    } else {
      var n := |bits| - 1;
      var p := SerialIsRemainder(c, bits[..n]);
      q := DivisionStep(Dividend(c, bits[..n]), p, Serial(c, bits[..n]), bits[n]);
      LastBit(c, bits);
    }
  }

  lemma LastBit(c: Reg, bits: seq<bool>)
    requires bits != []
    ensures var n := |bits| - 1; Serial(c, bits) == Shift(Enter(Serial(c, bits[..n]), bits[n]))
  {
    var n := |bits| - 1;
    assert bits[..n] + [bits[n]] == bits;
    SerialSnoc(c, bits[..n], bits[n]);
  }

  lemma NothingTimes(a: Poly)
    ensures Add(TimesGenerator({}), a) == a
  {
    assert Up({}, 16) == {} && Up({}, 12) == {} && Up({}, 5) == {} && Up({}, 0) == {};
  }

  /** CRC-16/CCITT-FALSE as it is defined: the bits of the data, most significant first,
      behind an initial register of sixteen ones, divided by x^16 + x^12 + x^5 + 1. */
  lemma CrcIsRemainder(data: seq<byte>, e: nat) returns (q: Poly)
    ensures Dividend(INITIAL, AllBits(data)) == Add(TimesGenerator(q), PolyOf(Crc.Crc(INITIAL, data)))
    ensures Coefficient(INITIAL, e) <==> e < 16
    ensures e in PolyOf(Crc.Crc(INITIAL, data)) ==> e < 16
  {
    CrcIsSerial(INITIAL, data);
    q := SerialIsRemainder(INITIAL, AllBits(data));
  }

  // ---- the bits of a byte ---------------------------------------------

  function Value(s: seq<bool>): nat
    requires |s| == 4
  {
    (if s[0] then 8 else 0) + (if s[1] then 4 else 0) + (if s[2] then 2 else 0) + (if s[3] then 1 else 0)
  }

  /** Most significant first. */
  lemma BitsWeigh(b: byte)
    ensures b == 16 * Value(BitsOf(b)[..4]) + Value(BitsOf(b)[4..])
  {
    assert BitsOf(b)[..4] == Nibble(b / 16) && BitsOf(b)[4..] == Nibble(b % 16);
    NibbleWeighs(b / 16);
    NibbleWeighs(b % 16);
  }

  lemma NibbleWeighs(n: nat)
    requires n < 16
    ensures n == Value(Nibble(n))
  {
  }
}
