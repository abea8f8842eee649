/** Polynomials over GF(2), and the CRC register as a remainder.
    A polynomial is the set of exponents whose coefficient is 1. */
module Gf2 {
  import opened Basics
  import opened Words
  import opened Crc32

  type Poly = set<nat>

  /** Addition (and subtraction): coefficients are added modulo 2. */
  function Add(p: Poly, q: Poly): Poly {
    (p - q) + (q - p)
  }

  /** Multiplication by x^n. */
  function TimesX(p: Poly, n: nat): Poly {
    set i | i in p :: i + n
  }

  /** Multiplication of `g` by the polynomial with the given coefficients, leading one first. */
  function Times(q: seq<bool>, g: Poly): Poly {
    if q == [] then {}
    else Add(TimesX(Times(q[..|q| - 1], g), 1), if q[|q| - 1] then g else {})
  }

  /** The polynomial a string of bits stands for, first bit leading. */
  function Polynomial(bits: seq<bool>): Poly {
    Times(bits, {0})
  }

  /** The polynomial in a register: bit `i` is the coefficient of x^i. */
  function Register(r: Word): Poly {
    set i: nat | i < 32 && r[i]
  }

  predicate DegreeBelow(p: Poly, n: nat) {
    forall i :: i in p ==> i < n
  }

  /** The degree-32 polynomial whose lower terms are in `g`. */
  function Generator(g: Word): Poly {
    Register(g) + {32}
  }

  /** `r` is what is left of `p` after dividing by `d`. */
  ghost predicate IsRemainder(p: Poly, d: Poly, r: Poly) {
    DegreeBelow(r, 32) && exists q :: p == Add(Times(q, d), r)
  }

  // ---------------------------------------------------------------- algebra

  lemma AddFour(a: Poly, b: Poly, c: Poly, d: Poly)
    ensures Add(Add(a, b), Add(c, d)) == Add(Add(a, c), Add(b, d))
  {
  }

  lemma TimesXAdd(p: Poly, q: Poly, n: nat)
    ensures TimesX(Add(p, q), n) == Add(TimesX(p, n), TimesX(q, n))
  {
    forall i
      ensures i in TimesX(Add(p, q), n) <==> i in Add(TimesX(p, n), TimesX(q, n))
    {
      InTimesX(p, n, i);
      InTimesX(q, n, i);
      InTimesX(Add(p, q), n, i);
    }
  }

  lemma InTimesX(p: Poly, n: nat, i: int)
    ensures i in TimesX(p, n) <==> i >= n && (i - n) in p
  {
    if i >= n && (i - n) in p {
      assert (i - n) + n in TimesX(p, n);
    }
  }

  lemma TimesXTwice(p: Poly, m: nat, n: nat)
    ensures TimesX(TimesX(p, m), n) == TimesX(p, m + n)
  {
    forall i
      ensures i in TimesX(TimesX(p, m), n) <==> i in TimesX(p, m + n)
    {
      InTimesX(TimesX(p, m), n, i);
      InTimesX(p, m + n, i);
      if i >= n {
        InTimesX(p, m, i - n);
      }
    }
  }

  function Scaled(t: bool, g: Poly): Poly {
    if t then g else {}
  }

  lemma AddAssociates(a: Poly, b: Poly, c: Poly)
    ensures Add(Add(a, b), c) == Add(a, Add(b, c))
  {
  }

  /** Taking the leading coefficient off a factor. */
  lemma {:induction false} TimesCons(t: bool, q: seq<bool>, g: Poly)
    ensures Times([t] + q, g) == Add(TimesX(Scaled(t, g), |q|), Times(q, g))
  {
    var f := [t] + q;
    var last := Scaled(f[|f| - 1], g);
    if q == [] {
      assert f[..0] == [] && TimesX({}, 1) == {};
      assert TimesX(Scaled(t, g), 0) == Scaled(t, g);
      assert Times(f, g) == Add(TimesX(Times([], g), 1), last);
    } else {
      var front := q[..|q| - 1];
      var lead := TimesX(Scaled(t, g), |front|);
      assert f[..|f| - 1] == [t] + front;
      TimesCons(t, front, g);
      TimesXAdd(lead, Times(front, g), 1);
      TimesXTwice(Scaled(t, g), |front|, 1);
      AddAssociates(TimesX(lead, 1), TimesX(Times(front, g), 1), last);
    }
  }

  // ---------------------------------------------------------------- the register divides

  /** One clock tick: shifting a bit in multiplies by x and takes the generator off if the
      degree got too high. */
  lemma TickDivides(r: Word, bit: bool, g: Word)
    ensures Add(TimesX(Register(r), 1), Scaled(bit, {32}))
         == Add(Scaled(r[31] != bit, Generator(g)), Register(ShiftIn(r, bit, g)))
  {
    forall i: nat
      ensures i in Add(TimesX(Register(r), 1), Scaled(bit, {32}))
         <==> i in Add(Scaled(r[31] != bit, Generator(g)), Register(ShiftIn(r, bit, g)))
    {
      InTimesX(Register(r), 1, i);
    }
  }

  /** What is divided: the register, moved up to make room for the bits, plus the bits. */
  function Dividend(r: Word, bits: seq<bool>): Poly {
    Add(TimesX(Register(r), |bits|), TimesX(Polynomial(bits), 32))
  }

  /** Moving the first bit from the string into the register. */
  lemma DividendStep(r: Word, bits: seq<bool>, g: Word)
    requires bits != []
    ensures Dividend(r, bits)
         == Add(TimesX(Scaled(r[31] != bits[0], Generator(g)), |bits| - 1),
                Dividend(ShiftIn(r, bits[0], g), bits[1..]))
  {
    var b, rest, r' := bits[0], bits[1..], ShiftIn(r, bits[0], g);
    var n := |rest|;
    var t := Scaled(r[31] != b, Generator(g));
    assert bits == [b] + rest;
    TimesCons(b, rest, {0});
    var lead := TimesX(Scaled(b, {0}), n);
    TimesXAdd(lead, Polynomial(rest), 32);
    LeadingBit(b, n);
    TimesXTwice(Register(r), 1, n);
    TimesXAdd(TimesX(Register(r), 1), Scaled(b, {32}), n);
    TickDivides(r, b, g);
    TimesXAdd(t, Register(r'), n);
    AddAssociates(TimesX(Register(r), n + 1), TimesX(lead, 32), TimesX(Polynomial(rest), 32));
    AddAssociates(TimesX(t, n), TimesX(Register(r'), n), TimesX(Polynomial(rest), 32));
  }

  lemma LeadingBit(b: bool, n: nat)
    ensures TimesX(TimesX(Scaled(b, {0}), n), 32) == TimesX(Scaled(b, {32}), n)
  {
    if b {
      assert TimesX({0}, n) == {n};
      assert TimesX({n}, 32) == {n + 32};
      assert TimesX({32}, n) == {n + 32};
    }
  }

  /** Long division, one quotient bit per clock tick. */
  lemma {:induction false} Division(r: Word, bits: seq<bool>, g: Word) returns (q: seq<bool>)
    ensures |q| == |bits|
    ensures Dividend(r, bits) == Add(Times(q, Generator(g)), Register(Serial(r, bits, g)))
    decreases |bits|
  {
    if bits == [] {
      q := [];
      assert TimesX(Register(r), 0) == Register(r) && TimesX(Polynomial([]), 32) == {};
    } else {
      var t := r[31] != bits[0];
      var r' := ShiftIn(r, bits[0], g);
      var q' := Division(r', bits[1..], g);
      q := [t] + q';
      DividendStep(r, bits, g);
      TimesCons(t, q', Generator(g));
      AddAssociates(TimesX(Scaled(t, Generator(g)), |q'|), Times(q', Generator(g)), Register(Serial(r, bits, g)));
    }
  }

  // ---------------------------------------------------------------- remainders are unique

  predicate Monic32(d: Poly) {
    32 in d && forall i :: i in d ==> i <= 32
  }

  lemma {:induction false} TimesBound(q: seq<bool>, d: Poly)
    requires Monic32(d)
    ensures forall i :: i in Times(q, d) ==> i < 32 + |q|
  {
    if q != [] {
      var front := Times(q[..|q| - 1], d);
      TimesBound(q[..|q| - 1], d);
      forall i | i in Times(q, d)
        ensures i < 32 + |q|
      {
        InTimesX(front, 1, i);
      }
    }
  }

  lemma LeadingTerm(q: seq<bool>, d: Poly)
    requires Monic32(d) && q != [] && q[0]
    ensures 32 + |q| - 1 in Times(q, d)
  {
    assert q == [q[0]] + q[1..];
    TimesCons(q[0], q[1..], d);
    TimesBound(q[1..], d);
    InTimesX(d, |q| - 1, 32 + |q| - 1);
  }

  /** A nonzero multiple of a degree-32 polynomial has degree at least 32. */
  lemma {:induction false} MultipleIsHigh(q: seq<bool>, d: Poly)
    requires Monic32(d) && DegreeBelow(Times(q, d), 32)
    ensures Times(q, d) == {}
  {
    if q != [] {
      if q[0] {
        LeadingTerm(q, d);
        assert false;
      } else {
        assert q == [false] + q[1..];
        TimesCons(false, q[1..], d);
        assert TimesX({}, |q| - 1) == {};
        assert Times(q, d) == Times(q[1..], d);
        MultipleIsHigh(q[1..], d);
      }
    }
  }

  function Padded(q: seq<bool>, n: nat): seq<bool> {
    seq(n, _ => false) + q
  }

  lemma {:induction false} TimesPadded(q: seq<bool>, n: nat, d: Poly)
    ensures Times(Padded(q, n), d) == Times(q, d)
  {
    if n == 0 {
      assert Padded(q, 0) == q;
    } else {
      assert Padded(q, n) == [false] + Padded(q, n - 1);
      TimesPadded(q, n - 1, d);
      TimesCons(false, Padded(q, n - 1), d);
      assert TimesX({}, |Padded(q, n - 1)|) == {};
    }
  }

  function SumOf(p: seq<bool>, q: seq<bool>): seq<bool>
    requires |p| == |q|
  {
    seq(|p|, i requires 0 <= i < |p| => p[i] != q[i])
  }

  lemma {:induction false} TimesSum(p: seq<bool>, q: seq<bool>, d: Poly)
    requires |p| == |q|
    ensures Times(SumOf(p, q), d) == Add(Times(p, d), Times(q, d))
  {
    if p != [] {
      var n := |p| - 1;
      var p', q' := p[..n], q[..n];
      assert SumOf(p, q)[..n] == SumOf(p', q');
      TimesSum(p', q', d);
      TimesXAdd(Times(p', d), Times(q', d), 1);
      AddFour(TimesX(Times(p', d), 1), Scaled(p[n], d), TimesX(Times(q', d), 1), Scaled(q[n], d));
      assert Scaled(p[n] != q[n], d) == Add(Scaled(p[n], d), Scaled(q[n], d));
    }
  }

  /** Division by a polynomial of degree 32 leaves only one remainder. */
  lemma RemainderUnique(p: Poly, d: Poly, r: Poly, r': Poly)
    requires Monic32(d) && IsRemainder(p, d, r) && IsRemainder(p, d, r')
    ensures r == r'
  {
    var q :| p == Add(Times(q, d), r);
    var q' :| p == Add(Times(q', d), r');
    var a, b := Padded(q, |q'|), Padded(q', |q|);
    TimesPadded(q, |q'|, d);
    TimesPadded(q', |q|, d);
    TimesSum(a, b, d);
    SameSum(Times(q, d), r, Times(q', d), r');
    MultipleIsHigh(SumOf(a, b), d);
  }

  lemma SameSum(a: Poly, r: Poly, b: Poly, r': Poly)
    requires Add(a, r) == Add(b, r')
    ensures Add(a, b) == Add(r, r')
  {
    forall i
      ensures i in Add(a, b) <==> i in Add(r, r')
    {
      assert i in Add(a, r) <==> i in Add(b, r');
    }
  }

  // ---------------------------------------------------------------- the checksum

  /** The generator is the polynomial the header of crc32.c names. */
  lemma GeneratorPolynomial()
    ensures Generator(POLYNOMIAL) == {32, 26, 23, 22, 16, 12, 11, 10, 8, 7, 5, 4, 2, 1, 0}
  {
  }

  lemma RegisterOfZero()
    ensures Register(ZERO) == {}
  {
  }

  /** `update_crc` computes a remainder: for every accumulator and block, of the accumulator
      times x^n (n the number of data bits) plus the data times x^32. */
  lemma CrcIsRemainder(r: Word, data: seq<Byte>)
    ensures IsRemainder(Dividend(r, DataBits(data)), Generator(POLYNOMIAL), Register(Crc(r, data)))
  {
    var q := Division(r, DataBits(data), POLYNOMIAL);
  }

  /** From accumulator 0 it is the remainder of the data times x^32, and nothing else is. */
  lemma CrcFromZero(data: seq<Byte>, rest: Poly)
    ensures IsRemainder(TimesX(Polynomial(DataBits(data)), 32), Generator(POLYNOMIAL), rest)
       <==> rest == Register(Crc(ZERO, data))
  {
    var p := TimesX(Polynomial(DataBits(data)), 32);
    RegisterOfZero();
    assert TimesX({}, |DataBits(data)|) == {};
    assert Dividend(ZERO, DataBits(data)) == p;
    CrcIsRemainder(ZERO, data);
    if IsRemainder(p, Generator(POLYNOMIAL), rest) {
      RemainderUnique(p, Generator(POLYNOMIAL), rest, Register(Crc(ZERO, data)));
    }
  }
}
