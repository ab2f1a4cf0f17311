/**
 The period of the shift register. Multiplication modulo the generator polynomial doubles the
 number of clocks at once; so a few products tell which numbers of clocks change nothing.
 */
module CrcDistance {
  import opened Crc

  /** The polynomial 1; the register holds the highest coefficient in its lowest bit. */
  const UNIT: bv16 := 0x8000

  /** The number of clocks after which the register repeats: 7 * 31 * 151. */
  const PERIOD: nat := 32767

  // ---------------------------------------------------------------- multiplication

  /** a if the polynomial v has a constant term. */
  function Part(a: bv16, v: bv16): bv16 {
    a & (0 - (v >> 15))
  }

  /** All other terms of v, divided by x. */
  function Rest(v: bv16): bv16 {
    v << 1
  }

  function Shift4(v: bv16): bv16 {
    Shift(Shift(Shift(Shift(v))))
  }

  function Rest4(v: bv16): bv16 {
    Rest(Rest(Rest(Rest(v))))
  }

  /** The product of a with the four lowest terms of v. */
  function Quarter(a: bv16, v: bv16): bv16 {
    Xor(Part(a, v),
        Xor(Part(Shift(a), Rest(v)),
            Xor(Part(Shift(Shift(a)), Rest(Rest(v))), Part(Shift(Shift(Shift(a))), Rest(Rest(Rest(v)))))))
  }

  /** The product of two polynomials. */
  function Times(a: bv16, v: bv16): bv16 {
    Xor(Quarter(a, v),
        Xor(Quarter(Shift4(a), Rest4(v)),
            Xor(Quarter(Shift4(Shift4(a)), Rest4(Rest4(v))), Quarter(Shift4(Shift4(Shift4(a))), Rest4(Rest4(Rest4(v)))))))
  }

  lemma PartCases(a: bv16, v: bv16)
    ensures Part(a, v) == if v >> 15 == 0 then 0 else a
  {}

  lemma ConstantTerm(v: bv16)
    ensures v == Xor(Part(UNIT, v), Shift(Rest(v)))
  {}

  lemma ShiftsOnce(n: nat, v: bv16)
    ensures Shifts(n + 1, v) == Shift(Shifts(n, v)) && Shifts(n, Shift(v)) == Shifts(n + 1, v)
  {
    ShiftsAdd(n, 1, v);
    assert Shifts(1, v) == Shift(Shifts(0, v));
  }

  /** Horner's step. */
  lemma OneTerm(n: nat, v: bv16)
    ensures Shifts(n, v) == Xor(Part(Shifts(n, UNIT), v), Shifts(n + 1, Rest(v)))
  {
    hide Shift, Shifts, Xor, Part, Rest;
    ConstantTerm(v);
    ShiftsLinear(n, Part(UNIT, v), Shift(Rest(v)));
    ShiftsOnce(n, Rest(v));
    PartCases(UNIT, v);
    PartCases(Shifts(n, UNIT), v);
    ShiftsZero(n);
  }

  lemma NothingLeft(v: bv16)
    ensures Rest4(Rest4(Rest4(Rest4(v)))) == 0
  {}

  lemma FourClocks(n: nat)
    ensures var a := Shifts(n, UNIT);
            && Shifts(n + 1, UNIT) == Shift(a) && Shifts(n + 2, UNIT) == Shift(Shift(a))
            && Shifts(n + 3, UNIT) == Shift(Shift(Shift(a))) && Shifts(n + 4, UNIT) == Shift4(a)
  {
    hide Shift, Shifts;
    ShiftsOnce(n, UNIT);
    ShiftsOnce(n + 1, UNIT);
    ShiftsOnce(n + 2, UNIT);
    ShiftsOnce(n + 3, UNIT);
  }

  lemma FourTerms(n: nat, v: bv16)
    ensures Shifts(n, v) == Xor(Quarter(Shifts(n, UNIT), v), Shifts(n + 4, Rest4(v)))
    ensures Shifts(n + 4, UNIT) == Shift4(Shifts(n, UNIT))
  {
    hide Shift, Shifts, Xor, Part, Rest, Shift4;
    FourClocks(n);
    OneTerm(n, v);
    OneTerm(n + 1, Rest(v));
    OneTerm(n + 2, Rest(Rest(v)));
    OneTerm(n + 3, Rest(Rest(Rest(v))));
    var a := Shifts(n, UNIT);
    XorRight(Part(a, v), Part(Shift(a), Rest(v)), Part(Shift(Shift(a)), Rest(Rest(v))),
             Part(Shift(Shift(Shift(a))), Rest(Rest(Rest(v)))), Shifts(n + 4, Rest4(v)));
  }

  lemma XorRight(a: bv16, b: bv16, c: bv16, d: bv16, e: bv16)
    ensures Xor(a, Xor(b, Xor(c, Xor(d, e)))) == Xor(Xor(a, Xor(b, Xor(c, d))), e)
  {
    hide Xor;
    XorAssoc(c, d, e);
    XorAssoc(b, Xor(c, d), e);
    XorAssoc(a, Xor(b, Xor(c, d)), e);
  }

  /** Clocking n times is multiplication by the n-th power. */
  lemma ShiftsIsTimes(n: nat, v: bv16)
    ensures Shifts(n, v) == Times(Shifts(n, UNIT), v)
  {
    hide Shift, Shift4, Shifts, Xor, Quarter, Rest4;
    NothingLeft(v);
    FourTerms(n, v);
    FourTerms(n + 4, Rest4(v));
    FourTerms(n + 8, Rest4(Rest4(v)));
    FourTerms(n + 12, Rest4(Rest4(Rest4(v))));
    ShiftsZero(n + 16);
    var a := Shifts(n, UNIT);
    XorRight(Quarter(a, v), Quarter(Shift4(a), Rest4(v)), Quarter(Shift4(Shift4(a)), Rest4(Rest4(v))),
             Quarter(Shift4(Shift4(Shift4(a))), Rest4(Rest4(Rest4(v)))), 0);
    XorNothing(Times(a, v));
  }

  lemma XorNothing(v: bv16)
    ensures Xor(v, 0) == v
  {}

  // ---------------------------------------------------------------- some powers

  lemma Sum(m: nat, n: nat, a: bv16, b: bv16)
    requires Shifts(m, UNIT) == a && Shifts(n, UNIT) == b
    ensures Shifts(m + n, UNIT) == Times(a, b)
  {
    hide Times, Shifts;
    ShiftsAdd(m, n, UNIT);
    ShiftsIsTimes(m, b);
  }

  lemma Double(n: nat, a: bv16)
    requires Shifts(n, UNIT) == a
    ensures Shifts(2 * n, UNIT) == Times(a, a) && Shifts(2 * n + 1, UNIT) == Shift(Times(a, a))
  {
    hide Times, Shifts, Shift;
    Sum(n, n, a, a);
    ShiftsOnce(2 * n, UNIT);
  }

  lemma Eight()
    ensures Shifts(8, UNIT) == 0x0080 && Shifts(9, UNIT) == 0x0040 && Shifts(13, UNIT) == 0x0004
  {
    ShiftsEight(UNIT);
    assert Shifts(9, UNIT) == Shift(Shifts(8, UNIT));
    ShiftsAdd(4, 9, UNIT);
    ShiftsFour(0x0040);
  }

  lemma Power217()
    ensures Shifts(217, UNIT) != UNIT
  {
    hide Shifts;
    Eight();
    Double(13, 0x0004);
    Double(27, 0x9591);
    Double(54, 0x1688);
    Double(108, 0x0aec);
  }

  lemma Power1057()
    ensures Shifts(1057, UNIT) != UNIT
  {
    hide Shifts;
    Eight();
    Double(8, 0x0080);
    Double(16, 0x8408);
    Double(33, 0x0676);
    Double(66, 0x6383);
    Double(132, 0x5172);
    Double(264, 0x629a);
    Double(528, 0xcd1e);
  }

  lemma Power4681()
    ensures Shifts(4681, UNIT) == 0x4234
  {
    hide Shifts;
    Eight();
    Double(9, 0x0040);
    Double(18, 0x2102);
    Double(36, 0xc6c2);
    Double(73, 0x65f1);
    Double(146, 0x11c2);
    Double(292, 0x69c8);
    Double(585, 0x00a2);
    Double(1170, 0xc680);
    Double(2340, 0x2420);
  }

  lemma PowerPeriod()
    ensures Shifts(PERIOD, UNIT) == UNIT
  {
    hide Shifts;
    Power4681();
    Double(4681, 0x4234);
    Sum(4681, 9362, 0x4234, 0xac61);
    Double(14043, 0x3a3b);
    Sum(4681, 28086, 0x4234, 0xd46e);
  }

  // ---------------------------------------------------------------- the period

  /** So many clocks change nothing. */
  ghost predicate Idle(n: nat) {
    Shifts(n, UNIT) == UNIT
  }

  lemma IdleSum(m: nat, n: nat)
    requires Idle(n)
    ensures Idle(m + n) <==> Idle(m)
  {
    ShiftsAdd(m, n, UNIT);
  }

  lemma {:induction false} IdleMultiple(n: nat, k: nat)
    requires Idle(n)
    ensures Idle(k * n)
  {
    if k > 0 {
      IdleMultiple(n, k - 1);
      IdleSum((k - 1) * n, n);
      assert (k - 1) * n + n == k * n;
    }
  }

  lemma IdleRemainder(n: nat, m: nat)
    requires m > 0 && Idle(m)
    ensures Idle(n) <==> Idle(n % m)
  {
    hide Idle;
    IdleMultiple(m, n / m);
    IdleSum(n % m, (n / m) * m);
    assert n % m + (n / m) * m == n;
  }

  lemma IdleScaledRemainder(e: nat, a: nat, b: nat)
    requires a > 0 && Idle(e * a) && Idle(e * b)
    ensures Idle(e * (b % a))
  {
    hide Idle;
    IdleMultiple(e * a, b / a);
    IdleSum(e * (b % a), (b / a) * (e * a));
    Distribute(e, a, b / a, b % a);
  }

  lemma Distribute(e: nat, a: nat, q: nat, r: nat)
    ensures e * (q * a + r) == q * (e * a) + e * r
  {}

  lemma Recombine(a: nat, b: nat, i: nat, j: nat, g: nat)
    requires a > 0 && a == i * g && b % a == j * g
    ensures b == (b / a * i + j) * g
  {
    var q := b / a;
    assert b == q * a + b % a;
    assert q * (i * g) == q * i * g;
  }

  /** Euclid's algorithm on numbers of clocks. */
  lemma {:induction false} IdleDivisor(e: nat, a: nat, b: nat) returns (g: nat, i: nat, j: nat)
    requires a > 0 && Idle(e * a) && Idle(e * b)
    ensures Idle(e * g) && g > 0 && a == i * g && b == j * g
    decreases a
  {
    hide Idle;
    if b % a == 0 {
      Recombine(a, b, 1, 0, a);
      g, i, j := a, 1, b / a * 1 + 0;
    } else {
      IdleScaledRemainder(e, a, b);
      g, j, i := IdleDivisor(e, b % a, a);
      Recombine(a, b, i, j, g);
      j := b / a * i + j;
    }
  }

  ghost predicate Prime(p: nat) {
    p > 1 && forall m: nat, q: nat | m * q == p :: m == 1 || q == 1
  }

  /** When e * p clocks change nothing, but e clocks do, p being a prime, then only multiples of p change nothing. */
  lemma IdleByPrime(e: nat, p: nat, r: nat) returns (j: nat)
    requires Prime(p) && Idle(e * p) && !Idle(e) && Idle(r)
    ensures r == j * p
  {
    hide Idle;
    IdleMultiple(r, e);
    var g, i;
    g, i, j := IdleDivisor(e, p, r);
    assert i == 1 || g == 1;
  }

  lemma SmallPrimes()
    ensures Prime(7) && Prime(31) && Prime(151)
  {
    forall m: nat, q: nat | m * q == 151 ensures m == 1 || q == 1 {
    }
    forall m: nat, q: nat | m * q == 31 ensures m == 1 || q == 1 {
    }
    forall m: nat, q: nat | m * q == 7 ensures m == 1 || q == 1 {
    }
  }

  /** The register is back where it was exactly after multiples of the period. */
  lemma IdleExactly(n: nat)
    ensures Idle(n) <==> n % PERIOD == 0
  {
    PowerPeriod();
    IdleRemainder(n, PERIOD);
    if Idle(n % PERIOD) {
      Power217();
      Power1057();
      Power4681();
      hide Idle, Prime;
      SmallPrimes();
      var a := IdleByPrime(4681, 7, n % PERIOD);
      var b := IdleByPrime(1057, 31, n % PERIOD);
      var c := IdleByPrime(217, 151, n % PERIOD);
      DivisibleByAll(n % PERIOD, a, b, c);
    }
  }

  lemma DivisibleByAll(r: nat, a: nat, b: nat, c: nat)
    requires r == a * 7 && r == b * 31 && r == c * 151
    ensures r == PERIOD * (135 * c - 194 * (9 * b - 2 * a))
  {
    assert a == 31 * (9 * b - 2 * a);
  }

  /** The same for the lowest bit, where data enters. */
  lemma LoneBitReturns(n: nat)
    ensures Shifts(n, 1) == 1 <==> n % PERIOD == 0
  {
    IdleExactly(n);
    Fifteen();
    hide Shifts, Shift;
    ShiftsAdd(n, 15, UNIT);
    ShiftsAdd(15, n, UNIT);
    if Shifts(n, 1) == 1 {
      ShiftsInjective(15, Shifts(n, UNIT), UNIT);
    }
  }

  lemma Fifteen()
    ensures Shifts(15, UNIT) == 1
  {
    Eight();
    hide Shifts;
    ShiftsAdd(4, 9, UNIT);
    ShiftsOnce(13, UNIT);
    ShiftsOnce(14, UNIT);
  }
}
