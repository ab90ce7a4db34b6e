/** Numbers written as a coefficient times a power of ten: the arithmetic under exact decimals
    and under canonical JSON numbers, on reals. */
module Numbers {
  import opened Digits

  /** 10^e as a real, for any integer e. */
  function Scale(e: int): real
    decreases if e >= 0 then e else -e
  {
    if e == 0 then 1.0 else if e > 0 then 10.0 * Scale(e - 1) else Scale(e + 1) / 10.0
  }

  function Real(coeff: int, exp: int): real {
    coeff as real * Scale(exp)
  }

  lemma {:induction false} ScaleStep(e: int)
    ensures Scale(e + 1) == 10.0 * Scale(e) && Scale(e) > 0.0
    decreases if e >= 0 then e else -e
  {
    if e > 0 {
      ScaleStep(e - 1);
    } else if e < 0 {
      ScaleStep(e + 1);
    }
  }

  lemma {:induction false} ScaleAdd(e: int, n: int)
    ensures Scale(e + n) == Scale(e) * Scale(n)
    decreases if n >= 0 then n else -n
  {
    if n > 0 {
      ScaleAdd(e, n - 1);
      ScaleStep(e + n - 1);
      ScaleStep(n - 1);
      assert 10.0 * (Scale(e) * Scale(n - 1)) == Scale(e) * (10.0 * Scale(n - 1));
    } else if n < 0 {
      ScaleAdd(e, n + 1);
      ScaleStep(e + n);
      ScaleStep(n);
      assert 10.0 * (Scale(e) * Scale(n)) == Scale(e) * (10.0 * Scale(n));
    }
  }

  lemma {:induction false} Rescale(c: int, e: int, k: nat)
    ensures Real(c * Pow10(k), e - k) == Real(c, e)
  {
    if k > 0 {
      Rescale(c, e, k - 1);
      ScaleStep(e - k);
      var p := Pow10(k - 1);
      assert c * Pow10(k) == 10 * (c * p);
      var x := (c * p) as real;
      assert (c * Pow10(k)) as real == 10.0 * x;
      assert (10.0 * x) * Scale(e - k) == x * (10.0 * Scale(e - k));
    }
  }

  lemma {:induction false} SameScale(a: int, b: int, e: int)
    ensures Real(a, e) == Real(b, e) <==> a == b
    ensures Real(a, e) + Real(b, e) == Real(a + b, e)
  {
    ScaleStep(e);
    var x, y, s := a as real, b as real, Scale(e);
    assert x * s - y * s == (x - y) * s;
    assert x * s + y * s == (x + y) * s;
    if Real(a, e) == Real(b, e) {
      assert (x - y) * s == 0.0;
    }
  }

  lemma {:induction false} UnitReal(c: int)
    ensures Real(c, 0) == c as real
  {
  }

  lemma {:induction false} ZeroReal(c: int, e: int)
    ensures Real(c, e) == 0.0 <==> c == 0
  {
    ScaleStep(e);
    SameScale(c, 0, e);
  }

  lemma {:induction false} ShiftReal(c: int, e: int, n: int)
    ensures Real(c, e + n) == Real(c, e) * Scale(n)
  {
    hide Scale;
    ScaleAdd(e, n);
    Associate(c as real, Scale(e), Scale(n));
  }

  lemma {:induction false} Associate(x: real, s: real, t: real)
    ensures x * (s * t) == (x * s) * t
  {
  }

  /** Comparison of two scaled coefficients after bringing them to one exponent. */
  predicate SameNumber(a: int, ea: int, b: int, eb: int) {
    if ea > eb then a * Pow10(ea - eb) == b else a == b * Pow10(eb - ea)
  }

  lemma {:induction false} SameNumberIsEquality(a: int, ea: int, b: int, eb: int)
    ensures SameNumber(a, ea, b, eb) <==> Real(a, ea) == Real(b, eb)
  {
    if ea > eb {
      Rescale(a, ea, ea - eb);
      SameScale(a * Pow10(ea - eb), b, eb);
    } else {
      Rescale(b, eb, eb - ea);
      SameScale(a, b * Pow10(eb - ea), ea);
    }
  }

  /** Drops trailing fraction zeros. */
  function StripZeros(c: int, e: int): (int, int)
    decreases -e
  {
    if e < 0 && c % 10 == 0 then StripZeros(c / 10, e + 1) else (c, e)
  }

  lemma {:induction false} StripZerosKeepsValue(c: int, e: int)
    ensures var (c', e') := StripZeros(c, e);
            Real(c', e') == Real(c, e) && (e' < 0 ==> c' % 10 != 0) && (c' == 0 <==> c == 0)
    decreases -e
  {
    if e < 0 && c % 10 == 0 {
      StripZerosKeepsValue(c / 10, e + 1);
      Rescale(c / 10, e + 1, 1);
      assert c / 10 * Pow10(1) == c;
    }
  }

  lemma {:induction false} MultipleOfTen(c: int, k: nat)
    requires k > 0
    ensures (c * Pow10(k)) % 10 == 0
  {
    assert c * Pow10(k) == 10 * (c * Pow10(k - 1));
  }

  /** A coefficient that is no multiple of ten is written in only one way. */
  lemma {:induction false} ReducedUnique(a: int, ea: int, b: int, eb: int)
    requires Real(a, ea) == Real(b, eb)
    requires a % 10 != 0 && b % 10 != 0
    ensures a == b && ea == eb
  {
    SameNumberIsEquality(a, ea, b, eb);
    if ea > eb {
      MultipleOfTen(a, ea - eb);
    } else if ea < eb {
      MultipleOfTen(b, eb - ea);
    }
  }

  lemma {:induction false} IntegerVersusFraction(a: int, ea: int, b: int, eb: int)
    requires Real(a, ea) == Real(b, eb)
    requires ea >= 0 && eb < 0
    ensures b % 10 == 0
  {
    SameNumberIsEquality(a, ea, b, eb);
    MultipleOfTen(a, ea - eb);
  }

  // ----- Rounding -----

  /** Nearest integer, ties away from zero: what rounding means, on real numbers. */
  function HalfAway(x: real): int {
    if x >= 0.0 then (x + 0.5).Floor else 0 - (0.5 - x).Floor
  }

  /** c * 10^e rounded by integer division, for a negative e. */
  function RoundCoefficient(c: int, e: int): int
    requires e < 0
  {
    var unit := Pow10(-e);
    var a := if c < 0 then -c else c;
    var q := if 2 * (a % unit) >= unit then a / unit + 1 else a / unit;
    if c < 0 then -q else q
  }

  lemma {:induction false} RoundedQuotient(a: nat, unit: nat)
    requires unit > 0
    ensures var q := if 2 * (a % unit) >= unit then a / unit + 1 else a / unit;
            HalfAway(a as real / unit as real) == q
  {
    var q, r := a / unit, a % unit;
    assert a == q * unit + r;
    var x, u, f := a as real, unit as real, r as real / unit as real;
    assert x == q as real * u + r as real;
    assert (q as real * u + r as real) / u == q as real + f;
    assert f * u == r as real;
    HalfOfUnit(f, u, r, unit);
  }

  lemma {:induction false} HalfOfUnit(f: real, u: real, r: nat, unit: nat)
    requires u == unit as real && u > 0.0 && f * u == r as real && r < unit
    ensures (f >= 0.5 <==> 2 * r >= unit) && 0.0 <= f < 1.0
  {
    var d, g := f - 0.5, f - 1.0;
    assert d * u == r as real - 0.5 * u;
    assert g * u == r as real - u < 0.0;
    if d >= 0.0 {
      assert d * u >= 0.0;
    } else {
      assert d * u < 0.0;
    }
  }

  lemma {:induction false} DivideByPower(a: int, n: nat)
    ensures Real(a, 0 - n) == a as real / Pow10(n) as real
  {
    if n > 0 {
      DivideByPower(a, n - 1);
      ScaleStep(0 - n);
      var p := Pow10(n - 1) as real;
      assert Pow10(n) as real == 10.0 * p;
      var x, s := a as real, Scale(0 - n);
      assert x * (10.0 * s) == 10.0 * (x * s);
      assert 10.0 * (x * s) == x / p;
      assert (x / p) / 10.0 == x / (10.0 * p);
    }
  }

  lemma {:induction false} RoundCoefficientIsHalfAway(c: int, e: int)
    requires e < 0
    ensures RoundCoefficient(c, e) == HalfAway(Real(c, e))
  {
    var unit := Pow10(-e);
    var a := if c < 0 then -c else c;
    RoundedQuotient(a, unit);
    DivideByPower(c, -e);
    if c < 0 {
      assert c as real / unit as real == -(a as real / unit as real);
      assert a as real / unit as real > 0.0;
    } else {
      assert a as real / unit as real >= 0.0;
    }
  }

  lemma {:induction false} HalfAwayInteger(n: int)
    ensures HalfAway(n as real) == n
  {
  }

  /** Within one half, odd, monotone, and the identity on integers. */
  lemma {:induction false} HalfAwayLaws(x: real, y: real)
    ensures -0.5 <= HalfAway(x) as real - x <= 0.5
    ensures HalfAway(0.0 - x) == 0 - HalfAway(x)
    ensures x <= y ==> HalfAway(x) <= HalfAway(y)
    ensures HalfAway(HalfAway(x) as real) == HalfAway(x)
  {
  }
}
