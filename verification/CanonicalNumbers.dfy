/** The canonical text of a JSON number (runtimes/go/jcs.go): ECMAScript's Number::toString, section
    6.1.6.1.20 of ECMA-262, over the shortest digits of a double. */
module CanonicalNumbers {
  import opened Digits
  import opened Numbers
  import opened Decimals

  /** A finite double as its shortest digits: zero, or 0.digits times ten to the n. */
  datatype Double = Zero | Finite(neg: bool, digits: string, n: int)

  /** Digits without a leading or trailing zero, and n in the range of doubles. */
  predicate ValidDigits(digits: string, n: int) {
    AllDigits(digits) && digits != "" && digits[0] != '0' && digits[|digits| - 1] != '0' && -323 <= n <= 309
  }

  predicate ValidDouble(d: Double) {
    d.Finite? ==> ValidDigits(d.digits, d.n)
  }

  /** The first digit, and a point before any others. */
  function MantissaOf(digits: string): string
    requires digits != ""
  {
    if |digits| > 1 then digits[..1] + "." + digits[1..] else digits[..1]
  }

  /** placeDecimalPoint, with its four layouts. */
  function PlaceDecimalPoint(digits: string, n: int): string
    requires digits != ""
  {
    var k := |digits|;
    if k <= n <= 21 then digits + Zeros(n - k)
    else if 0 < n <= 21 then digits[..n] + "." + digits[n..]
    else if -6 < n <= 0 then "0." + Zeros(0 - n) + digits
    else
      var exp := n - 1;
      MantissaOf(digits) + "e" + (if exp < 0 then "-" else "+") + Itoa(if exp < 0 then 0 - exp else exp)
  }

  /** formatES6Number. */
  function NumberText(d: Double): string
    requires ValidDouble(d)
  {
    match d
    case Zero => "0"
    case Finite(neg, digits, n) => (if neg then "-" else "") + PlaceDecimalPoint(digits, n)
  }

  // ----- What the text denotes -----

  /** The decimal literal each layout spells. */
  function Placed(neg: bool, digits: string, n: int): Decimal
    requires digits != ""
  {
    var k := |digits|;
    if k <= n <= 21 then Decimal(neg, digits + Zeros(n - k), "", NoExponent)
    else if 0 < n <= 21 then Decimal(neg, digits[..n], digits[n..], NoExponent)
    else if -6 < n <= 0 then Decimal(neg, "0", Zeros(0 - n) + digits, NoExponent)
    else
      Decimal(neg, digits[..1], digits[1..],
              if n - 1 < 0 then Exponent('e', "-", Itoa(1 - n)) else Exponent('e', "+", Itoa(n - 1)))
  }

  lemma {:induction false} PlacedIsValid(neg: bool, digits: string, n: int)
    requires ValidDigits(digits, n)
    ensures Valid(Placed(neg, digits, n))
  {
    hide Itoa, Val;
    ItoaNames(if n - 1 < 0 then 1 - n else n - 1);
  }

  lemma {:induction false} PlacedBody(neg: bool, digits: string, n: int)
    requires ValidDigits(digits, n)
    ensures var d := Placed(neg, digits, n);
            d.neg == neg && (d.whole + FracText(d.frac)) + ExponentText(d.exp) == PlaceDecimalPoint(digits, n)
  {
    hide Itoa, Val;
    var k := |digits|;
    if k <= n <= 21 {
      Joined(digits + Zeros(n - k), "", "");
    } else if 0 < n <= 21 {
      Joined(digits[..n], ".", digits[n..]);
    } else if -6 < n <= 0 {
      Joined("0", ".", Zeros(0 - n) + digits);
      Joined("0.", Zeros(0 - n), digits);
    } else {
      WithExponent(MantissaOf(digits), if n - 1 < 0 then "-" else "+", Itoa(if n - 1 < 0 then 1 - n else n - 1));
      MantissaIs(digits);
    }
  }

  lemma {:induction false} MantissaIs(digits: string)
    requires digits != ""
    ensures digits[..1] + FracText(digits[1..]) == MantissaOf(digits)
  {
    Joined(digits[..1], ".", digits[1..]);
    Joined(digits[..1], "", "");
  }

  lemma {:induction false} Joined(a: string, b: string, c: string)
    ensures a + (b + c) == (a + b) + c && (a + b) + "" == a + b
  {
  }

  lemma {:induction false} WithExponent(m: string, sign: string, digits: string)
    ensures m + "e" + sign + digits == m + (['e'] + (sign + digits))
  {
  }

  lemma {:induction false} PlacedText(neg: bool, digits: string, n: int)
    requires ValidDigits(digits, n)
    ensures Text(Placed(neg, digits, n)) == NumberText(Finite(neg, digits, n))
  {
    hide PlaceDecimalPoint, FracText, ExponentText, Placed;
    var d := Placed(neg, digits, n);
    PlacedBody(neg, digits, n);
    var m := d.whole + FracText(d.frac);
    assert (Minus(neg) + m) + ExponentText(d.exp) == Minus(neg) + (m + ExponentText(d.exp));
  }

  lemma {:induction false} AtoiSigned(e: int)
    requires -400 <= e <= 400
    ensures Atoi((if e < 0 then "-" else "+") + Itoa(if e < 0 then 0 - e else e)) == Some(e)
  {
    hide Itoa, Val;
    var m := if e < 0 then 0 - e else e;
    ItoaNames(m);
    var s := (if e < 0 then "-" else "+") + Itoa(m);
    assert s[1..] == Itoa(m);
  }

  lemma {:induction false} LeadingZeros(digits: string, z: nat)
    ensures Val("0" + (Zeros(z) + digits)) == Val(digits)
  {
    ValZeros(z);
    ValConcat(Zeros(z), digits);
    ValConcat("0", Zeros(z) + digits);
    assert Val("0") == 0 by { assert "0"[..0] == ""; }
  }

  lemma {:induction false} TrailingZeros(digits: string, z: nat)
    ensures Val(digits + Zeros(z)) == Val(digits) * Pow10(z)
    ensures (0 - Val(digits)) * Pow10(z) == 0 - Val(digits) * Pow10(z)
  {
    hide Val, Pow10;
    ValZeros(z);
    ValConcat(digits, Zeros(z));
  }

  lemma {:induction false} PlacedMeans(neg: bool, digits: string, n: int)
    requires ValidDigits(digits, n)
    ensures Value(Placed(neg, digits, n)) == Real(if neg then 0 - Val(digits) else Val(digits), n - |digits|)
  {
    hide Itoa, Val, Scale, Atoi, Pow10;
    var d := Placed(neg, digits, n);
    var k := |digits|;
    if k <= n <= 21 {
      assert digits + Zeros(n - k) + "" == digits + Zeros(n - k);
      TrailingZeros(digits, n - k);
      Rescale(if neg then 0 - Val(digits) else Val(digits), n - k, n - k);
    } else if 0 < n <= 21 {
      assert digits[..n] + digits[n..] == digits;
    } else if -6 < n <= 0 {
      LeadingZeros(digits, 0 - n);
    } else {
      assert digits[..1] + digits[1..] == digits;
      AtoiSigned(n - 1);
    }
  }

  /** The text of a number denotes, in all four layouts, its digits times ten to n minus their
      count: read back by the decimal grammar's own reader. */
  lemma {:induction false} NumberTextMeans(neg: bool, digits: string, n: int)
    requires ValidDigits(digits, n)
    ensures var s := NumberText(Finite(neg, digits, n));
            Scan(s).Some? && Value(Scan(s).value) == Real(if neg then 0 - Val(digits) else Val(digits), n - |digits|)
  {
    hide NumberText, Placed, Scan, Text, Value, Val, Real, Valid;
    PlacedIsValid(neg, digits, n);
    PlacedText(neg, digits, n);
    PlacedMeans(neg, digits, n);
    ScanText(Placed(neg, digits, n));
  }

  lemma {:induction false} NotMultipleOfTen(digits: string, n: int)
    requires ValidDigits(digits, n)
    ensures Val(digits) % 10 != 0 && (0 - Val(digits)) % 10 != 0 && Val(digits) > 0 && Canonical(digits)
  {
    PositiveVal(digits);
  }

  lemma {:induction false} SignedUnique(neg1: bool, a: string, e1: int, neg2: bool, b: string, e2: int)
    requires Canonical(a) && Canonical(b) && Val(a) % 10 != 0 && Val(b) % 10 != 0
    requires Real(if neg1 then 0 - Val(a) else Val(a), e1) == Real(if neg2 then 0 - Val(b) else Val(b), e2)
    ensures neg1 == neg2 && a == b && e1 == e2
  {
    hide Val, Real, Canonical;
    var x := if neg1 then 0 - Val(a) else Val(a);
    var y := if neg2 then 0 - Val(b) else Val(b);
    ReducedUnique(x, e1, y, e2);
    ItoaOfVal(a);
    ItoaOfVal(b);
  }

  /** Equal number texts have equal digits, sign and point position. */
  lemma {:induction false} NumberTextInjective(a: Double, b: Double)
    requires ValidDouble(a) && ValidDouble(b) && NumberText(a) == NumberText(b)
    ensures a == b
  {
    hide PlaceDecimalPoint, Scan, Value, Val, Real, Valid, NumberText, Canonical;
    if a.Finite? && b.Finite? {
      NumberTextMeans(a.neg, a.digits, a.n);
      NumberTextMeans(b.neg, b.digits, b.n);
      NotMultipleOfTen(a.digits, a.n);
      NotMultipleOfTen(b.digits, b.n);
      SignedUnique(a.neg, a.digits, a.n - |a.digits|, b.neg, b.digits, b.n - |b.digits|);
    } else {
      ZeroText();
      if a.Finite? {
        NotZero(a);
      } else if b.Finite? {
        NotZero(b);
      }
    }
  }

  lemma {:induction false} ZeroText()
    ensures NumberText(Zero) == "0"
  {
  }

  lemma {:induction false} NotZero(d: Double)
    requires ValidDouble(d) && d.Finite?
    ensures NumberText(d) != "0"
  {
    hide Itoa;
    var s := PlaceDecimalPoint(d.digits, d.n);
    assert d.neg ==> NumberText(d)[0] == '-';
    assert s[0] != '0' || |s| > 1;
    assert !d.neg ==> NumberText(d) == s;
  }

  // ----- The characters of a number -----

  predicate Numeric(c: char) {
    IsDigit(c) || c in {'-', '+', '.', 'e'}
  }

  predicate AllNumeric(s: string) {
    forall c :: c in s ==> Numeric(c)
  }

  lemma {:induction false} NumberTextIsNumeric(d: Double)
    requires ValidDouble(d)
    ensures AllNumeric(NumberText(d)) && NumberText(d) != "" && (NumberText(d)[0] == '-' || IsDigit(NumberText(d)[0]))
  {
    hide Itoa, Val;
    if d.Finite? {
      ItoaNames(if d.n - 1 < 0 then 1 - d.n else d.n - 1);
      ItoaIsNumeric(if d.n - 1 < 0 then 1 - d.n else d.n - 1);
      var s := PlaceDecimalPoint(d.digits, d.n);
      assert IsDigit(s[0]);
      assert AllNumeric(d.digits);
      assert AllNumeric(s);
    }
  }

  lemma {:induction false} ItoaIsNumeric(n: nat)
    ensures AllNumeric(Itoa(n))
  {
    hide Itoa, Val;
    ItoaNames(n);
  }

  // ----- Which layout is chosen -----

  lemma {:induction false} PlainZeros(n: nat)
    ensures forall c :: c in Zeros(n) ==> c == '0'
  {
    if n > 0 {
      PlainZeros(n - 1);
    }
  }

  lemma {:induction false} DigitsArePlain(digits: string)
    requires AllDigits(digits)
    ensures 'e' !in digits && '.' !in digits
  {
  }

  /** A number has an exponent exactly when its point would stand more than 21 places after its
      first digit, or its text would start with more than six zeros after the point; otherwise it has
      a point exactly when not all its digits stand before it. */
  lemma {:induction false} LayoutIff(neg: bool, digits: string, n: int)
    requires ValidDigits(digits, n)
    ensures var t := NumberText(Finite(neg, digits, n));
            ('e' in t <==> n > 21 || n <= -6) && (-6 < n <= 21 ==> ('.' in t <==> n < |digits|))
  {
    hide Itoa, Zeros;
    DigitsArePlain(digits);
    PlainZeros(if n > |digits| then n - |digits| else if n < 0 then 0 - n else 0);
    var t, p := NumberText(Finite(neg, digits, n)), PlaceDecimalPoint(digits, n);
    assert forall c :: c in t <==> (neg && c == '-') || c in p;
    if n > 21 || n <= -6 {
      assert p[|MantissaOf(digits)|] == 'e';
    } else if 0 < n < |digits| {
      assert p[n] == '.';
    } else if n <= 0 {
      assert p[1] == '.';
    }
  }

  /** What the text reads as: no zero ends its fraction, and with an exponent it has one digit before
      the point, an "e", a sign in either direction and no leading zero. */
  lemma {:induction false} LiteralForm(neg: bool, digits: string, n: int)
    requires ValidDigits(digits, n)
    ensures var s := Scan(NumberText(Finite(neg, digits, n)));
            s.Some? &&
            var l := s.value;
            l.neg == neg && (l.frac != "" ==> l.frac[|l.frac| - 1] != '0') && (l.exp.Exponent? <==> n > 21 || n <= -6) &&
            (l.exp.Exponent? ==>
               |l.whole| == 1 && l.exp.mark == 'e' && l.exp.sign == (if n > 21 then "+" else "-") && Canonical(l.exp.digits))
  {
    hide NumberText, Scan, Text, Val, Itoa, Zeros;
    PlacedIsValid(neg, digits, n);
    PlacedText(neg, digits, n);
    ScanText(Placed(neg, digits, n));
    ItoaNames(if n - 1 < 0 then 1 - n else n - 1);
  }
}
