/** Exact decimal values (messageformat/decimal.go). A decimal is the literal text it was
    parsed from; its meaning is a real number, against which every operation is proved. */
module Decimals {
  import opened Digits
  import opened Numbers

  const MAX_LENGTH: nat := 1000
  const MAX_EXPONENT: nat := 1000

  // ----- The number-literal grammar -----

  /** The exponent part of a literal: its mark ('e' or 'E'), its sign ("", "+" or "-") and
      its digits. */
  datatype Exponent = NoExponent | Exponent(mark: char, sign: string, digits: string)

  /** A decimal: a literal of the grammar, kept digit for digit. */
  datatype Decimal = Decimal(neg: bool, whole: string, frac: string, exp: Exponent)

  predicate ValidExponent(e: Exponent) {
    e.Exponent? ==>
      e.mark in {'e', 'E'} && e.sign in {"", "+", "-"} && AllDigits(e.digits) && e.digits != ""
  }

  predicate Valid(l: Decimal) {
    Canonical(l.whole) && AllDigits(l.frac) && ValidExponent(l.exp)
  }

  function ExponentText(e: Exponent): string {
    match e
    case NoExponent => ""
    case Exponent(mark, sign, digits) => [mark] + (sign + digits)
  }

  function FracText(frac: string): string {
    if frac == "" then "" else "." + frac
  }

  function Minus(neg: bool): string {
    if neg then "-" else ""
  }

  function Mantissa(neg: bool, whole: string, frac: string): string {
    Minus(neg) + (whole + FracText(frac))
  }

  /** The strings of the accepted grammar, generated: -?(0|[1-9][0-9]*)(.[0-9]+)?([eE][-+]?[0-9]+)? */
  function Text(l: Decimal): string {
    Mantissa(l.neg, l.whole, l.frac) + ExponentText(l.exp)
  }

  /** Where c first occurs in s, or |s|. */
  function IndexOf(s: string, c: char): (i: nat)
    ensures i <= |s| && c !in s[..i] && (i < |s| ==> s[i] == c)
  {
    if s == "" || s[0] == c then 0
    else
      var j := IndexOf(s[1..], c);
      assert s[..1 + j] == [s[0]] + s[1..][..j];
      1 + j
  }

  lemma {:induction false} IndexOfFirst(s: string, c: char, t: string)
    requires c !in s && (t != "" ==> t[0] == c)
    ensures IndexOf(s + t, c) == |s| && (s + t)[..|s|] == s && (s + t)[|s|..] == t
  {
    if s == "" {
      assert s + t == t;
    } else {
      IndexOfFirst(s[1..], c, t);
      assert (s + t)[1..] == s[1..] + t;
    }
  }

  function LowerChar(c: char): char {
    if 'A' <= c <= 'Z' then (c as int + 32) as char else c
  }

  function Lower(s: string): (t: string)
    ensures |t| == |s| && forall i :: 0 <= i < |s| ==> t[i] == LowerChar(s[i])
  {
    seq(|s|, i requires 0 <= i < |s| => LowerChar(s[i]))
  }

  function ScanExponent(s: string): Exponent {
    if s == "" then NoExponent
    else if |s| > 1 && s[1] in {'+', '-'} then Exponent(s[0], [s[1]], s[2..])
    else Exponent(s[0], "", s[1..])
  }

  /** Sign, whole digits and fraction digits of a mantissa, with whether a bare '.' ends it. */
  function ScanMantissa(m: string): (bool, string, string, bool) {
    var neg := m != "" && m[0] == '-';
    var body := if neg then m[1..] else m;
    var dot := IndexOf(body, '.');
    (neg, body[..dot], if dot < |body| then body[dot + 1..] else "", dot + 1 == |body|)
  }

  /** Reads a literal from its text, or fails: the grammar's regular expression as a scanner. */
  function Scan(s: string): Option<Decimal> {
    var e := IndexOf(Lower(s), 'e');
    var (neg, whole, frac, bare) := ScanMantissa(s[..e]);
    var l := Decimal(neg, whole, frac, ScanExponent(s[e..]));
    if Valid(l) && !bare then Some(l) else None
  }

  lemma {:induction false} CutExponent(l: Decimal)
    requires Valid(l)
    ensures var s, m := Text(l), Mantissa(l.neg, l.whole, l.frac);
            IndexOf(Lower(s), 'e') == |m| && s[..|m|] == m && s[|m|..] == ExponentText(l.exp) &&
            Lower(s)[..|m|] == m && Lower(s)[|m|..] == Lower(ExponentText(l.exp))
  {
    hide IndexOf, Mantissa;
    var m := Mantissa(l.neg, l.whole, l.frac);
    LowerMantissa(l.neg, l.whole, l.frac);
    assert Lower(Text(l)) == Lower(m) + Lower(ExponentText(l.exp));
    IndexOfFirst(m, 'e', Lower(ExponentText(l.exp)));
  }

  lemma {:induction false} LowerMantissa(neg: bool, whole: string, frac: string)
    requires AllDigits(whole) && AllDigits(frac)
    ensures var m := Mantissa(neg, whole, frac); Lower(m) == m && 'e' !in m
  {
    var m := Mantissa(neg, whole, frac);
    assert forall i :: 0 <= i < |m| ==> IsDigit(m[i]) || m[i] in {'-', '.'};
  }

  lemma {:induction false} ScanMantissaText(neg: bool, whole: string, frac: string)
    requires Canonical(whole) && AllDigits(frac)
    ensures ScanMantissa(Mantissa(neg, whole, frac)) == (neg, whole, frac, false)
  {
    hide IndexOf;
    var m := Mantissa(neg, whole, frac);
    var body := whole + FracText(frac);
    assert !neg ==> m == body;
    assert neg ==> m[1..] == body;
    IndexOfFirst(whole, '.', FracText(frac));
    assert body[|whole|..] == FracText(frac);
    if frac != "" {
      assert body[|whole| + 1..] == FracText(frac)[1..];
    }
  }

  lemma {:induction false} ScanExponentText(e: Exponent)
    requires ValidExponent(e)
    ensures ScanExponent(ExponentText(e)) == e
  {
    if e.Exponent? {
      var s := ExponentText(e);
      assert s[1..] == e.sign + e.digits;
      assert e.sign == "" ==> s[1..] == e.digits && s[1] == e.digits[0];
      assert e.sign != "" ==> s[2..] == e.digits;
    }
  }

  /** Scanning accepts every text the grammar generates, and returns the literal printed. */
  lemma {:induction false} ScanText(l: Decimal)
    requires Valid(l)
    ensures Scan(Text(l)) == Some(l)
  {
    CutExponent(l);
    ScanMantissaText(l.neg, l.whole, l.frac);
    ScanExponentText(l.exp);
  }

  lemma {:induction false} ScannedMantissa(m: string)
    ensures var (neg, whole, frac, bare) := ScanMantissa(m); bare || m == Mantissa(neg, whole, frac)
  {
    hide IndexOf;
    var neg := m != "" && m[0] == '-';
    var body := if neg then m[1..] else m;
    assert m == Minus(neg) + body;
    var dot := IndexOf(body, '.');
    SplitAt(body, dot, '.');
  }

  lemma {:induction false} SplitAt(s: string, i: nat, c: char)
    requires i <= |s| && (i < |s| ==> s[i] == c)
    ensures s == s[..i] + if i < |s| then [c] + s[i + 1..] else ""
  {
  }

  /** It accepts nothing else. */
  lemma {:induction false} ScannedText(s: string)
    requires Scan(s).Some?
    ensures Valid(Scan(s).value) && Text(Scan(s).value) == s
  {
    hide IndexOf, ScanMantissa, Mantissa, Lower;
    var e := IndexOf(Lower(s), 'e');
    ScannedMantissa(s[..e]);
    assert s == s[..e] + s[e..];
    ScannedExponent(s[e..]);
  }

  lemma {:induction false} ScannedExponent(s: string)
    ensures ExponentText(ScanExponent(s)) == s
  {
  }

  function ExponentValue(e: Exponent): Option<int> {
    match e
    case NoExponent => Some(0)
    case Exponent(_, sign, digits) => Atoi(sign + digits)
  }

  /** ParseDecimal: the length and exponent bounds are checked on the text. */
  function ParseDecimal(s: string): Option<Decimal> {
    if |s| > MAX_LENGTH || Scan(s).None? then None
    else
      var e := ExponentValue(Scan(s).value.exp);
      if e.Some? && -1000 <= e.value <= MAX_EXPONENT then Scan(s) else None
  }

  // ----- Coefficient and exponent -----

  function Coefficient(d: Decimal): int {
    if d.neg then 0 - Val(d.whole + d.frac) else Val(d.whole + d.frac)
  }

  function PowerOfTen(d: Decimal): int {
    ExponentValue(d.exp).GetOr(0) - |d.frac|
  }

  /** The number a decimal denotes. */
  function Value(d: Decimal): real {
    Real(Coefficient(d), PowerOfTen(d))
  }

  /** (*big.Int).SetString in base 10, of text the grammar has already accepted. */
  function ParseInt(s: string): int {
    if s != "" && s[0] == '-' then 0 - Val(s[1..]) else Val(s)
  }

  function Cut(s: string, c: char): (string, string) {
    var i := IndexOf(s, c);
    (s[..i], if i < |s| then s[i + 1..] else "")
  }

  /** parts: coefficient and exponent by cutting the text at 'e' and at '.'. */
  function Parts(text: string): (int, int) {
    var (mant, e) := Cut(Lower(text), 'e');
    var (whole, frac) := Cut(mant, '.');
    (ParseInt(whole + frac), Atoi(e).GetOr(0) - |frac|)
  }

  lemma {:induction false} CutMantissa(neg: bool, whole: string, frac: string)
    requires Canonical(whole) && AllDigits(frac)
    ensures Cut(Mantissa(neg, whole, frac), '.') == (Minus(neg) + whole, frac)
  {
    hide IndexOf, Mantissa;
    var signed := Minus(neg) + whole;
    var m := Mantissa(neg, whole, frac);
    assert m == signed + FracText(frac) by { SignedWhole(neg, whole, frac); }
    IndexOfFirst(signed, '.', FracText(frac));
    if frac != "" {
      assert m[|signed| + 1..] == m[|signed|..][1..];
    }
  }

  lemma {:induction false} SignedWhole(neg: bool, whole: string, frac: string)
    ensures Mantissa(neg, whole, frac) == Minus(neg) + whole + FracText(frac)
  {
  }

  lemma {:induction false} ParseIntSigned(neg: bool, whole: string, frac: string)
    requires Canonical(whole)
    ensures ParseInt(Minus(neg) + whole + frac) == if neg then 0 - Val(whole + frac) else Val(whole + frac)
  {
    var s := Minus(neg) + whole + frac;
    assert s == Minus(neg) + (whole + frac);
    assert neg ==> s[1..] == whole + frac;
    assert !neg ==> s == whole + frac;
  }

  lemma {:induction false} CutLowered(d: Decimal)
    requires Valid(d)
    ensures Cut(Lower(Text(d)), 'e') ==
            (Mantissa(d.neg, d.whole, d.frac), if d.exp.Exponent? then d.exp.sign + d.exp.digits else "")
  {
    hide Text, Mantissa, IndexOf;
    CutExponent(d);
    var low, m := Lower(Text(d)), Mantissa(d.neg, d.whole, d.frac);
    if d.exp.Exponent? {
      assert low[|m| + 1..] == low[|m|..][1..];
      LowerTail(d.exp.mark, d.exp.sign + d.exp.digits);
    }
  }

  lemma {:induction false} LowerTail(mark: char, t: string)
    requires forall i :: 0 <= i < |t| ==> IsDigit(t[i]) || t[i] in {'+', '-'}
    ensures Lower([mark] + t)[1..] == t
  {
  }

  lemma {:induction false} AtoiEmpty()
    ensures Atoi("") == None
  {
  }

  /** The textual cuts find the coefficient and the exponent of the number written. */
  lemma {:induction false} PartsOfText(d: Decimal)
    requires Valid(d)
    ensures Parts(Text(d)) == (Coefficient(d), PowerOfTen(d))
  {
    hide Cut, Text, Mantissa, Lower, Val, ParseInt, Atoi, IsDigit;
    AtoiEmpty();
    CutLowered(d);
    CutMantissa(d.neg, d.whole, d.frac);
    ParseIntSigned(d.neg, d.whole, d.frac);
  }

  // ----- Writing decimals -----

  function Plain(neg: bool, whole: string, frac: string): Decimal {
    Decimal(neg, whole, frac, NoExponent)
  }

  function Magnitude(c: int): nat {
    if c < 0 then -c else c
  }

  /** The literal without an exponent for a coefficient and a power of ten. */
  function DecimalOf(coeff: int, exp: int): Decimal {
    var digits := Itoa(Magnitude(coeff));
    if coeff == 0 && exp >= 0 then Plain(false, "0", "")
    else if exp >= 0 then Plain(coeff < 0, digits + Zeros(exp), "")
    else
      var n := -exp;
      var padded := if |digits| <= n then Zeros(n - |digits| + 1) + digits else digits;
      Plain(coeff < 0, padded[..|padded| - n], padded[|padded| - n..])
  }

  lemma {:induction false} PlainFraction(coeff: int, exp: int)
    requires exp < 0
    ensures var d := DecimalOf(coeff, exp);
            Valid(d) && |d.frac| == -exp && Val(d.whole + d.frac) == Magnitude(coeff)
  {
    hide Itoa, Val, Pow10;
    var digits, n := Itoa(Magnitude(coeff)), -exp;
    ItoaNames(Magnitude(coeff));
    if |digits| <= n {
      PaddedDigits(digits, n - |digits| + 1);
    }
    var padded := if |digits| <= n then Zeros(n - |digits| + 1) + digits else digits;
    var d := DecimalOf(coeff, exp);
    assert d.whole + d.frac == padded;
  }

  lemma {:induction false} PaddedDigits(digits: string, pad: nat)
    requires AllDigits(digits)
    ensures AllDigits(Zeros(pad) + digits) && Val(Zeros(pad) + digits) == Val(digits)
  {
    hide Val;
    ValZeros(pad);
    ValConcat(Zeros(pad), digits);
  }

  lemma {:induction false} PlainWhole(coeff: int, exp: int)
    requires exp >= 0
    ensures var l := DecimalOf(coeff, exp);
            Valid(l) && l.frac == "" && Val(l.whole) == Magnitude(coeff) * Pow10(exp) &&
            l.whole == Itoa(Magnitude(coeff) * Pow10(exp)) && l.whole + l.frac == l.whole
  {
    ItoaNames(Magnitude(coeff));
    if coeff != 0 {
      ItoaShifted(Magnitude(coeff), exp);
      ItoaNames(Magnitude(coeff) * Pow10(exp));
    }
  }

  /** Every result of decimalOf is a literal of the accepted grammar, in plain notation, and
      denotes coeff * 10^exp. */
  lemma {:induction false} DecimalOfMeans(coeff: int, exp: int)
    ensures var d := DecimalOf(coeff, exp);
            Valid(d) && d.exp.NoExponent? && Value(d) == Real(coeff, exp) && |d.frac| == if exp < 0 then -exp else 0
  {
    hide Real, Scale, Itoa, Pow10, Val;
    var d := DecimalOf(coeff, exp);
    if exp < 0 {
      PlainFraction(coeff, exp);
    } else {
      PlainWhole(coeff, exp);
      SignedProduct(coeff, Pow10(exp));
      Rescale(coeff, exp, exp);
    }
  }

  lemma {:induction false} SignedProduct(c: int, p: nat)
    ensures (if c < 0 then 0 - Magnitude(c) * p else Magnitude(c) * p) == c * p
  {
  }

  // ----- Arithmetic -----

  /** d * 10^n, exactly. */
  function Shift(d: Decimal, n: int): (r: Decimal)
    ensures Valid(r) && Value(r) == Value(d) * Scale(n)
  {
    hide Real, Scale, DecimalOf;
    ShiftReal(Coefficient(d), PowerOfTen(d), n);
    DecimalOfMeans(Coefficient(d), PowerOfTen(d) + n);
    DecimalOf(Coefficient(d), PowerOfTen(d) + n)
  }

  /** d + delta, exactly. */
  function Add(d: Decimal, delta: int): (r: Decimal)
    ensures Valid(r) && Value(r) == Value(d) + delta as real
  {
    hide Scale, Real, DecimalOf, Val, Atoi;
    var c, e := Coefficient(d), PowerOfTen(d);
    UnitReal(delta);
    if e > 0 then
      Rescale(c, e, e);
      SameScale(c * Pow10(e), delta, 0);
      DecimalOfMeans(c * Pow10(e) + delta, 0);
      DecimalOf(c * Pow10(e) + delta, 0)
    else
      Rescale(delta, 0, -e);
      SameScale(c, delta * Pow10(-e), e);
      DecimalOfMeans(c + delta * Pow10(-e), e);
      DecimalOf(c + delta * Pow10(-e), e)
  }

  /** The comparison of equal, which holds exactly for equal numbers. */
  predicate Equal(d: Decimal, o: Decimal)
    ensures Equal(d, o) <==> Value(d) == Value(o)
  {
    SameNumberIsEquality(Coefficient(d), PowerOfTen(d), Coefficient(o), PowerOfTen(o));
    SameNumber(Coefficient(d), PowerOfTen(d), Coefficient(o), PowerOfTen(o))
  }

  /** roundInteger is rounding to the nearest integer, ties away from zero. */
  function RoundInteger(d: Decimal): (r: Decimal)
    ensures Valid(r) && Value(r) == HalfAway(Value(d)) as real
  {
    hide Scale, DecimalOf, HalfAway, RoundCoefficient;
    var c, e := Coefficient(d), PowerOfTen(d);
    if e >= 0 then
      Rescale(c, e, e);
      UnitReal(c * Pow10(e));
      HalfAwayInteger(c * Pow10(e));
      DecimalOfMeans(c, e);
      DecimalOf(c, e)
    else
      RoundCoefficientIsHalfAway(c, e);
      UnitReal(RoundCoefficient(c, e));
      DecimalOfMeans(RoundCoefficient(c, e), 0);
      DecimalOf(RoundCoefficient(c, e), 0)
  }

  /** Within one half, odd, monotone and idempotent. */
  lemma {:induction false} RoundIntegerLaws(d: Decimal, o: Decimal)
    ensures -0.5 <= Value(RoundInteger(d)) - Value(d) <= 0.5
    ensures Value(o) == 0.0 - Value(d) ==> Value(RoundInteger(o)) == 0.0 - Value(RoundInteger(d))
    ensures Value(d) <= Value(o) ==> Value(RoundInteger(d)) <= Value(RoundInteger(o))
    ensures Value(RoundInteger(RoundInteger(d))) == Value(RoundInteger(d))
  {
    HalfAwayLaws(Value(d), Value(o));
  }

  // ----- Normal form -----

  function Normalized(d: Decimal): (r: Decimal)
    ensures Valid(r) && Value(r) == Value(d)
  {
    hide Scale, Real, DecimalOf, Val, Atoi;
    var c, e := Coefficient(d), PowerOfTen(d);
    StripZerosKeepsValue(c, e);
    ZeroReal(c, e);
    UnitReal(0);
    var (c', e') := StripZeros(c, e);
    DecimalOfMeans(0, 0);
    DecimalOfMeans(c', e');
    if c == 0 then DecimalOf(0, 0) else DecimalOf(c', e')
  }

  /** normalized, with the loop of the source. */
  method Normalize(d: Decimal) returns (r: Decimal)
    ensures r == Normalized(d)
  {
    var c, e := Coefficient(d), PowerOfTen(d);
    if c == 0 {
      return Plain(false, "0", "");
    }
    while e < 0
      invariant StripZeros(c, e) == StripZeros(Coefficient(d), PowerOfTen(d))
      decreases -e
    {
      if c % 10 != 0 {
        break;
      }
      c, e := c / 10, e + 1;
    }
    r := DecimalOf(c, e);
  }

  /** Plain notation of an integer is the digits of that integer, however it was split. */
  lemma {:induction false} PlainInteger(c: int, e: int, k: int, f: int)
    requires e >= 0 && f >= 0 && Real(c, e) == Real(k, f)
    ensures DecimalOf(c, e) == DecimalOf(k, f)
  {
    PlainWhole(c, e);
    PlainWhole(k, f);
    Rescale(c, e, e);
    Rescale(k, f, f);
    SameScale(c * Pow10(e), k * Pow10(f), 0);
    ScaledSign(c, Pow10(e));
    ScaledSign(k, Pow10(f));
  }

  lemma {:induction false} ScaledSign(c: int, p: nat)
    requires p > 0
    ensures (c * p < 0 <==> c < 0) && (c * p == 0 <==> c == 0) && Magnitude(c) * p == Magnitude(c * p)
  {
  }

  lemma {:induction false} StrippedUnique(c: int, e: int, k: int, f: int)
    requires Real(c, e) == Real(k, f)
    ensures var (c', e') := StripZeros(c, e);
            var (k', f') := StripZeros(k, f);
            DecimalOf(c', e') == DecimalOf(k', f')
  {
    StripZerosKeepsValue(c, e);
    StripZerosKeepsValue(k, f);
    var (c', e') := StripZeros(c, e);
    var (k', f') := StripZeros(k, f);
    if e' >= 0 && f' >= 0 {
      PlainInteger(c', e', k', f');
    } else if e' >= 0 {
      IntegerVersusFraction(c', e', k', f');
    } else if f' >= 0 {
      IntegerVersusFraction(k', f', c', e');
    } else {
      ReducedUnique(c', e', k', f');
    }
  }

  /** The canonical form: two decimals have the same normalized literal exactly when they are
      the same number. */
  lemma {:induction false} NormalizedIsCanonical(d: Decimal, o: Decimal)
    ensures Text(Normalized(d)) == Text(Normalized(o)) <==> Value(d) == Value(o)
  {
    if Text(Normalized(d)) == Text(Normalized(o)) {
      ScanText(Normalized(d));
      ScanText(Normalized(o));
    }
    if Value(d) == Value(o) {
      ZeroReal(Coefficient(d), PowerOfTen(d));
      ZeroReal(Coefficient(o), PowerOfTen(o));
      StrippedUnique(Coefficient(d), PowerOfTen(d), Coefficient(o), PowerOfTen(o));
    }
  }

  function Integer(n: nat): Decimal {
    Plain(false, Itoa(n), "")
  }

  lemma {:induction false} IntegerText(n: nat)
    ensures Text(Integer(n)) == Itoa(n) && Value(Integer(n)) == n as real && Normalized(Integer(n)) == Integer(n)
  {
    hide Itoa, Scale, Val;
    ItoaNames(n);
    assert Itoa(n) + "" == Itoa(n);
    assert "" + Itoa(n) == Itoa(n);
    assert Zeros(0) == "";
    assert Itoa(0) == "0" by { ItoaOfVal("0"); ValZeros(1); assert Zeros(1) == "0"; }
    assert DecimalOf(n, 0) == Integer(n);
    UnitReal(n);
  }

  /** The normalized literal of a decimal is the digits of n exactly when the decimal is n. */
  lemma {:induction false} NormalizedInteger(d: Decimal, n: nat)
    ensures Text(Normalized(d)) == Itoa(n) <==> Value(d) == n as real
  {
    IntegerText(n);
    NormalizedIsCanonical(d, Integer(n));
  }

  // ----- Length bound -----

  lemma {:induction false} ItoaLength(s: string)
    requires AllDigits(s) && s != ""
    ensures |Itoa(Val(s))| <= |s|
  {
    hide Itoa;
    if s[0] != '0' || |s| == 1 {
      ItoaOfVal(s);
    } else {
      ItoaLength(s[1..]);
      assert s == [s[0]] + s[1..];
      ValConcat([s[0]], s[1..]);
      assert [s[0]][..0] == "";
      assert Val([s[0]]) == 0;
    }
  }

  lemma {:induction false} PlainLength(c: int, e: int, width: nat)
    requires |Itoa(Magnitude(c))| <= width
    ensures |Text(DecimalOf(c, e))| <=
            1 + if e >= 0 then width + e else 1 + if width <= -e then 1 - e else width
  {
  }

  lemma {:induction false} StripZerosShrinks(c: int, e: int)
    ensures var (c', e') := StripZeros(c, e);
            |Itoa(Magnitude(c'))| <= |Itoa(Magnitude(c))| && e <= e' && (e < 0 ==> e' <= 0) &&
            (e >= 0 ==> e' == e)
    decreases -e
  {
    if e < 0 && c % 10 == 0 {
      StripZerosShrinks(c / 10, e + 1);
      assert Magnitude(c / 10) == Magnitude(c) / 10;
    }
  }

  /** The bounds on a literal bound every text computed from it: its plain and its normalized
      form have at most MAX_LENGTH + MAX_EXPONENT + 3 characters. */
  lemma {:induction false} FormsAreShort(s: string)
    requires ParseDecimal(s).Some?
    ensures var d := ParseDecimal(s).value;
            |Text(DecimalOf(Coefficient(d), PowerOfTen(d)))| <= MAX_LENGTH + MAX_EXPONENT + 3 &&
            |Text(Normalized(d))| <= MAX_LENGTH + MAX_EXPONENT + 3
  {
    hide Itoa, Val, Scan, Scale, Atoi;
    var d := ParseDecimal(s).value;
    ScannedText(s);
    var digits := d.whole + d.frac;
    ItoaLength(digits);
    var c, e := Coefficient(d), PowerOfTen(d);
    assert Magnitude(c) == Val(digits);
    PlainLength(c, e, |digits|);
    StripZerosShrinks(c, e);
    var (c', e') := StripZeros(c, e);
    PlainLength(c', e', |digits|);
  }

  // ----- Which literals are accepted -----

  predicate OnlyDigits(s: string) {
    forall c :: c in s ==> '0' <= c <= '9'
  }

  /** The grammar of number literals, part by part: no leading zero, digits on both sides of a point,
      and a mark, an optional sign and digits for an exponent. */
  predicate Grammatical(l: Decimal) {
    OnlyDigits(l.whole) && l.whole != "" && (l.whole == "0" || l.whole[0] != '0') && OnlyDigits(l.frac) &&
    (l.exp.Exponent? ==>
       (l.exp.mark == 'e' || l.exp.mark == 'E') && (l.exp.sign == "" || l.exp.sign == "-" || l.exp.sign == "+") &&
       l.exp.digits != "" && OnlyDigits(l.exp.digits))
  }

  lemma {:induction false} ValidIsGrammatical(l: Decimal)
    ensures Valid(l) <==> Grammatical(l)
  {
    DigitsOnlyIff(l.whole);
    DigitsOnlyIff(l.frac);
    if l.exp.Exponent? {
      DigitsOnlyIff(l.exp.digits);
    }
  }

  lemma {:induction false} DigitsOnlyIff(s: string)
    ensures AllDigits(s) <==> OnlyDigits(s)
  {
    if OnlyDigits(s) {
      assert forall i :: 0 <= i < |s| ==> s[i] in s;
    }
    if AllDigits(s) {
      forall c | c in s ensures '0' <= c <= '9' {
        var i :| 0 <= i < |s| && s[i] == c;
        assert IsDigit(s[i]);
      }
    }
  }

  lemma {:induction false} ExponentBound(e: Exponent)
    requires ValidExponent(e) && e.Exponent?
    ensures var v := ExponentValue(e); (v.Some? && -1000 <= v.value <= 1000) <==> Val(e.digits) <= 1000
  {
    hide Val;
    var s := e.sign + e.digits;
    assert e.digits[0] != '-' && e.digits[0] != '+';
    if e.sign == "" {
      assert s == e.digits;
    } else {
      assert s[0] == e.sign[0] && s[1..] == e.digits;
    }
  }

  /** A text is accepted as a literal exactly when it has at most a thousand characters, is that
      literal written out, and has no exponent beyond a thousand either way. */
  lemma {:induction false} ParseDecimalIff(s: string, l: Decimal)
    ensures ParseDecimal(s) == Some(l) <==>
            |s| <= 1000 && Grammatical(l) && Text(l) == s && (l.exp.Exponent? ==> Val(l.exp.digits) <= 1000)
  {
    hide Scan, Text, Valid, Grammatical, Val, ExponentValue;
    ValidIsGrammatical(l);
    var scanned := Scan(s);
    if scanned == Some(l) {
      ScannedText(s);
      ExponentOfValid(l);
    } else if Valid(l) {
      ScanText(l);
    }
  }

  lemma {:induction false} ExponentOfValid(l: Decimal)
    requires Valid(l)
    ensures var v := ExponentValue(l.exp);
            (v.Some? && -1000 <= v.value <= 1000) <==> (l.exp.Exponent? ==> Val(l.exp.digits) <= 1000)
  {
    hide Val;
    if l.exp.Exponent? {
      ExponentBound(l.exp);
    }
  }
}
