/** Decimal digit strings: the text of a natural number and back, as Go's strconv and
    math/big write and read them. */
module Digits {

  datatype Option<+T> = None | Some(value: T) {
    function GetOr(default: T): T {
      if Some? then value else default
    }
  }

  predicate IsDigit(c: char) {
    '0' <= c <= '9'
  }

  predicate AllDigits(s: string) {
    forall i :: 0 <= i < |s| ==> IsDigit(s[i])
  }

  function DigitOf(c: char): nat {
    if IsDigit(c) then c as int - '0' as int else 0
  }

  function CharOf(d: nat): char
    requires d < 10
  {
    ('0' as int + d) as char
  }

  /** The number a digit string names, leading zeros allowed; the empty string names 0. */
  function Val(s: string): nat {
    if s == "" then 0 else 10 * Val(s[..|s| - 1]) + DigitOf(s[|s| - 1])
  }

  /** The shortest digit string of n: strconv.Itoa and (*big.Int).String of a natural number. */
  function Itoa(n: nat): string {
    if n < 10 then [CharOf(n)] else Itoa(n / 10) + [CharOf(n % 10)]
  }

  /** A nonempty digit string without a leading zero, other than "0" itself. */
  predicate Canonical(s: string) {
    AllDigits(s) && s != "" && (|s| > 1 ==> s[0] != '0')
  }

  function Pow10(n: nat): (p: nat)
    ensures p > 0
  {
    if n == 0 then 1 else 10 * Pow10(n - 1)
  }

  function Zeros(n: nat): (s: string)
    ensures |s| == n && forall i :: 0 <= i < n ==> s[i] == '0'
  {
    seq(n, _ => '0')
  }

  lemma {:induction false} ItoaNames(n: nat)
    ensures Canonical(Itoa(n)) && Val(Itoa(n)) == n && (n > 0 ==> Itoa(n)[0] != '0')
  {
    if n >= 10 {
      ItoaNames(n / 10);
      assert Itoa(n)[..|Itoa(n)| - 1] == Itoa(n / 10);
    }
  }

  lemma {:induction false} ItoaOfVal(s: string)
    requires Canonical(s)
    ensures Itoa(Val(s)) == s
  {
    if |s| == 1 {
      assert Val(s[..0]) == 0;
    } else {
      var t := s[..|s| - 1];
      ItoaOfVal(t);
      PositiveVal(t);
      assert s == t + [s[|s| - 1]];
    }
  }

  lemma {:induction false} PositiveVal(s: string)
    requires AllDigits(s) && s != "" && s[0] != '0'
    ensures Val(s) > 0
  {
    if |s| > 1 {
      PositiveVal(s[..|s| - 1]);
    }
  }

  /** Writing t after s scales what s names by 10 to the length of t. */
  lemma {:induction false} ValConcat(s: string, t: string)
    ensures Val(s + t) == Val(s) * Pow10(|t|) + Val(t)
  {
    if t == "" {
      assert s + t == s;
    } else {
      var u := t[..|t| - 1];
      ValConcat(s, u);
      assert (s + t)[..|s + t| - 1] == s + u;
      var p := Pow10(|u|);
      assert Pow10(|t|) == 10 * p;
      assert Val(s) * (10 * p) == 10 * (Val(s) * p);
    }
  }

  lemma {:induction false} ValZeros(n: nat)
    ensures AllDigits(Zeros(n)) && Val(Zeros(n)) == 0
  {
    if n > 0 {
      ValZeros(n - 1);
      assert Zeros(n)[..n - 1] == Zeros(n - 1);
    }
  }

  lemma {:induction false} ItoaShifted(n: nat, k: nat)
    requires n > 0
    ensures Itoa(n) + Zeros(k) == Itoa(n * Pow10(k))
  {
    ItoaNames(n);
    ValZeros(k);
    ValConcat(Itoa(n), Zeros(k));
    ItoaOfVal(Itoa(n) + Zeros(k));
  }

  const MAX_INT: int := 0x7fff_ffff_ffff_ffff
  const MIN_INT: int := -0x8000_0000_0000_0000

  /** strconv.Atoi: an optional sign and digits, within the range of a 64-bit int. */
  function Atoi(s: string): Option<int> {
    var signed := s != "" && (s[0] == '-' || s[0] == '+');
    var digits := if signed then s[1..] else s;
    if digits == "" || !AllDigits(digits) then None
    else
      var n := if signed && s[0] == '-' then 0 - Val(digits) else Val(digits);
      if MIN_INT <= n <= MAX_INT then Some(n) else None
  }

  /** strconv.Itoa of any int. */
  function FormatInt(n: int): string {
    if n < 0 then "-" + Itoa(-n) else Itoa(n)
  }

  lemma {:induction false} AtoiFormatInt(n: int)
    requires MIN_INT <= n <= MAX_INT
    ensures Atoi(FormatInt(n)) == Some(n)
  {
    ItoaNames(if n < 0 then -n else n);
    if n < 0 {
      assert FormatInt(n)[1..] == Itoa(-n);
    }
  }
}
