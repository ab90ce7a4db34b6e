/** ICU MessageFormat 1 tokens, as the parser hands them to messageformat/mf1.go, and what an
    MF1 message shows for given argument values. */
module Mf1 {
  import opened Digits
  import opened Decimals
  import opened Mf2

  datatype Kind = SelectKind | PluralKind | OrdinalKind

  datatype Token =
    | Content(text: string)
    | PlainArg(arg: string)
    | FunctionArg(arg: string, key: string, style: string)
    | Select(arg: string, kind: Kind, pluralOffset: Option<int>, cases: seq<Case>)
    | Octothorpe

  datatype Case = Case(key: string, tokens: seq<Token>)

  /** The mapping of formatted arguments {x, type, style} to functions, which may fail. */
  type Mapping = (string, string) -> Option<(FunctionRef, map<string, string>)>

  const OTHER := "other"

  predicate IsPlural(kind: Kind) {
    kind != SelectKind
  }

  function OffsetOf(o: Option<int>): int {
    o.GetOr(0)
  }

  // ----- Keys -----

  predicate IsExact(kind: Kind, key: string) {
    IsPlural(kind) && key != "" && key[0] == '='
  }

  /** `=01` and `=1` name the same number: the key as an MF2 numeric literal. */
  function NormalizeExactKey(digits: string): string {
    match Atoi(digits)
    case Some(n) => FormatInt(n)
    case None => digits
  }

  /** The key under which a case is merged into its argument's selector; "" for `other`. */
  function MergedKey(kind: Kind, key: string): string {
    if IsExact(kind, key) then NormalizeExactKey(key[1..]) else if key == OTHER then "" else key
  }

  const CATEGORY_KEYS: set<string> := {"zero", "one", "two", "few", "many"}

  /** Digits whose normal form still names their number exactly as canonical text: they fit a
      64-bit int or carry no leading zero. */
  predicate NormalizableDigits(digits: string) {
    AllDigits(digits) && digits != "" && (Val(digits) <= 0x7fff_ffff_ffff_ffff || Canonical(digits))
  }

  /** The keys the parser lets through for a selector of this kind. */
  predicate ValidKey(kind: Kind, key: string) {
    if IsPlural(kind) then
      key == OTHER || key in CATEGORY_KEYS || (key != "" && key[0] == '=' && AllDigits(key[1..]) && key[1..] != "")
    else key != ""
  }

  /** A digit string is normalized to the canonical text of its number exactly when it fits an
      int64 or has no leading zeros; beyond that range leading zeros survive. */
  lemma {:induction false} NormalizeExactKeyIsCanonical(digits: string)
    requires AllDigits(digits) && digits != ""
    ensures NormalizeExactKey(digits) == Itoa(Val(digits)) <==> NormalizableDigits(digits)
  {
    assert digits[0] != '-' && digits[0] != '+';
    ItoaNames(Val(digits));
    if Canonical(digits) {
      ItoaOfVal(digits);
    }
  }

  /** Beyond that range the merged key is no number's normalized text, so no value selects it. */
  lemma {:induction false} OverlongExactKeyIsLost(digits: string, d: Decimal)
    requires AllDigits(digits) && digits != "" && !NormalizableDigits(digits)
    ensures NormalizeExactKey(digits) == digits && Decimals.Text(Normalized(d)) != digits
  {
    hide Normalized, Val;
    assert digits[0] != '-' && digits[0] != '+';
    if Decimals.Text(Normalized(d)) == digits {
      DigitsOnly(Normalized(d));
    }
  }

  lemma {:induction false} NonDigits(n: Decimal)
    requires Valid(n)
    ensures n.neg ==> '-' in Decimals.Text(n)
    ensures n.frac != "" ==> '.' in Decimals.Text(n)
    ensures n.exp.Exponent? ==> n.exp.mark in Decimals.Text(n)
  {
    var t, m := Decimals.Text(n), Mantissa(n.neg, n.whole, n.frac);
    assert n.neg ==> m[0] == '-';
    assert n.frac != "" ==> m[|Minus(n.neg)| + |n.whole|] == '.';
    assert n.exp.Exponent? ==> t[|m|] == n.exp.mark;
  }

  lemma {:induction false} DigitsOnly(n: Decimal)
    requires Valid(n) && AllDigits(Decimals.Text(n))
    ensures Canonical(Decimals.Text(n))
  {
    NonDigits(n);
    assert forall c :: c in Decimals.Text(n) ==> IsDigit(c);
    assert !n.neg && n.frac == "" && n.exp.NoExponent?;
    assert Decimals.Text(n) == n.whole;
  }

  // ----- Well-formed messages -----

  /** What the parser guarantees of one select: keys of its grammar, among them `other`, and an
      offset only on plurals. */
  predicate WellFormedSelect(t: Token)
    requires t.Select?
  {
    && (forall i :: 0 <= i < |t.cases| ==> ValidKey(t.kind, t.cases[i].key))
    && (exists i :: 0 <= i < |t.cases| && t.cases[i].key == OTHER)
    && 0 <= OffsetOf(t.pluralOffset) <= MAX_INT
    && (!IsPlural(t.kind) ==> t.pluralOffset == None)
  }

  predicate WellFormed(tokens: seq<Token>) {
    tokens == [] || (WellFormedToken(tokens[0]) && WellFormed(tokens[1..]))
  }

  predicate WellFormedToken(t: Token) {
    t.Select? ==> WellFormedSelect(t) && WellFormedCases(t.cases)
  }

  predicate WellFormedCases(cases: seq<Case>) {
    cases == [] || (WellFormed(cases[0].tokens) && WellFormedCases(cases[1..]))
  }

  // ----- Ordinary keys -----

  predicate DistinctKeys(kind: Kind, cases: seq<Case>) {
    forall i, j :: 0 <= i < j < |cases| ==> MergedKey(kind, cases[i].key) != MergedKey(kind, cases[j].key)
  }

  predicate NormalizableKeys(kind: Kind, cases: seq<Case>) {
    forall i :: 0 <= i < |cases| && IsExact(kind, cases[i].key) ==> NormalizableDigits(cases[i].key[1..])
  }

  /** Every exact key of every select is normalized to its number's text; with `distinct`, no select
      has two cases with the same merged key. */
  predicate Ordinary(tokens: seq<Token>, distinct: bool) {
    tokens == [] || (OrdinaryToken(tokens[0], distinct) && Ordinary(tokens[1..], distinct))
  }

  predicate OrdinaryToken(t: Token, distinct: bool) {
    t.Select? ==>
      NormalizableKeys(t.kind, t.cases) && (distinct ==> DistinctKeys(t.kind, t.cases)) && OrdinaryCases(t.cases, distinct)
  }

  predicate OrdinaryCases(cases: seq<Case>, distinct: bool) {
    cases == [] || (Ordinary(cases[0].tokens, distinct) && OrdinaryCases(cases[1..], distinct))
  }

  // ----- Which case a select evaluates -----

  function FirstKey(cases: seq<Case>, key: string): (i: nat)
    ensures i <= |cases| && (i < |cases| ==> cases[i].key == key)
    ensures forall j :: 0 <= j < i ==> cases[j].key != key
  {
    if cases == [] || cases[0].key == key then 0 else 1 + FirstKey(cases[1..], key)
  }

  /** `=n` matches the number n itself, whatever the offset. */
  predicate ExactlyMatches(key: string, d: Decimal) {
    key != "" && key[0] == '=' && Decimals.Value(d) == Val(key[1..]) as real
  }

  function FirstExact(cases: seq<Case>, d: Decimal): (i: nat)
    ensures i <= |cases| && (i < |cases| ==> ExactlyMatches(cases[i].key, d))
    ensures forall j :: 0 <= j < i ==> !ExactlyMatches(cases[j].key, d)
  {
    if cases == [] || ExactlyMatches(cases[0].key, d) then 0 else 1 + FirstExact(cases[1..], d)
  }

  function KeyOrOther(cases: seq<Case>, key: string): (i: nat)
    ensures i <= |cases|
  {
    var i := FirstKey(cases, key);
    if i < |cases| then i else FirstKey(cases, OTHER)
  }

  /** The case a select shows: for a plural an exact key of the value first, then the plural
      category of the value less the offset, then `other`; for a select the value, then `other`. */
  function ChosenCase(t: Token, env: Env, rules: Rules): (i: nat)
    requires t.Select?
    ensures i <= |t.cases|
  {
    if !IsPlural(t.kind) then KeyOrOther(t.cases, StringOf(env(t.arg)))
    else
      var d := NumberOf(env(t.arg));
      var exact := FirstExact(t.cases, d);
      if exact < |t.cases| then exact
      else KeyOrOther(t.cases, CategoryOf(rules, t.kind == OrdinalKind, Less(d, OffsetOf(t.pluralOffset))))
  }

  // ----- What a message shows -----

  /** The innermost enclosing plural, which `#` stands for. */
  datatype Plural = Plural(arg: string, offset: int)

  function Inner(t: Token, plural: Option<Plural>): Option<Plural>
    requires t.Select?
  {
    if IsPlural(t.kind) then Some(Plural(t.arg, OffsetOf(t.pluralOffset))) else plural
  }

  function EvalLeaf(t: Token, plural: Option<Plural>, mapping: Mapping, env: Env): seq<Piece> {
    match t
    case Content(s) => Chars(s)
    case PlainArg(a) => [Shown(env(a), None, map[])]
    case FunctionArg(a, key, style) =>
      (match mapping(key, style)
       case Some((f, attributes)) => [Shown(env(a), Some(f), attributes)]
       case None => [])
    case Octothorpe =>
      (match plural
       case None => Chars("#")
       case Some(p) => [Shown(if p.offset == 0 then env(p.arg) else Num(Less(NumberOf(env(p.arg)), p.offset)), None, map[])])
    case Select(_, _, _, _) => []
  }

  /** The pieces an MF1 message shows, every select resolved to its chosen case. */
  function Eval(tokens: seq<Token>, plural: Option<Plural>, mapping: Mapping, env: Env, rules: Rules): seq<Piece> {
    if tokens == [] then []
    else EvalToken(tokens[0], plural, mapping, env, rules) + Eval(tokens[1..], plural, mapping, env, rules)
  }

  function EvalToken(t: Token, plural: Option<Plural>, mapping: Mapping, env: Env, rules: Rules): seq<Piece> {
    if !t.Select? then EvalLeaf(t, plural, mapping, env)
    else
      var i := ChosenCase(t, env, rules);
      if i < |t.cases| then Eval(t.cases[i].tokens, Inner(t, plural), mapping, env, rules) else []
  }
}
