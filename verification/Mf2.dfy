/** The MessageFormat 2 data model (messageformat/model.go), the selection of a numeric value's
    key (messageformat/engine_exact.go) and what formatting a message shows: the Pattern
    Selection of Unicode Technical Standard #35, Part 9. */
module Mf2 {
  import opened Digits
  import opened Numbers
  import opened Decimals

  // ----- Data model -----

  datatype FunctionRef = FunctionRef(name: string, options: map<string, string>)

  datatype Expression = Expression(arg: string, fn: Option<FunctionRef>, attributes: map<string, string>)

  datatype Element = Text(text: string) | Placeholder(expression: Expression)

  type Pattern = seq<Element>

  datatype VariantKey = Catchall | Key(value: string)

  datatype Variant = Variant(keys: seq<VariantKey>, value: Pattern)

  datatype Declaration = Input(name: string, value: Expression) | Local(name: string, value: Expression)

  datatype Message =
    | PatternMessage(pattern: Pattern)
    | SelectMessage(declarations: seq<Declaration>, selectors: seq<string>, variants: seq<Variant>)

  // ----- Values -----

  datatype Value = Str(text: string) | Num(number: Decimal)

  type Env = string -> Value

  datatype Category = Zero | One | Two | Few | Many | Other

  function CategoryName(c: Category): string {
    match c
    case Zero => "zero"
    case One => "one"
    case Two => "two"
    case Few => "few"
    case Many => "many"
    case Other => "other"
  }

  /** The locale's plural rules: any functions from numbers to categories. */
  datatype Rules = Rules(cardinal: Decimal -> Category, ordinal: Decimal -> Category)

  function CategoryOf(rules: Rules, ordinal: bool, d: Decimal): string {
    CategoryName(if ordinal then rules.ordinal(d) else rules.cardinal(d))
  }

  /** d minus an offset; an offset of zero leaves d as it is. */
  function Less(d: Decimal, offset: int): (r: Decimal)
    ensures Decimals.Value(r) == Decimals.Value(d) - offset as real
  {
    if offset == 0 then d else Add(d, -offset)
  }

  function NumberOf(v: Value): Decimal {
    match v
    case Num(d) => d
    case Str(_) => Integer(0)
  }

  function StringOf(v: Value): string {
    match v
    case Num(d) => Decimals.Text(d)
    case Str(s) => s
  }

  // ----- Selecting one key -----

  /** The numeric options selection reads: the style, and the category of a number unless
      selection is exact. */
  datatype NumberOptions = NumberOptions(percent: bool, category: Option<Decimal -> string>)

  function FirstEqual(keys: seq<string>, d: Decimal): Option<string> {
    if keys == [] then None
    else
      var k := keys[0];
      if k != "" && k[0] == '=' && ParseDecimal(k[1..]).Some? && Equal(ParseDecimal(k[1..]).value, d)
      then Some(k)
      else FirstEqual(keys[1..], d)
  }

  function IfListed(keys: seq<string>, key: string): seq<string> {
    if key in keys then [key] else []
  }

  /** exactNumber.SelectKeys of a selectable number: an exact key (=N, then N) before the plural
      category of the value; a percent selects on its value times 100. */
  function SelectKeys(value: Decimal, options: NumberOptions, keys: seq<string>): seq<string> {
    var v := if options.percent then Shift(value, 2) else value;
    var marked := FirstEqual(keys, v);
    if marked.Some? then [marked.value]
    else if Decimals.Text(Normalized(v)) in keys then [Decimals.Text(Normalized(v))]
    else if options.category.None? then []
    else IfListed(keys, options.category.value(v))
  }

  lemma {:induction false} SameFirstEqual(keys: seq<string>, d: Decimal, o: Decimal)
    requires Decimals.Value(d) == Decimals.Value(o)
    ensures FirstEqual(keys, d) == FirstEqual(keys, o)
  {
    hide Decimals.Value, Equal, ParseDecimal;
    if keys != [] {
      SameFirstEqual(keys[1..], d, o);
    }
  }

  /** Exact selection goes by the number, not by how it is written, and a percent goes by the number
      shown, a hundred times the value. */
  lemma {:induction false} PercentSelectsShown(value: Decimal, shown: Decimal, keys: seq<string>)
    requires Decimals.Value(shown) == 100.0 * Decimals.Value(value)
    ensures SelectKeys(value, NumberOptions(true, None), keys) == SelectKeys(shown, NumberOptions(false, None), keys)
  {
    hide Decimals.Value, Normalized, Decimals.Text, Shift, FirstEqual, Scale;
    var v := Shift(value, 2);
    assert Scale(2) == 100.0 by { ScaleOfTwo(); }
    assert Decimals.Value(v) == Decimals.Value(value) * Scale(2);
    SameFirstEqual(keys, v, shown);
    NormalizedIsCanonical(v, shown);
  }

  lemma {:induction false} ScaleOfTwo()
    ensures Scale(2) == 100.0
  {
    assert Scale(0) == 1.0 && Scale(1) == 10.0;
  }

  predicate Unmarked(k: string) {
    k != "" && k[0] != '='
  }

  lemma {:induction false} NoMarkedKey(keys: seq<string>, d: Decimal)
    requires forall k :: k in keys ==> Unmarked(k)
    ensures FirstEqual(keys, d) == None
  {
    if keys != [] {
      assert Unmarked(keys[0]);
      NoMarkedKey(keys[1..], d);
    }
  }

  // ----- Declarations -----

  datatype KeySelection = ByString | ByNumber(ordinal: bool) | Unselectable

  datatype Resolved = Resolved(value: Value, selection: KeySelection)

  function OptionOf(f: FunctionRef, name: string): string {
    if name in f.options then f.options[name] else ""
  }

  function SelectionOf(f: FunctionRef): KeySelection {
    if f.name == "number" then ByNumber(OptionOf(f, "select") == "ordinal")
    else if f.name == "string" then ByString
    else Unselectable
  }

  /** An :offset local holds the value it is bound to less `subtract`, and selects like it. */
  function Offset(r: Resolved, f: FunctionRef): Resolved {
    var minus := Atoi(OptionOf(f, "subtract")).GetOr(0);
    Resolved(Num(Less(NumberOf(r.value), minus)), r.selection)
  }

  /** The value of variable x after the declarations, each of which sees the ones before it. */
  function Resolve(decls: seq<Declaration>, env: Env, x: string): Resolved {
    if decls == [] then Resolved(env(x), Unselectable)
    else
      var last, before := decls[|decls| - 1], decls[..|decls| - 1];
      if last.name != x || last.value.fn.None? then Resolve(before, env, x)
      else
        var f := last.value.fn.value;
        match last
        case Input(_, _) => Resolved(env(x), SelectionOf(f))
        case Local(_, e) =>
          if f.name == "offset" then Offset(Resolve(before, env, e.arg), f)
          else Resolved(Resolve(before, env, e.arg).value, SelectionOf(f))
  }

  // ----- Pattern selection -----

  function SelectedKeys(r: Resolved, rules: Rules, keys: seq<string>): seq<string> {
    match (r.selection, r.value)
    case (ByString, v) => IfListed(keys, StringOf(v))
    case (ByNumber(ordinal), Num(d)) =>
      SelectKeys(d, NumberOptions(false, Some((n: Decimal) => CategoryOf(rules, ordinal, n))), keys)
    case _ => []
  }

  /** The literal keys of column i, in variant order. */
  function KeysAt(variants: seq<Variant>, i: nat): seq<string> {
    if variants == [] then []
    else
      var ks := variants[0].keys;
      (if i < |ks| && ks[i].Key? then [ks[i].value] else []) + KeysAt(variants[1..], i)
  }

  function IndexIn(keys: seq<string>, k: string): (i: nat)
    ensures i <= |keys| && (i < |keys| <==> k in keys) && (k in keys ==> keys[i] == k)
  {
    if keys == [] then 0 else if keys[0] == k then 0 else 1 + IndexIn(keys[1..], k)
  }

  /** How well a key matches: its place among the preferred keys, the catch-all last. */
  function Rank(pref: seq<string>, k: VariantKey): nat {
    match k
    case Catchall => |pref|
    case Key(v) => IndexIn(pref, v)
  }

  predicate KeyMatches(pref: seq<string>, k: VariantKey) {
    k.Key? ==> k.value in pref
  }

  predicate Matches(prefs: seq<seq<string>>, keys: seq<VariantKey>) {
    |keys| == |prefs| && forall i :: 0 <= i < |keys| ==> KeyMatches(prefs[i], keys[i])
  }

  /** a is a better match than b: better in the first column in which they differ. */
  predicate Better(prefs: seq<seq<string>>, a: seq<VariantKey>, b: seq<VariantKey>)
    requires |a| == |b| == |prefs|
  {
    if prefs == [] then false
    else
      var ra, rb := Rank(prefs[0], a[0]), Rank(prefs[0], b[0]);
      ra < rb || (ra == rb && Better(prefs[1..], a[1..], b[1..]))
  }

  /** The first of the best matching variants. */
  function Best(prefs: seq<seq<string>>, variants: seq<Variant>): (r: Option<Variant>)
    ensures r.Some? ==> r.value in variants && Matches(prefs, r.value.keys)
  {
    if variants == [] then None
    else
      var rest := Best(prefs, variants[1..]);
      if !Matches(prefs, variants[0].keys) then rest
      else if rest.Some? && Better(prefs, rest.value.keys, variants[0].keys) then rest
      else Some(variants[0])
  }

  function Prefs(decls: seq<Declaration>, selectors: seq<string>, variants: seq<Variant>, env: Env, rules: Rules)
    : (p: seq<seq<string>>)
    ensures |p| == |selectors|
  {
    seq(|selectors|, i requires 0 <= i < |selectors| =>
      SelectedKeys(Resolve(decls, env, selectors[i]), rules, KeysAt(variants, i)))
  }

  // ----- What a pattern shows -----

  /** One shown character of text, or one formatted value. */
  datatype Piece = Char(c: char) | Shown(value: Value, fn: Option<FunctionRef>, attributes: map<string, string>)

  function Chars(s: string): (p: seq<Piece>)
    ensures |p| == |s| && forall i :: 0 <= i < |s| ==> p[i] == Char(s[i])
  {
    seq(|s|, i requires 0 <= i < |s| => Char(s[i]))
  }

  function ShowElement(decls: seq<Declaration>, env: Env, e: Element): seq<Piece> {
    match e
    case Text(t) => Chars(t)
    case Placeholder(x) => [Shown(Resolve(decls, env, x.arg).value, x.fn, x.attributes)]
  }

  function Show(decls: seq<Declaration>, env: Env, p: Pattern): seq<Piece> {
    if p == [] then [] else ShowElement(decls, env, p[0]) + Show(decls, env, p[1..])
  }

  function Format(m: Message, env: Env, rules: Rules): seq<Piece> {
    match m
    case PatternMessage(p) => Show([], env, p)
    case SelectMessage(decls, selectors, variants) =>
      var best := Best(Prefs(decls, selectors, variants, env, rules), variants);
      if best.Some? then Show(decls, env, best.value.value) else []
  }

  lemma {:induction false} ShowConcat(decls: seq<Declaration>, env: Env, p: Pattern, q: Pattern)
    ensures Show(decls, env, p + q) == Show(decls, env, p) + Show(decls, env, q)
  {
    hide ShowElement;
    if p == [] {
      assert p + q == q;
    } else {
      ShowConcat(decls, env, p[1..], q);
      assert (p + q)[1..] == p[1..] + q;
    }
  }

  // ----- Which variant is best -----

  /** Every matching key vector ranks at least as low, column by column, as `best`. */
  lemma {:induction false} NothingBetter(prefs: seq<seq<string>>, best: seq<VariantKey>, w: seq<VariantKey>)
    requires |best| == |w| == |prefs|
    requires forall i :: 0 <= i < |prefs| ==> Rank(prefs[i], best[i]) <= Rank(prefs[i], w[i])
    requires forall i :: 0 <= i < |prefs| && Rank(prefs[i], best[i]) == Rank(prefs[i], w[i]) ==> best[i] == w[i]
    ensures !Better(prefs, w, best)
    ensures w != best ==> Better(prefs, best, w)
  {
    if prefs != [] {
      NothingBetter(prefs[1..], best[1..], w[1..]);
      if w[0] == best[0] && w != best {
        assert w[1..] != best[1..] by {
          assert w == [w[0]] + w[1..] && best == [best[0]] + best[1..];
        }
      }
    }
  }

  /** When every column prefers at most one key, the best variant is the one that has each
      column's preferred key, or its catch-all. */
  lemma {:induction false} BestIsPreferred(prefs: seq<seq<string>>, variants: seq<Variant>, best: seq<VariantKey>)
    requires |best| == |prefs|
    requires forall i :: 0 <= i < |prefs| ==>
      |prefs[i]| <= 1 && best[i] == if prefs[i] == [] then Catchall else Key(prefs[i][0])
    ensures (exists v :: v in variants && v.keys == best) ==>
      Best(prefs, variants).Some? && Best(prefs, variants).value.keys == best
  {
    if variants != [] {
      BestIsPreferred(prefs, variants[1..], best);
      var head := variants[0].keys;
      if Matches(prefs, head) {
        NothingBetter(prefs, best, head);
        var rest := Best(prefs, variants[1..]);
        if rest.Some? {
          NothingBetter(prefs, best, rest.value.keys);
        }
      }
      if exists v :: v in variants && v.keys == best {
        var v :| v in variants && v.keys == best;
        assert v == variants[0] || v in variants[1..];
        assert Matches(prefs, best);
      }
    }
  }
}
