/** Lifting preserves meaning: what the lifted MF2 message shows, against what the nested MF1
    message shows, for every assignment of values and every plural-rule function. */
module LiftingProofs {
  import opened Digits
  import opened Decimals
  import opened Mf2
  import opened Mf1
  import opened Lifting
  import opened CollectProofs
  import opened PlanProofs
  import opened VariantProofs

  // ----- Which merged key a selector picks -----

  function NormalText(d: Decimal): string {
    Decimals.Text(Normalized(d))
  }

  function CategoryAt(s: Selector, env: Env, rules: Rules): string {
    CategoryOf(rules, s.kind == OrdinalKind, Less(NumberOf(env(s.name)), s.offset))
  }

  /** The key of the merged selector that the value picks, "" for the catch-all. */
  function Picked(s: Selector, env: Env, rules: Rules): string {
    if !IsPlural(s.kind) then (if StringOf(env(s.name)) in s.keys then StringOf(env(s.name)) else "")
    else
      var exact := NormalText(NumberOf(env(s.name)));
      if exact in s.exact then exact
      else if CategoryAt(s, env, rules) in s.keys then CategoryAt(s, env, rules)
      else ""
  }

  /** Plural arguments are given numbers. */
  predicate Typed(sels: seq<Selector>, env: Env) {
    forall i :: 0 <= i < |sels| && IsPlural(sels[i].kind) ==> env(sels[i].name).Num?
  }

  lemma {:induction false} NormalTextStart(d: Decimal)
    ensures NormalText(d) != "" && (NormalText(d)[0] == '-' || IsDigit(NormalText(d)[0]))
    ensures NormalText(d) !in CATEGORY_KEYS
  {
    var n := Normalized(d);
    var t := NormalText(d);
    assert t == Mantissa(n.neg, n.whole, n.frac) + ExponentText(n.exp);
  }

  lemma {:induction false} CategoryIsNoNumber(c: Category)
    ensures !AllDigits(CategoryName(c)) && CategoryName(c) != "" && (CategoryName(c) == OTHER || CategoryName(c) in CATEGORY_KEYS)
  {
    assert !IsDigit(CategoryName(c)[0]);
  }

  lemma {:induction false} PluralKeysUnmarked(s: Selector)
    requires SelectorOk(s) && IsPlural(s.kind)
    ensures forall k :: k in s.exact ==> Unmarked(k)
    ensures forall k :: k in s.keys ==> Unmarked(k)
  {
    forall k | k in s.exact
      ensures Unmarked(k)
    {
      assert IsDigit(k[0]);
    }
  }

  /** Selecting a number among exact keys and categories. */
  lemma {:induction false} NumberSelection(d: Decimal, ordinal: bool, rules: Rules, keys: seq<string>)
    requires forall k :: k in keys ==> Unmarked(k)
    ensures SelectedKeys(Resolved(Num(d), ByNumber(ordinal)), rules, keys) ==
            if NormalText(d) in keys then [NormalText(d)]
            else
              var keyword :=
                match if ordinal then rules.ordinal(d) else rules.cardinal(d)
                case Zero => "zero"
                case One => "one"
                case Two => "two"
                case Few => "few"
                case Many => "many"
                case Other => "other";
              if keyword in keys then [keyword] else []
  {
    hide Normalized, Decimals.Text, FirstEqual;
    NoMarkedKey(keys, d);
  }

  // ----- The target's keys in a selector's columns -----

  predicate Placed(s: Selector, p: Planning, env: Env) {
    SelectorOk(s) && Laid(s, p.columns) && DeclaredIn(s, p.decls, env) && (IsPlural(s.kind) ==> env(s.name).Num?)
  }

  function KeyFor(k: string): VariantKey {
    if k == "" then Catchall else Key(k)
  }

  lemma {:induction false} OneColumnTarget(s: Selector, p: Planning, env: Env, rules: Rules)
    requires Placed(s, p, env) && OneColumn(s)
    ensures Target(p, env, rules)[s.exactCol] == KeyFor(Picked(s, env, rules))
  {
    hide Resolve, Normalized, CATEGORY_KEYS;
    var keys := s.exact + s.keys;
    if IsPlural(s.kind) {
      var d := env(s.name).number;
      PluralKeysUnmarked(s);
      NumberSelection(d, s.kind == OrdinalKind, rules, keys);
      NormalTextStart(d);
      CategoryNotExact(s, d, rules);
      NormalNotCategory(s, d);
    }
  }

  lemma {:induction false} CategoryNotExact(s: Selector, d: Decimal, rules: Rules)
    requires SelectorOk(s)
    ensures CategoryOf(rules, s.kind == OrdinalKind, d) !in s.exact && CategoryOf(rules, s.kind == OrdinalKind, d) != ""
  {
    var c := if s.kind == OrdinalKind then rules.ordinal(d) else rules.cardinal(d);
    CategoryIsNoNumber(c);
  }

  lemma {:induction false} NormalNotCategory(s: Selector, d: Decimal)
    requires SelectorOk(s) && IsPlural(s.kind)
    ensures NormalText(d) !in s.keys && "" !in s.exact && "" !in s.keys
  {
    hide NormalText, CategoryName;
    NormalTextStart(d);
    assert "" !in CATEGORY_KEYS;
  }

  lemma {:induction false} TwoColumnTarget(s: Selector, p: Planning, env: Env, rules: Rules)
    requires Placed(s, p, env) && !OneColumn(s)
    ensures var exact := NormalText(NumberOf(env(s.name)));
            s.exact != [] ==> Target(p, env, rules)[s.exactCol] == if exact in s.exact then Key(exact) else Catchall
    ensures var category := CategoryAt(s, env, rules);
            HasKeyColumn(s) ==> Target(p, env, rules)[s.keyCol] == if category in s.keys then Key(category) else Catchall
  {
    hide Resolve, Normalized;
    var d := env(s.name).number;
    var less := Less(d, s.offset);
    PluralKeysUnmarked(s);
    NumberSelection(d, s.kind == OrdinalKind, rules, s.exact);
    NumberSelection(less, s.kind == OrdinalKind, rules, s.keys);
    CategoryNotExact(s, d, rules);
    NormalNotCategory(s, less);
  }

  /** The target satisfies a case's constraints exactly when the case has the picked key. */
  lemma {:induction false} ConstraintsPick(s: Selector, key: string, p: Planning, env: Env, rules: Rules)
    requires Placed(s, p, env) && ValidKey(s.kind, key) && HasCase(s, key)
    ensures Satisfies(Target(p, env, rules), CaseConstraints(s, key)) <==>
            MergedKey(s.kind, key) == Picked(s, env, rules)
  {
    hide Target, Less, NormalizeExactKey, Normalized, CategoryOf;
    MergedKeyKind(s.kind, key);
    var t := Target(p, env, rules);
    if OneColumn(s) {
      OneColumnTarget(s, p, env, rules);
      SatisfiesOne(t, s, key);
    } else {
      TwoColumnTarget(s, p, env, rules);
      SatisfiesTwo(t, s, key);
      NormalNotCategory(s, NumberOf(env(s.name)));
      CategoryNotExact(s, Less(NumberOf(env(s.name)), s.offset), rules);
    }
  }

  /** Merged keys keep their kind: digits, a named key, or "" for `other`. */
  lemma {:induction false} MergedKeyKind(kind: Kind, key: string)
    requires ValidKey(kind, key)
    ensures IsExact(kind, key) ==> AllDigits(MergedKey(kind, key)) && MergedKey(kind, key) != ""
    ensures IsExact(kind, key) && NormalizableDigits(key[1..]) ==> MergedKey(kind, key) == Itoa(Val(key[1..]))
    ensures !IsExact(kind, key) && key != OTHER ==> MergedKey(kind, key) == key && OrdinaryKey(kind, key)
    ensures MergedKey(kind, key) == "" <==> key == OTHER
  {
    hide Itoa, Val;
    if IsExact(kind, key) {
      NormalizeExactKeyIsCanonical(key[1..]);
      NormalizedIsDigits(key[1..]);
    }
  }

  lemma {:induction false} SatisfiesOne(t: seq<VariantKey>, s: Selector, key: string)
    requires OneColumn(s) && s.keyCol == s.exactCol && 0 <= s.exactCol < |t|
    requires MergedKey(s.kind, key) == "" <==> key == OTHER
    ensures Satisfies(t, CaseConstraints(s, key)) <==> t[s.exactCol] == KeyFor(MergedKey(s.kind, key))
  {
    var cs := CaseConstraints(s, key);
    assert cs == [Constraint(s.exactCol, MergedKey(s.kind, key))];
    assert Satisfies(t, cs) <==> Holds(t, cs[0]);
  }

  predicate HoldsAt(t: seq<VariantKey>, col: int, k: string) {
    0 <= col < |t| && t[col] == KeyFor(k)
  }

  lemma {:induction false} SatisfiesTwo(t: seq<VariantKey>, s: Selector, key: string)
    requires MergedKey(s.kind, key) == "" <==> key == OTHER
    requires s.exactCol != s.keyCol
    ensures Satisfies(t, CaseConstraints(s, key)) <==>
            if IsExact(s.kind, key) then HoldsAt(t, s.exactCol, MergedKey(s.kind, key))
            else if key == OTHER then
              (s.exactCol >= 0 ==> HoldsAt(t, s.exactCol, "")) && (s.keyCol >= 0 ==> HoldsAt(t, s.keyCol, ""))
            else HoldsAt(t, s.keyCol, key) && (s.exactCol >= 0 ==> HoldsAt(t, s.exactCol, ""))
  {
    var cs := CaseConstraints(s, key);
    assert |cs| <= 2;
    assert Satisfies(t, cs) <==> (|cs| > 0 ==> Holds(t, cs[0])) && (|cs| > 1 ==> Holds(t, cs[1]));
  }

  // ----- Which case MF1 chooses -----

  predicate HasMergedKey(t: Token, k: string)
    requires t.Select?
  {
    exists i :: 0 <= i < |t.cases| && MergedKey(t.kind, t.cases[i].key) == k
  }

  /** The keys of a select registered with selector s. */
  predicate RegisteredWith(t: Token, s: Selector)
    requires t.Select?
  {
    && WellFormedSelect(t) && SelectorOk(s) && HasCases(s, t.cases)
    && s.kind == t.kind && s.name == t.arg && s.offset == OffsetOf(t.pluralOffset)
  }

  /** The first case with a merged key. */
  function FirstPicked(cases: seq<Case>, kind: Kind, k: string): (i: nat)
    ensures i <= |cases| && (i < |cases| ==> MergedKey(kind, cases[i].key) == k)
    ensures forall j :: 0 <= j < i ==> MergedKey(kind, cases[j].key) != k
  {
    if cases == [] || MergedKey(kind, cases[0].key) == k then 0 else 1 + FirstPicked(cases[1..], kind, k)
  }

  lemma {:induction false} FirstPickedIs(t: Token, k: string, i: nat)
    requires t.Select? && i < |t.cases| && MergedKey(t.kind, t.cases[i].key) == k
    requires forall j :: 0 <= j < i ==> MergedKey(t.kind, t.cases[j].key) != k
    ensures FirstPicked(t.cases, t.kind, k) == i
  {
    hide FirstPicked, MergedKey;
    var f := FirstPicked(t.cases, t.kind, k);
  }

  /** An exact key that normalizes matches a number exactly when its merged key is that number's
      text. */
  lemma {:induction false} ExactIsNormal(kind: Kind, key: string, d: Decimal)
    requires ValidKey(kind, key) && IsPlural(kind) && (IsExact(kind, key) ==> NormalizableDigits(key[1..]))
    ensures ExactlyMatches(key, d) <==> MergedKey(kind, key) == NormalText(d)
  {
    hide Normalized, Itoa, Val, Decimals.Value, NormalizeExactKey;
    MergedKeyKind(kind, key);
    NormalTextStart(d);
    if IsExact(kind, key) {
      NormalizedInteger(d, Val(key[1..]));
    }
  }

  lemma {:induction false} ChosenExact(t: Token, s: Selector, env: Env, rules: Rules)
    requires t.Select? && RegisteredWith(t, s) && IsPlural(t.kind) && NormalizableKeys(t.kind, t.cases)
    requires HasMergedKey(t, NormalText(NumberOf(env(t.arg))))
    ensures ChosenCase(t, env, rules) == FirstPicked(t.cases, t.kind, NormalText(NumberOf(env(t.arg))))
  {
    hide NormalText, ExactlyMatches, MergedKey, FirstPicked, FirstExact;
    var d := NumberOf(env(t.arg));
    forall j | 0 <= j < |t.cases| ensures ExactlyMatches(t.cases[j].key, d) <==> MergedKey(t.kind, t.cases[j].key) == NormalText(d) {
      ExactIsNormal(t.kind, t.cases[j].key, d);
    }
    var i := FirstExact(t.cases, d);
    var j := CaseWith(t, NormalText(d));
    assert i <= j;
    FirstPickedIs(t, NormalText(d), i);
  }

  lemma {:induction false} NoExact(t: Token, s: Selector, d: Decimal)
    requires t.Select? && RegisteredWith(t, s) && IsPlural(t.kind) && NormalizableKeys(t.kind, t.cases)
    requires NormalText(d) !in s.exact
    ensures FirstExact(t.cases, d) == |t.cases|
  {
    hide NormalText, ExactlyMatches, NormalizeExactKey;
    var i := FirstExact(t.cases, d);
    if i < |t.cases| {
      assert HasCase(s, t.cases[i].key);
      ExactIsNormal(t.kind, t.cases[i].key, d);
      NormalTextStart(d);
      MergedKeyKind(t.kind, t.cases[i].key);
    }
  }

  lemma {:induction false} FirstKeyIsPicked(t: Token, key: string, k: string)
    requires t.Select? && FirstKey(t.cases, key) < |t.cases|
    requires forall i :: 0 <= i < |t.cases| ==> (MergedKey(t.kind, t.cases[i].key) == k <==> t.cases[i].key == key)
    ensures FirstPicked(t.cases, t.kind, k) == FirstKey(t.cases, key)
  {
    hide MergedKey, FirstKey, FirstPicked;
    FirstPickedIs(t, k, FirstKey(t.cases, key));
  }

  /** Among the non-exact cases, the first with the picked key is the one a key and `other` choose. */
  lemma {:induction false} ChosenNamed(t: Token, s: Selector, key: string)
    requires t.Select? && RegisteredWith(t, s)
    requires key in CATEGORY_KEYS || key == OTHER || !IsPlural(t.kind)
    requires HasMergedKey(t, if key in s.keys then key else "")
    ensures KeyOrOther(t.cases, key) == FirstPicked(t.cases, t.kind, if key in s.keys then key else "")
  {
    hide NormalizeExactKey, CATEGORY_KEYS, FirstPicked;
    var k := if key in s.keys then key else "";
    var j := CaseWith(t, k);
    var name := if key in s.keys then key else OTHER;
    forall i | 0 <= i < |t.cases| ensures MergedKey(t.kind, t.cases[i].key) == k <==> t.cases[i].key == name {
      MergedKeyKind(t.kind, t.cases[i].key);
      if t.cases[i].key == key {
        NotExact(t.kind, key, t.cases[i].key);
      }
      if key in s.keys && MergedKey(t.kind, t.cases[i].key) == key {
        NamedCase(t.kind, t.cases[i].key, key);
      }
    }
    assert t.cases[j].key == name;
    FirstKeyIsPicked(t, name, k);
    var i := FirstKey(t.cases, key);
    if key !in s.keys && i < |t.cases| {
      assert HasCase(s, t.cases[i].key);
      NotExact(t.kind, key, t.cases[i].key);
      assert key == OTHER;
    }
  }

  lemma {:induction false} NamedCase(kind: Kind, caseKey: string, key: string)
    requires ValidKey(kind, caseKey) && OrdinaryKey(kind, key) && MergedKey(kind, caseKey) == key
    ensures caseKey == key
  {
    hide NormalizeExactKey;
    MergedKeyKind(kind, caseKey);
    assert IsExact(kind, caseKey) ==> IsDigit(MergedKey(kind, caseKey)[0]);
  }

  lemma {:induction false} NotExact(kind: Kind, key: string, caseKey: string)
    requires caseKey == key && ValidKey(kind, caseKey)
    requires key in CATEGORY_KEYS || key == OTHER || !IsPlural(kind)
    ensures !IsExact(kind, caseKey)
  {
  }

  /** Where a select lists the picked key, the first case with that key is the one MF1 chooses. */
  lemma {:induction false} ChosenIsPicked(t: Token, s: Selector, env: Env, rules: Rules)
    requires t.Select? && RegisteredWith(t, s) && NormalizableKeys(t.kind, t.cases) && HasMergedKey(t, Picked(s, env, rules))
    ensures ChosenCase(t, env, rules) == FirstPicked(t.cases, t.kind, Picked(s, env, rules))
  {
    hide NormalText, Less, WellFormedSelect, KeyOrOther, FirstExact, CATEGORY_KEYS, CategoryName, HasMergedKey, FirstPicked,
         NormalizableKeys;
    if !IsPlural(t.kind) {
      ChosenNamed(t, s, StringOf(env(t.arg)));
    } else {
      var d := NumberOf(env(t.arg));
      if NormalText(d) in s.exact {
        ChosenExact(t, s, env, rules);
      } else {
        NoExact(t, s, d);
        var c := if s.kind == OrdinalKind then rules.ordinal(Less(d, s.offset)) else rules.cardinal(Less(d, s.offset));
        CategoryIsNoNumber(c);
        ChosenNamed(t, s, CategoryAt(s, env, rules));
      }
    }
  }

  // ----- What the lifted message shows -----

  /** MF1 evaluation in which a select shows, one after another, all its cases with the key its
      argument picks: nothing when it lists none, and more than one when it lists several. This,
      and not MF1's own choice of one case, is what lifting implements. */
  function EvalPicked(tokens: seq<Token>, plural: Option<Plural>, sels: seq<Selector>, mapping: Mapping,
                      env: Env, rules: Rules): seq<Piece>
  {
    if tokens == [] then []
    else EvalPickedToken(tokens[0], plural, sels, mapping, env, rules) +
         EvalPicked(tokens[1..], plural, sels, mapping, env, rules)
  }

  function EvalPickedToken(t: Token, plural: Option<Plural>, sels: seq<Selector>, mapping: Mapping,
                           env: Env, rules: Rules): seq<Piece>
  {
    if !t.Select? then EvalLeaf(t, plural, mapping, env)
    else
      var s := Find(sels, t.arg);
      if s < |sels| then EvalPickedCases(t.cases, t.kind, Picked(sels[s], env, rules), Inner(t, plural), sels, mapping, env, rules)
      else []
  }

  function EvalPickedCases(cases: seq<Case>, kind: Kind, k: string, plural: Option<Plural>, sels: seq<Selector>, mapping: Mapping,
                           env: Env, rules: Rules): seq<Piece>
  {
    if cases == [] then []
    else
      (if MergedKey(kind, cases[0].key) == k then EvalPicked(cases[0].tokens, plural, sels, mapping, env, rules) else []) +
      EvalPickedCases(cases[1..], kind, k, plural, sels, mapping, env, rules)
  }

  /** The display variable holds what `#` stands for. */
  predicate Displays(display: Option<string>, plural: Option<Plural>, decls: seq<Declaration>, env: Env) {
    match (display, plural)
    case (None, None) => true
    case (Some(v), Some(p)) =>
      Resolve(decls, env, v).value == if p.offset == 0 then env(p.arg) else Num(Less(NumberOf(env(p.arg)), p.offset))
    case _ => false
  }

  /** A collected and planned message, at one assignment of values. */
  predicate Planned(p: Planning, arguments: set<string>, env: Env) {
    && SelectorsOk(p.sels)
    && PlanShape(p, arguments) && PlanMeaning(p, arguments, env)
    && Typed(p.sels, env)
  }

  lemma {:induction false} PlannedSelector(p: Planning, arguments: set<string>, env: Env, i: nat)
    requires Planned(p, arguments, env) && i < |p.sels|
    ensures Placed(p.sels[i], p, env)
  {
  }

  lemma {:induction false} ShowLeaf(t: Token, display: Option<string>, plural: Option<Plural>, p: Planning, arguments: set<string>,
                 mapping: Mapping, env: Env)
    requires Planned(p, arguments, env) && Displays(display, plural, p.decls, env)
    requires !t.Select? && NamedToken(t, arguments) && LeafElement(t, display, mapping).Some?
    ensures Show(p.decls, env, [LeafElement(t, display, mapping).value]) == EvalLeaf(t, plural, mapping, env)
  {
    hide Resolve, PlanShape;
    var e := LeafElement(t, display, mapping).value;
    assert Show(p.decls, env, [e]) == ShowElement(p.decls, env, e) + [];
  }

  lemma {:induction false} DisplaysInner(t: Token, i: nat, display: Option<string>, plural: Option<Plural>, p: Planning, env: Env)
    requires t.Select? && i < |p.sels| && RegisteredWith(t, p.sels[i]) && Placed(p.sels[i], p, env)
    requires Displays(display, plural, p.decls, env)
    ensures Displays(InnerDisplay(p.sels[i], display), Inner(t, plural), p.decls, env)
  {
    hide Resolve, Less;
  }

  lemma {:induction false} LeafConvertible(t: Token, display: Option<string>, mapping: Mapping)
    requires !t.Select? && ConvertibleToken(t, mapping)
    ensures LeafElement(t, display, mapping).Some?
  {
  }

  lemma {:induction false} ShowLeaves(tokens: seq<Token>, display: Option<string>, plural: Option<Plural>, p: Planning,
                                      arguments: set<string>, mapping: Mapping, env: Env, rules: Rules)
    requires Planned(p, arguments, env) && Displays(display, plural, p.decls, env)
    requires WellFormed(tokens) && Registered(tokens, p.sels) && Named(tokens, arguments) && Convertible(tokens, mapping)
    ensures Show(p.decls, env, Leaves(tokens, display, Target(p, env, rules), p.sels, mapping)) ==
            EvalPicked(tokens, plural, p.sels, mapping, env, rules)
    decreases tokens
  {
    hide Planned, Displays, Target, RegisteredToken, WellFormedToken, NamedToken, ConvertibleToken, ShowElement;
    if tokens != [] {
      var t := Target(p, env, rules);
      ShowLeavesOf(tokens[0], display, plural, p, arguments, mapping, env, rules);
      ShowLeaves(tokens[1..], display, plural, p, arguments, mapping, env, rules);
      ShowConcat(p.decls, env, LeavesOf(tokens[0], display, t, p.sels, mapping),
                 Leaves(tokens[1..], display, t, p.sels, mapping));
    }
  }

  lemma {:induction false} ShowLeavesOf(t: Token, display: Option<string>, plural: Option<Plural>, p: Planning,
                                        arguments: set<string>, mapping: Mapping, env: Env, rules: Rules)
    requires Planned(p, arguments, env) && Displays(display, plural, p.decls, env)
    requires WellFormedToken(t) && RegisteredToken(t, p.sels) && NamedToken(t, arguments) && ConvertibleToken(t, mapping)
    ensures Show(p.decls, env, LeavesOf(t, display, Target(p, env, rules), p.sels, mapping)) ==
            EvalPickedToken(t, plural, p.sels, mapping, env, rules)
    decreases t
  {
    hide Planned, Displays, Target, SelectorOk, WellFormedSelect, Picked, ShowElement, LeavesOfCases, EvalPickedCases;
    if !t.Select? {
      LeafConvertible(t, display, mapping);
      ShowLeaf(t, display, plural, p, arguments, mapping, env);
    } else {
      var i := Find(p.sels, t.arg);
      PlannedSelector(p, arguments, env, i);
      RegisteredIsWith(t, p, arguments, env);
      DisplaysInner(t, i, display, plural, p, env);
      ShowLeavesOfRest(t, 0, i, InnerDisplay(p.sels[i], display), Inner(t, plural), p, arguments, mapping, env, rules);
      assert t.cases[0..] == t.cases;
    }
  }

  lemma {:induction false} RegisteredIsWith(t: Token, p: Planning, arguments: set<string>, env: Env)
    requires t.Select? && Planned(p, arguments, env) && WellFormedToken(t) && RegisteredToken(t, p.sels)
    ensures Find(p.sels, t.arg) < |p.sels| && RegisteredWith(t, p.sels[Find(p.sels, t.arg)])
  {
  }

  lemma {:induction false} CaseWith(t: Token, k: string) returns (j: nat)
    requires t.Select? && HasMergedKey(t, k)
    ensures j < |t.cases| && MergedKey(t.kind, t.cases[j].key) == k
  {
    j :| 0 <= j < |t.cases| && MergedKey(t.kind, t.cases[j].key) == k;
  }

  predicate RestOk(t: Token, n: nat, p: Planning, arguments: set<string>, mapping: Mapping)
    requires t.Select? && n <= |t.cases|
  {
    var rest := t.cases[n..];
    WellFormedCases(rest) && RegisteredCases(rest, p.sels) && NamedCases(rest, arguments) && ConvertibleCases(rest, mapping)
  }

  lemma {:induction false} RestOkNext(t: Token, n: nat, p: Planning, arguments: set<string>, mapping: Mapping)
    requires t.Select? && n < |t.cases| && RestOk(t, n, p, arguments, mapping)
    ensures RestOk(t, n + 1, p, arguments, mapping)
    ensures var ts := t.cases[n].tokens;
            WellFormed(ts) && Registered(ts, p.sels) && Named(ts, arguments) && Convertible(ts, mapping)
  {
    assert t.cases[n..][1..] == t.cases[n + 1..];
    assert t.cases[n..][0] == t.cases[n];
  }

  /** The cases of one select from the n-th on: those with the picked key contribute their leaves. */
  lemma {:induction false} ShowLeavesOfRest(t: Token, n: nat, i: nat, display: Option<string>, plural: Option<Plural>,
                                            p: Planning, arguments: set<string>, mapping: Mapping, env: Env, rules: Rules)
    requires Planned(p, arguments, env) && Displays(display, plural, p.decls, env)
    requires t.Select? && i < |p.sels| && RegisteredWith(t, p.sels[i])
    requires n <= |t.cases| && RestOk(t, n, p, arguments, mapping)
    ensures Show(p.decls, env, LeavesOfCases(t.cases[n..], p.sels[i], display, Target(p, env, rules), p.sels, mapping)) ==
            EvalPickedCases(t.cases[n..], t.kind, Picked(p.sels[i], env, rules), plural, p.sels, mapping, env, rules)
    decreases t, 0, |t.cases| - n
  {
    hide Planned, Displays, Target, Picked, RestOk, SelectorOk, CaseConstraints, Satisfies, ShowElement, MergedKey, ValidKey;
    if n < |t.cases| {
      var target := Target(p, env, rules);
      RestOkNext(t, n, p, arguments, mapping);
      PlannedSelector(p, arguments, env, i);
      CaseIsRegistered(t, n, p.sels[i]);
      ConstraintsPick(p.sels[i], t.cases[n].key, p, env, rules);
      ShowLeavesOfRest(t, n + 1, i, display, plural, p, arguments, mapping, env, rules);
      assert t.cases[n..][1..] == t.cases[n + 1..];
      assert t.cases[n..][0] == t.cases[n];
      var rest := LeavesOfCases(t.cases[n + 1..], p.sels[i], display, target, p.sels, mapping);
      var here := Leaves(t.cases[n].tokens, display, target, p.sels, mapping);
      ShowLeaves(t.cases[n].tokens, display, plural, p, arguments, mapping, env, rules);
      ShowConcat(p.decls, env, here, rest);
      assert [] + rest == rest;
    }
  }

  lemma {:induction false} CaseIsRegistered(t: Token, n: nat, s: Selector)
    requires t.Select? && n < |t.cases| && RegisteredWith(t, s)
    ensures ValidKey(s.kind, t.cases[n].key) && HasCase(s, t.cases[n].key)
  {
  }
}
