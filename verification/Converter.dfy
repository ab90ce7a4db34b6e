/** mf1Converter (messageformat/mf1.go): the object that fills selectors, columns and variants
    step by step, proved to compute the functions of module Lifting. */
module Converter {
  import opened Digits
  import opened Mf2
  import opened Mf1
  import opened Lifting
  import opened LiftingSuccess
  import opened CollectProofs
  import opened PlanProofs
  import opened VariantProofs
  import opened LiftingTheorem

  /** A selector record, shared between the selector list and the name index. */
  class Record {
    var value: Selector

    constructor (value: Selector)
      ensures this.value == value
    {
      this.value := value;
    }
  }

  // ----- Facts the loops use -----

  /** What a variant's pattern becomes when the tokens' leaves are appended under a filter. */
  function Received(v: Variant, filter: seq<Constraint>, tokens: seq<Token>, display: Option<string>,
                    sels: seq<Selector>, mapping: Mapping): Pattern
  {
    if Satisfies(v.keys, filter) then AppendAll(v.value, Leaves(tokens, display, v.keys, sels, mapping)) else v.value
  }

  function ReceivedCases(v: Variant, filter: seq<Constraint>, cases: seq<Case>, s: Selector, display: Option<string>,
                         sels: seq<Selector>, mapping: Mapping): Pattern
  {
    if Satisfies(v.keys, filter)
    then AppendAll(v.value, LeavesOfCases(cases, s, display, v.keys, sels, mapping)) else v.value
  }

  lemma {:induction false} AppendAllConcat(p: Pattern, a: Pattern, b: Pattern)
    ensures AppendAll(p, a + b) == AppendAll(AppendAll(p, a), b)
    decreases |a|
  {
    hide AppendElement;
    if a == [] {
      assert a + b == b;
    } else {
      AppendAllConcat(AppendElement(p, a[0]), a[1..], b);
      assert (a + b)[1..] == a[1..] + b;
    }
  }

  lemma {:induction false} SatisfiesConcat(keys: seq<VariantKey>, a: seq<Constraint>, b: seq<Constraint>)
    ensures Satisfies(keys, a + b) <==> Satisfies(keys, a) && Satisfies(keys, b)
  {
    hide Holds;
    if Satisfies(keys, a + b) {
      forall i | 0 <= i < |b| ensures Holds(keys, b[i]) {
        assert (a + b)[|a| + i] == b[i];
      }
      forall i | 0 <= i < |a| ensures Holds(keys, a[i]) {
        assert (a + b)[i] == a[i];
      }
    }
  }

  lemma {:induction false} ReceivedLeaf(v: Variant, filter: seq<Constraint>, tokens: seq<Token>, display: Option<string>,
                     sels: seq<Selector>, mapping: Mapping)
    requires tokens != [] && !tokens[0].Select? && LeafElement(tokens[0], display, mapping).Some?
    ensures var e := LeafElement(tokens[0], display, mapping).value;
            Received(v, filter, tokens, display, sels, mapping) ==
            Received(if Satisfies(v.keys, filter) then v.(value := AppendElement(v.value, e)) else v,
                     filter, tokens[1..], display, sels, mapping)
  {
    var e := LeafElement(tokens[0], display, mapping).value;
    var rest := Leaves(tokens[1..], display, v.keys, sels, mapping);
    assert Leaves(tokens, display, v.keys, sels, mapping) == [e] + rest;
    AppendAllConcat(v.value, [e], rest);
    assert [e][1..] == [];
    assert AppendAll(v.value, [e]) == AppendElement(v.value, e);
  }

  lemma {:induction false} ReceivedSelect(v: Variant, filter: seq<Constraint>, tokens: seq<Token>, display: Option<string>,
                       sels: seq<Selector>, mapping: Mapping)
    requires tokens != [] && tokens[0].Select? && Find(sels, tokens[0].arg) < |sels|
    ensures var s := sels[Find(sels, tokens[0].arg)];
            Received(v, filter, tokens, display, sels, mapping) ==
            Received(v.(value := ReceivedCases(v, filter, tokens[0].cases, s, InnerDisplay(s, display), sels, mapping)),
                     filter, tokens[1..], display, sels, mapping)
  {
    AppendAllConcat(v.value, LeavesOf(tokens[0], display, v.keys, sels, mapping),
                    Leaves(tokens[1..], display, v.keys, sels, mapping));
  }

  lemma {:induction false} ReceivedCase(v: Variant, filter: seq<Constraint>, cases: seq<Case>, s: Selector, display: Option<string>,
                     sels: seq<Selector>, mapping: Mapping)
    requires cases != []
    ensures ReceivedCases(v, filter, cases, s, display, sels, mapping) ==
            ReceivedCases(v.(value := Received(v, filter + CaseConstraints(s, cases[0].key), cases[0].tokens, display, sels, mapping)),
                          filter, cases[1..], s, display, sels, mapping)
  {
    hide CaseConstraints, Satisfies;
    var cs := CaseConstraints(s, cases[0].key);
    SatisfiesConcat(v.keys, filter, cs);
    var here := if Satisfies(v.keys, cs) then Leaves(cases[0].tokens, display, v.keys, sels, mapping) else [];
    AppendAllConcat(v.value, here, LeavesOfCases(cases[1..], s, display, v.keys, sels, mapping));
  }

  /** Every constraint a select's cases make names an existing column. */
  predicate WithinColumns(tokens: seq<Token>, sels: seq<Selector>, width: nat) {
    tokens == [] || (WithinColumnsToken(tokens[0], sels, width) && WithinColumns(tokens[1..], sels, width))
  }

  predicate WithinColumnsToken(t: Token, sels: seq<Selector>, width: nat) {
    t.Select? ==>
      var i := Find(sels, t.arg);
      i < |sels| && WithinColumnsCases(t.cases, sels[i], sels, width)
  }

  predicate WithinColumnsCases(cases: seq<Case>, s: Selector, sels: seq<Selector>, width: nat) {
    cases == [] ||
    (InRange(CaseConstraints(s, cases[0].key), width) && WithinColumns(cases[0].tokens, sels, width) &&
     WithinColumnsCases(cases[1..], s, sels, width))
  }

  lemma {:induction false} CaseWithin(s: Selector, key: string, columns: seq<Column>)
    requires Laid(s, columns) && HasCase(s, key)
    ensures InRange(CaseConstraints(s, key), |columns|)
  {
  }

  lemma {:induction false} RegisteredWithin(tokens: seq<Token>, sels: seq<Selector>, columns: seq<Column>)
    requires Registered(tokens, sels) && forall i :: 0 <= i < |sels| ==> Laid(sels[i], columns)
    ensures WithinColumns(tokens, sels, |columns|)
    decreases tokens
  {
    hide Laid;
    if tokens != [] {
      if tokens[0].Select? {
        RegisteredCasesWithin(tokens[0].cases, sels[Find(sels, tokens[0].arg)], sels, columns);
      }
      RegisteredWithin(tokens[1..], sels, columns);
    }
  }

  lemma {:induction false} RegisteredCasesWithin(cases: seq<Case>, s: Selector, sels: seq<Selector>, columns: seq<Column>)
    requires RegisteredCases(cases, sels) && HasCases(s, cases) && Laid(s, columns)
    requires forall i :: 0 <= i < |sels| ==> Laid(sels[i], columns)
    ensures WithinColumnsCases(cases, s, sels, |columns|)
    decreases cases
  {
    hide Laid, HasCase;
    if cases != [] {
      assert HasCase(s, cases[0].key);
      CaseWithin(s, cases[0].key, columns);
      RegisteredWithin(cases[0].tokens, sels, columns);
      forall i | 0 <= i < |cases[1..]| ensures HasCase(s, cases[1..][i].key) {
        assert cases[1..][i] == cases[i + 1];
      }
      RegisteredCasesWithin(cases[1..], s, sels, columns);
    }
  }

  lemma {:induction false} SpreadAllAppend(prefixes: seq<seq<VariantKey>>, prefix: seq<VariantKey>, options: seq<VariantKey>)
    ensures SpreadAll(prefixes + [prefix], options) == SpreadAll(prefixes, options) + Spread(prefix, options)
  {
    if prefixes == [] {
      assert [prefix][1..] == [];
      assert [] + [prefix] == [prefix];
    } else {
      SpreadAllAppend(prefixes[1..], prefix, options);
      assert (prefixes + [prefix])[1..] == prefixes[1..] + [prefix];
    }
  }

  lemma {:induction false} VariantCountGrows(columns: seq<Column>, n: nat)
    requires n <= |columns|
    ensures VariantCount(columns[..n]) <= VariantCount(columns)
  {
    if n == |columns| {
      assert columns[..n] == columns;
    } else {
      var m := |columns| - 1;
      VariantCountGrows(columns[..m], n);
      assert columns[..m][..n] == columns[..n];
      var c, k := VariantCount(columns[..m]), |columns[m].keys|;
      assert c * (k + 1) == c * k + c;
    }
  }

  lemma {:induction false} VariantCountNext(columns: seq<Column>, n: nat)
    requires n < |columns|
    ensures VariantCount(columns[..n + 1]) == VariantCount(columns[..n]) * (|columns[n].keys| + 1)
    ensures Product(columns[..n + 1]) == SpreadAll(Product(columns[..n]), Options(columns[n]))
  {
    assert columns[..n + 1][..n] == columns[..n];
  }

  lemma {:induction false} PlanSelectorAppends(p: Planning, s: Selector)
    ensures var q, r := PlanSelector(p, s), PlanSelector(p.(sels := []), s);
            q == r.(sels := p.sels + r.sels)
  {
    hide Lifting.UniqueName;
  }

  lemma {:induction false} PlanSelectorName(s: Selector, decls: seq<Declaration>, columns: seq<Column>, names: set<string>)
    ensures var q := PlanSelector(Planning([], decls, columns, names), s);
            |q.sels| == 1 && q.sels[0].name == s.name
  {
    hide Lifting.UniqueName;
  }

  function Display(plural: Record?): Option<string>
    reads plural
  {
    if plural == null then None else Some(plural.value.displayVar)
  }

  lemma {:induction false} SelectWithin(t: Token, sels: seq<Selector>, width: nat)
    requires t.Select? && WithinColumnsToken(t, sels, width)
    ensures Find(sels, t.arg) < |sels|
  {
  }

  lemma {:induction false} SameLeaf(t: Token, display: Option<string>, mapping: Mapping)
    requires !t.Select?
    ensures LeafElement(t, display, mapping).Some? <==> ConvertibleToken(t, mapping)
  {
  }

  lemma {:induction false} ReceivedNothing(v: Variant, filter: seq<Constraint>, display: Option<string>, sels: seq<Selector>, mapping: Mapping)
    ensures Received(v, filter, [], display, sels, mapping) == v.value
  {
  }

  lemma {:induction false} ReceivedNoCases(v: Variant, filter: seq<Constraint>, s: Selector, display: Option<string>, sels: seq<Selector>,
                        mapping: Mapping)
    ensures ReceivedCases(v, filter, [], s, display, sels, mapping) == v.value
  {
  }

  lemma {:induction false} InRangeConcat(a: seq<Constraint>, b: seq<Constraint>, width: nat)
    requires InRange(a, width) && InRange(b, width)
    ensures InRange(a + b, width)
  {
  }

  lemma {:induction false} PlannedWithin(tokens: seq<Token>, a: Analysis)
    requires WellFormed(tokens) && Collect(tokens, Analysis([], {})) == Some(a)
    ensures var p := PlanOf(a); WithinColumns(tokens, p.sels, |p.columns|)
  {
    hide WellFormed, Collect, Plan, Registered, Laid, WithinColumns, SelectorsOk, DeclaredIn, Named;
    var env: Env := _ => Num(Decimals.Integer(0));
    var b, p := CollectedPlan(tokens, env);
    RegisteredWithin(tokens, p.sels, p.columns);
  }

  lemma {:induction false} EmptiedFit(columns: seq<Column>)
    ensures forall v :: v in Emptied(Product(columns)) ==> |v.keys| == |columns|
  {
    hide Product;
    var vs := Emptied(Product(columns));
    forall v | v in vs
      ensures |v.keys| == |columns|
    {
      var i :| 0 <= i < |vs| && vs[i] == v;
      assert v.keys == Product(columns)[i];
      ProductMembers(columns, v.keys);
    }
  }

  /** Filling empty variants through an empty filter gives every variant its own leaves. */
  lemma {:induction false} FilledByParts(keys: seq<seq<VariantKey>>, vs: seq<Variant>, tokens: seq<Token>, sels: seq<Selector>, mapping: Mapping)
    requires |vs| == |keys|
    requires forall i :: 0 <= i < |vs| ==>
      vs[i].keys == keys[i] && vs[i].value == Received(Emptied(keys)[i], [], tokens, None, sels, mapping)
    ensures vs == Fill(keys, tokens, sels, mapping)
  {
    hide Leaves, AppendAll;
    forall i | 0 <= i < |vs|
      ensures vs[i] == Fill(keys, tokens, sels, mapping)[i]
    {
      assert Satisfies(keys[i], []);
    }
  }

  lemma {:induction false} EmptyProduct()
    ensures VariantCount([]) == 1 && Product([]) == [[]]
  {
  }

  function Emptied(keys: seq<seq<VariantKey>>): (vs: seq<Variant>)
    ensures |vs| == |keys| && forall i :: 0 <= i < |vs| ==> vs[i] == Variant(keys[i], [])
  {
    seq(|keys|, i requires 0 <= i < |keys| => Variant(keys[i], []))
  }

  // ----- The converter -----

  ghost function ValuesOf(records: seq<Record>): (vs: seq<Selector>)
    reads records
    ensures |vs| == |records| && forall i :: 0 <= i < |vs| ==> vs[i] == records[i].value
  {
    seq(|records|, i requires 0 <= i < |records| reads records => records[i].value)
  }

  class MessageConverter {
    const tokens: seq<Token>
    const mapping: Mapping
    var selectors: seq<Record>
    var byName: map<string, Record>
    var names: set<string>
    var columns: seq<Column>
    var variants: seq<Variant>

    constructor (tokens: seq<Token>, mapping: Mapping)
      ensures Valid() && this.tokens == tokens && this.mapping == mapping
      ensures selectors == [] && names == {} && columns == [] && variants == []
    {
      this.tokens, this.mapping := tokens, mapping;
      selectors, byName, names, columns, variants := [], map[], {}, [], [];
    }

    /** The name index leads to the listed records, one for each argument. */
    ghost predicate Valid()
      reads this`selectors, this`byName, selectors
    {
      && (forall i, j :: 0 <= i < j < |selectors| ==> selectors[i] != selectors[j])
      && (forall i :: 0 <= i < |selectors| ==>
            selectors[i].value.name in byName && byName[selectors[i].value.name] == selectors[i])
      && (forall n :: n in byName ==> byName[n] in selectors && byName[n].value.name == n)
    }

    ghost function Values(): (vs: seq<Selector>)
      reads this`selectors, selectors
      ensures |vs| == |selectors| && forall i :: 0 <= i < |vs| ==> vs[i] == selectors[i].value
    {
      ValuesOf(selectors)
    }

    ghost function State(): Analysis
      reads this`selectors, this`names, selectors
    {
      Analysis(Values(), names)
    }

    lemma {:induction false} IndexFinds(name: string)
      requires Valid()
      ensures name in byName <==> Find(Values(), name) < |selectors|
      ensures name in byName ==> byName[name] == selectors[Find(Values(), name)]
    {
      var i := Find(Values(), name);
      if name in byName {
        var k :| 0 <= k < |selectors| && selectors[k] == byName[name];
        assert Values()[k].name == name;
      }
    }

    /** Fills the selector records, their index and the set of names from a list of tokens. */
    method Collect(ts: seq<Token>) returns (ok: bool)
      requires Valid()
      modifies this`selectors, this`byName, this`names, selectors
      ensures Valid() && forall c :: c in selectors && c !in old(selectors) ==> fresh(c)
      ensures ok == Lifting.Collect(ts, old(State())).Some?
      ensures ok ==> State() == Lifting.Collect(ts, old(State())).value
      decreases ts, 1
    {
      hide Lifting.AddSelector, Lifting.CollectCases;
      ghost var start := State();
      for i := 0 to |ts|
        invariant Valid() && forall c :: c in selectors && c !in old(selectors) ==> fresh(c)
        invariant Lifting.Collect(ts[i..], State()) == Lifting.Collect(ts, start)
      {
        assert ts[i..][1..] == ts[i + 1..];
        match ts[i] {
          case PlainArg(arg) => names := names + {arg};
          case FunctionArg(arg, _, _) => names := names + {arg};
          case Select(_, _, _, _) =>
            ok := CollectSelect(ts[i]);
            if !ok {
              return;
            }
          case Content(_) =>
          case Octothorpe =>
        }
      }
      ok := true;
    }

    method CollectSelect(t: Token) returns (ok: bool)
      requires Valid() && t.Select?
      modifies this`selectors, this`byName, this`names, selectors
      ensures Valid() && forall c :: c in selectors && c !in old(selectors) ==> fresh(c)
      ensures ok == Lifting.CollectToken(t, old(State())).Some?
      ensures ok ==> State() == Lifting.CollectToken(t, old(State())).value
      decreases t, 0
    {
      hide Lifting.AddSelector, Lifting.Collect;
      names := names + {t.arg};
      ok := AddSelector(t);
      if !ok {
        return;
      }
      ghost var added := State();
      for k := 0 to |t.cases|
        invariant Valid() && forall c :: c in selectors && c !in old(selectors) ==> fresh(c)
        invariant Lifting.CollectCases(t.cases[k..], State()) == Lifting.CollectCases(t.cases, added)
      {
        assert t.cases[k..][1..] == t.cases[k + 1..];
        ok := Collect(t.cases[k].tokens);
        if !ok {
          return;
        }
      }
      ok := true;
    }

    method AddSelector(t: Token) returns (ok: bool)
      requires Valid() && t.Select?
      modifies this`selectors, this`byName, selectors
      ensures Valid() && forall c :: c in selectors && c !in old(selectors) ==> fresh(c)
      ensures ok == Lifting.AddSelector(old(Values()), t).Some?
      ensures ok ==> Values() == Lifting.AddSelector(old(Values()), t).value
    {
      hide Lifting.AddKeys, Find;
      IndexFinds(t.arg);
      if t.arg !in byName {
        NewRecord(t);
        return true;
      }
      var sel := byName[t.arg];
      if sel.value.kind != t.kind || sel.value.offset != OffsetOf(t.pluralOffset) {
        return false;
      }
      ghost var was := Values();
      ghost var i := Find(was, t.arg);
      assert selectors[i] == sel;
      AddKeys(sel, t.cases);
      assert Values() == was[i := sel.value];
      ok := true;
    }

    method NewRecord(t: Token)
      requires Valid() && t.Select? && t.arg !in byName
      modifies this`selectors, this`byName
      ensures Valid() && forall c :: c in selectors && c !in old(selectors) ==> fresh(c)
      ensures Values() == old(Values()) + [Lifting.AddKeys(NewSelector(t), t.cases)]
    {
      hide Lifting.AddKeys;
      AddKeysName(NewSelector(t), t.cases);
      var sel := new Record(NewSelector(t));
      AddKeys(sel, t.cases);
      byName := byName[t.arg := sel];
      selectors := selectors + [sel];
    }

    /** Merges the case keys of a select into its argument's record, whichever way it was reached. */
    method AddKeys(sel: Record, cases: seq<Case>)
      modifies sel
      ensures sel.value == Lifting.AddKeys(old(sel.value), cases)
      ensures sel.value.name == old(sel.value.name)
    {
      for k := 0 to |cases|
        invariant sel.value.name == old(sel.value.name)
        invariant Lifting.AddKeys(sel.value, cases[k..]) == Lifting.AddKeys(old(sel.value), cases)
      {
        assert cases[k..][1..] == cases[k + 1..];
        var s, key := sel.value, cases[k].key;
        if key == OTHER {
        } else if IsPlural(s.kind) && key != "" && key[0] == '=' {
          sel.value := s.(exact := AppendUnique(s.exact, NormalizeExactKey(key[1..])));
        } else {
          sel.value := s.(keys := AppendUnique(s.keys, key));
        }
      }
    }

    // ----- Planning -----

    method UniqueName(base: string) returns (name: string)
      modifies this`names
      ensures name == Lifting.UniqueName(base, old(names)) && names == old(names) + {name}
    {
      name := base;
      var i := 2;
      while name in names
        invariant names == old(names)
        invariant (if name !in names then name else FreshCandidate(base, i, names)) == Lifting.UniqueName(base, names)
        decreases TakenFrom(base, i, names), name in names
      {
        assert TakenFrom(base, i + 1, names) <= TakenFrom(base, i, names);
        if Candidate(base, i) in names {
          FewerTaken(base, i, names);
        }
        name := Candidate(base, i);
        i := i + 1;
      }
      names := names + {name};
    }

    method AddColumn(variable: string, keys: seq<string>) returns (n: int)
      modifies this`columns
      ensures columns == old(columns) + [Column(variable, keys)] && n == |old(columns)|
    {
      columns := columns + [Column(variable, keys)];
      n := |columns| - 1;
    }

    ghost function Planned(done: nat, decls: seq<Declaration>): Planning
      requires done <= |selectors|
      reads this`selectors, this`columns, this`names, selectors
    {
      Planning(Values()[..done], decls, columns, names)
    }

    /** Assigns every selector its columns, writing them into its record. */
    method PlanColumns() returns (decls: seq<Declaration>)
      requires Valid() && columns == []
      modifies this`columns, this`names, selectors
      ensures Valid()
      ensures Planned(|selectors|, decls) == Plan(Planning([], [], [], old(names)), old(Values()))
    {
      decls := [];
      ghost var was := Values();
      for i := 0 to |selectors|
        invariant Valid() && Values()[i..] == was[i..]
        invariant Plan(Planned(i, decls), was[i..]) == Plan(Planning([], [], [], old(names)), was)
      {
        assert Values()[i] == Values()[i..][0] == was[i];
        assert was[i..][1..] == was[i + 1..];
        decls := PlanOne(i, decls);
      }
    }

    method PlanOne(i: nat, before: seq<Declaration>) returns (decls: seq<Declaration>)
      requires Valid() && i < |selectors|
      modifies this`columns, this`names, selectors[i]
      ensures Valid() && Values() == old(Values())[i := Values()[i]]
      ensures Planned(i + 1, decls) == PlanSelector(old(Planned(i, before)), old(Values()[i]))
    {
      hide PlanSelector;
      ghost var was := Values();
      PlanSelectorAppends(Planned(i, before), was[i]);
      PlanSelectorName(was[i], before, columns, names);
      var planned;
      decls, planned := PlanValue(selectors[i].value, before);
      selectors[i].value := planned;
      assert Values() == was[i := planned];
      assert Values()[..i + 1] == was[..i] + [planned];
    }

    /** The declarations and columns of one selector, and the selector with its columns set. */
    method PlanValue(s: Selector, before: seq<Declaration>) returns (decls: seq<Declaration>, planned: Selector)
      modifies this`columns, this`names
      ensures Planning([planned], decls, columns, names) ==
              PlanSelector(Planning([], before, old(columns), old(names)), s)
    {
      hide Lifting.UniqueName, FormatInt;
      decls := before + [InputDeclaration(s)];
      if !IsPlural(s.kind) || s.offset == 0 {
        var col := AddColumn(s.name, s.exact + s.keys);
        planned := s.(displayVar := s.name, exactCol := col, keyCol := col);
        return;
      }
      var local := UniqueName(s.name + "_minus_" + FormatInt(s.offset));
      decls := decls + [OffsetDeclaration(s, local)];
      var exact, key := -1, -1;
      if |s.exact| > 0 {
        exact := AddColumn(s.name, s.exact);
      }
      if |s.keys| > 0 || |s.exact| == 0 {
        key := AddColumn(local, s.keys);
      }
      planned := s.(displayVar := local, exactCol := exact, keyCol := key);
    }

    // ----- Variants -----

    /** One variant for each choice of options, unless there would be too many. */
    method BuildVariants() returns (ok: bool)
      modifies this`variants
      ensures ok <==> VariantCount(columns) <= 4096
      ensures ok ==> variants == Emptied(Product(columns))
    {
      hide VariantCount, Product, SpreadAll;
      var total := 1;
      assert VariantCount(columns[..0]) == 1 && Product(columns[..0]) == [[]] by { EmptyProduct(); assert columns[..0] == []; }
      for i := 0 to |columns|
        invariant total == VariantCount(columns[..i]) && total <= MAX_VARIANTS
      {
        VariantCountNext(columns, i);
        VariantCountGrows(columns, i + 1);
        total := total * (|columns[i].keys| + 1);
        if total > MAX_VARIANTS {
          return false;
        }
      }
      var keys: seq<seq<VariantKey>> := [[]];
      for i := 0 to |columns|
        invariant keys == Product(columns[..i])
      {
        VariantCountNext(columns, i);
        keys := Extend(keys, columns[i]);
      }
      assert columns[..|columns|] == columns;
      variants := Emptied(keys);
      ok := true;
    }

    /** Every prefix with every option of a column, prefixes outermost. */
    method Extend(prefixes: seq<seq<VariantKey>>, c: Column) returns (next: seq<seq<VariantKey>>)
      ensures next == SpreadAll(prefixes, Options(c))
    {
      var options := [];
      for k := 0 to |c.keys|
        invariant |options| == k && forall n :: 0 <= n < k ==> options[n] == Key(c.keys[n])
      {
        options := options + [Key(c.keys[k])];
      }
      options := options + [Catchall];
      assert options == Options(c);
      next := [];
      assert prefixes[..0] == [];
      for i := 0 to |prefixes|
        invariant next == SpreadAll(prefixes[..i], options)
      {
        SpreadAllAppend(prefixes[..i], prefixes[i], options);
        assert prefixes[..i + 1] == prefixes[..i] + [prefixes[i]];
        ghost var before := next;
        for k := 0 to |options|
          invariant next == before + Spread(prefixes[i], options)[..k]
        {
          next := next + [prefixes[i] + [options[k]]];
        }
      }
      assert prefixes[..|prefixes|] == prefixes;
    }

    // ----- Filling patterns -----

    method VariantMatches(keys: seq<VariantKey>, filter: seq<Constraint>) returns (r: bool)
      requires InRange(filter, |keys|)
      ensures r == Satisfies(keys, filter)
    {
      for i := 0 to |filter|
        invariant forall j :: 0 <= j < i ==> Holds(keys, filter[j])
      {
        var f, k := filter[i], keys[filter[i].col];
        if f.key == "" {
          if !k.Catchall? {
            return false;
          }
        } else if k.Catchall? || k.value != f.key {
          return false;
        }
      }
      r := true;
    }

    /** Appends an element to every variant that satisfies the filter, in place. */
    method AppendMatching(e: Element, filter: seq<Constraint>)
      requires InRange(filter, |columns|) && forall v :: v in variants ==> |v.keys| == |columns|
      modifies this`variants
      ensures |variants| == |old(variants)|
      ensures forall i :: 0 <= i < |variants| ==>
        variants[i] == var v := old(variants)[i];
                       if Satisfies(v.keys, filter) then v.(value := AppendElement(v.value, e)) else v
    {
      for i := 0 to |variants|
        invariant |variants| == |old(variants)|
        invariant forall j :: i <= j < |variants| ==> variants[j] == old(variants)[j]
        invariant forall j :: 0 <= j < i ==>
          variants[j] == var v := old(variants)[j];
                         if Satisfies(v.keys, filter) then v.(value := AppendElement(v.value, e)) else v
      {
        var v := variants[i];
        assert v == old(variants)[i] && v in old(variants);
        var matching := VariantMatches(v.keys, filter);
        if matching {
          variants := variants[i := v.(value := AppendElement(v.value, e))];
        }
      }
    }

    predicate KeysFit()
      reads this`variants, this`columns
    {
      forall i :: 0 <= i < |variants| ==> |variants[i].keys| == |columns|
    }

    /** Appends every leaf to each variant that satisfies the filter; plural is the record of the
        innermost enclosing plural, or null. */
    method AddParts(ts: seq<Token>, plural: Record?, filter: seq<Constraint>) returns (ok: bool)
      requires Valid() && KeysFit() && InRange(filter, |columns|) && WithinColumns(ts, Values(), |columns|)
      modifies this`variants
      ensures ok == Convertible(ts, mapping)
      ensures |variants| == |old(variants)|
      ensures forall i :: 0 <= i < |variants| ==> variants[i].keys == old(variants)[i].keys
      ensures ok ==> forall i :: 0 <= i < |variants| ==>
        variants[i].value == Received(old(variants)[i], filter, ts, Display(plural), Values(), mapping)
      decreases ts, 1
    {
      hide LeafElement, CaseConstraints, Satisfies, Received, WithinColumnsToken, InRange, ConvertibleToken;
      var display := Display(plural);
      assert ts[0..] == ts;
      for i := 0 to |ts|
        invariant WithinColumns(ts[i..], Values(), |columns|)
        invariant Convertible(ts[i..], mapping) == Convertible(ts, mapping)
        invariant |variants| == |old(variants)| && KeysFit()
        invariant forall v :: 0 <= v < |variants| ==> variants[v].keys == old(variants)[v].keys
        invariant forall v :: 0 <= v < |variants| ==>
          Received(variants[v], filter, ts[i..], display, Values(), mapping) ==
          Received(old(variants)[v], filter, ts, display, Values(), mapping)
      {
        var t := ts[i];
        assert ts[i..][0] == t && ts[i..][1..] == ts[i + 1..];
        ghost var before := variants;
        if t.Select? {
          ok := AddSelect(t, plural, filter);
          if !ok {
            return;
          }
          forall v | 0 <= v < |variants|
            ensures Received(variants[v], filter, ts[i + 1..], display, Values(), mapping) ==
                    Received(before[v], filter, ts[i..], display, Values(), mapping)
          {
            SelectWithin(t, Values(), |columns|);
            ReceivedSelect(before[v], filter, ts[i..], display, Values(), mapping);
          }
        } else {
          var leaf := LeafElement(t, display, mapping);
          SameLeaf(t, display, mapping);
          if leaf.None? {
            return false;
          }
          AppendMatching(leaf.value, filter);
          forall v | 0 <= v < |variants|
            ensures Received(variants[v], filter, ts[i + 1..], display, Values(), mapping) ==
                    Received(before[v], filter, ts[i..], display, Values(), mapping)
          {
            ReceivedLeaf(before[v], filter, ts[i..], display, Values(), mapping);
          }
        }
      }
      forall v | 0 <= v < |variants|
        ensures variants[v].value == Received(old(variants)[v], filter, ts, display, Values(), mapping)
      {
        assert ts[|ts|..] == [];
        ReceivedNothing(variants[v], filter, display, Values(), mapping);
      }
      ok := true;
    }

    method AddSelect(t: Token, plural: Record?, filter: seq<Constraint>) returns (ok: bool)
      requires t.Select?
      requires Valid() && KeysFit() && InRange(filter, |columns|) && WithinColumnsToken(t, Values(), |columns|)
      modifies this`variants
      ensures ok == ConvertibleToken(t, mapping)
      ensures |variants| == |old(variants)|
      ensures forall i :: 0 <= i < |variants| ==> variants[i].keys == old(variants)[i].keys
      ensures ok ==> forall i :: 0 <= i < |variants| ==>
        variants[i].value ==
          var s := Values()[Find(Values(), t.arg)];
          ReceivedCases(old(variants)[i], filter, t.cases, s, InnerDisplay(s, Display(plural)), Values(), mapping)
      decreases t, 0
    {
      hide CaseConstraints, Satisfies, Received, ReceivedCases, Convertible, WithinColumns, InRange, Find;
      IndexFinds(t.arg);
      var s := byName[t.arg];
      var inner := plural;
      if IsPlural(s.value.kind) {
        inner := s;
      }
      ghost var display := InnerDisplay(s.value, Display(plural));
      assert t.cases[0..] == t.cases;
      for k := 0 to |t.cases|
        invariant WithinColumnsCases(t.cases[k..], s.value, Values(), |columns|)
        invariant ConvertibleCases(t.cases[k..], mapping) == ConvertibleCases(t.cases, mapping)
        invariant |variants| == |old(variants)| && KeysFit()
        invariant forall v :: 0 <= v < |variants| ==> variants[v].keys == old(variants)[v].keys
        invariant forall v :: 0 <= v < |variants| ==>
          ReceivedCases(variants[v], filter, t.cases[k..], s.value, display, Values(), mapping) ==
          ReceivedCases(old(variants)[v], filter, t.cases, s.value, display, Values(), mapping)
      {
        var c := t.cases[k];
        assert t.cases[k..][0] == c && t.cases[k..][1..] == t.cases[k + 1..];
        var cons := filter + CaseConstraints(s.value, c.key);
        InRangeConcat(filter, CaseConstraints(s.value, c.key), |columns|);
        ghost var before := variants;
        ok := AddParts(c.tokens, inner, cons);
        if !ok {
          return;
        }
        forall v | 0 <= v < |variants|
          ensures ReceivedCases(variants[v], filter, t.cases[k + 1..], s.value, display, Values(), mapping) ==
                  ReceivedCases(before[v], filter, t.cases[k..], s.value, display, Values(), mapping)
        {
          assert variants[v] == before[v].(value := variants[v].value);
          ReceivedCase(before[v], filter, t.cases[k..], s.value, display, Values(), mapping);
        }
      }
      forall v | 0 <= v < |variants|
        ensures variants[v].value ==
                ReceivedCases(old(variants)[v], filter, t.cases, s.value, display, Values(), mapping)
      {
        assert t.cases[|t.cases|..] == [];
        ReceivedNoCases(variants[v], filter, s.value, display, Values(), mapping);
      }
      ok := true;
    }

    /** The whole conversion of a message the parser let through. */
    method Convert() returns (r: Option<Message>)
      requires Valid() && selectors == [] && names == {} && columns == [] && variants == []
      requires WellFormed(tokens)
      modifies this
      ensures r == Lift(tokens, mapping) && (r.Some? <==> Liftable(tokens, mapping))
    {
      hide Liftable, Lifting.Collect, Convertible, WellFormed, Registered, SelectorsOk, Named, PlanSelector, Product, Fill;
      LiftSucceedsIff(tokens, mapping);
      assert State() == Analysis([], {});
      var ok := Collect(tokens);
      if !ok {
        return None;
      }
      CollectMessage(tokens);
      if selectors == [] {
        r := ConvertPlain();
      } else {
        r := ConvertSelects();
      }
    }

    method ConvertSelects() returns (r: Option<Message>)
      requires Valid() && selectors != [] && columns == []
      requires WellFormed(tokens) && Lifting.Collect(tokens, Analysis([], {})) == Some(State())
      modifies this`columns, this`names, this`variants, selectors
      ensures r == Lift(tokens, mapping)
    {
      hide Lifting.Collect, Plan, Product, VariantCount, Convertible, Leaves, WellFormed, Received, WithinColumns;
      ghost var a := State();
      var decls := PlanColumns();
      PlannedWithin(tokens, a);
      assert Values()[..|selectors|] == Values();
      var ok := BuildVariants();
      if !ok {
        return None;
      }
      EmptiedFit(columns);
      ok := AddParts(tokens, null, []);
      if !ok {
        return None;
      }
      FilledByParts(Product(columns), variants, tokens, Values(), mapping);
      r := Some(SelectMessage(decls, Variables(columns), variants));
    }

    /** A message without selects is one pattern. */
    method ConvertPlain() returns (r: Option<Message>)
      requires Registered(tokens, [])
      ensures r == if Convertible(tokens, mapping)
                   then Some(PatternMessage(AppendAll([], Leaves(tokens, None, [], [], mapping)))) else None
    {
      hide LeafElement, ConvertibleToken;
      var pattern := [];
      for i := 0 to |tokens|
        invariant Registered(tokens[i..], [])
        invariant Convertible(tokens[i..], mapping) == Convertible(tokens, mapping)
        invariant AppendAll(pattern, Leaves(tokens[i..], None, [], [], mapping)) ==
                  AppendAll([], Leaves(tokens, None, [], [], mapping))
      {
        assert tokens[i..][0] == tokens[i] && tokens[i..][1..] == tokens[i + 1..];
        var leaf := LeafElement(tokens[i], None, mapping);
        SameLeaf(tokens[i], None, mapping);
        if leaf.None? {
          return None;
        }
        AppendAllConcat(pattern, [leaf.value], Leaves(tokens[i + 1..], None, [], [], mapping));
        assert [leaf.value][1..] == [];
        pattern := AppendElement(pattern, leaf.value);
      }
      r := Some(PatternMessage(pattern));
    }
  }
}
