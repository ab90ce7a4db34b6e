/** The main theorems of the lifting compiler: the lifted message is a valid data model, it shows
    the nested message except for selects that do not list the key their argument picks, and it
    shows exactly the nested message when, and only when, nothing is lost that way. */
module LiftingTheorem {
  import opened Digits
  import opened Lists
  import opened Mf2
  import opened Mf1
  import opened Lifting
  import opened CollectProofs
  import opened PlanProofs
  import opened VariantProofs
  import opened LiftingProofs

  /** The merged selectors of a message. */
  function SelectorsOf(tokens: seq<Token>): seq<Selector> {
    match Collect(tokens, Analysis([], {}))
    case Some(a) => a.sels
    case None => []
  }

  function PlanOf(a: Analysis): Planning {
    Plan(Planning([], [], [], a.names), a.sels)
  }

  predicate SameSelectors(a: seq<Selector>, b: seq<Selector>) {
    |a| == |b| && forall i :: 0 <= i < |a| ==> SameSelector(a[i], b[i])
  }

  // ----- The plan of a lifted message -----

  lemma {:induction false} CollectedPlan(tokens: seq<Token>, env: Env) returns (a: Analysis, p: Planning)
    requires WellFormed(tokens) && Collect(tokens, Analysis([], {})).Some?
    requires Typed(SelectorsOf(tokens), env)
    ensures Collect(tokens, Analysis([], {})) == Some(a) && p == PlanOf(a)
    ensures SameSelectors(p.sels, a.sels) && SelectorsOk(a.sels)
    ensures Planned(p, a.names, env) && Registered(tokens, p.sels) && Named(tokens, a.names)
  {
    hide SelectorOk, Registered, Named, Laid, DeclaredIn, Collect, Plan;
    a := Collect(tokens, Analysis([], {})).value;
    CollectMessage(tokens);
    p := PlanOf(a);
    var empty := Planning([], [], [], a.names);
    PlanOk(empty, a.sels, a.names, env);
    assert SameSelectors(p.sels, a.sels) by {
      forall i | 0 <= i < |p.sels|
        ensures SameSelector(p.sels[i], a.sels[i])
      {
        assert SameSelector(p.sels[|empty.sels| + i], a.sels[i]);
      }
    }
    SamePlanned(p.sels, a.sels);
    RegisteredGrows(tokens, a.sels, p.sels);
  }

  lemma {:induction false} SamePlanned(planned: seq<Selector>, sels: seq<Selector>)
    requires SameSelectors(planned, sels) && SelectorsOk(sels)
    ensures SelectorsOk(planned) && GrowsAll(sels, planned)
  {
    hide NoRepeats, OrdinaryKey;
    forall i | 0 <= i < |sels|
      ensures Grows(sels[i], planned[i]) && SelectorOk(planned[i]) && planned[i].name == sels[i].name
    {
      assert SameSelector(planned[i], sels[i]);
      assert SelectorOk(sels[i]);
    }
  }

  lemma {:induction false} PlannedColumnsUnmarked(p: Planning, arguments: set<string>, env: Env)
    requires Planned(p, arguments, env)
    ensures ColumnsUnmarked(p, env)
  {
    hide Resolve, SelectorOk;
    forall i | 0 <= i < |p.columns|
      ensures NumbersUnmarked(Resolve(p.decls, env, p.columns[i].variable), p.columns[i].keys)
    {
      assert Owned(p.sels, i);
      var j :| 0 <= j < |p.sels| && (p.sels[j].exactCol == i || p.sels[j].keyCol == i);
      var s := p.sels[j];
      assert SelectorOk(s) && Laid(s, p.columns) && DeclaredIn(s, p.decls, env);
      if IsPlural(s.kind) {
        PluralKeysUnmarked(s);
      }
    }
  }

  // ----- Merging adjacent text shows the same -----

  lemma {:induction false} ShowAppendAll(decls: seq<Declaration>, env: Env, p: Pattern, es: Pattern)
    ensures Show(decls, env, AppendAll(p, es)) == Show(decls, env, p) + Show(decls, env, es)
    decreases |es|
  {
    hide Resolve, ShowElement, AppendElement;
    if es != [] {
      ShowAppendElement(decls, env, p, es[0]);
      ShowAppendAll(decls, env, AppendElement(p, es[0]), es[1..]);
    }
  }

  lemma {:induction false} ShowAppendElement(decls: seq<Declaration>, env: Env, p: Pattern, e: Element)
    ensures Show(decls, env, AppendElement(p, e)) == Show(decls, env, p) + ShowElement(decls, env, e)
  {
    hide Resolve, Show, ShowElement;
    if e.Text? && p != [] && p[|p| - 1].Text? {
      var before, last := p[..|p| - 1], p[|p| - 1];
      var merged := Element.Text(last.text + e.text);
      assert p == before + [last];
      assert AppendElement(p, e) == before + [merged];
      ShowConcat(decls, env, before, [last]);
      ShowConcat(decls, env, before, [merged]);
      ShowOne(decls, env, last);
      ShowOne(decls, env, merged);
      ShowMerged(decls, env, last.text, e.text);
    } else {
      ShowConcat(decls, env, p, [e]);
      ShowOne(decls, env, e);
    }
  }

  lemma {:induction false} ShowMerged(decls: seq<Declaration>, env: Env, a: string, b: string)
    ensures ShowElement(decls, env, Element.Text(a + b)) ==
            ShowElement(decls, env, Element.Text(a)) + ShowElement(decls, env, Element.Text(b))
  {
  }

  lemma {:induction false} ShowOne(decls: seq<Declaration>, env: Env, e: Element)
    ensures Show(decls, env, [e]) == ShowElement(decls, env, e)
  {
    assert Show(decls, env, [e]) == ShowElement(decls, env, e) + [];
  }

  // ----- Evaluation only reads the merged keys -----

  lemma {:induction false} FindSame(a: seq<Selector>, b: seq<Selector>, name: string)
    requires SameSelectors(a, b)
    ensures Find(a, name) == Find(b, name)
  {
    assert forall i :: 0 <= i < |a| ==> SameSelector(a[i], b[i]);
  }

  lemma {:induction false} EvalPickedSame(tokens: seq<Token>, plural: Option<Plural>, a: seq<Selector>, b: seq<Selector>,
                                          mapping: Mapping, env: Env, rules: Rules)
    requires SameSelectors(a, b)
    ensures EvalPicked(tokens, plural, a, mapping, env, rules) == EvalPicked(tokens, plural, b, mapping, env, rules)
    decreases tokens
  {
    if tokens != [] {
      EvalPickedTokenSame(tokens[0], plural, a, b, mapping, env, rules);
      EvalPickedSame(tokens[1..], plural, a, b, mapping, env, rules);
    }
  }

  lemma {:induction false} EvalPickedTokenSame(t: Token, plural: Option<Plural>, a: seq<Selector>, b: seq<Selector>,
                                               mapping: Mapping, env: Env, rules: Rules)
    requires SameSelectors(a, b)
    ensures EvalPickedToken(t, plural, a, mapping, env, rules) == EvalPickedToken(t, plural, b, mapping, env, rules)
    decreases t
  {
    hide Less, NormalText, EvalPickedCases;
    if t.Select? {
      FindSame(a, b, t.arg);
      var s := Find(a, t.arg);
      if s < |a| {
        assert SameSelector(a[s], b[s]);
        EvalPickedCasesSame(t.cases, t.kind, Picked(a[s], env, rules), Inner(t, plural), a, b, mapping, env, rules);
      }
    }
  }

  lemma {:induction false} EvalPickedCasesSame(cases: seq<Case>, kind: Kind, k: string, plural: Option<Plural>, a: seq<Selector>,
                                               b: seq<Selector>, mapping: Mapping, env: Env, rules: Rules)
    requires SameSelectors(a, b)
    ensures EvalPickedCases(cases, kind, k, plural, a, mapping, env, rules) ==
            EvalPickedCases(cases, kind, k, plural, b, mapping, env, rules)
    decreases cases
  {
    hide MergedKey;
    if cases != [] {
      EvalPickedSame(cases[0].tokens, plural, a, b, mapping, env, rules);
      EvalPickedCasesSame(cases[1..], kind, k, plural, a, b, mapping, env, rules);
    }
  }

  // ----- What the lifted message shows -----

  lemma {:induction false} ShowsPlan(tokens: seq<Token>, p: Planning, arguments: set<string>, mapping: Mapping, env: Env, rules: Rules)
    requires Planned(p, arguments, env) && WellFormed(tokens) && Registered(tokens, p.sels)
    requires Named(tokens, arguments) && Convertible(tokens, mapping)
    ensures Show(p.decls, env, AppendAll([], Leaves(tokens, None, Target(p, env, rules), p.sels, mapping))) ==
            EvalPicked(tokens, None, p.sels, mapping, env, rules)
  {
    hide Planned, Target, WellFormed, Registered, Named, Convertible, EvalPicked, Leaves, ShowElement;
    var leaves := Leaves(tokens, None, Target(p, env, rules), p.sels, mapping);
    ShowLeaves(tokens, None, None, p, arguments, mapping, env, rules);
    ShowAppendAll(p.decls, env, [], leaves);
    assert Show(p.decls, env, []) + Show(p.decls, env, leaves) == Show(p.decls, env, leaves);
  }

  /** For every assignment of values and every plural rule, each select of the lifted message shows
      exactly its cases with the key its argument picks, one after another. */
  lemma {:induction false} LiftedShows(tokens: seq<Token>, mapping: Mapping, env: Env, rules: Rules)
    requires WellFormed(tokens) && Lift(tokens, mapping).Some? && Typed(SelectorsOf(tokens), env)
    ensures Format(Lift(tokens, mapping).value, env, rules) ==
            EvalPicked(tokens, None, SelectorsOf(tokens), mapping, env, rules)
  {
    hide WellFormed, Planned, Collect, Convertible, Leaves, Product, Fill, Target, EvalPicked, Show, Registered, Named, Typed, SelectorsOk, Prefs, Best;
    var a, p := CollectedPlan(tokens, env);
    EvalPickedSame(tokens, None, p.sels, a.sels, mapping, env, rules);
    ShowsPlan(tokens, p, a.names, mapping, env, rules);
    if a.sels == [] {
      NoColumns(a);
    } else {
      PlannedColumnsUnmarked(p, a.names, env);
      SelectionIsTarget(p, tokens, mapping, env, rules);
    }
  }

  lemma {:induction false} NoColumns(a: Analysis)
    requires a.sels == []
    ensures PlanOf(a) == Planning([], [], [], a.names)
    ensures forall env, rules :: Target(PlanOf(a), env, rules) == []
  {
  }

  // ----- Lifted against nested -----

  /** Some evaluated select chooses another case than its first with the picked key, and its cases
      with that key show something else. */
  predicate Strays(tokens: seq<Token>, plural: Option<Plural>, sels: seq<Selector>, mapping: Mapping, env: Env, rules: Rules) {
    tokens != [] &&
    (StraysToken(tokens[0], plural, sels, mapping, env, rules) || Strays(tokens[1..], plural, sels, mapping, env, rules))
  }

  predicate StraysToken(t: Token, plural: Option<Plural>, sels: seq<Selector>, mapping: Mapping, env: Env, rules: Rules) {
    t.Select? &&
    var i := ChosenCase(t, env, rules);
    if i < |t.cases| && ChoosesPicked(t, sels, env, rules)
    then Strays(t.cases[i].tokens, Inner(t, plural), sels, mapping, env, rules)
    else EvalPickedToken(t, plural, sels, mapping, env, rules) != EvalToken(t, plural, mapping, env, rules)
  }

  /** The case a select chooses is its first with the picked key. */
  predicate ChoosesPicked(t: Token, sels: seq<Selector>, env: Env, rules: Rules)
    requires t.Select?
  {
    var s := Find(sels, t.arg);
    s < |sels| && FirstPicked(t.cases, t.kind, Picked(sels[s], env, rules)) == ChosenCase(t, env, rules)
  }

  /** Some evaluated select has a later case with the picked key that shows something. */
  predicate Repeats(tokens: seq<Token>, plural: Option<Plural>, sels: seq<Selector>, mapping: Mapping, env: Env, rules: Rules) {
    tokens != [] &&
    (RepeatsToken(tokens[0], plural, sels, mapping, env, rules) || Repeats(tokens[1..], plural, sels, mapping, env, rules))
  }

  predicate RepeatsToken(t: Token, plural: Option<Plural>, sels: seq<Selector>, mapping: Mapping, env: Env, rules: Rules) {
    t.Select? &&
    var i := ChosenCase(t, env, rules);
    i < |t.cases| && ChoosesPicked(t, sels, env, rules) &&
    (Later(t, i, plural, sels, mapping, env, rules) != [] ||
     Repeats(t.cases[i].tokens, Inner(t, plural), sels, mapping, env, rules))
  }

  /** What the cases after the i-th with the picked key show. */
  function Later(t: Token, i: nat, plural: Option<Plural>, sels: seq<Selector>, mapping: Mapping, env: Env, rules: Rules): seq<Piece>
    requires t.Select? && i < |t.cases| && ChoosesPicked(t, sels, env, rules)
  {
    EvalPickedCases(t.cases[i + 1..], t.kind, Picked(sels[Find(sels, t.arg)], env, rules), Inner(t, plural), sels, mapping, env, rules)
  }

  lemma {:induction false} FromFirstPicked(cases: seq<Case>, kind: Kind, k: string, plural: Option<Plural>, sels: seq<Selector>,
                                           mapping: Mapping, env: Env, rules: Rules)
    ensures var i := FirstPicked(cases, kind, k);
            EvalPickedCases(cases, kind, k, plural, sels, mapping, env, rules) ==
            if i < |cases| then EvalPicked(cases[i].tokens, plural, sels, mapping, env, rules) +
                                EvalPickedCases(cases[i + 1..], kind, k, plural, sels, mapping, env, rules)
            else []
    decreases |cases|
  {
    hide MergedKey, EvalPicked, EvalPickedCases, FirstPicked;
    PickedStep(cases, kind, k, plural, sels, mapping, env, rules);
    if cases != [] && MergedKey(kind, cases[0].key) != k {
      var rest := cases[1..];
      FromFirstPicked(rest, kind, k, plural, sels, mapping, env, rules);
      var i := FirstPicked(rest, kind, k);
      assert rest[i..] == cases[i + 1..];
      assert forall j :: 0 <= j < |rest| ==> rest[j] == cases[j + 1] && rest[j + 1..] == cases[j + 2..];
    }
  }

  lemma {:induction false} PickedStep(cases: seq<Case>, kind: Kind, k: string, plural: Option<Plural>, sels: seq<Selector>,
                                      mapping: Mapping, env: Env, rules: Rules)
    ensures var shown := EvalPickedCases(cases, kind, k, plural, sels, mapping, env, rules);
            if cases == [] then FirstPicked(cases, kind, k) == 0 && shown == []
            else if MergedKey(kind, cases[0].key) == k then
              FirstPicked(cases, kind, k) == 0 &&
              shown == EvalPicked(cases[0].tokens, plural, sels, mapping, env, rules) +
                       EvalPickedCases(cases[1..], kind, k, plural, sels, mapping, env, rules)
            else
              FirstPicked(cases, kind, k) == 1 + FirstPicked(cases[1..], kind, k) &&
              shown == EvalPickedCases(cases[1..], kind, k, plural, sels, mapping, env, rules)
  {
    hide MergedKey, EvalPicked;
    if cases != [] {
      var rest := EvalPickedCases(cases[1..], kind, k, plural, sels, mapping, env, rules);
      assert [] + rest == rest;
    }
  }

  lemma {:induction false} PickedVersusEval(tokens: seq<Token>, plural: Option<Plural>, sels: seq<Selector>,
                                            mapping: Mapping, env: Env, rules: Rules)
    requires !Strays(tokens, plural, sels, mapping, env, rules)
    ensures var picked := EvalPicked(tokens, plural, sels, mapping, env, rules);
            var full := Eval(tokens, plural, mapping, env, rules);
            |picked| >= |full| && (|picked| == |full| ==> picked == full) &&
            (|picked| == |full| <==> !Repeats(tokens, plural, sels, mapping, env, rules))
    decreases tokens
  {
    hide EvalPickedToken, EvalToken, StraysToken, RepeatsToken;
    if tokens != [] {
      PickedVersusEvalToken(tokens[0], plural, sels, mapping, env, rules);
      PickedVersusEval(tokens[1..], plural, sels, mapping, env, rules);
    }
  }

  lemma {:induction false} PickedVersusEvalToken(t: Token, plural: Option<Plural>, sels: seq<Selector>,
                                                 mapping: Mapping, env: Env, rules: Rules)
    requires !StraysToken(t, plural, sels, mapping, env, rules)
    ensures var picked := EvalPickedToken(t, plural, sels, mapping, env, rules);
            var full := EvalToken(t, plural, mapping, env, rules);
            |picked| >= |full| && (|picked| == |full| ==> picked == full) &&
            (|picked| == |full| <==> !RepeatsToken(t, plural, sels, mapping, env, rules))
    decreases t
  {
    hide ChosenCase, Picked, FirstPicked, Strays, Repeats, EvalPickedCases, Eval;
    if t.Select? {
      var i := ChosenCase(t, env, rules);
      if i < |t.cases| && ChoosesPicked(t, sels, env, rules) {
        var k := Picked(sels[Find(sels, t.arg)], env, rules);
        FromFirstPicked(t.cases, t.kind, k, Inner(t, plural), sels, mapping, env, rules);
        PickedVersusEval(t.cases[i].tokens, Inner(t, plural), sels, mapping, env, rules);
      }
    }
  }

  /** When no evaluated select strays, the lifted message shows what the nested one shows if and
      only if no later case with a picked key shows anything. */
  lemma {:induction false} LiftingUnlessRepeated(tokens: seq<Token>, mapping: Mapping, env: Env, rules: Rules)
    requires WellFormed(tokens) && Lift(tokens, mapping).Some? && Typed(SelectorsOf(tokens), env)
    requires !Strays(tokens, None, SelectorsOf(tokens), mapping, env, rules)
    ensures Format(Lift(tokens, mapping).value, env, rules) == Eval(tokens, None, mapping, env, rules) <==>
            !Repeats(tokens, None, SelectorsOf(tokens), mapping, env, rules)
  {
    hide Lift, Format, EvalPicked, Eval, Strays, Repeats, WellFormed, Typed, SelectorsOf;
    LiftedShows(tokens, mapping, env, rules);
    PickedVersusEval(tokens, None, SelectorsOf(tokens), mapping, env, rules);
  }

  // ----- When nothing is lost -----

  /** Some select that is evaluated does not list the key its argument picks, though the case
      MF1 falls back to shows something. */
  predicate Loses(tokens: seq<Token>, plural: Option<Plural>, sels: seq<Selector>, mapping: Mapping,
                  env: Env, rules: Rules)
  {
    tokens != [] &&
    (LosesToken(tokens[0], plural, sels, mapping, env, rules) || Loses(tokens[1..], plural, sels, mapping, env, rules))
  }

  predicate LosesToken(t: Token, plural: Option<Plural>, sels: seq<Selector>, mapping: Mapping, env: Env, rules: Rules) {
    t.Select? &&
    var s := Find(sels, t.arg);
    var i := ChosenCase(t, env, rules);
    i < |t.cases| &&
    if s < |sels| && HasMergedKey(t, Picked(sels[s], env, rules))
    then Loses(t.cases[i].tokens, Inner(t, plural), sels, mapping, env, rules)
    else Eval(t.cases[i].tokens, Inner(t, plural), mapping, env, rules) != []
  }

  /** What evaluation needs of the selectors: each select is registered with its argument's. */
  predicate Selects(tokens: seq<Token>, sels: seq<Selector>) {
    WellFormed(tokens) && Registered(tokens, sels) && SelectorsNamed(sels)
  }

  predicate SelectsToken(t: Token, sels: seq<Selector>) {
    WellFormedToken(t) && RegisteredToken(t, sels) && SelectorsNamed(sels)
  }

  predicate SelectorsNamed(sels: seq<Selector>) {
    forall i :: 0 <= i < |sels| ==> SelectorOk(sels[i])
  }

  lemma {:induction false} CaseParts(t: Token, sels: seq<Selector>, distinct: bool, i: nat)
    requires t.Select? && SelectsToken(t, sels) && OrdinaryToken(t, distinct) && i < |t.cases|
    ensures Selects(t.cases[i].tokens, sels) && Ordinary(t.cases[i].tokens, distinct)
    ensures Find(sels, t.arg) < |sels| && RegisteredWith(t, sels[Find(sels, t.arg)])
  {
    hide WellFormed, Registered, Ordinary, SelectorOk, WellFormedSelect, HasCases, NormalizableKeys, DistinctKeys;
    CaseOf(t.cases, sels, distinct, i);
  }

  lemma {:induction false} CaseOf(cases: seq<Case>, sels: seq<Selector>, distinct: bool, i: nat)
    requires WellFormedCases(cases) && RegisteredCases(cases, sels) && OrdinaryCases(cases, distinct) && i < |cases|
    ensures WellFormed(cases[i].tokens) && Registered(cases[i].tokens, sels) && Ordinary(cases[i].tokens, distinct)
  {
    hide WellFormed, Registered, Ordinary;
    if i > 0 {
      CaseOf(cases[1..], sels, distinct, i - 1);
    }
  }

  lemma {:induction false} ChosenExists(t: Token, env: Env, rules: Rules)
    requires t.Select? && WellFormedSelect(t)
    ensures ChosenCase(t, env, rules) < |t.cases|
  {
    hide ExactlyMatches, Less, CATEGORY_KEYS, CategoryOf;
    var i :| 0 <= i < |t.cases| && t.cases[i].key == OTHER;
  }

  /** A select of ordinary keys: the case it chooses is the first with the picked key if there is
      one, and without one its lifted form shows nothing. */
  lemma {:induction false} SelectChoice(t: Token, plural: Option<Plural>, sels: seq<Selector>, mapping: Mapping, env: Env, rules: Rules)
    requires t.Select? && SelectsToken(t, sels) && OrdinaryToken(t, false)
    ensures var s := Find(sels, t.arg);
            var i := ChosenCase(t, env, rules);
            s < |sels| && i < |t.cases| &&
            var k := Picked(sels[s], env, rules);
            (HasMergedKey(t, k) <==> ChoosesPicked(t, sels, env, rules)) &&
            EvalPickedToken(t, plural, sels, mapping, env, rules) ==
            if HasMergedKey(t, k)
            then EvalPicked(t.cases[i].tokens, Inner(t, plural), sels, mapping, env, rules) + Later(t, i, plural, sels, mapping, env, rules)
            else []
  {
    hide EvalPicked, EvalPickedCases, ChosenCase, Picked, HasMergedKey, FirstPicked;
    PicksFirst(t, sels, env, rules);
    FromFirstPicked(t.cases, t.kind, Picked(sels[Find(sels, t.arg)], env, rules), Inner(t, plural), sels, mapping, env, rules);
  }

  /** A select that lists the picked key chooses its first case with that key; one that does not
      lists no such case. */
  lemma {:induction false} PicksFirst(t: Token, sels: seq<Selector>, env: Env, rules: Rules)
    requires t.Select? && SelectsToken(t, sels) && OrdinaryToken(t, false)
    ensures var s := Find(sels, t.arg);
            var i := ChosenCase(t, env, rules);
            s < |sels| && i < |t.cases| &&
            var k := Picked(sels[s], env, rules);
            FirstPicked(t.cases, t.kind, k) == if HasMergedKey(t, k) then i else |t.cases|
  {
    hide WellFormed, Registered, SelectorOk, HasCases, NormalizableKeys, Picked, MergedKey, FirstPicked, ChosenCase, WellFormedCases,
         RegisteredCases;
    ChosenExists(t, env, rules);
    CaseParts(t, sels, false, ChosenCase(t, env, rules));
    var s := sels[Find(sels, t.arg)];
    var k := Picked(s, env, rules);
    if HasMergedKey(t, k) {
      ChosenIsPicked(t, s, env, rules);
    } else {
      var f := FirstPicked(t.cases, t.kind, k);
    }
  }

  /** With ordinary keys a select strays exactly when it loses something. */
  lemma {:induction false} LossIsStraying(tokens: seq<Token>, plural: Option<Plural>, sels: seq<Selector>, mapping: Mapping,
                                          env: Env, rules: Rules)
    requires Selects(tokens, sels) && Ordinary(tokens, false)
    ensures Strays(tokens, plural, sels, mapping, env, rules) <==> Loses(tokens, plural, sels, mapping, env, rules)
    decreases tokens
  {
    hide SelectorOk, StraysToken, LosesToken, WellFormedToken, RegisteredToken, OrdinaryToken;
    if tokens != [] {
      LossIsStrayingToken(tokens[0], plural, sels, mapping, env, rules);
      LossIsStraying(tokens[1..], plural, sels, mapping, env, rules);
    }
  }

  lemma {:induction false} LossIsStrayingToken(t: Token, plural: Option<Plural>, sels: seq<Selector>, mapping: Mapping,
                                               env: Env, rules: Rules)
    requires SelectsToken(t, sels) && OrdinaryToken(t, false)
    ensures StraysToken(t, plural, sels, mapping, env, rules) <==> LosesToken(t, plural, sels, mapping, env, rules)
    decreases t
  {
    hide SelectsToken, OrdinaryToken, ChosenCase, Picked, HasMergedKey, Strays, Loses, Eval, EvalPickedToken, ChoosesPicked, Selects,
         Ordinary, Later;
    if t.Select? {
      SelectChoice(t, plural, sels, mapping, env, rules);
      var i := ChosenCase(t, env, rules);
      CaseParts(t, sels, false, i);
      LossIsStraying(t.cases[i].tokens, Inner(t, plural), sels, mapping, env, rules);
    }
  }

  lemma {:induction false} NoLater(t: Token, i: nat, plural: Option<Plural>, sels: seq<Selector>, mapping: Mapping, env: Env, rules: Rules)
    requires t.Select? && i < |t.cases| && ChoosesPicked(t, sels, env, rules) && i == ChosenCase(t, env, rules)
    requires DistinctKeys(t.kind, t.cases)
    ensures Later(t, i, plural, sels, mapping, env, rules) == []
  {
    hide ChosenCase, Picked, EvalPicked, EvalPickedCases, MergedKey;
    var k := Picked(sels[Find(sels, t.arg)], env, rules);
    var rest := t.cases[i + 1..];
    FromFirstPicked(rest, t.kind, k, Inner(t, plural), sels, mapping, env, rules);
    assert forall j :: 0 <= j < |rest| ==> rest[j] == t.cases[i + 1 + j];
  }

  lemma {:induction false} ListedVersusEval(tokens: seq<Token>, plural: Option<Plural>, sels: seq<Selector>,
                                            mapping: Mapping, env: Env, rules: Rules)
    requires Selects(tokens, sels) && Ordinary(tokens, true)
    ensures var listed := EvalPicked(tokens, plural, sels, mapping, env, rules);
            var full := Eval(tokens, plural, mapping, env, rules);
            |listed| <= |full| && (|listed| == |full| ==> listed == full) &&
            (|listed| == |full| <==> !Loses(tokens, plural, sels, mapping, env, rules))
    decreases tokens
  {
    hide EvalPickedToken, EvalToken, LosesToken, SelectorOk, WellFormedToken, RegisteredToken, OrdinaryToken;
    if tokens != [] {
      ListedVersusEvalToken(tokens[0], plural, sels, mapping, env, rules);
      ListedVersusEval(tokens[1..], plural, sels, mapping, env, rules);
    }
  }

  lemma {:induction false} ListedVersusEvalToken(t: Token, plural: Option<Plural>, sels: seq<Selector>,
                                                 mapping: Mapping, env: Env, rules: Rules)
    requires SelectsToken(t, sels) && OrdinaryToken(t, true)
    ensures var listed := EvalPickedToken(t, plural, sels, mapping, env, rules);
            var full := EvalToken(t, plural, mapping, env, rules);
            |listed| <= |full| && (|listed| == |full| ==> listed == full) &&
            (|listed| == |full| <==> !LosesToken(t, plural, sels, mapping, env, rules))
    decreases t
  {
    hide SelectsToken, ChosenCase, Picked, HasMergedKey, Loses, Eval, EvalPicked, EvalPickedCases, ChoosesPicked, Selects, Ordinary, Later,
         NormalizableKeys, DistinctKeys, OrdinaryCases;
    if t.Select? {
      IndistinctToo(t);
      SelectChoice(t, plural, sels, mapping, env, rules);
      var i := ChosenCase(t, env, rules);
      CaseParts(t, sels, true, i);
      ListedVersusEval(t.cases[i].tokens, Inner(t, plural), sels, mapping, env, rules);
      if ChoosesPicked(t, sels, env, rules) {
        NoLater(t, i, plural, sels, mapping, env, rules);
      }
    }
  }

  lemma {:induction false} IndistinctToo(t: Token)
    requires OrdinaryToken(t, true)
    ensures OrdinaryToken(t, false)
    decreases t
  {
    hide NormalizableKeys, DistinctKeys;
    if t.Select? {
      IndistinctCases(t.cases);
    }
  }

  lemma {:induction false} IndistinctCases(cases: seq<Case>)
    requires OrdinaryCases(cases, true)
    ensures OrdinaryCases(cases, false)
    decreases cases
  {
    hide OrdinaryToken;
    if cases != [] {
      Indistinct(cases[0].tokens);
      IndistinctCases(cases[1..]);
    }
  }

  lemma {:induction false} Indistinct(tokens: seq<Token>)
    requires Ordinary(tokens, true)
    ensures Ordinary(tokens, false)
    decreases tokens
  {
    hide OrdinaryToken;
    if tokens != [] {
      IndistinctToo(tokens[0]);
      Indistinct(tokens[1..]);
    }
  }

  lemma {:induction false} MessageSelects(tokens: seq<Token>, mapping: Mapping)
    requires WellFormed(tokens) && Lift(tokens, mapping).Some?
    ensures Selects(tokens, SelectorsOf(tokens))
  {
    hide WellFormed, Registered, SelectorOk, Collect, Plan, Convertible, Leaves, Product, VariantCount, Fill, Named;
    CollectMessage(tokens);
  }

  /** With keys that normalize, when nothing is lost, the lifted message shows what the nested one
      shows if and only if no later case with a picked key shows anything. */
  lemma {:induction false} LosslessUnlessRepeated(tokens: seq<Token>, mapping: Mapping, env: Env, rules: Rules)
    requires WellFormed(tokens) && Lift(tokens, mapping).Some? && Typed(SelectorsOf(tokens), env) && Ordinary(tokens, false)
    requires !Loses(tokens, None, SelectorsOf(tokens), mapping, env, rules)
    ensures Format(Lift(tokens, mapping).value, env, rules) == Eval(tokens, None, mapping, env, rules) <==>
            !Repeats(tokens, None, SelectorsOf(tokens), mapping, env, rules)
  {
    hide Lift, Format, Eval, Strays, Loses, Repeats, WellFormed, Typed, SelectorsOf, Selects, Ordinary;
    MessageSelects(tokens, mapping);
    LossIsStraying(tokens, None, SelectorsOf(tokens), mapping, env, rules);
    LiftingUnlessRepeated(tokens, mapping, env, rules);
  }

  /** The exact condition when no select repeats a key: for given values and rules the lifted
      message shows what the nested one shows if and only if no evaluated select lacks the picked
      key and so loses text. */
  lemma {:induction false} LiftingIsExact(tokens: seq<Token>, mapping: Mapping, env: Env, rules: Rules)
    requires WellFormed(tokens) && Lift(tokens, mapping).Some? && Typed(SelectorsOf(tokens), env) && Ordinary(tokens, true)
    ensures Format(Lift(tokens, mapping).value, env, rules) == Eval(tokens, None, mapping, env, rules) <==>
            !Loses(tokens, None, SelectorsOf(tokens), mapping, env, rules)
  {
    hide Lift, Format, EvalPicked, Eval, Loses, WellFormed, Typed, SelectorsOf, Selects, Ordinary;
    MessageSelects(tokens, mapping);
    LiftedShows(tokens, mapping, env, rules);
    ListedVersusEval(tokens, None, SelectorsOf(tokens), mapping, env, rules);
  }

  /** Every select lists every merged key of its argument. */
  predicate Complete(tokens: seq<Token>, sels: seq<Selector>) {
    tokens == [] || (CompleteToken(tokens[0], sels) && Complete(tokens[1..], sels))
  }

  predicate CompleteToken(t: Token, sels: seq<Selector>) {
    t.Select? ==>
      var s := Find(sels, t.arg);
      s < |sels| && (forall k :: k in sels[s].exact + sels[s].keys ==> HasMergedKey(t, k)) && CompleteCases(t.cases, sels)
  }

  predicate CompleteCases(cases: seq<Case>, sels: seq<Selector>) {
    cases == [] || (Complete(cases[0].tokens, sels) && CompleteCases(cases[1..], sels))
  }

  lemma {:induction false} CompleteCase(cases: seq<Case>, sels: seq<Selector>, i: nat)
    requires CompleteCases(cases, sels) && i < |cases|
    ensures Complete(cases[i].tokens, sels)
  {
    if i > 0 {
      CompleteCase(cases[1..], sels, i - 1);
    }
  }

  lemma {:induction false} WellFormedCase(cases: seq<Case>, i: nat)
    requires WellFormedCases(cases) && i < |cases|
    ensures WellFormed(cases[i].tokens)
  {
    if i > 0 {
      WellFormedCase(cases[1..], i - 1);
    }
  }

  lemma {:induction false} PickedListed(t: Token, s: Selector, env: Env, rules: Rules)
    requires t.Select? && WellFormedSelect(t) && (forall k :: k in s.exact + s.keys ==> HasMergedKey(t, k))
    ensures HasMergedKey(t, Picked(s, env, rules))
  {
    hide NormalText, CategoryAt;
    var i :| 0 <= i < |t.cases| && t.cases[i].key == OTHER;
    assert MergedKey(t.kind, t.cases[i].key) == "";
  }

  lemma {:induction false} CompleteLosesNothing(tokens: seq<Token>, plural: Option<Plural>, sels: seq<Selector>,
                                                mapping: Mapping, env: Env, rules: Rules)
    requires WellFormed(tokens) && Complete(tokens, sels)
    ensures !Loses(tokens, plural, sels, mapping, env, rules)
    decreases tokens
  {
    hide Picked, HasMergedKey, ChosenCase, WellFormedSelect, Eval;
    if tokens != [] {
      var t := tokens[0];
      if t.Select? {
        var s := Find(sels, t.arg);
        PickedListed(t, sels[s], env, rules);
        var i := ChosenCase(t, env, rules);
        if i < |t.cases| {
          CompleteCase(t.cases, sels, i);
          WellFormedCase(t.cases, i);
          CompleteLosesNothing(t.cases[i].tokens, Inner(t, plural), sels, mapping, env, rules);
        }
      }
      CompleteLosesNothing(tokens[1..], plural, sels, mapping, env, rules);
    }
  }

  /** Lifting preserves meaning: when every select lists each merged key of its argument once, the
      lifted message shows exactly the nested one, whatever the values and the plural rules. */
  lemma {:induction false} LiftingPreservesMeaning(tokens: seq<Token>, mapping: Mapping, env: Env, rules: Rules)
    requires WellFormed(tokens) && Lift(tokens, mapping).Some? && Typed(SelectorsOf(tokens), env)
    requires Complete(tokens, SelectorsOf(tokens)) && Ordinary(tokens, true)
    ensures Format(Lift(tokens, mapping).value, env, rules) == Eval(tokens, None, mapping, env, rules)
  {
    hide Lift, Format, Eval, Loses, WellFormed, Typed, SelectorsOf, Complete, Ordinary;
    LiftingIsExact(tokens, mapping, env, rules);
    CompleteLosesNothing(tokens, None, SelectorsOf(tokens), mapping, env, rules);
  }

  // ----- The lifted message as a data model -----

  lemma {:induction false} SelectorColumnsDistinct(p: Planning, arguments: set<string>, env: Env)
    requires Planned(p, arguments, env)
    ensures DistinctColumns(p.columns)
  {
    hide DeclaredIn, Resolve;
    forall i | 0 <= i < |p.columns|
      ensures NoRepeats(p.columns[i].keys)
    {
      assert Owned(p.sels, i);
      var j :| 0 <= j < |p.sels| && (p.sels[j].exactCol == i || p.sels[j].keyCol == i);
      var s := p.sels[j];
      assert SelectorOk(s) && Laid(s, p.columns);
      ExactAndKeysDistinct(s);
    }
  }

  lemma {:induction false} ExactAndKeysDistinct(s: Selector)
    requires SelectorOk(s)
    ensures NoRepeats(s.exact + s.keys)
  {
    if IsPlural(s.kind) {
      forall i, j | 0 <= i < |s.exact| && 0 <= j < |s.keys|
        ensures s.exact[i] != s.keys[j]
      {
        assert s.exact[i] in s.exact && s.keys[j] in s.keys;
        CategoryKeyIsNoNumber(s.keys[j]);
      }
    }
  }

  lemma {:induction false} CategoryKeyIsNoNumber(k: string)
    requires k in CATEGORY_KEYS
    ensures !AllDigits(k)
  {
    assert !IsDigit(k[0]);
  }

  predicate Merged(p: Pattern) {
    forall i :: 0 <= i < |p| - 1 ==> !(p[i].Text? && p[i + 1].Text?)
  }

  lemma {:induction false} AppendAllMerged(p: Pattern, es: Pattern)
    requires Merged(p)
    ensures Merged(AppendAll(p, es))
    decreases |es|
  {
    if es != [] {
      AppendAllMerged(AppendElement(p, es[0]), es[1..]);
    }
  }

  /** A message without selects becomes a plain pattern, which also has no adjacent texts. */
  lemma {:induction false} LiftedPatternIsMerged(tokens: seq<Token>, mapping: Mapping)
    requires Lift(tokens, mapping).Some? && Lift(tokens, mapping).value.PatternMessage?
    ensures SelectorsOf(tokens) == [] && Merged(Lift(tokens, mapping).value.pattern)
  {
    hide Collect, Convertible, Leaves, Plan, AppendAll, Merged;
    assert Merged([]) by { MergedNone(); }
    AppendAllMerged([], Leaves(tokens, None, [], [], mapping));
  }

  lemma {:induction false} MergedNone()
    ensures Merged([])
  {
  }

  lemma {:induction false} SelectorsDeclared(p: Planning, arguments: set<string>)
    requires PlanShape(p, arguments)
    ensures forall i :: 0 <= i < |p.columns| ==> !Undeclared(Variables(p.columns)[i], p.decls)
  {
    hide Undeclared, DeclarationNames, DeclaredOnce;
    forall i | 0 <= i < |p.columns|
      ensures !Undeclared(Variables(p.columns)[i], p.decls)
    {
      assert Owned(p.sels, i);
      var j :| 0 <= j < |p.sels| && (p.sels[j].exactCol == i || p.sels[j].keyCol == i);
      assert Laid(p.sels[j], p.columns);
    }
  }

  /** A lifted select message: each variable is declared once, inputs being arguments of the
      message and locals none of them; every selector is declared; the variants are exactly the
      key assignments of the columns, at most 4096 and no two alike, the last one all catch-all;
      and no pattern has adjacent texts. */
  lemma {:induction false} LiftedIsValid(tokens: seq<Token>, mapping: Mapping)
    requires WellFormed(tokens) && Lift(tokens, mapping).Some? && Lift(tokens, mapping).value.SelectMessage?
    ensures var m := Lift(tokens, mapping).value;
            DeclaredOnce(m.declarations) &&
            (forall d :: d in m.declarations ==>
              (d.Input? <==> d.name in Collect(tokens, Analysis([], {})).value.names)) &&
            Named(tokens, Collect(tokens, Analysis([], {})).value.names) &&
            (forall x :: x in m.selectors ==> !Undeclared(x, m.declarations)) &&
            m.variants != [] && |m.variants| <= 4096 &&
            (forall i, j :: 0 <= i < j < |m.variants| ==> m.variants[i].keys != m.variants[j].keys) &&
            AllCatchall(m.variants[|m.variants| - 1].keys) &&
            (forall v :: v in m.variants ==> |v.keys| == |m.selectors| && Merged(v.value))
    ensures var m := Lift(tokens, mapping).value;
            var columns := PlanOf(Collect(tokens, Analysis([], {})).value).columns;
            m.selectors == Variables(columns) && |m.variants| == VariantCount(columns) &&
            forall ks :: Assigns(columns, ks) <==> exists v :: v in m.variants && v.keys == ks
  {
    hide WellFormed, Collect, Convertible, Leaves, Product, Registered, Named, SelectorsOk, DeclaredIn, Laid, Resolve, Plan, AppendAll, DistinctColumns;
    var env: Env := _ => Num(Decimals.Integer(0));
    var a, p := CollectedPlan(tokens, env);
    var m := Lift(tokens, mapping).value;
    assert m == SelectMessage(p.decls, Variables(p.columns), Fill(Product(p.columns), tokens, p.sels, mapping));
    SelectorColumnsDistinct(p, a.names, env);
    SelectorsDeclared(p, a.names);
    ProductShape(p.columns);
    forall v | v in m.variants
      ensures |v.keys| == |m.selectors| && Merged(v.value)
    {
      var i :| 0 <= i < |m.variants| && m.variants[i] == v;
      assert v.keys == Product(p.columns)[i];
      ProductMembers(p.columns, v.keys);
      AppendAllMerged([], Leaves(tokens, None, v.keys, p.sels, mapping));
    }
    forall ks
      ensures Assigns(p.columns, ks) <==> exists v :: v in m.variants && v.keys == ks
    {
      if Assigns(p.columns, ks) {
        FilledVariant(p.columns, tokens, p.sels, mapping, ks);
      }
      if v :| v in m.variants && v.keys == ks {
        var i :| 0 <= i < |m.variants| && m.variants[i] == v;
        assert v.keys == Product(p.columns)[i];
        ProductMembers(p.columns, ks);
      }
    }
  }

  // ----- Different key sets lose text -----

  function FirstSelect(): Token {
    Select("n", PluralKind, None, [Case("one", [Content("A")]), Case("other", [Content("B")])])
  }

  function SecondSelect(): Token {
    Select("n", PluralKind, None, [Case("=1", [Content("C")]), Case("other", [Content("D")])])
  }

  function MergedSelector(): Selector {
    Selector("n", PluralKind, 0, ["1"], ["one"], "", -1, -1)
  }

  lemma {:induction false} OneText()
    ensures NormalizeExactKey("1") == "1" && Val("1") == 1 && Itoa(1) == "1"
  {
    assert "1"[..0] == "";
  }

  lemma {:induction false} TextLeaf(text: string, a: Analysis, mapping: Mapping)
    ensures var ts := [Content(text)];
            WellFormed(ts) && Collect(ts, a) == Some(a) && Convertible(ts, mapping)
  {
    var ts := [Content(text)];
    assert ts[1..] == [];
  }

  lemma {:induction false} SelectsWellFormed(mapping: Mapping)
    ensures WellFormedToken(FirstSelect()) && WellFormedToken(SecondSelect())
  {
    hide WellFormed;
    OneText();
    var f, s := FirstSelect(), SecondSelect();
    TextLeaf("A", Analysis([], {}), mapping);
    TextLeaf("B", Analysis([], {}), mapping);
    TextLeaf("C", Analysis([], {}), mapping);
    TextLeaf("D", Analysis([], {}), mapping);
    assert f.cases[1].key == OTHER && s.cases[1].key == OTHER;
    assert f.cases[1..] == [f.cases[1]] && f.cases[1..][1..] == [];
    assert s.cases[1..] == [s.cases[1]] && s.cases[1..][1..] == [];
    assert s.cases[0].key[1..] == "1";
    assert Canonical("1");
  }

  lemma {:induction false} SelectsMerge()
    ensures AddSelector([], FirstSelect()) == Some([MergedSelector().(exact := [])])
    ensures AddSelector([MergedSelector().(exact := [])], SecondSelect()) == Some([MergedSelector()])
  {
    OneText();
    var f, s := FirstSelect(), SecondSelect();
    var n := NewSelector(f);
    assert f.cases[1..] == [f.cases[1]] && f.cases[1..][1..] == [];
    assert s.cases[1..] == [s.cases[1]] && s.cases[1..][1..] == [];
    assert s.cases[0].key[1..] == "1";
    assert [] + [n.(keys := ["one"])] == [n.(keys := ["one"])];
    assert Find([], "n") == 0;
    assert AddKeys(n, f.cases) == AddKeys(n.(keys := ["one"]), f.cases[1..]) == n.(keys := ["one"]);
    var m := MergedSelector();
    assert AddKey(m.(exact := []), s.cases[0].key) == m;
    assert AddKeys(m.(exact := []), s.cases) == AddKeys(m, s.cases[1..]) == m;
    assert Find([m.(exact := [])], "n") == 0;
    assert [m.(exact := [])][0 := m] == [m];
  }

  lemma {:induction false} TextCases(k: string, x: string, l: string, y: string, a: Analysis, mapping: Mapping)
    ensures var cases := [Case(k, [Content(x)]), Case(l, [Content(y)])];
            CollectCases(cases, a) == Some(a) && ConvertibleCases(cases, mapping)
  {
    hide Collect, Convertible;
    TextLeaf(x, a, mapping);
    TextLeaf(y, a, mapping);
    var cases := [Case(k, [Content(x)]), Case(l, [Content(y)])];
    var rest := cases[1..];
    assert rest == [cases[1]] && rest[1..] == [];
    assert CollectCases(rest, a) == CollectCases(rest[1..], a) == Some(a);
    assert ConvertibleCases(rest, mapping) == ConvertibleCases(rest[1..], mapping);
  }

  lemma {:induction false} SelectsCollect(mapping: Mapping)
    ensures var ts := [FirstSelect(), SecondSelect()];
            Collect(ts, Analysis([], {})) == Some(Analysis([MergedSelector()], {"n"})) && Convertible(ts, mapping)
  {
    hide AddSelector, CollectCases, ConvertibleCases;
    SelectsMerge();
    var ts := [FirstSelect(), SecondSelect()];
    assert ts[1..] == [ts[1]] && ts[1..][1..] == [];
    var m := MergedSelector();
    TextCases("one", "A", "other", "B", Analysis([m.(exact := [])], {"n"}), mapping);
    TextCases("=1", "C", "other", "D", Analysis([m], {"n"}), mapping);
    assert {"n"} + {"n"} == {"n"} && {} + {"n"} == {"n"};
  }

  lemma {:induction false} MergedPlan()
    ensures VariantCount(PlanOf(Analysis([MergedSelector()], {"n"})).columns) == 3
  {
    hide UniqueName;
    var m := MergedSelector();
    var p := PlanSelector(Planning([], [], [], {"n"}), m);
    assert [m][1..] == [];
    assert Plan(Planning([], [], [], {"n"}), [m]) == Plan(p, []) == p;
    assert ["1"] + ["one"] == ["1", "one"];
    assert p.columns == [] + [Column("n", ["1", "one"])] == [Column("n", ["1", "one"])];
    assert p.columns[..0] == [];
    assert VariantCount(p.columns) == VariantCount([]) * 3;
  }

  lemma {:induction false} SelectsLift(mapping: Mapping)
    ensures var ts := [FirstSelect(), SecondSelect()];
            WellFormed(ts) && SelectorsOf(ts) == [MergedSelector()] && Lift(ts, mapping).Some?
  {
    hide Collect, Plan, Convertible, VariantCount, WellFormedToken, FirstSelect, SecondSelect, Product, Fill;
    SelectsWellFormed(mapping);
    SelectsCollect(mapping);
    MergedPlan();
    var ts := [FirstSelect(), SecondSelect()];
    assert ts[1..] == [ts[1]] && ts[1..][1..] == [];
  }

  lemma {:induction false} SelectsChoose(env: Env, rules: Rules)
    requires rules.cardinal(Decimals.Integer(1)) == One && env("n") == Num(Decimals.Integer(1))
    ensures ChosenCase(FirstSelect(), env, rules) == 0 && ChosenCase(SecondSelect(), env, rules) == 0
    ensures Picked(MergedSelector(), env, rules) == "1"
  {
    hide Decimals.Normalized, Decimals.Value;
    OneText();
    Decimals.IntegerText(1);
    var d := Decimals.Integer(1);
    var f, s := FirstSelect(), SecondSelect();
    assert !ExactlyMatches("one", d) && !ExactlyMatches("other", d);
    assert f.cases[1..] == [f.cases[1]] && f.cases[1..][1..] == [];
    assert FirstExact(f.cases, d) == 1 + FirstExact(f.cases[1..], d) == 2;
    assert s.cases[0].key[1..] == "1";
  }

  lemma {:induction false} ShownTexts(a: string, b: string)
    ensures Chars(a) + Chars(b) == Chars(a + b) && Chars("") == []
  {
  }

  lemma {:induction false} EvalText(text: string, plural: Option<Plural>, sels: seq<Selector>, mapping: Mapping, env: Env, rules: Rules)
    ensures Eval([Content(text)], plural, mapping, env, rules) == Chars(text)
    ensures EvalPicked([Content(text)], plural, sels, mapping, env, rules) == Chars(text)
  {
    assert [Content(text)][1..] == [];
    assert Chars(text) + [] == Chars(text);
  }

  /** The unconditional claim is false: for n = 1 the nested message
      {n, plural, one {A} other {B}}{n, plural, =1 {C} other {D}} shows AC. The second select
      makes 1 a key of n, the first does not list it, and its text is lost. */
  lemma {:induction false} DifferentKeysLoseText(mapping: Mapping, env: Env, rules: Rules)
    requires rules.cardinal(Decimals.Integer(1)) == One && env("n") == Num(Decimals.Integer(1))
    ensures var ts := [FirstSelect(), SecondSelect()];
            WellFormed(ts) && Lift(ts, mapping).Some? &&
            Eval(ts, None, mapping, env, rules) == Chars("AC") &&
            Format(Lift(ts, mapping).value, env, rules) == Chars("C")
  {
    hide ChosenCase, Picked, Lift, WellFormed, Format, SelectorsOf;
    var ts := [FirstSelect(), SecondSelect()];
    var sels := [MergedSelector()];
    SelectsLift(mapping);
    SelectsChoose(env, rules);
    LiftedShows(ts, mapping, env, rules);
    assert ts[1..] == [ts[1]] && ts[1..][1..] == [];
    EvalText("A", Some(Plural("n", 0)), sels, mapping, env, rules);
    EvalText("C", Some(Plural("n", 0)), sels, mapping, env, rules);
    ShownTexts("A", "C");
    assert EvalToken(ts[0], None, mapping, env, rules) == Chars("A");
    assert EvalToken(ts[1], None, mapping, env, rules) == Chars("C");
    assert Eval(ts[1..], None, mapping, env, rules) == Chars("C") + [];
    assert EvalPicked(ts[1..], None, sels, mapping, env, rules) ==
           EvalPickedToken(ts[1], None, sels, mapping, env, rules) + [];
    assert Chars("C") + [] == Chars("C") && [] + Chars("C") == Chars("C");
    PickedOne(mapping, env, rules);
  }

  /** The key 1 picks no case of the first select and the first case of the second. */
  lemma {:induction false} PickedOne(mapping: Mapping, env: Env, rules: Rules)
    requires Picked(MergedSelector(), env, rules) == "1"
    ensures EvalPickedToken(FirstSelect(), None, [MergedSelector()], mapping, env, rules) == []
    ensures EvalPickedToken(SecondSelect(), None, [MergedSelector()], mapping, env, rules) == Chars("C")
  {
    hide Picked, EvalPicked;
    OneText();
    var f, s, sels, pl := FirstSelect(), SecondSelect(), [MergedSelector()], Some(Plural("n", 0));
    EvalText("C", pl, sels, mapping, env, rules);
    assert Find(sels, "n") == 0;
    assert s.cases[0].key[1..] == "1";
    assert MergedKey(PluralKind, "=1") == "1" && MergedKey(PluralKind, "one") == "one" && MergedKey(PluralKind, "other") == "";
    OtherCase(f.cases[1..], "B", pl, sels, mapping, env, rules);
    OtherCase(s.cases[1..], "D", pl, sels, mapping, env, rules);
    assert Chars("C") + [] == Chars("C");
  }

  lemma {:induction false} OtherCase(cases: seq<Case>, text: string, plural: Option<Plural>, sels: seq<Selector>, mapping: Mapping,
                                     env: Env, rules: Rules)
    requires cases == [Case("other", [Content(text)])]
    ensures EvalPickedCases(cases, PluralKind, "1", plural, sels, mapping, env, rules) == []
  {
    hide EvalPicked;
    assert cases[1..] == [];
    assert MergedKey(PluralKind, "other") == "";
  }
}
