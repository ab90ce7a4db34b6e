/** What planning establishes: every selector's columns, and declarations that give each
    variable once, the arguments their own values, and each local its argument less the offset. */
module PlanProofs {
  import opened Digits
  import opened Mf2
  import opened Mf1
  import opened Lifting
  import opened CollectProofs

  predicate ColumnAt(columns: seq<Column>, i: int, c: Column) {
    0 <= i < |columns| && columns[i] == c
  }

  /** Where a planned selector's keys are. */
  predicate Laid(s: Selector, columns: seq<Column>) {
    if OneColumn(s) then
      s.displayVar == s.name && s.keyCol == s.exactCol && ColumnAt(columns, s.exactCol, Column(s.name, s.exact + s.keys))
    else
      && (if s.exact != [] then ColumnAt(columns, s.exactCol, Column(s.name, s.exact)) else s.exactCol == -1)
      && (if HasKeyColumn(s) then ColumnAt(columns, s.keyCol, Column(s.displayVar, s.keys)) && s.keyCol != s.exactCol
          else s.keyCol == -1)
  }

  function SelectionOfKind(kind: Kind): KeySelection {
    match kind
    case SelectKind => ByString
    case PluralKind => ByNumber(false)
    case OrdinalKind => ByNumber(true)
  }

  /** What the selector's variable and its display variable hold after the declarations. */
  predicate DeclaredIn(s: Selector, decls: seq<Declaration>, env: Env) {
    var how := SelectionOfKind(s.kind);
    && Resolve(decls, env, s.name) == Resolved(env(s.name), how)
    && (!OneColumn(s) ==>
          Resolve(decls, env, s.displayVar) == Resolved(Num(Less(NumberOf(env(s.name)), s.offset)), how))
  }

  predicate Undeclared(x: string, decls: seq<Declaration>) {
    forall i :: 0 <= i < |decls| ==> decls[i].name != x
  }

  predicate DeclaredOnce(decls: seq<Declaration>) {
    forall i, j :: 0 <= i < j < |decls| ==> decls[i].name != decls[j].name
  }

  /** Inputs are arguments of the message; locals are not. */
  predicate DeclarationNames(decls: seq<Declaration>, arguments: set<string>, names: set<string>) {
    forall i :: 0 <= i < |decls| ==>
      decls[i].name in names && (decls[i].Input? <==> decls[i].name in arguments)
  }

  predicate Owned(sels: seq<Selector>, i: int) {
    exists j :: 0 <= j < |sels| && (sels[j].exactCol == i || sels[j].keyCol == i)
  }

  predicate PlanShape(p: Planning, arguments: set<string>) {
    && (forall i :: 0 <= i < |p.columns| ==> Owned(p.sels, i))
    && arguments <= p.names
    && DeclarationNames(p.decls, arguments, p.names)
    && DeclaredOnce(p.decls)
    && (forall i :: 0 <= i < |p.sels| ==> Laid(p.sels[i], p.columns))
    && (forall i :: 0 <= i < |p.sels| ==> !Undeclared(p.sels[i].displayVar, p.decls) && !Undeclared(p.sels[i].name, p.decls))
  }

  predicate PlanMeaning(p: Planning, arguments: set<string>, env: Env) {
    && (forall i :: 0 <= i < |p.sels| ==> DeclaredIn(p.sels[i], p.decls, env))
    && (forall x :: x in arguments ==> Resolve(p.decls, env, x).value == env(x))
  }

  // ----- One declaration more -----

  lemma {:induction false} ResolveOther(decls: seq<Declaration>, d: Declaration, env: Env, x: string)
    requires d.name != x
    ensures Resolve(decls + [d], env, x) == Resolve(decls, env, x)
  {
    assert (decls + [d])[..|decls|] == decls;
  }

  lemma {:induction false} ResolveInput(decls: seq<Declaration>, s: Selector, env: Env)
    ensures Resolve(decls + [InputDeclaration(s)], env, s.name) == Resolved(env(s.name), SelectionOfKind(s.kind))
  {
    assert (decls + [InputDeclaration(s)])[..|decls|] == decls;
  }

  lemma {:induction false} ResolveOffset(decls: seq<Declaration>, s: Selector, local: string, env: Env)
    requires 0 <= s.offset <= MAX_INT
    requires Resolve(decls, env, s.name) == Resolved(env(s.name), SelectionOfKind(s.kind))
    ensures Resolve(decls + [OffsetDeclaration(s, local)], env, local) ==
            Resolved(Num(Less(NumberOf(env(s.name)), s.offset)), SelectionOfKind(s.kind))
  {
    hide Less, FormatInt, Atoi;
    AtoiFormatInt(s.offset);
    assert (decls + [OffsetDeclaration(s, local)])[..|decls|] == decls;
  }

  lemma {:induction false} DeclaredInGrows(s: Selector, decls: seq<Declaration>, d: Declaration, env: Env)
    requires DeclaredIn(s, decls, env) && s.name != d.name && s.displayVar != d.name
    ensures DeclaredIn(s, decls + [d], env)
  {
    hide Resolve;
    ResolveOther(decls, d, env, s.name);
    ResolveOther(decls, d, env, s.displayVar);
  }

  lemma {:induction false} LaidGrows(s: Selector, columns: seq<Column>, more: seq<Column>)
    requires Laid(s, columns)
    ensures Laid(s, columns + more)
  {
  }

  // ----- One selector more -----

  lemma {:induction false} PlanSelectorLaid(p: Planning, s: Selector)
    ensures var q := PlanSelector(p, s);
            |q.sels| == |p.sels| + 1 && q.sels[..|p.sels|] == p.sels &&
            p.columns <= q.columns && Laid(q.sels[|p.sels|], q.columns) &&
            forall i :: |p.columns| <= i < |q.columns| ==> Owned([q.sels[|p.sels|]], i)
  {
    var q := PlanSelector(p, s);
    var last := [q.sels[|p.sels|]];
    assert last[0] == q.sels[|p.sels|];
  }

  lemma {:induction false} PlanSelectorShape(p: Planning, s: Selector, arguments: set<string>)
    requires PlanShape(p, arguments) && s.name in arguments && Undeclared(s.name, p.decls)
    ensures PlanShape(PlanSelector(p, s), arguments)
  {
    hide Laid;
    PlanSelectorLaid(p, s);
    var q := PlanSelector(p, s);
    forall i | 0 <= i < |q.sels|
      ensures Laid(q.sels[i], q.columns)
    {
      if i < |p.sels| {
        assert p.sels[i] == q.sels[i];
        LaidGrows(p.sels[i], p.columns, q.columns[|p.columns|..]);
        assert q.columns == p.columns + q.columns[|p.columns|..];
      }
    }
    forall i | 0 <= i < |q.columns|
      ensures Owned(q.sels, i)
    {
      if i < |p.columns| {
        assert Owned(p.sels, i);
        var j :| 0 <= j < |p.sels| && (p.sels[j].exactCol == i || p.sels[j].keyCol == i);
        assert q.sels[j] == p.sels[j];
      } else {
        assert Owned([q.sels[|p.sels|]], i);
      }
    }
    PlanSelectorDeclarations(p, s, arguments);
  }

  lemma {:induction false} PlanSelectorDeclarations(p: Planning, s: Selector, arguments: set<string>)
    requires PlanShape(p, arguments) && s.name in arguments && Undeclared(s.name, p.decls)
    ensures var q := PlanSelector(p, s);
            arguments <= q.names && DeclarationNames(q.decls, arguments, q.names) && DeclaredOnce(q.decls) &&
            forall i :: 0 <= i < |q.sels| ==>
              !Undeclared(q.sels[i].displayVar, q.decls) && !Undeclared(q.sels[i].name, q.decls)
  {
    hide Laid, UniqueName;
    var q := PlanSelector(p, s);
    assert q.decls[|p.decls|].name == s.name;
    forall i | 0 <= i < |q.sels|
      ensures !Undeclared(q.sels[i].displayVar, q.decls) && !Undeclared(q.sels[i].name, q.decls)
    {
      if i < |p.sels| {
        var k :| 0 <= k < |p.decls| && p.decls[k].name == p.sels[i].displayVar;
        var l :| 0 <= l < |p.decls| && p.decls[l].name == p.sels[i].name;
        assert q.decls[k] == p.decls[k] && q.decls[l] == p.decls[l];
      } else {
        assert q.decls[|q.decls| - 1].name == q.sels[i].displayVar;
      }
    }
  }

  lemma {:induction false} PlanSelectorMeaning(p: Planning, s: Selector, arguments: set<string>, env: Env)
    requires PlanShape(p, arguments) && PlanMeaning(p, arguments, env)
    requires s.name in arguments && Undeclared(s.name, p.decls) && 0 <= s.offset <= MAX_INT
    requires forall i :: 0 <= i < |p.sels| ==> p.sels[i].name != s.name && p.sels[i].name in arguments
    ensures PlanMeaning(PlanSelector(p, s), arguments, env)
  {
    hide Laid, Resolve, UniqueName, DeclaredIn;
    var input := InputDeclaration(s);
    var decls := p.decls + [input];
    ResolveInput(p.decls, s, env);
    DisplaysDiffer(p, s.name, arguments);
    MeaningAfter(p.sels, p.decls, input, arguments, env);
    if OneColumn(s) {
      assert DeclaredIn(s.(displayVar := s.name, exactCol := |p.columns|, keyCol := |p.columns|), decls, env) by {
        NewlyDeclared(s.(displayVar := s.name, exactCol := |p.columns|, keyCol := |p.columns|), decls, env);
      }
    } else {
      var q := PlanSelector(p, s);
      var planned := q.sels[|p.sels|];
      var local := OffsetDeclaration(s, planned.displayVar);
      DisplaysDiffer(p, planned.displayVar, arguments);
      MeaningAfter(p.sels, decls, local, arguments, env);
      ResolveOther(decls, local, env, s.name);
      ResolveOffset(decls, s, planned.displayVar, env);
      assert q.decls == decls + [local];
      NewlyDeclared(planned, q.decls, env);
    }
  }

  lemma {:induction false} NewlyDeclared(s: Selector, decls: seq<Declaration>, env: Env)
    requires Resolve(decls, env, s.name) == Resolved(env(s.name), SelectionOfKind(s.kind))
    requires !OneColumn(s) ==> Resolve(decls, env, s.displayVar) ==
                               Resolved(Num(Less(NumberOf(env(s.name)), s.offset)), SelectionOfKind(s.kind))
    ensures DeclaredIn(s, decls, env)
  {
  }

  /** A variable not declared yet is not the display variable of an earlier selector. */
  lemma {:induction false} DisplaysDiffer(p: Planning, x: string, arguments: set<string>)
    requires PlanShape(p, arguments) && Undeclared(x, p.decls)
    ensures forall i :: 0 <= i < |p.sels| ==> p.sels[i].displayVar != x
  {
  }

  /** Planned selectors and arguments keep their meaning under one declaration more, when it
      declares none of them, or declares an argument to be itself. */
  lemma {:induction false} MeaningAfter(sels: seq<Selector>, decls: seq<Declaration>, d: Declaration, arguments: set<string>, env: Env)
    requires forall i :: 0 <= i < |sels| ==> DeclaredIn(sels[i], decls, env)
    requires forall i :: 0 <= i < |sels| ==> sels[i].name != d.name && sels[i].displayVar != d.name
    requires forall x :: x in arguments ==> Resolve(decls, env, x).value == env(x)
    requires d.name in arguments ==> Resolve(decls + [d], env, d.name).value == env(d.name)
    ensures forall i :: 0 <= i < |sels| ==> DeclaredIn(sels[i], decls + [d], env)
    ensures forall x :: x in arguments ==> Resolve(decls + [d], env, x).value == env(x)
  {
    hide DeclaredIn, Resolve;
    forall i | 0 <= i < |sels|
      ensures DeclaredIn(sels[i], decls + [d], env)
    {
      DeclaredInGrows(sels[i], decls, d, env);
    }
    forall x | x in arguments
      ensures Resolve(decls + [d], env, x).value == env(x)
    {
      if x != d.name {
        ResolveOther(decls, d, env, x);
      }
    }
  }

  // ----- All selectors -----

  predicate SameSelector(planned: Selector, s: Selector) {
    planned == s.(displayVar := planned.displayVar, exactCol := planned.exactCol, keyCol := planned.keyCol)
  }

  predicate Pending(p: Planning, rest: seq<Selector>, arguments: set<string>) {
    && SelectorsOk(rest)
    && (forall i :: 0 <= i < |rest| ==> rest[i].name in arguments && Undeclared(rest[i].name, p.decls))
    && (forall i, j :: 0 <= i < |p.sels| && 0 <= j < |rest| ==> p.sels[i].name != rest[j].name)
    && (forall i :: 0 <= i < |p.sels| ==> p.sels[i].name in arguments)
  }

  lemma {:induction false} PendingNext(p: Planning, rest: seq<Selector>, arguments: set<string>)
    requires Pending(p, rest, arguments) && rest != [] && PlanShape(p, arguments)
    ensures Pending(PlanSelector(p, rest[0]), rest[1..], arguments)
  {
    hide Laid, UniqueName, SelectorOk;
    var q := PlanSelector(p, rest[0]);
    PlanSelectorLaid(p, rest[0]);
    forall j | 0 <= j < |rest[1..]|
      ensures Undeclared(rest[1..][j].name, q.decls)
    {
      assert rest[1..][j] == rest[j + 1];
    }
  }

  lemma {:induction false} PlanOk(p: Planning, rest: seq<Selector>, arguments: set<string>, env: Env)
    requires PlanShape(p, arguments) && PlanMeaning(p, arguments, env) && Pending(p, rest, arguments)
    ensures var q := Plan(p, rest);
            PlanShape(q, arguments) && PlanMeaning(q, arguments, env) &&
            |q.sels| == |p.sels| + |rest| && p.sels <= q.sels &&
            forall i :: 0 <= i < |rest| ==> SameSelector(q.sels[|p.sels| + i], rest[i])
    decreases |rest|
  {
    hide PlanShape, PlanMeaning, Pending, PlanSelector;
    if rest != [] {
      var s := rest[0];
      var n := PlanSelector(p, s);
      PendingHead(p, rest, arguments);
      PendingNext(p, rest, arguments);
      PlanSelectorShape(p, s, arguments);
      PlanSelectorMeaning(p, s, arguments, env);
      PlanOk(n, rest[1..], arguments, env);
      var q := Plan(p, rest);
      forall i | 0 <= i < |rest|
        ensures SameSelector(q.sels[|p.sels| + i], rest[i])
      {
        if i > 0 {
          assert SameSelector(q.sels[|n.sels| + (i - 1)], rest[1..][i - 1]);
        }
      }
    }
  }

  lemma {:induction false} PendingHead(p: Planning, rest: seq<Selector>, arguments: set<string>)
    requires Pending(p, rest, arguments) && rest != []
    ensures var s := rest[0];
            s.name in arguments && Undeclared(s.name, p.decls) && 0 <= s.offset <= MAX_INT &&
            (forall i :: 0 <= i < |p.sels| ==> p.sels[i].name != s.name && p.sels[i].name in arguments)
    ensures var q := PlanSelector(p, rest[0]);
            |q.sels| == |p.sels| + 1 && p.sels <= q.sels && SameSelector(q.sels[|p.sels|], rest[0])
  {
  }
}
