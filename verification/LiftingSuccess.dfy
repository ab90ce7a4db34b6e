/** Which messages can be lifted, told from their tokens alone. */
module LiftingSuccess {
  import opened Digits
  import opened Lists
  import opened Mf1
  import opened Lifting
  import opened VariantProofs

  type SelectToken = t: Token | t.Select? witness Select("", SelectKind, None, [])

  // ----- What a message has -----

  /** Every select of the tokens, wherever it is nested. */
  function Selects(tokens: seq<Token>): seq<SelectToken> {
    if tokens == [] then [] else SelectsOf(tokens[0]) + Selects(tokens[1..])
  }

  function SelectsOf(t: Token): seq<SelectToken> {
    if t.Select? then [t] + SelectsOfCases(t.cases) else []
  }

  function SelectsOfCases(cases: seq<Case>): seq<SelectToken> {
    if cases == [] then [] else Selects(cases[0].tokens) + SelectsOfCases(cases[1..])
  }

  /** The type and style of every formatted argument. */
  function Formats(tokens: seq<Token>): seq<(string, string)> {
    if tokens == [] then [] else FormatsOf(tokens[0]) + Formats(tokens[1..])
  }

  function FormatsOf(t: Token): seq<(string, string)> {
    match t
    case FunctionArg(_, key, style) => [(key, style)]
    case Select(_, _, _, cases) => FormatsOfCases(cases)
    case _ => []
  }

  function FormatsOfCases(cases: seq<Case>): seq<(string, string)> {
    if cases == [] then [] else Formats(cases[0].tokens) + FormatsOfCases(cases[1..])
  }

  function Offset(t: SelectToken): int {
    if t.pluralOffset.Some? then t.pluralOffset.value else 0
  }

  /** Any two selects on one argument are of one kind and have one offset. */
  predicate Consistent(ts: seq<SelectToken>) {
    forall i, j :: 0 <= i < j < |ts| && ts[i].arg == ts[j].arg ==> ts[i].kind == ts[j].kind && Offset(ts[i]) == Offset(ts[j])
  }

  // ----- How many variants it needs -----

  predicate Exactly(kind: Kind, key: string) {
    kind != SelectKind && key != "" && key[0] == '='
  }

  function CaseExact(kind: Kind, cases: seq<Case>): set<string> {
    set c | c in cases && Exactly(kind, c.key) :: NormalizeExactKey(c.key[1..])
  }

  function CaseOther(kind: Kind, cases: seq<Case>): set<string> {
    set c | c in cases && !Exactly(kind, c.key) && c.key != "other" :: c.key
  }

  /** The exact keys, normalized, and the other keys that selects on an argument have anywhere. */
  function ExactKeys(ts: seq<SelectToken>, arg: string): set<string> {
    set t, k | t in ts && t.arg == arg && k in CaseExact(t.kind, t.cases) :: k
  }

  function OtherKeys(ts: seq<SelectToken>, arg: string): set<string> {
    set t, k | t in ts && t.arg == arg && k in CaseOther(t.kind, t.cases) :: k
  }

  predicate HasOffset(ts: seq<SelectToken>, arg: string) {
    exists t :: t in ts && t.arg == arg && t.kind != SelectKind && Offset(t) != 0
  }

  /** The arguments of the selects, each once. */
  function Args(ts: seq<SelectToken>): seq<string> {
    if ts == [] then []
    else
      var before := Args(ts[..|ts| - 1]);
      var arg := ts[|ts| - 1].arg;
      if arg in before then before else before + [arg]
  }

  lemma {:induction false} ArgsAre(ts: seq<SelectToken>)
    ensures NoRepeats(Args(ts)) && forall a :: a in Args(ts) <==> exists t :: t in ts && t.arg == a
  {
    if ts != [] {
      var (before, last) := (ts[..|ts| - 1], ts[|ts| - 1]);
      ArgsAre(before);
      assert ts == before + [last];
    }
  }

  /** The options of one argument: a merged key or the catch-all; with an offset, one of the exact
      keys or none and one of the others or none. */
  function OptionsOf(ts: seq<SelectToken>, arg: string): nat {
    var (e, k) := (|ExactKeys(ts, arg)|, |OtherKeys(ts, arg)|);
    if HasOffset(ts, arg) then (e + 1) * (k + 1) else e + k + 1
  }

  function Times(a: nat, b: nat): nat {
    a * b
  }

  function Variants(ts: seq<SelectToken>, args: seq<string>): nat
    decreases |args|
  {
    if args == [] then 1 else Times(OptionsOf(ts, args[0]), Variants(ts, args[1..]))
  }

  // ----- Collecting is adding the selects one by one -----

  function AddAll(sels: seq<Selector>, ts: seq<SelectToken>): Option<seq<Selector>>
    decreases |ts|
  {
    if ts == [] then Some(sels)
    else
      match AddSelector(sels, ts[0])
      case None => None
      case Some(next) => AddAll(next, ts[1..])
  }

  lemma {:induction false} AddAllConcat(sels: seq<Selector>, a: seq<SelectToken>, b: seq<SelectToken>)
    ensures AddAll(sels, a + b) == match AddAll(sels, a) case None => None case Some(next) => AddAll(next, b)
    decreases |a|
  {
    hide AddSelector;
    if a == [] {
      assert a + b == b;
    } else {
      assert (a + b)[0] == a[0] && (a + b)[1..] == a[1..] + b;
      var next := AddSelector(sels, a[0]);
      if next.Some? {
        AddAllConcat(next.value, a[1..], b);
      }
    }
  }

  predicate SameSels(a: Option<Analysis>, sels: Option<seq<Selector>>) {
    (a.Some? <==> sels.Some?) && (a.Some? ==> a.value.sels == sels.value)
  }

  lemma {:induction false} CollectAdds(tokens: seq<Token>, a: Analysis)
    ensures SameSels(Collect(tokens, a), AddAll(a.sels, Selects(tokens)))
    decreases tokens
  {
    hide CollectToken, SelectsOf, AddAll;
    AddNone(a.sels);
    if tokens != [] {
      CollectTokenAdds(tokens[0], a);
      AddAllConcat(a.sels, SelectsOf(tokens[0]), Selects(tokens[1..]));
      var b := CollectToken(tokens[0], a);
      if b.Some? {
        CollectAdds(tokens[1..], b.value);
      }
    }
  }

  lemma {:induction false} AddNone(sels: seq<Selector>)
    ensures AddAll(sels, []) == Some(sels)
  {
  }

  lemma {:induction false} AddOne(sels: seq<Selector>, t: SelectToken)
    ensures AddAll(sels, [t]) == AddSelector(sels, t)
  {
    hide AddSelector;
    assert [t][1..] == [];
  }

  lemma {:induction false} CollectTokenAdds(t: Token, a: Analysis)
    ensures SameSels(CollectToken(t, a), AddAll(a.sels, SelectsOf(t)))
    decreases t
  {
    hide AddSelector, AddAll, CollectCases, SelectsOfCases;
    AddNone(a.sels);
    if t.Select? {
      AddOne(a.sels, t);
      AddAllConcat(a.sels, [t], SelectsOfCases(t.cases));
      var sels := AddSelector(a.sels, t);
      if sels.Some? {
        CollectCasesAdd(t.cases, Analysis(sels.value, a.names + {t.arg}));
      }
    }
  }

  lemma {:induction false} CollectCasesAdd(cases: seq<Case>, a: Analysis)
    ensures SameSels(CollectCases(cases, a), AddAll(a.sels, SelectsOfCases(cases)))
    decreases cases
  {
    hide Collect, Selects, AddAll;
    AddNone(a.sels);
    if cases != [] {
      CollectAdds(cases[0].tokens, a);
      AddAllConcat(a.sels, Selects(cases[0].tokens), SelectsOfCases(cases[1..]));
      var b := Collect(cases[0].tokens, a);
      if b.Some? {
        CollectCasesAdd(cases[1..], b.value);
      }
    }
  }

  // ----- What the selectors hold -----

  ghost predicate HoldsKeys(keys: seq<string>, all: set<string>) {
    NoRepeats(keys) && forall k :: k in keys <==> k in all
  }

  ghost predicate Merges(s: Selector, arg: string, ts: seq<SelectToken>) {
    s.name == arg && HoldsKeys(s.exact, ExactKeys(ts, arg)) && HoldsKeys(s.keys, OtherKeys(ts, arg)) &&
    forall t :: t in ts && t.arg == arg ==> t.kind == s.kind && Offset(t) == s.offset
  }

  ghost predicate MergesAll(sels: seq<Selector>, args: seq<string>, ts: seq<SelectToken>) {
    |sels| == |args| && forall i :: 0 <= i < |sels| ==> Merges(sels[i], args[i], ts)
  }

  lemma {:induction false} KeysAdded(s: Selector, cases: seq<Case>, exact: set<string>, other: set<string>)
    requires HoldsKeys(s.exact, exact) && HoldsKeys(s.keys, other)
    ensures var r := AddKeys(s, cases);
            r.name == s.name && r.kind == s.kind && r.offset == s.offset &&
            HoldsKeys(r.exact, exact + CaseExact(s.kind, cases)) && HoldsKeys(r.keys, other + CaseOther(s.kind, cases))
    decreases |cases|
  {
    hide NormalizeExactKey, HoldsKeys;
    if cases == [] {
      assert exact + CaseExact(s.kind, cases) == exact && other + CaseOther(s.kind, cases) == other;
    } else {
      var (c, rest) := (cases[0], cases[1..]);
      KeyAdded(s, c.key, exact, other);
      assert cases == [c] + rest;
      KeysAdded(AddKey(s, c.key), rest, exact + CaseExact(s.kind, [c]), other + CaseOther(s.kind, [c]));
      assert CaseExact(s.kind, cases) == CaseExact(s.kind, [c]) + CaseExact(s.kind, rest);
      assert CaseOther(s.kind, cases) == CaseOther(s.kind, [c]) + CaseOther(s.kind, rest);
      assert exact + CaseExact(s.kind, cases) == (exact + CaseExact(s.kind, [c])) + CaseExact(s.kind, rest);
      assert other + CaseOther(s.kind, cases) == (other + CaseOther(s.kind, [c])) + CaseOther(s.kind, rest);
    }
  }

  lemma {:induction false} KeyAdded(s: Selector, key: string, exact: set<string>, other: set<string>)
    requires HoldsKeys(s.exact, exact) && HoldsKeys(s.keys, other)
    ensures forall c: Case :: c.key == key ==>
              var r := AddKey(s, key);
              r.name == s.name && r.kind == s.kind && r.offset == s.offset &&
              HoldsKeys(r.exact, exact + CaseExact(s.kind, [c])) && HoldsKeys(r.keys, other + CaseOther(s.kind, [c]))
  {
    hide NormalizeExactKey, HoldsKeys;
    forall c: Case | c.key == key
      ensures HoldsKeys(AddKey(s, key).exact, exact + CaseExact(s.kind, [c])) &&
              HoldsKeys(AddKey(s, key).keys, other + CaseOther(s.kind, [c]))
    {
      var n := if Exactly(s.kind, key) then NormalizeExactKey(key[1..]) else "";
      assert forall x :: x in CaseExact(s.kind, [c]) <==> Exactly(s.kind, key) && x == n;
      assert forall x :: x in CaseOther(s.kind, [c]) <==> !Exactly(s.kind, key) && key != "other" && x == key;
      UniqueAppended(s.exact, exact, n);
      UniqueAppended(s.keys, other, key);
      if Exactly(s.kind, key) {
        assert exact + CaseExact(s.kind, [c]) == exact + {n} && other + CaseOther(s.kind, [c]) == other;
      } else if key != "other" {
        assert exact + CaseExact(s.kind, [c]) == exact && other + CaseOther(s.kind, [c]) == other + {key};
      } else {
        assert exact + CaseExact(s.kind, [c]) == exact && other + CaseOther(s.kind, [c]) == other;
      }
    }
  }

  lemma {:induction false} UniqueAppended(keys: seq<string>, all: set<string>, k: string)
    requires HoldsKeys(keys, all)
    ensures HoldsKeys(AppendUnique(keys, k), all + {k})
  {
  }

  lemma {:induction false} KeysOfMore(ts: seq<SelectToken>, t: SelectToken, arg: string)
    ensures ExactKeys(ts + [t], arg) == ExactKeys(ts, arg) + if t.arg == arg then CaseExact(t.kind, t.cases) else {}
    ensures OtherKeys(ts + [t], arg) == OtherKeys(ts, arg) + if t.arg == arg then CaseOther(t.kind, t.cases) else {}
  {
    hide CaseExact, CaseOther;
    assert forall x :: x in ts + [t] <==> x in ts || x == t;
  }

  lemma {:induction false} KeysOfNone(ts: seq<SelectToken>, arg: string)
    requires forall t :: t in ts ==> t.arg != arg
    ensures ExactKeys(ts, arg) == {} && OtherKeys(ts, arg) == {}
  {
  }

  lemma {:induction false} MoreIsConsistent(ts: seq<SelectToken>, t: SelectToken)
    requires Consistent(ts)
    ensures Consistent(ts + [t]) <==> forall u :: u in ts && u.arg == t.arg ==> u.kind == t.kind && Offset(u) == Offset(t)
  {
    var all := ts + [t];
    if Consistent(all) {
      forall u | u in ts && u.arg == t.arg ensures u.kind == t.kind && Offset(u) == Offset(t) {
        var i :| 0 <= i < |ts| && ts[i] == u;
        assert all[i] == u && all[|ts|] == t;
      }
    }
    if forall u :: u in ts && u.arg == t.arg ==> u.kind == t.kind && Offset(u) == Offset(t) {
      forall i, j | 0 <= i < j < |all| && all[i].arg == all[j].arg
        ensures all[i].kind == all[j].kind && Offset(all[i]) == Offset(all[j])
      {
        assert all[i] == ts[i] && (j < |ts| ==> all[j] == ts[j]);
      }
    }
  }

  lemma {:induction false} FindArg(sels: seq<Selector>, args: seq<string>, ts: seq<SelectToken>, arg: string)
    requires MergesAll(sels, args, ts)
    ensures var i := Find(sels, arg); (i < |sels| <==> arg in args) && (i < |sels| ==> args[i] == arg)
  {
    hide HoldsKeys, ExactKeys, OtherKeys;
    var i := Find(sels, arg);
    if arg in args {
      var j :| 0 <= j < |args| && args[j] == arg;
      assert Merges(sels[j], args[j], ts);
    }
    if i < |sels| {
      assert Merges(sels[i], args[i], ts);
    }
  }

  lemma {:induction false} ArgsOfMore(ts: seq<SelectToken>, t: SelectToken)
    ensures Args(ts + [t]) == if t.arg in Args(ts) then Args(ts) else Args(ts) + [t.arg]
  {
    assert (ts + [t])[..|ts|] == ts;
  }

  /** Merging the next select keeps every selector in step, and fails exactly when it clashes. */
  lemma {:induction false} AddedMerges(sels: seq<Selector>, ts: seq<SelectToken>, t: SelectToken)
    requires MergesAll(sels, Args(ts), ts) && Consistent(ts)
    ensures var r := AddSelector(sels, t);
            (r.Some? <==> Consistent(ts + [t])) && (r.Some? ==> MergesAll(r.value, Args(ts + [t]), ts + [t]))
  {
    hide HoldsKeys, ExactKeys, OtherKeys, Args, AddKeys, Consistent, CaseExact, CaseOther;
    var args := Args(ts);
    ArgsAre(ts);
    ArgsOfMore(ts, t);
    FindArg(sels, args, ts, t.arg);
    MoreIsConsistent(ts, t);
    var i := Find(sels, t.arg);
    var r := AddSelector(sels, t);
    if i == |sels| {
      KeysOfNone(ts, t.arg);
      NewMerges(ts, t);
      assert r.value == sels + [AddKeys(NewSelector(t), t.cases)];
    } else {
      var u :| u in ts && u.arg == t.arg;
      assert Merges(sels[i], args[i], ts);
      assert u.kind == sels[i].kind && Offset(u) == sels[i].offset;
    }
    if r.Some? {
      forall j | 0 <= j < |r.value| ensures Merges(r.value[j], Args(ts + [t])[j], ts + [t]) {
        if j == i {
          if i < |sels| {
            assert Merges(sels[i], args[i], ts);
            AddedToOne(sels[i], ts, t);
          }
        } else {
          assert Merges(sels[j], args[j], ts);
          assert args[j] != t.arg;
          OthersStay(sels[j], args[j], ts, t);
        }
      }
    }
  }

  lemma {:induction false} NewMerges(ts: seq<SelectToken>, t: SelectToken)
    requires forall u :: u in ts ==> u.arg != t.arg
    ensures Merges(AddKeys(NewSelector(t), t.cases), t.arg, ts + [t])
  {
    hide CaseExact, CaseOther, AddKeys;
    KeysOfNone(ts, t.arg);
    KeysOfMore(ts, t, t.arg);
    var n := NewSelector(t);
    assert HoldsKeys([], {});
    KeysAdded(n, t.cases, {}, {});
    assert forall u :: u in ts + [t] && u.arg == t.arg ==> u == t;
  }

  lemma {:induction false} AddedToOne(s: Selector, ts: seq<SelectToken>, t: SelectToken)
    requires Merges(s, t.arg, ts) && t.kind == s.kind && Offset(t) == s.offset
    ensures Merges(AddKeys(s, t.cases), t.arg, ts + [t])
  {
    hide CaseExact, CaseOther, AddKeys, HoldsKeys, ExactKeys, OtherKeys;
    KeysOfMore(ts, t, t.arg);
    KeysAdded(s, t.cases, ExactKeys(ts, t.arg), OtherKeys(ts, t.arg));
  }

  lemma {:induction false} OthersStay(s: Selector, arg: string, ts: seq<SelectToken>, t: SelectToken)
    requires Merges(s, arg, ts) && t.arg != arg
    ensures Merges(s, arg, ts + [t])
  {
    hide HoldsKeys, ExactKeys, OtherKeys;
    KeysOfMore(ts, t, arg);
    assert ExactKeys(ts, arg) + {} == ExactKeys(ts, arg) && OtherKeys(ts, arg) + {} == OtherKeys(ts, arg);
  }

  lemma {:induction false} AllMerge(sels: seq<Selector>, before: seq<SelectToken>, ts: seq<SelectToken>)
    requires MergesAll(sels, Args(before), before) && Consistent(before)
    ensures var r := AddAll(sels, ts);
            (r.Some? <==> Consistent(before + ts)) && (r.Some? ==> MergesAll(r.value, Args(before + ts), before + ts))
    decreases |ts|
  {
    hide MergesAll, Consistent, AddSelector, Args;
    if ts == [] {
      assert before + ts == before;
    } else {
      var t := ts[0];
      AddedMerges(sels, before, t);
      assert before + ts == (before + [t]) + ts[1..];
      var next := AddSelector(sels, t);
      if next.Some? {
        AllMerge(next.value, before + [t], ts[1..]);
      } else {
        StaysInconsistent(before + [t], ts[1..]);
      }
    }
  }

  lemma {:induction false} StaysInconsistent(a: seq<SelectToken>, b: seq<SelectToken>)
    requires !Consistent(a)
    ensures !Consistent(a + b)
  {
    var i, j :| 0 <= i < j < |a| && a[i].arg == a[j].arg && !(a[i].kind == a[j].kind && Offset(a[i]) == Offset(a[j]));
    assert (a + b)[i] == a[i] && (a + b)[j] == a[j];
  }

  // ----- Counting -----

  lemma {:induction false} CountAppend(a: seq<Column>, c: Column)
    ensures VariantCount(a + [c]) == VariantCount(a) * (|c.keys| + 1)
  {
    assert (a + [c])[..|a|] == a;
  }

  lemma {:induction false} SizeOf(keys: seq<string>, all: set<string>)
    requires HoldsKeys(keys, all)
    ensures |keys| == |all|
  {
    if keys == [] {
      assert all == {};
    } else {
      var (front, last) := (keys[..|keys| - 1], keys[|keys| - 1]);
      assert keys == front + [last];
      assert HoldsKeys(front, all - {last});
      SizeOf(front, all - {last});
    }
  }

  lemma {:induction false} PlanMultiplies(p: Planning, s: Selector, ts: seq<SelectToken>)
    requires Merges(s, s.name, ts) && exists t :: t in ts && t.arg == s.name
    ensures VariantCount(PlanSelector(p, s).columns) == VariantCount(p.columns) * OptionsOf(ts, s.name)
  {
    hide VariantCount, UniqueName, ExactKeys, OtherKeys, HoldsKeys;
    SizeOf(s.exact, ExactKeys(ts, s.name));
    SizeOf(s.keys, OtherKeys(ts, s.name));
    var t :| t in ts && t.arg == s.name;
    assert HasOffset(ts, s.name) <==> !OneColumn(s);
    var n := VariantCount(p.columns);
    var (e, k) := (|s.exact|, |s.keys|);
    if OneColumn(s) {
      CountAppend(p.columns, Column(s.name, s.exact + s.keys));
    } else {
      var local := UniqueName(s.name + "_minus_" + FormatInt(s.offset), p.names);
      CountAppend(p.columns, Column(s.name, s.exact));
      Associates(n, e + 1, k + 1);
      if s.exact == [] {
        CountAppend(p.columns, Column(local, s.keys));
        assert PlanSelector(p, s).columns == p.columns + [Column(local, s.keys)];
        assert (e + 1) * (k + 1) == k + 1;
      } else if s.keys == [] {
        assert PlanSelector(p, s).columns == p.columns + [Column(s.name, s.exact)];
        assert (e + 1) * (k + 1) == e + 1;
      } else {
        CountAppend(p.columns + [Column(s.name, s.exact)], Column(local, s.keys));
      }
    }
  }

  lemma {:induction false} Associates(a: nat, b: nat, c: nat)
    ensures (a * b) * c == a * (b * c)
  {
  }

  lemma {:induction false} PlanCounts(p: Planning, sels: seq<Selector>, args: seq<string>, ts: seq<SelectToken>)
    requires MergesAll(sels, args, ts) && forall a :: a in args ==> exists t :: t in ts && t.arg == a
    ensures VariantCount(Plan(p, sels).columns) == VariantCount(p.columns) * Variants(ts, args)
    decreases |sels|
  {
    hide VariantCount, PlanSelector, OptionsOf, Merges;
    if sels != [] {
      assert Merges(sels[0], args[0], ts);
      assert args[0] in args;
      NamedByArg(sels[0], args[0], ts);
      PlanMultiplies(p, sels[0], ts);
      var q := PlanSelector(p, sels[0]);
      assert forall i :: 0 <= i < |sels[1..]| ==> sels[1..][i] == sels[i + 1] && args[1..][i] == args[i + 1];
      assert forall a :: a in args[1..] ==> a in args;
      PlanCounts(q, sels[1..], args[1..], ts);
      Associates(VariantCount(p.columns), OptionsOf(ts, args[0]), Variants(ts, args[1..]));
    }
  }

  lemma {:induction false} NamedByArg(s: Selector, arg: string, ts: seq<SelectToken>)
    requires Merges(s, arg, ts)
    ensures s.name == arg
  {
  }

  // ----- Formatted arguments -----

  predicate Maps(fs: seq<(string, string)>, mapping: Mapping) {
    forall f :: f in fs ==> mapping(f.0, f.1).Some?
  }

  lemma {:induction false} MapsConcat(a: seq<(string, string)>, b: seq<(string, string)>, mapping: Mapping)
    ensures Maps(a + b, mapping) <==> Maps(a, mapping) && Maps(b, mapping)
  {
    assert forall f :: f in a + b <==> f in a || f in b;
  }

  lemma {:induction false} ConvertibleIff(tokens: seq<Token>, mapping: Mapping)
    ensures Convertible(tokens, mapping) <==> Maps(Formats(tokens), mapping)
    decreases tokens
  {
    hide ConvertibleToken, FormatsOf, Maps;
    if tokens == [] {
      assert Maps([], mapping) by { NothingToMap(mapping); }
    } else {
      ConvertibleTokenIff(tokens[0], mapping);
      ConvertibleIff(tokens[1..], mapping);
      MapsConcat(FormatsOf(tokens[0]), Formats(tokens[1..]), mapping);
    }
  }

  lemma {:induction false} NothingToMap(mapping: Mapping)
    ensures Maps([], mapping)
  {
  }

  lemma {:induction false} ConvertibleTokenIff(t: Token, mapping: Mapping)
    ensures ConvertibleToken(t, mapping) <==> Maps(FormatsOf(t), mapping)
    decreases t
  {
    if t.Select? {
      ConvertibleCasesIff(t.cases, mapping);
    } else if t.FunctionArg? {
      assert (t.key, t.style) in FormatsOf(t);
    }
  }

  lemma {:induction false} ConvertibleCasesIff(cases: seq<Case>, mapping: Mapping)
    ensures ConvertibleCases(cases, mapping) <==> Maps(FormatsOfCases(cases), mapping)
    decreases cases
  {
    hide Convertible, Formats, Maps;
    if cases == [] {
      NothingToMap(mapping);
    } else {
      ConvertibleIff(cases[0].tokens, mapping);
      ConvertibleCasesIff(cases[1..], mapping);
      MapsConcat(Formats(cases[0].tokens), FormatsOfCases(cases[1..]), mapping);
    }
  }

  // ----- When lifting succeeds -----

  predicate Liftable(tokens: seq<Token>, mapping: Mapping) {
    var ts := Selects(tokens);
    Consistent(ts) && Maps(Formats(tokens), mapping) && Variants(ts, Args(ts)) <= 4096
  }

  /** A message is lifted exactly when any two selects on one argument agree in kind and offset, every
      formatted argument maps to a function, and it needs at most 4096 variants; and then it has
      exactly as many. */
  lemma {:induction false} LiftSucceedsIff(tokens: seq<Token>, mapping: Mapping)
    ensures Lift(tokens, mapping).Some? <==> Liftable(tokens, mapping)
    ensures var r := Lift(tokens, mapping);
            r.Some? && r.value.SelectMessage? ==> |r.value.variants| == Variants(Selects(tokens), Args(Selects(tokens)))
  {
    hide Collect, Convertible, Plan, VariantCount, Product, Fill, Variants, Maps, Consistent, Formats, Selects, AddAll;
    var empty := Analysis([], {});
    var ts := Selects(tokens);
    CollectAdds(tokens, empty);
    StartsMerged();
    AllMerge([], [], ts);
    assert [] + ts == ts;
    ConvertibleIff(tokens, mapping);
    ArgsAre(ts);
    var a := Collect(tokens, empty);
    if a.Some? {
      var p := Plan(Planning([], [], [], a.value.names), a.value.sels);
      PlanCounts(Planning([], [], [], a.value.names), a.value.sels, Args(ts), ts);
      NoColumnsCount();
      assert VariantCount(p.columns) == Variants(ts, Args(ts));
      ProductSize(p.columns);
      if a.value.sels == [] {
        NoArgs(ts, Args(ts));
      }
    }
  }

  lemma {:induction false} ProductSize(columns: seq<Column>)
    ensures |Product(columns)| == VariantCount(columns)
    decreases |columns|
  {
    if columns != [] {
      var n := |columns| - 1;
      ProductSize(columns[..n]);
      SpreadAllSize(Product(columns[..n]), Options(columns[n]));
    }
  }

  lemma {:induction false} StartsMerged()
    ensures MergesAll([], Args([]), []) && Consistent([])
  {
  }

  lemma {:induction false} NoColumnsCount()
    ensures VariantCount([]) == 1
  {
  }

  lemma {:induction false} NoArgs(ts: seq<SelectToken>, args: seq<string>)
    ensures args == [] ==> Variants(ts, args) == 1
  {
  }
}
