/** A select that lists one number twice, as =1 and =01, is not lifted faithfully either. */
module LiftingLimits {
  import opened Digits
  import opened Mf2
  import opened Mf1
  import opened Lifting
  import opened LiftingProofs
  import opened LiftingTheorem
  import Decimals

  function Twice(): Token {
    Select("n", PluralKind, None, [Case("=1", [Content("A")]), Case("=01", [Content("B")]), Case("other", [Content("C")])])
  }

  function TwiceSelector(): Selector {
    Selector("n", PluralKind, 0, ["1"], [], "", -1, -1)
  }

  lemma {:induction false} BothAreOne()
    ensures NormalizeExactKey("1") == "1" && NormalizeExactKey("01") == "1"
  {
    OneText();
    assert "01"[..1] == "0" && "0"[..0] == "";
    assert Val("01") == 10 * Val("0") + 1;
  }

  lemma {:induction false} KeyTwice(n: Selector)
    requires n == TwiceSelector().(exact := []) || n == TwiceSelector()
    ensures AddKey(n, "=1") == TwiceSelector() && (n.exact != [] ==> AddKey(n, "=01") == n) && AddKey(n, "other") == n
  {
    BothAreOne();
    assert "=1"[1..] == "1" && "=01"[1..] == "01";
    assert [] + ["1"] == ["1"];
  }

  lemma {:induction false} TwiceKeys()
    ensures AddKeys(TwiceSelector().(exact := []), Twice().cases) == TwiceSelector()
  {
    hide AddKey;
    var n, s, cs := TwiceSelector().(exact := []), TwiceSelector(), Twice().cases;
    KeyTwice(n);
    KeyTwice(s);
    assert cs[1..] == [cs[1], cs[2]] && cs[1..][1..] == [cs[2]] && cs[1..][1..][1..] == [];
    assert AddKeys(s, cs[1..][1..]) == s;
    assert AddKeys(s, cs[1..]) == s;
  }

  lemma {:induction false} TwiceMerges()
    ensures AddSelector([], Twice()) == Some([TwiceSelector()])
  {
    hide AddKeys;
    TwiceKeys();
    assert NewSelector(Twice()) == TwiceSelector().(exact := []);
    assert [] + [TwiceSelector()] == [TwiceSelector()];
    assert Find([], "n") == 0;
  }

  lemma {:induction false} TwiceCollects(mapping: Mapping)
    ensures Collect([Twice()], Analysis([], {})) == Some(Analysis([TwiceSelector()], {"n"})) && Convertible([Twice()], mapping)
  {
    hide AddSelector, CollectCases, ConvertibleCases;
    TwiceMerges();
    var t := Twice();
    var a := Analysis([TwiceSelector()], {"n"});
    assert [t][1..] == [];
    assert {} + {"n"} == {"n"};
    TwiceTexts(a, mapping);
  }

  lemma {:induction false} TwiceTexts(a: Analysis, mapping: Mapping)
    ensures CollectCases(Twice().cases, a) == Some(a) && ConvertibleCases(Twice().cases, mapping)
  {
    hide Collect, Convertible;
    TextLeaf("A", a, mapping);
    var cs := Twice().cases;
    TextCases("=01", "B", "other", "C", a, mapping);
    assert cs[1..] == [Case("=01", [Content("B")]), Case("other", [Content("C")])];
  }

  lemma {:induction false} TwicePlan()
    ensures PlanOf(Analysis([TwiceSelector()], {"n"})).columns == [Column("n", ["1"])]
  {
    hide UniqueName;
    var s := TwiceSelector();
    var p := PlanSelector(Planning([], [], [], {"n"}), s);
    assert [s][1..] == [];
    assert Plan(Planning([], [], [], {"n"}), [s]) == Plan(p, []) == p;
    assert ["1"] + [] == ["1"];
  }

  lemma {:induction false} OneKeyCount()
    ensures VariantCount([Column("n", ["1"])]) == 2
  {
    assert [Column("n", ["1"])][..0] == [];
    assert VariantCount([]) == 1;
  }

  lemma {:induction false} TwiceLifts(mapping: Mapping)
    ensures Lift([Twice()], mapping).Some?
  {
    hide Collect, Convertible, Plan, Product, VariantCount, Fill, Twice, TwiceSelector;
    TwiceCollects(mapping);
    TwicePlan();
    OneKeyCount();
  }

  lemma {:induction false} TextWellFormed(text: string)
    ensures WellFormed([Content(text)])
  {
    assert [Content(text)][1..] == [];
  }

  lemma {:induction false} TwiceCases()
    ensures WellFormedCases(Twice().cases)
  {
    hide WellFormed;
    var cs := Twice().cases;
    assert cs[1..] == [cs[1], cs[2]] && cs[1..][1..] == [cs[2]] && cs[1..][1..][1..] == [];
    TextWellFormed("A");
    TextWellFormed("B");
    TextWellFormed("C");
  }

  lemma {:induction false} TwiceWellFormed()
    ensures WellFormed([Twice()])
  {
    hide WellFormedCases, WellFormedSelect;
    TwiceCases();
    TwiceParses();
    assert [Twice()][1..] == [];
  }

  lemma {:induction false} TwiceParses()
    ensures WellFormedSelect(Twice())
  {
    var t := Twice();
    assert t.cases[0].key[1..] == "1" && t.cases[1].key[1..] == "01" && t.cases[2].key == OTHER;
  }

  lemma {:induction false} TwicePicked(mapping: Mapping, env: Env, rules: Rules)
    requires env("n") == Num(Decimals.Integer(1))
    ensures EvalPicked([Twice()], None, [TwiceSelector()], mapping, env, rules) == Chars("AB")
  {
    hide EvalPicked, Decimals.Normalized, Decimals.Value;
    OneText();
    BothAreOne();
    Decimals.IntegerText(1);
    var t, sels, pl := Twice(), [TwiceSelector()], Some(Plural("n", 0));
    var cs := t.cases;
    assert cs[1..] == [cs[1], cs[2]] && cs[1..][1..] == [cs[2]];
    assert cs[0].key[1..] == "1" && cs[1].key[1..] == "01";
    EvalText("A", pl, sels, mapping, env, rules);
    EvalText("B", pl, sels, mapping, env, rules);
    OtherCase(cs[1..][1..], "C", pl, sels, mapping, env, rules);
    assert Find(sels, "n") == 0 && Picked(sels[0], env, rules) == "1";
    assert EvalPickedCases(cs[1..], PluralKind, "1", pl, sels, mapping, env, rules) == Chars("B") + [];
    ShownTexts("A", "B");
    assert Chars("B") + [] == Chars("B");
    OnePicked(t, sels, mapping, env, rules);
  }

  lemma {:induction false} OnePicked(t: Token, sels: seq<Selector>, mapping: Mapping, env: Env, rules: Rules)
    ensures EvalPicked([t], None, sels, mapping, env, rules) == EvalPickedToken(t, None, sels, mapping, env, rules)
  {
    hide EvalPickedToken;
    assert [t][1..] == [];
  }

  /** For n = 1 the nested {n, plural, =1 {A} =01 {B} other {C}} shows A, its first matching case;
      the lifted message shows AB: key 1 received the leaves of both cases. */
  lemma {:induction false} RepeatedKeyRepeatsText(mapping: Mapping, env: Env, rules: Rules)
    requires env("n") == Num(Decimals.Integer(1))
    ensures WellFormed([Twice()]) && Lift([Twice()], mapping).Some? &&
            Eval([Twice()], None, mapping, env, rules) == Chars("A") &&
            Format(Lift([Twice()], mapping).value, env, rules) == Chars("AB")
  {
    hide Lift, Leaves, Eval, EvalPicked, WellFormed, Format, Collect, Twice, Plan, Product, Fill;
    TwiceWellFormed();
    TwiceCollects(mapping);
    TwiceLifts(mapping);
    TwicePicked(mapping, env, rules);
    TwiceEval(mapping, env, rules);
    LiftedShows([Twice()], mapping, env, rules);
  }

  lemma {:induction false} TwiceEval(mapping: Mapping, env: Env, rules: Rules)
    requires env("n") == Num(Decimals.Integer(1))
    ensures Eval([Twice()], None, mapping, env, rules) == Chars("A")
  {
    OneText();
    Decimals.IntegerText(1);
    var t := Twice();
    assert t.cases[0].key[1..] == "1";
    assert ExactlyMatches("=1", Decimals.Integer(1));
    assert ChosenCase(t, env, rules) == 0;
    EvalText("A", Some(Plural("n", 0)), [], mapping, env, rules);
    assert [t][1..] == [];
    assert Chars("A") + [] == Chars("A");
  }
}
