/** What collecting the selectors of a message establishes: every select of the message finds
    its argument's selector, with each of its keys merged into it. */
module CollectProofs {
  import opened Digits
  import opened Lists
  import opened Mf1
  import opened Lifting

  /** A key of the selector other than an exact one: a plural category, or any named value. */
  predicate OrdinaryKey(kind: Kind, k: string) {
    if IsPlural(kind) then k in CATEGORY_KEYS else k != "" && k != OTHER
  }

  predicate SelectorOk(s: Selector) {
    && NoRepeats(s.exact) && NoRepeats(s.keys)
    && (forall k :: k in s.exact ==> AllDigits(k) && k != "")
    && (forall k :: k in s.keys ==> OrdinaryKey(s.kind, k))
    && 0 <= s.offset <= MAX_INT
    && (!IsPlural(s.kind) ==> s.exact == [] && s.offset == 0)
  }

  predicate SelectorsOk(sels: seq<Selector>) {
    && (forall i :: 0 <= i < |sels| ==> SelectorOk(sels[i]))
    && (forall i, j :: 0 <= i < j < |sels| ==> sels[i].name != sels[j].name)
  }

  predicate Grows(a: Selector, b: Selector) {
    a.name == b.name && a.kind == b.kind && a.offset == b.offset && a.exact <= b.exact && a.keys <= b.keys
  }

  predicate GrowsAll(a: seq<Selector>, b: seq<Selector>) {
    |a| <= |b| && forall i :: 0 <= i < |a| ==> Grows(a[i], b[i])
  }

  predicate HasCase(s: Selector, key: string) {
    key == OTHER || (if IsExact(s.kind, key) then NormalizeExactKey(key[1..]) in s.exact else key in s.keys)
  }

  predicate HasCases(s: Selector, cases: seq<Case>) {
    forall i :: 0 <= i < |cases| ==> HasCase(s, cases[i].key)
  }

  predicate RegisteredSelect(t: Token, sels: seq<Selector>)
    requires t.Select?
  {
    var i := Find(sels, t.arg);
    i < |sels| && sels[i].kind == t.kind && sels[i].offset == OffsetOf(t.pluralOffset) && HasCases(sels[i], t.cases)
  }

  predicate Registered(tokens: seq<Token>, sels: seq<Selector>) {
    tokens == [] || (RegisteredToken(tokens[0], sels) && Registered(tokens[1..], sels))
  }

  predicate RegisteredToken(t: Token, sels: seq<Selector>) {
    t.Select? ==> RegisteredSelect(t, sels) && RegisteredCases(t.cases, sels)
  }

  predicate RegisteredCases(cases: seq<Case>, sels: seq<Selector>) {
    cases == [] || (Registered(cases[0].tokens, sels) && RegisteredCases(cases[1..], sels))
  }

  /** Every argument named anywhere in the tokens. */
  predicate Named(tokens: seq<Token>, names: set<string>) {
    tokens == [] || (NamedToken(tokens[0], names) && Named(tokens[1..], names))
  }

  predicate NamedToken(t: Token, names: set<string>) {
    match t
    case PlainArg(a) => a in names
    case FunctionArg(a, _, _) => a in names
    case Select(a, _, _, cases) => a in names && NamedCases(cases, names)
    case _ => true
  }

  predicate NamedCases(cases: seq<Case>, names: set<string>) {
    cases == [] || (Named(cases[0].tokens, names) && NamedCases(cases[1..], names))
  }

  // ----- One selector -----

  lemma {:induction false} AddKeyOk(s: Selector, key: string)
    requires SelectorOk(s) && ValidKey(s.kind, key)
    ensures SelectorOk(AddKey(s, key)) && Grows(s, AddKey(s, key)) && HasCase(AddKey(s, key), key)
  {
    if IsExact(s.kind, key) {
      NormalizedIsDigits(key[1..]);
    }
  }

  lemma {:induction false} NormalizedIsDigits(digits: string)
    requires AllDigits(digits) && digits != ""
    ensures AllDigits(NormalizeExactKey(digits)) && NormalizeExactKey(digits) != ""
  {
    hide Itoa, Val;
    assert digits[0] != '-' && digits[0] != '+';
    ItoaNames(Val(digits));
  }

  lemma {:induction false} AddKeysOk(s: Selector, cases: seq<Case>)
    requires SelectorOk(s)
    requires forall i :: 0 <= i < |cases| ==> ValidKey(s.kind, cases[i].key)
    ensures SelectorOk(AddKeys(s, cases)) && Grows(s, AddKeys(s, cases)) && HasCases(AddKeys(s, cases), cases)
    decreases |cases|
  {
    hide SelectorOk, AddKey;
    if cases != [] {
      var t := AddKey(s, cases[0].key);
      AddKeyOk(s, cases[0].key);
      AddKeysOk(t, cases[1..]);
      var r := AddKeys(s, cases);
      forall i | 0 <= i < |cases|
        ensures HasCase(r, cases[i].key)
      {
        if i > 0 {
          assert HasCase(r, cases[1..][i - 1].key);
        } else {
          HasCaseGrows(t, r, cases[0].key);
        }
      }
    }
  }

  lemma {:induction false} HasCaseGrows(a: Selector, b: Selector, key: string)
    requires Grows(a, b) && HasCase(a, key)
    ensures HasCase(b, key)
  {
  }

  lemma {:induction false} FindUnique(sels: seq<Selector>, i: nat)
    requires i < |sels| && forall j, k :: 0 <= j < k < |sels| ==> sels[j].name != sels[k].name
    ensures Find(sels, sels[i].name) == i
  {
  }

  lemma {:induction false} AddSelectorOk(sels: seq<Selector>, t: Token)
    requires t.Select? && SelectorsOk(sels) && WellFormedSelect(t) && AddSelector(sels, t).Some?
    ensures var r := AddSelector(sels, t).value;
            SelectorsOk(r) && GrowsAll(sels, r) && RegisteredSelect(t, r)
  {
    hide SelectorOk, AddKeys, HasCases, MergedKey;
    var i := Find(sels, t.arg);
    var r := AddSelector(sels, t).value;
    var was := if i == |sels| then NewSelector(t) else sels[i];
    NewSelectorOk(t);
    AddKeysOk(was, t.cases);
    assert r[i] == AddKeys(was, t.cases);
    assert forall j :: 0 <= j < |sels| && j != i ==> r[j] == sels[j];
    assert SelectorsOk(r);
    FindUnique(r, i);
  }

  lemma {:induction false} NewSelectorOk(t: Token)
    requires t.Select? && WellFormedSelect(t)
    ensures SelectorOk(NewSelector(t))
  {
  }

  // ----- Growth keeps what is registered -----

  lemma {:induction false} FindGrows(a: seq<Selector>, b: seq<Selector>, name: string)
    requires GrowsAll(a, b) && Find(a, name) < |a|
    ensures Find(b, name) == Find(a, name)
  {
    var i := Find(a, name);
    assert b[i].name == name;
    assert forall j :: 0 <= j < i ==> b[j].name != name by {
      assert forall j :: 0 <= j < i ==> Grows(a[j], b[j]);
    }
  }

  lemma {:induction false} RegisteredGrows(tokens: seq<Token>, a: seq<Selector>, b: seq<Selector>)
    requires GrowsAll(a, b) && Registered(tokens, a)
    ensures Registered(tokens, b)
    decreases tokens
  {
    if tokens != [] {
      RegisteredTokenGrows(tokens[0], a, b);
      RegisteredGrows(tokens[1..], a, b);
    }
  }

  lemma {:induction false} RegisteredTokenGrows(t: Token, a: seq<Selector>, b: seq<Selector>)
    requires GrowsAll(a, b) && RegisteredToken(t, a)
    ensures RegisteredToken(t, b)
    decreases t
  {
    if t.Select? {
      FindGrows(a, b, t.arg);
      var i := Find(a, t.arg);
      forall k | 0 <= k < |t.cases|
        ensures HasCase(b[i], t.cases[k].key)
      {
        HasCaseGrows(a[i], b[i], t.cases[k].key);
      }
      RegisteredCasesGrow(t.cases, a, b);
    }
  }

  lemma {:induction false} RegisteredCasesGrow(cases: seq<Case>, a: seq<Selector>, b: seq<Selector>)
    requires GrowsAll(a, b) && RegisteredCases(cases, a)
    ensures RegisteredCases(cases, b)
    decreases cases
  {
    if cases != [] {
      RegisteredGrows(cases[0].tokens, a, b);
      RegisteredCasesGrow(cases[1..], a, b);
    }
  }

  lemma {:induction false} NamedGrows(tokens: seq<Token>, a: set<string>, b: set<string>)
    requires a <= b && Named(tokens, a)
    ensures Named(tokens, b)
    decreases tokens
  {
    if tokens != [] {
      NamedTokenGrows(tokens[0], a, b);
      NamedGrows(tokens[1..], a, b);
    }
  }

  lemma {:induction false} NamedTokenGrows(t: Token, a: set<string>, b: set<string>)
    requires a <= b && NamedToken(t, a)
    ensures NamedToken(t, b)
    decreases t
  {
    if t.Select? {
      NamedCasesGrow(t.cases, a, b);
    }
  }

  lemma {:induction false} NamedCasesGrow(cases: seq<Case>, a: set<string>, b: set<string>)
    requires a <= b && NamedCases(cases, a)
    ensures NamedCases(cases, b)
    decreases cases
  {
    if cases != [] {
      NamedGrows(cases[0].tokens, a, b);
      NamedCasesGrow(cases[1..], a, b);
    }
  }

  // ----- The whole message -----

  predicate SelectorNames(sels: seq<Selector>, names: set<string>) {
    forall i :: 0 <= i < |sels| ==> sels[i].name in names
  }

  predicate Collected(a: Analysis, b: Analysis) {
    SelectorsOk(b.sels) && GrowsAll(a.sels, b.sels) && a.names <= b.names && SelectorNames(b.sels, b.names)
  }

  lemma {:induction false} GrowsAllTransitive(a: seq<Selector>, b: seq<Selector>, c: seq<Selector>)
    requires GrowsAll(a, b) && GrowsAll(b, c)
    ensures GrowsAll(a, c)
  {
    forall i | 0 <= i < |a|
      ensures Grows(a[i], c[i])
    {
      assert Grows(a[i], b[i]) && Grows(b[i], c[i]);
    }
  }

  /** A collected message has well-formed, distinct selectors in which every select of the
      message is registered, and every argument is named. */
  lemma {:induction false} CollectOk(tokens: seq<Token>, a: Analysis)
    requires WellFormed(tokens) && Collected(a, a) && Collect(tokens, a).Some?
    ensures var b := Collect(tokens, a).value;
            Collected(a, b) && Registered(tokens, b.sels) && Named(tokens, b.names)
    decreases tokens
  {
    hide SelectorsOk, RegisteredToken, NamedToken, CollectToken, WellFormedToken, GrowsAll;
    if tokens != [] {
      CollectTokenOk(tokens[0], a);
      var m := CollectToken(tokens[0], a).value;
      CollectedSelf(a, m);
      CollectOk(tokens[1..], m);
      var b := Collect(tokens, a).value;
      GrowsAllTransitive(a.sels, m.sels, b.sels);
      RegisteredTokenGrows(tokens[0], m.sels, b.sels);
      NamedTokenGrows(tokens[0], m.names, b.names);
    }
  }

  lemma {:induction false} CollectedSelf(a: Analysis, b: Analysis)
    requires Collected(a, b)
    ensures Collected(b, b)
  {
  }

  lemma {:induction false} CollectTokenOk(t: Token, a: Analysis)
    requires WellFormedToken(t) && Collected(a, a) && CollectToken(t, a).Some?
    ensures var b := CollectToken(t, a).value;
            Collected(a, b) && RegisteredToken(t, b.sels) && NamedToken(t, b.names)
    decreases t
  {
    hide SelectorsOk, WellFormedSelect, RegisteredSelect, GrowsAll, AddSelector;
    if t.Select? {
      AddSelectorOk(a.sels, t);
      var m := Analysis(AddSelector(a.sels, t).value, a.names + {t.arg});
      AddSelectorNames(a.sels, t, a.names);
      GrowsAllSelf(m.sels);
      CollectCasesOk(t.cases, m);
      var b := CollectToken(t, a).value;
      GrowsAllTransitive(a.sels, m.sels, b.sels);
      RegisteredSelectGrows(t, m.sels, b.sels);
    }
  }

  lemma {:induction false} GrowsAllSelf(a: seq<Selector>)
    ensures GrowsAll(a, a)
  {
  }

  lemma {:induction false} RegisteredSelectGrows(t: Token, a: seq<Selector>, b: seq<Selector>)
    requires t.Select? && GrowsAll(a, b) && RegisteredSelect(t, a)
    ensures RegisteredSelect(t, b)
  {
    FindGrows(a, b, t.arg);
    var i := Find(a, t.arg);
    forall k | 0 <= k < |t.cases|
      ensures HasCase(b[i], t.cases[k].key)
    {
      HasCaseGrows(a[i], b[i], t.cases[k].key);
    }
  }

  lemma {:induction false} AddKeysName(s: Selector, cases: seq<Case>)
    ensures AddKeys(s, cases).name == s.name
    decreases |cases|
  {
    if cases != [] {
      AddKeysName(AddKey(s, cases[0].key), cases[1..]);
    }
  }

  lemma {:induction false} AddSelectorNames(sels: seq<Selector>, t: Token, names: set<string>)
    requires t.Select? && SelectorNames(sels, names) && AddSelector(sels, t).Some?
    ensures SelectorNames(AddSelector(sels, t).value, names + {t.arg})
  {
    hide AddKeys;
    var i := Find(sels, t.arg);
    AddKeysName(NewSelector(t), t.cases);
    if i < |sels| {
      AddKeysName(sels[i], t.cases);
    }
  }

  lemma {:induction false} CollectCasesOk(cases: seq<Case>, a: Analysis)
    requires WellFormedCases(cases) && Collected(a, a) && CollectCases(cases, a).Some?
    ensures var b := CollectCases(cases, a).value;
            Collected(a, b) && RegisteredCases(cases, b.sels) && NamedCases(cases, b.names)
    decreases cases
  {
    hide SelectorsOk, Registered, Named, Collect, WellFormed, GrowsAll;
    if cases != [] {
      CollectOk(cases[0].tokens, a);
      var m := Collect(cases[0].tokens, a).value;
      CollectedSelf(a, m);
      CollectCasesOk(cases[1..], m);
      var b := CollectCases(cases, a).value;
      GrowsAllTransitive(a.sels, m.sels, b.sels);
      RegisteredGrows(cases[0].tokens, m.sels, b.sels);
      NamedGrows(cases[0].tokens, m.names, b.names);
    }
  }

  lemma {:induction false} CollectMessage(tokens: seq<Token>)
    requires WellFormed(tokens) && Collect(tokens, Analysis([], {})).Some?
    ensures var a := Collect(tokens, Analysis([], {})).value;
            SelectorsOk(a.sels) && SelectorNames(a.sels, a.names) && Registered(tokens, a.sels) && Named(tokens, a.names)
  {
    hide WellFormed, Collect, Registered, Named, SelectorOk;
    CollectOk(tokens, Analysis([], {}));
  }
}
