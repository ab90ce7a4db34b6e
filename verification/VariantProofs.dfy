/** The variants of a planned message: one for every assignment of keys to columns, and the one
    that MF2 pattern selection picks for given values. */
module VariantProofs {
  import opened Digits
  import opened Lists
  import opened Mf2
  import opened Mf1
  import opened Lifting

  // ----- The cartesian product -----

  predicate Assigns(columns: seq<Column>, ks: seq<VariantKey>) {
    |ks| == |columns| && forall i :: 0 <= i < |ks| ==> ks[i] in Options(columns[i])
  }

  lemma {:induction false} SpreadAllMembers(prefixes: seq<seq<VariantKey>>, options: seq<VariantKey>, ks: seq<VariantKey>)
    ensures ks in SpreadAll(prefixes, options) <==>
            ks != [] && ks[..|ks| - 1] in prefixes && ks[|ks| - 1] in options
  {
    if prefixes != [] {
      SpreadAllMembers(prefixes[1..], options, ks);
      SpreadMembers(prefixes[0], options, ks);
      assert prefixes == [prefixes[0]] + prefixes[1..];
    }
  }

  lemma {:induction false} SpreadMembers(prefix: seq<VariantKey>, options: seq<VariantKey>, ks: seq<VariantKey>)
    ensures ks in Spread(prefix, options) <==> ks != [] && ks[..|ks| - 1] == prefix && ks[|ks| - 1] in options
  {
    var r := Spread(prefix, options);
    if ks in r {
      var i :| 0 <= i < |r| && r[i] == ks;
      assert ks == prefix + [options[i]];
    }
    if ks != [] && ks[..|ks| - 1] == prefix && ks[|ks| - 1] in options {
      var i :| 0 <= i < |options| && options[i] == ks[|ks| - 1];
      assert ks == prefix + [options[i]] == r[i];
    }
  }

  lemma {:induction false} AssignsLast(columns: seq<Column>, ks: seq<VariantKey>)
    requires columns != [] && ks != []
    ensures var n, m := |columns| - 1, |ks| - 1;
            Assigns(columns, ks) <==> Assigns(columns[..n], ks[..m]) && ks[m] in Options(columns[n])
  {
    hide Options;
    var n, m := |columns| - 1, |ks| - 1;
    if Assigns(columns[..n], ks[..m]) && ks[m] in Options(columns[n]) {
      assert n == m;
      forall i | 0 <= i < |ks|
        ensures ks[i] in Options(columns[i])
      {
        if i < m {
          assert ks[..m][i] in Options(columns[..n][i]);
        }
      }
    }
  }

  /** The product holds exactly the assignments of a key, or the catch-all, to every column. */
  lemma {:induction false} ProductMembers(columns: seq<Column>, ks: seq<VariantKey>)
    ensures ks in Product(columns) <==> Assigns(columns, ks)
  {
    hide SpreadAll, Options;
    if columns != [] {
      var n := |columns| - 1;
      SpreadAllMembers(Product(columns[..n]), Options(columns[n]), ks);
      if ks != [] {
        ProductMembers(columns[..n], ks[..|ks| - 1]);
        AssignsLast(columns, ks);
      }
    }
  }

  lemma {:induction false} SpreadAllSize(prefixes: seq<seq<VariantKey>>, options: seq<VariantKey>)
    requires options != []
    ensures var r := SpreadAll(prefixes, options);
            |r| == |prefixes| * |options| &&
            (prefixes != [] ==> r[|r| - 1] == prefixes[|prefixes| - 1] + [options[|options| - 1]])
  {
    if prefixes != [] {
      SpreadAllSize(prefixes[1..], options);
      var n := |options|;
      assert n + (|prefixes| - 1) * n == |prefixes| * n;
      assert |prefixes| > 1 ==> prefixes[1..][|prefixes| - 2] == prefixes[|prefixes| - 1];
    }
  }

  lemma {:induction false} SpreadAllDistinct(prefixes: seq<seq<VariantKey>>, options: seq<VariantKey>)
    requires NoRepeats(prefixes) && NoRepeats(options)
    ensures NoRepeats(SpreadAll(prefixes, options))
  {
    if prefixes != [] {
      var rest := SpreadAll(prefixes[1..], options);
      SpreadAllDistinct(prefixes[1..], options);
      var r, n := SpreadAll(prefixes, options), |options|;
      forall i, j | 0 <= i < j < |r|
        ensures r[i] != r[j]
      {
        if i < n {
          SpreadMembers(prefixes[0], options, r[i]);
          assert r[i] in Spread(prefixes[0], options);
          if j < n {
            AppendInjective(prefixes[0], options[i], prefixes[0], options[j]);
          } else {
            assert r[j] == rest[j - n];
            SpreadAllMembers(prefixes[1..], options, r[j]);
          }
        }
      }
    }
  }

  predicate DistinctColumns(columns: seq<Column>) {
    forall i :: 0 <= i < |columns| ==> NoRepeats(columns[i].keys)
  }

  predicate AllCatchall(ks: seq<VariantKey>) {
    forall i :: 0 <= i < |ks| ==> ks[i] == Catchall
  }

  /** There are VariantCount variants, no two with the same keys, the last all catch-all. */
  lemma {:induction false} ProductShape(columns: seq<Column>)
    requires DistinctColumns(columns)
    ensures var r := Product(columns);
            |r| == VariantCount(columns) && NoRepeats(r) &&
            |r[|r| - 1]| == |columns| && AllCatchall(r[|r| - 1])
  {
    hide SpreadAll, NoRepeats;
    if columns != [] {
      var m := |columns| - 1;
      ProductShape(columns[..m]);
      var prefixes, options := Product(columns[..m]), Options(columns[m]);
      SpreadAllSize(prefixes, options);
      OptionsDistinct(columns[m]);
      SpreadAllDistinct(prefixes, options);
    } else {
      SingleDistinct<seq<VariantKey>>([]);
    }
  }

  lemma {:induction false} SingleDistinct<T>(x: T)
    ensures NoRepeats([x])
  {
  }

  lemma {:induction false} OptionsDistinct(c: Column)
    requires NoRepeats(c.keys)
    ensures NoRepeats(Options(c))
  {
  }

  lemma {:induction false} AppendInjective(a: seq<VariantKey>, x: VariantKey, b: seq<VariantKey>, y: VariantKey)
    ensures a + [x] == b + [y] ==> a == b && x == y
  {
    if a + [x] == b + [y] {
      assert a == (a + [x])[..|a|] && b == (b + [y])[..|b|];
      assert x == (a + [x])[|a|] && y == (b + [y])[|b|];
    }
  }

  // ----- The keys of a column -----

  lemma {:induction false} KeysAtMembers(vs: seq<Variant>, i: nat, k: string)
    ensures k in KeysAt(vs, i) <==> exists v :: v in vs && i < |v.keys| && v.keys[i] == Key(k)
  {
    if vs != [] {
      KeysAtMembers(vs[1..], i, k);
      assert forall v :: v in vs <==> v == vs[0] || v in vs[1..];
    }
  }

  lemma {:induction false} CatchallAssignment(columns: seq<Column>)
    ensures Assigns(columns, seq(|columns|, _ => Catchall))
  {
  }

  lemma {:induction false} FilledVariant(columns: seq<Column>, tokens: seq<Token>, sels: seq<Selector>, mapping: Mapping, ks: seq<VariantKey>)
    requires Assigns(columns, ks)
    ensures exists v :: v in Fill(Product(columns), tokens, sels, mapping) && v.keys == ks
  {
    ProductMembers(columns, ks);
    var keys := Product(columns);
    var i :| 0 <= i < |keys| && keys[i] == ks;
    assert Fill(keys, tokens, sels, mapping)[i].keys == ks;
  }

  lemma {:induction false} ColumnKeys(columns: seq<Column>, tokens: seq<Token>, sels: seq<Selector>, mapping: Mapping, i: nat, k: string)
    requires i < |columns|
    ensures k in KeysAt(Fill(Product(columns), tokens, sels, mapping), i) <==> k in columns[i].keys
  {
    hide Product, Leaves, AppendAll, KeysAt;
    var vs := Fill(Product(columns), tokens, sels, mapping);
    KeysAtMembers(vs, i, k);
    if k in columns[i].keys {
      CatchallAssignment(columns);
      var ks := seq(|columns|, _ => Catchall)[i := Key(k)];
      var n :| 0 <= n < |columns[i].keys| && columns[i].keys[n] == k;
      assert Options(columns[i])[n] == Key(k);
      FilledVariant(columns, tokens, sels, mapping, ks);
    }
    if v :| v in vs && i < |v.keys| && v.keys[i] == Key(k) {
      var n :| 0 <= n < |vs| && vs[n] == v;
      ProductMembers(columns, v.keys);
      assert v.keys == Product(columns)[n];
      assert v.keys[i] in Options(columns[i]);
    }
  }

  // ----- The variant selection picks -----

  /** The keys column c prefers for these values: at most one. */
  function Preferred(c: Column, decls: seq<Declaration>, env: Env, rules: Rules): seq<string> {
    SelectedKeys(Resolve(decls, env, c.variable), rules, c.keys)
  }

  predicate NumbersUnmarked(r: Resolved, keys: seq<string>) {
    r.selection.ByNumber? ==> forall k :: k in keys ==> Unmarked(k)
  }

  /** Selection reads a column's keys as a set. */
  lemma {:induction false} SelectedKeysOfMembers(r: Resolved, rules: Rules, a: seq<string>, b: seq<string>)
    requires forall k :: k in a <==> k in b
    requires NumbersUnmarked(r, b)
    ensures SelectedKeys(r, rules, a) == SelectedKeys(r, rules, b)
    ensures |SelectedKeys(r, rules, b)| <= 1
    ensures forall k :: k in SelectedKeys(r, rules, b) ==> k in b
  {
    if r.selection.ByNumber? && r.value.Num? {
      NoMarkedKey(a, r.value.number);
      NoMarkedKey(b, r.value.number);
    }
  }

  function KeyOr(pref: seq<string>): VariantKey {
    if pref == [] then Catchall else Key(pref[0])
  }

  /** Each column's preferred key, or its catch-all. */
  function Target(p: Planning, env: Env, rules: Rules): (t: seq<VariantKey>)
    ensures |t| == |p.columns|
    ensures forall i :: 0 <= i < |t| ==> t[i] == KeyOr(Preferred(p.columns[i], p.decls, env, rules))
  {
    seq(|p.columns|, i requires 0 <= i < |p.columns| => KeyOr(Preferred(p.columns[i], p.decls, env, rules)))
  }

  predicate ColumnsUnmarked(p: Planning, env: Env) {
    forall i :: 0 <= i < |p.columns| ==>
      NumbersUnmarked(Resolve(p.decls, env, p.columns[i].variable), p.columns[i].keys)
  }

  lemma {:induction false} TargetAssigns(p: Planning, env: Env, rules: Rules)
    requires ColumnsUnmarked(p, env)
    ensures Assigns(p.columns, Target(p, env, rules))
  {
    hide Resolve, SelectedKeys, NumbersUnmarked;
    var t := Target(p, env, rules);
    forall i | 0 <= i < |t|
      ensures t[i] in Options(p.columns[i])
    {
      var c := p.columns[i];
      SelectedKeysOfMembers(Resolve(p.decls, env, c.variable), rules, c.keys, c.keys);
      var pref := Preferred(c, p.decls, env, rules);
      if pref != [] {
        assert pref[0] in c.keys;
        var n :| 0 <= n < |c.keys| && c.keys[n] == pref[0];
        assert Options(c)[n] == t[i];
      } else {
        assert Options(c)[|c.keys|] == t[i];
      }
    }
  }

  /** Of a planned message, pattern selection shows the variant of the target. */
  lemma {:induction false} SelectionIsTarget(p: Planning, tokens: seq<Token>, mapping: Mapping, env: Env, rules: Rules)
    requires ColumnsUnmarked(p, env)
    ensures var m := SelectMessage(p.decls, Variables(p.columns), Fill(Product(p.columns), tokens, p.sels, mapping));
            Format(m, env, rules) ==
            Show(p.decls, env, AppendAll([], Leaves(tokens, None, Target(p, env, rules), p.sels, mapping)))
  {
    hide Resolve, SelectedKeys, NumbersUnmarked, Show, Leaves, Product, Best;
    var vs := Fill(Product(p.columns), tokens, p.sels, mapping);
    var prefs := Prefs(p.decls, Variables(p.columns), vs, env, rules);
    var t := Target(p, env, rules);
    forall i | 0 <= i < |prefs|
      ensures |prefs[i]| <= 1 && t[i] == KeyOr(prefs[i])
    {
      var c := p.columns[i];
      forall k
        ensures k in KeysAt(vs, i) <==> k in c.keys
      {
        ColumnKeys(p.columns, tokens, p.sels, mapping, i, k);
      }
      SelectedKeysOfMembers(Resolve(p.decls, env, c.variable), rules, KeysAt(vs, i), c.keys);
    }
    TargetAssigns(p, env, rules);
    FilledVariant(p.columns, tokens, p.sels, mapping, t);
    BestIsPreferred(prefs, vs, t);
    var best := Best(prefs, vs).value;
    var n :| 0 <= n < |vs| && vs[n] == best;
  }
}
