/** What the fallback chain is: as a set, what is reachable; as a list, the
    documented tree expansion with repeats dropped. */
module FallbackProofs {
  import opened Lists
  import opened Locales
  import opened Fallback

  // ----- Reachability -----

  predicate Path(m: LocaleSet, p: seq<string>, avoid: set<string>) {
    p != [] && (forall i :: 0 <= i < |p| ==> p[i] !in avoid) &&
    forall i :: 0 <= i < |p| - 1 ==> p[i] in m.fallback && p[i + 1] in m.fallback[p[i]]
  }

  ghost predicate Reaches(m: LocaleSet, ls: seq<string>, avoid: set<string>, x: string) {
    exists p :: Path(m, p, avoid) && p[0] in ls && p[|p| - 1] == x
  }

  /** Every locale of the list outside `stop` has all its fallbacks in the list. */
  predicate Finished(m: LocaleSet, list: seq<string>, stop: set<string>) {
    forall x :: x in list && x !in stop ==> forall t :: t in Targets(m, x) ==> t in list
  }

  lemma {:induction false} VisitFinishes(m: LocaleSet, ls: seq<string>, seen: seq<string>, stop: set<string>)
    requires forall l :: l in ls ==> l in Universe(m)
    requires Finished(m, seen, stop)
    ensures var r := VisitAll(m, ls, seen);
            Finished(m, r, stop) && (forall l :: l in ls ==> l in r) && (NoRepeats(seen) ==> NoRepeats(r))
    decreases Universe(m) - Members(seen), |ls|
  {
    hide Targets;
    if ls != [] {
      assert forall l :: l in ls <==> l == ls[0] || l in ls[1..];
      if ls[0] in seen {
        VisitFinishes(m, ls[1..], seen, stop);
      } else {
        var l := ls[0];
        TargetsInUniverse(m, l);
        assert l in Universe(m) - Members(seen) && l !in Universe(m) - Members(seen + [l]);
        VisitFinishes(m, Targets(m, l), seen + [l], stop + {l});
        var inner := VisitAll(m, Targets(m, l), seen + [l]);
        assert l in inner;
        assert l !in Universe(m) - Members(inner);
        VisitFinishes(m, ls[1..], inner, stop);
      }
    }
  }

  lemma {:induction false} VisitIsReached(m: LocaleSet, ls: seq<string>, seen: seq<string>, x: string)
    requires forall l :: l in ls ==> l in Universe(m)
    requires x in VisitAll(m, ls, seen)
    ensures x in seen || Reaches(m, ls, Members(seen), x)
    decreases Universe(m) - Members(seen), |ls|
  {
    hide Targets;
    if ls != [] && x !in seen {
      assert ls[1..] == [] || forall l :: l in ls[1..] ==> l in ls;
      if ls[0] in seen {
        VisitIsReached(m, ls[1..], seen, x);
        ReachesMore(m, ls[1..], Members(seen), ls, Members(seen), x);
      } else {
        var l := ls[0];
        TargetsInUniverse(m, l);
        assert l in Universe(m) - Members(seen) && l !in Universe(m) - Members(seen + [l]);
        var inner := VisitAll(m, Targets(m, l), seen + [l]);
        if x in inner {
          VisitIsReached(m, Targets(m, l), seen + [l], x);
          ReachesThrough(m, l, seen, ls, x);
        } else {
          assert l in inner;
          assert l !in Universe(m) - Members(inner);
          VisitIsReached(m, ls[1..], inner, x);
          ReachesMore(m, ls[1..], Members(inner), ls, Members(seen), x);
        }
      }
    }
  }

  lemma {:induction false} ReachesMore(m: LocaleSet, ls: seq<string>, avoid: set<string>, ls': seq<string>,
                                       avoid': set<string>, x: string)
    requires Reaches(m, ls, avoid, x)
    requires (forall l :: l in ls ==> l in ls') && avoid' <= avoid
    ensures Reaches(m, ls', avoid', x)
  {
    var p :| Path(m, p, avoid) && p[0] in ls && p[|p| - 1] == x;
    assert Path(m, p, avoid');
  }

  lemma {:induction false} ReachesThrough(m: LocaleSet, l: string, seen: seq<string>, ls: seq<string>, x: string)
    requires l in ls && l !in seen
    requires x in seen + [l] || Reaches(m, Targets(m, l), Members(seen + [l]), x)
    requires x !in seen
    ensures Reaches(m, ls, Members(seen), x)
  {
    if x == l {
      assert Path(m, [l], Members(seen));
    } else {
      var p :| Path(m, p, Members(seen + [l])) && p[0] in Targets(m, l) && p[|p| - 1] == x;
      var q := [l] + p;
      assert forall i :: 0 < i < |q| ==> q[i] == p[i - 1];
      assert Path(m, q, Members(seen));
    }
  }

  lemma {:induction false} PathSuffix(m: LocaleSet, p: seq<string>, avoid: set<string>, i: nat)
    requires Path(m, p, avoid) && i < |p|
    ensures Path(m, p[i..], avoid)
  {
    var q := p[i..];
    forall k | 0 <= k < |q| - 1
      ensures q[k] in m.fallback && q[k + 1] in m.fallback[q[k]]
    {
      assert q[k] == p[i + k] && q[k + 1] == p[i + k + 1];
    }
  }

  lemma {:induction false} PathStays(m: LocaleSet, p: seq<string>, avoid: set<string>, list: seq<string>)
    requires Path(m, p, avoid) && Finished(m, list, avoid) && p[0] in list
    ensures p[|p| - 1] in list
    decreases |p|
  {
    if |p| > 1 {
      assert p[1] in Targets(m, p[0]);
      PathSuffix(m, p, avoid, 1);
      PathStays(m, p[1..], avoid, list);
    }
  }

  /** A walk adds exactly what its start reaches without passing a locale seen before it. */
  lemma {:induction false} VisitIsReachability(m: LocaleSet, ls: seq<string>, seen: seq<string>, x: string)
    requires forall l :: l in ls ==> l in Universe(m)
    ensures x in VisitAll(m, ls, seen) <==> x in seen || Reaches(m, ls, Members(seen), x)
  {
    hide Targets, VisitAll;
    var r := VisitAll(m, ls, seen);
    if x in r {
      VisitIsReached(m, ls, seen, x);
    }
    if Reaches(m, ls, Members(seen), x) {
      var p :| Path(m, p, Members(seen)) && p[0] in ls && p[|p| - 1] == x;
      VisitFinishes(m, ls, seen, Members(seen));
      PathStays(m, p, Members(seen), r);
    }
  }

  // ----- Which locales are in the chain -----

  /** Going round through the start adds nothing to what it reaches. */
  lemma {:induction false} AvoidStart(m: LocaleSet, start: string, p: seq<string>)
    requires Path(m, p, {}) && p[0] in Targets(m, start) && p[|p| - 1] != start
    ensures Reaches(m, Targets(m, start), {start}, p[|p| - 1])
    decreases |p|
  {
    if i :| 0 <= i < |p| && p[i] == start {
      var q := p[i + 1..];
      assert q[0] in Targets(m, p[i]);
      PathSuffix(m, p, {}, i + 1);
      AvoidStart(m, start, q);
    } else {
      assert Path(m, p, {start});
    }
  }

  lemma {:induction false} ReachesAvoidingStart(m: LocaleSet, start: string, x: string)
    ensures x == start || Reaches(m, Targets(m, start), {start}, x) <==> x == start || Reaches(m, Targets(m, start), {}, x)
  {
    if Reaches(m, Targets(m, start), {start}, x) {
      ReachesMore(m, Targets(m, start), {start}, Targets(m, start), {}, x);
    }
    if x != start && Reaches(m, Targets(m, start), {}, x) {
      var p :| Path(m, p, {}) && p[0] in Targets(m, start) && p[|p| - 1] == x;
      AvoidStart(m, start, p);
    }
  }

  lemma {:induction false} ReachesAvoidingClosed(m: LocaleSet, ls: seq<string>, list: seq<string>, x: string)
    requires Finished(m, list, {})
    ensures x in list || Reaches(m, ls, Members(list), x) <==> x in list || Reaches(m, ls, {}, x)
  {
    hide Targets, Finished;
    if Reaches(m, ls, Members(list), x) {
      ReachesMore(m, ls, Members(list), ls, {}, x);
    }
    if x !in list && Reaches(m, ls, {}, x) {
      var p :| Path(m, p, {}) && p[0] in ls && p[|p| - 1] == x;
      forall i | 0 <= i < |p|
        ensures p[i] !in Members(list)
      {
        if p[i] in list {
          var q := p[i..];
          PathSuffix(m, p, {}, i);
          PathStays(m, q, {}, list);
        }
      }
      assert Path(m, p, Members(list));
    }
  }

  lemma {:induction false} OwnChainFinished(m: LocaleSet, active: string)
    requires active in m.fallback
    ensures Finished(m, OwnChain(m, active), {})
  {
    hide VisitAll;
    TargetsInUniverse(m, active);
    VisitFinishes(m, Targets(m, active), [active], {active});
  }

  lemma {:induction false} ChainMembers(m: LocaleSet, active: string, x: string)
    ensures x in Chain(m, active) <==>
            x == m.source || x in OwnChain(m, active) || Reaches(m, Targets(m, DEFAULT), Members(OwnChain(m, active)), x)
  {
    hide VisitAll, OwnChain, AppendNew;
    TargetsInUniverse(m, DEFAULT);
    VisitIsReachability(m, Targets(m, DEFAULT), OwnChain(m, active), x);
    AppendNewFacts(VisitAll(m, Targets(m, DEFAULT), OwnChain(m, active)), [m.source]);
  }

  lemma {:induction false} ExplicitOwn(m: LocaleSet, active: string, x: string)
    requires active in m.fallback
    ensures x in OwnChain(m, active) <==> x == active || Reaches(m, Targets(m, active), {}, x)
  {
    hide VisitAll, Reaches;
    TargetsInUniverse(m, active);
    VisitIsReachability(m, Targets(m, active), [active], x);
    assert Members([active]) == {active};
    ReachesAvoidingStart(m, active, x);
  }

  /** The fallbacks that apply to every locale. */
  function DefaultTargets(m: LocaleSet): seq<string> {
    if "*" in m.fallback then m.fallback["*"] else []
  }

  lemma {:induction false} TargetsAre(m: LocaleSet, l: string)
    ensures Targets(m, DEFAULT) == DefaultTargets(m) && (l in m.fallback ==> Targets(m, l) == m.fallback[l])
  {
  }

  /** With an explicit entry, the chain is the active locale, everything reachable from it,
      everything reachable from the default targets, and the source locale. */
  lemma {:induction false} ExplicitChain(m: LocaleSet, active: string, x: string)
    requires active in m.fallback
    ensures x in Chain(m, active) <==>
            x == active || Reaches(m, m.fallback[active], {}, x) || Reaches(m, DefaultTargets(m), {}, x) || x == m.source
  {
    hide Chain, Reaches, OwnChain;
    TargetsAre(m, active);
    ChainMembers(m, active, x);
    ExplicitOwn(m, active, x);
    OwnChainFinished(m, active);
    ReachesAvoidingClosed(m, Targets(m, DEFAULT), OwnChain(m, active), x);
  }

  lemma {:induction false} ListedMembers(m: LocaleSet, tags: seq<string>)
    ensures forall x :: x in Listed(m, tags) <==> x in tags && x in m.locales
  {
    if tags != [] {
      ListedMembers(m, tags[1..]);
      assert forall x :: x in tags <==> x == tags[0] || x in tags[1..];
    }
  }

  /** The active locale and its truncations that the manifest lists. */
  predicate Own(m: LocaleSet, active: string, x: string) {
    x == active || (x in Truncations(active) && x in m.locales)
  }

  lemma {:induction false} ImplicitOwn(m: LocaleSet, active: string)
    requires active !in m.fallback
    ensures forall y :: y in OwnChain(m, active) <==> Own(m, active, y)
  {
    hide Truncations, AppendNew;
    AppendNewFacts([active], Listed(m, Truncations(active)));
    ListedMembers(m, Truncations(active));
  }

  /** Without an entry, it is the active locale, its listed truncations, everything reachable from
      the default targets by paths avoiding those, and the source locale. */
  lemma {:induction false} ImplicitChain(m: LocaleSet, active: string, x: string)
    requires active !in m.fallback
    ensures x in Chain(m, active) <==>
            Own(m, active, x) || x == m.source ||
            exists avoid :: (forall y :: y in avoid <==> Own(m, active, y)) && Reaches(m, DefaultTargets(m), avoid, x)
  {
    hide Chain, Reaches, OwnChain, Own;
    TargetsAre(m, active);
    ChainMembers(m, active, x);
    ImplicitOwn(m, active);
    var own := Members(OwnChain(m, active));
    assert forall y :: y in own <==> Own(m, active, y);
    if avoid :| (forall y :: y in avoid <==> Own(m, active, y)) && Reaches(m, DefaultTargets(m), avoid, x) {
      assert avoid == own;
    }
  }

  /** No locale is in a chain twice, the active locale is first, and the source is in it. */
  lemma {:induction false} ChainShape(m: LocaleSet, active: string)
    ensures var c := Chain(m, active);
            NoRepeats(c) && c != [] && c[0] == active && m.source in c
  {
    hide VisitAll, AppendNew;
    TargetsInUniverse(m, DEFAULT);
    TargetsInUniverse(m, active);
    if active in m.fallback {
      VisitFinishes(m, Targets(m, active), [active], {active});
    } else {
      AppendNewFacts([active], Listed(m, Truncations(active)));
    }
    var own := OwnChain(m, active);
    VisitFinishes(m, Targets(m, DEFAULT), own, Members(own));
    var all := VisitAll(m, Targets(m, DEFAULT), own);
    AppendNewFacts(all, [m.source]);
  }

  // ----- The order of the chain -----

  /** The depth-first expansion as a tree: every branch only stops at locales in `stop` and at
      its own ancestors, and repeats between branches are kept. */
  function Tree(m: LocaleSet, ls: seq<string>, stop: set<string>): seq<string>
    requires forall l :: l in ls ==> l in Universe(m)
    decreases Universe(m) - stop, |ls|
  {
    if ls == [] then []
    else
      (if ls[0] in stop then []
       else
         TargetsInUniverse(m, ls[0]);
         assert ls[0] in Universe(m) - stop && ls[0] !in Universe(m) - (stop + {ls[0]});
         [ls[0]] + Tree(m, Targets(m, ls[0]), stop + {ls[0]}))
      + Tree(m, ls[1..], stop)
  }

  lemma {:induction false} TreeInside(m: LocaleSet, ls: seq<string>, stop: set<string>, list: seq<string>)
    requires forall l :: l in ls ==> l in Universe(m) && l in list
    requires Finished(m, list, stop)
    ensures forall x :: x in Tree(m, ls, stop) ==> x in list
    decreases Universe(m) - stop, |ls|
  {
    hide Targets;
    if ls != [] {
      if ls[0] !in stop {
        TargetsInUniverse(m, ls[0]);
        assert ls[0] in Universe(m) - stop && ls[0] !in Universe(m) - (stop + {ls[0]});
        TreeInside(m, Targets(m, ls[0]), stop + {ls[0]}, list);
      }
      TreeInside(m, ls[1..], stop, list);
    }
  }

  /** One walk with a shared seen list is the tree expansion with repeats dropped. */
  lemma {:induction false} VisitIsTree(m: LocaleSet, ls: seq<string>, seen: seq<string>, stop: set<string>)
    requires forall l :: l in ls ==> l in Universe(m)
    requires Finished(m, seen, stop) && forall x :: x in stop ==> x in seen
    ensures VisitAll(m, ls, seen) == AppendNew(seen, Tree(m, ls, stop))
    decreases Universe(m) - Members(seen), |ls|
  {
    hide Targets, AppendNew;
    if ls == [] {
      AppendNewNothing(seen, []);
    } else {
      var l := ls[0];
      var rest := Tree(m, ls[1..], stop);
      TargetsInUniverse(m, l);
      if l in seen {
        VisitIsTree(m, ls[1..], seen, stop);
        VisitedTree(m, l, seen, stop);
        AppendNewConcat(seen, TreeOf(m, l, stop), rest);
        AppendNewNothing(seen, TreeOf(m, l, stop));
      } else {
        assert l in Universe(m) - Members(seen) && l !in Universe(m) - Members(seen + [l]);
        var sub := Tree(m, Targets(m, l), stop + {l});
        VisitIsTree(m, Targets(m, l), seen + [l], stop + {l});
        var inner := VisitAll(m, Targets(m, l), seen + [l]);
        VisitFinishes(m, Targets(m, l), seen + [l], stop + {l});
        assert l in inner;
        assert l !in Universe(m) - Members(inner);
        VisitIsTree(m, ls[1..], inner, stop);
        AppendNewConcat(seen, [l] + sub, rest);
        AppendNewConcat(seen, [l], sub);
        AppendNewOne(seen, l);
      }
    }
  }

  function TreeOf(m: LocaleSet, l: string, stop: set<string>): seq<string>
    requires l in Universe(m)
  {
    TargetsInUniverse(m, l);
    if l in stop then [] else [l] + Tree(m, Targets(m, l), stop + {l})
  }

  lemma {:induction false} VisitedTree(m: LocaleSet, l: string, seen: seq<string>, stop: set<string>)
    requires l in Universe(m) && l in seen && Finished(m, seen, stop)
    ensures forall x :: x in TreeOf(m, l, stop) ==> x in seen
  {
    TargetsInUniverse(m, l);
    if l !in stop {
      TreeInside(m, Targets(m, l), stop + {l}, seen);
    }
  }

  /** The chain as the runtimes document it: the active locale; its fallbacks expanded depth first,
      or without an entry its listed truncations; the default fallbacks expanded the same way; the
      source locale. */
  function DocumentedChain(m: LocaleSet, active: string): seq<string> {
    TargetsInUniverse(m, active);
    TargetsInUniverse(m, DEFAULT);
    if active in m.fallback then
      [active] + Tree(m, Targets(m, active), {active}) + Tree(m, Targets(m, DEFAULT), {}) + [m.source]
    else
      var listed := Listed(m, Truncations(active));
      [active] + listed + Tree(m, Targets(m, DEFAULT), Members([active] + listed)) + [m.source]
  }

  /** The chain the code builds is that expansion with repeats dropped. */
  lemma {:induction false} ChainIsDocumented(m: LocaleSet, active: string)
    ensures Chain(m, active) == AppendNew([], DocumentedChain(m, active))
  {
    hide VisitAll, Tree, AppendNew, Targets;
    TargetsInUniverse(m, active);
    TargetsInUniverse(m, DEFAULT);
    AppendNewOne([], active);
    var own := OwnChain(m, active);
    if active in m.fallback {
      var first := Tree(m, Targets(m, active), {active});
      var second := Tree(m, Targets(m, DEFAULT), {});
      VisitIsTree(m, Targets(m, active), [active], {active});
      OwnChainFinished(m, active);
      VisitIsTree(m, Targets(m, DEFAULT), own, {});
      FourParts([active], first, second, [m.source]);
      assert [] + [active] == [active];
    } else {
      var listed := Listed(m, Truncations(active));
      var stop := Members([active] + listed);
      AppendNewFacts([active], listed);
      assert forall x :: x in own ==> x in stop;
      assert Finished(m, own, stop);
      VisitIsTree(m, Targets(m, DEFAULT), own, stop);
      FourParts([active], listed, Tree(m, Targets(m, DEFAULT), stop), [m.source]);
      assert [] + [active] == [active];
    }
  }

  lemma {:induction false} FourParts(a: seq<string>, b: seq<string>, c: seq<string>, d: seq<string>)
    ensures AppendNew([], a + b + c + d) == AppendNew(AppendNew(AppendNew(AppendNew([], a), b), c), d)
  {
    AppendNewConcat([], a + b + c, d);
    AppendNewConcat([], a + b, c);
    AppendNewConcat([], a, b);
  }

  // ----- Where the source locale stands -----

  function BeforeSource(m: LocaleSet, active: string): seq<string> {
    TargetsInUniverse(m, DEFAULT);
    VisitAll(m, Targets(m, DEFAULT), OwnChain(m, active))
  }

  /** The manifest's fallbacks lead from the active locale to x. */
  ghost predicate Leads(m: LocaleSet, active: string, x: string) {
    if active in m.fallback then
      x == active || Reaches(m, m.fallback[active], {}, x) || Reaches(m, DefaultTargets(m), {}, x)
    else
      Own(m, active, x) ||
      exists avoid :: (forall y :: y in avoid <==> Own(m, active, y)) && Reaches(m, DefaultTargets(m), avoid, x)
  }

  lemma {:induction false} LeadsBefore(m: LocaleSet, active: string, x: string)
    ensures x in BeforeSource(m, active) <==> Leads(m, active, x)
  {
    hide VisitAll, OwnChain, Reaches, Own;
    TargetsInUniverse(m, DEFAULT);
    TargetsAre(m, active);
    VisitIsReachability(m, Targets(m, DEFAULT), OwnChain(m, active), x);
    if active in m.fallback {
      ExplicitOwn(m, active, x);
      OwnChainFinished(m, active);
      ReachesAvoidingClosed(m, Targets(m, DEFAULT), OwnChain(m, active), x);
    } else {
      ImplicitOwn(m, active);
      var own := Members(OwnChain(m, active));
      assert forall y :: y in own <==> Own(m, active, y);
      if avoid :| (forall y :: y in avoid <==> Own(m, active, y)) && Reaches(m, DefaultTargets(m), avoid, x) {
        assert avoid == own;
      }
    }
  }

  function PlaceOf(list: seq<string>, x: string): (i: nat)
    requires x in list
    ensures i < |list| && list[i] == x && x !in list[..i]
  {
    if list[0] == x then 0
    else
      assert list[1..] != [] && forall y :: y in list <==> y == list[0] || y in list[1..];
      var i := PlaceOf(list[1..], x);
      assert list[..i + 1] == [list[0]] + list[1..][..i];
      i + 1
  }

  predicate Within(part: seq<string>, whole: seq<string>) {
    forall x :: x in part ==> x in whole
  }

  /** Dropping repeats leaves x at the end exactly when nothing new comes after the first x. */
  lemma {:induction false} LastKept(list: seq<string>, x: string)
    requires x in list
    ensures var r, i := AppendNew([], list), PlaceOf(list, x);
            r != [] && (r[|r| - 1] == x <==> Within(list[i + 1..], list[..i + 1]))
  {
    hide AppendNew, PlaceOf;
    var i := PlaceOf(list, x);
    var (before, rest) := (list[..i], list[i + 1..]);
    assert list == before + [x] + rest;
    assert list[..i + 1] == before + [x];
    AppendNewConcat([], before + [x], rest);
    AppendNewConcat([], before, [x]);
    AppendNewFacts([], before);
    var kept := AppendNew([], before);
    AppendNewOne(kept, x);
    AppendNewFacts(kept + [x], rest);
    var r := AppendNew([], list);
    assert kept + [x] <= r && NoRepeats(r) && r[|kept|] == x;
    if Within(rest, before + [x]) {
      AppendNewNothing(kept + [x], rest);
    }
    if r[|r| - 1] == x {
      assert r == kept + [x];
    }
  }

  /** The source locale is in the chain before its last step exactly when the manifest's fallbacks
      lead to it; if they do not, it ends the chain. In every case it does exactly when each locale
      after its first place in the documented expansion also stands before that place. */
  lemma {:induction false} ChainEndsAtSource(m: LocaleSet, active: string)
    ensures var c, d := Chain(m, active), DocumentedChain(m, active);
            c != [] && m.source in d &&
            (Leads(m, active, m.source) <==> c == BeforeSource(m, active)) &&
            (!Leads(m, active, m.source) ==> c == BeforeSource(m, active) + [m.source]) &&
            (c[|c| - 1] == m.source <==> Within(d[PlaceOf(d, m.source) + 1..], d[..PlaceOf(d, m.source) + 1]))
  {
    hide VisitAll, AppendNew, Leads, PlaceOf, Within, Tree, Listed, OwnChain, Targets;
    var d := DocumentedChain(m, active);
    assert d[|d| - 1] == m.source;
    ChainIsDocumented(m, active);
    LastKept(d, m.source);
    LeadsBefore(m, active, m.source);
    AppendNewOne(BeforeSource(m, active), m.source);
  }

  /** It does not always: a fallback to the source followed by another fallback. */
  lemma {:induction false} SourceInTheMiddle()
    ensures var m := LocaleSet("de", ["de", "en", "fr"], map["en" := ["de", "fr"]]);
            Chain(m, "en") == ["en", "de", "fr"]
  {
    var m := LocaleSet("de", ["de", "en", "fr"], map["en" := ["de", "fr"]]);
    TargetsInUniverse(m, "en");
    var t := ["de", "fr"];
    assert t[1..] == ["fr"] && t[1..][1..] == [];
    assert VisitAll(m, [], ["en", "de"]) == ["en", "de"];
    assert ["en"] + ["de"] == ["en", "de"] && ["en", "de"] + ["fr"] == ["en", "de", "fr"];
    assert VisitAll(m, ["fr"], ["en", "de"]) == VisitAll(m, [], ["en", "de", "fr"]) == ["en", "de", "fr"];
    assert VisitAll(m, t, ["en"]) == ["en", "de", "fr"];
    AppendNewOne(["en", "de", "fr"], "de");
  }
}
