/** Negotiating a locale and resolving a message along its fallback chain (runtimes/go/manifest.go,
    release.go and middleware.go). */
module Resolution {
  import opened Digits
  import opened Locales
  import opened Fallback
  import opened FallbackProofs

  /** The active locale of a list of requested tags: RFC 4647 lookup, else the source locale. */
  function Negotiate(m: LocaleSet, requested: seq<string>): string {
    Lookup(requested, m.locales).GetOr(m.source)
  }

  // ----- Resolving a message -----

  type Catalog = map<string, string>

  datatype Outcome = Found | Missing | NotLoaded

  datatype Step = Step(locale: string, outcome: Outcome)

  datatype Resolution = Resolution(
    locale: string, chain: seq<string>, steps: seq<Step>, resolvedFrom: Option<string>, message: Option<string>)

  function StepAt(m: LocaleSet, catalogs: map<string, Catalog>, id: string, l: string): Outcome {
    if l !in catalogs && l in m.locales then NotLoaded
    else if l !in catalogs || id !in catalogs[l] then Missing
    else Found
  }

  /** The steps along a chain, up to the first locale that has the message. */
  function Walk(m: LocaleSet, catalogs: map<string, Catalog>, id: string, chain: seq<string>): seq<Step> {
    if chain == [] then []
    else
      var s := Step(chain[0], StepAt(m, catalogs, id, chain[0]));
      if s.outcome == Found then [s] else [s] + Walk(m, catalogs, id, chain[1..])
  }

  predicate HasMessage(catalogs: map<string, Catalog>, l: string, id: string) {
    l in catalogs && id in catalogs[l]
  }

  function FirstWith(catalogs: map<string, Catalog>, id: string, chain: seq<string>): (r: Option<string>)
    ensures r.Some? ==> HasMessage(catalogs, r.value, id)
  {
    if chain == [] then None
    else if HasMessage(catalogs, chain[0], id) then Some(chain[0])
    else FirstWith(catalogs, id, chain[1..])
  }

  function Resolve(m: LocaleSet, catalogs: map<string, Catalog>, id: string, requested: seq<string>): Resolution {
    var locale := Negotiate(m, requested);
    var chain := Chain(m, locale);
    var from := FirstWith(catalogs, id, chain);
    Resolution(locale, chain, Walk(m, catalogs, id, chain), from,
               if from.Some? then Some(catalogs[from.value][id]) else None)
  }

  method ComputeResolve(m: LocaleSet, catalogs: map<string, Catalog>, id: string, requested: seq<string>)
    returns (r: Resolution)
    ensures r == Resolve(m, catalogs, id, requested)
  {
    hide Lookup, Chain;
    var active := ComputeLookup(requested, m.locales);
    var locale := active.GetOr(m.source);
    var builder := new ChainBuilder(m);
    builder.Build(locale);
    var chain := builder.out;
    r := WalkChain(m, catalogs, id, locale, chain);
  }

  method WalkChain(m: LocaleSet, catalogs: map<string, Catalog>, id: string, locale: string, chain: seq<string>)
    returns (r: Resolution)
    ensures r.locale == locale && r.chain == chain && r.steps == Walk(m, catalogs, id, chain)
    ensures r.resolvedFrom == FirstWith(catalogs, id, chain)
    ensures r.message == if r.resolvedFrom.Some? then Some(catalogs[r.resolvedFrom.value][id]) else None
  {
    var steps := [];
    assert chain[0..] == chain;
    for i := 0 to |chain|
      invariant steps + Walk(m, catalogs, id, chain[i..]) == Walk(m, catalogs, id, chain)
      invariant FirstWith(catalogs, id, chain[i..]) == FirstWith(catalogs, id, chain)
    {
      var l := chain[i];
      assert chain[i..][0] == l && chain[i..][1..] == chain[i + 1..];
      if l !in catalogs && l in m.locales {
        steps := steps + [Step(l, NotLoaded)];
      } else if l !in catalogs || id !in catalogs[l] {
        steps := steps + [Step(l, Missing)];
      } else {
        steps := steps + [Step(l, Found)];
        return Resolution(locale, chain, steps, Some(l), Some(catalogs[l][id]));
      }
    }
    r := Resolution(locale, chain, steps, None, None);
  }

  lemma {:induction false} FirstWithIsFirst(catalogs: map<string, Catalog>, id: string, chain: seq<string>)
    ensures var r := FirstWith(catalogs, id, chain);
            (r.None? <==> forall l :: l in chain ==> !HasMessage(catalogs, l, id)) &&
            (r.Some? ==> exists i :: 0 <= i < |chain| && chain[i] == r.value &&
                                     forall l :: l in chain[..i] ==> !HasMessage(catalogs, l, id))
  {
    if chain != [] {
      FirstWithIsFirst(catalogs, id, chain[1..]);
      var r := FirstWith(catalogs, id, chain);
      assert forall l :: l in chain <==> l == chain[0] || l in chain[1..];
      if HasMessage(catalogs, chain[0], id) {
        assert chain[..0] == [];
      } else if r.Some? {
        var i :| 0 <= i < |chain[1..]| && chain[1..][i] == r.value &&
                 forall l :: l in chain[1..][..i] ==> !HasMessage(catalogs, l, id);
        assert chain[i + 1] == r.value;
        assert chain[..i + 1] == [chain[0]] + chain[1..][..i];
      }
    }
  }

  /** The steps follow the chain: one for each locale up to and including the one that has the
      message, which is the only one found. */
  lemma {:induction false} WalkFollowsChain(m: LocaleSet, catalogs: map<string, Catalog>, id: string, chain: seq<string>)
    ensures var w := Walk(m, catalogs, id, chain);
            |w| <= |chain| && (forall i :: 0 <= i < |w| ==> w[i].locale == chain[i]) &&
            (forall i :: 0 <= i < |w| ==> (w[i].outcome == Found <==>
              i == |w| - 1 && FirstWith(catalogs, id, chain) == Some(chain[i]))) &&
            (forall i :: 0 <= i < |w| ==> (w[i].outcome == NotLoaded <==> chain[i] !in catalogs && chain[i] in m.locales)) &&
            (FirstWith(catalogs, id, chain).None? ==> |w| == |chain|)
  {
    if chain != [] {
      WalkFollowsChain(m, catalogs, id, chain[1..]);
      var w := Walk(m, catalogs, id, chain);
      if StepAt(m, catalogs, id, chain[0]) != Found {
        assert w[1..] == Walk(m, catalogs, id, chain[1..]);
        assert forall i :: 0 < i < |w| ==> w[i] == w[1..][i - 1] && chain[i] == chain[1..][i - 1];
      }
    }
  }

  /** A message is resolved from the first locale of the chain that has it, and only fails to
      resolve when none has. */
  lemma {:induction false} ResolvesFromFirst(m: LocaleSet, catalogs: map<string, Catalog>, id: string, requested: seq<string>)
    ensures var r := Resolve(m, catalogs, id, requested);
            (r.resolvedFrom.None? <==> forall l :: l in r.chain ==> !(l in catalogs && id in catalogs[l])) &&
            (r.resolvedFrom.Some? ==>
              exists i :: 0 <= i < |r.chain| && r.chain[i] == r.resolvedFrom.value &&
                r.chain[i] in catalogs && id in catalogs[r.chain[i]] && r.message == Some(catalogs[r.chain[i]][id]) &&
                |r.steps| == i + 1 && forall l :: l in r.chain[..i] ==> !(l in catalogs && id in catalogs[l]))
  {
    hide Chain, Negotiate, Walk, FirstWith;
    var r := Resolve(m, catalogs, id, requested);
    FirstWithIsFirst(catalogs, id, r.chain);
    WalkLength(m, catalogs, id, r.chain);
    if r.resolvedFrom.Some? {
      var n := |r.steps| - 1;
      assert r.chain[n] == r.resolvedFrom.value;
    }
  }

  lemma {:induction false} WalkLength(m: LocaleSet, catalogs: map<string, Catalog>, id: string, chain: seq<string>)
    ensures var w := Walk(m, catalogs, id, chain);
            FirstWith(catalogs, id, chain).Some? ==>
              0 < |w| <= |chain| && chain[|w| - 1] == FirstWith(catalogs, id, chain).value &&
              forall l :: l in chain[..|w| - 1] ==> !HasMessage(catalogs, l, id)
  {
    if chain != [] {
      WalkLength(m, catalogs, id, chain[1..]);
      var w := Walk(m, catalogs, id, chain);
      if !HasMessage(catalogs, chain[0], id) && FirstWith(catalogs, id, chain).Some? {
        assert chain[..|w| - 1] == [chain[0]] + chain[1..][..|w| - 2];
      }
    }
  }

  // ----- Loading only what is needed -----

  /** The listed locales of the chains of the configured tags, without repeats. */
  function NeededOf(m: LocaleSet, tags: seq<string>): seq<string> {
    if tags == [] then [] else Listed(m, Chain(m, Negotiate(m, [tags[0]]))) + NeededOf(m, tags[1..])
  }

  function NeededLocales(m: LocaleSet, canon: Canonicalizer, configured: seq<string>): seq<string> {
    if configured == [] then m.locales else AppendNew([], NeededOf(m, CanonicalizeAll(canon, configured)))
  }

  method ComputeNeededLocales(m: LocaleSet, canon: Canonicalizer, configured: seq<string>) returns (out: seq<string>)
    ensures out == NeededLocales(m, canon, configured)
  {
    hide Lookup, Chain, CanonicalizeAll;
    if configured == [] {
      return m.locales;
    }
    out := [];
    var tags := ComputeCanonicalizeAll(canon, configured);
    assert tags[0..] == tags;
    for i := 0 to |tags|
      invariant AppendNew(out, NeededOf(m, tags[i..])) == AppendNew([], NeededOf(m, tags))
    {
      assert tags[i..][0] == tags[i] && tags[i..][1..] == tags[i + 1..];
      var active := ComputeLookup([tags[i]], m.locales);
      var builder := new ChainBuilder(m);
      builder.Build(active.GetOr(m.source));
      var chain := builder.out;
      AppendNewConcat(out, Listed(m, chain), NeededOf(m, tags[i + 1..]));
      ghost var before := out;
      assert chain[0..] == chain;
      for k := 0 to |chain|
        invariant AppendNew(out, Listed(m, chain[k..])) == AppendNew(before, Listed(m, chain))
      {
        assert chain[k..][0] == chain[k] && chain[k..][1..] == chain[k + 1..];
        NextListed(m, out, chain[k..]);
        if chain[k] in m.locales && chain[k] !in out {
          out := out + [chain[k]];
        }
      }
    }
  }

  lemma {:induction false} NextListed(m: LocaleSet, out: seq<string>, chain: seq<string>)
    requires chain != []
    ensures AppendNew(out, Listed(m, chain)) ==
            AppendNew(if chain[0] in m.locales && chain[0] !in out then out + [chain[0]] else out, Listed(m, chain[1..]))
  {
    var rest := Listed(m, chain[1..]);
    assert ([chain[0]] + rest)[1..] == rest && [] + rest == rest;
  }

  lemma {:induction false} NeededChain(m: LocaleSet, tags: seq<string>, tag: string)
    requires tag in tags
    ensures forall l :: l in Chain(m, Negotiate(m, [tag])) && l in m.locales ==> l in NeededOf(m, tags)
  {
    hide Chain, Negotiate;
    ListedMembers(m, Chain(m, Negotiate(m, [tags[0]])));
    if tag != tags[0] {
      NeededChain(m, tags[1..], tag);
    }
  }

  lemma {:induction false} NeededOfAre(m: LocaleSet, tags: seq<string>, l: string)
    ensures l in NeededOf(m, tags) <==> l in m.locales && exists t :: t in tags && l in Chain(m, Negotiate(m, [t]))
  {
    hide Chain, Negotiate;
    if tags != [] {
      ListedMembers(m, Chain(m, Negotiate(m, [tags[0]])));
      NeededOfAre(m, tags[1..], l);
      assert forall t :: t in tags <==> t == tags[0] || t in tags[1..];
    }
  }

  /** A client loads exactly the shipped locales that stand in the chain some configured tag
      negotiates, or all of them when none is configured. */
  lemma {:induction false} NeededAre(m: LocaleSet, canon: Canonicalizer, configured: seq<string>, l: string)
    ensures l in NeededLocales(m, canon, configured) <==>
            l in m.locales &&
            (configured == [] || exists t :: t in CanonicalizeAll(canon, configured) && l in Chain(m, Negotiate(m, [t])))
  {
    hide Chain, Negotiate, CanonicalizeAll, AppendNew, NeededOf;
    var tags := CanonicalizeAll(canon, configured);
    NeededOfAre(m, tags, l);
    AppendNewFacts([], NeededOf(m, tags));
  }

  lemma {:induction false} LookupOne(tag: string, available: seq<string>)
    ensures Lookup([tag], available) == FirstIn(Candidates(tag), available)
  {
    assert [tag][1..] == [];
  }

  /** A nonempty request list negotiates what one of its tags alone negotiates. */
  lemma {:induction false} NegotiatedByOne(m: LocaleSet, requested: seq<string>)
    requires requested != []
    ensures exists t :: t in requested && Negotiate(m, [t]) == Negotiate(m, requested)
  {
    LookupOne(requested[0], m.locales);
    if FirstIn(Candidates(requested[0]), m.locales).None? && |requested| > 1 {
      NegotiatedByOne(m, requested[1..]);
      var t :| t in requested[1..] && Negotiate(m, [t]) == Negotiate(m, requested[1..]);
      assert t in requested;
    } else if FirstIn(Candidates(requested[0]), m.locales).None? {
      assert requested[1..] == [];
      assert requested[0] in requested;
    } else {
      assert requested[0] in requested;
    }
  }

  function OnlyNeeded(full: map<string, Catalog>, needed: seq<string>): map<string, Catalog> {
    map l | l in full && l in needed :: full[l]
  }

  lemma {:induction false} SameWalk(m: LocaleSet, a: map<string, Catalog>, b: map<string, Catalog>, id: string, chain: seq<string>)
    requires forall l :: l in chain ==> (l in a <==> l in b) && (l in a ==> a[l] == b[l])
    ensures Walk(m, a, id, chain) == Walk(m, b, id, chain) && FirstWith(a, id, chain) == FirstWith(b, id, chain)
    ensures FirstWith(a, id, chain).Some? ==> FirstWith(a, id, chain).value in chain
  {
    if chain != [] {
      assert chain[0] in chain;
      SameWalk(m, a, b, id, chain[1..]);
    }
  }

  lemma {:induction false} LoadedWalk(m: LocaleSet, catalogs: map<string, Catalog>, id: string, chain: seq<string>)
    requires forall l :: l in chain && l in m.locales ==> l in catalogs
    ensures forall s :: s in Walk(m, catalogs, id, chain) ==> s.outcome != NotLoaded
  {
    if chain != [] {
      assert chain[0] in chain;
      LoadedWalk(m, catalogs, id, chain[1..]);
    }
  }

  /** Partial loading agrees with full loading: for any nonempty request list drawn from the
      configured tags, resolving over the needed locales alone gives the same locale, chain,
      steps and message as with every locale loaded, and no step is NotLoaded. */
  lemma {:induction false} PartialAgreesWithFull(m: LocaleSet, canon: Canonicalizer, configured: seq<string>,
                                                 full: map<string, Catalog>, id: string, requested: seq<string>)
    requires full.Keys == Members(m.locales)
    requires requested != [] && forall t :: t in requested ==> t in CanonicalizeAll(canon, configured)
    ensures var partial := OnlyNeeded(full, NeededLocales(m, canon, configured));
            Resolve(m, partial, id, requested) == Resolve(m, full, id, requested) &&
            forall s :: s in Resolve(m, partial, id, requested).steps ==> s.outcome != NotLoaded
  {
    hide Chain, Negotiate, CanonicalizeAll, Walk, FirstWith, AppendNew, NeededOf;
    var tags := CanonicalizeAll(canon, configured);
    var partial := OnlyNeeded(full, NeededLocales(m, canon, configured));
    NegotiatedByOne(m, requested);
    var t :| t in requested && Negotiate(m, [t]) == Negotiate(m, requested);
    var chain := Chain(m, Negotiate(m, requested));
    NeededChain(m, tags, t);
    AppendNewFacts([], NeededOf(m, tags));
    assert forall l :: l in chain && l in m.locales ==> l in partial;
    SameWalk(m, partial, full, id, chain);
    LoadedWalk(m, partial, id, chain);
  }

  // ----- Resolver by resolver -----

  const BY_SOURCE := "source"

  /** A named resolver and the tags it proposes for a request, or None when it is not set. */
  datatype Resolver = Resolver(name: string, proposals: Option<seq<string>>)

  datatype Negotiation = Negotiation(requested: seq<string>, locale: string, decidedBy: string)

  /** The loop of ResolverChain.Negotiate: the negotiation so far and the first resolver that
      proposed anything. */
  function Run(canon: Canonicalizer, resolvers: seq<Resolver>, available: seq<string>, n: Negotiation, firstBy: string)
    : (Negotiation, string)
    decreases |resolvers|
  {
    if resolvers == [] then (n, firstBy)
    else if resolvers[0].proposals.None? then Run(canon, resolvers[1..], available, n, firstBy)
    else
      var ps := CanonicalizeAll(canon, resolvers[0].proposals.value);
      var by' := if ps != [] && firstBy == "" then resolvers[0].name else firstBy;
      var found := Lookup(ps, available);
      var decided := if found.Some? && n.locale == "" then n.(locale := found.value, decidedBy := resolvers[0].name) else n;
      Run(canon, resolvers[1..], available, decided.(requested := AppendNew(n.requested, ps)), by')
  }

  function Settled(n: Negotiation, firstBy: string, source: string): Negotiation {
    if n.locale != "" then n
    else if source != "" || n.requested == [] then n.(locale := source, decidedBy := BY_SOURCE)
    else n.(locale := n.requested[0], decidedBy := firstBy)
  }

  function NegotiateRequest(canon: Canonicalizer, resolvers: seq<Resolver>, available: seq<string>, source: string): Negotiation {
    var (n, firstBy) := Run(canon, resolvers, available, Negotiation([], "", ""), "");
    Settled(n, firstBy, source)
  }

  method ComputeNegotiation(canon: Canonicalizer, resolvers: seq<Resolver>, available: seq<string>, source: string)
    returns (n: Negotiation)
    ensures n == NegotiateRequest(canon, resolvers, available, source)
  {
    hide Lookup, CanonicalizeAll, AppendNew;
    n := Negotiation([], "", "");
    var firstBy := "";
    assert resolvers[0..] == resolvers;
    for i := 0 to |resolvers|
      invariant Run(canon, resolvers[i..], available, n, firstBy) ==
                Run(canon, resolvers, available, Negotiation([], "", ""), "")
    {
      assert resolvers[i..][0] == resolvers[i] && resolvers[i..][1..] == resolvers[i + 1..];
      if resolvers[i].proposals.None? {
        continue;
      }
      var ps := ComputeCanonicalizeAll(canon, resolvers[i].proposals.value);
      if |ps| > 0 && firstBy == "" {
        firstBy := resolvers[i].name;
      }
      var found := ComputeLookup(ps, available);
      if found.Some? && n.locale == "" {
        n := n.(locale := found.value, decidedBy := resolvers[i].name);
      }
      var requested := ComputeAppendNew(n.requested, ps);
      n := n.(requested := requested);
    }
    if n.locale == "" {
      if source != "" || |n.requested| == 0 {
        n := n.(locale := source, decidedBy := BY_SOURCE);
      } else {
        n := n.(locale := n.requested[0], decidedBy := firstBy);
      }
    }
  }

  lemma {:induction false} LookupConcat(a: seq<string>, b: seq<string>, available: seq<string>)
    ensures Lookup(a + b, available) ==
            if Lookup(a, available).Some? then Lookup(a, available) else Lookup(b, available)
  {
    hide Candidates, FirstIn;
    if a == [] {
      assert a + b == b;
    } else {
      assert (a + b)[1..] == a[1..] + b;
      LookupConcat(a[1..], b, available);
    }
  }

  lemma {:induction false} LookupNone(a: seq<string>, x: string, available: seq<string>)
    requires x in a && Lookup(a, available).None?
    ensures Lookup([x], available).None?
  {
    hide Candidates, FirstIn;
    LookupOne(a[0], available);
    if x != a[0] {
      LookupNone(a[1..], x, available);
    }
  }

  /** Dropping repeats does not change what is looked up: a repeated tag finds nothing its first
      occurrence did not. */
  lemma {:induction false} LookupAppendNew(list: seq<string>, items: seq<string>, available: seq<string>)
    ensures Lookup(AppendNew(list, items), available) == Lookup(list + items, available)
    decreases |items|
  {
    hide Lookup;
    if items == [] {
      assert list + items == list;
    } else {
      var x := items[0];
      assert items == [x] + items[1..];
      if x in list {
        LookupAppendNew(list, items[1..], available);
        LookupConcat(list, items[1..], available);
        LookupConcat(list, items, available);
        LookupConcat([x], items[1..], available);
        if Lookup(list, available).None? {
          LookupNone(list, x, available);
        }
      } else {
        LookupAppendNew(list + [x], items[1..], available);
        assert (list + [x]) + items[1..] == list + items;
      }
    }
  }

  lemma {:induction false} RunAgrees(canon: Canonicalizer, resolvers: seq<Resolver>, available: seq<string>,
                                     n: Negotiation, firstBy: string)
    requires "" !in available && n.locale == Lookup(n.requested, available).GetOr("")
    ensures var (r, _) := Run(canon, resolvers, available, n, firstBy);
            r.locale == Lookup(r.requested, available).GetOr("")
    decreases |resolvers|
  {
    hide Lookup, CanonicalizeAll, AppendNew;
    if resolvers != [] {
      if resolvers[0].proposals.None? {
        RunAgrees(canon, resolvers[1..], available, n, firstBy);
      } else {
        var ps := CanonicalizeAll(canon, resolvers[0].proposals.value);
        var by' := if ps != [] && firstBy == "" then resolvers[0].name else firstBy;
        var found := Lookup(ps, available);
        var decided := if found.Some? && n.locale == "" then n.(locale := found.value, decidedBy := resolvers[0].name) else n;
        var next := decided.(requested := AppendNew(n.requested, ps));
        LookupAppendNew(n.requested, ps, available);
        LookupConcat(n.requested, ps, available);
        LookupAvailable(n.requested, available);
        LookupAvailable(ps, available);
        RunAgrees(canon, resolvers[1..], available, next, by');
      }
    }
  }

  /** Middleware and rendering agree: the locale decided resolver by resolver is the one the
      manifest negotiates from the concatenated request list; with no release loaded it is the
      first requested tag, or nothing. */
  lemma {:induction false} MiddlewareAgrees(canon: Canonicalizer, resolvers: seq<Resolver>, m: LocaleSet)
    requires "" !in m.locales && m.source != ""
    ensures var n := NegotiateRequest(canon, resolvers, m.locales, m.source);
            n.locale == Negotiate(m, n.requested)
    ensures var n := NegotiateRequest(canon, resolvers, [], "");
            n.locale == if n.requested == [] then "" else n.requested[0]
  {
    hide Lookup, Run;
    var start := Negotiation([], "", "");
    EmptyLookup(m.locales);
    EmptyLookup([]);
    RunAgrees(canon, resolvers, m.locales, start, "");
    RunAgrees(canon, resolvers, [], start, "");
    var (r, _) := Run(canon, resolvers, m.locales, start, "");
    LookupAvailable(r.requested, m.locales);
    var (r', _) := Run(canon, resolvers, [], start, "");
    LookupAvailable(r'.requested, []);
  }

  lemma {:induction false} EmptyLookup(available: seq<string>)
    ensures Lookup([], available) == None
  {
  }

  // ----- Who decides -----

  /** What a resolver alone would have served. */
  function Serves(canon: Canonicalizer, r: Resolver, available: seq<string>): Option<string> {
    if r.proposals.None? then None else Lookup(CanonicalizeAll(canon, r.proposals.value), available)
  }

  /** The first resolver that serves anything, or how many there are. */
  function FirstServing(canon: Canonicalizer, resolvers: seq<Resolver>, available: seq<string>): (i: nat)
    ensures i <= |resolvers| && (i < |resolvers| ==> Serves(canon, resolvers[i], available).Some?)
    ensures forall j :: 0 <= j < i ==> Serves(canon, resolvers[j], available).None?
  {
    if resolvers == [] || Serves(canon, resolvers[0], available).Some? then 0
    else 1 + FirstServing(canon, resolvers[1..], available)
  }

  lemma {:induction false} RunDecides(canon: Canonicalizer, resolvers: seq<Resolver>, available: seq<string>, n: Negotiation, firstBy: string)
    requires "" !in available
    ensures var (r, _) := Run(canon, resolvers, available, n, firstBy);
            var i := FirstServing(canon, resolvers, available);
            if n.locale != "" then r.locale == n.locale && r.decidedBy == n.decidedBy
            else if i < |resolvers| then
              Serves(canon, resolvers[i], available) == Some(r.locale) && r.locale != "" && r.decidedBy == resolvers[i].name
            else r.locale == "" && r.decidedBy == n.decidedBy
    decreases |resolvers|
  {
    hide Lookup, CanonicalizeAll, AppendNew;
    if resolvers != [] {
      var first := resolvers[0];
      if first.proposals.None? {
        RunDecides(canon, resolvers[1..], available, n, firstBy);
      } else {
        var ps := CanonicalizeAll(canon, first.proposals.value);
        var by' := if ps != [] && firstBy == "" then first.name else firstBy;
        var found := Lookup(ps, available);
        LookupAvailable(ps, available);
        var decided := if found.Some? && n.locale == "" then n.(locale := found.value, decidedBy := first.name) else n;
        RunDecides(canon, resolvers[1..], available, decided.(requested := AppendNew(n.requested, ps)), by');
      }
    }
  }

  /** The locale is decided by the first resolver that serves anything, with what it serves; and by the
      source, under that name, when none does and there is a source. */
  lemma {:induction false} DeciderIsFirst(canon: Canonicalizer, resolvers: seq<Resolver>, available: seq<string>, source: string)
    requires "" !in available
    ensures var n := NegotiateRequest(canon, resolvers, available, source);
            var i := FirstServing(canon, resolvers, available);
            (i < |resolvers| ==> Serves(canon, resolvers[i], available) == Some(n.locale) && n.decidedBy == resolvers[i].name) &&
            (i == |resolvers| && source != "" ==> n.locale == source && n.decidedBy == "source")
  {
    hide Run, Serves, FirstServing;
    RunDecides(canon, resolvers, available, Negotiation([], "", ""), "");
  }
}
