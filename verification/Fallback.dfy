/** The fallback chain of a release manifest (runtimes/go/manifest.go): a depth-first walk of a
    possibly cyclic graph of locales. */
module Fallback {
  import opened Locales

  /** A manifest without its artifacts: everything chains and lookups are computed from. The entry
      under DEFAULT applies to every chain. */
  datatype LocaleSet = LocaleSet(source: string, locales: seq<string>, fallback: map<string, seq<string>>)

  const DEFAULT := "*"

  function Targets(m: LocaleSet, l: string): seq<string> {
    if l in m.fallback then m.fallback[l] else []
  }

  /** Every locale that some fallback entry names. */
  function Universe(m: LocaleSet): set<string> {
    set l, t | l in m.fallback && t in m.fallback[l] :: t
  }

  lemma {:induction false} TargetsInUniverse(m: LocaleSet, l: string)
    ensures forall t :: t in Targets(m, l) ==> t in Universe(m)
  {
  }

  function Members(list: seq<string>): set<string> {
    set x | x in list
  }

  // ----- The walk of the code: one shared list of seen locales -----

  /** Visits the locales in order: each one not seen yet is added, then its own fallbacks. */
  function VisitAll(m: LocaleSet, ls: seq<string>, seen: seq<string>): (r: seq<string>)
    requires forall l :: l in ls ==> l in Universe(m)
    ensures seen <= r
    decreases Universe(m) - Members(seen), |ls|
  {
    if ls == [] then seen
    else if ls[0] in seen then VisitAll(m, ls[1..], seen)
    else
      TargetsInUniverse(m, ls[0]);
      assert ls[0] in Universe(m) - Members(seen) && ls[0] !in Universe(m) - Members(seen + [ls[0]]);
      var inner := VisitAll(m, Targets(m, ls[0]), seen + [ls[0]]);
      assert ls[0] in inner;
      VisitAll(m, ls[1..], inner)
  }

  function Listed(m: LocaleSet, tags: seq<string>): seq<string> {
    if tags == [] then []
    else (if tags[0] in m.locales then [tags[0]] else []) + Listed(m, tags[1..])
  }

  /** The chain of an active locale before the default entry: its own fallbacks, or without an
      entry its listed truncations. */
  function OwnChain(m: LocaleSet, active: string): seq<string> {
    if active in m.fallback then
      TargetsInUniverse(m, active);
      VisitAll(m, Targets(m, active), [active])
    else AppendNew([active], Listed(m, Truncations(active)))
  }

  function Chain(m: LocaleSet, active: string): seq<string> {
    TargetsInUniverse(m, DEFAULT);
    AppendNew(VisitAll(m, Targets(m, DEFAULT), OwnChain(m, active)), [m.source])
  }

  /** chainBuilder: the seen set and the list under construction. */
  class ChainBuilder {
    const m: LocaleSet
    var seen: set<string>
    var out: seq<string>

    constructor (m: LocaleSet)
      ensures this.m == m && seen == {} && out == []
    {
      this.m, seen, out := m, {}, [];
    }

    ghost predicate Valid()
      reads this
    {
      seen == Members(out)
    }

    /** One step of the walk: a new locale goes to the end of the list. */
    method Add(locale: string) returns (added: bool)
      requires Valid()
      modifies this
      ensures Valid() && added == (locale !in old(out))
      ensures out == if added then old(out) + [locale] else old(out)
    {
      if locale in seen {
        return false;
      }
      seen := seen + {locale};
      out := out + [locale];
      added := true;
    }

    method Visit(locale: string)
      requires Valid() && locale in Universe(m)
      modifies this
      ensures Valid() && out == VisitAll(m, [locale], old(out))
      decreases Universe(m) - Members(out), 1
    {
      assert [locale][1..] == [];
      var added := Add(locale);
      if added {
        TargetsInUniverse(m, locale);
        assert locale in Universe(m) - Members(old(out)) && locale !in Universe(m) - Members(out);
        Expand(locale);
      }
    }

    method Expand(locale: string)
      requires Valid()
      modifies this
      ensures Valid() && (TargetsInUniverse(m, locale); out == VisitAll(m, Targets(m, locale), old(out)))
      decreases Universe(m) - Members(out), 2
    {
      TargetsInUniverse(m, locale);
      var targets := Targets(m, locale);
      assert targets[0..] == targets;
      for i := 0 to |targets|
        invariant Valid() && old(out) <= out
        invariant VisitAll(m, targets[i..], out) == VisitAll(m, targets, old(out))
      {
        var t := targets[i];
        VisitFirst(m, targets[i..], out);
        assert targets[i..][0] == t && targets[i..][1..] == targets[i + 1..];
        assert Members(old(out)) <= Members(out);
        assert Universe(m) - Members(out) <= Universe(m) - Members(old(out));
        Visit(t);
      }
    }

    method Build(active: string)
      requires Valid() && out == []
      modifies this
      ensures Valid() && out == Chain(m, active)
    {
      var _ := Add(active);
      assert out == [active];
      if active in m.fallback {
        Expand(active);
      } else {
        var shorter := ComputeTruncations(active);
        assert shorter[0..] == shorter;
        for i := 0 to |shorter|
          invariant Valid()
          invariant AppendNew(out, Listed(m, shorter[i..])) == OwnChain(m, active)
        {
          assert shorter[i..][0] == shorter[i] && shorter[i..][1..] == shorter[i + 1..];
          var rest := Listed(m, shorter[i + 1..]);
          assert ([shorter[i]] + rest)[1..] == rest && [] + rest == rest;
          if shorter[i] in m.locales {
            var _ := Add(shorter[i]);
          }
        }
      }
      assert out == OwnChain(m, active);
      Expand(DEFAULT);
      AppendNewOne(out, m.source);
      var _ := Add(m.source);
    }
  }

  lemma {:induction false} AppendNewOne(list: seq<string>, x: string)
    ensures AppendNew(list, [x]) == if x in list then list else list + [x]
  {
    assert [x][1..] == [];
  }

  lemma {:induction false} VisitFirst(m: LocaleSet, ls: seq<string>, seen: seq<string>)
    requires ls != [] && forall l :: l in ls ==> l in Universe(m)
    ensures VisitAll(m, ls, seen) == VisitAll(m, ls[1..], VisitAll(m, [ls[0]], seen))
  {
    assert [ls[0]][1..] == [];
  }
}
