/** Well-bracketed markup, and the check of it on translations (messageformat/compat.go). */
module Brackets {

  datatype Bracket = Open(name: string) | Close(name: string)

  /** Derivations of the Dyck grammar by name: nothing, or an element around a derivation and what
      comes after it. */
  datatype Nest = Empty | Around(name: string, inner: Nest, next: Nest)

  function Yield(n: Nest): seq<Bracket> {
    match n
    case Empty => []
    case Around(name, inner, next) => [Open(name)] + (Yield(inner) + ([Close(name)] + Yield(next)))
  }

  ghost predicate Balanced(bs: seq<Bracket>) {
    exists n :: Yield(n) == bs
  }

  // ----- The strict stack -----

  /** Whether a stack of open names accepts the brackets, every close matching the innermost. */
  predicate Accepts(bs: seq<Bracket>, open: seq<string>) {
    if bs == [] then open == []
    else
      match bs[0]
      case Open(name) => Accepts(bs[1..], open + [name])
      case Close(name) => open != [] && open[|open| - 1] == name && Accepts(bs[1..], open[..|open| - 1])
  }

  lemma {:induction false} AcceptsYield(n: Nest, rest: seq<Bracket>, open: seq<string>)
    ensures Accepts(Yield(n) + rest, open) == Accepts(rest, open)
    decreases n
  {
    match n {
      case Empty => assert [] + rest == rest;
      case Around(name, inner, next) =>
        var tail := [Close(name)] + (Yield(next) + rest);
        assert Yield(n) + rest == [Open(name)] + (Yield(inner) + tail);
        AcceptsYield(inner, tail, open + [name]);
        assert tail[1..] == Yield(next) + rest;
        assert (open + [name])[..|open|] == open;
        AcceptsYield(next, rest, open);
    }
  }

  /** Derivations between the closes of the open names, innermost first. */
  function Spell(nests: seq<Nest>, open: seq<string>): seq<Bracket>
    requires |nests| == |open| + 1
  {
    var last := |open|;
    if last == 0 then Yield(nests[0])
    else Yield(nests[last]) + ([Close(open[last - 1])] + Spell(nests[..last], open[..last - 1]))
  }

  /** What the stack accepts has derivations. */
  lemma {:induction false} Derive(bs: seq<Bracket>, open: seq<string>) returns (nests: seq<Nest>)
    requires Accepts(bs, open)
    ensures |nests| == |open| + 1 && Spell(nests, open) == bs
    decreases |bs|
  {
    hide Spell, Yield;
    if bs == [] {
      nests := [Empty];
      SpellTop(nests, open);
      YieldEmpty();
    } else if bs[0].Close? {
      var inner := Derive(bs[1..], open[..|open| - 1]);
      nests := inner + [Empty];
      DeriveClose(bs, open, inner);
    } else {
      var name := bs[0].name;
      var deeper := Derive(bs[1..], open + [name]);
      nests := deeper[..|open|] + [Around(name, deeper[|open| + 1], deeper[|open|])];
      DeriveOpen(bs, open, name, deeper);
    }
  }

  lemma {:induction false} YieldEmpty()
    ensures Yield(Empty) == []
  {
  }

  lemma {:induction false} DeriveClose(bs: seq<Bracket>, open: seq<string>, inner: seq<Nest>)
    requires bs != [] && open != [] && bs[0] == Close(open[|open| - 1])
    requires |inner| == |open| && Spell(inner, open[..|open| - 1]) == bs[1..]
    ensures Spell(inner + [Empty], open) == bs
  {
    hide Spell, Yield;
    var nests := inner + [Empty];
    SpellTop(nests, open);
    YieldEmpty();
    assert nests[..|open|] == inner;
    assert bs == [bs[0]] + bs[1..];
  }

  lemma {:induction false} DeriveOpen(bs: seq<Bracket>, open: seq<string>, name: string, deeper: seq<Nest>)
    requires bs != [] && bs[0] == Open(name) && |deeper| == |open| + 2 && Spell(deeper, open + [name]) == bs[1..]
    ensures Spell(deeper[..|open|] + [Around(name, deeper[|open| + 1], deeper[|open|])], open) == bs
  {
    hide Spell, Yield;
    var n := |open|;
    var (a, b) := (deeper[n + 1], deeper[n]);
    var nests := deeper[..n] + [Around(name, a, b)];
    SpellDeeper(deeper, open, name);
    SpellTop(nests, open);
    SpellTop(deeper[..n + 1], open);
    assert nests[..n] == deeper[..n] && deeper[..n + 1][..n] == deeper[..n];
    YieldAround(name, a, b);
    var rest := Below(nests, open);
    Regroup(Open(name), Yield(a), Close(name), Yield(b), rest);
    assert bs == [bs[0]] + bs[1..];
  }

  lemma {:induction false} YieldAround(name: string, a: Nest, b: Nest)
    ensures Yield(Around(name, a, b)) == [Open(name)] + (Yield(a) + ([Close(name)] + Yield(b)))
  {
  }

  lemma {:induction false} Regroup(o: Bracket, a: seq<Bracket>, c: Bracket, b: seq<Bracket>, rest: seq<Bracket>)
    ensures ([o] + (a + ([c] + b))) + rest == [o] + (a + ([c] + (b + rest)))
  {
    assert ([c] + b) + rest == [c] + (b + rest);
    assert (a + ([c] + b)) + rest == a + (([c] + b) + rest);
  }

  function Below(nests: seq<Nest>, open: seq<string>): seq<Bracket>
    requires |nests| == |open| + 1
  {
    var last := |open|;
    if last == 0 then [] else [Close(open[last - 1])] + Spell(nests[..last], open[..last - 1])
  }

  lemma {:induction false} SpellTop(nests: seq<Nest>, open: seq<string>)
    requires |nests| == |open| + 1
    ensures Spell(nests, open) == Yield(nests[|open|]) + Below(nests, open)
  {
    assert Yield(nests[0]) + [] == Yield(nests[0]);
  }

  lemma {:induction false} SpellDeeper(nests: seq<Nest>, open: seq<string>, name: string)
    requires |nests| == |open| + 2
    ensures Spell(nests, open + [name]) == Yield(nests[|open| + 1]) + ([Close(name)] + Spell(nests[..|open| + 1], open))
  {
    assert (open + [name])[..|open|] == open;
  }

  /** The stack accepts exactly the language of the grammar. */
  lemma {:induction false} AcceptsIsBalanced(bs: seq<Bracket>)
    ensures Accepts(bs, []) <==> Balanced(bs)
  {
    if Accepts(bs, []) {
      var nests := Derive(bs, []);
      assert Yield(nests[0]) == bs;
    }
    if Balanced(bs) {
      var n :| Yield(n) == bs;
      AcceptsYield(n, [], []);
      assert Yield(n) + [] == bs;
    }
  }

  // ----- checkMarkupBalance -----

  datatype Kind = OpenKind | CloseKind | StandaloneKind

  /** A pattern element as the check sees it. */
  datatype Element = Other | Markup(kind: Kind, name: string)

  type Pattern = seq<Element>

  const NEVER_CLOSED := "is opened but never closed"
  const NOT_OPEN := "is closed without being open"
  const OUT_OF_ORDER := "is closed out of order"

  datatype Finding = Finding(subject: string, why: string)

  /** The open and close markup of a pattern. */
  function Markups(p: Pattern): seq<Bracket> {
    if p == [] then []
    else
      match p[0]
      case Markup(OpenKind, name) => [Open(name)] + Markups(p[1..])
      case Markup(CloseKind, name) => [Close(name)] + Markups(p[1..])
      case _ => Markups(p[1..])
  }

  /** The innermost open element of that name, or -1. */
  function Innermost(open: seq<string>, name: string): (i: int)
    ensures -1 <= i < |open| && (i >= 0 ==> open[i] == name)
  {
    if open == [] then -1
    else if open[|open| - 1] == name then |open| - 1
    else Innermost(open[..|open| - 1], name)
  }

  /** report: each name once. */
  function Report(out: seq<Finding>, name: string, why: string): seq<Finding> {
    if exists f :: f in out && f.subject == name then out else out + [Finding(name, why)]
  }

  function ReportAll(out: seq<Finding>, names: seq<string>, why: string): seq<Finding>
    decreases |names|
  {
    if names == [] then out else ReportAll(Report(out, names[0], why), names[1..], why)
  }

  /** closeMarkup: the stack after a close, and what it reports. */
  function CloseMarkup(open: seq<string>, name: string, out: seq<Finding>): (seq<string>, seq<Finding>) {
    var i := Innermost(open, name);
    if i < 0 then (open, Report(out, name, NOT_OPEN))
    else if i < |open| - 1 then (open[..i], ReportAll(Report(out, name, OUT_OF_ORDER), open[i + 1..], OUT_OF_ORDER))
    else (open[..i], out)
  }

  function CheckPattern(p: Pattern, open: seq<string>, out: seq<Finding>): seq<Finding>
    decreases |p|
  {
    if p == [] then ReportAll(out, open, NEVER_CLOSED)
    else
      match p[0]
      case Markup(OpenKind, name) => CheckPattern(p[1..], open + [name], out)
      case Markup(CloseKind, name) =>
        var (open', out') := CloseMarkup(open, name, out);
        CheckPattern(p[1..], open', out')
      case _ => CheckPattern(p[1..], open, out)
  }

  function CheckAll(patterns: seq<Pattern>, out: seq<Finding>): seq<Finding>
    decreases |patterns|
  {
    if patterns == [] then out else CheckAll(patterns[1..], CheckPattern(patterns[0], [], out))
  }

  // ----- What is reported -----

  /** No two findings name the same element. */
  predicate NamedOnce(out: seq<Finding>) {
    forall i, j :: 0 <= i < j < |out| ==> out[i].subject != out[j].subject
  }

  lemma {:induction false} ReportFacts(out: seq<Finding>, name: string, why: string)
    ensures out <= Report(out, name, why) && Report(out, name, why) != [] && (NamedOnce(out) ==> NamedOnce(Report(out, name, why)))
  {
    assert out != [] ==> out[0] in out;
  }

  lemma {:induction false} ReportAllFacts(out: seq<Finding>, names: seq<string>, why: string)
    ensures out <= ReportAll(out, names, why) && (names == [] ==> ReportAll(out, names, why) == out) &&
            (names != [] ==> ReportAll(out, names, why) != []) &&
            (NamedOnce(out) ==> NamedOnce(ReportAll(out, names, why)))
    decreases |names|
  {
    hide Report, NamedOnce;
    if names != [] {
      ReportFacts(out, names[0], why);
      ReportAllFacts(Report(out, names[0], why), names[1..], why);
    }
  }

  lemma {:induction false} CloseFacts(open: seq<string>, name: string, out: seq<Finding>)
    ensures var (open', out') := CloseMarkup(open, name, out);
            out <= out' && (NamedOnce(out) ==> NamedOnce(out')) &&
            (out' == [] <==> out == [] && open != [] && open[|open| - 1] == name) &&
            (out' == [] ==> open' == open[..|open| - 1])
  {
    hide Report, ReportAll, NamedOnce;
    var i := Innermost(open, name);
    ReportFacts(out, name, NOT_OPEN);
    ReportFacts(out, name, OUT_OF_ORDER);
    ReportAllFacts(Report(out, name, OUT_OF_ORDER), open[i + 1..], OUT_OF_ORDER);
  }

  lemma {:induction false} InnermostIs(open: seq<string>, name: string)
    ensures var i := Innermost(open, name);
            (i < 0 <==> name !in open) && (i >= 0 ==> open[i] == name && name !in open[i + 1..])
  {
    if open != [] && open[|open| - 1] != name {
      var front := open[..|open| - 1];
      InnermostIs(front, name);
      assert open == front + [open[|open| - 1]];
      var i := Innermost(front, name);
      if i >= 0 {
        assert open[i + 1..] == front[i + 1..] + [open[|open| - 1]];
      }
    }
  }

  /** Each name is in the findings, and the new ones are about them, for that reason. */
  ghost predicate Adds(out: seq<Finding>, names: seq<string>, why: string, out': seq<Finding>) {
    out <= out' && (forall n :: n in names ==> exists f :: f in out' && f.subject == n) &&
    forall f :: f in out'[|out|..] ==> f.subject in names && f.why == why
  }

  lemma {:induction false} ReportAllAdds(out: seq<Finding>, names: seq<string>, why: string)
    ensures Adds(out, names, why, ReportAll(out, names, why))
    decreases |names|
  {
    if names != [] {
      var mid := Report(out, names[0], why);
      var end := ReportAll(mid, names[1..], why);
      ReportAllAdds(mid, names[1..], why);
      assert mid == out || mid == out + [Finding(names[0], why)];
      assert mid != out ==> mid[|out|] in mid;
      assert forall n :: n in names <==> n == names[0] || n in names[1..];
      if f :| f in mid && f.subject == names[0] {
        assert f in end;
      }
      forall f | f in end[|out|..] ensures f.subject in names && f.why == why {
        var i :| |out| <= i < |end| && end[i] == f;
        if i < |mid| {
          assert end[i] == mid[i];
        } else {
          assert f in end[|mid|..];
        }
      }
    }
  }

  lemma {:induction false} AddsConcat(out: seq<Finding>, a: string, names: seq<string>, why: string)
    ensures ReportAll(Report(out, a, why), names, why) == ReportAll(out, [a] + names, why)
  {
    assert ([a] + names)[1..] == names;
  }

  /** The close of name takes the i-th open element, its innermost, and reports what it crosses. */
  ghost predicate ClosesAt(open: seq<string>, name: string, out: seq<Finding>, i: int, open': seq<string>, out': seq<Finding>) {
    0 <= i < |open| && open[i] == name && name !in open[i + 1..] && open' == open[..i] &&
    if i == |open| - 1 then out' == out else Adds(out, open[i..], "is closed out of order", out')
  }

  /** A close without an open element of its name is reported as that; one that crosses others is
      reported, with all it crosses, as out of order; what is left open at the end as never closed. */
  lemma {:induction false} WhatIsReported(open: seq<string>, name: string, out: seq<Finding>)
    ensures var (open', out') := CloseMarkup(open, name, out);
            (name !in open ==> open' == open && Adds(out, [name], "is closed without being open", out')) &&
            (name in open ==> exists i :: ClosesAt(open, name, out, i, open', out'))
    ensures Adds(out, open, "is opened but never closed", CheckPattern([], open, out))
  {
    hide Adds, Report, ReportAll;
    InnermostIs(open, name);
    var i := Innermost(open, name);
    ReportAllAdds(out, open, NEVER_CLOSED);
    ReportAllAdds(out, [name], NOT_OPEN);
    OneReport(out, name, NOT_OPEN);
    if i >= 0 {
      AddsConcat(out, name, open[i + 1..], OUT_OF_ORDER);
      assert open[i..] == [name] + open[i + 1..];
      ReportAllAdds(out, open[i..], OUT_OF_ORDER);
      var (open', out') := CloseMarkup(open, name, out);
      assert ClosesAt(open, name, out, i, open', out');
    }
  }

  lemma {:induction false} OneReport(out: seq<Finding>, name: string, why: string)
    ensures ReportAll(out, [name], why) == Report(out, name, why)
  {
    hide Report;
    assert [name][1..] == [];
  }

  lemma {:induction false} PatternFacts(p: Pattern, open: seq<string>, out: seq<Finding>)
    ensures var out' := CheckPattern(p, open, out);
            out <= out' && (NamedOnce(out) ==> NamedOnce(out')) && (out' == [] <==> out == [] && Accepts(Markups(p), open))
    decreases |p|
  {
    hide CloseMarkup, ReportAll, NamedOnce;
    if p == [] {
      ReportAllFacts(out, open, NEVER_CLOSED);
    } else if p[0].Markup? && p[0].kind.OpenKind? {
      PatternFacts(p[1..], open + [p[0].name], out);
      assert ([Open(p[0].name)] + Markups(p[1..]))[1..] == Markups(p[1..]);
    } else if p[0].Markup? && p[0].kind.CloseKind? {
      var (open', out') := CloseMarkup(open, p[0].name, out);
      CloseFacts(open, p[0].name, out);
      PatternFacts(p[1..], open', out');
      assert ([Close(p[0].name)] + Markups(p[1..]))[1..] == Markups(p[1..]);
    } else {
      PatternFacts(p[1..], open, out);
    }
  }

  lemma {:induction false} AllFacts(patterns: seq<Pattern>, out: seq<Finding>)
    requires NamedOnce(out)
    ensures var out' := CheckAll(patterns, out);
            out <= out' && NamedOnce(out') &&
            (out' == [] <==> out == [] && forall p :: p in patterns ==> Accepts(Markups(p), []))
    decreases |patterns|
  {
    hide CheckPattern, NamedOnce, Accepts;
    if patterns != [] {
      PatternFacts(patterns[0], [], out);
      AllFacts(patterns[1..], CheckPattern(patterns[0], [], out));
      assert forall p :: p in patterns <==> p == patterns[0] || p in patterns[1..];
    }
  }

  /** The check reports nothing exactly when the markup of every pattern is well bracketed by name,
      and reports each name at most once over all patterns. */
  lemma {:induction false} ReportsNothingIff(patterns: seq<Pattern>)
    ensures var out := CheckAll(patterns, []);
            NamedOnce(out) && (out == [] <==> forall p :: p in patterns ==> Balanced(Markups(p)))
  {
    hide CheckAll, Accepts, Balanced, Markups;
    assert NamedOnce([]);
    AllFacts(patterns, []);
    forall p | p in patterns ensures Accepts(Markups(p), []) <==> Balanced(Markups(p)) {
      AcceptsIsBalanced(Markups(p));
    }
  }

  lemma {:induction false} OnlyInnermost(open: seq<string>, name: string, i: int)
    requires -1 <= i < |open| && (i >= 0 ==> open[i] == name) && forall k :: i < k < |open| ==> open[k] != name
    ensures i == Innermost(open, name)
  {
    if open != [] && open[|open| - 1] != name {
      OnlyInnermost(open[..|open| - 1], name, i);
    }
  }

  /** checkMarkupBalance, with its stack, its reported names and its findings. */
  class Checker {
    var reported: set<string>
    var out: seq<Finding>

    constructor ()
      ensures Valid() && out == []
    {
      reported, out := {}, [];
    }

    ghost predicate Valid()
      reads this
    {
      forall n :: n in reported <==> exists f :: f in out && f.subject == n
    }

    method Note(name: string, why: string)
      requires Valid()
      modifies this
      ensures Valid() && out == Report(old(out), name, why)
    {
      if name in reported {
        return;
      }
      reported := reported + {name};
      out := out + [Finding(name, why)];
      assert out[|out| - 1] in out;
      forall n ensures n in reported <==> exists f :: f in out && f.subject == n {
        if n != name && n in reported {
          var f :| f in old(out) && f.subject == n;
          assert f in out;
        }
      }
    }

    method NoteAll(names: seq<string>, why: string)
      requires Valid()
      modifies this
      ensures Valid() && out == ReportAll(old(out), names, why)
    {
      hide Report;
      assert names[0..] == names;
      for i := 0 to |names|
        invariant Valid() && ReportAll(out, names[i..], why) == ReportAll(old(out), names, why)
      {
        assert names[i..][0] == names[i] && names[i..][1..] == names[i + 1..];
        Note(names[i], why);
      }
    }

    method ApplyClose(open: seq<string>, name: string) returns (rest: seq<string>)
      requires Valid()
      modifies this
      ensures Valid() && (rest, out) == CloseMarkup(open, name, old(out))
    {
      hide Report, ReportAll, Valid, Innermost;
      var i := FindInnermost(open, name);
      if i < 0 {
        Note(name, NOT_OPEN);
        return open;
      }
      if i < |open| - 1 {
        Note(name, OUT_OF_ORDER);
        NoteAll(open[i + 1..], OUT_OF_ORDER);
      }
      rest := open[..i];
    }

    method FindInnermost(open: seq<string>, name: string) returns (i: int)
      ensures i == Innermost(open, name)
    {
      hide Innermost;
      i := |open| - 1;
      while i >= 0 && open[i] != name
        invariant -1 <= i < |open| && forall k :: i < k < |open| ==> open[k] != name
      {
        i := i - 1;
      }
      OnlyInnermost(open, name, i);
    }

    method CheckOne(p: Pattern)
      requires Valid()
      modifies this
      ensures Valid() && out == CheckPattern(p, [], old(out))
    {
      hide CloseMarkup, Valid, ReportAll;
      var open: seq<string> := [];
      assert p[0..] == p;
      for i := 0 to |p|
        invariant Valid() && CheckPattern(p[i..], open, out) == CheckPattern(p, [], old(out))
      {
        assert p[i..][0] == p[i] && p[i..][1..] == p[i + 1..];
        if p[i].Markup? {
          match p[i].kind {
            case OpenKind => open := open + [p[i].name];
            case CloseKind => open := ApplyClose(open, p[i].name);
            case StandaloneKind =>
          }
        }
      }
      NoteAll(open, NEVER_CLOSED);
    }

    method Check(patterns: seq<Pattern>)
      requires Valid() && out == []
      modifies this
      ensures Valid() && out == CheckAll(patterns, [])
    {
      hide CheckPattern, Valid;
      assert patterns[0..] == patterns;
      for i := 0 to |patterns|
        invariant Valid() && CheckAll(patterns[i..], out) == CheckAll(patterns, [])
      {
        assert patterns[i..][0] == patterns[i] && patterns[i..][1..] == patterns[i + 1..];
        CheckOne(patterns[i]);
      }
    }
  }
}
