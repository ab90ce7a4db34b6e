/** What the parser makes is in normal form, so printing it and parsing again changes nothing. */
module MiniFormatNormal {
  import opened Digits
  import opened MiniFormat
  import opened MiniFormatProofs

  /** Rounding an exact key twice is rounding it once. */
  ghost predicate Rounds(num: nat -> nat) {
    forall n :: num(num(n)) == num(n)
  }

  lemma {:induction false} IdentPrefix(s: string)
    ensures AllIdent(s[..IdentLength(s)])
  {
    hide IsIdent;
    if s != "" && IsIdent(s[0]) {
      IdentPrefix(s[1..]);
      assert s[..IdentLength(s)] == [s[0]] + s[1..][..IdentLength(s[1..])];
    }
  }

  /** A node that is no literal, between a flushed literal and what follows. */
  lemma {:induction false} NormalCons(num: nat -> nat, buf: string, p: Node, vs: seq<Node>, inPlural: bool)
    requires !p.Literal? && Normal(num, [p], inPlural) && Normal(num, vs, inPlural)
    ensures Normal(num, Flush(buf) + [p] + vs, inPlural)
  {
    var tail := [p] + vs;
    assert tail[1..] == vs && tail[0] == p;
    assert Normal(num, tail, inPlural);
    if buf != "" {
      assert Flush(buf) + [p] + vs == [Literal(buf)] + tail;
      assert ([Literal(buf)] + tail)[1..] == tail;
    } else {
      assert Flush(buf) + [p] + vs == tail;
    }
  }

  lemma {:induction false} NormalFlush(num: nat -> nat, buf: string, inPlural: bool)
    ensures Normal(num, Flush(buf), inPlural)
  {
    assert [Literal(buf)][1..] == [];
  }

  lemma {:induction false} NormalPound(num: nat -> nat)
    ensures Normal(num, [Pound], true)
  {
    assert [Pound][1..] == [];
  }

  lemma {:induction false} MessageIsNormal(num: nat -> nat, s: string, inPlural: bool, nested: bool, buf: string)
    requires Rounds(num)
    ensures var r := Message(num, s, inPlural, nested, buf); r.Ok? ==> Normal(num, r.value, inPlural)
    decreases |s|, 0
  {
    hide Normal, Placeholder, Rounds, Flush, Quoted;
    NormalFlush(num, buf, inPlural);
    if s == "" || s[0] == '}' {
    } else if s[0] == '\'' {
      MessageIsNormal(num, Quoted(s).1, inPlural, nested, buf + Quoted(s).0);
    } else if s[0] == '{' {
      var p := Placeholder(num, s[1..]);
      if p.Ok? {
        PlaceholderIsNormal(num, s[1..], inPlural);
        MessageIsNormal(num, p.rest, inPlural, nested, "");
        var r := Message(num, p.rest, inPlural, nested, "");
        if r.Ok? {
          NormalCons(num, buf, p.value, r.value, inPlural);
        }
      }
    } else if s[0] == '#' && inPlural {
      MessageIsNormal(num, s[1..], inPlural, nested, "");
      NormalPound(num);
      var r := Message(num, s[1..], inPlural, nested, "");
      if r.Ok? {
        NormalCons(num, buf, Pound, r.value, inPlural);
      }
    } else {
      MessageIsNormal(num, s[1..], inPlural, nested, buf + [s[0]]);
    }
  }

  lemma {:induction false} PlaceholderIsNormal(num: nat -> nat, s: string, inPlural: bool)
    requires Rounds(num)
    ensures var r := Placeholder(num, s); r.Ok? ==> !r.value.Literal? && Normal(num, [r.value], inPlural)
    decreases |s|, 2
  {
    hide PluralCases, SelectCases, Rounds, Normal, AllIdent, IsSpace, ArgType;
    var (name, s1) := SpacedIdent(s);
    IdentPrefix(SkipSpace(s));
    NormalVar(num, name, inPlural);
    if !Starts(s1, '}') && Starts(s1, ',') {
      var t := ArgType(s1[1..]);
      if t.Ok? {
        PluralIsNormal(num, t.rest, name, map[], map[], inPlural);
        SelectIsNormal(num, t.rest, name, map[], inPlural);
      }
    }
  }

  lemma {:induction false} NormalVar(num: nat -> nat, name: string, inPlural: bool)
    requires AllIdent(name)
    ensures Normal(num, [Var(name)], inPlural)
  {
    assert [Var(name)][1..] == [];
  }

  lemma {:induction false} BranchIsNormal(num: nat -> nat, s: string, inPlural: bool)
    requires Rounds(num)
    ensures var r := Branch(num, s, inPlural); r.Ok? ==> Normal(num, r.value, inPlural)
    decreases |s|, 0
  {
    hide Message, Normal, Rounds, IsSpace;
    var s1 := SkipSpace(s);
    if Starts(s1, '{') {
      MessageIsNormal(num, s1[1..], inPlural, true, "");
    }
  }

  ghost predicate CasesNormal(num: nat -> nat, cases: map<string, Body>, inPlural: bool) {
    forall k :: k in cases ==> k != "" && AllIdent(k) && Normal(num, cases[k].nodes, inPlural)
  }

  ghost predicate ExactNormal(num: nat -> nat, exact: map<nat, Body>) {
    forall n :: n in exact ==> num(n) == n && Normal(num, exact[n].nodes, true)
  }

  lemma {:induction false} NormalPlural(num: nat -> nat, name: string, exact: map<nat, Body>, cases: map<string, Body>, inPlural: bool)
    requires AllIdent(name) && "other" in cases && CasesNormal(num, cases, true) && ExactNormal(num, exact)
    ensures Normal(num, [Plural(name, exact, cases)], inPlural)
  {
    assert [Plural(name, exact, cases)][1..] == [];
  }

  lemma {:induction false} NormalSelect(num: nat -> nat, name: string, cases: map<string, Body>, inPlural: bool)
    requires AllIdent(name) && "other" in cases && CasesNormal(num, cases, false)
    ensures Normal(num, [Select(name, cases)], inPlural)
  {
    assert [Select(name, cases)][1..] == [];
  }

  lemma {:induction false} PluralIsNormal(num: nat -> nat, s: string, name: string, exact: map<nat, Body>, cases: map<string, Body>,
                                          inPlural: bool)
    requires Rounds(num) && AllIdent(name) && CasesNormal(num, cases, true) && ExactNormal(num, exact)
    ensures var r := PluralCases(num, s, name, exact, cases); r.Ok? ==> !r.value.Literal? && Normal(num, [r.value], inPlural)
    decreases |s|, 1
  {
    hide Branch, Normal, AllIdent, CaseKey, Rounds;
    if s == "" {
    } else if s[0] == '}' {
      if "other" in cases {
        NormalPlural(num, name, exact, cases, inPlural);
      }
    } else {
      var key := CaseKey(num, s);
      KeyIsNormal(num, s);
      if key.Ok? {
        var b := Branch(num, key.rest, true);
        BranchIsNormal(num, key.rest, true);
        if b.Ok? {
          match key.value {
            case Exact(n) => PluralIsNormal(num, b.rest, name, exact[n := Body(b.value)], cases, inPlural);
            case Keyword(k) => PluralIsNormal(num, b.rest, name, exact, cases[k := Body(b.value)], inPlural);
          }
        }
      }
    }
  }

  lemma {:induction false} KeyIsNormal(num: nat -> nat, s: string)
    requires Rounds(num)
    ensures match CaseKey(num, s)
            case Ok(Exact(n), _) => num(n) == n
            case Ok(Keyword(k), _) => k != "" && AllIdent(k)
            case Err(_, _) => true
  {
    hide IsSpace, Val, AllIdent;
    IdentPrefix(SkipSpace(s));
  }

  lemma {:induction false} SelectIsNormal(num: nat -> nat, s: string, name: string, cases: map<string, Body>, inPlural: bool)
    requires Rounds(num) && AllIdent(name) && CasesNormal(num, cases, false)
    ensures var r := SelectCases(num, s, name, cases); r.Ok? ==> !r.value.Literal? && Normal(num, [r.value], inPlural)
    decreases |s|, 1
  {
    hide Branch, Normal, AllIdent, IsSpace, Rounds;
    if s == "" {
    } else if s[0] == '}' {
      if "other" in cases {
        NormalSelect(num, name, cases, inPlural);
      }
    } else {
      var s1 := SkipSpace(s);
      var key := s1[..IdentLength(s1)];
      IdentPrefix(s1);
      if key != "" {
        var b := Branch(num, s1[IdentLength(s1)..], false);
        BranchIsNormal(num, s1[IdentLength(s1)..], false);
        if b.Ok? {
          SelectIsNormal(num, b.rest, name, cases[key := Body(b.value)], inPlural);
        }
      }
    }
  }

  lemma {:induction false} TopReadsAll(num: nat -> nat, s: string, inPlural: bool, buf: string)
    ensures var r := Message(num, s, inPlural, false, buf); r.Ok? ==> r.rest == ""
    decreases |s|
  {
    hide Placeholder, Quoted;
    if s == "" || s[0] == '}' {
    } else if s[0] == '\'' {
      TopReadsAll(num, Quoted(s).1, inPlural, buf + Quoted(s).0);
    } else if s[0] == '{' {
      var p := Placeholder(num, s[1..]);
      if p.Ok? {
        TopReadsAll(num, p.rest, inPlural, "");
      }
    } else if s[0] == '#' && inPlural {
      TopReadsAll(num, s[1..], inPlural, "");
    } else {
      TopReadsAll(num, s[1..], inPlural, buf + [s[0]]);
    }
  }

  /** Every text either is an error at an offset within it, or parses completely to a normal-form
      tree that printing and parsing again reproduces. */
  lemma {:induction false} ParseIsTotal(num: nat -> nat, src: string)
    requires Rounds(num)
    ensures match Parse(num, src)
            case Err(_, left) => left <= |src|
            case Ok(nodes, rest) => rest == "" && Normal(num, nodes, false) && Parse(num, Print(nodes, false)) == Ok(nodes, "")
  {
    hide Message, Print, Normal;
    TopReadsAll(num, src, false, "");
    MessageIsNormal(num, src, false, false, "");
    var r := Parse(num, src);
    if r.Ok? {
      ParseUndoesPrint(num, r.value);
    }
  }
}
