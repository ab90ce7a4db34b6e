/** Parsing undoes printing, and makes normal-form trees only. */
module MiniFormatProofs {
  import opened Digits
  import opened MiniFormat

  // ----- Reading tokens back -----

  predicate Clear(s: string) {
    s == "" || !IsSpace(s[0])
  }

  lemma {:induction false} SkipsNothing(s: string)
    requires Clear(s)
    ensures SkipSpace(s) == s
  {
  }

  lemma {:induction false} IdentReads(name: string, tail: string)
    requires AllIdent(name) && (tail == "" || !IsIdent(tail[0]))
    ensures IdentLength(name + tail) == |name| && (name + tail)[..|name|] == name && (name + tail)[|name|..] == tail
    ensures Clear(tail) ==> Clear(name + tail)
  {
    hide IsIdent, IsSpace;
    if name == "" {
      assert name + tail == tail;
    } else {
      assert (name + tail)[1..] == name[1..] + tail && (name + tail)[0] == name[0];
      assert forall i :: 0 <= i < |name[1..]| ==> name[1..][i] == name[i + 1];
      IdentReads(name[1..], tail);
      IdentIsClear(name[0]);
    }
  }

  lemma {:induction false} IdentIsClear(c: char)
    ensures IsIdent(c) ==> !IsSpace(c)
  {
  }

  lemma {:induction false} PunctuationIsClear()
    ensures forall c :: c in {'{', '}', ',', '=', '#'} ==> !IsSpace(c) && !IsIdent(c) && !IsDigit(c)
  {
  }

  lemma {:induction false} DigitsRead(digits: string, tail: string)
    requires AllDigits(digits) && (tail == "" || !IsDigit(tail[0]))
    ensures DigitsLength(digits + tail) == |digits| && (digits + tail)[..|digits|] == digits && (digits + tail)[|digits|..] == tail
  {
    hide IsDigit;
    if digits == "" {
      assert digits + tail == tail;
    } else {
      assert (digits + tail)[1..] == digits[1..] + tail && (digits + tail)[0] == digits[0];
      DigitsRead(digits[1..], tail);
    }
  }

  // ----- Reading literals back -----

  lemma {:induction false} CharReads(num: nat -> nat, c: char, u: string, inPlural: bool, nested: bool, buf: string)
    ensures Message(num, QuoteChar(c, inPlural) + u, inPlural, nested, buf) == Message(num, u, inPlural, nested, buf + [c])
  {
    hide Placeholder;
    var s := QuoteChar(c, inPlural) + u;
    if c == '\'' {
      assert s[1..] == "'" + u && s[2..] == u;
    } else if c == '{' || c == '}' || (c == '#' && inPlural) {
      assert s == "'" + ([c] + ("'" + u));
      assert s[1..] == [c] + ("'" + u);
      assert s[1..][1..] == "'" + u;
      assert RunLength(s[1..]) == 1;
      assert s[3..] == u && s[1..][..1] == [c];
    } else {
      assert s[1..] == u;
    }
  }

  lemma {:induction false} TextReads(num: nat -> nat, t: string, tail: string, inPlural: bool, nested: bool, buf: string)
    ensures Message(num, QuoteText(t, inPlural) + tail, inPlural, nested, buf) == Message(num, tail, inPlural, nested, buf + t)
    decreases |t|
  {
    hide Message, QuoteChar;
    if t == "" {
      assert "" + tail == tail && buf + "" == buf;
    } else {
      var u := QuoteText(t[1..], inPlural) + tail;
      assert QuoteText(t, inPlural) + tail == QuoteChar(t[0], inPlural) + u;
      CharReads(num, t[0], u, inPlural, nested, buf);
      TextReads(num, t[1..], tail, inPlural, nested, buf + [t[0]]);
      assert buf + [t[0]] + t[1..] == buf + t;
    }
  }

  /** Where a literal ends. */
  predicate EndsLiteral(s: string, inPlural: bool, nested: bool) {
    s == "" || s[0] == '{' || (s[0] == '}' && nested) || (s[0] == '#' && inPlural)
  }

  lemma {:induction false} FlushFirst(num: nat -> nat, s: string, inPlural: bool, nested: bool, buf: string)
    requires EndsLiteral(s, inPlural, nested)
    ensures Message(num, s, inPlural, nested, buf) == Then(Flush(buf), Message(num, s, inPlural, nested, ""))
  {
    hide Placeholder;
    assert Flush(buf) + [] == Flush(buf);
    if s != "" && s[0] == '{' {
      var p := Placeholder(num, s[1..]);
      if p.Ok? {
        var r := Message(num, p.rest, inPlural, nested, "");
        ThenThen(Flush(buf), Flush("") + [p.value], r);
        assert Flush(buf) + (Flush("") + [p.value]) == Flush(buf) + [p.value];
      }
    } else if s != "" && s[0] == '#' {
      var r := Message(num, s[1..], inPlural, nested, "");
      ThenThen(Flush(buf), Flush("") + [Pound], r);
      assert Flush(buf) + (Flush("") + [Pound]) == Flush(buf) + [Pound];
    }
  }

  lemma {:induction false} ThenThen(a: seq<Node>, b: seq<Node>, r: Result<seq<Node>>)
    ensures Then(a, Then(b, r)) == Then(a + b, r)
  {
    if r.Ok? {
      assert a + (b + r.value) == a + b + r.value;
    }
  }

  // ----- Case records -----

  /** The cases of a record, entered one after another. */
  function Entered<K>(all: map<K, Body>, acc: map<K, Body>, keys: seq<K>): map<K, Body>
    requires forall k :: k in keys ==> k in all
    decreases |keys|
  {
    if keys == [] then acc else Entered(all, acc[keys[0] := (assert keys[0] in keys; all[keys[0]])], keys[1..])
  }

  lemma {:induction false} EnteredAll<K>(all: map<K, Body>, acc: map<K, Body>, keys: seq<K>)
    requires forall k :: k in keys ==> k in all
    requires forall k :: k in acc ==> k in all && acc[k] == all[k]
    requires forall k :: k in all ==> k in acc || k in keys
    ensures Entered(all, acc, keys) == all
    decreases |keys|
  {
    if keys == [] {
      assert acc.Keys == all.Keys;
      assert acc == all;
    } else {
      assert keys[0] in keys;
      assert forall k :: k in keys ==> k == keys[0] || k in keys[1..];
      EnteredAll(all, acc[keys[0] := all[keys[0]]], keys[1..]);
    }
  }

  // ----- Reading nodes back -----

  /** A branch followed by something other than a space. */
  lemma {:induction false} BranchReads(num: nat -> nat, nodes: seq<Node>, inPlural: bool, tail: string)
    requires Normal(num, nodes, inPlural) && Clear(tail)
    ensures Branch(num, "{" + (Print(nodes, inPlural) + ("}" + tail)), inPlural) == Ok(nodes, tail)
    decreases nodes, 2, 0
  {
    hide Message, Print, Normal;
    PunctuationIsClear();
    var s := "{" + (Print(nodes, inPlural) + ("}" + tail));
    SkipsNothing(s);
    assert s[1..] == Print(nodes, inPlural) + ("}" + tail);
    MessageReads(num, nodes, inPlural, true, "}" + tail);
    assert ("}" + tail)[1..] == tail;
    SkipsNothing(tail);
  }

  predicate Ends(rest: string, nested: bool) {
    if nested then Starts(rest, '}') else rest == ""
  }

  lemma {:induction false} PrintEndsLiteral(num: nat -> nat, nodes: seq<Node>, inPlural: bool, nested: bool, rest: string)
    requires Normal(num, nodes, inPlural) && Ends(rest, nested) && (nodes == [] || !nodes[0].Literal?)
    ensures EndsLiteral(Print(nodes, inPlural) + rest, inPlural, nested)
  {
    hide PrintNode;
    if nodes == [] {
      assert "" + rest == rest;
    } else {
      PrintNodeStarts(nodes[0], inPlural);
      StartsFirst(PrintNode(nodes[0], inPlural), Print(nodes[1..], inPlural), rest);
    }
  }

  lemma {:induction false} StartsFirst(a: string, b: string, c: string)
    requires a != ""
    ensures (a + b) + c != "" && ((a + b) + c)[0] == a[0]
  {
  }

  lemma {:induction false} PrintNodeStarts(node: Node, inPlural: bool)
    requires !node.Literal?
    ensures PrintNode(node, inPlural) != "" && PrintNode(node, inPlural)[0] == if node.Pound? then '#' else '{'
  {
    hide PrintExact, PrintCases;
  }

  lemma {:induction false} MessageReads(num: nat -> nat, nodes: seq<Node>, inPlural: bool, nested: bool, rest: string)
    requires Normal(num, nodes, inPlural) && Ends(rest, nested)
    ensures Message(num, Print(nodes, inPlural) + rest, inPlural, nested, "") == Ok(nodes, rest)
    decreases nodes, 1, 0
  {
    hide Placeholder, PrintNode, QuoteText;
    if nodes == [] {
      assert "" + rest == rest;
    } else {
      var tail := Print(nodes[1..], inPlural) + rest;
      assert Print(nodes, inPlural) + rest == PrintNode(nodes[0], inPlural) + tail;
      MessageReads(num, nodes[1..], inPlural, nested, rest);
      FirstReads(num, nodes, inPlural, nested, rest, tail);
      assert nodes == [nodes[0]] + nodes[1..];
    }
  }

  lemma {:induction false} FirstReads(num: nat -> nat, nodes: seq<Node>, inPlural: bool, nested: bool, rest: string, tail: string)
    requires Normal(num, nodes, inPlural) && Ends(rest, nested) && nodes != [] && tail == Print(nodes[1..], inPlural) + rest
    ensures Message(num, PrintNode(nodes[0], inPlural) + tail, inPlural, nested, "") ==
            Then([nodes[0]], Message(num, tail, inPlural, nested, ""))
    decreases nodes, 0, 0
  {
    hide Message, Placeholder, Print, PrintExact, PrintCases, QuoteText;
    var node := nodes[0];
    match node {
      case Literal(value) =>
        TextReads(num, value, tail, inPlural, nested, "");
        assert "" + value == value;
        PrintEndsLiteral(num, nodes[1..], inPlural, nested, rest);
        FlushFirst(num, tail, inPlural, nested, value);
      case Pound =>
        PoundReads(num, tail, nested);
      case _ =>
        NodeReads(num, node, inPlural, tail);
        BraceReads(num, node, PrintNode(node, inPlural) + tail, tail, inPlural, nested);
    }
  }

  lemma {:induction false} PoundReads(num: nat -> nat, tail: string, nested: bool)
    ensures Message(num, "#" + tail, true, nested, "") == Then([Pound], Message(num, tail, true, nested, ""))
  {
    assert ("#" + tail)[1..] == tail;
    assert [] + [Pound] == [Pound];
  }

  lemma {:induction false} BraceReads(num: nat -> nat, node: Node, s: string, tail: string, inPlural: bool, nested: bool)
    requires Starts(s, '{') && Placeholder(num, s[1..]) == Ok(node, tail)
    ensures Message(num, s, inPlural, nested, "") == Then([node], Message(num, tail, inPlural, nested, ""))
  {
    hide Placeholder;
    assert [] + [node] == [node];
  }

  lemma {:induction false} NodeReads(num: nat -> nat, node: Node, inPlural: bool, tail: string)
    requires Normal(num, [node], inPlural) && !node.Literal? && !node.Pound?
    ensures var s := PrintNode(node, inPlural) + tail; Starts(s, '{') && Placeholder(num, s[1..]) == Ok(node, tail)
    decreases node, 1, 0
  {
    hide Placeholder, PrintNode, Normal, NormalCases, NormalExact;
    NormalParts(num, node, inPlural);
    PrintNodeStarts(node, inPlural);
    match node {
      case Var(name) => VarNodeReads(num, name, inPlural, tail);
      case Plural(_, _, _) => PluralNodeReads(num, node, inPlural, tail);
      case Select(_, _) => SelectNodeReads(num, node, inPlural, tail);
    }
  }

  lemma {:induction false} VarNodeReads(num: nat -> nat, name: string, inPlural: bool, tail: string)
    requires AllIdent(name)
    ensures var s := PrintNode(Var(name), inPlural) + tail; Starts(s, '{') && Placeholder(num, s[1..]) == Ok(Var(name), tail)
  {
    hide Placeholder;
    assert (PrintNode(Var(name), inPlural) + tail)[1..] == name + ("}" + tail);
    VarReads(num, name, tail);
  }

  lemma {:induction false} PluralNodeReads(num: nat -> nat, node: Node, inPlural: bool, tail: string)
    requires node.Plural? && NormalCases(num, node, true) && NormalExact(num, node)
    ensures var s := PrintNode(node, inPlural) + tail; Starts(s, '{') && Placeholder(num, s[1..]) == Ok(node, tail)
    decreases node, 0, |Enumeration(node.exact.Keys)| + |Enumeration(node.cases.Keys)| + 2
  {
    hide Placeholder, PluralCases, SelectCases, PrintExact, PrintCases, NormalCases, NormalExact, Enumerates, AllIdent;
    var body := PluralBody(node);
    RegroupNode(node.name, ",plural,", body, tail);
    NamedIdent(num, node, true);
    PluralReads(num, node, tail);
    HeadReads(num, node.name, "plural", body + tail);
    assert ",plural," + (body + tail) == "," + ("plural" + ("," + (body + tail)));
  }

  ghost function PluralBody(node: Node): string
    requires node.Plural?
  {
    PrintExact(node, Enumeration(node.exact.Keys)) + (PrintCases(node, Enumeration(node.cases.Keys), true) + "}")
  }

  lemma {:induction false} SelectNodeReads(num: nat -> nat, node: Node, inPlural: bool, tail: string)
    requires node.Select? && NormalCases(num, node, false)
    ensures var s := PrintNode(node, inPlural) + tail; Starts(s, '{') && Placeholder(num, s[1..]) == Ok(node, tail)
    decreases node, 0, |Enumeration(node.cases.Keys)| + 2
  {
    hide Placeholder, PluralCases, SelectCases, PrintCases, NormalCases, Enumerates, AllIdent;
    var body := SelectBody(node);
    RegroupNode(node.name, ",select,", body, tail);
    NamedIdent(num, node, false);
    SelectReads(num, node, tail);
    HeadReads(num, node.name, "select", body + tail);
    assert ",select," + (body + tail) == "," + ("select" + ("," + (body + tail)));
  }

  ghost function SelectBody(node: Node): string
    requires node.Select?
  {
    PrintCases(node, Enumeration(node.cases.Keys), false) + "}"
  }

  lemma {:induction false} NamedIdent(num: nat -> nat, node: Node, inPlural: bool)
    requires (node.Plural? || node.Select?) && NormalCases(num, node, inPlural)
    ensures AllIdent(node.name)
  {
  }

  lemma {:induction false} RegroupNode(name: string, kind: string, body: string, tail: string)
    ensures ("{" + (name + (kind + body)) + tail)[1..] == name + (kind + (body + tail))
  {
    assert "{" + (name + (kind + body)) + tail == "{" + (name + (kind + (body + tail)));
  }

  lemma {:induction false} SpacedReads(name: string, tail: string)
    requires AllIdent(name) && tail != "" && tail[0] in {',', '}'}
    ensures SpacedIdent(name + tail) == (name, tail)
  {
    hide IsSpace, IsIdent;
    PunctuationIsClear();
    IdentReads(name, tail);
    SkipsNothing(name + tail);
    SkipsNothing(tail);
  }

  lemma {:induction false} VarReads(num: nat -> nat, name: string, tail: string)
    requires AllIdent(name)
    ensures Placeholder(num, name + ("}" + tail)) == Ok(Var(name), tail)
  {
    hide PluralCases, SelectCases, SpacedIdent, ArgType;
    SpacedReads(name, "}" + tail);
    assert ("}" + tail)[1..] == tail;
  }

  lemma {:induction false} HeadReads(num: nat -> nat, name: string, kind: string, rest: string)
    requires AllIdent(name) && (kind == "plural" || kind == "select") && Clear(rest)
    ensures Placeholder(num, name + ("," + (kind + ("," + rest)))) ==
            if kind == "plural" then PluralCases(num, rest, name, map[], map[]) else SelectCases(num, rest, name, map[])
  {
    hide PluralCases, SelectCases, SpacedIdent, ArgType, AllIdent, Clear;
    KindIsIdent(kind);
    var t := kind + ("," + rest);
    SpacedReads(name, "," + t);
    assert ("," + t)[1..] == t;
    TypeReads(kind, rest);
  }

  lemma {:induction false} TypeReads(kind: string, rest: string)
    requires AllIdent(kind) && Clear(rest)
    ensures ArgType(kind + ("," + rest)) == Ok(kind, rest)
  {
    hide SpacedIdent, IsSpace, IsIdent;
    SpacedReads(kind, "," + rest);
    assert ("," + rest)[1..] == rest;
    SkipsNothing(rest);
  }

  lemma {:induction false} KindIsIdent(kind: string)
    requires kind == "plural" || kind == "select"
    ensures AllIdent(kind)
  {
  }

  lemma {:induction false} ItoaReads(n: nat, v: string)
    requires Starts(v, '{')
    ensures var s := Itoa(n) + v;
            DigitsLength(s) == |Itoa(n)| && |Itoa(n)| > 0 && s[|Itoa(n)|..] == v && s[..|Itoa(n)|] == Itoa(n) && Val(Itoa(n)) == n
  {
    hide Itoa, Val, IsDigit;
    PunctuationIsClear();
    ItoaNames(n);
    DigitsRead(Itoa(n), v);
  }

  lemma {:induction false} ExactKeyReads(num: nat -> nat, n: nat, v: string)
    requires num(n) == n && Starts(v, '{')
    ensures CaseKey(num, "=" + (Itoa(n) + v)) == Ok(Exact(n), v)
  {
    hide Itoa, Val, IsSpace, IsIdent;
    PunctuationIsClear();
    var s := "=" + (Itoa(n) + v);
    SkipsNothing(s);
    assert IdentLength(s) == 0 && s[0..] == s && s[..0] == "";
    assert s[1..] == Itoa(n) + v;
    ItoaReads(n, v);
  }

  lemma {:induction false} KeywordReads(num: nat -> nat, key: string, v: string)
    requires key != "" && AllIdent(key) && Starts(v, '{')
    ensures CaseKey(num, key + v) == Ok(Keyword(key), v) && (key + v)[0] != '}'
  {
    hide Val, IsSpace, IsIdent;
    PunctuationIsClear();
    IdentReads(key, v);
    SkipsNothing(key + v);
    assert (key + v)[0] == key[0];
    IdentIsClear(key[0]);
  }

  lemma {:induction false} ExactStep(num: nat -> nat, n: nat, v: string, nodes: seq<Node>, u: string, name: string,
                                     exact: map<nat, Body>, cases: map<string, Body>)
    requires num(n) == n && Starts(v, '{') && Branch(num, v, true) == Ok(nodes, u)
    ensures PluralCases(num, "=" + (Itoa(n) + v), name, exact, cases) == PluralCases(num, u, name, exact[n := Body(nodes)], cases)
  {
    hide Branch, Itoa, CaseKey;
    ExactKeyReads(num, n, v);
  }

  lemma {:induction false} CaseStep(num: nat -> nat, key: string, v: string, nodes: seq<Node>, u: string, name: string,
                                    exact: map<nat, Body>, cases: map<string, Body>)
    requires key != "" && AllIdent(key) && Starts(v, '{') && Branch(num, v, true) == Ok(nodes, u)
    ensures PluralCases(num, key + v, name, exact, cases) == PluralCases(num, u, name, exact, cases[key := Body(nodes)])
  {
    hide Branch, CaseKey;
    KeywordReads(num, key, v);
  }

  lemma {:induction false} SelectStep(num: nat -> nat, key: string, v: string, nodes: seq<Node>, u: string, name: string,
                                      cases: map<string, Body>)
    requires key != "" && AllIdent(key) && Starts(v, '{') && Branch(num, v, false) == Ok(nodes, u)
    ensures SelectCases(num, key + v, name, cases) == SelectCases(num, u, name, cases[key := Body(nodes)])
  {
    hide Branch, IsSpace, IsIdent;
    PunctuationIsClear();
    IdentReads(key, v);
    SkipsNothing(key + v);
    assert (key + v)[0] == key[0];
    IdentIsClear(key[0]);
  }

  /** What normality says of the cases of a node. */
  predicate NormalCases(num: nat -> nat, node: Node, inPlural: bool)
    requires node.Plural? || node.Select?
  {
    AllIdent(node.name) && "other" in node.cases &&
    forall k :: k in node.cases ==> k != "" && AllIdent(k) && Normal(num, node.cases[k].nodes, inPlural)
  }

  predicate NormalExact(num: nat -> nat, node: Node)
    requires node.Plural?
  {
    forall n :: n in node.exact ==> num(n) == n && Normal(num, node.exact[n].nodes, true)
  }

  lemma {:induction false} NormalParts(num: nat -> nat, node: Node, inPlural: bool)
    requires Normal(num, [node], inPlural)
    ensures node.Plural? ==> NormalCases(num, node, true) && NormalExact(num, node)
    ensures node.Select? ==> NormalCases(num, node, false)
    ensures node.Var? ==> AllIdent(node.name)
  {
  }

  lemma {:induction false} ExactIsClear(node: Node, keys: seq<nat>, rest: string)
    requires node.Plural? && (forall k :: k in keys ==> k in node.exact) && Clear(rest)
    ensures Clear(PrintExact(node, keys) + rest)
  {
    hide Print, Itoa, IsSpace;
    PunctuationIsClear();
    if keys == [] {
      assert "" + rest == rest;
    } else {
      assert (PrintExact(node, keys) + rest)[0] == '=';
    }
  }

  lemma {:induction false} CasesAreClear(node: Node, keys: seq<string>, inPlural: bool, rest: string)
    requires (node.Plural? || node.Select?) && (forall k :: k in keys ==> k in node.cases && k != "" && AllIdent(k)) && Clear(rest)
    ensures Clear(PrintCases(node, keys, inPlural) + rest)
  {
    hide Print, IsSpace, IsIdent;
    if keys == [] {
      assert "" + rest == rest;
    } else {
      assert keys[0] in keys;
      assert (PrintCases(node, keys, inPlural) + rest)[0] == keys[0][0];
      IdentIsClear(keys[0][0]);
    }
  }

  /** Reading the exact cases of a plural enters them one after another. */
  lemma {:induction false} ExactReads(num: nat -> nat, node: Node, keys: seq<nat>, rest: string, exact: map<nat, Body>,
                                      cases: map<string, Body>)
    requires node.Plural? && NormalExact(num, node) && (forall k :: k in keys ==> k in node.exact) && Clear(rest)
    ensures PluralCases(num, PrintExact(node, keys) + rest, node.name, exact, cases) ==
            PluralCases(num, rest, node.name, Entered(node.exact, exact, keys), cases)
    decreases node, 0, |keys|
  {
    hide PluralCases, Print, Itoa, Normal, Branch, IsSpace;
    if keys == [] {
      assert "" + rest == rest;
    } else {
      var n := keys[0];
      assert n in keys;
      var u := PrintExact(node, keys[1..]) + rest;
      var body := Print(node.exact[n].nodes, true);
      var v := "{" + (body + ("}" + u));
      ExactIsClear(node, keys[1..], rest);
      BranchReads(num, node.exact[n].nodes, true, u);
      RegroupExact(Itoa(n), body, PrintExact(node, keys[1..]), rest);
      ExactStep(num, n, v, node.exact[n].nodes, u, node.name, exact, cases);
      ExactReads(num, node, keys[1..], rest, exact[n := node.exact[n]], cases);
    }
  }

  lemma {:induction false} RegroupExact(key: string, body: string, more: string, rest: string)
    ensures ("=" + (key + ("{" + (body + ("}" + more))))) + rest == "=" + (key + ("{" + (body + ("}" + (more + rest)))))
  {
    RegroupCase(key, body, more, rest);
    assert ("=" + (key + ("{" + (body + ("}" + more))))) + rest == "=" + ((key + ("{" + (body + ("}" + more)))) + rest);
  }

  lemma {:induction false} RegroupCase(key: string, body: string, more: string, rest: string)
    ensures (key + ("{" + (body + ("}" + more)))) + rest == key + ("{" + (body + ("}" + (more + rest))))
  {
    assert ("}" + more) + rest == "}" + (more + rest);
    assert (body + ("}" + more)) + rest == body + (("}" + more) + rest);
    assert ("{" + (body + ("}" + more))) + rest == "{" + ((body + ("}" + more)) + rest);
  }

  lemma {:induction false} PluralCasesRead(num: nat -> nat, node: Node, keys: seq<string>, rest: string, exact: map<nat, Body>,
                                           cases: map<string, Body>)
    requires node.Plural? && NormalCases(num, node, true) && (forall k :: k in keys ==> k in node.cases) && Clear(rest)
    ensures PluralCases(num, PrintCases(node, keys, true) + rest, node.name, exact, cases) ==
            PluralCases(num, rest, node.name, exact, Entered(node.cases, cases, keys))
    decreases node, 0, |keys|
  {
    hide PluralCases, Print, Normal, Branch, IsSpace, IsIdent, AllIdent;
    if keys == [] {
      assert "" + rest == rest;
    } else {
      var k := keys[0];
      assert k in keys;
      var u := PrintCases(node, keys[1..], true) + rest;
      var body := Print(node.cases[k].nodes, true);
      var v := "{" + (body + ("}" + u));
      CasesAreClear(node, keys[1..], true, rest);
      BranchReads(num, node.cases[k].nodes, true, u);
      RegroupCase(k, body, PrintCases(node, keys[1..], true), rest);
      CaseStep(num, k, v, node.cases[k].nodes, u, node.name, exact, cases);
      PluralCasesRead(num, node, keys[1..], rest, exact, cases[k := node.cases[k]]);
    }
  }

  lemma {:induction false} SelectCasesRead(num: nat -> nat, node: Node, keys: seq<string>, rest: string, cases: map<string, Body>)
    requires node.Select? && NormalCases(num, node, false) && (forall k :: k in keys ==> k in node.cases) && Clear(rest)
    ensures SelectCases(num, PrintCases(node, keys, false) + rest, node.name, cases) ==
            SelectCases(num, rest, node.name, Entered(node.cases, cases, keys))
    decreases node, 0, |keys|
  {
    hide SelectCases, Print, Normal, Branch, IsSpace, IsIdent, AllIdent;
    if keys == [] {
      assert "" + rest == rest;
    } else {
      var k := keys[0];
      assert k in keys;
      var u := PrintCases(node, keys[1..], false) + rest;
      var body := Print(node.cases[k].nodes, false);
      var v := "{" + (body + ("}" + u));
      CasesAreClear(node, keys[1..], false, rest);
      BranchReads(num, node.cases[k].nodes, false, u);
      RegroupCase(k, body, PrintCases(node, keys[1..], false), rest);
      SelectStep(num, k, v, node.cases[k].nodes, u, node.name, cases);
      SelectCasesRead(num, node, keys[1..], rest, cases[k := node.cases[k]]);
    }
  }

  lemma {:induction false} PluralReads(num: nat -> nat, node: Node, tail: string)
    requires node.Plural? && NormalCases(num, node, true) && NormalExact(num, node)
    ensures var body := PrintExact(node, Enumeration(node.exact.Keys)) + (PrintCases(node, Enumeration(node.cases.Keys), true) + "}");
            Clear(body + tail) && PluralCases(num, body + tail, node.name, map[], map[]) == Ok(node, tail)
    decreases node, 0, |Enumeration(node.exact.Keys)| + |Enumeration(node.cases.Keys)| + 1
  {
    hide PrintExact, PrintCases, PluralCases, Normal, IsSpace, IsIdent, AllIdent, Enumerates;
    var ke, kc := Enumeration(node.exact.Keys), Enumeration(node.cases.Keys);
    Covers(ke, node.exact.Keys);
    Covers(kc, node.cases.Keys);
    var e, c := PrintExact(node, ke), PrintCases(node, kc, true);
    assert (e + (c + "}")) + tail == e + (c + ("}" + tail));
    PunctuationIsClear();
    CasesAreClear(node, kc, true, "}" + tail);
    ExactIsClear(node, ke, c + ("}" + tail));
    ExactReads(num, node, ke, c + ("}" + tail), map[], map[]);
    EnteredAll(node.exact, map[], ke);
    PluralCasesRead(num, node, kc, "}" + tail, node.exact, map[]);
    EnteredAll(node.cases, map[], kc);
    PluralEnds(num, node.name, node.exact, node.cases, tail);
  }

  lemma {:induction false} Covers<T(!new)>(keys: seq<T>, all: set<T>)
    requires Enumerates(keys, all)
    ensures forall k :: k in keys <==> k in all
  {
  }

  lemma {:induction false} PluralEnds(num: nat -> nat, name: string, exact: map<nat, Body>, cases: map<string, Body>, tail: string)
    requires "other" in cases
    ensures PluralCases(num, "}" + tail, name, exact, cases) == Ok(Plural(name, exact, cases), tail)
  {
    assert ("}" + tail)[1..] == tail;
  }

  lemma {:induction false} SelectEnds(num: nat -> nat, name: string, cases: map<string, Body>, tail: string)
    requires "other" in cases
    ensures SelectCases(num, "}" + tail, name, cases) == Ok(Select(name, cases), tail)
  {
    assert ("}" + tail)[1..] == tail;
  }

  lemma {:induction false} SelectReads(num: nat -> nat, node: Node, tail: string)
    requires node.Select? && NormalCases(num, node, false)
    ensures var body := PrintCases(node, Enumeration(node.cases.Keys), false) + "}";
            Clear(body + tail) && SelectCases(num, body + tail, node.name, map[]) == Ok(node, tail)
    decreases node, 0, |Enumeration(node.cases.Keys)| + 1
  {
    hide PrintCases, SelectCases, Normal, IsSpace, IsIdent, AllIdent, Enumerates;
    var kc := Enumeration(node.cases.Keys);
    Covers(kc, node.cases.Keys);
    var c := PrintCases(node, kc, false);
    assert (c + "}") + tail == c + ("}" + tail);
    PunctuationIsClear();
    CasesAreClear(node, kc, false, "}" + tail);
    SelectCasesRead(num, node, kc, "}" + tail, map[]);
    EnteredAll(node.cases, map[], kc);
    SelectEnds(num, node.name, node.cases, tail);
  }

  /** Parsing undoes printing: the text of a normal-form tree, quoted by the documented rules,
      parses back to that tree. */
  lemma {:induction false} ParseUndoesPrint(num: nat -> nat, nodes: seq<Node>)
    requires Normal(num, nodes, false)
    ensures Parse(num, Print(nodes, false)) == Ok(nodes, "")
  {
    hide Message, Print, Normal;
    MessageReads(num, nodes, false, false, "");
    assert Print(nodes, false) + "" == Print(nodes, false);
  }
}
