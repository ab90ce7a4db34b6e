/** The recursive-descent parser of packages/format/src/parse.ts, on the text still to be read. */
module MiniFormat {
  import opened Digits

  datatype Node =
    | Literal(value: string)
    | Var(name: string)
    | Plural(name: string, exact: map<nat, Body>, cases: map<string, Body>)
    | Select(name: string, cases: map<string, Body>)
    | Pound

  /** The message of one case. */
  datatype Body = Body(nodes: seq<Node>)

  /** A ParseError; left is how much text was still to be read at its offset. */
  datatype Problem = UnmatchedBrace | Expected(c: char) | UnsupportedType(name: string) | NoDigits | NoKeyword | NoOther(name: string)

  datatype Result<T> = Ok(value: T, rest: string) | Err(problem: Problem, left: nat)

  // ----- Characters -----

  /** What JavaScript's \s matches. */
  predicate IsSpace(c: char) {
    '\U{09}' <= c <= '\U{0D}' || c in " \U{A0}\U{1680}\U{2028}\U{2029}\U{202F}\U{205F}\U{3000}\U{FEFF}" || '\U{2000}' <= c <= '\U{200A}'
  }

  predicate IsIdent(c: char) {
    'a' <= c <= 'z' || 'A' <= c <= 'Z' || IsDigit(c) || c == '_' || c == '-' || c == '.'
  }

  function SkipSpace(s: string): (r: string)
    ensures |r| <= |s|
  {
    if s != "" && IsSpace(s[0]) then SkipSpace(s[1..]) else s
  }

  /** readIdent: how many identifier characters come first. */
  function IdentLength(s: string): (n: nat)
    ensures n <= |s|
  {
    if s != "" && IsIdent(s[0]) then 1 + IdentLength(s[1..]) else 0
  }

  function DigitsLength(s: string): (n: nat)
    ensures n <= |s|
  {
    if s != "" && IsDigit(s[0]) then 1 + DigitsLength(s[1..]) else 0
  }

  /** The length of a quoted run: up to the next apostrophe or the end. */
  function RunLength(s: string): (n: nat)
    ensures n <= |s| && (n < |s| ==> s[n] == '\'')
  {
    if s == "" || s[0] == '\'' then 0 else 1 + RunLength(s[1..])
  }

  /** What an apostrophe quotes, and what follows: a doubled one is itself, any other starts a run
      up to the next one or the end. */
  function Quoted(s: string): (r: (string, string))
    requires s != ""
    ensures |r.1| < |s|
  {
    if Starts(s[1..], '\'') then ("'", s[2..])
    else
      var n := RunLength(s[1..]);
      (s[1..][..n], if n < |s| - 1 then s[n + 2..] else "")
  }

  predicate Starts(s: string, c: char) {
    s != "" && s[0] == c
  }

  function Flush(buf: string): seq<Node> {
    if buf == "" then [] else [Literal(buf)]
  }

  // ----- The parser -----

  /** parseMessage from here on, with the literal text read so far. num is how JavaScript reads
      the digits of an exact key: parseInt, which rounds beyond 2^53. */
  function Message(num: nat -> nat, s: string, inPlural: bool, nested: bool, buf: string): (r: Result<seq<Node>>)
    ensures r.Ok? ==> |r.rest| <= |s|
    ensures r.Err? ==> r.left <= |s|
    decreases |s|, 0
  {
    if s == "" || (nested && s[0] == '}') then Ok(Flush(buf), s)
    else if s[0] == '}' then Err(UnmatchedBrace, |s|)
    else if s[0] == '\'' then Message(num, Quoted(s).1, inPlural, nested, buf + Quoted(s).0)
    else if s[0] == '{' then
      var p := Placeholder(num, s[1..]);
      if p.Err? then Err(p.problem, p.left) else Then(Flush(buf) + [p.value], Message(num, p.rest, inPlural, nested, ""))
    else if s[0] == '#' && inPlural then Then(Flush(buf) + [Pound], Message(num, s[1..], inPlural, nested, ""))
    else Message(num, s[1..], inPlural, nested, buf + [s[0]])
  }

  function Then(first: seq<Node>, r: Result<seq<Node>>): Result<seq<Node>> {
    if r.Ok? then Ok(first + r.value, r.rest) else r
  }

  /** An identifier with spaces around it, and what follows. */
  function SpacedIdent(s: string): (r: (string, string))
    ensures |r.1| <= |s|
  {
    var s1 := SkipSpace(s);
    (s1[..IdentLength(s1)], SkipSpace(s1[IdentLength(s1)..]))
  }

  /** The type of a placeholder and the comma after it. */
  function ArgType(s: string): (r: Result<string>)
    ensures r.Ok? ==> |r.rest| <= |s|
    ensures r.Err? ==> r.left <= |s|
  {
    var (kind, t) := SpacedIdent(s);
    if Starts(t, ',') then Ok(kind, SkipSpace(t[1..])) else Err(Expected(','), |t|)
  }

  /** parsePlaceholder, after its brace. */
  function Placeholder(num: nat -> nat, s: string): (r: Result<Node>)
    ensures r.Ok? ==> |r.rest| <= |s|
    ensures r.Err? ==> r.left <= |s|
    decreases |s|, 2
  {
    var (name, s1) := SpacedIdent(s);
    if Starts(s1, '}') then Ok(Var(name), s1[1..])
    else if !Starts(s1, ',') then Err(Expected(','), |s1|)
    else
      var t := ArgType(s1[1..]);
      if t.Err? then Err(t.problem, t.left)
      else if t.value == "plural" then PluralCases(num, t.rest, name, map[], map[])
      else if t.value == "select" then SelectCases(num, t.rest, name, map[])
      else Err(UnsupportedType(t.value), |t.rest|)
  }

  /** The branch of a case: spaces, a message in braces, spaces. */
  function Branch(num: nat -> nat, s: string, inPlural: bool): (r: Result<seq<Node>>)
    ensures r.Ok? ==> |r.rest| < |s|
    ensures r.Err? ==> r.left <= |s|
    decreases |s|, 0
  {
    var s1 := SkipSpace(s);
    if !Starts(s1, '{') then Err(Expected('{'), |s1|)
    else
      var m := Message(num, s1[1..], inPlural, true, "");
      if m.Err? then m
      else if !Starts(m.rest, '}') then Err(Expected('}'), |m.rest|)
      else Ok(m.value, SkipSpace(m.rest[1..]))
  }

  datatype Key = Exact(n: nat) | Keyword(name: string)

  /** The key of a plural case: a keyword, or an equals sign and digits. */
  function CaseKey(num: nat -> nat, s: string): (r: Result<Key>)
    ensures r.Ok? ==> |r.rest| <= |s|
    ensures r.Err? ==> r.left <= |s|
  {
    var s1 := SkipSpace(s);
    var key := s1[..IdentLength(s1)];
    var s2 := s1[IdentLength(s1)..];
    if key != "" then Ok(Keyword(key), s2)
    else if !Starts(s2, '=') then Err(NoKeyword, |s2|)
    else
      var n := DigitsLength(s2[1..]);
      if n == 0 then Err(NoDigits, |s2| - 1) else Ok(Exact(num(Val(s2[1..][..n]))), s2[1..][n..])
  }

  function PluralCases(num: nat -> nat, s: string, name: string, exact: map<nat, Body>, cases: map<string, Body>)
    : (r: Result<Node>)
    ensures r.Ok? ==> |r.rest| <= |s|
    ensures r.Err? ==> r.left <= |s|
    decreases |s|, 1
  {
    if s == "" then Err(Expected('}'), 0)
    else if s[0] == '}' then if "other" in cases then Ok(Plural(name, exact, cases), s[1..]) else Err(NoOther(name), |s| - 1)
    else
      var key := CaseKey(num, s);
      if key.Err? then Err(key.problem, key.left)
      else
        var b := Branch(num, key.rest, true);
        if b.Err? then Err(b.problem, b.left)
        else
          match key.value
          case Exact(n) => PluralCases(num, b.rest, name, exact[n := Body(b.value)], cases)
          case Keyword(k) => PluralCases(num, b.rest, name, exact, cases[k := Body(b.value)])
  }

  function SelectCases(num: nat -> nat, s: string, name: string, cases: map<string, Body>): (r: Result<Node>)
    ensures r.Ok? ==> |r.rest| <= |s|
    ensures r.Err? ==> r.left <= |s|
    decreases |s|, 1
  {
    if s == "" then Err(Expected('}'), 0)
    else if s[0] == '}' then if "other" in cases then Ok(Select(name, cases), s[1..]) else Err(NoOther(name), |s| - 1)
    else
      var s1 := SkipSpace(s);
      var key := s1[..IdentLength(s1)];
      if key == "" then Err(NoKeyword, |s1|)
      else
        var b := Branch(num, s1[IdentLength(s1)..], false);
        if b.Err? then Err(b.problem, b.left) else SelectCases(num, b.rest, name, cases[key := Body(b.value)])
  }

  /** parse: the whole text, or an error at an offset. */
  function Parse(num: nat -> nat, src: string): Result<seq<Node>> {
    Message(num, src, false, false, "")
  }

  // ----- Normal-form trees -----

  predicate AllIdent(s: string) {
    forall i :: 0 <= i < |s| ==> IsIdent(s[i])
  }

  /** Trees as the parser makes them: no empty or adjacent literals, # only directly in a plural
      branch, identifiers for names and case keys, and an other case everywhere. */
  predicate Normal(num: nat -> nat, nodes: seq<Node>, inPlural: bool)
    decreases nodes
  {
    nodes == [] ||
    (Normal(num, nodes[1..], inPlural) && (nodes[0].Literal? && |nodes| > 1 ==> !nodes[1].Literal?) &&
     match nodes[0]
     case Literal(value) => value != ""
     case Var(name) => AllIdent(name)
     case Pound => inPlural
     case Plural(name, exact, cases) =>
       AllIdent(name) && "other" in cases && (forall n :: n in exact ==> num(n) == n && Normal(num, exact[n].nodes, true)) &&
       forall k :: k in cases ==> k != "" && AllIdent(k) && Normal(num, cases[k].nodes, true)
     case Select(name, cases) =>
       AllIdent(name) && "other" in cases && forall k :: k in cases ==> k != "" && AllIdent(k) && Normal(num, cases[k].nodes, false))
  }

  // ----- The printer -----

  /** The documented quoting: an apostrophe doubled, a syntax character between apostrophes. */
  function QuoteChar(c: char, inPlural: bool): string {
    if c == '\'' then "''"
    else if c == '{' || c == '}' || (c == '#' && inPlural) then "'" + ([c] + "'")
    else [c]
  }

  function QuoteText(t: string, inPlural: bool): string {
    if t == "" then "" else QuoteChar(t[0], inPlural) + QuoteText(t[1..], inPlural)
  }

  /** Some order of the keys of a case record. */
  ghost predicate Enumerates<T(!new)>(keys: seq<T>, all: set<T>) {
    (forall k :: k in keys <==> k in all) && forall i, j :: 0 <= i < j < |keys| ==> keys[i] != keys[j]
  }

  lemma {:induction false} EnumerationExists<T(!new)>(all: set<T>)
    ensures exists keys: seq<T> :: Enumerates(keys, all)
  {
    if all == {} {
      assert Enumerates([], all);
    } else {
      var k :| k in all;
      EnumerationExists(all - {k});
      var keys: seq<T> :| Enumerates(keys, all - {k});
      assert Enumerates(keys + [k], all);
    }
  }

  ghost function Enumeration<T(!new)>(all: set<T>): (keys: seq<T>)
    ensures Enumerates(keys, all)
  {
    EnumerationExists(all);
    var keys: seq<T> :| Enumerates(keys, all);
    keys
  }

  ghost function Print(nodes: seq<Node>, inPlural: bool): string
    decreases nodes, 0, 0
  {
    if nodes == [] then "" else PrintNode(nodes[0], inPlural) + Print(nodes[1..], inPlural)
  }

  ghost function PrintNode(node: Node, inPlural: bool): string
    decreases node, 1, 0
  {
    match node
    case Literal(value) => QuoteText(value, inPlural)
    case Var(name) => "{" + (name + "}")
    case Pound => "#"
    case Plural(name, exact, cases) =>
      "{" + (name + (",plural," + (PrintExact(node, Enumeration(exact.Keys)) + (PrintCases(node, Enumeration(cases.Keys), true) + "}"))))
    case Select(name, cases) =>
      "{" + (name + (",select," + (PrintCases(node, Enumeration(cases.Keys), false) + "}")))
  }

  ghost function PrintExact(node: Node, keys: seq<nat>): string
    requires node.Plural? && forall k :: k in keys ==> k in node.exact
    decreases node, 0, |keys|
  {
    if keys == [] then ""
    else
      assert keys[0] in keys;
      "=" + (Itoa(keys[0]) + ("{" + (Print(node.exact[keys[0]].nodes, true) + ("}" + PrintExact(node, keys[1..])))))
  }

  ghost function PrintCases(node: Node, keys: seq<string>, inPlural: bool): string
    requires (node.Plural? || node.Select?) && forall k :: k in keys ==> k in node.cases
    decreases node, 0, |keys|
  {
    if keys == [] then ""
    else
      assert keys[0] in keys;
      keys[0] + ("{" + (Print(node.cases[keys[0]].nodes, inPlural) + ("}" + PrintCases(node, keys[1..], inPlural))))
  }
}
