/** The parser as it runs: a position that only moves forward, and records filled case by case. */
module MiniParser {
  import opened Digits
  import opened MiniFormat
  import opened MiniFormatProofs

  /** A value, or a ParseError at an offset. */
  datatype Outcome<T> = Parsed(value: T) | Failed(problem: Problem, offset: nat)

  /** The outcome and the new position are what the specification makes of the remaining text. */
  predicate Matches<T(==)>(src: string, r: Outcome<T>, pos: nat, m: Result<T>) {
    match m
    case Ok(value, rest) => r == Parsed(value) && pos <= |src| && src[pos..] == rest
    case Err(problem, left) => left <= |src| && r == Failed(problem, |src| - left)
  }

  lemma {:induction false} Tail(src: string, pos: nat)
    requires pos < |src|
    ensures src[pos..] != "" && src[pos..][0] == src[pos] && src[pos..][1..] == src[pos + 1..]
  {
  }

  lemma {:induction false} ThenNothing(r: Result<seq<Node>>)
    ensures Then([], r) == r
  {
    if r.Ok? {
      assert [] + r.value == r.value;
    }
  }

  class Parser {
    const src: string
    const num: nat -> nat
    var pos: nat

    constructor (num: nat -> nat, src: string)
      ensures this.src == src && this.num == num && pos == 0
    {
      this.src, this.num, pos := src, num, 0;
    }

    predicate At(c: char)
      reads this
    {
      pos < |src| && src[pos] == c
    }

    method SkipSpaces()
      requires pos <= |src|
      modifies this
      ensures old(pos) <= pos <= |src| && src[pos..] == SkipSpace(src[old(pos)..])
    {
      hide IsSpace;
      while pos < |src| && IsSpace(src[pos])
        invariant old(pos) <= pos <= |src| && SkipSpace(src[pos..]) == SkipSpace(src[old(pos)..])
        decreases |src| - pos
      {
        Tail(src, pos);
        pos := pos + 1;
      }
      if pos < |src| {
        Tail(src, pos);
      }
    }

    method ReadIdent() returns (s: string)
      requires pos <= |src|
      modifies this
      ensures old(pos) <= pos <= |src|
      ensures var t := src[old(pos)..]; s == t[..IdentLength(t)] && src[pos..] == t[IdentLength(t)..] && pos == old(pos) + |s|
    {
      hide IsIdent;
      s := "";
      ghost var t := src[pos..];
      while pos < |src| && IsIdent(src[pos])
        invariant old(pos) <= pos <= |src| && |s| == pos - old(pos) && s == t[..|s|] && src[pos..] == t[|s|..]
        invariant IdentLength(t) == |s| + IdentLength(src[pos..])
        decreases |src| - pos
      {
        Tail(src, pos);
        s := s + [src[pos]];
        pos := pos + 1;
      }
      if pos < |src| {
        Tail(src, pos);
      }
    }

    method ReadDigits() returns (s: string)
      requires pos <= |src|
      modifies this
      ensures old(pos) <= pos <= |src|
      ensures var t := src[old(pos)..]; s == t[..DigitsLength(t)] && src[pos..] == t[DigitsLength(t)..] && pos == old(pos) + |s|
    {
      hide IsDigit;
      s := "";
      ghost var t := src[pos..];
      while pos < |src| && IsDigit(src[pos])
        invariant old(pos) <= pos <= |src| && |s| == pos - old(pos) && s == t[..|s|] && src[pos..] == t[|s|..]
        invariant DigitsLength(t) == |s| + DigitsLength(src[pos..])
        decreases |src| - pos
      {
        Tail(src, pos);
        s := s + [src[pos]];
        pos := pos + 1;
      }
      if pos < |src| {
        Tail(src, pos);
      }
    }

    /** A quoted run, up to the next apostrophe or the end. */
    method ReadRun() returns (s: string)
      requires pos <= |src|
      modifies this
      ensures old(pos) <= pos <= |src|
      ensures var t := src[old(pos)..]; s == t[..RunLength(t)] && src[pos..] == t[RunLength(t)..] && pos == old(pos) + |s|
    {
      s := "";
      ghost var t := src[pos..];
      while pos < |src| && src[pos] != '\''
        invariant old(pos) <= pos <= |src| && |s| == pos - old(pos) && s == t[..|s|] && src[pos..] == t[|s|..]
        invariant RunLength(t) == |s| + RunLength(src[pos..])
        decreases |src| - pos
      {
        Tail(src, pos);
        s := s + [src[pos]];
        pos := pos + 1;
      }
      if pos < |src| {
        Tail(src, pos);
      }
    }

    /** The apostrophe rules, at an apostrophe. */
    method ReadQuoted() returns (s: string)
      requires At('\'')
      modifies this
      ensures old(pos) < pos <= |src| && (s, src[pos..]) == Quoted(src[old(pos)..])
    {
      hide RunLength;
      ghost var t := src[pos..];
      Tail(src, pos);
      pos := pos + 1;
      if At('\'') {
        Tail(src, pos);
        pos := pos + 1;
        return "'";
      }
      ghost var n := RunLength(src[pos..]);
      s := ReadRun();
      assert src[pos..] == t[1..][n..];
      if pos < |src| {
        Tail(src, pos);
        assert t[n + 2..] == src[pos + 1..];
        pos := pos + 1;
      }
    }

    method ParseMessage(inPlural: bool, nested: bool) returns (r: Outcome<seq<Node>>)
      requires pos <= |src|
      modifies this
      ensures pos >= old(pos) && Matches(src, r, pos, Message(num, src[old(pos)..], inPlural, nested, ""))
      decreases |src| - pos, 1
    {
      hide Message, Placeholder, Quoted, Flush;
      var out: seq<Node> := [];
      var buf := "";
      ghost var whole := Message(num, src[pos..], inPlural, nested, "");
      ThenNothing(whole);
      while pos < |src| && !(nested && src[pos] == '}')
        invariant old(pos) <= pos <= |src|
        invariant Then(out, Message(num, src[pos..], inPlural, nested, buf)) == whole
        decreases |src| - pos
      {
        ghost var s := src[pos..];
        Tail(src, pos);
        MessageNext(num, s, inPlural, nested, buf);
        if src[pos] == '}' {
          return Failed(UnmatchedBrace, pos);
        }
        if src[pos] == '\'' {
          var t := ReadQuoted();
          buf := buf + t;
        } else if src[pos] == '{' {
          var p := ParsePlaceholder();
          if p.Failed? {
            return Failed(p.problem, p.offset);
          }
          ThenThen(out, Flush(buf) + [p.value], Message(num, src[pos..], inPlural, nested, ""));
          out := out + (Flush(buf) + [p.value]);
          buf := "";
        } else if src[pos] == '#' && inPlural {
          ThenThen(out, Flush(buf) + [Pound], Message(num, src[pos + 1..], inPlural, nested, ""));
          out := out + (Flush(buf) + [Pound]);
          buf := "";
          pos := pos + 1;
        } else {
          buf := buf + [src[pos]];
          pos := pos + 1;
        }
      }
      if pos < |src| {
        Tail(src, pos);
      }
      MessageEnds(num, src[pos..], inPlural, nested, buf);
      r := Parsed(out + Flush(buf));
    }

    method ReadSpacedIdent() returns (name: string)
      requires pos <= |src|
      modifies this
      ensures old(pos) <= pos <= |src| && (name, src[pos..]) == SpacedIdent(src[old(pos)..])
    {
      hide SkipSpace, IdentLength;
      SkipSpaces();
      name := ReadIdent();
      SkipSpaces();
    }

    method ReadType() returns (r: Outcome<string>)
      requires pos <= |src|
      modifies this
      ensures pos >= old(pos) && Matches(src, r, pos, ArgType(src[old(pos)..]))
    {
      hide SkipSpace, SpacedIdent;
      var kind := ReadSpacedIdent();
      if !At(',') {
        return Failed(Expected(','), pos);
      }
      Tail(src, pos);
      pos := pos + 1;
      SkipSpaces();
      r := Parsed(kind);
    }

    method ParsePlaceholder() returns (r: Outcome<Node>)
      requires At('{')
      modifies this
      ensures pos > old(pos) && Matches(src, r, pos, Placeholder(num, src[old(pos) + 1..]))
      decreases |src| - pos, 0
    {
      hide PluralCases, SelectCases, SpacedIdent, ArgType;
      pos := pos + 1;
      var name := ReadSpacedIdent();
      if !At('}') && !At(',') {
        return Failed(Expected(','), pos);
      }
      Tail(src, pos);
      pos := pos + 1;
      if src[pos - 1] == '}' {
        return Parsed(Var(name));
      }
      var kind := ReadType();
      if kind.Failed? {
        return Failed(kind.problem, kind.offset);
      }
      if kind.value == "plural" {
        r := ParsePluralCases(name);
      } else if kind.value == "select" {
        r := ParseSelectCases(name);
      } else {
        r := Failed(UnsupportedType(kind.value), pos);
      }
    }

    /** The key of a plural case. */
    method ReadKey() returns (r: Outcome<Key>)
      requires pos <= |src|
      modifies this
      ensures pos >= old(pos) && Matches(src, r, pos, CaseKey(num, src[old(pos)..]))
    {
      hide SkipSpace, IdentLength, DigitsLength, Val;
      SkipSpaces();
      var key := ReadIdent();
      if key != "" {
        return Parsed(Keyword(key));
      }
      if !At('=') {
        return Failed(NoKeyword, pos);
      }
      Tail(src, pos);
      pos := pos + 1;
      var digits := ReadDigits();
      if digits == "" {
        return Failed(NoDigits, pos);
      }
      r := Parsed(Exact(num(Val(digits))));
    }

    method ParseBranch(inPlural: bool) returns (r: Outcome<seq<Node>>)
      requires pos <= |src|
      modifies this
      ensures pos >= old(pos) && (r.Parsed? ==> pos > old(pos)) && Matches(src, r, pos, Branch(num, src[old(pos)..], inPlural))
      decreases |src| - pos, 1
    {
      hide Message, SkipSpace;
      SkipSpaces();
      if !At('{') {
        return Failed(Expected('{'), pos);
      }
      pos := pos + 1;
      r := ParseMessage(inPlural, true);
      if r.Failed? {
        return;
      }
      if !At('}') {
        return Failed(Expected('}'), pos);
      }
      pos := pos + 1;
      SkipSpaces();
    }

    method ParsePluralCases(name: string) returns (r: Outcome<Node>)
      requires pos <= |src|
      modifies this
      ensures pos >= old(pos) && Matches(src, r, pos, PluralCases(num, src[old(pos)..], name, map[], map[]))
      decreases |src| - pos, 2
    {
      hide PluralCases, Branch, CaseKey;
      var exact: map<nat, Body> := map[];
      var cases: map<string, Body> := map[];
      ghost var whole := PluralCases(num, src[pos..], name, map[], map[]);
      while pos < |src| && src[pos] != '}'
        invariant old(pos) <= pos <= |src|
        invariant PluralCases(num, src[pos..], name, exact, cases) == whole
        decreases |src| - pos
      {
        PluralNext(num, src[pos..], name, exact, cases);
        Tail(src, pos);
        var key := ReadKey();
        if key.Failed? {
          return Failed(key.problem, key.offset);
        }
        var branch := ParseBranch(true);
        if branch.Failed? {
          return Failed(branch.problem, branch.offset);
        }
        match key.value {
          case Exact(n) => exact := exact[n := Body(branch.value)];
          case Keyword(k) => cases := cases[k := Body(branch.value)];
        }
      }
      PluralLast(num, src[pos..], name, exact, cases);
      if !At('}') {
        return Failed(Expected('}'), pos);
      }
      Tail(src, pos);
      pos := pos + 1;
      if "other" !in cases {
        return Failed(NoOther(name), pos);
      }
      r := Parsed(Plural(name, exact, cases));
    }

    method ParseSelectCases(name: string) returns (r: Outcome<Node>)
      requires pos <= |src|
      modifies this
      ensures pos >= old(pos) && Matches(src, r, pos, SelectCases(num, src[old(pos)..], name, map[]))
      decreases |src| - pos, 2
    {
      hide SelectCases, Branch, SkipSpace, IdentLength;
      var cases: map<string, Body> := map[];
      ghost var whole := SelectCases(num, src[pos..], name, map[]);
      while pos < |src| && src[pos] != '}'
        invariant old(pos) <= pos <= |src|
        invariant SelectCases(num, src[pos..], name, cases) == whole
        decreases |src| - pos
      {
        SelectNext(num, src[pos..], name, cases);
        Tail(src, pos);
        SkipSpaces();
        var key := ReadIdent();
        if key == "" {
          return Failed(NoKeyword, pos);
        }
        var branch := ParseBranch(false);
        if branch.Failed? {
          return Failed(branch.problem, branch.offset);
        }
        cases := cases[key := Body(branch.value)];
      }
      SelectLast(num, src[pos..], name, cases);
      if !At('}') {
        return Failed(Expected('}'), pos);
      }
      Tail(src, pos);
      pos := pos + 1;
      if "other" !in cases {
        return Failed(NoOther(name), pos);
      }
      r := Parsed(Select(name, cases));
    }
  }

  // ----- One step of each specification -----

  lemma {:induction false} MessageNext(num: nat -> nat, s: string, inPlural: bool, nested: bool, buf: string)
    requires s != "" && !(nested && s[0] == '}')
    ensures Message(num, s, inPlural, nested, buf) ==
            if s[0] == '}' then Err(UnmatchedBrace, |s|)
            else if s[0] == '\'' then Message(num, Quoted(s).1, inPlural, nested, buf + Quoted(s).0)
            else if s[0] == '{' then
              var p := Placeholder(num, s[1..]);
              if p.Err? then Err(p.problem, p.left) else Then(Flush(buf) + [p.value], Message(num, p.rest, inPlural, nested, ""))
            else if s[0] == '#' && inPlural then Then(Flush(buf) + [Pound], Message(num, s[1..], inPlural, nested, ""))
            else Message(num, s[1..], inPlural, nested, buf + [s[0]])
  {
    hide Placeholder, Quoted;
  }

  lemma {:induction false} MessageEnds(num: nat -> nat, s: string, inPlural: bool, nested: bool, buf: string)
    requires s == "" || (nested && s[0] == '}')
    ensures Message(num, s, inPlural, nested, buf) == Ok(Flush(buf), s)
  {
    hide Placeholder, Quoted;
  }

  lemma {:induction false} PluralNext(num: nat -> nat, s: string, name: string, exact: map<nat, Body>, cases: map<string, Body>)
    requires s != "" && s[0] != '}'
    ensures PluralCases(num, s, name, exact, cases) ==
            var key := CaseKey(num, s);
            if key.Err? then Err(key.problem, key.left)
            else
              var b := Branch(num, key.rest, true);
              if b.Err? then Err(b.problem, b.left)
              else
                match key.value
                case Exact(n) => PluralCases(num, b.rest, name, exact[n := Body(b.value)], cases)
                case Keyword(k) => PluralCases(num, b.rest, name, exact, cases[k := Body(b.value)])
  {
    hide Branch, CaseKey;
  }

  lemma {:induction false} PluralLast(num: nat -> nat, s: string, name: string, exact: map<nat, Body>, cases: map<string, Body>)
    requires s == "" || s[0] == '}'
    ensures PluralCases(num, s, name, exact, cases) ==
            if s == "" then Err(Expected('}'), 0)
            else if "other" in cases then Ok(Plural(name, exact, cases), s[1..]) else Err(NoOther(name), |s| - 1)
  {
    hide Branch, SkipSpace, Val;
  }

  lemma {:induction false} SelectNext(num: nat -> nat, s: string, name: string, cases: map<string, Body>)
    requires s != "" && s[0] != '}'
    ensures SelectCases(num, s, name, cases) ==
            var s1 := SkipSpace(s);
            var key := s1[..IdentLength(s1)];
            if key == "" then Err(NoKeyword, |s1|)
            else
              var b := Branch(num, s1[IdentLength(s1)..], false);
              if b.Err? then Err(b.problem, b.left) else SelectCases(num, b.rest, name, cases[key := Body(b.value)])
  {
    hide Branch, SkipSpace;
  }

  lemma {:induction false} SelectLast(num: nat -> nat, s: string, name: string, cases: map<string, Body>)
    requires s == "" || s[0] == '}'
    ensures SelectCases(num, s, name, cases) ==
            if s == "" then Err(Expected('}'), 0)
            else if "other" in cases then Ok(Select(name, cases), s[1..]) else Err(NoOther(name), |s| - 1)
  {
    hide Branch, SkipSpace;
  }

  /** parse. */
  method ParseText(num: nat -> nat, src: string) returns (r: Outcome<seq<Node>>)
    ensures match Parse(num, src)
            case Ok(nodes, _) => r == Parsed(nodes)
            case Err(problem, left) => left <= |src| && r == Failed(problem, |src| - left)
  {
    hide Message;
    var parser := new Parser(num, src);
    assert src[0..] == src;
    r := parser.ParseMessage(false, false);
  }
}
