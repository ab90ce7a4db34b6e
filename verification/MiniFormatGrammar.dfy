/** The language of the parser: the texts it accepts are exactly those of a grammar with white
    space, quoting and repeated cases, and each means what its parts say. */
module MiniFormatGrammar {
  import opened Digits
  import opened MiniFormat
  import opened MiniFormatProofs
  import opened MiniFormatNormal

  // ----- The grammar -----

  /** A stretch of literal text: a character that needs no quoting, a doubled apostrophe, a quoted
      run, or a run that the text ends in. */
  datatype Chunk = Plain(c: char) | Doubled | Run(text: string) | Unclosed(text: string)

  datatype Piece =
    | Text(chunk: Chunk)
    | Variable(before: string, name: string, after: string)
    | Hash
    | PluralOf(head: Head, arms: seq<Arm>)
    | SelectOf(head: Head, arms: seq<Arm>)

  /** From the brace of a placeholder to its first case, with the white space at each place. */
  datatype Head = Head(before: string, name: string, after: string, beforeType: string, afterType: string, beforeCases: string)

  datatype ArmKey = Number(digits: string) | Word(name: string)

  /** One case: its key, white space, its message in braces, white space. */
  datatype Arm = Arm(key: ArmKey, gap: string, body: seq<Piece>, after: string)

  /** The code points of ECMAScript's WhiteSpace and LineTerminator. */
  predicate WhiteCode(v: int) {
    v in {0x9, 0xA, 0xB, 0xC, 0xD, 0x20, 0xA0, 0x1680, 0x2000, 0x2001, 0x2002, 0x2003, 0x2004, 0x2005, 0x2006, 0x2007, 0x2008,
          0x2009, 0x200A, 0x2028, 0x2029, 0x202F, 0x205F, 0x3000, 0xFEFF}
  }

  predicate White(s: string) {
    forall i :: 0 <= i < |s| ==> WhiteCode(s[i] as int)
  }

  predicate NameChar(c: char) {
    'a' <= c <= 'z' || 'A' <= c <= 'Z' || '0' <= c <= '9' || c == '_' || c == '-' || c == '.'
  }

  predicate Name(s: string) {
    forall i :: 0 <= i < |s| ==> NameChar(s[i])
  }

  predicate Number09(s: string) {
    s != "" && forall i :: 0 <= i < |s| ==> '0' <= s[i] <= '9'
  }

  /** The pieces are put together by the rules; only the end of the whole text ends a quoted run. */
  predicate Spelled(ps: seq<Piece>, inPlural: bool, final: bool)
    decreases ps
  {
    ps == [] ||
    (SpelledPiece(ps[0], inPlural) && Spelled(ps[1..], inPlural, final) &&
     (ps[0].Text? && ps[0].chunk.Unclosed? ==> final && |ps| == 1))
  }

  predicate SpelledPiece(p: Piece, inPlural: bool)
    decreases p
  {
    match p
    case Text(Plain(c)) => c != '\'' && c != '{' && c != '}' && (c == '#' ==> !inPlural)
    case Text(Doubled) => true
    case Text(Run(t)) => t != "" && '\'' !in t
    case Text(Unclosed(t)) => '\'' !in t
    case Variable(before, name, after) => White(before) && Name(name) && White(after)
    case Hash => inPlural
    case PluralOf(head, arms) => SpelledHead(head) && SpelledArms(arms, true) && HasOther(arms)
    case SelectOf(head, arms) =>
      SpelledHead(head) && SpelledArms(arms, false) && HasOther(arms) && forall i :: 0 <= i < |arms| ==> arms[i].key.Word?
  }

  predicate SpelledHead(h: Head) {
    White(h.before) && Name(h.name) && White(h.after) && White(h.beforeType) && White(h.afterType) && White(h.beforeCases)
  }

  predicate SpelledArms(arms: seq<Arm>, inPlural: bool)
    decreases arms
  {
    arms == [] || (SpelledArm(arms[0], inPlural) && SpelledArms(arms[1..], inPlural))
  }

  predicate SpelledArm(a: Arm, inPlural: bool)
    decreases a
  {
    (match a.key case Number(digits) => Number09(digits) case Word(name) => name != "" && Name(name)) &&
    White(a.gap) && Spelled(a.body, inPlural, false) && White(a.after)
  }

  predicate HasOther(arms: seq<Arm>) {
    exists i :: 0 <= i < |arms| && arms[i].key == Word("other")
  }

  /** The text of the pieces, with what follows it. */
  function Written(ps: seq<Piece>, tail: string): string
    decreases ps
  {
    if ps == [] then tail else PieceWritten(ps[0], Written(ps[1..], tail))
  }

  function PieceWritten(p: Piece, tail: string): string
    decreases p
  {
    match p
    case Text(Plain(c)) => [c] + tail
    case Text(Doubled) => "''" + tail
    case Text(Run(t)) => "'" + (t + ("'" + tail))
    case Text(Unclosed(t)) => "'" + (t + tail)
    case Variable(before, name, after) => "{" + (before + (name + (after + ("}" + tail))))
    case Hash => "#" + tail
    case PluralOf(head, arms) => "{" + HeadWritten(head, "plural", ArmsWritten(arms, "}" + tail))
    case SelectOf(head, arms) => "{" + HeadWritten(head, "select", ArmsWritten(arms, "}" + tail))
  }

  function HeadWritten(h: Head, kind: string, tail: string): string {
    h.before + (h.name + (h.after + ("," + (h.beforeType + (kind + (h.afterType + ("," + (h.beforeCases + tail))))))))
  }

  function ArmsWritten(arms: seq<Arm>, tail: string): string
    decreases arms
  {
    if arms == [] then tail else ArmWritten(arms[0], ArmsWritten(arms[1..], tail))
  }

  function ArmWritten(a: Arm, tail: string): string
    decreases a
  {
    KeyWritten(a.key) + (a.gap + ("{" + Written(a.body, "}" + (a.after + tail))))
  }

  function KeyWritten(k: ArmKey): string {
    match k
    case Number(digits) => "=" + digits
    case Word(name) => name
  }

  function Value(c: Chunk): string {
    match c
    case Plain(c) => [c]
    case Doubled => "'"
    case Run(t) => t
    case Unclosed(t) => t
  }

  /** What the pieces mean after that much literal text: adjacent chunks are one literal. */
  function Meaning(num: nat -> nat, ps: seq<Piece>, buf: string): seq<Node>
    decreases ps
  {
    if ps == [] then if buf == "" then [] else [Literal(buf)]
    else if ps[0].Text? then Meaning(num, ps[1..], buf + Value(ps[0].chunk))
    else (if buf == "" then [] else [Literal(buf)]) + [NodeOf(num, ps[0])] + Meaning(num, ps[1..], "")
  }

  function NodeOf(num: nat -> nat, p: Piece): Node
    requires !p.Text?
    decreases p
  {
    match p
    case Variable(_, name, _) => Var(name)
    case Hash => Pound
    case PluralOf(head, arms) =>
      var (exact, cases) := Records(num, arms, map[], map[]);
      Plural(head.name, exact, cases)
    case SelectOf(head, arms) => Select(head.name, Records(num, arms, map[], map[]).1)
  }

  /** The case records the arms fill, a later arm with the same key winning. */
  function Records(num: nat -> nat, arms: seq<Arm>, exact: map<nat, Body>, cases: map<string, Body>)
    : (map<nat, Body>, map<string, Body>)
    decreases arms
  {
    if arms == [] then (exact, cases)
    else
      var body := ArmBody(num, arms[0]);
      match arms[0].key
      case Number(digits) => Records(num, arms[1..], exact[num(Val(digits)) := body], cases)
      case Word(name) => Records(num, arms[1..], exact, cases[name := body])
  }

  function ArmBody(num: nat -> nat, a: Arm): Body
    decreases a
  {
    Body(Meaning(num, a.body, ""))
  }

  // ----- Characters -----

  lemma {:induction false} SpaceIffWhite(c: char)
    ensures IsSpace(c) <==> WhiteCode(c as int)
  {
  }

  lemma {:induction false} IdentIffName(c: char)
    ensures IsIdent(c) <==> NameChar(c)
  {
  }

  lemma {:induction false} NamesAreIdents(s: string)
    ensures Name(s) <==> AllIdent(s)
  {
    hide IsIdent, NameChar;
    forall i | 0 <= i < |s| ensures IsIdent(s[i]) <==> NameChar(s[i]) {
      IdentIffName(s[i]);
    }
  }

  lemma {:induction false} NumbersAreDigits(s: string)
    ensures Number09(s) <==> s != "" && AllDigits(s)
  {
    assert forall i :: 0 <= i < |s| ==> (IsDigit(s[i]) <==> '0' <= s[i] <= '9');
  }

  lemma {:induction false} SkipsGap(g: string, tail: string)
    requires White(g) && Clear(tail)
    ensures SkipSpace(g + tail) == tail
  {
    hide IsSpace, WhiteCode;
    if g == "" {
      assert g + tail == tail;
      SkipsNothing(tail);
    } else {
      SpaceIffWhite(g[0]);
      assert (g + tail)[0] == g[0] && (g + tail)[1..] == g[1..] + tail;
      SkipsGap(g[1..], tail);
    }
  }

  lemma {:induction false} GapThenNoName(g: string, tail: string)
    requires White(g) && (tail == "" || !IsIdent(tail[0]))
    ensures var s := g + tail; s == "" || !IsIdent(s[0])
  {
    hide IsSpace, IsIdent, WhiteCode;
    if g != "" {
      SpaceIffWhite(g[0]);
      IdentIsClear(g[0]);
    }
  }

  // ----- Spelled texts parse -----

  lemma {:induction false} SpacedNameReads(before: string, name: string, after: string, tail: string)
    requires White(before) && Name(name) && White(after) && tail != "" && tail[0] in {',', '}'}
    ensures SpacedIdent(before + (name + (after + tail))) == (name, tail)
  {
    hide IsSpace, IsIdent, White, Name, SkipSpace, IdentLength;
    PunctuationIsClear();
    NamesAreIdents(name);
    GapThenNoName(after, tail);
    SkipsGap(after, tail);
    IdentReads(name, after + tail);
    if name == "" {
      assert name + (after + tail) == after + tail;
      assert before + (after + tail) == (before + after) + tail;
      WhiteConcat(before, after);
      SkipsGap(before + after, tail);
      IdentReads("", tail);
      assert "" + tail == tail;
      SkipsNothing(tail);
    } else {
      NameIsClear(name, after + tail);
      SkipsGap(before, name + (after + tail));
    }
  }

  lemma {:induction false} WhiteConcat(a: string, b: string)
    requires White(a) && White(b)
    ensures White(a + b)
  {
  }

  lemma {:induction false} NameIsClear(name: string, tail: string)
    requires name != "" && AllIdent(name)
    ensures Clear(name + tail) && (name + tail)[0] != '}'
  {
    IdentIsClear(name[0]);
    assert (name + tail)[0] == name[0];
  }

  lemma {:induction false} VariableReads(num: nat -> nat, before: string, name: string, after: string, tail: string)
    requires White(before) && Name(name) && White(after)
    ensures Placeholder(num, before + (name + (after + ("}" + tail)))) == Ok(Var(name), tail)
  {
    hide PluralCases, SelectCases, SpacedIdent, ArgType;
    SpacedNameReads(before, name, after, "}" + tail);
    assert ("}" + tail)[1..] == tail;
  }

  lemma {:induction false} TypeIsRead(h: Head, kind: string, rest: string)
    requires SpelledHead(h) && Name(kind) && Clear(rest)
    ensures ArgType(h.beforeType + (kind + (h.afterType + ("," + (h.beforeCases + rest))))) == Ok(kind, rest)
  {
    hide SpacedIdent, SkipSpace, White, Name;
    var t := "," + (h.beforeCases + rest);
    SpacedNameReads(h.beforeType, kind, h.afterType, t);
    assert t[1..] == h.beforeCases + rest;
    SkipsGap(h.beforeCases, rest);
  }

  lemma {:induction false} HeadIsRead(num: nat -> nat, h: Head, kind: string, rest: string)
    requires SpelledHead(h) && (kind == "plural" || kind == "select") && Clear(rest)
    ensures Placeholder(num, HeadWritten(h, kind, rest)) ==
            if kind == "plural" then PluralCases(num, rest, h.name, map[], map[]) else SelectCases(num, rest, h.name, map[])
  {
    hide PluralCases, SelectCases, SpacedIdent, ArgType, White, Name, Clear;
    assert Name(kind) by { KindIsName(kind); }
    var u := h.beforeType + (kind + (h.afterType + ("," + (h.beforeCases + rest))));
    SpacedNameReads(h.before, h.name, h.after, "," + u);
    assert ("," + u)[1..] == u;
    TypeIsRead(h, kind, rest);
  }

  lemma {:induction false} KindIsName(kind: string)
    requires kind == "plural" || kind == "select"
    ensures Name(kind)
  {
  }

  /** Where the next case or the closing brace starts, no white space is left. */
  lemma {:induction false} ArmsAreClear(arms: seq<Arm>, inPlural: bool, tail: string)
    requires SpelledArms(arms, inPlural)
    ensures Clear(ArmsWritten(arms, "}" + tail))
    ensures arms != [] ==> var s := ArmsWritten(arms, "}" + tail); s != "" && s[0] != '}'
  {
    hide IsSpace, IsIdent, Written, Name, White, Spelled;
    PunctuationIsClear();
    if arms != [] {
      var a := arms[0];
      var after := a.gap + ("{" + Written(a.body, "}" + (a.after + ArmsWritten(arms[1..], "}" + tail))));
      assert ArmsWritten(arms, "}" + tail) == KeyWritten(a.key) + after;
      match a.key {
        case Number(digits) => assert (("=" + digits) + after)[0] == '=';
        case Word(name) =>
          NamesAreIdents(name);
          NameIsClear(name, after);
      }
    }
  }

  lemma {:induction false} KeyIsRead(num: nat -> nat, key: ArmKey, tail: string)
    requires (match key case Number(digits) => Number09(digits) case Word(name) => name != "" && Name(name))
    requires tail != "" && !IsIdent(tail[0]) && !IsDigit(tail[0])
    ensures CaseKey(num, KeyWritten(key) + tail) ==
            Ok(match key case Number(digits) => Exact(num(Val(digits))) case Word(name) => Keyword(name), tail)
  {
    hide IsSpace, IsIdent, Val, IsDigit, Name, Number09, AllIdent, AllDigits;
    PunctuationIsClear();
    match key {
      case Number(digits) =>
        NumbersAreDigits(digits);
        DigitsRead(digits, tail);
        var s := ("=" + digits) + tail;
        assert s[0] == '=' && s[1..] == digits + tail;
        SkipsNothing(s);
        assert IdentLength(s) == 0 && s[..0] == "" && s[0..] == s;
      case Word(name) =>
        NamesAreIdents(name);
        IdentReads(name, tail);
        NameIsClear(name, tail);
        SkipsNothing(name + tail);
    }
  }

  lemma {:induction false} GapThenBrace(g: string, tail: string)
    requires White(g)
    ensures var s := g + ("{" + tail); s != "" && !IsIdent(s[0]) && !IsDigit(s[0])
  {
    if g != "" {
      SpaceIffWhite(g[0]);
    }
  }

  lemma {:induction false} ArmReads(num: nat -> nat, a: Arm, inPlural: bool, tail: string)
    requires SpelledArm(a, inPlural) && Clear(tail)
    ensures Branch(num, a.gap + ("{" + Written(a.body, "}" + (a.after + tail))), inPlural) == Ok(Meaning(num, a.body, ""), tail)
    decreases a, 2
  {
    hide Message, Meaning, Written, SkipSpace, White, Name, Spelled, IsSpace;
    PunctuationIsClear();
    var end := "}" + (a.after + tail);
    var body := Written(a.body, end);
    SkipsGap(a.gap, "{" + body);
    assert ("{" + body)[1..] == body;
    assert Spelled(a.body, inPlural, end == "");
    MessageIsRead(num, a.body, inPlural, true, end, "");
    assert end[1..] == a.after + tail;
    SkipsGap(a.after, tail);
  }

  lemma {:induction false} PluralArmsRead(num: nat -> nat, arms: seq<Arm>, name: string, tail: string, exact: map<nat, Body>,
                                          cases: map<string, Body>)
    requires SpelledArms(arms, true) && "other" in Records(num, arms, exact, cases).1
    ensures var (e, c) := Records(num, arms, exact, cases);
            PluralCases(num, ArmsWritten(arms, "}" + tail), name, exact, cases) == Ok(Plural(name, e, c), tail)
    decreases arms
  {
    hide Branch, CaseKey, KeyWritten, Written, Meaning, Clear, White, Name, Spelled, IsIdent, IsDigit, Number09;
    if arms == [] {
      assert ("}" + tail)[1..] == tail;
    } else {
      var a := arms[0];
      var rest := ArmsWritten(arms[1..], "}" + tail);
      ArmsAreClear(arms, true, tail);
      ArmsAreClear(arms[1..], true, tail);
      var after := a.gap + ("{" + Written(a.body, "}" + (a.after + rest)));
      GapThenBrace(a.gap, Written(a.body, "}" + (a.after + rest)));
      KeyIsRead(num, a.key, after);
      ArmReads(num, a, true, rest);
      match a.key {
        case Number(digits) => PluralArmsRead(num, arms[1..], name, tail, exact[num(Val(digits)) := ArmBody(num, a)], cases);
        case Word(k) => PluralArmsRead(num, arms[1..], name, tail, exact, cases[k := ArmBody(num, a)]);
      }
    }
  }

  lemma {:induction false} SelectArmsRead(num: nat -> nat, arms: seq<Arm>, name: string, tail: string, cases: map<string, Body>)
    requires SpelledArms(arms, false) && (forall i :: 0 <= i < |arms| ==> arms[i].key.Word?)
    requires "other" in Records(num, arms, map[], cases).1
    ensures SelectCases(num, ArmsWritten(arms, "}" + tail), name, cases) == Ok(Select(name, Records(num, arms, map[], cases).1), tail)
    decreases arms
  {
    hide Branch, IdentLength, SkipSpace, Written, Meaning, White, Name, Spelled, IsSpace, IsIdent, IsDigit;
    if arms == [] {
      assert ("}" + tail)[1..] == tail;
    } else {
      var a := arms[0];
      var k := a.key.name;
      var rest := ArmsWritten(arms[1..], "}" + tail);
      ArmsAreClear(arms, false, tail);
      ArmsAreClear(arms[1..], false, tail);
      var after := a.gap + ("{" + Written(a.body, "}" + (a.after + rest)));
      GapThenBrace(a.gap, Written(a.body, "}" + (a.after + rest)));
      NamesAreIdents(k);
      SkipsNothing(k + after);
      IdentReads(k, after);
      ArmReads(num, a, false, rest);
      assert forall i :: 0 <= i < |arms[1..]| ==> arms[1..][i] == arms[i + 1];
      SelectArmsRead(num, arms[1..], name, tail, cases[k := ArmBody(num, a)]);
    }
  }

  /** The keyword cases filled are those filled before and those of the arms. */
  lemma {:induction false} RecordsHave(num: nat -> nat, arms: seq<Arm>, exact: map<nat, Body>, cases: map<string, Body>, k: string)
    ensures k in Records(num, arms, exact, cases).1 <==> k in cases || exists i :: 0 <= i < |arms| && arms[i].key == Word(k)
    decreases |arms|
  {
    hide ArmBody;
    if arms != [] {
      var (a, rest) := (arms[0], arms[1..]);
      var body := ArmBody(num, a);
      assert arms == [a] + rest;
      match a.key {
        case Number(digits) => RecordsHave(num, rest, exact[num(Val(digits)) := body], cases, k);
        case Word(name) => RecordsHave(num, rest, exact, cases[name := body], k);
      }
      if i :| 0 <= i < |rest| && rest[i].key == Word(k) {
        assert arms[i + 1].key == Word(k);
      }
      if i :| 0 <= i < |arms| && arms[i].key == Word(k) {
        assert i > 0 ==> rest[i - 1].key == Word(k);
      }
    }
  }

  lemma {:induction false} PlaceholderReads(num: nat -> nat, p: Piece, inPlural: bool, tail: string)
    requires SpelledPiece(p, inPlural) && !p.Text? && !p.Hash?
    ensures var s := PieceWritten(p, tail); Starts(s, '{') && Placeholder(num, s[1..]) == Ok(NodeOf(num, p), tail)
    decreases p, 3
  {
    hide Placeholder, HeadWritten, ArmsWritten, Records, SpelledArms, SpelledHead, White, Name;
    match p {
      case Variable(before, name, after) =>
        VariableReads(num, before, name, after, tail);
        assert PieceWritten(p, tail)[1..] == before + (name + (after + ("}" + tail)));
      case PluralOf(head, arms) =>
        var rest := ArmsWritten(arms, "}" + tail);
        ArmsAreClear(arms, true, tail);
        HeadIsRead(num, head, "plural", rest);
        RecordsHave(num, arms, map[], map[], "other");
        PluralArmsRead(num, arms, head.name, tail, map[], map[]);
        assert PieceWritten(p, tail)[1..] == HeadWritten(head, "plural", rest);
      case SelectOf(head, arms) =>
        var rest := ArmsWritten(arms, "}" + tail);
        ArmsAreClear(arms, false, tail);
        HeadIsRead(num, head, "select", rest);
        RecordsHave(num, arms, map[], map[], "other");
        SelectArmsRead(num, arms, head.name, tail, map[]);
        assert PieceWritten(p, tail)[1..] == HeadWritten(head, "select", rest);
    }
  }

  lemma {:induction false} RunEnds(t: string, tail: string)
    requires '\'' !in t && (tail == "" || tail[0] == '\'')
    ensures RunLength(t + tail) == |t| && (t + tail)[..|t|] == t && (t + tail)[|t|..] == tail
  {
    if t == "" {
      assert t + tail == tail;
    } else {
      assert (t + tail)[0] == t[0] && (t + tail)[1..] == t[1..] + tail && t[0] in t;
      RunEnds(t[1..], tail);
    }
  }

  lemma {:induction false} ChunkReads(num: nat -> nat, chunk: Chunk, inPlural: bool, nested: bool, tail: string, buf: string)
    requires SpelledPiece(Text(chunk), inPlural) && (chunk.Unclosed? ==> tail == "")
    ensures Message(num, PieceWritten(Text(chunk), tail), inPlural, nested, buf) == Message(num, tail, inPlural, nested, buf + Value(chunk))
  {
    hide Message, Quoted;
    if chunk.Plain? {
      PlainReads(num, chunk.c, inPlural, nested, tail, buf);
    } else {
      var s := PieceWritten(Text(chunk), tail);
      ChunkIsQuoted(chunk, inPlural, tail);
      ApostropheReads(num, s, inPlural, nested, buf);
    }
  }

  lemma {:induction false} PlainReads(num: nat -> nat, c: char, inPlural: bool, nested: bool, tail: string, buf: string)
    requires c != '\'' && c != '{' && c != '}' && (c == '#' ==> !inPlural)
    ensures Message(num, [c] + tail, inPlural, nested, buf) == Message(num, tail, inPlural, nested, buf + [c])
  {
    hide Placeholder, Quoted;
    assert ([c] + tail)[1..] == tail;
  }

  lemma {:induction false} ApostropheReads(num: nat -> nat, s: string, inPlural: bool, nested: bool, buf: string)
    requires Starts(s, '\'')
    ensures Message(num, s, inPlural, nested, buf) == Message(num, Quoted(s).1, inPlural, nested, buf + Quoted(s).0)
  {
    hide Placeholder, Quoted;
  }

  lemma {:induction false} ChunkIsQuoted(chunk: Chunk, inPlural: bool, tail: string)
    requires SpelledPiece(Text(chunk), inPlural) && !chunk.Plain? && (chunk.Unclosed? ==> tail == "")
    ensures var s := PieceWritten(Text(chunk), tail); Starts(s, '\'') && Quoted(s) == (Value(chunk), tail)
  {
    hide RunLength;
    var s := PieceWritten(Text(chunk), tail);
    match chunk {
      case Doubled => assert s[1..] == "'" + tail && s[2..] == tail;
      case Run(t) =>
        var end := "'" + tail;
        RunEnds(t, end);
        assert s[1..] == t + end && t[0] in t;
        assert s[|t| + 2..] == tail;
      case Unclosed(t) =>
        RunEnds(t, "");
        assert s[1..] == t + "";
        assert t != "" ==> t[0] in t;
    }
  }

  /** Spelled pieces are read back as what they mean. */
  lemma {:induction false} MessageIsRead(num: nat -> nat, ps: seq<Piece>, inPlural: bool, nested: bool, tail: string, buf: string)
    requires Spelled(ps, inPlural, tail == "") && Ends(tail, nested)
    ensures Message(num, Written(ps, tail), inPlural, nested, buf) == Ok(Meaning(num, ps, buf), tail)
    decreases ps, 1
  {
    hide SpelledPiece, PieceWritten, Placeholder, NodeOf, Value;
    if ps != [] {
      var (p, rest) := (ps[0], Written(ps[1..], tail));
      if p.Text? {
        ChunkReads(num, p.chunk, inPlural, nested, rest, buf);
        MessageIsRead(num, ps[1..], inPlural, nested, tail, buf + Value(p.chunk));
      } else {
        MessageIsRead(num, ps[1..], inPlural, nested, tail, "");
        if p.Hash? {
          HashReads(num, inPlural, nested, rest, buf);
        } else {
          PlaceholderReads(num, p, inPlural, rest);
        }
      }
    }
  }

  lemma {:induction false} HashReads(num: nat -> nat, inPlural: bool, nested: bool, tail: string, buf: string)
    ensures SpelledPiece(Hash, inPlural) ==>
              Message(num, PieceWritten(Hash, tail), inPlural, nested, buf) ==
              Then(Flush(buf) + [NodeOf(num, Hash)], Message(num, tail, inPlural, nested, ""))
  {
    hide Placeholder;
    assert ("#" + tail)[1..] == tail;
  }

  // ----- Parsed texts are spelled -----

  lemma {:induction false} GapOf(s: string) returns (g: string)
    ensures White(g) && s == g + SkipSpace(s) && Clear(SkipSpace(s))
  {
    hide IsSpace, WhiteCode;
    if s != "" && IsSpace(s[0]) {
      var h := GapOf(s[1..]);
      SpaceIffWhite(s[0]);
      g := [s[0]] + h;
      assert s == [s[0]] + s[1..];
    } else {
      g := "";
      assert s == "" + s;
    }
  }

  lemma {:induction false} NameOf(s: string)
    ensures var n := IdentLength(s); Name(s[..n]) && s == s[..n] + s[n..]
  {
    IdentPrefix(s);
    NamesAreIdents(s[..IdentLength(s)]);
  }

  lemma {:induction false} DigitsOf(s: string)
    ensures var n := DigitsLength(s); AllDigits(s[..n]) && s == s[..n] + s[n..]
  {
    hide IsDigit;
    if s != "" && IsDigit(s[0]) {
      DigitsOf(s[1..]);
      assert s[..DigitsLength(s)] == [s[0]] + s[1..][..DigitsLength(s[1..])];
    }
  }

  lemma {:induction false} SpacedNameOf(s: string) returns (before: string, after: string)
    ensures var (name, rest) := SpacedIdent(s);
            White(before) && Name(name) && White(after) && s == before + (name + (after + rest))
  {
    hide White, Name, IdentLength, SkipSpace;
    before := GapOf(s);
    var s1 := SkipSpace(s);
    NameOf(s1);
    after := GapOf(s1[IdentLength(s1)..]);
  }

  lemma {:induction false} RunOf(s: string)
    ensures var n := RunLength(s); '\'' !in s[..n] && s == s[..n] + s[n..]
  {
    if s != "" && s[0] != '\'' {
      RunOf(s[1..]);
      assert s[..RunLength(s)] == [s[0]] + s[1..][..RunLength(s[1..])];
    }
  }

  /** The chunk that a text starting with an apostrophe starts with. */
  lemma {:induction false} ChunkOf(s: string, inPlural: bool) returns (chunk: Chunk)
    requires Starts(s, '\'')
    ensures SpelledPiece(Text(chunk), inPlural) && s == PieceWritten(Text(chunk), Quoted(s).1) && Value(chunk) == Quoted(s).0
    ensures chunk.Unclosed? ==> Quoted(s).1 == ""
  {
    hide RunLength;
    var t := s[1..];
    assert s == "'" + t;
    if Starts(t, '\'') {
      chunk := Doubled;
      assert s == "''" + s[2..];
    } else {
      var n := RunLength(t);
      RunOf(t);
      if n < |t| {
        chunk := Run(t[..n]);
        assert t[n..] == "'" + t[n + 1..] && t[n + 1..] == s[n + 2..];
      } else {
        chunk := Unclosed(t);
        assert t[..n] == t && t == t + "";
      }
    }
  }

  lemma {:induction false} PieceOf(num: nat -> nat, s: string, inPlural: bool) returns (p: Piece)
    requires Placeholder(num, s).Ok?
    ensures var r := Placeholder(num, s);
            SpelledPiece(p, inPlural) && !p.Text? && !p.Hash? && "{" + s == PieceWritten(p, r.rest) && NodeOf(num, p) == r.value
    decreases |s|, 2
  {
    hide PluralCases, SelectCases, SpacedIdent, SkipSpace, White, Name, ArmsWritten, SpelledArms, HasOther, Records;
    var (name, s1) := SpacedIdent(s);
    var before, after := SpacedNameOf(s);
    if Starts(s1, '}') {
      p := Variable(before, name, after);
      assert s1 == "}" + s1[1..];
    } else {
      var t := ArgType(s1[1..]);
      var (kind, u) := SpacedIdent(s1[1..]);
      var beforeType, afterType := SpacedNameOf(s1[1..]);
      var beforeCases := GapOf(u[1..]);
      var h := Head(before, name, after, beforeType, afterType, beforeCases);
      assert u == "," + u[1..] && s1 == "," + s1[1..];
      HeadOf(s, h, kind, s1, u, t.rest);
      if kind == "plural" {
        var arms := PluralArmsOf(num, t.rest, name, map[], map[]);
        p := PluralOf(h, arms);
        RecordsHave(num, arms, map[], map[], "other");
      } else {
        var arms := SelectArmsOf(num, t.rest, name, map[]);
        p := SelectOf(h, arms);
        RecordsHave(num, arms, map[], map[], "other");
      }
      HasOtherIff(p.arms);
    }
  }

  lemma {:induction false} HasOtherIff(arms: seq<Arm>)
    ensures HasOther(arms) <==> exists i :: 0 <= i < |arms| && arms[i].key == Word("other")
  {
  }

  lemma {:induction false} HeadOf(s: string, h: Head, kind: string, s1: string, u: string, rest: string)
    requires s == h.before + (h.name + (h.after + s1)) && s1 == "," + (h.beforeType + (kind + (h.afterType + u)))
    requires u == "," + (h.beforeCases + rest)
    ensures s == HeadWritten(h, kind, rest)
  {
  }

  lemma {:induction false} ArmOf(num: nat -> nat, s: string, inPlural: bool) returns (gap: string, body: seq<Piece>, after: string)
    requires Branch(num, s, inPlural).Ok?
    ensures var r := Branch(num, s, inPlural);
            White(gap) && Spelled(body, inPlural, false) && White(after) && r.value == Meaning(num, body, "") && Clear(r.rest) &&
            s == gap + ("{" + Written(body, "}" + (after + r.rest)))
    decreases |s|, 0
  {
    hide Message, SkipSpace, White, Spelled, Meaning, Written;
    gap := GapOf(s);
    var s1 := SkipSpace(s);
    var m := Message(num, s1[1..], inPlural, true, "");
    body := PiecesOf(num, s1[1..], inPlural, true, "");
    after := GapOf(m.rest[1..]);
    assert m.rest == "}" + m.rest[1..] && s1 == "{" + s1[1..];
  }

  lemma {:induction false} KeyOf(num: nat -> nat, s: string) returns (key: ArmKey)
    requires Clear(s) && CaseKey(num, s).Ok?
    ensures var r := CaseKey(num, s);
            s == KeyWritten(key) + r.rest && (match key case Number(digits) => Number09(digits) case Word(name) => name != "" && Name(name))
    ensures CaseKey(num, s).value == match key case Number(digits) => Exact(num(Val(digits))) case Word(name) => Keyword(name)
  {
    hide IsSpace, IdentLength, DigitsLength, Val, Name, Number09, AllDigits;
    SkipsNothing(s);
    NameOf(s);
    var n := IdentLength(s);
    if s[..n] != "" {
      key := Word(s[..n]);
    } else {
      var d := s[n..][1..];
      DigitsOf(d);
      NumbersAreDigits(d[..DigitsLength(d)]);
      key := Number(d[..DigitsLength(d)]);
      assert s == "=" + d;
      assert s == ("=" + d[..DigitsLength(d)]) + d[DigitsLength(d)..];
    }
  }

  lemma {:induction false} PluralArmsOf(num: nat -> nat, s: string, name: string, exact: map<nat, Body>, cases: map<string, Body>)
    returns (arms: seq<Arm>)
    requires Clear(s) && PluralCases(num, s, name, exact, cases).Ok?
    ensures var r := PluralCases(num, s, name, exact, cases);
            var (e, c) := Records(num, arms, exact, cases);
            SpelledArms(arms, true) && s == ArmsWritten(arms, "}" + r.rest) && r.value == Plural(name, e, c) && "other" in c
    decreases |s|, 1
  {
    hide Branch, CaseKey, KeyWritten, White, Name, Number09, Spelled, Written, Meaning, Clear;
    if s[0] == '}' {
      arms := [];
      assert s == "}" + s[1..];
    } else {
      var key := KeyOf(num, s);
      var k := CaseKey(num, s);
      var gap, body, after := ArmOf(num, k.rest, true);
      var b := Branch(num, k.rest, true);
      var a := Arm(key, gap, body, after);
      var more: seq<Arm>;
      match key {
        case Number(digits) => more := PluralArmsOf(num, b.rest, name, exact[num(Val(digits)) := ArmBody(num, a)], cases);
        case Word(n) => more := PluralArmsOf(num, b.rest, name, exact, cases[n := ArmBody(num, a)]);
      }
      arms := [a] + more;
      assert arms[1..] == more;
    }
  }

  lemma {:induction false} SelectArmsOf(num: nat -> nat, s: string, name: string, cases: map<string, Body>) returns (arms: seq<Arm>)
    requires Clear(s) && SelectCases(num, s, name, cases).Ok?
    ensures var r := SelectCases(num, s, name, cases);
            var c := Records(num, arms, map[], cases).1;
            SpelledArms(arms, false) && (forall i :: 0 <= i < |arms| ==> arms[i].key.Word?) &&
            s == ArmsWritten(arms, "}" + r.rest) && r.value == Select(name, c) && "other" in c
    decreases |s|, 1
  {
    hide Branch, IdentLength, SkipSpace, White, Name, Number09, Spelled, Written, Meaning, Clear;
    if s[0] == '}' {
      arms := [];
      assert s == "}" + s[1..];
    } else {
      SkipsNothing(s);
      NameOf(s);
      var n := IdentLength(s);
      var gap, body, after := ArmOf(num, s[n..], false);
      var b := Branch(num, s[n..], false);
      var a := Arm(Word(s[..n]), gap, body, after);
      var more := SelectArmsOf(num, b.rest, name, cases[s[..n] := ArmBody(num, a)]);
      arms := [a] + more;
      assert arms[1..] == more;
    }
  }

  lemma {:induction false} PiecesOf(num: nat -> nat, s: string, inPlural: bool, nested: bool, buf: string) returns (ps: seq<Piece>)
    requires Message(num, s, inPlural, nested, buf).Ok?
    ensures var r := Message(num, s, inPlural, nested, buf);
            Spelled(ps, inPlural, r.rest == "") && s == Written(ps, r.rest) && r.value == Meaning(num, ps, buf)
    ensures s == "" ==> ps == []
    decreases |s|, 0
  {
    hide Placeholder, Quoted, SpelledPiece, PieceWritten, NodeOf;
    var r := Message(num, s, inPlural, nested, buf);
    if s == "" || (nested && s[0] == '}') {
      ps := [];
    } else {
      var p: Piece;
      var more: seq<Piece>;
      if s[0] == '\'' {
        var chunk := ChunkOf(s, inPlural);
        p := Text(chunk);
        more := PiecesOf(num, Quoted(s).1, inPlural, nested, buf + Quoted(s).0);
      } else if s[0] == '{' {
        p := PieceOf(num, s[1..], inPlural);
        more := PiecesOf(num, Placeholder(num, s[1..]).rest, inPlural, nested, "");
        assert s == "{" + s[1..];
      } else if s[0] == '#' && inPlural {
        p := Hash;
        HashIs(num, s);
        more := PiecesOf(num, s[1..], inPlural, nested, "");
      } else {
        p := Text(Plain(s[0]));
        PlainIs(s, inPlural);
        more := PiecesOf(num, s[1..], inPlural, nested, buf + [s[0]]);
      }
      ps := [p] + more;
      assert ps[1..] == more;
    }
  }

  lemma {:induction false} HashIs(num: nat -> nat, s: string)
    requires Starts(s, '#')
    ensures SpelledPiece(Hash, true) && s == PieceWritten(Hash, s[1..]) && NodeOf(num, Hash) == Pound
  {
  }

  lemma {:induction false} PlainIs(s: string, inPlural: bool)
    requires s != "" && s[0] != '\'' && s[0] != '{' && s[0] != '}' && !(s[0] == '#' && inPlural)
    ensures var p := Text(Plain(s[0])); SpelledPiece(p, inPlural) && s == PieceWritten(p, s[1..]) && Value(p.chunk) == [s[0]]
  {
  }

  // ----- The language -----

  /** With any white space at each place the grammar allows, any quoting and any order of the cases,
      a spelled text parses to what it means. */
  lemma {:induction false} SpelledParses(num: nat -> nat, ps: seq<Piece>)
    requires Spelled(ps, false, true)
    ensures Parse(num, Written(ps, "")) == Ok(Meaning(num, ps, ""), "")
  {
    hide Message, Written, Meaning, Spelled;
    MessageIsRead(num, ps, false, false, "", "");
  }

  /** The parser accepts exactly the spelled texts, each with its meaning. */
  lemma {:induction false} ParseIff(num: nat -> nat, src: string, nodes: seq<Node>)
    ensures Parse(num, src) == Ok(nodes, "") <==>
            exists ps :: Spelled(ps, false, true) && Written(ps, "") == src && Meaning(num, ps, "") == nodes
  {
    hide Message, Written, Meaning, Spelled;
    if Parse(num, src) == Ok(nodes, "") {
      var ps := PiecesOf(num, src, false, false, "");
    }
    forall ps | Spelled(ps, false, true) && Written(ps, "") == src && Meaning(num, ps, "") == nodes
      ensures Parse(num, src) == Ok(nodes, "")
    {
      SpelledParses(num, ps);
    }
  }

  // ----- White space does not matter -----

  /** The second pieces are the first with other white space at any of the places for it. */
  predicate Respaced(ps: seq<Piece>, qs: seq<Piece>)
    decreases ps
  {
    if ps == [] || qs == [] then ps == qs else RespacedPiece(ps[0], qs[0]) && Respaced(ps[1..], qs[1..])
  }

  predicate RespacedPiece(p: Piece, q: Piece)
    decreases p
  {
    match p
    case Text(chunk) => q == p
    case Hash => q == p
    case Variable(_, name, _) => q.Variable? && q.name == name && White(q.before) && White(q.after)
    case PluralOf(head, arms) => q.PluralOf? && SpelledHead(q.head) && q.head.name == head.name && RespacedArms(arms, q.arms)
    case SelectOf(head, arms) => q.SelectOf? && SpelledHead(q.head) && q.head.name == head.name && RespacedArms(arms, q.arms)
  }

  predicate RespacedArms(xs: seq<Arm>, ys: seq<Arm>)
    decreases xs
  {
    if xs == [] || ys == [] then xs == ys else RespacedArm(xs[0], ys[0]) && RespacedArms(xs[1..], ys[1..])
  }

  predicate RespacedArm(x: Arm, y: Arm)
    decreases x
  {
    y.key == x.key && White(y.gap) && White(y.after) && Respaced(x.body, y.body)
  }

  lemma {:induction false} RespacedIsSpelled(num: nat -> nat, ps: seq<Piece>, qs: seq<Piece>, inPlural: bool, final: bool, buf: string)
    requires Spelled(ps, inPlural, final) && Respaced(ps, qs)
    ensures Spelled(qs, inPlural, final) && Meaning(num, qs, buf) == Meaning(num, ps, buf)
    decreases ps, 1
  {
    hide SpelledPiece, NodeOf, Value;
    if ps != [] {
      RespacedPieceIsSpelled(num, ps[0], qs[0], inPlural);
      assert ps[0].Text? ==> qs[0] == ps[0];
      assert |qs| == 1 <==> |ps| == 1 by { RespacedLength(ps[1..], qs[1..]); }
      RespacedIsSpelled(num, ps[1..], qs[1..], inPlural, final, if ps[0].Text? then buf + Value(ps[0].chunk) else "");
    }
  }

  lemma {:induction false} RespacedLength(ps: seq<Piece>, qs: seq<Piece>)
    requires Respaced(ps, qs)
    ensures ps == [] <==> qs == []
  {
  }

  lemma {:induction false} RespacedPieceIsSpelled(num: nat -> nat, p: Piece, q: Piece, inPlural: bool)
    requires SpelledPiece(p, inPlural) && RespacedPiece(p, q)
    ensures SpelledPiece(q, inPlural) && (p.Text? <==> q.Text?) && (!p.Text? ==> NodeOf(num, q) == NodeOf(num, p))
    decreases p
  {
    hide SpelledArms, RespacedArms, Records, White, Name, HasOther;
    if p.PluralOf? {
      RespacedArmsAreSpelled(num, p.arms, q.arms, true, map[], map[]);
    } else if p.SelectOf? {
      RespacedArmsAreSpelled(num, p.arms, q.arms, false, map[], map[]);
    }
  }

  lemma {:induction false} RespacedArmsAreSpelled(num: nat -> nat, xs: seq<Arm>, ys: seq<Arm>, inPlural: bool, exact: map<nat, Body>,
                                                  cases: map<string, Body>)
    requires SpelledArms(xs, inPlural) && RespacedArms(xs, ys)
    ensures SpelledArms(ys, inPlural) && Records(num, ys, exact, cases) == Records(num, xs, exact, cases)
    ensures |xs| == |ys| && (forall i :: 0 <= i < |xs| ==> xs[i].key == ys[i].key) && (HasOther(xs) <==> HasOther(ys))
    decreases xs
  {
    hide Spelled, Respaced, Meaning, White, Name;
    if xs != [] {
      var (x, y) := (xs[0], ys[0]);
      RespacedIsSpelled(num, x.body, y.body, inPlural, false, "");
      match x.key {
        case Number(digits) =>
          RespacedArmsAreSpelled(num, xs[1..], ys[1..], inPlural, exact[num(Val(digits)) := ArmBody(num, x)], cases);
        case Word(name) => RespacedArmsAreSpelled(num, xs[1..], ys[1..], inPlural, exact, cases[name := ArmBody(num, x)]);
      }
      assert forall i :: 0 <= i < |xs| ==> xs[i].key == ys[i].key by {
        assert forall i :: 0 < i < |xs| ==> xs[i] == xs[1..][i - 1] && ys[i] == ys[1..][i - 1];
      }
    }
  }

  /** Every normal-form tree has a spelling, and parses back from it with any other white space at
      the places for it: around names and types, after commas, around keys and after each case. */
  lemma {:induction false} SpacesDoNotMatter(num: nat -> nat, nodes: seq<Node>)
    requires Normal(num, nodes, false)
    ensures exists ps :: Spelled(ps, false, true) && Written(ps, "") == Print(nodes, false) &&
                         forall qs :: Respaced(ps, qs) ==> Parse(num, Written(qs, "")) == Ok(nodes, "")
  {
    hide Message, Written, Meaning, Spelled, Respaced, Normal, Print, Parse;
    ParseUndoesPrint(num, nodes);
    ParseIff(num, Print(nodes, false), nodes);
    var ps :| Spelled(ps, false, true) && Written(ps, "") == Print(nodes, false) && Meaning(num, ps, "") == nodes;
    forall qs | Respaced(ps, qs) ensures Parse(num, Written(qs, "")) == Ok(nodes, "") {
      RespacedIsSpelled(num, ps, qs, false, true, "");
      SpelledParses(num, qs);
    }
  }
}
