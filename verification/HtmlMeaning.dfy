/** What the HTML of a message means: its text without the tags, and the nesting of its tags. */
module HtmlMeaning {
  import opened Brackets
  import opened Markup
  import opened MarkupProofs
  import opened Decimals

  // ----- Reading HTML -----

  /** What follows the next '>'. */
  function AfterTag(s: string): (r: string)
    ensures s != "" ==> |r| < |s|
  {
    var i := IndexOf(s, '>');
    if i < |s| then s[i + 1..] else ""
  }

  /** The text of HTML: tags dropped, the three entities unescaped. */
  function Strip(s: string): string
    decreases |s|
  {
    if s == "" then ""
    else if s[0] == '<' then Strip(AfterTag(s))
    else if s[0] == '&' && |s| >= 5 && s[..5] == "&amp;" then "&" + Strip(s[5..])
    else if s[0] == '&' && |s| >= 4 && s[..4] == "&lt;" then "<" + Strip(s[4..])
    else if s[0] == '&' && |s| >= 4 && s[..4] == "&gt;" then ">" + Strip(s[4..])
    else [s[0]] + Strip(s[1..])
  }

  /** The bracket a tag stands for: void elements stand for none. */
  function BracketOf(name: string): seq<Bracket> {
    if name != "" && name[0] == '/' then [Close(name[1..])]
    else if Void(name) then []
    else [Open(name)]
  }

  /** The start and end tags of HTML, void elements left out. */
  function TagsOf(s: string): seq<Bracket>
    decreases |s|
  {
    if s == "" then []
    else if s[0] == '<' then BracketOf(s[1..][..IndexOf(s[1..], '>')]) + TagsOf(AfterTag(s))
    else TagsOf(s[1..])
  }

  // ----- Escaped text -----

  lemma {:induction false} StripEscaped(c: char, r: string)
    ensures Strip(EscapeChar(c) + r) == [c] + Strip(r)
  {
    var e := EscapeChar(c);
    var s := e + r;
    assert s[..|e|] == e && s[|e|..] == r;
    if c == '&' {
      assert s[..5] == "&amp;";
    } else if c == '<' {
      assert s[..4] == "&lt;";
      assert |s| >= 5 ==> s[..5][1] == 'l';
    } else if c == '>' {
      assert s[..4] == "&gt;";
      assert |s| >= 5 ==> s[..5][1] == 'g';
    }
  }

  lemma {:induction false} StripText(t: string, r: string)
    ensures Strip(EscapeText(t) + r) == t + Strip(r)
  {
    hide Strip, EscapeChar;
    if t == "" {
      assert "" + r == r && "" + Strip(r) == Strip(r);
    } else {
      assert EscapeText(t) + r == EscapeChar(t[0]) + (EscapeText(t[1..]) + r);
      StripEscaped(t[0], EscapeText(t[1..]) + r);
      StripText(t[1..], r);
      assert t + Strip(r) == [t[0]] + (t[1..] + Strip(r));
    }
  }

  lemma {:induction false} TagsPlain(e: string, r: string)
    requires '<' !in e
    ensures TagsOf(e + r) == TagsOf(r)
    decreases |e|
  {
    if e == "" {
      assert e + r == r;
    } else {
      assert (e + r)[1..] == e[1..] + r && (e + r)[0] == e[0];
      TagsPlain(e[1..], r);
    }
  }

  lemma {:induction false} EscapedIsPlain(t: string)
    ensures '<' !in EscapeText(t)
  {
    if t != "" {
      EscapedIsPlain(t[1..]);
    }
  }

  // ----- Tags -----

  lemma {:induction false} SafeIsPlain(tag: string)
    requires Safe(tag)
    ensures tag != "" && '>' !in tag && '/' !in tag
  {
  }

  /** Reading past one tag, whose name has no '>'. */
  lemma {:induction false} ReadTag(name: string, r: string)
    requires '>' !in name
    ensures var s := "<" + (name + ">") + r;
            Strip(s) == Strip(r) && TagsOf(s) == BracketOf(name) + TagsOf(r)
  {
    hide IndexOf, BracketOf;
    var s := "<" + (name + ">") + r;
    assert s == "<" + (name + (">" + r)) && s[0] == '<';
    var body := "<" + name;
    assert s == body + (">" + r);
    IndexOfFirst(body, '>', ">" + r);
    assert s[|body| + 1..] == r;
    assert AfterTag(s) == r;
    assert s[1..] == name + (">" + r);
    IndexOfFirst(name, '>', ">" + r);
  }

  lemma {:induction false} ReadOpen(tag: string, r: string)
    requires Safe(tag)
    ensures Strip(OpenTag(tag) + r) == Strip(r)
    ensures TagsOf(OpenTag(tag) + r) == (if Void(tag) then [] else [Open(tag)]) + TagsOf(r)
  {
    hide Strip, TagsOf, Safe, Void;
    SafeIsPlain(tag);
    ReadTag(tag, r);
    assert tag[0] in tag;
  }

  lemma {:induction false} ReadClose(tag: string, r: string)
    requires Safe(tag)
    ensures Strip(CloseTag(tag) + r) == Strip(r)
    ensures TagsOf(CloseTag(tag) + r) == [Close(tag)] + TagsOf(r)
  {
    hide Strip, TagsOf, Safe, Void;
    SafeIsPlain(tag);
    ReadTag("/" + tag, r);
    assert "</" + (tag + ">") == "<" + (("/" + tag) + ">");
    assert ("/" + tag)[1..] == tag;
  }

  predicate AllProper(tags: seq<string>) {
    forall t :: t in tags ==> Safe(t) && !Void(t)
  }

  /** The end tags of the open names read back as their closes, innermost first. */
  lemma {:induction false} ReadEndTags(below: seq<string>, tags: seq<string>, r: string)
    requires AllProper(tags)
    ensures Strip(EndTags(tags) + r) == Strip(r)
    ensures Accepts(TagsOf(EndTags(tags) + r), below + tags) <==> Accepts(TagsOf(r), below)
    decreases |tags|
  {
    hide Strip, TagsOf, CloseTag, Safe, Void, Accepts;
    if tags == [] {
      assert EndTags([]) + r == r && below + tags == below;
    } else {
      var t, rest := tags[0], tags[1..];
      var after := CloseTag(t) + r;
      assert EndTags(tags) + r == EndTags(rest) + after;
      assert below + tags == (below + [t]) + rest;
      ReadEndTags(below + [t], rest, after);
      ReadClose(t, r);
      AcceptsClose(t, TagsOf(r), below);
    }
  }

  lemma {:induction false} AcceptsClose(t: string, rest: seq<Bracket>, below: seq<string>)
    ensures Accepts([Close(t)] + rest, below + [t]) <==> Accepts(rest, below)
  {
    assert ([Close(t)] + rest)[1..] == rest;
    assert (below + [t])[..|below|] == below;
  }

  lemma {:induction false} AcceptsOpen(t: string, rest: seq<Bracket>, open: seq<string>)
    ensures Accepts([Open(t)] + rest, open) <==> Accepts(rest, open + [t])
  {
    assert ([Open(t)] + rest)[1..] == rest;
  }

  // ----- The stream -----

  predicate Marked(stack: seq<Entry>) {
    forall e :: e in stack ==> (e.safe <==> Safe(e.name)) && !Void(e.name)
  }

  lemma {:induction false} MarkedNames(stack: seq<Entry>)
    requires Marked(stack)
    ensures AllProper(SafeNames(stack))
  {
    hide Safe, Void;
    if stack != [] {
      assert stack[0] in stack;
      MarkedNames(stack[1..]);
    }
  }

  lemma {:induction false} PieceMeans(stack: seq<Entry>, p: Part, r: string)
    requires Marked(stack)
    ensures Marked(NextStack(stack, p))
    ensures Strip(Piece(stack, p) + r) == (if p.Value? then p.text else "") + Strip(r)
    ensures Accepts(TagsOf(Piece(stack, p) + r), SafeNames(stack)) <==> Accepts(TagsOf(r), SafeNames(NextStack(stack, p)))
  {
    hide Strip, TagsOf, OpenTag, EscapeText, EndTags, SafeNames, LastNamed, Safe, Void, Accepts;
    assert "" + r == r && "" + Strip(r) == Strip(r) && [] + TagsOf(r) == TagsOf(r);
    if p.Value? {
      StripText(p.text, r);
      EscapedIsPlain(p.text);
      TagsPlain(EscapeText(p.text), r);
    } else if Standing(p) {
      if Safe(p.name) && Void(p.name) {
        ReadOpen(p.name, r);
      }
    } else if p.kind.OpenKind? {
      SafeNamesPush(stack, Entry(p.name, Safe(p.name)));
      if Safe(p.name) {
        ReadOpen(p.name, r);
        AcceptsOpen(p.name, TagsOf(r), SafeNames(stack));
      } else {
        assert SafeNames(stack) + [] == SafeNames(stack);
      }
    } else if LastNamed(stack, p.name) >= 0 {
      var i := LastNamed(stack, p.name);
      SafeNamesSplit(stack, i);
      assert Marked(stack[i..]) && Marked(stack[..i]);
      MarkedNames(stack[i..]);
      ReadEndTags(SafeNames(stack[..i]), SafeNames(stack[i..]), r);
    }
  }

  lemma {:induction false} StreamMeans(stack: seq<Entry>, parts: seq<Part>)
    requires Marked(stack)
    ensures Strip(Stream(stack, parts)) == PartsText(parts)
    ensures Accepts(TagsOf(Stream(stack, parts)), SafeNames(stack))
    decreases |parts|
  {
    hide Strip, TagsOf, Stream, SafeNames, Accepts, Piece, NextStack, Marked;
    if parts == [] {
      StreamEndMeans(stack);
    } else {
      var p, rest := parts[0], parts[1..];
      assert [p] + rest == parts;
      StreamNext(stack, p, rest);
      PieceMeans(stack, p, Stream(NextStack(stack, p), rest));
      StreamMeans(NextStack(stack, p), rest);
    }
  }

  lemma {:induction false} StreamEndMeans(stack: seq<Entry>)
    requires Marked(stack)
    ensures Strip(Stream(stack, [])) == "" && Accepts(TagsOf(Stream(stack, [])), SafeNames(stack))
  {
    hide SafeNames, Safe, Void, CloseTag, EndTags;
    MarkedNames(stack);
    ReadEndTags([], SafeNames(stack), "");
    assert EndTags(SafeNames(stack)) + "" == EndTags(SafeNames(stack));
    assert [] + SafeNames(stack) == SafeNames(stack);
  }

  /** For every part list, dropping the tags of its HTML and unescaping the entities gives the
      values of its parts joined, and the non-void tags are well nested. */
  lemma {:induction false} HtmlInvertsToText(parts: seq<Part>)
    ensures Strip(PartsHtml(parts)) == PartsText(parts) && Balanced(TagsOf(PartsHtml(parts)))
  {
    hide Strip, TagsOf, Stream, Accepts, PartsHtml;
    HtmlIsStream(parts);
    StreamMeans([], parts);
    AcceptsIsBalanced(TagsOf(PartsHtml(parts)));
  }

  // ----- Which names become elements -----

  /** One element of that name around a text. */
  function Element(name: string, text: string): seq<Part> {
    [Tag(OpenKind, name), Value(text), Tag(CloseKind, name)]
  }

  /** Markup of twenty-two names becomes an element around its content, br and wbr become a tag
      before it, and any other name leaves its content alone. */
  lemma {:induction false} SafeNamesBecomeTags(name: string, text: string)
    ensures PartsHtml(Element(name, text)) ==
            if name in {"b", "strong", "i", "em", "u", "s", "small", "mark", "sub", "sup", "code", "kbd", "samp", "var", "abbr",
                        "cite", "dfn", "q", "del", "ins", "bdi", "span"}
            then "<" + name + ">" + EscapeText(text) + "</" + name + ">"
            else if name in {"br", "wbr"} then "<" + name + ">" + EscapeText(text)
            else EscapeText(text)
  {
    hide PartsHtml, EscapeText;
    HtmlIsStream(Element(name, text));
    ElementStream(name, text);
    assert (Safe(name) && !Void(name)) == (name in SAFE_TAGS - VOID_TAGS);
  }

  lemma {:induction false} ElementStream(name: string, text: string)
    ensures var e := EscapeText(text);
            Stream([], Element(name, text)) ==
            if !Safe(name) then e
            else if Void(name) then "<" + name + ">" + e
            else "<" + name + ">" + e + "</" + name + ">"
  {
    hide EscapeText, Safe, Void, Stream;
    var (open, value, close) := (Tag(OpenKind, name), Value(text), Tag(CloseKind, name));
    assert Element(name, text) == [open] + ([value] + ([close] + []));
    var stack := if Void(name) then [] else [Entry(name, Safe(name))];
    assert [] + [Entry(name, Safe(name))] == [Entry(name, Safe(name))];
    StreamNext([], open, [value] + ([close] + []));
    StreamNext(stack, value, [close] + []);
    assert [close] + [] == [close];
    CloseStream(name);
    assert EscapeText(text) + "" == EscapeText(text);
    assert "</" + (name + ">") == "</" + name + ">";
  }

  lemma {:induction false} CloseStream(name: string)
    ensures Stream([], [Tag(CloseKind, name)]) == ""
    ensures Stream([Entry(name, Safe(name))], [Tag(CloseKind, name)]) == if Safe(name) then CloseTag(name) else ""
  {
    hide Safe, Void;
    var parts := [Tag(CloseKind, name)];
    var stack := [Entry(name, Safe(name))];
    assert parts[1..] == [];
    assert LastNamed([], name) == -1;
    assert LastNamed(stack, name) == 0 && stack[0..] == stack && stack[..0] == [] && stack[1..] == [];
    assert SafeNames(stack) == if Safe(name) then [name] else [];
    assert [name][1..] == [];
    assert "" + CloseTag(name) == CloseTag(name);
  }

  // ----- Balanced markup keeps its tags -----

  function Names(stack: seq<Entry>): (r: seq<string>)
    ensures |r| == |stack| && forall i :: 0 <= i < |r| ==> r[i] == stack[i].name
  {
    seq(|stack|, i requires 0 <= i < |stack| => stack[i].name)
  }

  /** The opens and closes of the parts; br and wbr need no close and are none. */
  function BracketsOf(parts: seq<Part>): seq<Bracket> {
    if parts == [] then [] else PartBrackets(parts[0]) + BracketsOf(parts[1..])
  }

  function PartBrackets(p: Part): seq<Bracket> {
    if p.Value? || p.kind.StandaloneKind? then []
    else if p.kind.CloseKind? then [Close(p.name)]
    else if p.name in {"br", "wbr"} then []
    else [Open(p.name)]
  }

  function SafeOnly(bs: seq<Bracket>): seq<Bracket> {
    if bs == [] then [] else (if Safe(bs[0].name) then [bs[0]] else []) + SafeOnly(bs[1..])
  }

  lemma {:induction false} SafeOnlyNext(b: Bracket, rest: seq<Bracket>)
    ensures SafeOnly([b] + rest) == (if Safe(b.name) then [b] else []) + SafeOnly(rest)
  {
    hide Safe;
    assert ([b] + rest)[1..] == rest;
  }

  lemma {:induction false} PushedNames(stack: seq<Entry>, e: Entry)
    ensures Names(stack + [e]) == Names(stack) + [e.name]
  {
  }

  lemma {:induction false} BalancedClose(stack: seq<Entry>, name: string, r: string)
    requires Marked(stack) && stack != [] && stack[|stack| - 1].name == name
    ensures var p := Tag(CloseKind, name);
            NextStack(stack, p) == stack[..|stack| - 1] &&
            TagsOf(Piece(stack, p) + r) == (if Safe(name) then [Close(name)] else []) + TagsOf(r)
  {
    hide TagsOf, Safe, Void, CloseTag;
    var n := |stack| - 1;
    assert LastNamed(stack, name) == n;
    assert stack[n..] == [stack[n]] && stack[n..][1..] == [];
    assert stack[n] in stack;
    if Safe(name) {
      assert [name][1..] == [];
      assert EndTags([name]) == "" + CloseTag(name) == CloseTag(name);
      ReadClose(name, r);
    } else {
      assert SafeNames(stack[n..]) == [] && EndTags([]) == "";
      assert "" + r == r && [] + TagsOf(r) == TagsOf(r);
    }
  }

  lemma {:induction false} BalancedPiece(stack: seq<Entry>, p: Part, rest: seq<Bracket>, r: string)
    requires Marked(stack) && Accepts(PartBrackets(p) + rest, Names(stack))
    ensures Accepts(rest, Names(NextStack(stack, p)))
    ensures TagsOf(Piece(stack, p) + r) == SafeOnly(PartBrackets(p)) + TagsOf(r)
  {
    hide TagsOf, OpenTag, EscapeText, Piece, NextStack, LastNamed, Safe, Accepts, Names, SafeOnly;
    if p.Value? {
      BalancedValue(stack, p, r);
      assert [] + rest == rest;
    } else if p.kind.CloseKind? {
      AcceptsClosed(p.name, rest, Names(stack));
      BalancedClose(stack, p.name, r);
      OneSafe(Close(p.name));
      assert Names(stack)[..|stack| - 1] == Names(stack[..|stack| - 1]);
    } else if p.kind.StandaloneKind? || p.name in {"br", "wbr"} {
      BalancedValue(stack, p, r);
      assert [] + rest == rest;
    } else {
      AcceptsOpen(p.name, rest, Names(stack));
      BalancedOpen(stack, p, r);
      OneSafe(Open(p.name));
    }
  }

  lemma {:induction false} AcceptsClosed(name: string, rest: seq<Bracket>, open: seq<string>)
    requires Accepts([Close(name)] + rest, open)
    ensures open != [] && open[|open| - 1] == name && Accepts(rest, open[..|open| - 1])
  {
    assert ([Close(name)] + rest)[1..] == rest;
  }

  lemma {:induction false} OneSafe(b: Bracket)
    ensures SafeOnly([b]) == if Safe(b.name) then [b] else []
  {
    hide Safe;
    SafeOnlyNext(b, []);
    assert [b] + [] == [b];
  }

  /** A value or a void element adds no bracket. */
  lemma {:induction false} BalancedValue(stack: seq<Entry>, p: Part, r: string)
    requires p.Value? || p.kind.StandaloneKind? || (p.kind.OpenKind? && p.name in {"br", "wbr"})
    ensures NextStack(stack, p) == stack && SafeOnly(PartBrackets(p)) == [] && TagsOf(Piece(stack, p) + r) == [] + TagsOf(r)
  {
    hide TagsOf, EscapeText, OpenTag;
    if p.Value? {
      EscapedIsPlain(p.text);
      TagsPlain(EscapeText(p.text), r);
    } else if Safe(p.name) && Void(p.name) {
      ReadOpen(p.name, r);
    } else {
      assert "" + r == r;
    }
  }

  lemma {:induction false} BalancedOpen(stack: seq<Entry>, p: Part, r: string)
    requires p.Tag? && p.kind.OpenKind? && p.name !in {"br", "wbr"}
    ensures Names(NextStack(stack, p)) == Names(stack) + [p.name]
    ensures TagsOf(Piece(stack, p) + r) == (if Safe(p.name) then [Open(p.name)] else []) + TagsOf(r)
  {
    hide TagsOf, OpenTag, Safe, Names;
    PushedNames(stack, Entry(p.name, Safe(p.name)));
    if Safe(p.name) {
      ReadOpen(p.name, r);
    } else {
      assert "" + r == r;
    }
  }

  lemma {:induction false} BalancedStream(stack: seq<Entry>, parts: seq<Part>)
    requires Marked(stack) && Accepts(BracketsOf(parts), Names(stack))
    ensures TagsOf(Stream(stack, parts)) == SafeOnly(BracketsOf(parts))
    decreases |parts|
  {
    hide TagsOf, Stream, Piece, NextStack, Marked, PartBrackets, SafeOnly, Names;
    if parts == [] {
      BalancedEnd(stack);
    } else {
      var p, rest := parts[0], parts[1..];
      assert [p] + rest == parts;
      var next := NextStack(stack, p);
      var more := Stream(next, rest);
      StreamNext(stack, p, rest);
      PieceMeans(stack, p, more);
      BalancedPiece(stack, p, BracketsOf(rest), more);
      BalancedStream(next, rest);
      SafeOnlyConcat(PartBrackets(p), BracketsOf(rest));
    }
  }

  lemma {:induction false} BalancedEnd(stack: seq<Entry>)
    requires Accepts([], Names(stack))
    ensures TagsOf(Stream(stack, [])) == SafeOnly(BracketsOf([]))
  {
    assert stack == [];
  }

  lemma {:induction false} SafeOnlyConcat(a: seq<Bracket>, b: seq<Bracket>)
    ensures SafeOnly(a + b) == SafeOnly(a) + SafeOnly(b)
  {
    hide Safe;
    if a == [] {
      assert a + b == b;
    } else {
      assert (a + b)[1..] == a[1..] + b;
      SafeOnlyConcat(a[1..], b);
    }
  }

  /** When the markup of the parts is balanced, the HTML's start and end tags are exactly the opens and
      closes of safe elements, in order: a close closes the innermost open element of its name. */
  lemma {:induction false} BalancedMarkupKeepsTags(parts: seq<Part>)
    requires Balanced(BracketsOf(parts))
    ensures TagsOf(PartsHtml(parts)) == SafeOnly(BracketsOf(parts))
  {
    hide TagsOf, Stream, Accepts, PartsHtml, SafeOnly, BracketsOf, Balanced;
    HtmlIsStream(parts);
    AcceptsIsBalanced(BracketsOf(parts));
    assert Names([]) == [];
    BalancedStream([], parts);
  }
}
