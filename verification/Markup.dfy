/** Message parts as safe HTML (runtimes/go/markup.go): the tree of text and safe elements, its
    serialization, and what that serialization means. */
module Markup {
  import opened Brackets

  /** A formatted part: a value that renders as its text, or markup. */
  datatype Part = Value(text: string) | Tag(kind: Kind, name: string)

  const SAFE_TAGS: set<string> :=
    {"b", "strong", "i", "em", "u", "s", "small", "mark", "sub", "sup", "code", "kbd", "samp", "var", "abbr", "cite", "dfn", "q",
     "del", "ins", "bdi", "span", "br", "wbr"}

  const VOID_TAGS: set<string> := {"br", "wbr"}

  predicate Safe(name: string) {
    name in SAFE_TAGS
  }

  predicate Void(name: string) {
    name in VOID_TAGS
  }

  datatype Tree = Text(text: string) | Node(tag: string, children: seq<Tree>)

  /** PartsText: the values, joined. */
  function PartsText(parts: seq<Part>): string {
    if parts == [] then "" else (if parts[0].Value? then parts[0].text else "") + PartsText(parts[1..])
  }

  // ----- Building the tree -----

  /** An open element: its name, and whether it is safe and so has a node. */
  datatype Entry = Entry(name: string, safe: bool)

  /** An open node and its children so far, the next open node not among them. */
  datatype Level = Level(tag: string, kids: seq<Tree>)

  /** The stack of open elements, and the levels of the tree on its rightmost spine: the root,
      then the node of each safe open element. */
  datatype Building = Building(stack: seq<Entry>, levels: seq<Level>)

  function SafeNames(stack: seq<Entry>): seq<string> {
    if stack == [] then [] else (if stack[0].safe then [stack[0].name] else []) + SafeNames(stack[1..])
  }

  function Tags(levels: seq<Level>): seq<string> {
    seq(|levels|, i requires 0 <= i < |levels| => levels[i].tag)
  }

  predicate Fits(b: Building) {
    b.levels != [] && Tags(b.levels[1..]) == SafeNames(b.stack)
  }

  /** pushText: merges with a text just before. */
  function AddText(kids: seq<Tree>, s: string): seq<Tree> {
    if s == "" then kids
    else if kids != [] && kids[|kids| - 1].Text? then kids[..|kids| - 1] + [Text(kids[|kids| - 1].text + s)]
    else kids + [Text(s)]
  }

  function OnTop(levels: seq<Level>, kids: seq<Tree>): seq<Level>
    requires levels != []
  {
    levels[..|levels| - 1] + [levels[|levels| - 1].(kids := kids)]
  }

  function Top(levels: seq<Level>): seq<Tree>
    requires levels != []
  {
    levels[|levels| - 1].kids
  }

  /** The innermost level becomes a child of the one around it. */
  function Collapse(levels: seq<Level>): seq<Level>
    requires |levels| >= 2
  {
    var last := levels[|levels| - 1];
    var below := levels[..|levels| - 1];
    OnTop(below, Top(below) + [Node(last.tag, last.kids)])
  }

  function CloseLevels(levels: seq<Level>, n: nat): (r: seq<Level>)
    requires n < |levels|
    ensures |r| == |levels| - n
    decreases n
  {
    if n == 0 then levels else CloseLevels(Collapse(levels), n - 1)
  }

  /** The innermost open element of that name, or -1. */
  function LastNamed(stack: seq<Entry>, name: string): (i: int)
    ensures -1 <= i < |stack| && (i >= 0 ==> stack[i].name == name)
  {
    if stack == [] then -1
    else if stack[|stack| - 1].name == name then |stack| - 1
    else LastNamed(stack[..|stack| - 1], name)
  }

  predicate Standing(p: Part)
    requires p.Tag?
  {
    p.kind.StandaloneKind? || (p.kind.OpenKind? && Void(p.name))
  }

  lemma {:induction false} SafeNamesSplit(stack: seq<Entry>, i: nat)
    requires i <= |stack|
    ensures SafeNames(stack) == SafeNames(stack[..i]) + SafeNames(stack[i..])
  {
    if i == 0 {
      assert stack[0..] == stack && stack[..0] == [];
    } else {
      SafeNamesSplit(stack[1..], i - 1);
      assert stack[..i][1..] == stack[1..][..i - 1] && stack[i..] == stack[1..][i - 1..];
      assert stack[..i][0] == stack[0];
    }
  }

  /** One part: text, a void element, an open, or a close with everything opened since. */
  function Step(b: Building, p: Part): Building
    requires Fits(b)
  {
    if p.Value? then b.(levels := OnTop(b.levels, AddText(Top(b.levels), p.text)))
    else if Standing(p) then
      if Safe(p.name) && Void(p.name) then b.(levels := OnTop(b.levels, Top(b.levels) + [Node(p.name, [])])) else b
    else if p.kind.OpenKind? then
      Building(b.stack + [Entry(p.name, Safe(p.name))], if Safe(p.name) then b.levels + [Level(p.name, [])] else b.levels)
    else
      var i := LastNamed(b.stack, p.name);
      if i < 0 then b
      else
        SafeNamesSplit(b.stack, i);
        Building(b.stack[..i], CloseLevels(b.levels, |SafeNames(b.stack[i..])|))
  }

  lemma {:induction false} SameTags(levels: seq<Level>, kids: seq<Tree>)
    requires levels != []
    ensures Tags(OnTop(levels, kids)[1..]) == Tags(levels[1..])
  {
  }

  lemma {:induction false} CloseTags(levels: seq<Level>, n: nat)
    requires n < |levels|
    ensures Tags(CloseLevels(levels, n)[1..]) == Tags(levels[1..])[..|levels| - 1 - n]
    decreases n
  {
    hide CloseLevels;
    CloseOnce(levels, n);
    if n > 0 {
      var below := levels[..|levels| - 1];
      CloseTags(Collapse(levels), n - 1);
      SameTags(below, Top(below) + [Node(levels[|levels| - 1].tag, levels[|levels| - 1].kids)]);
      assert Tags(below[1..]) == Tags(levels[1..])[..|levels| - 2];
    } else {
      assert Tags(levels[1..])[..|levels| - 1] == Tags(levels[1..]);
    }
  }

  lemma {:induction false} CloseOnce(levels: seq<Level>, n: nat)
    requires n < |levels|
    ensures CloseLevels(levels, n) == if n == 0 then levels else CloseLevels(Collapse(levels), n - 1)
  {
  }

  lemma {:induction false} SafeNamesPush(stack: seq<Entry>, e: Entry)
    ensures SafeNames(stack + [e]) == SafeNames(stack) + if e.safe then [e.name] else []
  {
    SafeNamesSplit(stack + [e], |stack|);
    assert (stack + [e])[..|stack|] == stack && (stack + [e])[|stack|..] == [e];
    assert [e][1..] == [];
  }

  lemma {:induction false} StepFits(b: Building, p: Part)
    requires Fits(b)
    ensures Fits(Step(b, p))
  {
    hide CloseLevels, SafeNames, LastNamed, AddText, Safe, Void;
    if p.Value? {
      SameTags(b.levels, AddText(Top(b.levels), p.text));
    } else if Standing(p) {
      SameTags(b.levels, Top(b.levels) + [Node(p.name, [])]);
    } else if p.kind.OpenKind? {
      SafeNamesPush(b.stack, Entry(p.name, Safe(p.name)));
      assert (b.levels + [Level(p.name, [])])[1..] == b.levels[1..] + [Level(p.name, [])];
    } else {
      var i := LastNamed(b.stack, p.name);
      if i >= 0 {
        SafeNamesSplit(b.stack, i);
        CloseTags(b.levels, |SafeNames(b.stack[i..])|);
      }
    }
  }

  function Build(b: Building, parts: seq<Part>): (r: Building)
    requires Fits(b)
    ensures Fits(r)
    decreases |parts|
  {
    if parts == [] then b
    else
      StepFits(b, parts[0]);
      Build(Step(b, parts[0]), parts[1..])
  }

  /** What is still open closes at the end. */
  function Finish(levels: seq<Level>): seq<Tree>
    requires levels != []
  {
    levels[0].kids + if |levels| == 1 then [] else [Node(levels[1].tag, Finish(levels[1..]))]
  }

  const START := Building([], [Level("", [])])

  /** partsTree. */
  function PartsTree(parts: seq<Part>): seq<Tree> {
    Finish(Build(START, parts).levels)
  }

  // ----- HTML -----

  function EscapeChar(c: char): string {
    if c == '&' then "&amp;" else if c == '<' then "&lt;" else if c == '>' then "&gt;" else [c]
  }

  function EscapeText(s: string): string {
    if s == "" then "" else EscapeChar(s[0]) + EscapeText(s[1..])
  }

  function OpenTag(tag: string): string {
    "<" + (tag + ">")
  }

  function CloseTag(tag: string): string {
    "</" + (tag + ">")
  }

  /** writeHTML. */
  function Html(nodes: seq<Tree>): string {
    if nodes == [] then ""
    else
      var first :=
        match nodes[0]
        case Text(text) => EscapeText(text)
        case Node(tag, children) =>
          if !Safe(tag) then "" else if Void(tag) then OpenTag(tag) else OpenTag(tag) + (Html(children) + CloseTag(tag));
      first + Html(nodes[1..])
  }

  function PartsHtml(parts: seq<Part>): string {
    Html(PartsTree(parts))
  }

  // ----- HTML as a stream -----

  /** End tags, innermost first. */
  function EndTags(tags: seq<string>): string {
    if tags == [] then "" else EndTags(tags[1..]) + CloseTag(tags[0])
  }

  /** What the remaining parts write, straight out and with no tree: an open safe element writes
      its start tag, a close the end tags of the safe elements it closes, the end all the rest. */
  function Stream(stack: seq<Entry>, parts: seq<Part>): string
    decreases |parts|
  {
    if parts == [] then EndTags(SafeNames(stack))
    else
      var p := parts[0];
      if p.Value? then EscapeText(p.text) + Stream(stack, parts[1..])
      else if Standing(p) then (if Safe(p.name) && Void(p.name) then OpenTag(p.name) else "") + Stream(stack, parts[1..])
      else if p.kind.OpenKind? then
        (if Safe(p.name) then OpenTag(p.name) else "") + Stream(stack + [Entry(p.name, Safe(p.name))], parts[1..])
      else
        var i := LastNamed(stack, p.name);
        if i < 0 then Stream(stack, parts[1..])
        else EndTags(SafeNames(stack[i..])) + Stream(stack[..i], parts[1..])
  }
}
