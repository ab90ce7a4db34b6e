/** The tree serializes to what the parts stream out; that is well nested and inverts to the text. */
module MarkupProofs {
  import opened Markup

  // ----- The tree against the stream -----

  /** Every open node is a safe element that is not void. */
  predicate Proper(levels: seq<Level>) {
    forall i :: 1 <= i < |levels| ==> Safe(levels[i].tag) && !Void(levels[i].tag)
  }

  lemma {:induction false} HtmlAppend(a: seq<Tree>, b: seq<Tree>)
    ensures Html(a + b) == Html(a) + Html(b)
    decreases |a|
  {
    hide EscapeText, Safe, Void, OpenTag, CloseTag;
    if a == [] {
      assert a + b == b;
    } else {
      assert (a + b)[1..] == a[1..] + b && (a + b)[0] == a[0];
      HtmlAppend(a[1..], b);
    }
  }

  lemma {:induction false} HtmlOne(t: Tree)
    ensures Html([t]) == match t
                         case Text(text) => EscapeText(text)
                         case Node(tag, children) =>
                           if !Safe(tag) then "" else if Void(tag) then OpenTag(tag)
                           else OpenTag(tag) + (Html(children) + CloseTag(tag))
  {
    hide EscapeText, Safe, Void, OpenTag, CloseTag;
    assert [t][1..] == [];
  }

  /** What the levels have written when their nodes are still open. */
  function Written(levels: seq<Level>): string
    requires levels != []
  {
    if |levels| == 1 then Html(levels[0].kids)
    else Written(levels[..|levels| - 1]) + (OpenTag(levels[|levels| - 1].tag) + Html(levels[|levels| - 1].kids))
  }

  lemma {:induction false} WrittenTop(levels: seq<Level>, kids: seq<Tree>, more: string)
    requires levels != [] && Html(kids) == Html(Top(levels)) + more
    ensures Written(OnTop(levels, kids)) == Written(levels) + more
  {
    hide Html, OpenTag;
    assert OnTop(levels, kids)[..|levels| - 1] == levels[..|levels| - 1];
  }

  lemma {:induction false} WrittenPush(levels: seq<Level>, tag: string)
    requires levels != []
    ensures Written(levels + [Level(tag, [])]) == Written(levels) + OpenTag(tag)
  {
    hide OpenTag;
    var next := levels + [Level(tag, [])];
    assert next[..|levels|] == levels && Html([]) == "";
  }

  lemma {:induction false} WrittenCollapse(levels: seq<Level>)
    requires |levels| >= 2 && Proper(levels)
    ensures Written(Collapse(levels)) == Written(levels) + CloseTag(levels[|levels| - 1].tag)
  {
    hide Html, OpenTag, CloseTag, Safe, Void;
    var last, below := levels[|levels| - 1], levels[..|levels| - 1];
    var node := Node(last.tag, last.kids);
    HtmlOne(node);
    HtmlAppend(Top(below), [node]);
    WrittenTop(below, Top(below) + [node], Html([node]));
  }

  lemma {:induction false} EndTagsAppend(tags: seq<string>, tag: string)
    ensures EndTags(tags + [tag]) == CloseTag(tag) + EndTags(tags)
  {
    hide CloseTag;
    if tags == [] {
      assert [tag][1..] == [];
    } else {
      assert (tags + [tag])[1..] == tags[1..] + [tag];
      EndTagsAppend(tags[1..], tag);
    }
  }

  lemma {:induction false} CollapseIsProper(levels: seq<Level>)
    requires |levels| >= 2 && Proper(levels)
    ensures Proper(Collapse(levels)) && Tags(Collapse(levels)) == Tags(levels)[..|levels| - 1]
  {
    hide Safe, Void;
  }

  /** Closing the innermost n nodes writes their end tags. */
  lemma {:induction false} WrittenClose(levels: seq<Level>, n: nat)
    requires n < |levels| && Proper(levels)
    ensures Written(CloseLevels(levels, n)) == Written(levels) + EndTags(Tags(levels)[|levels| - n..])
    ensures Proper(CloseLevels(levels, n))
    decreases n
  {
    hide Written, CloseTag, Collapse, Proper, CloseLevels, EndTags;
    CloseOnce(levels, n);
    var closed := Tags(levels)[|levels| - n..];
    if n > 0 {
      CollapseIsProper(levels);
      WrittenCollapse(levels);
      WrittenClose(Collapse(levels), n - 1);
      var rest := Tags(Collapse(levels))[|levels| - n..];
      assert closed == rest + [levels[|levels| - 1].tag];
      EndTagsAppend(rest, levels[|levels| - 1].tag);
    } else {
      NoEndTags();
      assert closed == [];
    }
  }

  lemma {:induction false} NoEndTags()
    ensures EndTags([]) == "" && forall s: string :: s + "" == s
  {
  }

  lemma {:induction false} CollapseAt(levels: seq<Level>)
    requires |levels| >= 2
    ensures var c, n := Collapse(levels), |levels|;
            |c| == n - 1 && c[..n - 2] == levels[..n - 2] &&
            c[n - 2] == Level(levels[n - 2].tag, levels[n - 2].kids + [Node(levels[n - 1].tag, levels[n - 1].kids)])
  {
  }

  lemma {:induction false} CollapseTail(levels: seq<Level>)
    requires |levels| >= 3
    ensures Collapse(levels)[1..] == Collapse(levels[1..]) && Collapse(levels)[0] == levels[0] &&
            Collapse(levels)[1].tag == levels[1].tag
  {
    hide Collapse;
    CollapseAt(levels);
    CollapseAt(levels[1..]);
    var n := |levels|;
    assert Collapse(levels) == levels[..n - 2] + [Collapse(levels)[n - 2]];
    assert Collapse(levels[1..]) == levels[1..][..n - 3] + [Collapse(levels[1..])[n - 3]];
    assert levels[..n - 2][1..] == levels[1..][..n - 3];
  }

  lemma {:induction false} FinishCollapse(levels: seq<Level>)
    requires |levels| >= 2
    ensures Finish(Collapse(levels)) == Finish(levels)
  {
    hide Collapse;
    if |levels| == 2 {
      CollapseAt(levels);
      assert levels[1..] == [levels[1]];
      assert levels[1].kids + [] == levels[1].kids;
      assert Collapse(levels)[0].kids + [] == Collapse(levels)[0].kids;
    } else {
      FinishCollapse(levels[1..]);
      CollapseAt(levels);
      CollapseTail(levels);
    }
  }

  lemma {:induction false} FinishClose(levels: seq<Level>, n: nat)
    requires n < |levels|
    ensures Finish(CloseLevels(levels, n)) == Finish(levels)
    decreases n
  {
    hide Finish, Collapse, CloseLevels;
    CloseOnce(levels, n);
    if n > 0 {
      FinishCollapse(levels);
      FinishClose(Collapse(levels), n - 1);
    }
  }

  /** Closing everything at the end writes the remaining end tags. */
  lemma {:induction false} FinishHtml(levels: seq<Level>)
    requires levels != [] && Proper(levels)
    ensures Html(Finish(levels)) == Written(levels) + EndTags(Tags(levels[1..]))
  {
    hide Html, Proper, EndTags, CloseLevels;
    var n := |levels| - 1;
    WrittenClose(levels, n);
    FinishClose(levels, n);
    assert Tags(levels)[1..] == Tags(levels[1..]);
    var one := CloseLevels(levels, n);
    assert one[0].kids + [] == one[0].kids;
  }

  lemma {:induction false} EscapeAppend(a: string, b: string)
    ensures EscapeText(a + b) == EscapeText(a) + EscapeText(b)
  {
    hide EscapeChar;
    if a == "" {
      assert a + b == b;
    } else {
      assert (a + b)[1..] == a[1..] + b;
      EscapeAppend(a[1..], b);
    }
  }

  lemma {:induction false} HtmlMergeText(before: seq<Tree>, t: string, s: string)
    ensures Html(before + [Text(t + s)]) == Html(before + [Text(t)]) + EscapeText(s)
  {
    hide Html, EscapeText;
    HtmlAppend(before, [Text(t + s)]);
    HtmlAppend(before, [Text(t)]);
    HtmlOne(Text(t + s));
    HtmlOne(Text(t));
    EscapeAppend(t, s);
  }

  lemma {:induction false} HtmlAddText(kids: seq<Tree>, s: string)
    ensures Html(AddText(kids, s)) == Html(kids) + EscapeText(s)
  {
    hide Html, EscapeChar;
    if s == "" {
      assert Html(kids) + "" == Html(kids);
    } else if kids != [] && kids[|kids| - 1].Text? {
      hide EscapeText;
      var last := kids[|kids| - 1];
      assert kids == kids[..|kids| - 1] + [last];
      HtmlMergeText(kids[..|kids| - 1], last.text, s);
    } else {
      hide EscapeText;
      HtmlAppend(kids, [Text(s)]);
      HtmlOne(Text(s));
    }
  }

  /** What one part writes. */
  function Piece(stack: seq<Entry>, p: Part): string {
    if p.Value? then EscapeText(p.text)
    else if Standing(p) then if Safe(p.name) && Void(p.name) then OpenTag(p.name) else ""
    else if p.kind.OpenKind? then if Safe(p.name) then OpenTag(p.name) else ""
    else
      var i := LastNamed(stack, p.name);
      if i < 0 then "" else EndTags(SafeNames(stack[i..]))
  }

  lemma {:induction false} ClosedTags(b: Building, i: nat)
    requires Fits(b) && i <= |b.stack|
    ensures var n := |SafeNames(b.stack[i..])|;
            n < |b.levels| && Tags(b.levels)[|b.levels| - n..] == SafeNames(b.stack[i..])
  {
    hide SafeNames;
    SafeNamesSplit(b.stack, i);
    assert Tags(b.levels)[1..] == Tags(b.levels[1..]);
  }

  lemma {:induction false} StepWrites(b: Building, p: Part)
    requires Fits(b) && Proper(b.levels)
    ensures (StepFits(b, p); Proper(Step(b, p).levels) && Written(Step(b, p).levels) == Written(b.levels) + Piece(b.stack, p))
  {
    hide Written, Html, AddText, EndTags, SafeNames, LastNamed, OpenTag, CloseLevels, EscapeText, Safe, Void, Tags;
    assert Written(b.levels) + "" == Written(b.levels);
    if p.Value? {
      HtmlAddText(Top(b.levels), p.text);
      WrittenTop(b.levels, AddText(Top(b.levels), p.text), EscapeText(p.text));
    } else if Standing(p) {
      HtmlOne(Node(p.name, []));
      HtmlAppend(Top(b.levels), [Node(p.name, [])]);
      WrittenTop(b.levels, Top(b.levels) + [Node(p.name, [])], Html([Node(p.name, [])]));
    } else if p.kind.OpenKind? {
      WrittenPush(b.levels, p.name);
    } else {
      var i := LastNamed(b.stack, p.name);
      if i >= 0 {
        ClosedTags(b, i);
        WrittenClose(b.levels, |SafeNames(b.stack[i..])|);
      }
    }
  }

  lemma {:induction false} StreamNext(stack: seq<Entry>, p: Part, rest: seq<Part>)
    ensures Stream(stack, [p] + rest) ==
            Piece(stack, p) + Stream(NextStack(stack, p), rest)
  {
    hide EscapeText, EndTags, SafeNames, LastNamed, OpenTag, Safe, Void;
    assert ([p] + rest)[1..] == rest;
    assert forall s: string :: "" + s == s;
  }

  function NextStack(stack: seq<Entry>, p: Part): seq<Entry> {
    if p.Value? || Standing(p) then stack
    else if p.kind.OpenKind? then stack + [Entry(p.name, Safe(p.name))]
    else if LastNamed(stack, p.name) < 0 then stack
    else stack[..LastNamed(stack, p.name)]
  }

  lemma {:induction false} BuildStreams(b: Building, parts: seq<Part>)
    requires Fits(b) && Proper(b.levels)
    ensures Html(Finish(Build(b, parts).levels)) == Written(b.levels) + Stream(b.stack, parts)
    decreases |parts|
  {
    hide Written, Html, Finish, EndTags, SafeNames, LastNamed, Step, Stream, Proper, Piece, Tags;
    if parts == [] {
      FinishHtml(b.levels);
      StreamEnd(b);
    } else {
      var p := parts[0];
      StepFits(b, p);
      StepWrites(b, p);
      StepStack(b, p);
      BuildStreams(Step(b, p), parts[1..]);
      StreamNext(b.stack, p, parts[1..]);
      assert [p] + parts[1..] == parts;
    }
  }

  lemma {:induction false} StreamEnd(b: Building)
    requires Fits(b)
    ensures b.levels != [] && Stream(b.stack, []) == EndTags(Tags(b.levels[1..]))
  {
  }

  lemma {:induction false} StepStack(b: Building, p: Part)
    requires Fits(b)
    ensures Step(b, p).stack == NextStack(b.stack, p)
  {
    hide CloseLevels, SafeNames, LastNamed, AddText, Safe, Void;
  }

  /** Serializing the tree gives what the parts stream out. */
  lemma {:induction false} HtmlIsStream(parts: seq<Part>)
    ensures PartsHtml(parts) == Stream([], parts)
  {
    hide Stream, Build;
    BuildStreams(START, parts);
    assert Written(START.levels) == "";
  }
}
