/** The stack machine of partsTree and the recursive writer of its tree. */
module MarkupBuilder {
  import opened Digits
  import opened Markup
  import opened MarkupProofs
  import opened MarkupTree
  import opened HtmlMeaning
  import opened TextRuns

  lemma {:induction false} ElsSplit(stack: seq<OpenItem>, i: nat)
    requires i <= |stack|
    ensures Els(stack) == Els(stack[..i]) + Els(stack[i..])
  {
    if i == 0 {
      assert stack[0..] == stack && stack[..0] == [];
    } else {
      ElsSplit(stack[1..], i - 1);
      assert stack[..i][1..] == stack[1..][..i - 1] && stack[i..] == stack[1..][i - 1..];
      assert stack[..i][0] == stack[0];
    }
  }

  lemma {:induction false} SafeCount(stack: seq<OpenItem>)
    ensures |Els(stack)| == |SafeNames(Entries(stack))|
  {
    if stack != [] {
      SafeCount(stack[1..]);
      assert Entries(stack)[1..] == Entries(stack[1..]);
    }
  }

  lemma {:induction false} ElsPush(stack: seq<OpenItem>, o: OpenItem)
    ensures Els(stack + [o]) == Els(stack) + if o.el.Some? then [o.el.value] else []
  {
    ElsSplit(stack + [o], |stack|);
    assert (stack + [o])[..|stack|] == stack && (stack + [o])[|stack|..] == [o];
    assert [o][1..] == [];
  }

  lemma {:induction false} SpineCut(stack: seq<OpenItem>, i: nat)
    requires i <= |stack|
    ensures var n := |SafeNames(Entries(stack)[i..])|;
            n < |Spine(stack)| && Spine(stack)[..|Spine(stack)| - n] == Spine(stack[..i])
  {
    hide Els, SafeNames;
    ElsSplit(stack, i);
    SafeCount(stack[i..]);
    assert Entries(stack)[i..] == Entries(stack[i..]);
  }

  lemma {:induction false} LastNamedIs(stack: seq<Entry>, name: string, i: int)
    requires -1 <= i < |stack| && (i >= 0 ==> stack[i].name == name) && forall k :: i < k < |stack| ==> stack[k].name != name
    ensures LastNamed(stack, name) == i
  {
    if stack != [] && stack[|stack| - 1].name != name {
      LastNamedIs(stack[..|stack| - 1], name, i);
    }
  }

  lemma {:induction false} SafeIsNamed(name: string)
    requires Safe(name)
    ensures name != ""
  {
    hide Void;
    SafeIsPlain(name);
  }

  class TreeBuilder {
    var nodes: seq<Item>
    var stack: seq<OpenItem>
    /** What has been built, as levels. */
    ghost var built: Building

    ghost predicate Valid()
      reads this
    {
      Fits(built) && built.stack == Entries(stack) && Stands(nodes, Spine(stack), built.levels)
    }

    constructor ()
      ensures Valid() && built == START
    {
      nodes, stack, built := [Item("", "", [])], [], START;
    }

    /** target: the node of the innermost safe open element, or the root. */
    method Target() returns (t: nat)
      ensures t == TopOf(Spine(stack))
    {
      var i := |stack| - 1;
      assert stack[..|stack|] == stack;
      while i >= 0 && stack[i].el.None?
        invariant -1 <= i < |stack| && Els(stack) == Els(stack[..i + 1])
      {
        assert stack[..i + 1] == stack[..i] + [stack[i]];
        ElsPush(stack[..i], stack[i]);
        i := i - 1;
      }
      if i >= 0 {
        assert stack[..i + 1] == stack[..i] + [stack[i]];
        ElsPush(stack[..i], stack[i]);
        return stack[i].el.value;
      }
      t := 0;
    }

    method PushText(s: string)
      requires Valid()
      modifies this
      ensures Valid() && stack == old(stack) && built == old(built.(levels := OnTop(built.levels, AddText(Top(built.levels), s))))
    {
      hide Stands, Els, SafeNames, TreesAt, TreeAt;
      SameTags(built.levels, AddText(Top(built.levels), s));
      if s == "" {
        assert OnTop(built.levels, Top(built.levels)) == built.levels;
        return;
      }
      var t := Target();
      LastChild(nodes, Spine(stack), built.levels);
      var n := |nodes[t].children|;
      if n > 0 && nodes[nodes[t].children[n - 1]].tag == "" {
        var last := nodes[t].children[n - 1];
        TextStands(nodes, Spine(stack), built.levels, s);
        nodes := nodes[last := nodes[last].(text := nodes[last].text + s)];
      } else {
        AddStands(nodes, Spine(stack), built.levels, Item("", s, []));
        nodes := AddChild(nodes, t, Item("", s, []));
      }
      built := built.(levels := OnTop(built.levels, AddText(Top(built.levels), s)));
    }

    /** One part. */
    method Take(p: Part)
      requires Valid()
      modifies this
      ensures Valid() && built == old(Step(built, p))
    {
      hide Stands, Els, SafeNames, LastNamed, AddText, CloseLevels, Safe, Void, OnTop;
      StepFits(built, p);
      if p.Value? {
        PushText(p.text);
        return;
      }
      var safe := Safe(p.name);
      if p.kind.StandaloneKind? || (p.kind.OpenKind? && Void(p.name)) {
        if safe && Void(p.name) {
          var t := Target();
          SafeIsNamed(p.name);
          AddStands(nodes, Spine(stack), built.levels, Item(p.name, "", []));
          nodes := AddChild(nodes, t, Item(p.name, "", []));
          built := built.(levels := OnTop(built.levels, Top(built.levels) + [Node(p.name, [])]));
        }
      } else if p.kind.OpenKind? {
        Push(p.name, safe);
      } else {
        var i := |stack| - 1;
        while i >= 0 && stack[i].name != p.name
          invariant -1 <= i < |stack| && forall k :: i < k < |stack| ==> stack[k].name != p.name
        {
          i := i - 1;
        }
        LastNamedIs(Entries(stack), p.name, i);
        if i >= 0 {
          Pop(i, p);
        }
      }
    }

    method Push(name: string, safe: bool)
      requires Valid() && safe == Safe(name)
      requires var next := Building(built.stack + [Entry(name, safe)], if safe then built.levels + [Level(name, [])] else built.levels);
               Fits(next)
      modifies this
      ensures Valid() && built == old(Building(built.stack + [Entry(name, safe)], if safe then built.levels + [Level(name, [])] else built.levels))
    {
      hide Stands, Els, SafeNames, Safe, Fits;
      var el: Option<nat> := None;
      if safe {
        var t := Target();
        SafeIsNamed(name);
        OpenStands(nodes, Spine(stack), built.levels, name);
        el := Some(|nodes|);
        nodes := AddChild(nodes, t, Item(name, "", []));
      }
      ElsPush(stack, OpenItem(name, el));
      built := Building(built.stack + [Entry(name, safe)], if safe then built.levels + [Level(name, [])] else built.levels);
      assert safe ==> Spine(stack) + [el.value] == Spine(stack + [OpenItem(name, el)]);
      assert !safe ==> Spine(stack) == Spine(stack + [OpenItem(name, el)]);
      stack := stack + [OpenItem(name, el)];
    }

    method Pop(i: nat, p: Part)
      requires Valid() && i < |stack| && p.Tag? && p.kind.CloseKind? && LastNamed(Entries(stack), p.name) == i
      requires Fits(Step(built, p))
      modifies this
      ensures Valid() && built == old(Step(built, p))
    {
      hide Stands, Els, SafeNames, LastNamed, CloseLevels, Spine;
      SpineCut(stack, i);
      SafeNamesSplit(built.stack, i);
      CloseStands(nodes, Spine(stack), built.levels, |SafeNames(built.stack[i..])|);
      built := Step(built, p);
      assert Entries(stack)[..i] == Entries(stack[..i]);
      stack := stack[..i];
    }

    /** partsTree: the children of the root are the forest of the parts. */
    method Parts(parts: seq<Part>)
      requires Valid() && built == START
      modifies this
      ensures Ordered(nodes) && nodes != [] && AllTrees(nodes, 0) == PartsTree(parts)
    {
      hide Stands, Fits, Step, Spine, Entries, TreesAt, Finish;
      assert parts[0..] == parts;
      for i := 0 to |parts|
        invariant Valid() && Fits(built) && Build(built, parts[i..]) == Build(START, parts)
      {
        assert parts[i..][0] == parts[i] && parts[i..][1..] == parts[i + 1..];
        Take(parts[i]);
      }
      StandsIsOrdered(nodes, Spine(stack), built.levels);
      StandsForForest(nodes, Spine(stack), built.levels);
    }
  }

  lemma {:induction false} StandsIsOrdered(nodes: seq<Item>, spine: seq<nat>, levels: seq<Level>)
    requires Stands(nodes, spine, levels)
    ensures Ordered(nodes)
  {
  }

  /** The last child of the top node is the last tree of the top level. */
  lemma {:induction false} LastChild(nodes: seq<Item>, spine: seq<nat>, levels: seq<Level>)
    requires Stands(nodes, spine, levels)
    ensures levels != [] && TopOf(spine) < |nodes|
    ensures var cs := nodes[TopOf(spine)].children;
            |Top(levels)| == |cs| && (cs != [] ==> cs[|cs| - 1] < |nodes|) &&
            (cs != [] ==> (nodes[cs[|cs| - 1]].tag == "" <==> Top(levels)[|cs| - 1].Text?))
  {
    hide TreesAt, Within;
    assert LevelAt(nodes, spine, levels, |spine| - 1);
    var top := TopOf(spine);
    if nodes[top].children != [] {
      TreesNext(nodes, top, |nodes[top].children|);
    }
  }

  /** strings.Builder. */
  class HtmlWriter {
    var out: string

    constructor ()
      ensures out == ""
    {
      out := "";
    }

    /** writeHTML over a node's children. */
    method WriteChildren(nodes: seq<Item>, i: nat)
      requires Ordered(nodes) && i < |nodes|
      modifies this
      ensures out == old(out) + Html(AllTrees(nodes, i))
      decreases |nodes| - i, 0
    {
      hide Html, TreeAt, TreesAt;
      var children := nodes[i].children;
      NoHtml(out);
      NoTrees(nodes, i);
      for k := 0 to |children|
        invariant out == old(out) + Html(TreesAt(nodes, i, k))
      {
        TreesNext(nodes, i, k + 1);
        HtmlAppend(TreesAt(nodes, i, k), [TreeAt(nodes, children[k])]);
        ghost var done := Html(TreesAt(nodes, i, k));
        WriteNode(nodes, children[k]);
        assert old(out) + done + Html([TreeAt(nodes, children[k])]) == old(out) + (done + Html([TreeAt(nodes, children[k])]));
      }
    }

    method WriteNode(nodes: seq<Item>, n: nat)
      requires Ordered(nodes) && n < |nodes|
      modifies this
      ensures out == old(out) + Html([TreeAt(nodes, n)])
      decreases |nodes| - n, 1
    {
      hide Html, Safe, Void, EscapeText, TreeAt, TreesAt, OpenTag, CloseTag;
      HtmlOne(TreeAt(nodes, n));
      TreeShape(nodes, n);
      var tag := nodes[n].tag;
      if tag == "" {
        out := out + EscapeText(nodes[n].text);
      } else if !Safe(tag) {
        NoHtml(out);
      } else if Void(tag) {
        out := out + OpenTag(tag);
      } else {
        out := out + OpenTag(tag);
        WriteChildren(nodes, n);
        out := out + CloseTag(tag);
        Enclosed(old(out), OpenTag(tag), Html(AllTrees(nodes, n)), CloseTag(tag));
      }
    }
  }

  lemma {:induction false} Enclosed(s: string, a: string, b: string, c: string)
    ensures s + a + b + c == s + (a + (b + c))
  {
  }

  lemma {:induction false} NoTrees(nodes: seq<Item>, i: nat)
    requires Ordered(nodes) && i < |nodes|
    ensures TreesAt(nodes, i, 0) == []
  {
  }

  lemma {:induction false} NoHtml(s: string)
    ensures Html([]) == "" && s + "" == s
  {
  }

  lemma {:induction false} TreeShape(nodes: seq<Item>, i: nat)
    requires Ordered(nodes) && i < |nodes|
    ensures TreeAt(nodes, i) == if nodes[i].tag == "" then Text(nodes[i].text) else Node(nodes[i].tag, AllTrees(nodes, i))
  {
  }

  /** partsHTML. */
  method ComputeHtml(parts: seq<Part>) returns (html: string)
    ensures html == PartsHtml(parts)
  {
    hide Html, PartsTree, TreesAt;
    var builder := new TreeBuilder();
    builder.Parts(parts);
    var writer := new HtmlWriter();
    writer.WriteChildren(builder.nodes, 0);
    html := writer.out;
  }

  /** The runs under construction; the last one is extended in place. */
  class RunWriter {
    var runs: seq<Run>

    constructor ()
      ensures runs == []
    {
      runs := [];
    }

    method Append(style: Style, text: string)
      modifies this
      ensures runs == AppendRun(old(runs), style, text)
    {
      var n := |runs|;
      if n > 0 && runs[n - 1].style == style {
        runs := runs[n - 1 := runs[n - 1].(text := runs[n - 1].text + text)];
      } else {
        runs := runs + [Run(text, style)];
      }
    }

    /** walkRuns over a node's children. */
    method WalkChildren(nodes: seq<Item>, i: nat, style: Style)
      requires Ordered(nodes) && i < |nodes|
      modifies this
      ensures runs == WalkRuns(AllTrees(nodes, i), style, old(runs))
      decreases |nodes| - i, 0
    {
      hide TreeAt, TreesAt, WalkRuns;
      var children := nodes[i].children;
      NoTrees(nodes, i);
      NothingWalked(style, runs);
      for k := 0 to |children|
        invariant runs == WalkRuns(TreesAt(nodes, i, k), style, old(runs))
      {
        TreesNext(nodes, i, k + 1);
        WalkAppend(TreesAt(nodes, i, k), [TreeAt(nodes, children[k])], style, old(runs));
        WalkNode(nodes, children[k], style);
      }
    }

    method WalkNode(nodes: seq<Item>, n: nat, style: Style)
      requires Ordered(nodes) && n < |nodes|
      modifies this
      ensures runs == WalkRuns([TreeAt(nodes, n)], style, old(runs))
      decreases |nodes| - n, 1
    {
      hide TreeAt, TreesAt, WalkRuns, AppendRun;
      WalkOne(TreeAt(nodes, n), style, runs);
      TreeShape(nodes, n);
      var tag := nodes[n].tag;
      if tag == "" {
        Append(style, nodes[n].text);
      } else if tag == "br" {
        Append(style, "\n");
      } else {
        var inner := style;
        if tag == "b" || tag == "strong" {
          inner := inner.(bold := true);
        } else if tag == "i" || tag == "em" {
          inner := inner.(italic := true);
        } else if tag == "u" {
          inner := inner.(underline := true);
        }
        WalkChildren(nodes, n, inner);
      }
    }
  }

  lemma {:induction false} NothingWalked(style: Style, runs: seq<Run>)
    ensures WalkRuns([], style, runs) == runs
  {
  }

  /** Runs. */
  method ComputeRuns(parts: seq<Part>) returns (runs: seq<Run>)
    ensures runs == PartsRuns(parts)
  {
    hide WalkRuns, PartsTree, TreesAt;
    var builder := new TreeBuilder();
    builder.Parts(parts);
    var writer := new RunWriter();
    writer.WalkChildren(builder.nodes, 0, PLAIN);
    runs := writer.runs;
  }
}
