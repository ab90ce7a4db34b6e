/** Styled text runs (runtimes/go/markup.go): the run-length encoding of the styled characters of
    the parts. */
module TextRuns {
  import opened Markup
  import opened MarkupProofs

  datatype Style = Style(bold: bool, italic: bool, underline: bool)

  datatype Run = Run(text: string, style: Style)

  const PLAIN := Style(false, false, false)

  /** The style inside an element. */
  function Inner(tag: string, style: Style): Style {
    if tag == "b" || tag == "strong" then style.(bold := true)
    else if tag == "i" || tag == "em" then style.(italic := true)
    else if tag == "u" then style.(underline := true)
    else style
  }

  function AppendRun(runs: seq<Run>, style: Style, text: string): seq<Run> {
    if runs != [] && runs[|runs| - 1].style == style then
      runs[..|runs| - 1] + [Run(runs[|runs| - 1].text + text, style)]
    else runs + [Run(text, style)]
  }

  function WalkRuns(nodes: seq<Tree>, style: Style, runs: seq<Run>): seq<Run>
    decreases nodes
  {
    if nodes == [] then runs
    else
      var runs' :=
        match nodes[0]
        case Text(text) => AppendRun(runs, style, text)
        case Node(tag, children) =>
          if tag == "br" then AppendRun(runs, style, "\n") else WalkRuns(children, Inner(tag, style), runs);
      WalkRuns(nodes[1..], style, runs')
  }

  /** Runs. */
  function PartsRuns(parts: seq<Part>): seq<Run> {
    WalkRuns(PartsTree(parts), PLAIN, [])
  }

  // ----- Styled characters -----

  type Styled = seq<(char, Style)>

  function InStyle(text: string, style: Style): Styled {
    seq(|text|, i requires 0 <= i < |text| => (text[i], style))
  }

  function Flat(runs: seq<Run>): Styled {
    if runs == [] then [] else InStyle(runs[0].text, runs[0].style) + Flat(runs[1..])
  }

  /** The style that the open safe elements combine to. */
  function StyleOf(names: seq<string>, style: Style): Style {
    if names == [] then style else StyleOf(names[1..], Inner(names[0], style))
  }

  lemma {:induction false} StyleAdds(names: seq<string>, style: Style)
    ensures var s := StyleOf(names, style);
            (s.bold <==> style.bold || "b" in names || "strong" in names) &&
            (s.italic <==> style.italic || "i" in names || "em" in names) &&
            (s.underline <==> style.underline || "u" in names)
  {
    if names != [] {
      StyleAdds(names[1..], Inner(names[0], style));
      assert forall n :: n in names <==> n == names[0] || n in names[1..];
    }
  }

  /** An element makes its text bold, italic or underlined by its name, and nothing else does. */
  lemma {:induction false} StyleMeans(names: seq<string>)
    ensures var s := StyleOf(names, PLAIN);
            (s.bold <==> "b" in names || "strong" in names) && (s.italic <==> "i" in names || "em" in names) &&
            (s.underline <==> "u" in names)
  {
    StyleAdds(names, PLAIN);
  }

  /** The parts with no tree: each value in the style of the safe elements open around it, and a
      line break for each br. */
  function StyledParts(stack: seq<Entry>, parts: seq<Part>): Styled
    decreases |parts|
  {
    if parts == [] then [] else StyledPiece(stack, parts[0]) + StyledParts(NextStack(stack, parts[0]), parts[1..])
  }

  function StyledPiece(stack: seq<Entry>, p: Part): Styled {
    var style := StyleOf(SafeNames(stack), PLAIN);
    if p.Value? then InStyle(p.text, style)
    else if Standing(p) && p.name == "br" then InStyle("\n", style)
    else []
  }

  // ----- Of a tree -----

  function StyledTree(nodes: seq<Tree>, style: Style): Styled
    decreases nodes
  {
    if nodes == [] then []
    else
      var first :=
        match nodes[0]
        case Text(text) => InStyle(text, style)
        case Node(tag, children) => if tag == "br" then InStyle("\n", style) else StyledTree(children, Inner(tag, style));
      first + StyledTree(nodes[1..], style)
  }

  lemma {:induction false} FlatAppend(a: seq<Run>, b: seq<Run>)
    ensures Flat(a + b) == Flat(a) + Flat(b)
  {
    if a == [] {
      assert a + b == b;
    } else {
      assert (a + b)[1..] == a[1..] + b;
      FlatAppend(a[1..], b);
    }
  }

  lemma {:induction false} FlatOne(r: Run)
    ensures Flat([r]) == InStyle(r.text, r.style)
  {
    assert [r][1..] == [];
  }

  lemma {:induction false} FlatAppendRun(runs: seq<Run>, style: Style, text: string)
    ensures Flat(AppendRun(runs, style, text)) == Flat(runs) + InStyle(text, style)
  {
    hide Flat;
    FlatOne(Run(text, style));
    FlatAppend(runs, [Run(text, style)]);
    if runs != [] {
      var before, last := runs[..|runs| - 1], runs[|runs| - 1];
      assert runs == before + [last];
      FlatOne(last);
      FlatOne(Run(last.text + text, style));
      FlatAppend(before, [last]);
      FlatAppend(before, [Run(last.text + text, style)]);
      assert last.style == style ==> InStyle(last.text + text, style) == InStyle(last.text, style) + InStyle(text, style);
    }
  }

  /** Walking a tree appends its styled characters. */
  lemma {:induction false} WalkIsStyled(nodes: seq<Tree>, style: Style, runs: seq<Run>)
    ensures Flat(WalkRuns(nodes, style, runs)) == Flat(runs) + StyledTree(nodes, style)
    decreases nodes
  {
    hide Flat, AppendRun, InStyle, Inner;
    if nodes != [] {
      var first :=
        match nodes[0]
        case Text(text) => InStyle(text, style)
        case Node(tag, children) => if tag == "br" then InStyle("\n", style) else StyledTree(children, Inner(tag, style));
      match nodes[0] {
        case Text(text) =>
          FlatAppendRun(runs, style, text);
          WalkIsStyled(nodes[1..], style, AppendRun(runs, style, text));
        case Node(tag, children) =>
          if tag == "br" {
            FlatAppendRun(runs, style, "\n");
            WalkIsStyled(nodes[1..], style, AppendRun(runs, style, "\n"));
          } else {
            WalkIsStyled(children, Inner(tag, style), runs);
            WalkIsStyled(nodes[1..], style, WalkRuns(children, Inner(tag, style), runs));
          }
      }
      assert (Flat(runs) + first) + StyledTree(nodes[1..], style) == Flat(runs) + (first + StyledTree(nodes[1..], style));
    } else {
      assert Flat(runs) + [] == Flat(runs);
    }
  }

  // ----- Of the levels -----

  lemma {:induction false} StyledAppend(a: seq<Tree>, b: seq<Tree>, style: Style)
    ensures StyledTree(a + b, style) == StyledTree(a, style) + StyledTree(b, style)
    decreases |a|
  {
    hide InStyle, Inner;
    if a == [] {
      assert a + b == b;
    } else {
      assert (a + b)[1..] == a[1..] + b && (a + b)[0] == a[0];
      StyledAppend(a[1..], b, style);
    }
  }

  lemma {:induction false} StyledOne(t: Tree, style: Style)
    ensures StyledTree([t], style) == match t
                                      case Text(text) => InStyle(text, style)
                                      case Node(tag, children) =>
                                        if tag == "br" then InStyle("\n", style) else StyledTree(children, Inner(tag, style))
  {
    hide InStyle, Inner;
    assert [t][1..] == [];
  }

  predicate NoBreaks(levels: seq<Level>) {
    forall i :: 1 <= i < |levels| ==> levels[i].tag != "br"
  }

  /** More at the top is more at the end, in the style of the open nodes. */
  lemma {:induction false} FinishTop(levels: seq<Level>, kids: seq<Tree>, style: Style, more: Styled)
    requires levels != [] && NoBreaks(levels)
    requires var s := StyleOf(Tags(levels[1..]), style);
             StyledTree(kids, s) == StyledTree(Top(levels), s) + more
    ensures StyledTree(Finish(OnTop(levels, kids)), style) == StyledTree(Finish(levels), style) + more
    decreases |levels|
  {
    hide StyledTree, Inner, InStyle;
    var next := OnTop(levels, kids);
    if |levels| == 1 {
      assert Tags(levels[1..]) == [];
      assert levels[0].kids + [] == levels[0].kids && kids + [] == kids;
    } else {
      var tag := levels[1].tag;
      assert next[1..] == OnTop(levels[1..], kids) && next[0] == levels[0];
      assert Tags(levels[1..])[1..] == Tags(levels[1..][1..]) && Tags(levels[1..])[0] == tag;
      FinishTop(levels[1..], kids, Inner(tag, style), more);
      FinishInner(levels, style);
      FinishInner(next, style);
    }
  }

  lemma {:induction false} FinishInner(levels: seq<Level>, style: Style)
    requires |levels| >= 2 && NoBreaks(levels)
    ensures StyledTree(Finish(levels), style) ==
            StyledTree(levels[0].kids, style) + StyledTree(Finish(levels[1..]), Inner(levels[1].tag, style))
  {
    hide StyledTree, Inner, InStyle;
    var node := Node(levels[1].tag, Finish(levels[1..]));
    StyledAppend(levels[0].kids, [node], style);
    StyledOne(node, style);
  }

  lemma {:induction false} FinishPush(levels: seq<Level>, tag: string, style: Style)
    requires levels != [] && NoBreaks(levels) && tag != "br"
    ensures StyledTree(Finish(levels + [Level(tag, [])]), style) == StyledTree(Finish(levels), style)
    decreases |levels|
  {
    hide StyledTree, Inner;
    var next := levels + [Level(tag, [])];
    FinishInner(next, style);
    if |levels| == 1 {
      assert next[1..] == [Level(tag, [])];
      assert Finish(next[1..]) == [];
      NoStyled(Inner(tag, style));
      assert levels[0].kids + [] == levels[0].kids;
    } else {
      FinishPush(levels[1..], tag, Inner(levels[1].tag, style));
      FinishInner(levels, style);
      assert next[1..] == levels[1..] + [Level(tag, [])];
    }
  }

  lemma {:induction false} NoStyled(style: Style)
    ensures StyledTree([], style) == []
  {
  }

  lemma {:induction false} StyledAddText(kids: seq<Tree>, s: string, style: Style)
    ensures StyledTree(AddText(kids, s), style) == StyledTree(kids, style) + InStyle(s, style)
  {
    hide StyledTree;
    if s != "" {
      StyledAppend(kids, [Text(s)], style);
      StyledOne(Text(s), style);
      if kids != [] && kids[|kids| - 1].Text? {
        var before, last := kids[..|kids| - 1], kids[|kids| - 1];
        assert kids == before + [last];
        StyledAppend(before, [last], style);
        StyledAppend(before, [Text(last.text + s)], style);
        StyledOne(last, style);
        StyledOne(Text(last.text + s), style);
        assert InStyle(last.text + s, style) == InStyle(last.text, style) + InStyle(s, style);
      }
    }
  }

  lemma {:induction false} StepStyled(b: Building, p: Part)
    requires Fits(b) && Proper(b.levels)
    ensures (StepFits(b, p);
             StyledTree(Finish(Step(b, p).levels), PLAIN) == StyledTree(Finish(b.levels), PLAIN) + StyledPiece(b.stack, p))
  {
    hide StyledTree, Finish, InStyle, Inner, SafeNames, LastNamed, CloseLevels, Tags, StyleOf, AddText, Safe, Void;
    StepFits(b, p);
    ProperIsNoBreaks(b.levels);
    var style := StyleOf(SafeNames(b.stack), PLAIN);
    if p.Value? {
      StyledAddText(Top(b.levels), p.text, style);
      FinishTop(b.levels, AddText(Top(b.levels), p.text), PLAIN, InStyle(p.text, style));
    } else if Standing(p) {
      VoidNames(p.name);
      var node := Node(p.name, []);
      StyledAppend(Top(b.levels), [node], style);
      StyledOne(node, style);
      NoStyled(Inner(p.name, style));
      FinishTop(b.levels, Top(b.levels) + [node], PLAIN, StyledTree([node], style));
    } else if p.kind.OpenKind? {
      VoidNames(p.name);
      FinishPush(b.levels, p.name, PLAIN);
    } else {
      var i := LastNamed(b.stack, p.name);
      if i >= 0 {
        SafeNamesSplit(b.stack, i);
        ClosedTags(b, i);
        FinishClose(b.levels, |SafeNames(b.stack[i..])|);
      }
    }
  }

  lemma {:induction false} VoidNames(name: string)
    ensures (name == "br" ==> Safe(name) && Void(name)) && (Void(name) ==> name == "br" || name == "wbr")
  {
  }

  lemma {:induction false} ProperIsNoBreaks(levels: seq<Level>)
    requires Proper(levels)
    ensures NoBreaks(levels)
  {
    hide Safe, Void;
    VoidNames("br");
  }

  lemma {:induction false} BuildIsStyled(b: Building, parts: seq<Part>)
    requires Fits(b) && Proper(b.levels)
    ensures StyledTree(Finish(Build(b, parts).levels), PLAIN) ==
            StyledTree(Finish(b.levels), PLAIN) + StyledParts(b.stack, parts)
    decreases |parts|
  {
    hide StyledTree, Finish, Step, Proper, StyledPiece, NextStack, Tags, SafeNames;
    if parts != [] {
      StepFits(b, parts[0]);
      StepWrites(b, parts[0]);
      StepStack(b, parts[0]);
      StepStyled(b, parts[0]);
      BuildIsStyled(Step(b, parts[0]), parts[1..]);
    }
  }

  lemma {:induction false} WalkAppend(a: seq<Tree>, b: seq<Tree>, style: Style, runs: seq<Run>)
    ensures WalkRuns(a + b, style, runs) == WalkRuns(b, style, WalkRuns(a, style, runs))
    decreases |a|
  {
    hide AppendRun, Inner;
    if a == [] {
      assert a + b == b;
    } else {
      assert (a + b)[1..] == a[1..] + b && (a + b)[0] == a[0];
      var next :=
        match a[0]
        case Text(text) => AppendRun(runs, style, text)
        case Node(tag, children) =>
          if tag == "br" then AppendRun(runs, style, "\n") else WalkRuns(children, Inner(tag, style), runs);
      WalkAppend(a[1..], b, style, next);
    }
  }

  lemma {:induction false} WalkOne(t: Tree, style: Style, runs: seq<Run>)
    ensures WalkRuns([t], style, runs) ==
            match t
            case Text(text) => AppendRun(runs, style, text)
            case Node(tag, children) =>
              if tag == "br" then AppendRun(runs, style, "\n") else WalkRuns(children, Inner(tag, style), runs)
  {
    hide AppendRun, Inner;
    assert [t][1..] == [];
  }

  // ----- Merged runs -----

  /** No run is empty, and adjacent runs differ in style. */
  predicate Encoding(runs: seq<Run>) {
    (forall i :: 0 <= i < |runs| ==> runs[i].text != "") &&
    forall i :: 0 <= i < |runs| - 1 ==> runs[i].style != runs[i + 1].style
  }

  predicate Solid(nodes: seq<Tree>)
    decreases nodes
  {
    nodes == [] || ((match nodes[0] case Text(text) => text != "" case Node(_, children) => Solid(children)) && Solid(nodes[1..]))
  }

  lemma {:induction false} WalkIsEncoding(nodes: seq<Tree>, style: Style, runs: seq<Run>)
    requires Solid(nodes) && Encoding(runs)
    ensures Encoding(WalkRuns(nodes, style, runs))
    decreases nodes
  {
    hide Encoding, AppendRun, Inner;
    if nodes != [] {
      match nodes[0] {
        case Text(text) =>
          AppendIsEncoding(runs, style, text);
          WalkIsEncoding(nodes[1..], style, AppendRun(runs, style, text));
        case Node(tag, children) =>
          if tag == "br" {
            AppendIsEncoding(runs, style, "\n");
            WalkIsEncoding(nodes[1..], style, AppendRun(runs, style, "\n"));
          } else {
            WalkIsEncoding(children, Inner(tag, style), runs);
            WalkIsEncoding(nodes[1..], style, WalkRuns(children, Inner(tag, style), runs));
          }
      }
    }
  }

  lemma {:induction false} AppendIsEncoding(runs: seq<Run>, style: Style, text: string)
    requires Encoding(runs) && text != ""
    ensures Encoding(AppendRun(runs, style, text))
  {
  }

  lemma {:induction false} SolidAppend(a: seq<Tree>, b: seq<Tree>)
    ensures Solid(a + b) <==> Solid(a) && Solid(b)
    decreases |a|
  {
    if a == [] {
      assert a + b == b;
    } else {
      assert (a + b)[1..] == a[1..] + b && (a + b)[0] == a[0];
      SolidAppend(a[1..], b);
    }
  }

  lemma {:induction false} SolidOne(t: Tree)
    ensures Solid([t]) <==> match t case Text(text) => text != "" case Node(_, children) => Solid(children)
  {
    assert [t][1..] == [];
  }

  lemma {:induction false} SolidAddText(kids: seq<Tree>, s: string)
    requires Solid(kids)
    ensures Solid(AddText(kids, s))
  {
    hide Solid;
    if s != "" {
      SolidAppend(kids, [Text(s)]);
      SolidOne(Text(s));
      if kids != [] {
        var before, last := kids[..|kids| - 1], kids[|kids| - 1];
        assert kids == before + [last];
        SolidAppend(before, [last]);
        if last.Text? {
          SolidAppend(before, [Text(last.text + s)]);
          SolidOne(Text(last.text + s));
        }
      }
    }
  }

  predicate SolidLevels(levels: seq<Level>) {
    forall i :: 0 <= i < |levels| ==> Solid(levels[i].kids)
  }

  lemma {:induction false} SolidCollapse(levels: seq<Level>)
    requires |levels| >= 2 && SolidLevels(levels)
    ensures SolidLevels(Collapse(levels))
  {
    hide Solid, Collapse;
    var n := |levels|;
    var node := Node(levels[n - 1].tag, levels[n - 1].kids);
    SolidOne(node);
    SolidAppend(levels[n - 2].kids, [node]);
    CollapseAt(levels);
    var c := Collapse(levels);
    assert forall i :: 0 <= i < n - 2 ==> c[i] == c[..n - 2][i];
  }

  lemma {:induction false} SolidClose(levels: seq<Level>, n: nat)
    requires n < |levels| && SolidLevels(levels)
    ensures SolidLevels(CloseLevels(levels, n))
    decreases n
  {
    hide SolidLevels, Collapse, CloseLevels;
    CloseOnce(levels, n);
    if n > 0 {
      SolidCollapse(levels);
      SolidClose(Collapse(levels), n - 1);
    }
  }

  lemma {:induction false} StepIsSolid(b: Building, p: Part)
    requires Fits(b) && SolidLevels(b.levels)
    ensures SolidLevels(Step(b, p).levels)
  {
    hide Solid, AddText, SafeNames, LastNamed, CloseLevels, Tags, Safe, Void;
    if p.Value? {
      SolidAddText(Top(b.levels), p.text);
    } else if Standing(p) {
      SolidOne(Node(p.name, []));
      NothingIsSolid();
      SolidAppend(Top(b.levels), [Node(p.name, [])]);
    } else if p.kind.OpenKind? {
      NothingIsSolid();
    } else {
      var i := LastNamed(b.stack, p.name);
      if i >= 0 {
        ClosedTags(b, i);
        SolidClose(b.levels, |SafeNames(b.stack[i..])|);
      }
    }
  }

  lemma {:induction false} NothingIsSolid()
    ensures Solid([])
  {
  }

  lemma {:induction false} BuildIsSolid(b: Building, parts: seq<Part>)
    requires Fits(b) && SolidLevels(b.levels)
    ensures SolidLevels(Build(b, parts).levels)
    decreases |parts|
  {
    hide SolidLevels, Step, Tags, SafeNames;
    if parts != [] {
      StepFits(b, parts[0]);
      StepIsSolid(b, parts[0]);
      BuildIsSolid(Step(b, parts[0]), parts[1..]);
    }
  }

  lemma {:induction false} FinishIsSolid(levels: seq<Level>)
    requires levels != [] && SolidLevels(levels)
    ensures Solid(Finish(levels))
  {
    hide Solid, CloseLevels;
    var n := |levels| - 1;
    SolidClose(levels, n);
    FinishClose(levels, n);
    var one := CloseLevels(levels, n);
    assert one[0].kids + [] == one[0].kids;
  }

  /** For every part list the runs, put together, are its values character by character, each in
      the style of the safe elements open around it; and they are merged: no run is empty, and
      no two adjacent runs have the same style. */
  lemma {:induction false} RunsEncodeParts(parts: seq<Part>)
    ensures Flat(PartsRuns(parts)) == StyledParts([], parts) && Encoding(PartsRuns(parts))
  {
    hide Flat, WalkRuns, StyledTree, StyledParts, Finish, Build, Solid;
    BuildIsStyled(START, parts);
    WalkIsStyled(PartsTree(parts), PLAIN, []);
    EmptyStart();
    NothingIsSolid();
    BuildIsSolid(START, parts);
    FinishIsSolid(Build(START, parts).levels);
    WalkIsEncoding(PartsTree(parts), PLAIN, []);
  }

  lemma {:induction false} EmptyStart()
    ensures Flat([]) == [] && StyledTree(Finish(START.levels), PLAIN) == []
  {
  }

  /** There is only one such encoding of a styled text. */
  lemma {:induction false} EncodingUnique(a: seq<Run>, b: seq<Run>)
    requires Encoding(a) && Encoding(b) && Flat(a) == Flat(b)
    ensures a == b
  {
    if a != [] && b != [] {
      var n, m := |a[0].text|, |b[0].text|;
      assert Flat(a)[0] == (a[0].text[0], a[0].style) && Flat(b)[0] == (b[0].text[0], b[0].style);
      NotLonger(a, b);
      NotLonger(b, a);
      assert Flat(a)[..n] == InStyle(a[0].text, a[0].style) && Flat(b)[..n] == InStyle(b[0].text, b[0].style);
      assert forall i :: 0 <= i < n ==> InStyle(a[0].text, a[0].style)[i].0 == a[0].text[i] && InStyle(b[0].text, b[0].style)[i].0 == b[0].text[i];
      assert a[0].text == b[0].text;
      assert Flat(a)[n..] == Flat(a[1..]) && Flat(b)[n..] == Flat(b[1..]);
      EncodingUnique(a[1..], b[1..]);
      assert a == [a[0]] + a[1..] && b == [b[0]] + b[1..];
    } else {
      EmptyEncoding(a);
      EmptyEncoding(b);
    }
  }

  lemma {:induction false} EmptyEncoding(a: seq<Run>)
    requires Encoding(a)
    ensures a == [] <==> Flat(a) == []
  {
    if a != [] {
      assert |InStyle(a[0].text, a[0].style)| > 0;
    }
  }

  /** The first run of an encoding is as long as the style lasts. */
  lemma {:induction false} NotLonger(a: seq<Run>, b: seq<Run>)
    requires a != [] && b != [] && Encoding(a) && Flat(a) == Flat(b) && a[0].style == b[0].style
    ensures |b[0].text| <= |a[0].text|
  {
    var n := |a[0].text|;
    var x, y := InStyle(a[0].text, a[0].style), InStyle(b[0].text, b[0].style);
    assert Flat(a) == x + Flat(a[1..]) && Flat(b) == y + Flat(b[1..]);
    assert forall i :: 0 <= i < |y| ==> Flat(b)[i] == y[i] && y[i].1 == b[0].style;
    if |a| > 1 {
      assert Flat(a[1..])[0] == (a[1].text[0], a[1].style);
      assert Flat(a)[n] == Flat(a[1..])[0];
    } else {
      assert a[1..] == [];
    }
  }
}
