/** partsTree as it runs: nodes that are appended to and changed in place while they are open. A
    node is its index in the list of all nodes, in order of creation. */
module MarkupTree {
  import opened Digits
  import opened Markup
  import opened MarkupProofs

  /** node: a text when its tag is empty, else an element with children. */
  datatype Item = Item(tag: string, text: string, children: seq<nat>)

  datatype OpenItem = OpenItem(name: string, el: Option<nat>)

  /** Children are created after their parent. */
  predicate Ordered(nodes: seq<Item>) {
    forall i, k :: 0 <= i < |nodes| && 0 <= k < |nodes[i].children| ==> i < nodes[i].children[k] < |nodes|
  }

  /** The tree of a node. */
  function TreeAt(nodes: seq<Item>, i: nat): Tree
    requires Ordered(nodes) && i < |nodes|
    decreases |nodes| - i, |nodes[i].children| + 1
  {
    if nodes[i].tag == "" then Text(nodes[i].text) else Node(nodes[i].tag, TreesAt(nodes, i, |nodes[i].children|))
  }

  /** The trees of a node's first k children. */
  function TreesAt(nodes: seq<Item>, i: nat, k: nat): (r: seq<Tree>)
    requires Ordered(nodes) && i < |nodes| && k <= |nodes[i].children|
    ensures |r| == k
    decreases |nodes| - i, k
  {
    if k == 0 then [] else TreesAt(nodes, i, k - 1) + [TreeAt(nodes, nodes[i].children[k - 1])]
  }

  function AllTrees(nodes: seq<Item>, i: nat): seq<Tree>
    requires Ordered(nodes) && i < |nodes|
  {
    TreesAt(nodes, i, |nodes[i].children|)
  }

  /** Every node below i was created before hi. */
  predicate Within(nodes: seq<Item>, i: nat, hi: nat)
    requires Ordered(nodes) && i < |nodes|
    decreases |nodes| - i
  {
    i < hi && forall k :: 0 <= k < |nodes[i].children| ==> Within(nodes, nodes[i].children[k], hi)
  }

  lemma {:induction false} AllWithin(nodes: seq<Item>, i: nat)
    requires Ordered(nodes) && i < |nodes|
    ensures Within(nodes, i, |nodes|)
    decreases |nodes| - i
  {
    forall k | 0 <= k < |nodes[i].children| ensures Within(nodes, nodes[i].children[k], |nodes|) {
      AllWithin(nodes, nodes[i].children[k]);
    }
  }

  predicate Agree(a: seq<Item>, b: seq<Item>, lo: nat, hi: nat) {
    hi <= |a| && hi <= |b| && forall x :: lo <= x < hi ==> a[x] == b[x]
  }

  /** A subtree does not change when the nodes between its root and its bound do not. */
  lemma {:induction false} SameTree(a: seq<Item>, b: seq<Item>, i: nat, hi: nat)
    requires Ordered(a) && Ordered(b) && i < |a| && Within(a, i, hi) && Agree(a, b, i, hi)
    ensures TreeAt(a, i) == TreeAt(b, i) && Within(b, i, hi)
    decreases |a| - i, |a[i].children| + 1
  {
    assert a[i] == b[i];
    SameTrees(a, b, i, |a[i].children|, hi);
    forall k | 0 <= k < |b[i].children| ensures Within(b, b[i].children[k], hi) {
      SameTree(a, b, a[i].children[k], hi);
    }
  }

  lemma {:induction false} SameTrees(a: seq<Item>, b: seq<Item>, i: nat, k: nat, hi: nat)
    requires Ordered(a) && Ordered(b) && i < |a| && i < |b| && k <= |a[i].children| && k <= |b[i].children|
    requires forall j :: 0 <= j < k ==> a[i].children[j] == b[i].children[j] && Within(a, a[i].children[j], hi)
    requires Agree(a, b, i + 1, hi)
    ensures TreesAt(a, i, k) == TreesAt(b, i, k)
    ensures forall j :: 0 <= j < k ==> Within(b, b[i].children[j], hi)
    decreases |a| - i, k
  {
    hide TreeAt, Within;
    if k > 0 {
      SameTrees(a, b, i, k - 1, hi);
      SameTree(a, b, a[i].children[k - 1], hi);
    }
  }

  // ----- The spine -----

  function Els(stack: seq<OpenItem>): seq<nat> {
    if stack == [] then [] else (if stack[0].el.Some? then [stack[0].el.value] else []) + Els(stack[1..])
  }

  /** The root and the nodes of the open safe elements, outermost first. */
  function Spine(stack: seq<OpenItem>): seq<nat> {
    [0] + Els(stack)
  }

  function Entries(stack: seq<OpenItem>): seq<Entry> {
    seq(|stack|, i requires 0 <= i < |stack| => Entry(stack[i].name, stack[i].el.Some?))
  }

  /** How many children of the j-th node on the spine are closed: all but the next one on it. */
  function Closed(nodes: seq<Item>, spine: seq<nat>, j: nat): nat
    requires j < |spine| && spine[j] < |nodes|
  {
    var c := |nodes[spine[j]].children|;
    if j < |spine| - 1 && c > 0 then c - 1 else c
  }

  /** The j-th node on the spine stands for its level, its last child is the next node on the
      spine, and the subtrees of earlier children were created before it. */
  predicate LevelAt(nodes: seq<Item>, spine: seq<nat>, levels: seq<Level>, j: nat)
    requires Ordered(nodes) && j < |spine| && j < |levels|
  {
    spine[j] < |nodes| &&
    var n := nodes[spine[j]];
    var c := |n.children|;
    n.tag == levels[j].tag && levels[j].kids == TreesAt(nodes, spine[j], Closed(nodes, spine, j)) &&
    (j < |spine| - 1 ==> c > 0 && n.children[c - 1] == spine[j + 1]) &&
    forall k :: 0 <= k < c - 1 ==> Within(nodes, n.children[k], n.children[c - 1])
  }

  /** The invariant: the open safe elements lie on the rightmost spine of the tree. */
  predicate Stands(nodes: seq<Item>, spine: seq<nat>, levels: seq<Level>) {
    Ordered(nodes) && |spine| == |levels| && spine != [] && spine[0] == 0 &&
    (forall j :: 0 <= j < |spine| - 1 ==> spine[j] < spine[j + 1]) &&
    (forall j :: 1 <= j < |spine| ==> levels[j].tag != "") &&
    forall j :: 0 <= j < |spine| ==> LevelAt(nodes, spine, levels, j)
  }

  lemma {:induction false} SpineRises(spine: seq<nat>, i: nat, j: nat)
    requires i <= j < |spine| && forall j :: 0 <= j < |spine| - 1 ==> spine[j] < spine[j + 1]
    ensures spine[i] <= spine[j] && (i < j ==> spine[i] < spine[j])
    decreases j - i
  {
    if i < j {
      SpineRises(spine, i + 1, j);
    }
  }

  function TopOf(spine: seq<nat>): nat
    requires spine != []
  {
    spine[|spine| - 1]
  }

  /** A level below the top does not change when only the top node and later ones do. */
  lemma {:induction false} LevelStays(a: seq<Item>, b: seq<Item>, spine: seq<nat>, levels: seq<Level>, spine': seq<nat>,
                                      levels': seq<Level>, j: nat)
    requires Stands(a, spine, levels) && Ordered(b) && j < |spine| - 1 && Agree(a, b, 0, TopOf(spine))
    requires j + 1 < |spine'| && j < |levels'| && levels'[j] == levels[j] && spine'[j] == spine[j] && spine'[j + 1] == spine[j + 1]
    ensures LevelAt(b, spine', levels', j)
  {
    hide TreeAt, TreesAt, Within;
    SpineRises(spine, j + 1, |spine| - 1);
    assert LevelAt(a, spine, levels, j);
    var n := a[spine[j]];
    SameTrees(a, b, spine[j], |n.children| - 1, spine[j + 1]);
  }

  // ----- Changing the top node -----

  /** A new node as the last child. */
  function AddChild(nodes: seq<Item>, top: nat, item: Item): seq<Item>
    requires top < |nodes|
  {
    nodes[top := nodes[top].(children := nodes[top].children + [|nodes|])] + [item]
  }

  function Leaf(item: Item): Tree {
    if item.tag == "" then Text(item.text) else Node(item.tag, [])
  }

  lemma {:induction false} AddedChild(nodes: seq<Item>, top: nat, item: Item)
    requires Ordered(nodes) && top < |nodes| && item.children == []
    ensures var b := AddChild(nodes, top, item);
            var c := |nodes[top].children|;
            Ordered(b) && TreesAt(b, top, c) == TreesAt(nodes, top, c) && TreeAt(b, |nodes|) == Leaf(item) &&
            TreesAt(b, |nodes|, 0) == [] && forall k :: 0 <= k < c ==> Within(b, nodes[top].children[k], |nodes|)
  {
    hide Within;
    var b := AddChild(nodes, top, item);
    var c := |nodes[top].children|;
    assert Ordered(b);
    forall k | 0 <= k < c ensures Within(nodes, nodes[top].children[k], |nodes|) {
      AllWithin(nodes, nodes[top].children[k]);
    }
    SameTrees(nodes, b, top, c, |nodes|);
  }

  lemma {:induction false} TreesNext(nodes: seq<Item>, i: nat, k: nat)
    requires Ordered(nodes) && i < |nodes| && 0 < k <= |nodes[i].children|
    ensures TreesAt(nodes, i, k) == TreesAt(nodes, i, k - 1) + [TreeAt(nodes, nodes[i].children[k - 1])]
  {
  }

  /** Appending a leaf to the top node. */
  lemma {:induction false} AddStands(nodes: seq<Item>, spine: seq<nat>, levels: seq<Level>, item: Item)
    requires Stands(nodes, spine, levels) && item.children == []
    ensures TopOf(spine) < |nodes|
    ensures Stands(AddChild(nodes, TopOf(spine), item), spine, OnTop(levels, Top(levels) + [Leaf(item)]))
  {
    hide TreeAt, TreesAt, Within, Leaf;
    var top, last := TopOf(spine), |spine| - 1;
    assert LevelAt(nodes, spine, levels, last);
    var b := AddChild(nodes, top, item);
    var levels' := OnTop(levels, Top(levels) + [Leaf(item)]);
    AddedChild(nodes, top, item);
    TreesNext(b, top, |b[top].children|);
    forall j | 0 <= j < |spine| ensures LevelAt(b, spine, levels', j) {
      if j < last {
        LevelStays(nodes, b, spine, levels, spine, levels', j);
      }
    }
  }

  /** Opening a safe element. */
  lemma {:induction false} OpenStands(nodes: seq<Item>, spine: seq<nat>, levels: seq<Level>, tag: string)
    requires Stands(nodes, spine, levels) && tag != ""
    ensures TopOf(spine) < |nodes|
    ensures Stands(AddChild(nodes, TopOf(spine), Item(tag, "", [])), spine + [|nodes|], levels + [Level(tag, [])])
  {
    hide TreeAt, TreesAt, Within, Leaf;
    var top, last := TopOf(spine), |spine| - 1;
    assert LevelAt(nodes, spine, levels, last);
    var b := AddChild(nodes, top, Item(tag, "", []));
    var spine', levels' := spine + [|nodes|], levels + [Level(tag, [])];
    AddedChild(nodes, top, Item(tag, "", []));
    forall j | 0 <= j < |spine'| ensures LevelAt(b, spine', levels', j) {
      if j < last {
        LevelStays(nodes, b, spine, levels, spine', levels', j);
      }
    }
  }

  /** Extending the last text of the top node. */
  lemma {:induction false} TextStands(nodes: seq<Item>, spine: seq<nat>, levels: seq<Level>, s: string)
    requires Stands(nodes, spine, levels) && s != ""
    requires TopOf(spine) < |nodes| && nodes[TopOf(spine)].children != []
    requires var cs := nodes[TopOf(spine)].children; nodes[cs[|cs| - 1]].tag == ""
    ensures var cs := nodes[TopOf(spine)].children;
            var t := cs[|cs| - 1];
            Stands(nodes[t := nodes[t].(text := nodes[t].text + s)], spine, OnTop(levels, AddText(Top(levels), s)))
  {
    hide Within, TreesAt;
    var top, last := TopOf(spine), |spine| - 1;
    assert LevelAt(nodes, spine, levels, last);
    var cs := nodes[top].children;
    var c := |cs|;
    var t := cs[c - 1];
    var b := nodes[t := nodes[t].(text := nodes[t].text + s)];
    assert Ordered(b);
    var levels' := OnTop(levels, AddText(Top(levels), s));
    SameTrees(nodes, b, top, c - 1, t);
    TreesNext(nodes, top, c);
    TreesNext(b, top, c);
    assert Top(levels)[..c - 1] == TreesAt(nodes, top, c - 1);
    forall j | 0 <= j < |spine| ensures LevelAt(b, spine, levels', j) {
      if j < last {
        LevelStays(nodes, b, spine, levels, spine, levels', j);
      }
    }
  }

  /** Closing the top node: it changes nothing but which node is the top. */
  lemma {:induction false} CollapseStands(nodes: seq<Item>, spine: seq<nat>, levels: seq<Level>)
    requires Stands(nodes, spine, levels) && |spine| >= 2
    ensures Stands(nodes, spine[..|spine| - 1], Collapse(levels))
  {
    hide Within, TreesAt, TreeAt, Collapse;
    var n := |spine|;
    assert LevelAt(nodes, spine, levels, n - 1) && LevelAt(nodes, spine, levels, n - 2);
    var below := spine[n - 2];
    TreesNext(nodes, below, |nodes[below].children|);
    TopTree(nodes, spine[n - 1]);
    CollapseAt(levels);
    var spine', levels' := spine[..n - 1], Collapse(levels);
    forall j | 0 <= j < n - 1 ensures LevelAt(nodes, spine', levels', j) {
      if j < n - 2 {
        assert levels'[j] == levels'[..n - 2][j] == levels[j];
        LevelStays(nodes, nodes, spine, levels, spine', levels', j);
      }
    }
    forall j | 1 <= j < n - 1 ensures levels'[j].tag != "" {
      assert j < n - 2 ==> levels'[j] == levels'[..n - 2][j];
    }
  }

  lemma {:induction false} TopTree(nodes: seq<Item>, i: nat)
    requires Ordered(nodes) && i < |nodes|
    ensures nodes[i].tag != "" ==> TreeAt(nodes, i) == Node(nodes[i].tag, AllTrees(nodes, i))
  {
  }

  lemma {:induction false} CloseStands(nodes: seq<Item>, spine: seq<nat>, levels: seq<Level>, n: nat)
    requires Stands(nodes, spine, levels) && n < |spine|
    ensures Stands(nodes, spine[..|spine| - n], CloseLevels(levels, n))
    decreases n
  {
    hide Stands, CloseLevels, Collapse;
    SameSize(nodes, spine, levels);
    CloseOnce(levels, n);
    if n > 0 {
      CollapseStands(nodes, spine, levels);
      CloseStands(nodes, spine[..|spine| - 1], Collapse(levels), n - 1);
      assert spine[..|spine| - 1][..|spine| - n] == spine[..|spine| - n];
    } else {
      assert spine[..|spine|] == spine;
    }
  }

  lemma {:induction false} SameSize(nodes: seq<Item>, spine: seq<nat>, levels: seq<Level>)
    requires Stands(nodes, spine, levels)
    ensures |spine| == |levels| && spine != []
  {
  }

  /** With everything closed the root's children are the finished forest. */
  lemma {:induction false} StandsForForest(nodes: seq<Item>, spine: seq<nat>, levels: seq<Level>)
    requires Stands(nodes, spine, levels)
    ensures nodes != [] && AllTrees(nodes, 0) == Finish(levels)
  {
    hide TreesAt, Within, CloseLevels;
    var n := |levels| - 1;
    CloseStands(nodes, spine, levels, n);
    FinishClose(levels, n);
    var one := CloseLevels(levels, n);
    assert LevelAt(nodes, spine[..|spine| - n], one, 0);
    assert one[0].kids + [] == one[0].kids;
  }
}
