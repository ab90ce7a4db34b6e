/** The external variables of a message (messageformat/arguments.go): following .local declarations
    to the variable they are bound to. */
module Roots {
  import opened Digits

  /** What a .local declaration is bound to: a variable, or a literal or nothing. */
  datatype Binding = Variable(name: string) | NoVariable

  type Locals = map<string, Binding>

  /** The loop of root, with the number of steps left. */
  function Follow(locals: Locals, name: string, steps: nat): Option<string>
    decreases steps
  {
    if steps == 0 then None
    else if name !in locals then Some(name)
    else if locals[name].NoVariable? || locals[name].name == name then None
    else Follow(locals, locals[name].name, steps - 1)
  }

  function Root(locals: Locals, name: string): Option<string> {
    Follow(locals, name, |locals| + 1)
  }

  method FindRoot(locals: Locals, name: string) returns (r: Option<string>)
    ensures r == Root(locals, name)
  {
    var at := name;
    var left: nat := |locals| + 1;
    while left > 0
      invariant Follow(locals, at, left) == Root(locals, name)
      decreases left
    {
      if at !in locals {
        return Some(at);
      }
      var b := locals[at];
      if b.NoVariable? || b.name == at {
        return None;
      }
      at := b.name;
      left := left - 1;
    }
    r := None;
  }

  // ----- Paths -----

  /** A chain of bindings: each name but the last is a local bound to the next. */
  predicate Path(locals: Locals, p: seq<string>) {
    p != [] && forall i :: 0 <= i < |p| - 1 ==> Bound(locals, p[i], p[i + 1])
  }

  predicate Bound(locals: Locals, a: string, b: string) {
    a in locals && locals[a] == Variable(b)
  }

  /** name is bound, in any number of steps, to the variable r, which is no local. */
  ghost predicate BoundTo(locals: Locals, name: string, r: string) {
    r !in locals && exists p :: Path(locals, p) && p[0] == name && p[|p| - 1] == r
  }

  lemma {:induction false} FollowIsPath(locals: Locals, name: string, steps: nat)
    ensures Follow(locals, name, steps).Some? ==> BoundTo(locals, name, Follow(locals, name, steps).value)
    decreases steps
  {
    var r := Follow(locals, name, steps);
    if r.Some? {
      if name !in locals {
        assert Path(locals, [name]);
      } else {
        var next := locals[name].name;
        FollowIsPath(locals, next, steps - 1);
        var p :| Path(locals, p) && p[0] == next && p[|p| - 1] == r.value;
        var q := [name] + p;
        assert forall i :: 0 < i < |q| - 1 ==> q[i] == p[i - 1] && q[i + 1] == p[i];
        assert Path(locals, q);
      }
    }
  }

  /** A path that ends outside the locals repeats no name, since a local has one binding. */
  lemma {:induction false} PathIsAcyclic(locals: Locals, p: seq<string>, i: nat, j: nat)
    requires Path(locals, p) && p[|p| - 1] !in locals && i < j < |p|
    ensures p[i] != p[j]
    decreases |p| - j
  {
    if j == |p| - 1 {
      assert Bound(locals, p[i], p[i + 1]);
    } else {
      PathIsAcyclic(locals, p, i + 1, j + 1);
      assert Bound(locals, p[i], p[i + 1]) && Bound(locals, p[j], p[j + 1]);
    }
  }

  /** The pigeonhole: distinct locals number at most all of them. */
  lemma {:induction false} DistinctCount(names: seq<string>, all: set<string>)
    requires forall i :: 0 <= i < |names| ==> names[i] in all
    requires forall i, j :: 0 <= i < j < |names| ==> names[i] != names[j]
    ensures |names| <= |all|
  {
    if names != [] {
      var last := names[|names| - 1];
      DistinctCount(names[..|names| - 1], all - {last});
    }
  }

  lemma {:induction false} PathIsShort(locals: Locals, p: seq<string>)
    requires Path(locals, p) && p[|p| - 1] !in locals
    ensures |p| <= |locals| + 1
  {
    var init := p[..|p| - 1];
    forall i | 0 <= i < |init| ensures init[i] in locals.Keys {
      assert Bound(locals, p[i], p[i + 1]);
    }
    forall i, j | 0 <= i < j < |init| ensures init[i] != init[j] {
      PathIsAcyclic(locals, p, i, j);
    }
    DistinctCount(init, locals.Keys);
    assert |locals.Keys| == |locals|;
  }

  lemma {:induction false} FollowPath(locals: Locals, p: seq<string>, steps: nat)
    requires Path(locals, p) && p[|p| - 1] !in locals && |p| <= steps
    ensures Follow(locals, p[0], steps) == Some(p[|p| - 1])
    decreases |p|
  {
    if |p| > 1 {
      assert Bound(locals, p[0], p[1]);
      PathIsAcyclic(locals, p, 0, 1);
      forall i | 0 <= i < |p[1..]| - 1 ensures Bound(locals, p[1..][i], p[1..][i + 1]) {
        assert Bound(locals, p[i + 1], p[i + 2]);
      }
      FollowPath(locals, p[1..], steps - 1);
    }
  }

  /** root finds r exactly when the name is bound to the external variable r; as many steps as
      there are locals, and one more, always suffice, and more steps find nothing else. */
  lemma {:induction false} RootIsBound(locals: Locals, name: string, r: string)
    ensures Root(locals, name) == Some(r) <==> BoundTo(locals, name, r)
    ensures forall steps :: steps >= |locals| + 1 ==> Follow(locals, name, steps) == Root(locals, name)
  {
    FollowIsPath(locals, name, |locals| + 1);
    if BoundTo(locals, name, r) {
      var p :| Path(locals, p) && p[0] == name && p[|p| - 1] == r;
      PathIsShort(locals, p);
      FollowPath(locals, p, |locals| + 1);
    }
    forall steps | steps >= |locals| + 1 ensures Follow(locals, name, steps) == Root(locals, name) {
      EnoughSteps(locals, name, steps);
    }
  }

  lemma {:induction false} EnoughSteps(locals: Locals, name: string, steps: nat)
    requires steps >= |locals| + 1
    ensures Follow(locals, name, steps) == Root(locals, name)
  {
    hide Follow;
    FollowIsPath(locals, name, steps);
    FollowIsPath(locals, name, |locals| + 1);
    if Follow(locals, name, steps).Some? {
      Shorten(locals, name, Follow(locals, name, steps).value, |locals| + 1);
    } else if Root(locals, name).Some? {
      Shorten(locals, name, Root(locals, name).value, steps);
    }
  }

  lemma {:induction false} Shorten(locals: Locals, name: string, r: string, steps: nat)
    requires BoundTo(locals, name, r) && steps >= |locals| + 1
    ensures Follow(locals, name, steps) == Some(r)
  {
    hide Follow;
    var p :| Path(locals, p) && p[0] == name && p[|p| - 1] == r;
    PathIsShort(locals, p);
    FollowPath(locals, p, steps);
  }

  // ----- Observed variables -----

  /** An external variable and the function that annotates it, if any. */
  datatype Argument = Argument(name: string, fn: Option<string>)

  /** A use of a variable, with the function annotating it there. */
  datatype Use = Use(name: string, fn: Option<string>)

  predicate Listed(args: seq<Argument>, name: string) {
    exists i :: 0 <= i < |args| && args[i].name == name
  }

  /** The arguments after one use: its root is listed once, in order of first appearance; an
      .input annotation wins, else the first annotated use. */
  function Observe(locals: Locals, inputs: map<string, Option<string>>, args: seq<Argument>, use: Use): seq<Argument> {
    var root := Root(locals, use.name);
    if root.None? then args
    else if !Listed(args, root.value) then
      args + [Argument(root.value, if root.value in inputs then inputs[root.value] else use.fn)]
    else Annotate(args, root.value, use.fn)
  }

  /** Gives the listed argument its function unless it has one. */
  function Annotate(args: seq<Argument>, name: string, fn: Option<string>): (r: seq<Argument>)
    ensures |r| == |args|
    ensures forall i :: 0 <= i < |r| ==> r[i].name == args[i].name
  {
    if args == [] then []
    else if args[0].name == name then [if args[0].fn.None? then args[0].(fn := fn) else args[0]] + args[1..]
    else [args[0]] + Annotate(args[1..], name, fn)
  }

  function ObserveAll(locals: Locals, inputs: map<string, Option<string>>, args: seq<Argument>, uses: seq<Use>): seq<Argument>
    decreases |uses|
  {
    if uses == [] then args else ObserveAll(locals, inputs, Observe(locals, inputs, args, uses[0]), uses[1..])
  }

  predicate ListedOnce(args: seq<Argument>) {
    forall i, j :: 0 <= i < j < |args| ==> args[i].name != args[j].name
  }

  ghost predicate Roots(locals: Locals, uses: seq<Use>, name: string) {
    exists u :: u in uses && BoundTo(locals, u.name, name)
  }

  lemma {:induction false} ObserveLists(locals: Locals, inputs: map<string, Option<string>>, args: seq<Argument>, use: Use)
    requires ListedOnce(args)
    ensures var out := Observe(locals, inputs, args, use);
            ListedOnce(out) && forall n :: Listed(out, n) <==> Listed(args, n) || BoundTo(locals, use.name, n)
  {
    hide Follow, Annotate, BoundTo;
    var out := Observe(locals, inputs, args, use);
    forall n ensures Listed(out, n) <==> Listed(args, n) || BoundTo(locals, use.name, n) {
      RootIsBound(locals, use.name, n);
      if Listed(args, n) {
        var i :| 0 <= i < |args| && args[i].name == n;
        assert out[i].name == n;
      }
      if Root(locals, use.name) == Some(n) && !Listed(args, n) {
        assert out[|args|].name == n;
      }
    }
  }

  /** The observed arguments are exactly the external variables the uses are bound to, each once
      and never a local. */
  lemma {:induction false} ArgumentsAreRoots(locals: Locals, inputs: map<string, Option<string>>, args: seq<Argument>, uses: seq<Use>)
    requires ListedOnce(args)
    ensures var out := ObserveAll(locals, inputs, args, uses);
            ListedOnce(out) && forall n :: Listed(out, n) <==> Listed(args, n) || Roots(locals, uses, n)
    decreases |uses|
  {
    hide Observe, BoundTo, ListedOnce, Listed;
    if uses != [] {
      var next := Observe(locals, inputs, args, uses[0]);
      ObserveLists(locals, inputs, args, uses[0]);
      ArgumentsAreRoots(locals, inputs, next, uses[1..]);
      assert forall u :: u in uses <==> u == uses[0] || u in uses[1..];
      forall n ensures Roots(locals, uses, n) <==> BoundTo(locals, uses[0].name, n) || Roots(locals, uses[1..], n) {
      }
    }
  }

  /** Arguments of a message: none is a local. */
  lemma {:induction false} ArgumentsAreExternal(locals: Locals, inputs: map<string, Option<string>>, uses: seq<Use>)
    ensures var out := ObserveAll(locals, inputs, [], uses);
            ListedOnce(out) && forall i :: 0 <= i < |out| ==> out[i].name !in locals && Roots(locals, uses, out[i].name)
  {
    hide ObserveAll;
    ArgumentsAreRoots(locals, inputs, [], uses);
    var out := ObserveAll(locals, inputs, [], uses);
    forall i | 0 <= i < |out| ensures out[i].name !in locals && Roots(locals, uses, out[i].name) {
      assert Listed(out, out[i].name);
    }
  }

  /** argumentAnalysis: the arguments seen and their order of first appearance. */
  class Analysis {
    const locals: Locals
    const inputs: map<string, Option<string>>
    var order: seq<string>
    var args: map<string, Option<string>>

    constructor (locals: Locals, inputs: map<string, Option<string>>)
      ensures this.locals == locals && this.inputs == inputs && Valid() && Arguments() == []
    {
      this.locals, this.inputs, order, args := locals, inputs, [], map[];
    }

    ghost predicate Valid()
      reads this
    {
      (forall n :: n in args <==> n in order) && forall i, j :: 0 <= i < j < |order| ==> order[i] != order[j]
    }

    ghost function Arguments(): (r: seq<Argument>)
      reads this
      requires Valid()
    {
      seq(|order|, i requires 0 <= i < |order| reads this => Argument(order[i], if order[i] in args then args[order[i]] else None))
    }

    method ObserveUse(use: Use)
      requires Valid()
      modifies this
      ensures Valid() && Arguments() == Observe(locals, inputs, old(Arguments()), use)
    {
      hide Follow, Annotate;
      var root := FindRoot(locals, use.name);
      if root.None? {
        return;
      }
      var r := root.value;
      assert r in order <==> Listed(Arguments(), r) by {
        assert forall i :: 0 <= i < |order| ==> Arguments()[i].name == order[i];
      }
      if r !in args {
        order := order + [r];
        args := args[r := if r in inputs then inputs[r] else use.fn];
        assert Arguments() == old(Arguments()) + [Argument(r, args[r])];
      } else {
        ghost var before := Arguments();
        if use.fn.Some? && args[r].None? {
          args := args[r := use.fn];
        }
        AnnotateIs(before, Arguments(), r, use.fn);
      }
    }
  }

  lemma {:induction false} AnnotateIs(a: seq<Argument>, b: seq<Argument>, name: string, fn: Option<string>)
    requires |a| == |b| && ListedOnce(a)
    requires forall i :: 0 <= i < |a| ==> b[i] == if a[i].name == name && a[i].fn.None? then a[i].(fn := fn) else a[i]
    ensures b == Annotate(a, name, fn)
  {
    if a != [] {
      if a[0].name == name {
        assert a[1..] == b[1..];
        assert b == [b[0]] + b[1..];
      } else {
        AnnotateIs(a[1..], b[1..], name, fn);
        assert b == [b[0]] + b[1..];
      }
    }
  }
}
