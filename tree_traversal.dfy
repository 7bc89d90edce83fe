/**
 * Depth-first traversal of the oct-tree under the control of a visitor.
 * `csrc` names it `traverse` (after each child it calls `farewell`),
 * `csrc2` names it `visit` (`propagate`); both return `true` at once for a
 * leaf or a `DontDescend`.  The root generation's `visit` instead ends every
 * node that was not stopped, leaves included, with `depart`.  A visitor's
 * own state is threaded through its three callbacks.
 */
module Traversal {
  import opened Octree

  /** `Visitor::Status` (the root generation calls `DontDescend` `Sideways`). */
  datatype Status = Stop | Continue | DontDescend

  /**
   * A visitor with state `S`: `visit` is called before a node's children,
   * `farewell` (or `propagate`) after each child, `depart` after the node.
   */
  datatype Visitor<!S> = Visitor(
    visit: (S, Tree) -> (S, Status),
    farewell: (S, Tree, Tree) -> S,
    depart: (S, Tree) -> (S, bool))

  /** `traverse`/`visit` of csrc and csrc2, or `visit` of the root generation. */
  datatype Style = Departing | DepartingLeaves

  /** The value returned by the traversal of `t`, with the visitor's final state. */
  function Walk<S>(style: Style, v: Visitor<S>, s: S, t: Tree): (S, bool)
    decreases t, 1
  {
    var (s1, status) := v.visit(s, t);
    if status == Continue && t.Internal? then
      var (s2, go) := Children(style, v, s1, t, 0);
      if go then v.depart(s2, t) else (s2, false)
    else if status == Stop then (s1, false)
    else if style == DepartingLeaves then v.depart(s1, t)
    else (s1, true)
  }

  /** The loop over children `i ..`: each traversed, then `farewell`; the first `false` ends it. */
  function Children<S>(style: Style, v: Visitor<S>, s: S, t: Tree, i: nat): (S, bool)
    requires t.Internal?
    decreases t, 0, |t.children| - i
  {
    if i >= |t.children| then (s, true)
    else
      var (s1, go) := Walk(style, v, s, t.children[i]);
      var s2 := v.farewell(s1, t, t.children[i]);
      if go then Children(style, v, s2, t, i + 1) else (s2, false)
  }

  /**
   * The traversal as the C++ runs it: `visit`, then for a continued
   * Internal node the loop `for (i = 0; i < N_Children && should_continue; i++)`.
   */
  method Traverse<S>(style: Style, v: Visitor<S>, s: S, t: Tree) returns (s': S, go: bool)
    requires Octal(t)
    ensures (s', go) == Walk(style, v, s, t)
    decreases t
  {
    var status;
    s', status := v.visit(s, t).0, v.visit(s, t).1;
    if status == Continue && t.Internal? {
      ghost var s1 := s';
      var i := 0;
      go := true;
      while i < N_CHILDREN && go
        invariant 0 <= i <= N_CHILDREN
        invariant Children(style, v, s1, t, 0) == if go then Children(style, v, s', t, i) else (s', false)
        decreases N_CHILDREN - i
      {
        var s2;
        s2, go := Traverse(style, v, s', t.children[i]);
        s' := v.farewell(s2, t, t.children[i]);
        i := i + 1;
      }
      if go {
        s', go := v.depart(s', t).0, v.depart(s', t).1;
      }
    } else if status == Stop {
      go := false;
    } else if style == DepartingLeaves {
      s', go := v.depart(s', t).0, v.depart(s', t).1;
    } else {
      go := true;
    }
  }

  // ---------------------------------------------------------------------
  // What a traversal does.

  /** The nodes in depth-first order, each before its children, children 0 to 7. */
  function Preorder(t: Tree): seq<Tree> {
    match t
    case Internal(_, cs) => [t] + PreorderAll(cs)
    case _ => [t]
  }

  function PreorderAll(cs: seq<Tree>): seq<Tree> {
    if cs == [] then [] else Preorder(cs[0]) + PreorderAll(cs[1..])
  }

  /** A visitor that records each node it visits and always continues. */
  function Recorder(): Visitor<seq<Tree>> {
    Visitor((trace: seq<Tree>, t: Tree) => (trace + [t], Continue),
            (trace: seq<Tree>, t: Tree, c: Tree) => trace,
            (trace: seq<Tree>, t: Tree) => (trace, true))
  }

  /** Never stopped, either traversal visits every node once, in depth-first order. */
  lemma {:induction false} WalkVisitsPreorder(style: Style, trace: seq<Tree>, t: Tree)
    ensures Walk(style, Recorder(), trace, t) == (trace + Preorder(t), true)
    decreases t, 1
  {
    assert Recorder().visit(trace, t) == (trace + [t], Continue);
    if t.Internal? {
      ChildrenVisitPreorder(style, trace + [t], t, 0);
      assert t.children[0..] == t.children;
      assert (trace + [t]) + PreorderAll(t.children) == trace + Preorder(t);
    }
  }

  lemma {:induction false} ChildrenVisitPreorder(style: Style, trace: seq<Tree>, t: Tree, i: nat)
    requires t.Internal? && i <= |t.children|
    ensures Children(style, Recorder(), trace, t, i) == (trace + PreorderAll(t.children[i..]), true)
    decreases t, 0, |t.children| - i
  {
    var cs := t.children;
    if i < |cs| {
      WalkVisitsPreorder(style, trace, cs[i]);
      ChildrenVisitPreorder(style, trace + Preorder(cs[i]), t, i + 1);
      assert cs[i..][1..] == cs[i + 1..];
      assert PreorderAll(cs[i..]) == Preorder(cs[i]) + PreorderAll(cs[i + 1..]);
      assert (trace + Preorder(cs[i])) + PreorderAll(cs[i + 1..]) == trace + PreorderAll(cs[i..]);
    } else {
      assert cs[i..] == [];
      assert trace + PreorderAll([]) == trace;
    }
  }

  /** The depth-first order lists every node of the tree once. */
  lemma {:induction false} PreorderCount(t: Tree)
    ensures |Preorder(t)| == Count(t)
  {
    if t.Internal? {
      PreorderAllCount(t.children);
    }
  }

  lemma {:induction false} PreorderAllCount(cs: seq<Tree>)
    ensures |PreorderAll(cs)| == CountAll(cs)
  {
    if cs != [] {
      PreorderCount(cs[0]);
      PreorderAllCount(cs[1..]);
    }
  }

  /** A visitor that counts its `depart` calls and always continues. */
  function Departures(): Visitor<int> {
    Visitor((n: int, t: Tree) => (n, Continue),
            (n: int, t: Tree, c: Tree) => n,
            (n: int, t: Tree) => (n + 1, true))
  }

  /**
   * `depart` ends every Internal node in csrc and csrc2, and every node
   * in the root generation.
   */
  lemma {:induction false} WalkDepartures(style: Style, n: int, t: Tree)
    ensures Walk(style, Departures(), n, t) ==
      (n + (if style == Departing then Internals(t) else Count(t)), true)
    decreases t, 1
  {
    if t.Internal? {
      ChildrenDepartures(style, n, t, 0);
      assert t.children[0..] == t.children;
    }
  }

  lemma {:induction false} ChildrenDepartures(style: Style, n: int, t: Tree, i: nat)
    requires t.Internal? && i <= |t.children|
    ensures Children(style, Departures(), n, t, i) ==
      (n + (if style == Departing then InternalsAll(t.children[i..]) else CountAll(t.children[i..])), true)
    decreases t, 0, |t.children| - i
  {
    var cs := t.children;
    if i < |cs| {
      WalkDepartures(style, n, cs[i]);
      var m := n + (if style == Departing then Internals(cs[i]) else Count(cs[i]));
      ChildrenDepartures(style, m, t, i + 1);
      assert cs[i..][1..] == cs[i + 1..];
    }
  }

  /** Some node reached through continued nodes says Stop. */
  predicate Stops(f: Tree -> Status, t: Tree)
    decreases t
  {
    f(t) == Stop ||
    (f(t) == Continue && t.Internal? && exists o :: 0 <= o < |t.children| && Stops(f, t.children[o]))
  }

  /**
   * For a visitor whose status depends only on the node and whose `depart`
   * agrees to go on, the traversal returns `false` exactly when some node it
   * reaches says Stop: `DontDescend` prunes, Stop ends everything.
   */
  lemma {:induction false} WalkStopsIff<S>(style: Style, v: Visitor<S>, f: Tree -> Status, s: S, t: Tree)
    requires forall s, t :: v.visit(s, t).1 == f(t)
    requires forall s, t :: v.depart(s, t).1
    ensures !Walk(style, v, s, t).1 <==> Stops(f, t)
    decreases t, 1
  {
    var s1 := v.visit(s, t).0;
    assert v.visit(s, t) == (s1, f(t));
    if f(t) == Continue && t.Internal? {
      ChildrenStopIff(style, v, f, s1, t, 0);
      var (s2, go) := Children(style, v, s1, t, 0);
      assert v.depart(s2, t).1;
    } else if f(t) != Stop && style == DepartingLeaves {
      GoesOn(v, s1, t);
    }
  }

  lemma GoesOn<S>(v: Visitor<S>, s: S, t: Tree)
    requires forall s, t :: v.depart(s, t).1
    ensures v.depart(s, t).1
  {
  }

  lemma {:induction false} ChildrenStopIff<S>(style: Style, v: Visitor<S>, f: Tree -> Status, s: S, t: Tree, i: nat)
    requires forall s, t :: v.visit(s, t).1 == f(t)
    requires forall s, t :: v.depart(s, t).1
    requires t.Internal? && i <= |t.children|
    ensures !Children(style, v, s, t, i).1 <==> exists o :: i <= o < |t.children| && Stops(f, t.children[o])
    decreases t, 0, |t.children| - i
  {
    var cs := t.children;
    if i < |cs| {
      WalkStopsIff(style, v, f, s, cs[i]);
      var (s1, go) := Walk(style, v, s, cs[i]);
      var s2 := v.farewell(s1, t, cs[i]);
      ChildrenStopIff(style, v, f, s2, t, i + 1);
      if exists o :: i <= o < |cs| && Stops(f, cs[o]) {
        var o :| i <= o < |cs| && Stops(f, cs[o]);
        if o > i && go {
          assert i + 1 <= o;
        }
      }
    }
  }
}
