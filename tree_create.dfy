/**
 * `Node::create`: a root over a given cube, then particles inserted one by
 * one in index order.  Each generation supplies its own cube and checks.
 */
module TreeCreate {
  import opened Wrappers
  import opened Octree

  /** No two of the first `n` particles share a position. */
  predicate Distinct(points: seq<Point>, n: nat)
    requires n <= |points|
  {
    forall i, j :: 0 <= i < j < n ==> points[i] != points[j]
  }

  /**
   * What `create` needs for `insert` to end: each particle in the root box
   * unless the range check is made, and distinct positions unless the
   * proximity test is made in a box of positive side.
   */
  predicate Buildable(box: Box, points: seq<Point>, checks: Checks) {
    (checks.range || forall i :: 0 <= i < |points| ==> InBox(box, points[i])) &&
    ((checks.proximity && Side(box) > 0.0) || Distinct(points, |points|))
  }

  /** The loop invariant of `create`: particles `0 .. n-1` are in the tree, once each. */
  ghost predicate HoldsFirst(tree: Tree, box: Box, points: seq<Point>, n: nat) {
    tree.box == box && WellFormed(tree, points) &&
    forall i: nat :: Occurrences(tree, i) == if i < n then 1 else 0
  }

  /** The next particle may be inserted into a tree holding the ones before it. */
  lemma NextSeparable(tree: Tree, box: Box, points: seq<Point>, checks: Checks, n: nat)
    requires Buildable(box, points, checks) && n < |points|
    requires HoldsFirst(tree, box, points, n)
    ensures Separable(tree, points, n, checks)
  {
  }

  /** One successful `insert` of particle `n` extends the invariant to `n + 1`. */
  lemma NextHolds(tree: Tree, box: Box, points: seq<Point>, checks: Checks, n: nat)
    requires Buildable(box, points, checks) && n < |points|
    requires HoldsFirst(tree, box, points, n)
    requires Separable(tree, points, n, checks)
    requires Insert(tree, n, points, checks).Ok?
    ensures HoldsFirst(Insert(tree, n, points, checks).value, box, points, n + 1)
  {
    forall i: nat
      ensures Occurrences(Insert(tree, n, points, checks).value, i) == if i < n + 1 then 1 else 0
    {
      InsertHolds(tree, n, points, checks, i);
    }
  }

  /**
   * Two of the particles are closer than `epsilon` times the root's side:
   * what a proximity throw reveals, since the node it meets is no wider.
   */
  predicate TooCloseTo(box: Box, points: seq<Point>) {
    exists i, j :: 0 <= j < i < |points| && DistanceSq(points[i], points[j]) < PROXIMITY * Side(box)
  }

  /**
   * When particle `n` lies in the root box, a throw of its `insert` is the
   * proximity test's, against an earlier particle.
   */
  lemma InsertRejectedClose(tree: Tree, box: Box, points: seq<Point>, checks: Checks, n: nat)
    requires n < |points| && HoldsFirst(tree, box, points, n) && InBox(box, points[n])
    requires Separable(tree, points, n, checks)
    requires Insert(tree, n, points, checks).Err?
    ensures checks.proximity && TooCloseTo(box, points)
  {
    var p := points[n];
    InsertFailsIff(tree, n, points, checks);
    var leaf := Leaf(tree, p);
    LeafStored(tree, p, points);
    var j := leaf.index;
    assert Occurrences(tree, j) > 0;
    assert DistanceSq(p, points[j]) < PROXIMITY * Side(leaf.box);
    assert PROXIMITY * Side(leaf.box) <= PROXIMITY * Side(box);
    assert 0 <= j < n < |points|;
  }

  /**
   * `create`'s insertion loop on a root over `box`: particles `0 .. n-1` in
   * increasing order; the first throw ends it.  On success each particle
   * sits in exactly one External node and no other index appears; only a
   * check can throw, and the range check throws whenever a particle lies
   * outside the root box.  With every particle inside it, a throw is the
   * proximity test's and there are two particles too close together.
   */
  method Create(box: Box, points: seq<Point>, checks: Checks) returns (r: Result<Tree>)
    requires Buildable(box, points, checks)
    ensures r.Err? ==> r.error == LogicError && (checks.range || checks.proximity)
    ensures r.Ok? ==> HoldsFirst(r.value, box, points, |points|)
    ensures !checks.range && !checks.proximity ==> r.Ok?
    ensures checks.range && (exists i :: 0 <= i < |points| && !InBox(box, points[i])) ==> r.Err?
    ensures r.Err? && (forall i :: 0 <= i < |points| ==> InBox(box, points[i])) ==>
      checks.proximity && TooCloseTo(box, points)
  {
    var tree := Unused(box);
    for index := 0 to |points|
      invariant HoldsFirst(tree, box, points, index)
      invariant checks.range ==> forall i :: 0 <= i < index ==> InBox(box, points[i])
    {
      NextSeparable(tree, box, points, checks, index);
      var inserted := Insert(tree, index, points, checks);
      InsertFailsIff(tree, index, points, checks);
      if inserted.Err? {
        if forall i :: 0 <= i < |points| ==> InBox(box, points[i]) {
          InsertRejectedClose(tree, box, points, checks, index);
        }
        return Err(LogicError);
      }
      NextHolds(tree, box, points, checks, index);
      tree := inserted.value;
    }
    r := Ok(tree);
  }
}
