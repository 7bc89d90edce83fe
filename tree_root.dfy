/**
 * The root generation's oct-tree: `get_limits` gives the un-widened cube
 * from the smallest to the largest coordinate, `insert` makes neither the
 * range check nor the proximity test, `visit` ends every node that was not
 * stopped with `depart` (`Traversal.Walk` in the `DepartingLeaves` style),
 * and `accumulatePhysics` weights an External child's centre by its mass
 * converted to `int`.
 */
module RootTree {
  import opened Wrappers
  import opened Octree
  import opened Limits
  import opened TreeCreate
  import opened TreePhysics

  /** The root generation's `insert` checks nothing. */
  const CHECKS: Checks := Checks(false, false)

  /**
   * `get_limits`: the per-axis extremes, then all three axes set to
   * `min(xmin, min(ymin, zmin))` and `max(xmax, max(ymax, zmax))`, with no
   * widening.  Every particle lies in the cube, which is as tight as can be.
   */
  method GetLimits(ps: seq<Point>) returns (xmin: real, xmax: real, ymin: real, ymax: real, zmin: real, zmax: real)
    ensures xmin == ymin == zmin == Least(Coords(ps))
    ensures xmax == ymax == zmax == Greatest(Coords(ps))
    ensures forall i :: 0 <= i < |ps| ==> InBox(Box(xmin, xmax, ymin, ymax, zmin, zmax), ps[i])
    ensures |ps| > 0 && Finite(ps) ==> exists k :: 0 <= k < |Coords(ps)| && Coords(ps)[k] == zmin
    ensures |ps| > 0 && Finite(ps) ==> exists k :: 0 <= k < |Coords(ps)| && Coords(ps)[k] == zmax
  {
    xmin, xmax, ymin, ymax, zmin, zmax := AxisLimits(ps);
    LeastOfColumns(ps);
    GreatestOfColumns(ps);
    zmin := Min(xmin, Min(ymin, zmin));
    zmax := Max(xmax, Max(ymax, zmax));
    xmin, ymin := zmin, zmin;
    xmax, ymax := zmax, zmax;
    LeastIsMinimum(Coords(ps));
    GreatestIsMaximum(Coords(ps));
    CubeHolds(ps, zmin, zmax);
    if |ps| > 0 && Finite(ps) {
      Attained(ps);
    }
  }

  /** Every coordinate is a finite double. */
  predicate Finite(ps: seq<Point>) {
    forall k :: 0 <= k < |Coords(ps)| ==> -DBL_MAX <= Coords(ps)[k] <= DBL_MAX
  }

  /** For finite doubles the folds end at a coordinate, not at the `±DBL_MAX` they start from. */
  lemma Attained(ps: seq<Point>)
    requires |ps| > 0 && Finite(ps)
    ensures exists k :: 0 <= k < |Coords(ps)| && Coords(ps)[k] == Least(Coords(ps))
    ensures exists k :: 0 <= k < |Coords(ps)| && Coords(ps)[k] == Greatest(Coords(ps))
  {
    var ws := Coords(ps);
    LeastIsMinimum(ws);
    GreatestIsMaximum(ws);
    if Least(ws) == DBL_MAX {
      assert ws[0] == DBL_MAX;
    }
    if Greatest(ws) == -DBL_MAX {
      assert ws[0] == -DBL_MAX;
    }
  }

  /**
   * `Node::create(particles)`: the root over the cube, then every index
   * inserted in order.  No check is made, so nothing throws; the source's
   * `_pass_down` separates two particles only if they differ, so the
   * positions must be distinct.
   */
  method Create(ps: seq<Point>) returns (tree: Tree)
    requires Distinct(ps, |ps|)
    ensures HoldsFirst(tree, Cube(Least(Coords(ps)), Greatest(Coords(ps))), ps, |ps|)
  {
    var xmin, xmax, ymin, ymax, zmin, zmax := GetLimits(ps);
    var r := TreeCreate.Create(Box(xmin, xmax, ymin, ymax, zmin, zmax), ps, CHECKS);
    tree := r.value;
  }

  // ---------------------------------------------------------------------
  // accumulatePhysics.

  /** A C++ conversion of a double to `int`: truncation toward zero. */
  function Truncate(x: real): (n: int)
    ensures 0.0 <= x ==> 0 <= n && n as real <= x < n as real + 1.0
    ensures x < 0.0 ==> n <= 0 && n as real - 1.0 < x <= n as real
  {
    if x >= 0.0 then x.Floor else -((-x).Floor)
  }

  /**
   * `accumulatePhysics(other)` as written: the child's mass is added, and
   * its centre times `mult`, where `mult` is the child's mass converted to
   * `int` for an External child (`getStatus() >= 0`) and 1 otherwise, since
   * an Internal child already holds the sums `Σ m·x`.
   */
  function AccumulateAsWritten(acc: Moments, child: Moments, childExternal: bool): Moments {
    var mult := if childExternal then Truncate(child.m) as real else 1.0;
    Moments(acc.m + child.m, acc.x + mult * child.x, acc.y + mult * child.y, acc.z + mult * child.z)
  }

  /** A body of mass 0.5 at x = 1 contributes nothing to the first moment. */
  lemma LightBodyLost()
    ensures AccumulateAsWritten(ZERO, Moments(0.5, 1.0, 1.0, 1.0), true).x == 0.0
    ensures AccumulateExternal(ZERO, Moments(0.5, 1.0, 1.0, 1.0), true).x == 0.5
  {
    assert Truncate(0.5) == 0;
  }

  /**
   * `accumulatePhysics` as intended: an External child's centre weighted by
   * its mass, an Internal child's sums taken as they are.
   */
  function AccumulateExternal(acc: Moments, child: Moments, childExternal: bool): Moments {
    var mult := if childExternal then child.m else 1.0;
    Moments(acc.m + child.m, acc.x + mult * child.x, acc.y + mult * child.y, acc.z + mult * child.z)
  }

  /** The intended step agrees with csrc and csrc2 on External children. */
  lemma IntendedAgrees(acc: Moments, child: Moments)
    ensures AccumulateExternal(acc, child, true) == Accumulate(acc, child)
  {
  }

  /** The step as written agrees with it whenever the child's mass is a whole number. */
  lemma WholeMassAgrees(acc: Moments, child: Moments)
    requires child.m == child.m.Floor as real
    ensures AccumulateAsWritten(acc, child, true) == AccumulateExternal(acc, child, true)
  {
    var n := child.m.Floor;
    if child.m < 0.0 {
      assert -child.m == (-n) as real;
      assert (-child.m).Floor == -n;
    }
    assert Truncate(child.m) as real == child.m;
    var mult := child.m;
    assert AccumulateAsWritten(acc, child, true) == Moments(acc.m + child.m, acc.x + mult * child.x, acc.y + mult * child.y, acc.z + mult * child.z);
  }
}
