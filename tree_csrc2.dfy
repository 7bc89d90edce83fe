/**
 * The csrc2 generation of the oct-tree: `get_limits` finds each axis's
 * extremes, combines them and widens the result into a cube; `insert`
 * makes the range check only when built with `_RUNTIME_CHECKS`, the
 * proximity test always.  Its `visit` is `Traversal.Walk` in the
 * `Departing` style, its `accumulatePhysics` is `TreePhysics.Accumulate`.
 */
module Csrc2Tree {
  import opened Wrappers
  import opened Octree
  import opened Limits
  import opened TreeCreate
  import CsrcTree

  /** The checks of csrc2's `insert`: the range check is compiled in on request. */
  function InsertChecks(runtimeChecks: bool): (c: Checks)
    ensures c.proximity && (c.range <==> runtimeChecks)
  {
    Checks(runtimeChecks, true)
  }

  /**
   * `get_limits(particles, xmin, …, zmax)`: the per-axis extremes, then
   * `zmin = min(xmin, min(ymin, zmin))` and `zmax = max(xmax, max(ymax, zmax))`,
   * widened by `1+epsilon` and given to all three axes.  The cube is the
   * one csrc's single fold over every coordinate finds.
   */
  method GetLimits(ps: seq<Point>) returns (xmin: real, xmax: real, ymin: real, ymax: real, zmin: real, zmax: real)
    ensures xmin == ymin == zmin == CsrcTree.Low(ps)
    ensures xmax == ymax == zmax == CsrcTree.High(ps)
    ensures forall i :: 0 <= i < |ps| ==> InBox(Box(xmin, xmax, ymin, ymax, zmin, zmax), ps[i])
  {
    xmin, xmax, ymin, ymax, zmin, zmax := AxisLimits(ps);
    zmin := Min(xmin, Min(ymin, zmin));
    zmax := Max(xmax, Max(ymax, zmax));
    LeastOfColumns(ps);
    GreatestOfColumns(ps);
    CsrcTree.LimitsContain(ps);
    zmin := WidenLow(zmin, EPSILON);
    zmax := WidenHigh(zmax, EPSILON);
    xmin, ymin := zmin, zmin;
    xmax, ymax := zmax, zmax;
  }

  /**
   * `Node::create(particles)`: the root over `get_limits`' cube, then
   * `insert(index)` for every index in increasing order.  Without the
   * range check a throw is still only the proximity test's.
   */
  method Create(ps: seq<Point>, runtimeChecks: bool) returns (r: Result<Tree>)
    requires CsrcTree.OffOrigin(ps) || Distinct(ps, |ps|)
    ensures r.Err? ==> r.error == LogicError && TooCloseTo(Cube(CsrcTree.Low(ps), CsrcTree.High(ps)), ps)
    ensures r.Ok? ==> HoldsFirst(r.value, Cube(CsrcTree.Low(ps), CsrcTree.High(ps)), ps, |ps|)
  {
    var xmin, xmax, ymin, ymax, zmin, zmax := GetLimits(ps);
    if |ps| > 0 {
      CsrcTree.PositiveSide(ps);
    }
    r := TreeCreate.Create(Box(xmin, xmax, ymin, ymax, zmin, zmax), ps, InsertChecks(runtimeChecks));
  }
}
