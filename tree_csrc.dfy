/**
 * The csrc generation of the oct-tree: `get_limits` folds every coordinate
 * of every particle into one interval and widens it by `1+epsilon`;
 * `create` builds the root over that cube and inserts with both the range
 * check and the proximity test.  Its `traverse` is `Traversal.Walk` in the
 * `Departing` style.
 */
module CsrcTree {
  import opened Wrappers
  import opened Octree
  import opened Limits
  import opened TreeCreate

  /** csrc's `insert` makes both checks. */
  const CHECKS: Checks := Checks(true, true)

  /** The low end of the interval `get_limits` returns. */
  function Low(ps: seq<Point>): real {
    WidenLow(Least(Coords(ps)), EPSILON)
  }

  /** The high end of the interval `get_limits` returns. */
  function High(ps: seq<Point>): real {
    WidenHigh(Greatest(Coords(ps)), EPSILON)
  }

  /**
   * `get_limits(particles, n)`: `zmin = min(zmin, position[j])` and
   * `zmax = max(position[j], zmax)` over particles `i` and axes `j`, then
   * both ends widened.  Every particle lies in the resulting cube.
   */
  method GetLimits(ps: seq<Point>) returns (zmin: real, zmax: real)
    ensures zmin == Low(ps) && zmax == High(ps)
    ensures forall i :: 0 <= i < |ps| ==> InBox(Cube(zmin, zmax), ps[i])
  {
    zmin := DBL_MAX;
    zmax := -zmin;
    for i := 0 to |ps|
      invariant zmin == Least(Coords(ps[..i])) && zmax == Greatest(Coords(ps[..i]))
    {
      ghost var before := Coords(ps[..i]);
      FoldPrefix(before, ps[i], 0);
      for j := 0 to 3
        invariant zmin == Least(before + Triple(ps[i])[..j]) && zmax == Greatest(before + Triple(ps[i])[..j])
      {
        FoldPrefix(before, ps[i], j + 1);
        zmin := Min(zmin, Coord(ps[i], j));
        zmax := Max(Coord(ps[i], j), zmax);
      }
      FoldPrefix(before, ps[i], 3);
      NextParticle(ps, i);
    }
    assert ps[..|ps|] == ps;
    LimitsContain(ps);
    zmin := WidenLow(zmin, EPSILON);
    zmax := WidenHigh(zmax, EPSILON);
  }

  /** The inner loop's fold after `j` of a particle's coordinates. */
  lemma FoldPrefix(before: seq<real>, p: Point, j: nat)
    requires j <= 3
    ensures j == 0 ==> before + Triple(p)[..j] == before
    ensures j == 3 ==> before + Triple(p)[..j] == before + Triple(p)
    ensures j > 0 ==> Least(before + Triple(p)[..j]) == Min(Least(before + Triple(p)[..j - 1]), Coord(p, j - 1))
    ensures j > 0 ==> Greatest(before + Triple(p)[..j]) == Max(Greatest(before + Triple(p)[..j - 1]), Coord(p, j - 1))
  {
    if j > 0 {
      var ws := before + Triple(p)[..j];
      assert ws[..|ws| - 1] == before + Triple(p)[..j - 1];
    }
  }

  lemma NextParticle(ps: seq<Point>, i: nat)
    requires i < |ps|
    ensures Coords(ps[..i + 1]) == Coords(ps[..i]) + Triple(ps[i])
  {
    assert ps[..i + 1][..i] == ps[..i];
  }

  /** Every coordinate lies between the widened ends, so every particle in the cube. */
  lemma LimitsContain(ps: seq<Point>)
    ensures forall i :: 0 <= i < |ps| ==> InBox(Cube(Low(ps), High(ps)), ps[i])
  {
    Widening(Least(Coords(ps)), EPSILON);
    Widening(Greatest(Coords(ps)), EPSILON);
    LeastIsMinimum(Coords(ps));
    GreatestIsMaximum(Coords(ps));
    CubeHolds(ps, Low(ps), High(ps));
  }

  /** Some particle has a coordinate other than zero. */
  predicate OffOrigin(ps: seq<Point>) {
    exists i, a :: 0 <= i < |ps| && 0 <= a < 3 && Coord(ps[i], a) != 0.0
  }

  /**
   * The cube has a positive side exactly when some coordinate is not zero:
   * widening then pushes an end strictly outwards; with every coordinate
   * zero both ends stay at zero.
   */
  lemma PositiveSide(ps: seq<Point>)
    requires |ps| > 0
    ensures Side(Cube(Low(ps), High(ps))) > 0.0 <==> OffOrigin(ps)
  {
    var ws := Coords(ps);
    LeastIsMinimum(ws);
    GreatestIsMaximum(ws);
    Widening(Least(ws), EPSILON);
    Widening(Greatest(ws), EPSILON);
    if OffOrigin(ps) {
      var i, a :| 0 <= i < |ps| && 0 <= a < 3 && Coord(ps[i], a) != 0.0;
      CoordsAt(ps, i, a);
      assert Least(ws) <= ws[3 * i + a] <= Greatest(ws);
    } else {
      CoordsAt(ps, 0, 0);
      assert ws[0] == 0.0;
      forall k | 0 <= k < |ws|
        ensures ws[k] == 0.0
      {
        CoordsAt(ps, k / 3, k % 3);
      }
      if Least(ws) != DBL_MAX {
        var k :| 0 <= k < |ws| && Least(ws) == ws[k];
      }
      if Greatest(ws) != -DBL_MAX {
        var k :| 0 <= k < |ws| && Greatest(ws) == ws[k];
      }
    }
  }

  /**
   * `Node::create(particles, n)`: the root over the cube of `get_limits`,
   * then `insert(index)` for index `0 .. n-1`.  The range check never throws
   * (the cube holds every particle), so a throw is the proximity test's,
   * between two particles closer than `epsilon` times the cube's side;
   * on success each particle sits in exactly one External node.  Particles
   * all at the origin give a cube of side zero, where the source's
   * `_pass_down` could not separate two of them: those must be distinct.
   */
  method Create(ps: seq<Point>) returns (r: Result<Tree>)
    requires OffOrigin(ps) || Distinct(ps, |ps|)
    ensures r.Err? ==> r.error == LogicError && TooCloseTo(Cube(Low(ps), High(ps)), ps)
    ensures r.Ok? ==> HoldsFirst(r.value, Cube(Low(ps), High(ps)), ps, |ps|)
  {
    var zmin, zmax := GetLimits(ps);
    if |ps| > 0 {
      PositiveSide(ps);
    }
    r := TreeCreate.Create(Cube(zmin, zmax), ps, CHECKS);
  }
}
