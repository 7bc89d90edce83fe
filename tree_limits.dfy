/**
 * The bounding cube of `get_limits`.  The C++ starts its running minimum
 * at `numeric_limits<double>::max()` and its running maximum at the
 * negation of that, and folds the particles' coordinates in index order;
 * csrc then widens the extremes by `1+epsilon`, csrc2 does so after
 * combining three per-axis extremes, and the root generation does not widen.
 */
module Limits {
  import opened Octree

  /** `numeric_limits<double>::max()`, exactly. */
  const DBL_MAX: real := 179769313486231570814527423731704356798070567525844996598917476803157260780028538760589558632766878171540458953514382464234321326889464182768467546703537516986049910576551282076245490090389328944075868508455133942304583236903222948165808559332123348274797826204144723168738177180919299881250404026184124858368.0

  /** The default `epsilon=0.0001` of `get_limits`. */
  const EPSILON: real := 0.0001

  function Min(a: real, b: real): real { if b < a then b else a }

  function Max(a: real, b: real): real { if b > a then b else a }

  /** The running minimum after folding `ws` in order, starting from `DBL_MAX`. */
  function Least(ws: seq<real>): real {
    if ws == [] then DBL_MAX else Min(Least(ws[..|ws| - 1]), ws[|ws| - 1])
  }

  /** The running maximum after folding `ws` in order, starting from `-DBL_MAX`. */
  function Greatest(ws: seq<real>): real {
    if ws == [] then -DBL_MAX else Max(Greatest(ws[..|ws| - 1]), ws[|ws| - 1])
  }

  /** The fold is the minimum: below every element, and one of them unless none is below `DBL_MAX`. */
  lemma {:induction false} LeastIsMinimum(ws: seq<real>)
    ensures forall k :: 0 <= k < |ws| ==> Least(ws) <= ws[k]
    ensures Least(ws) <= DBL_MAX
    ensures Least(ws) == DBL_MAX || exists k :: 0 <= k < |ws| && Least(ws) == ws[k]
  {
    if ws != [] {
      var init := ws[..|ws| - 1];
      LeastIsMinimum(init);
      assert forall k :: 0 <= k < |init| ==> init[k] == ws[k];
      if Least(ws) != DBL_MAX && Least(ws) != ws[|ws| - 1] {
        var k :| 0 <= k < |init| && Least(init) == init[k];
        assert Least(ws) == ws[k];
      }
    }
  }

  lemma {:induction false} GreatestIsMaximum(ws: seq<real>)
    ensures forall k :: 0 <= k < |ws| ==> ws[k] <= Greatest(ws)
    ensures -DBL_MAX <= Greatest(ws)
    ensures Greatest(ws) == -DBL_MAX || exists k :: 0 <= k < |ws| && Greatest(ws) == ws[k]
  {
    if ws != [] {
      var init := ws[..|ws| - 1];
      GreatestIsMaximum(init);
      assert forall k :: 0 <= k < |init| ==> init[k] == ws[k];
      if Greatest(ws) != -DBL_MAX && Greatest(ws) != ws[|ws| - 1] {
        var k :| 0 <= k < |init| && Greatest(init) == init[k];
        assert Greatest(ws) == ws[k];
      }
    }
  }

  /** `get_position()` as the three coordinates it holds. */
  function Triple(p: Point): seq<real> {
    [p.x, p.y, p.z]
  }

  /** Every coordinate of every particle, in the order csrc's nested loops read them. */
  function Coords(ps: seq<Point>): (ws: seq<real>)
    ensures |ws| == 3 * |ps|
  {
    if ps == [] then [] else Coords(ps[..|ps| - 1]) + Triple(ps[|ps| - 1])
  }

  /** Coordinate `a` of particle `i` is read at position `3i + a`. */
  lemma {:induction false} CoordsAt(ps: seq<Point>, i: nat, a: nat)
    requires i < |ps| && a < 3
    ensures Coords(ps)[3 * i + a] == Coord(ps[i], a)
  {
    var init := ps[..|ps| - 1];
    if i < |ps| - 1 {
      CoordsAt(init, i, a);
    }
  }

  /** One axis of every particle, in index order: what csrc2's `for_each` reads for it. */
  function Column(ps: seq<Point>, a: nat): (ws: seq<real>)
    requires a < 3
    ensures |ws| == |ps|
  {
    if ps == [] then [] else Column(ps[..|ps| - 1], a) + [Coord(ps[|ps| - 1], a)]
  }

  /** The fold over all coordinates is the fold over the three per-axis results. */
  lemma {:induction false} LeastOfColumns(ps: seq<Point>)
    ensures Least(Coords(ps)) == Min(Least(Column(ps, 0)), Min(Least(Column(ps, 1)), Least(Column(ps, 2))))
  {
    if ps != [] {
      var init, p := ps[..|ps| - 1], ps[|ps| - 1];
      LeastOfColumns(init);
      FoldTriple(Coords(init), p);
    }
  }

  lemma {:induction false} GreatestOfColumns(ps: seq<Point>)
    ensures Greatest(Coords(ps)) == Max(Greatest(Column(ps, 0)), Max(Greatest(Column(ps, 1)), Greatest(Column(ps, 2))))
  {
    if ps != [] {
      var init, p := ps[..|ps| - 1], ps[|ps| - 1];
      GreatestOfColumns(init);
      FoldTriple(Coords(init), p);
    }
  }

  /** Folding in one particle's three coordinates. */
  lemma FoldTriple(ws: seq<real>, p: Point)
    ensures Least(ws + Triple(p)) == Min(Min(Min(Least(ws), p.x), p.y), p.z)
    ensures Greatest(ws + Triple(p)) == Max(Max(Max(Greatest(ws), p.x), p.y), p.z)
  {
    var vs, us, ts := ws + Triple(p), ws + [p.x, p.y], ws + [p.x];
    assert vs[..|vs| - 1] == us && vs[|vs| - 1] == p.z;
    assert us[..|us| - 1] == ts && us[|us| - 1] == p.y;
    assert ts[..|ts| - 1] == ws && ts[|ts| - 1] == p.x;
    assert Least(vs) == Min(Least(us), p.z) && Greatest(vs) == Max(Greatest(us), p.z);
    assert Least(us) == Min(Least(ts), p.y) && Greatest(us) == Max(Greatest(ts), p.y);
  }

  /** `x` widened downwards: `x*(1+epsilon)` below zero, `x/(1+epsilon)` otherwise. */
  function WidenLow(x: real, epsilon: real): real
    requires epsilon >= 0.0
  {
    if x < 0.0 then x * (1.0 + epsilon) else x / (1.0 + epsilon)
  }

  /** `x` widened upwards: `x/(1+epsilon)` below zero, `x*(1+epsilon)` otherwise. */
  function WidenHigh(x: real, epsilon: real): real
    requires epsilon >= 0.0
  {
    if x < 0.0 then x / (1.0 + epsilon) else x * (1.0 + epsilon)
  }

  /**
   * Widening moves each end outwards, strictly unless the end is zero or
   * `epsilon` is, so it only enlarges the interval.
   */
  lemma Widening(x: real, epsilon: real)
    requires epsilon >= 0.0
    ensures WidenLow(x, epsilon) <= x <= WidenHigh(x, epsilon)
    ensures epsilon > 0.0 && x != 0.0 ==> WidenLow(x, epsilon) < x < WidenHigh(x, epsilon)
    ensures x == 0.0 ==> WidenLow(x, epsilon) == 0.0 == WidenHigh(x, epsilon)
  {
    if x < 0.0 {
      assert x * (1.0 + epsilon) == x + x * epsilon;
      assert x / (1.0 + epsilon) * (1.0 + epsilon) == x;
    } else {
      assert x * (1.0 + epsilon) == x + x * epsilon;
      assert x / (1.0 + epsilon) * (1.0 + epsilon) == x;
    }
  }

  /** The root box `Node(zmin, zmax, zmin, zmax, zmin, zmax)`. */
  function Cube(lo: real, hi: real): Box {
    Box(lo, hi, lo, hi, lo, hi)
  }

  /** An interval holding every coordinate of the particles gives a cube holding the particles. */
  lemma CubeHolds(ps: seq<Point>, lo: real, hi: real)
    requires forall k :: 0 <= k < |Coords(ps)| ==> lo <= Coords(ps)[k] <= hi
    ensures forall i :: 0 <= i < |ps| ==> InBox(Cube(lo, hi), ps[i])
  {
    forall i | 0 <= i < |ps|
      ensures InBox(Cube(lo, hi), ps[i])
    {
      CoordsAt(ps, i, 0);
      CoordsAt(ps, i, 1);
      CoordsAt(ps, i, 2);
    }
  }

  /**
   * The per-axis loop of csrc2's and the root generation's `get_limits`:
   * `if (x < xmin) xmin = x; if (x > xmax) xmax = x;` and so on for each
   * particle in turn.
   */
  method AxisLimits(ps: seq<Point>) returns (xmin: real, xmax: real, ymin: real, ymax: real, zmin: real, zmax: real)
    ensures xmin == Least(Column(ps, 0)) && xmax == Greatest(Column(ps, 0))
    ensures ymin == Least(Column(ps, 1)) && ymax == Greatest(Column(ps, 1))
    ensures zmin == Least(Column(ps, 2)) && zmax == Greatest(Column(ps, 2))
  {
    xmin := DBL_MAX;
    xmax := -xmin;
    ymin := DBL_MAX;
    ymax := -ymin;
    zmin := DBL_MAX;
    zmax := -zmin;
    for i := 0 to |ps|
      invariant xmin == Least(Column(ps[..i], 0)) && xmax == Greatest(Column(ps[..i], 0))
      invariant ymin == Least(Column(ps[..i], 1)) && ymax == Greatest(Column(ps[..i], 1))
      invariant zmin == Least(Column(ps[..i], 2)) && zmax == Greatest(Column(ps[..i], 2))
    {
      assert ps[..i + 1][..i] == ps[..i];
      var p := ps[i];
      if p.x < xmin { xmin := p.x; }
      if p.x > xmax { xmax := p.x; }
      if p.y < ymin { ymin := p.y; }
      if p.y > ymax { ymax := p.y; }
      if p.z < zmin { zmin := p.z; }
      if p.z > zmax { zmax := p.z; }
    }
    assert ps[..|ps|] == ps;
  }
}
