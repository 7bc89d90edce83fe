/**
 * The oct-tree the three C++ generations share: cubes halved at their
 * midpoints, eight children per internal node chosen by strict comparison
 * with the midpoint, and insertion that splits an occupied leaf until the
 * two particles fall apart.  The tree is a value: where the C++ rewires
 * `_particle_index` and `_child[]` in place, the model returns the new tree.
 */
module Octree {
  import opened Wrappers

  /** A particle position; coordinates are only compared, added and halved. */
  datatype Point = Point(x: real, y: real, z: real)

  /** `enum {N_Children=2*2*2}`. */
  const N_CHILDREN: nat := 8

  /** `enum Type {Internal=-2, Unused=-1}`; an External node holds its particle index instead. */
  const INTERNAL: int := -2
  const UNUSED: int := -1

  /** The bounding box `[xmin, xmax] × [ymin, ymax] × [zmin, zmax]` of a node. */
  datatype Box = Box(xmin: real, xmax: real, ymin: real, ymax: real, zmin: real, zmax: real)

  /** `0.5 * (min + max)`, the node's `_xmean`, `_ymean`, `_zmean`. */
  function Mean(lo: real, hi: real): real {
    0.5 * (lo + hi)
  }

  /** Coordinate `a` (0, 1, 2 for x, y, z) of a point. */
  function Coord(p: Point, a: nat): real
    requires a < 3
  {
    if a == 0 then p.x else if a == 1 then p.y else p.z
  }

  function Lo(b: Box, a: nat): real
    requires a < 3
  {
    if a == 0 then b.xmin else if a == 1 then b.ymin else b.zmin
  }

  function Hi(b: Box, a: nat): real
    requires a < 3
  {
    if a == 0 then b.xmax else if a == 1 then b.ymax else b.zmax
  }

  /** `getSide`: the box is a cube, so the x side stands for all. */
  function Side(b: Box): real {
    b.xmax - b.xmin
  }

  /** The range check: `w < wmin || w > wmax` throws, so the closed interval is accepted. */
  predicate InRange(w: real, wmin: real, wmax: real) {
    !(w < wmin || w > wmax)
  }

  predicate InBox(b: Box, p: Point) {
    InRange(p.x, b.xmin, b.xmax) && InRange(p.y, b.ymin, b.ymax) && InRange(p.z, b.zmin, b.zmax)
  }

  lemma InBoxAxes(b: Box, p: Point)
    ensures InBox(b, p) <==> forall a :: 0 <= a < 3 ==> Lo(b, a) <= Coord(p, a) <= Hi(b, a)
  {
    if !InBox(b, p) {
      if !InRange(p.x, b.xmin, b.xmax) {
        assert !(Lo(b, 0) <= Coord(p, 0) <= Hi(b, 0));
      } else if !InRange(p.y, b.ymin, b.ymax) {
        assert !(Lo(b, 1) <= Coord(p, 1) <= Hi(b, 1));
      } else {
        assert !(Lo(b, 2) <= Coord(p, 2) <= Hi(b, 2));
      }
    }
  }

  /** `_get_refined_bounds(i, wmin, wmax, wmean)`: the lower half for 0, the upper half otherwise. */
  function RefinedBounds(i: nat, wmin: real, wmax: real, wmean: real): (real, real) {
    if i == 0 then (wmin, wmean) else (wmean, wmax)
  }

  /**
   * The two halves meet exactly at the mean, and when the mean lies in
   * `[wmin, wmax]` they cover the interval between them.
   */
  lemma RefinedBoundsMeet(wmin: real, wmax: real, wmean: real, w: real)
    ensures RefinedBounds(0, wmin, wmax, wmean) == (wmin, wmean)
    ensures RefinedBounds(1, wmin, wmax, wmean) == (wmean, wmax)
    ensures RefinedBounds(0, wmin, wmax, wmean).1 == RefinedBounds(1, wmin, wmax, wmean).0
    ensures wmin <= wmean <= wmax ==>
      (InRange(w, wmin, wmax) <==>
       InRange(w, RefinedBounds(0, wmin, wmax, wmean).0, RefinedBounds(0, wmin, wmax, wmean).1) ||
       InRange(w, RefinedBounds(1, wmin, wmax, wmean).0, RefinedBounds(1, wmin, wmax, wmean).1))
  {
  }

  /** `_triple_to_octant(i, j, k)` and `_get_child_index(i, j, k)`. */
  function TripleToOctant(i: nat, j: nat, k: nat): int {
    4 * i + 2 * j + k
  }

  /** `_triple_to_octant(array<int,3> indices)`. */
  function TripleToOctantArray(indices: seq<nat>): int
    requires |indices| == 3
  {
    2 * (2 * indices[0] + indices[1]) + indices[2]
  }

  /** The bits of an octant, highest first. */
  function OctantBits(o: nat): (nat, nat, nat) {
    var i := if o >= 4 then 1 else 0;
    var j := if o - 4 * i >= 2 then 1 else 0;
    (i, j, o - 4 * i - 2 * j)
  }

  predicate IsBit(i: nat) { i == 0 || i == 1 }

  /**
   * The two forms of `_triple_to_octant` agree, and on bits they are a
   * bijection onto `0..7` whose inverse is `OctantBits`.
   */
  lemma OctantBijection(i: nat, j: nat, k: nat)
    requires IsBit(i) && IsBit(j) && IsBit(k)
    ensures TripleToOctantArray([i, j, k]) == TripleToOctant(i, j, k)
    ensures 0 <= TripleToOctant(i, j, k) < N_CHILDREN
    ensures OctantBits(TripleToOctant(i, j, k)) == (i, j, k)
  {
  }

  lemma OctantBitsInverse(o: nat)
    requires o < N_CHILDREN
    ensures IsBit(OctantBits(o).0) && IsBit(OctantBits(o).1) && IsBit(OctantBits(o).2)
    ensures TripleToOctant(OctantBits(o).0, OctantBits(o).1, OctantBits(o).2) == o
  {
  }

  /** `w > wmean` as an int: 1 for the upper half, 0 otherwise. */
  function Bit(w: real, wmean: real): (i: nat)
    ensures IsBit(i) && (i == 1 <==> w > wmean)
  {
    if w > wmean then 1 else 0
  }

  /** `_get_octant_number` / `_get_child_index(particle)`. */
  function Octant(b: Box, p: Point): (o: nat)
    ensures o < N_CHILDREN
    ensures OctantBits(o) == (Bit(p.x, Mean(b.xmin, b.xmax)), Bit(p.y, Mean(b.ymin, b.ymax)), Bit(p.z, Mean(b.zmin, b.zmax)))
  {
    var i, j, k := Bit(p.x, Mean(b.xmin, b.xmax)), Bit(p.y, Mean(b.ymin, b.ymax)), Bit(p.z, Mean(b.zmin, b.zmax));
    OctantBijection(i, j, k);
    TripleToOctant(i, j, k)
  }

  /** The box `_split_node` gives child `o`: on each axis the half its bit selects. */
  function ChildBox(b: Box, o: nat): Box {
    var (i, j, k) := OctantBits(o);
    var (xmin, xmax) := RefinedBounds(i, b.xmin, b.xmax, Mean(b.xmin, b.xmax));
    var (ymin, ymax) := RefinedBounds(j, b.ymin, b.ymax, Mean(b.ymin, b.ymax));
    var (zmin, zmax) := RefinedBounds(k, b.zmin, b.zmax, Mean(b.zmin, b.zmax));
    Box(xmin, xmax, ymin, ymax, zmin, zmax)
  }

  /** A point of the box lies in the child box of the octant chosen for it. */
  lemma ChildContains(b: Box, p: Point)
    requires InBox(b, p)
    ensures InBox(ChildBox(b, Octant(b, p)), p)
  {
  }

  /** Halving a box halves every side. */
  lemma ChildSides(b: Box, o: nat, a: nat)
    requires o < N_CHILDREN && a < 3
    ensures Hi(ChildBox(b, o), a) - Lo(ChildBox(b, o), a) == (Hi(b, a) - Lo(b, a)) / 2.0
  {
  }

  // ---------------------------------------------------------------------
  // The tree.

  /**
   * A node: Unused (an empty cube), External (a cube holding exactly one
   * particle, by index) or Internal (a cube split into children).
   */
  datatype Tree =
    | Unused(box: Box)
    | External(box: Box, index: nat)
    | Internal(box: Box, children: seq<Tree>)

  /** `_particle_index` / `getType()` / `getStatus()`. */
  function TypeCode(t: Tree): (code: int)
    ensures code == INTERNAL <==> t.Internal?
    ensures code == UNUSED <==> t.Unused?
    ensures code >= 0 <==> t.External?
    ensures t.External? ==> code == t.index
  {
    match t
    case Unused(_) => UNUSED
    case External(_, i) => i
    case Internal(_, _) => INTERNAL
  }

  /** The number of nodes: what the static `_count` records for a whole tree. */
  function Count(t: Tree): nat {
    match t
    case Internal(_, cs) => 1 + CountAll(cs)
    case _ => 1
  }

  function CountAll(cs: seq<Tree>): nat {
    if cs == [] then 0 else Count(cs[0]) + CountAll(cs[1..])
  }

  /** The number of Internal nodes. */
  function Internals(t: Tree): nat {
    match t
    case Internal(_, cs) => 1 + InternalsAll(cs)
    case _ => 0
  }

  function InternalsAll(cs: seq<Tree>): nat {
    if cs == [] then 0 else Internals(cs[0]) + InternalsAll(cs[1..])
  }

  /** How many External nodes hold particle `i`. */
  function Occurrences(t: Tree, i: nat): nat {
    match t
    case Unused(_) => 0
    case External(_, j) => Bump(i, j)
    case Internal(_, cs) => OccurrencesAll(cs, i)
  }

  function OccurrencesAll(cs: seq<Tree>, i: nat): nat {
    if cs == [] then 0 else Occurrences(cs[0], i) + OccurrencesAll(cs[1..], i)
  }

  /** One for the index `j` itself, zero for every other index. */
  function Bump(i: nat, j: nat): nat {
    if i == j then 1 else 0
  }

  /** Every Internal node has exactly `N_Children` children. */
  predicate Octal(t: Tree) {
    match t
    case Internal(_, cs) => |cs| == N_CHILDREN && forall o :: 0 <= o < |cs| ==> Octal(cs[o])
    case _ => true
  }

  /**
   * The tree invariant: Internal nodes have eight children whose boxes are
   * the octants of their parent's, and every External node's particle
   * lies in its box.
   */
  predicate WellFormed(t: Tree, points: seq<Point>) {
    match t
    case Unused(_) => true
    case External(b, i) => i < |points| && InBox(b, points[i])
    case Internal(b, cs) =>
      |cs| == N_CHILDREN && forall o :: 0 <= o < N_CHILDREN ==> cs[o].box == ChildBox(b, o) && WellFormed(cs[o], points)
  }

  lemma {:induction false} WellFormedOctal(t: Tree, points: seq<Point>)
    requires WellFormed(t, points)
    ensures Octal(t)
  {
    if t.Internal? {
      forall o | 0 <= o < |t.children|
        ensures Octal(t.children[o])
      {
        WellFormedOctal(t.children[o], points);
      }
    }
  }

  /** Node count `1 + 8·#internal`: every split adds exactly eight nodes. */
  lemma {:induction false} NodeCount(t: Tree)
    requires Octal(t)
    ensures Count(t) == 1 + N_CHILDREN * Internals(t)
  {
    if t.Internal? {
      NodeCountAll(t.children);
    }
  }

  lemma {:induction false} NodeCountAll(cs: seq<Tree>)
    requires forall o :: 0 <= o < |cs| ==> Octal(cs[o])
    ensures CountAll(cs) == |cs| + N_CHILDREN * InternalsAll(cs)
  {
    if cs != [] {
      NodeCount(cs[0]);
      NodeCountAll(cs[1..]);
    }
  }

  /** Children that are all Unused hold no particle. */
  lemma {:induction false} UnusedHoldNothing(cs: seq<Tree>, i: nat)
    requires forall o :: 0 <= o < |cs| ==> cs[o].Unused?
    ensures OccurrencesAll(cs, i) == 0
  {
    if cs != [] {
      UnusedHoldNothing(cs[1..], i);
    }
  }

  /** Replacing one child replaces its part of each sum over the children. */
  lemma {:induction false} AllUpdate(cs: seq<Tree>, o: nat, c: Tree, i: nat)
    requires o < |cs|
    ensures OccurrencesAll(cs[o := c], i) + Occurrences(cs[o], i) == OccurrencesAll(cs, i) + Occurrences(c, i)
    ensures CountAll(cs[o := c]) + Count(cs[o]) == CountAll(cs) + Count(c)
    ensures InternalsAll(cs[o := c]) + Internals(cs[o]) == InternalsAll(cs) + Internals(c)
  {
    if o > 0 {
      assert cs[o := c][1..] == cs[1..][o - 1 := c];
      AllUpdate(cs[1..], o - 1, c, i);
    } else {
      assert cs[o := c][1..] == cs[1..];
    }
  }

  /** Each child's part is included in the sums over the children. */
  lemma {:induction false} AllParts(cs: seq<Tree>, o: nat, i: nat)
    requires o < |cs|
    ensures Occurrences(cs[o], i) <= OccurrencesAll(cs, i)
    ensures Count(cs[o]) <= CountAll(cs)
    ensures Internals(cs[o]) <= InternalsAll(cs)
  {
    if o > 0 {
      AllParts(cs[1..], o - 1, i);
    }
  }

  // ---------------------------------------------------------------------
  // Insertion.

  /** Which checks a generation's `insert` makes. */
  datatype Checks = Checks(range: bool, proximity: bool)

  /** `const double epsilon=1e-12` of `insert`. */
  const PROXIMITY: real := 0.000000000001

  function Sqr(x: real): real { x * x }

  /** `get_distance_sq`: the squared Euclidean distance. */
  function DistanceSq(p: Point, q: Point): real {
    Sqr(p.x - q.x) + Sqr(p.y - q.y) + Sqr(p.z - q.z)
  }

  /** The new particle and the incumbent are closer than `epsilon * (xmax - xmin)`. */
  predicate TooClose(b: Box, p: Point, q: Point) {
    DistanceSq(p, q) < PROXIMITY * Side(b)
  }

  /** Particles that pass the proximity test in a box of positive side are distinct. */
  lemma NotTooCloseDistinct(b: Box, p: Point, q: Point)
    requires Side(b) > 0.0 && !TooClose(b, p, q)
    ensures p != q
  {
    assert DistanceSq(p, p) == 0.0;
    assert TooClose(b, p, p);
  }

  /** An External node that passes the proximity test holds a different point. */
  lemma DistinctFromIncumbent(t: Tree, points: seq<Point>, newIndex: nat, checks: Checks)
    requires t.External? && newIndex < |points| && t.index < |points|
    requires Separable(t, points, newIndex, checks)
    requires !(checks.proximity && TooClose(t.box, points[newIndex], points[t.index]))
    ensures points[newIndex] != points[t.index]
  {
    if checks.proximity && Side(t.box) > 0.0 {
      NotTooCloseDistinct(t.box, points[newIndex], points[t.index]);
    } else {
      assert Occurrences(t, t.index) == 1;
    }
  }

  /** The first axis on which two distinct points differ. */
  function Axis(p: Point, q: Point): (a: nat)
    requires p != q
    ensures a < 3 && Coord(p, a) != Coord(q, a)
  {
    if p.x != q.x then 0 else if p.y != q.y then 1 else 2
  }

  function Abs(x: real): real { if x < 0.0 then -x else x }

  /**
   * How often the box can still be halved before the two points must fall
   * apart: the side on their axis over their distance on it.
   */
  function Halvings(b: Box, p: Point, q: Point): nat
    requires p != q && InBox(b, p) && InBox(b, q)
  {
    GapWithinWidth(b, p, q);
    RatioAtLeastOne(Width(b, Axis(p, q)), Gap(p, q));
    (Width(b, Axis(p, q)) / Gap(p, q)).Floor
  }

  /** The box's side on axis `a`. */
  function Width(b: Box, a: nat): real
    requires a < 3
  {
    Hi(b, a) - Lo(b, a)
  }

  /** The distance of two distinct points on their first differing axis. */
  function Gap(p: Point, q: Point): (d: real)
    requires p != q
    ensures d > 0.0
  {
    Abs(Coord(p, Axis(p, q)) - Coord(q, Axis(p, q)))
  }

  lemma GapWithinWidth(b: Box, p: Point, q: Point)
    requires p != q && InBox(b, p) && InBox(b, q)
    ensures Gap(p, q) <= Width(b, Axis(p, q))
  {
    InBoxAxes(b, p);
    InBoxAxes(b, q);
    var a := Axis(p, q);
    assert Lo(b, a) <= Coord(p, a) <= Hi(b, a);
    assert Lo(b, a) <= Coord(q, a) <= Hi(b, a);
  }

  lemma RatioAtLeastOne(w: real, d: real)
    requires 0.0 < d <= w
    ensures w / d >= 1.0
  {
  }

  lemma HalfRatio(w: real, d: real)
    requires d > 0.0
    ensures (w / 2.0) / d == (w / d) / 2.0
  {
  }

  /** Halving a ratio of at least one lowers its floor. */
  lemma HalfFloor(r: real)
    requires r >= 1.0
    ensures (r / 2.0).Floor < r.Floor
  {
    var f := r.Floor;
    assert (r / 2.0).Floor as real <= r / 2.0;
    assert r < f as real + 1.0;
  }

  /** In a box half as wide on their axis, two points can be halved fewer times. */
  lemma HalvingsHalve(b: Box, c: Box, p: Point, q: Point)
    requires p != q && InBox(b, p) && InBox(b, q) && InBox(c, p) && InBox(c, q)
    requires Width(c, Axis(p, q)) == Width(b, Axis(p, q)) / 2.0
    ensures Halvings(c, p, q) < Halvings(b, p, q)
  {
    var a := Axis(p, q);
    GapWithinWidth(c, p, q);
    GapWithinWidth(b, p, q);
    RatioAtLeastOne(Width(b, a), Gap(p, q));
    HalfRatio(Width(b, a), Gap(p, q));
    HalfFloor(Width(b, a) / Gap(p, q));
  }

  /** Two points that share an octant can be halved fewer times in the child box. */
  lemma HalvingsDecrease(b: Box, p: Point, q: Point)
    requires p != q && InBox(b, p) && InBox(b, q) && Octant(b, p) == Octant(b, q)
    ensures InBox(ChildBox(b, Octant(b, p)), p) && InBox(ChildBox(b, Octant(b, p)), q)
    ensures Halvings(ChildBox(b, Octant(b, p)), p, q) < Halvings(b, p, q)
  {
    var o := Octant(b, p);
    ChildContains(b, p);
    ChildContains(b, q);
    ChildSides(b, o, Axis(p, q));
    HalvingsHalve(b, ChildBox(b, o), p, q);
  }

  /** The eight Unused children `_split_node` creates. */
  function SplitChildren(b: Box): (cs: seq<Tree>)
    ensures |cs| == N_CHILDREN
    ensures forall o :: 0 <= o < N_CHILDREN ==> cs[o] == Unused(ChildBox(b, o))
  {
    seq(N_CHILDREN, o requires 0 <= o < N_CHILDREN => Unused(ChildBox(b, o)))
  }

  /** A freshly split node is well formed. */
  lemma SplitWellFormed(b: Box, points: seq<Point>)
    ensures WellFormed(Internal(b, SplitChildren(b)), points)
  {
  }

  /** Replacing a child by a well-formed tree over the same box keeps the node well formed. */
  lemma ReplaceChild(b: Box, cs: seq<Tree>, o: nat, c: Tree, points: seq<Point>)
    requires WellFormed(Internal(b, cs), points) && o < |cs|
    requires c.box == cs[o].box && WellFormed(c, points)
    ensures WellFormed(Internal(b, cs[o := c]), points)
  {
    var ds := cs[o := c];
    forall o' | 0 <= o' < N_CHILDREN
      ensures ds[o'].box == ChildBox(b, o') && WellFormed(ds[o'], points)
    {
      if o' != o {
        assert ds[o'] == cs[o'];
      }
    }
  }

  /** One child of a fresh split replaced: what `_pass_down` into a shared child leaves. */
  lemma SplitWithOne(b: Box, o: nat, c: Tree, points: seq<Point>)
    requires o < N_CHILDREN && c.box == ChildBox(b, o) && WellFormed(c, points)
    ensures WellFormed(Internal(b, SplitChildren(b)[o := c]), points)
  {
    SplitWellFormed(b, points);
    ReplaceChild(b, SplitChildren(b), o, c, points);
  }

  /** Two children of a fresh split replaced: what inserting into two children leaves. */
  lemma SplitWithTwo(b: Box, o1: nat, c1: Tree, o2: nat, c2: Tree, points: seq<Point>)
    requires o1 < N_CHILDREN && c1.box == ChildBox(b, o1) && WellFormed(c1, points)
    requires o2 < N_CHILDREN && c2.box == ChildBox(b, o2) && WellFormed(c2, points)
    requires o1 != o2
    ensures WellFormed(Internal(b, SplitChildren(b)[o1 := c1][o2 := c2]), points)
  {
    SplitWithOne(b, o1, c1, points);
    assert SplitChildren(b)[o1 := c1][o2] == SplitChildren(b)[o2];
    ReplaceChild(b, SplitChildren(b)[o1 := c1], o2, c2, points);
  }

  /** The particles a fresh split holds after one child is replaced. */
  lemma SplitOneHolds(b: Box, o: nat, c: Tree, i: nat)
    requires o < N_CHILDREN
    ensures OccurrencesAll(SplitChildren(b)[o := c], i) == Occurrences(c, i)
  {
    UnusedHoldNothing(SplitChildren(b), i);
    AllUpdate(SplitChildren(b), o, c, i);
  }

  /** The particles a fresh split holds after two children are replaced. */
  lemma SplitTwoHolds(b: Box, o1: nat, c1: Tree, o2: nat, c2: Tree, i: nat)
    requires o1 < N_CHILDREN && o2 < N_CHILDREN && o1 != o2
    ensures OccurrencesAll(SplitChildren(b)[o1 := c1][o2 := c2], i) == Occurrences(c1, i) + Occurrences(c2, i)
  {
    SplitOneHolds(b, o1, c1, i);
    assert SplitChildren(b)[o1 := c1][o2] == SplitChildren(b)[o2];
    AllUpdate(SplitChildren(b)[o1 := c1], o2, c2, i);
  }

  /**
   * `_pass_down(new, incumbent)`: split the node, then `_insert_or_propagate`:
   * when both particles choose the same child, pass both down into it;
   * otherwise each goes into its own fresh child.  The fresh children are
   * Unused and the particles lie in their boxes, so `insert` there only
   * stores the index (`InsertIntoUnused`).
   */
  function PassDown(b: Box, newIndex: nat, incumbent: nat, points: seq<Point>): (r: Tree)
    requires newIndex < |points| && incumbent < |points|
    requires points[newIndex] != points[incumbent]
    requires InBox(b, points[newIndex]) && InBox(b, points[incumbent])
    ensures r.Internal? && r.box == b && WellFormed(r, points)
    decreases Halvings(b, points[newIndex], points[incumbent])
  {
    var p, q := points[newIndex], points[incumbent];
    var oNew, oIncumbent := Octant(b, p), Octant(b, q);
    ChildContains(b, p);
    ChildContains(b, q);
    if oNew == oIncumbent then
      HalvingsDecrease(b, p, q);
      var c := PassDown(ChildBox(b, oIncumbent), newIndex, incumbent, points);
      SplitWithOne(b, oIncumbent, c, points);
      Internal(b, SplitChildren(b)[oIncumbent := c])
    else
      var cNew := External(ChildBox(b, oNew), newIndex);
      var cIncumbent := External(ChildBox(b, oIncumbent), incumbent);
      SplitWithTwo(b, oNew, cNew, oIncumbent, cIncumbent, points);
      Internal(b, SplitChildren(b)[oNew := cNew][oIncumbent := cIncumbent])
  }

  /** `_pass_down` leaves the incumbent and the new particle in the tree, once each. */
  lemma {:induction false} PassDownHolds(b: Box, newIndex: nat, incumbent: nat, points: seq<Point>, i: nat)
    requires newIndex < |points| && incumbent < |points|
    requires points[newIndex] != points[incumbent]
    requires InBox(b, points[newIndex]) && InBox(b, points[incumbent])
    ensures Occurrences(PassDown(b, newIndex, incumbent, points), i) == Bump(i, incumbent) + Bump(i, newIndex)
    decreases Halvings(b, points[newIndex], points[incumbent])
  {
    var p, q := points[newIndex], points[incumbent];
    var oNew, oIncumbent := Octant(b, p), Octant(b, q);
    ChildContains(b, p);
    ChildContains(b, q);
    if oNew == oIncumbent {
      HalvingsDecrease(b, p, q);
      var c := PassDown(ChildBox(b, oIncumbent), newIndex, incumbent, points);
      assert PassDown(b, newIndex, incumbent, points) == Internal(b, SplitChildren(b)[oIncumbent := c]);
      PassDownHolds(ChildBox(b, oIncumbent), newIndex, incumbent, points, i);
      SplitOneHolds(b, oIncumbent, c, i);
    } else {
      var cNew := External(ChildBox(b, oNew), newIndex);
      var cIncumbent := External(ChildBox(b, oIncumbent), incumbent);
      assert PassDown(b, newIndex, incumbent, points) == Internal(b, SplitChildren(b)[oNew := cNew][oIncumbent := cIncumbent]);
      SplitTwoHolds(b, oNew, cNew, oIncumbent, cIncumbent, i);
    }
  }

  /**
   * What lets `insert` end: the proximity test is made and the box has a
   * positive side, or the new particle differs from every stored one.
   */
  predicate Separable(t: Tree, points: seq<Point>, newIndex: nat, checks: Checks)
    requires newIndex < |points|
  {
    (checks.proximity && Side(t.box) > 0.0) ||
    forall i: nat :: Occurrences(t, i) > 0 && i < |points| ==> points[i] != points[newIndex]
  }

  /** The child `insert` forwards to meets `insert`'s preconditions. */
  lemma IntoChild(t: Tree, newIndex: nat, points: seq<Point>, checks: Checks)
    requires t.Internal? && newIndex < |points| && WellFormed(t, points)
    requires InBox(t.box, points[newIndex]) && Separable(t, points, newIndex, checks)
    ensures Octant(t.box, points[newIndex]) < |t.children|
    ensures var c := t.children[Octant(t.box, points[newIndex])];
      c.box == ChildBox(t.box, Octant(t.box, points[newIndex])) && WellFormed(c, points) &&
      InBox(c.box, points[newIndex]) && Separable(c, points, newIndex, checks)
  {
    var o := Octant(t.box, points[newIndex]);
    var c := t.children[o];
    ChildContains(t.box, points[newIndex]);
    ChildSides(t.box, o, 0);
    if !(checks.proximity && Side(t.box) > 0.0) {
      forall i: nat | Occurrences(c, i) > 0 && i < |points|
        ensures points[i] != points[newIndex]
      {
        AllParts(t.children, o, i);
      }
    }
  }

  /**
   * `insert(new_particle_index, particles)`: the range check (when the
   * generation makes it), then by node type: an Unused node stores the
   * index; an Internal node forwards to the child of the particle's octant;
   * an External node, unless the proximity test throws, is passed down.
   */
  function Insert(t: Tree, newIndex: nat, points: seq<Point>, checks: Checks): (r: Result<Tree>)
    requires newIndex < |points| && WellFormed(t, points)
    requires checks.range || InBox(t.box, points[newIndex])
    requires Separable(t, points, newIndex, checks)
    ensures r.Err? ==> r.error == LogicError
    ensures r.Ok? ==> r.value.box == t.box && WellFormed(r.value, points)
    decreases t
  {
    var p := points[newIndex];
    if checks.range && !InBox(t.box, p) then Err(LogicError)
    else
      match t
      case Unused(b) => Ok(External(b, newIndex))
      case Internal(b, cs) =>
        var o := Octant(b, p);
        IntoChild(t, newIndex, points, checks);
        var c :- Insert(cs[o], newIndex, points, checks);
        ReplaceChild(b, cs, o, c, points);
        Ok(Internal(b, cs[o := c]))
      case External(b, incumbent) => InsertIntoExternal(t, newIndex, points, checks)
  }

  /** The External case of `insert`: the proximity test, then `_pass_down`. */
  function InsertIntoExternal(t: Tree, newIndex: nat, points: seq<Point>, checks: Checks): (r: Result<Tree>)
    requires t.External? && newIndex < |points| && WellFormed(t, points)
    requires InBox(t.box, points[newIndex]) && Separable(t, points, newIndex, checks)
    ensures r.Err? <==> checks.proximity && TooClose(t.box, points[newIndex], points[t.index])
    ensures r.Err? ==> r.error == LogicError
    ensures r.Ok? ==> r.value.box == t.box && WellFormed(r.value, points)
  {
    if checks.proximity && TooClose(t.box, points[newIndex], points[t.index]) then Err(LogicError)
    else
      DistinctFromIncumbent(t, points, newIndex, checks);
      Ok(PassDown(t.box, newIndex, t.index, points))
  }

  /** A successful `insert` adds the new particle once and keeps every other. */
  lemma {:induction false} InsertHolds(t: Tree, newIndex: nat, points: seq<Point>, checks: Checks, i: nat)
    requires newIndex < |points| && WellFormed(t, points)
    requires checks.range || InBox(t.box, points[newIndex])
    requires Separable(t, points, newIndex, checks)
    requires Insert(t, newIndex, points, checks).Ok?
    ensures Occurrences(Insert(t, newIndex, points, checks).value, i) == Occurrences(t, i) + Bump(i, newIndex)
    decreases t
  {
    match t
    case Unused(_) =>
    case Internal(b, cs) =>
      var o := Octant(b, points[newIndex]);
      IntoChild(t, newIndex, points, checks);
      var c := Insert(cs[o], newIndex, points, checks).value;
      assert Insert(t, newIndex, points, checks).value == Internal(b, cs[o := c]);
      InsertHolds(cs[o], newIndex, points, checks, i);
      AllUpdate(cs, o, c, i);
    case External(b, incumbent) =>
      DistinctFromIncumbent(t, points, newIndex, checks);
      PassDownHolds(b, newIndex, incumbent, points, i);
  }

  /** The Unused or External node the octant choices lead `p` to. */
  function Leaf(t: Tree, p: Point): Tree
    decreases t
  {
    match t
    case Internal(b, cs) =>
      var o := Octant(b, p);
      if o < |cs| then Leaf(cs[o], p) else t
    case _ => t
  }

  /** When `insert` throws. */
  predicate Rejected(t: Tree, p: Point, points: seq<Point>, checks: Checks) {
    (checks.range && !InBox(t.box, p)) ||
    (checks.proximity && Leaf(t, p).External? && Leaf(t, p).index < |points| &&
     TooClose(Leaf(t, p).box, p, points[Leaf(t, p).index]))
  }

  /**
   * The External node the octants lead `p` to holds a particle of the tree,
   * and its box is no wider than the root's, each split halving the side.
   */
  lemma {:induction false} LeafStored(t: Tree, p: Point, points: seq<Point>)
    requires WellFormed(t, points) && Leaf(t, p).External? && Side(t.box) >= 0.0
    ensures Occurrences(t, Leaf(t, p).index) > 0
    ensures 0.0 <= Side(Leaf(t, p).box) <= Side(t.box)
    decreases t
  {
    match t
    case External(_, _) =>
    case Internal(b, cs) =>
      var o := Octant(b, p);
      ChildSides(b, o, 0);
      LeafStored(cs[o], p, points);
      AllParts(cs, o, Leaf(t, p).index);
  }

  /**
   * `insert` throws exactly when the range check finds the particle outside
   * the node, or when the proximity test finds it too close to the particle
   * of the External node its octants lead to; deeper range checks never
   * throw, since a child's box holds what its parent's octant chose.
   */
  lemma {:induction false} InsertFailsIff(t: Tree, newIndex: nat, points: seq<Point>, checks: Checks)
    requires newIndex < |points| && WellFormed(t, points)
    requires checks.range || InBox(t.box, points[newIndex])
    requires Separable(t, points, newIndex, checks)
    ensures Insert(t, newIndex, points, checks).Err? <==> Rejected(t, points[newIndex], points, checks)
    decreases t
  {
    var p := points[newIndex];
    if checks.range && !InBox(t.box, p) {
      assert Insert(t, newIndex, points, checks) == Err(LogicError);
    } else {
      match t
      case Unused(b) =>
        assert Insert(t, newIndex, points, checks) == Ok(External(b, newIndex));
      case External(b, incumbent) =>
        assert Insert(t, newIndex, points, checks) == InsertIntoExternal(t, newIndex, points, checks);
      case Internal(b, cs) =>
        var o := Octant(b, p);
        IntoChild(t, newIndex, points, checks);
        InsertFailsIff(cs[o], newIndex, points, checks);
        assert Leaf(t, p) == Leaf(cs[o], p);
        assert Insert(cs[o], newIndex, points, checks).Err? ==> Insert(t, newIndex, points, checks).Err?;
        assert Insert(cs[o], newIndex, points, checks).Ok? ==> Insert(t, newIndex, points, checks).Ok?;
    }
  }

  /** Without range and proximity checks (the root generation) `insert` cannot throw. */
  lemma InsertUnchecked(t: Tree, newIndex: nat, points: seq<Point>)
    requires newIndex < |points| && WellFormed(t, points) && InBox(t.box, points[newIndex])
    requires Separable(t, points, newIndex, Checks(false, false))
    ensures Insert(t, newIndex, points, Checks(false, false)).Ok?
  {
    InsertFailsIff(t, newIndex, points, Checks(false, false));
  }

  /** Inserting into an Unused node of the right box makes it External with that index. */
  lemma InsertIntoUnused(b: Box, newIndex: nat, points: seq<Point>, checks: Checks)
    requires newIndex < |points| && InBox(b, points[newIndex])
    ensures Insert(Unused(b), newIndex, points, checks) == Ok(External(b, newIndex))
  {
  }

  /** Inserting into an External node replaces it by an Internal one over the same box. */
  lemma InsertSplits(t: Tree, newIndex: nat, points: seq<Point>, checks: Checks)
    requires t.External? && newIndex < |points| && WellFormed(t, points)
    requires InBox(t.box, points[newIndex]) && Separable(t, points, newIndex, checks)
    requires !(checks.proximity && TooClose(t.box, points[newIndex], points[t.index]))
    ensures Insert(t, newIndex, points, checks).Ok?
    ensures Insert(t, newIndex, points, checks).value.Internal?
    ensures forall i: nat :: Occurrences(Insert(t, newIndex, points, checks).value, i) == Bump(i, t.index) + Bump(i, newIndex)
  {
    forall i: nat
      ensures Occurrences(Insert(t, newIndex, points, checks).value, i) == Bump(i, t.index) + Bump(i, newIndex)
    {
      InsertHolds(t, newIndex, points, checks, i);
    }
  }

  /** Inserting into an Internal node changes exactly the child of the particle's octant. */
  lemma InsertForwards(t: Tree, newIndex: nat, points: seq<Point>, checks: Checks)
    requires t.Internal? && newIndex < |points| && WellFormed(t, points)
    requires InBox(t.box, points[newIndex]) && Separable(t, points, newIndex, checks)
    requires Insert(t, newIndex, points, checks).Ok?
    ensures IntoChildOk(t, newIndex, points, checks)
  {
    IntoChild(t, newIndex, points, checks);
  }

  predicate IntoChildOk(t: Tree, newIndex: nat, points: seq<Point>, checks: Checks)
    requires t.Internal? && newIndex < |points| && WellFormed(t, points)
    requires InBox(t.box, points[newIndex]) && Separable(t, points, newIndex, checks)
  {
    var o := Octant(t.box, points[newIndex]);
    IntoChild(t, newIndex, points, checks);
    var r := Insert(t.children[o], newIndex, points, checks);
    r.Ok? && Insert(t, newIndex, points, checks) == Ok(Internal(t.box, t.children[o := r.value]))
  }
}
