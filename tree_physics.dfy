/**
 * The physical fields a node carries besides its box: the mass `_m` and
 * the centre `_x`, `_y`, `_z` (csrc: `_center_of_mass`).  For an External
 * node they are its particle's mass and position; an Internal node
 * accumulates its children's mass and first moments into them.
 */
module TreePhysics {
  import opened Wrappers
  import opened Octree

  /** `(_m, _x, _y, _z)` of one node. */
  datatype Moments = Moments(m: real, x: real, y: real, z: real)

  const ZERO: Moments := Moments(0.0, 0.0, 0.0, 0.0)

  /**
   * `accumulatePhysics(other)` of csrc and csrc2: the child's mass, and the
   * child's mass times each coordinate of its centre.
   */
  function Accumulate(acc: Moments, child: Moments): Moments {
    Moments(acc.m + child.m, acc.x + child.m * child.x, acc.y + child.m * child.y, acc.z + child.m * child.z)
  }

  /** The children accumulated in order, as `propagate` after each child does. */
  function AccumulateAll(acc: Moments, children: seq<Moments>): Moments {
    if children == [] then acc else Accumulate(AccumulateAll(acc, children[..|children| - 1]), children[|children| - 1])
  }

  /** The total mass of the children. */
  function Mass(children: seq<Moments>): real {
    if children == [] then 0.0 else children[0].m + Mass(children[1..])
  }

  /** The children's first moments `Σ m·x`, `Σ m·y`, `Σ m·z`. */
  function MomentX(children: seq<Moments>): real {
    if children == [] then 0.0 else children[0].m * children[0].x + MomentX(children[1..])
  }

  function MomentY(children: seq<Moments>): real {
    if children == [] then 0.0 else children[0].m * children[0].y + MomentY(children[1..])
  }

  function MomentZ(children: seq<Moments>): real {
    if children == [] then 0.0 else children[0].m * children[0].z + MomentZ(children[1..])
  }

  /** The sums split at the last child. */
  lemma {:induction false} MassSnoc(children: seq<Moments>, c: Moments)
    ensures Mass(children + [c]) == Mass(children) + c.m
  {
    if children == [] {
      assert [] + [c] == [c];
      assert [c][1..] == [];
    } else {
      assert (children + [c])[1..] == children[1..] + [c];
      MassSnoc(children[1..], c);
    }
  }

  lemma {:induction false} MomentXSnoc(children: seq<Moments>, c: Moments)
    ensures MomentX(children + [c]) == MomentX(children) + c.m * c.x
  {
    if children == [] {
      assert [] + [c] == [c];
      assert [c][1..] == [];
    } else {
      assert (children + [c])[1..] == children[1..] + [c];
      MomentXSnoc(children[1..], c);
    }
  }

  lemma {:induction false} MomentYSnoc(children: seq<Moments>, c: Moments)
    ensures MomentY(children + [c]) == MomentY(children) + c.m * c.y
  {
    if children == [] {
      assert [] + [c] == [c];
      assert [c][1..] == [];
    } else {
      assert (children + [c])[1..] == children[1..] + [c];
      MomentYSnoc(children[1..], c);
    }
  }

  lemma {:induction false} MomentZSnoc(children: seq<Moments>, c: Moments)
    ensures MomentZ(children + [c]) == MomentZ(children) + c.m * c.z
  {
    if children == [] {
      assert [] + [c] == [c];
      assert [c][1..] == [];
    } else {
      assert (children + [c])[1..] == children[1..] + [c];
      MomentZSnoc(children[1..], c);
    }
  }

  /**
   * Starting from the zeroed fields a new node has, accumulating the
   * children leaves their total mass and their first moments: dividing by
   * the mass gives the centre of mass.
   */
  lemma AccumulatedSums(children: seq<Moments>)
    ensures AccumulateAll(ZERO, children) == Moments(Mass(children), MomentX(children), MomentY(children), MomentZ(children))
  {
    AccumulatedMass(children);
    AccumulatedX(children);
    AccumulatedY(children);
    AccumulatedZ(children);
  }

  lemma {:induction false} AccumulatedMass(children: seq<Moments>)
    ensures AccumulateAll(ZERO, children).m == Mass(children)
  {
    if children != [] {
      var init, c := children[..|children| - 1], children[|children| - 1];
      AccumulatedMass(init);
      assert init + [c] == children;
      MassSnoc(init, c);
      assert AccumulateAll(ZERO, children) == Accumulate(AccumulateAll(ZERO, init), c);
    }
  }

  lemma {:induction false} AccumulatedX(children: seq<Moments>)
    ensures AccumulateAll(ZERO, children).x == MomentX(children)
  {
    if children != [] {
      var init, c := children[..|children| - 1], children[|children| - 1];
      AccumulatedX(init);
      assert init + [c] == children;
      MomentXSnoc(init, c);
      assert AccumulateAll(ZERO, children) == Accumulate(AccumulateAll(ZERO, init), c);
    }
  }

  lemma {:induction false} AccumulatedY(children: seq<Moments>)
    ensures AccumulateAll(ZERO, children).y == MomentY(children)
  {
    if children != [] {
      var init, c := children[..|children| - 1], children[|children| - 1];
      AccumulatedY(init);
      assert init + [c] == children;
      MomentYSnoc(init, c);
      assert AccumulateAll(ZERO, children) == Accumulate(AccumulateAll(ZERO, init), c);
    }
  }

  lemma {:induction false} AccumulatedZ(children: seq<Moments>)
    ensures AccumulateAll(ZERO, children).z == MomentZ(children)
  {
    if children != [] {
      var init, c := children[..|children| - 1], children[|children| - 1];
      AccumulatedZ(init);
      assert init + [c] == children;
      MomentZSnoc(init, c);
      assert AccumulateAll(ZERO, children) == Accumulate(AccumulateAll(ZERO, init), c);
    }
  }

  /** The order in which two children are accumulated does not matter. */
  lemma AccumulateCommutes(acc: Moments, c1: Moments, c2: Moments)
    ensures Accumulate(Accumulate(acc, c1), c2) == Accumulate(Accumulate(acc, c2), c1)
  {
  }

  /** The node fields the physics updates, with the (immutable) box they must lie in. */
  class NodePhysics {
    const box: Box
    var m: real
    var centre: Point

    /** A new node's fields: `_m(0.0d), _x(0.0d), _y(0.0d), _z(0.0d)`. */
    constructor (box: Box)
      ensures this.box == box && m == 0.0 && centre == Point(0.0, 0.0, 0.0)
    {
      this.box := box;
      m := 0.0;
      centre := Point(0.0, 0.0, 0.0);
    }

    function Get(): Moments
      reads this
    {
      Moments(m, centre.x, centre.y, centre.z)
    }

    /**
     * `set_mass_and_centre`: each coordinate of the centre is range checked
     * against the node's box, axis by axis; the first one outside throws
     * before any field is assigned, otherwise mass and centre are stored.
     */
    method SetMassAndCentre(mass: real, c: Point) returns (r: Result<()>)
      modifies this
      ensures r.Err? <==> !InBox(box, c)
      ensures r.Err? ==> r.error == LogicError && m == old(m) && centre == old(centre)
      ensures r.Ok? ==> m == mass && centre == c
    {
      InBoxAxes(box, c);
      for a := 0 to 3
        invariant forall b :: 0 <= b < a ==> Lo(box, b) <= Coord(c, b) <= Hi(box, b)
      {
        if !InRange(Coord(c, a), Lo(box, a), Hi(box, a)) {
          return Err(LogicError);
        }
      }
      m := mass;
      centre := c;
      r := Ok(());
    }

    /** `accumulatePhysics(other)` for a child `other` of this node. */
    method AccumulatePhysics(other: NodePhysics)
      requires other != this
      modifies this
      ensures Get() == Accumulate(old(Get()), other.Get())
    {
      var om := other.m;
      m := m + om;
      centre := Point(centre.x + om * other.centre.x, centre.y + om * other.centre.y, centre.z + om * other.centre.z);
    }
  }

  /**
   * csrc2's `validate(x, y, z)`: throws when the centre of mass lies outside
   * the box on any axis, that is exactly when the range checks would.
   */
  function Validate(b: Box, c: Point): (r: Result<()>)
    ensures r.Err? <==> !(forall a :: 0 <= a < 3 ==> Lo(b, a) <= Coord(c, a) <= Hi(b, a))
    ensures r.Err? ==> r.error == LogicError
  {
    InBoxAxes(b, c);
    if c.x < b.xmin || b.xmax < c.x || c.y < b.ymin || b.ymax < c.y || c.z < b.zmin || b.zmax < c.z then Err(LogicError)
    else Ok(())
  }
}
