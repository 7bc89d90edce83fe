/**
 * The two-dimensional quad-tree of the Geneva Barnes–Hut simulator.  Every
 * node remembers the side `s` of the quadrant it occupies and its
 * position `relpos` relative to that quadrant, both in units of the root
 * square `[0, 1)²`.  A node is either a body (an end-node) or an internal
 * node with four children, its total mass and its mass-weighted position.
 */
module Geneva {
  import opened Wrappers

  /** `smallest_quadrant` of `add`: no quadrant narrower than this is subdivided. */
  const SMALLEST_QUADRANT: real := 0.0001

  const N_QUADRANTS: nat := 4

  // ---------------------------------------------------------------------
  // The quadrant bookkeeping of the base class `Node`.

  /** `s` and `relpos[0]`, `relpos[1]`. */
  datatype Cell = Cell(s: real, relx: real, rely: real)

  /** Both relative coordinates lie in `[0, 1)`. */
  predicate InUnit(c: Cell) {
    0.0 <= c.relx < 1.0 && 0.0 <= c.rely < 1.0
  }

  /**
   * `subdivide` on one relative coordinate: doubled, it says which half of
   * the quadrant the node lies in, and the coordinate becomes relative to
   * that half.
   */
  function Split(r: real): (res: (nat, real))
    ensures res.0 <= 1
    ensures res.0 == 1 <==> r >= 0.5
    ensures 0.0 <= r < 1.0 ==> 0.0 <= res.1 < 1.0 && r == (res.0 as real + res.1) / 2.0
  {
    var d := r * 2.0;
    if d < 1.0 then (0, d) else (1, d - 1.0)
  }

  /**
   * `intoNextQuadrant`: the side is halved and the node moves into the
   * sub-quadrant `2·(x half) + (y half)`, one of 0 to 3.
   */
  function Descend(c: Cell): (res: (nat, Cell))
    ensures res.0 < N_QUADRANTS && res.1.s == c.s * 0.5
    ensures res.0 == 2 * (if c.relx >= 0.5 then 1 else 0) + (if c.rely >= 0.5 then 1 else 0)
    ensures InUnit(c) ==> InUnit(res.1)
  {
    var (j, y) := Split(c.rely);
    var (i, x) := Split(c.relx);
    (j + 2 * i, Cell(c.s * 0.5, x, y))
  }

  /** `resetToZerothQuadrant` of a node at `(px, py)`: the root square, side 1. */
  function Zeroth(px: real, py: real): (c: Cell)
    ensures c.s == 1.0 && (0.0 <= px < 1.0 && 0.0 <= py < 1.0 ==> InUnit(c))
  {
    Cell(1.0, px, py)
  }

  /** The quadrant state of any node, updated in place. */
  class Node {
    var s: real
    const relpos: array<real>

    /** `Node()`: side 1, relative position `(0, 0)`. */
    constructor ()
      ensures relpos.Length == 2 && fresh(relpos)
      ensures Get() == Cell(1.0, 0.0, 0.0)
    {
      s := 1.0;
      relpos := new real[2](_ => 0.0);
    }

    function Get(): Cell
      requires relpos.Length == 2
      reads this, relpos
    {
      Cell(s, relpos[0], relpos[1])
    }

    /** `subdivide(i)`. */
    method Subdivide(i: nat) returns (bit: nat)
      requires i < relpos.Length == 2
      modifies relpos
      ensures (bit, relpos[i]) == Split(old(relpos[i]))
      ensures relpos[1 - i] == old(relpos[1 - i])
    {
      relpos[i] := relpos[i] * 2.0;
      if relpos[i] < 1.0 {
        return 0;
      } else {
        relpos[i] := relpos[i] - 1.0;
        return 1;
      }
    }

    /** `intoNextQuadrant()`. */
    method IntoNextQuadrant() returns (q: nat)
      requires relpos.Length == 2
      modifies this, relpos
      ensures (q, Get()) == Descend(old(Get()))
    {
      s := s * 0.5;
      var j := Subdivide(1);
      var i := Subdivide(0);
      q := j + 2 * i;
    }

    /** `resetToZerothQuadrant()`, given what `getPos` reports. */
    method ResetToZerothQuadrant(px: real, py: real)
      requires relpos.Length == 2
      modifies this, relpos
      ensures Get() == Zeroth(px, py)
    {
      s := 1.0;
      relpos[0] := px;
      relpos[1] := py;
    }
  }

  // ---------------------------------------------------------------------
  // Internal nodes: mass bookkeeping and the four child slots.

  /** The mass and the mass-weighted position `m_pos` of a node. */
  datatype Summary = Summary(mass: real, mx: real, my: real)

  const NO_MASS: Summary := Summary(0.0, 0.0, 0.0)

  /** `addMassCom`: the other node's mass and `m_pos` are added in. */
  function Absorb(acc: Summary, other: Summary): (r: Summary)
    ensures r.mass - acc.mass == other.mass
    ensures r.mx - acc.mx == other.mx && r.my - acc.my == other.my
  {
    Summary(acc.mass + other.mass, acc.mx + other.mx, acc.my + other.my)
  }

  /** Absorbing is order-independent, so the tree's totals do not depend on insertion order. */
  lemma AbsorbCommutes(acc: Summary, a: Summary, b: Summary)
    ensures Absorb(Absorb(acc, a), b) == Absorb(Absorb(acc, b), a)
    ensures Absorb(NO_MASS, a) == a
  {
  }

  /** `setChild`: asserts that the slot is empty, then fills it. */
  function SetSlot<T(==)>(slots: seq<T>, i: nat, c: T, empty: T): (r: Result<seq<T>>)
    ensures r.Ok? <==> i < |slots| && slots[i] == empty
    ensures r.Ok? ==> |r.value| == |slots| && r.value[i] == c
    ensures r.Ok? ==> forall k :: 0 <= k < |slots| && k != i ==> r.value[k] == slots[k]
  {
    if i >= |slots| then Err(Undefined)
    else if slots[i] != empty then Err(AssertionFailed)
    else Ok(slots[i := c])
  }

  /** `extractChild`: the child, and the slots with that one emptied. */
  function ExtractSlot<T>(slots: seq<T>, i: nat, empty: T): (r: (T, seq<T>))
    requires i < |slots|
    ensures r.0 == slots[i] && |r.1| == |slots| && r.1[i] == empty
    ensures forall k :: 0 <= k < |slots| && k != i ==> r.1[k] == slots[k]
  {
    (slots[i], slots[i := empty])
  }

  /** Putting an extracted child back restores the slots. */
  lemma ExtractThenSet<T>(slots: seq<T>, i: nat, empty: T)
    requires i < |slots|
    ensures SetSlot(ExtractSlot(slots, i, empty).1, i, ExtractSlot(slots, i, empty).0, empty) == Ok(slots)
  {
    assert ExtractSlot(slots, i, empty).1[i := slots[i]] == slots;
  }

  /** Extracting a child just set gives it back, with the slots as they were. */
  lemma SetThenExtract<T>(slots: seq<T>, i: nat, c: T, empty: T)
    requires SetSlot(slots, i, c, empty).Ok?
    ensures ExtractSlot(SetSlot(slots, i, c, empty).value, i, empty) == (c, slots)
  {
    assert SetSlot(slots, i, c, empty).value[i := empty] == slots;
  }

  /** `InternalNode`, whose fields `add` updates in place. */
  class InternalNode {
    var cell: Cell
    var mass: real
    var invMass: real
    var invMassComputed: bool
    var mPosX: real
    var mPosY: real
    const children: array<object?>

    /**
     * `InternalNode(node)`: it takes over the quadrant, the mass and the
     * mass-weighted position of the node it replaces; its four slots are
     * empty and the inverse mass is not computed.
     */
    constructor (c: Cell, m: real, px: real, py: real)
      ensures cell == c && mass == m && mPosX == px * m && mPosY == py * m
      ensures invMass == 0.0 && !invMassComputed
      ensures fresh(children) && children[..] == [null, null, null, null]
    {
      var slots := new object?[N_QUADRANTS];
      for i := 0 to N_QUADRANTS
        invariant forall k :: 0 <= k < i ==> slots[k] == null
      {
        slots[i] := null;
      }
      cell := c;
      mass := m;
      invMass := 0.0;
      invMassComputed := false;
      mPosX := px * m;
      mPosY := py * m;
      children := slots;
    }

    function Totals(): Summary
      reads this
    {
      Summary(mass, mPosX, mPosY)
    }

    /** `addMassCom(other)`: the totals grow by the other's, and the cached inverse mass is stale. */
    method AddMassCom(other: Summary)
      modifies this
      ensures Totals() == Absorb(old(Totals()), other)
      ensures !invMassComputed && cell == old(cell) && invMass == old(invMass)
    {
      mass := mass + other.mass;
      invMassComputed := false;
      mPosX := mPosX + other.mx;
      mPosY := mPosY + other.my;
    }

    /** `setChild(quadrant, child)`: an occupied slot is an assertion failure and stays as it was. */
    method SetChild(q: nat, child: object?) returns (r: Result<()>)
      requires q < children.Length
      modifies children
      ensures r.Ok? <==> SetSlot(old(children[..]), q, child, null).Ok?
      ensures r.Ok? ==> children[..] == SetSlot(old(children[..]), q, child, null).value
      ensures r.Err? ==> r.error == AssertionFailed && children[..] == old(children[..])
    {
      if children[q] != null {
        return Err(AssertionFailed);
      }
      children[q] := child;
      r := Ok(());
    }

    /** `extractChild(quadrant)`. */
    method ExtractChild(q: nat) returns (child: object?)
      requires q < children.Length
      modifies children
      ensures (child, children[..]) == ExtractSlot(old(children[..]), q, null)
    {
      child := children[q];
      children[q] := null;
    }
  }

  // ---------------------------------------------------------------------
  // The tree `add` builds, as a value.

  /** The body's own data; `advance` is the only code that changes it. */
  datatype Particle = Particle(mass: real, x: real, y: real, vx: real, vy: real)

  /** A `Body`: its data and its quadrant state. */
  datatype Body = Body(p: Particle, cell: Cell)

  /** A null pointer, a body, or an internal node. */
  datatype Quad =
    | Nil
    | End(body: Body)
    | Inner(cell: Cell, totals: Summary, children: seq<Quad>)

  /** `getS()`. */
  function Side(q: Quad): real
    requires !q.Nil?
  {
    if q.End? then q.body.cell.s else q.cell.s
  }

  /** `getMass()` with `get_m_pos()`; a body's is its mass times its position. */
  function MPos(q: Quad): Summary {
    match q
    case Nil => NO_MASS
    case End(b) => Summary(b.p.mass, b.p.mass * b.p.x, b.p.mass * b.p.y)
    case Inner(_, totals, _) => totals
  }

  /** `new InternalNode(body)`: the body's quadrant and totals, four null children. */
  function NewInternal(b: Body): Quad {
    Inner(b.cell, MPos(End(b)), [Nil, Nil, Nil, Nil])
  }

  /** The virtual `addMassCom` on any node: a body reports an error and asserts false. */
  function AddMassCom(q: Quad, other: Quad): (r: Result<Quad>)
    ensures r.Ok? <==> q.Inner?
    ensures r.Ok? ==> r.value == q.(totals := Absorb(q.totals, MPos(other)))
    ensures q.End? ==> r == Err(AssertionFailed)
  {
    match q
    case Nil => Err(Undefined)
    case End(_) => Err(AssertionFailed)
    case Inner(c, totals, cs) => Ok(Inner(c, Absorb(totals, MPos(other)), cs))
  }

  /** The virtual `setChild`. */
  function SetChild(q: Quad, i: nat, child: Quad): (r: Result<Quad>)
    ensures r.Ok? <==> q.Inner? && SetSlot(q.children, i, child, Nil).Ok?
    ensures r.Ok? ==> r.value == q.(children := SetSlot(q.children, i, child, Nil).value)
    ensures q.End? ==> r == Err(AssertionFailed)
  {
    match q
    case Nil => Err(Undefined)
    case End(_) => Err(AssertionFailed)
    case Inner(c, totals, cs) =>
      var slots :- SetSlot(cs, i, child, Nil);
      Ok(Inner(c, totals, slots))
  }

  /** The virtual `extractChild`: the child and the node with that slot null. */
  function ExtractChild(q: Quad, i: nat): (r: Result<(Quad, Quad)>)
    ensures r.Ok? <==> q.Inner? && i < |q.children|
    ensures r.Ok? ==> r.value == (q.children[i], q.(children := ExtractSlot(q.children, i, Nil).1))
    ensures q.End? ==> r == Err(AssertionFailed)
  {
    match q
    case Nil => Err(Undefined)
    case End(_) => Err(AssertionFailed)
    case Inner(c, totals, cs) =>
      if i >= |cs| then Err(Undefined)
      else
        var (child, slots) := ExtractSlot(cs, i, Nil);
        Ok((child, Inner(c, totals, slots)))
  }

  /** How often a side of `s` can still be halved before it falls below `smallest_quadrant`. */
  function Levels(s: real): nat
    decreases if s < SMALLEST_QUADRANT then 0 else (s * 10000.0).Floor
  {
    if s < SMALLEST_QUADRANT then 0
    else
      HalvedFloor(s * 10000.0);
      1 + Levels(s * 0.5)
  }

  lemma HalvedFloor(r: real)
    requires r >= 1.0
    ensures (r / 2.0).Floor < r.Floor
  {
    var f := r.Floor;
    assert (r / 2.0).Floor as real <= r / 2.0;
    assert r < f as real + 1.0;
  }

  /** The recursion measure of `add`: nodes, and the halvings each body still allows. */
  function Weight(q: Quad): nat {
    match q
    case Nil => 0
    case End(b) => 1 + Levels(b.cell.s)
    case Inner(_, _, cs) => 1 + WeightAll(cs)
  }

  function WeightAll(cs: seq<Quad>): nat {
    if cs == [] then 0 else Weight(cs[0]) + WeightAll(cs[1..])
  }

  lemma {:induction false} WeightAllBound(cs: seq<Quad>, i: nat)
    requires i < |cs|
    ensures Weight(cs[i]) <= WeightAll(cs)
  {
    if i > 0 {
      WeightAllBound(cs[1..], i - 1);
    }
  }

  /**
   * Steps 2 and 3 of `add`: the node that receives the body.  A body is
   * replaced by a new internal node holding it in its next quadrant; an
   * internal node is kept.
   */
  function Host(node: Quad): Result<Quad>
    requires !node.Nil?
  {
    match node
    case End(b0) =>
      var (q0, c0) := Descend(b0.cell);
      SetChild(NewInternal(b0), q0, End(b0.(cell := c0)))
    case Inner(_, _, _) => Ok(node)
  }

  /** The child `add` recurses into weighs less than the node it started from. */
  lemma HostLighter(node: Quad, q: nat)
    requires !node.Nil? && Side(node) >= SMALLEST_QUADRANT && Host(node).Ok? && q < |Host(node).value.children|
    ensures Weight(Host(node).value.children[q]) < Weight(node)
  {
    match node
    case End(b0) =>
      var (q0, c0) := Descend(b0.cell);
      assert Levels(b0.cell.s) == 1 + Levels(c0.s);
    case Inner(_, _, cs) =>
      WeightAllBound(cs, q);
  }

  /**
   * `add(body, node)`: the updated node.  Into no node the body goes
   * itself; a quadrant narrower than `smallest_quadrant` is returned as it
   * is and the body is dropped; otherwise the host takes the body's mass
   * and the body is added, one quadrant down, into the host's child there.
   */
  function Add(b: Body, node: Quad): Result<Quad>
    decreases Weight(node)
  {
    if node.Nil? then Ok(End(b))
    else if Side(node) < SMALLEST_QUADRANT then Ok(node)
    else
      var host :- Host(node);
      var massive :- AddMassCom(host, End(b));
      var (q, c) := Descend(b.cell);
      var (child, emptied) :- ExtractChild(massive, q);
      HostLighter(node, q);
      var sub :- Add(b.(cell := c), child);
      SetChild(emptied, q, sub)
  }

  // ---------------------------------------------------------------------
  // What `add` maintains.

  /** Every internal node has its four child slots. */
  predicate Quaternary(q: Quad) {
    match q
    case Inner(_, _, cs) => |cs| == N_QUADRANTS && forall i :: 0 <= i < |cs| ==> Quaternary(cs[i])
    case _ => true
  }

  /**
   * `add` never trips the assertions of `setChild` and of the end-node
   * methods, and keeps every internal node four-way.
   */
  lemma {:induction false} AddNeverAborts(b: Body, node: Quad)
    requires Quaternary(node)
    ensures Add(b, node).Ok? && Quaternary(Add(b, node).value)
    decreases Weight(node)
  {
    if !node.Nil? && Side(node) >= SMALLEST_QUADRANT {
      var host := HostOf(node);
      var (q, c) := Descend(b.cell);
      HostLighter(node, q);
      AddNeverAborts(b.(cell := c), host.children[q]);
      AddUnfold(b, node);
      QuaternaryReplace(host, Absorb(host.totals, MPos(End(b))), q, Add(b.(cell := c), host.children[q]).value);
    }
  }

  /** A four-way internal node with one child replaced by a four-way node is four-way. */
  lemma QuaternaryReplace(host: Quad, totals: Summary, q: nat, sub: Quad)
    requires host.Inner? && Quaternary(host) && q < N_QUADRANTS && Quaternary(sub)
    ensures Quaternary(Inner(host.cell, totals, host.children[q := sub]))
  {
    var cs := host.children[q := sub];
    forall i | 0 <= i < |cs|
      ensures Quaternary(cs[i])
    {
      if i != q {
        assert cs[i] == host.children[i];
      }
    }
  }

  /**
   * One call of `add` on a four-way node wide enough to split, once the
   * recursive call into the child in the body's next quadrant succeeds.
   */
  lemma AddUnfold(b: Body, node: Quad)
    requires Quaternary(node) && !node.Nil? && Side(node) >= SMALLEST_QUADRANT
    requires Add(b.(cell := Descend(b.cell).1), HostOf(node).children[Descend(b.cell).0]).Ok?
    ensures var host := HostOf(node);
      var (q, c) := Descend(b.cell);
      Add(b, node) == Ok(Inner(host.cell, Absorb(host.totals, MPos(End(b))),
                               host.children[q := Add(b.(cell := c), host.children[q]).value]))
  {
    var host := HostOf(node);
    var massive := host.(totals := Absorb(host.totals, MPos(End(b))));
    assert AddMassCom(host, End(b)) == Ok(massive);
    var (q, c) := Descend(b.cell);
    var emptied := massive.(children := host.children[q := Nil]);
    assert ExtractChild(massive, q) == Ok((host.children[q], emptied));
    var sub := Add(b.(cell := c), host.children[q]).value;
    assert emptied.children[q := sub] == host.children[q := sub];
    assert SetChild(emptied, q, sub) == Ok(massive.(children := host.children[q := sub]));
  }

  /** The host of a four-way node exists and is a four-way internal node with the same totals. */
  lemma HostQuaternary(node: Quad)
    requires !node.Nil? && Quaternary(node)
    ensures Host(node).Ok? && Host(node).value.Inner? && Quaternary(Host(node).value)
    ensures MPos(Host(node).value) == MPos(node)
  {
    if node.End? {
      var (q0, c0) := Descend(node.body.cell);
      assert SetChild(NewInternal(node.body), q0, End(node.body.(cell := c0))).Ok?;
    }
  }

  /** `Host(node).value`, with its existence established. */
  function HostOf(node: Quad): (h: Quad)
    requires !node.Nil? && Quaternary(node)
    ensures Host(node) == Ok(h) && h.Inner? && Quaternary(h) && MPos(h) == MPos(node)
  {
    HostQuaternary(node);
    Host(node).value
  }

  /** The node `add` returns, which exists for a four-way node. */
  function Added(b: Body, node: Quad): Quad
    requires Quaternary(node)
  {
    AddNeverAborts(b, node);
    Add(b, node).value
  }

  /**
   * One call of `add` on a four-way node wide enough to split: the host's
   * totals take the body's, and its child in the body's next quadrant is
   * replaced by the body added into it.
   */
  lemma AddStep(b: Body, node: Quad)
    requires Quaternary(node) && !node.Nil? && Side(node) >= SMALLEST_QUADRANT
    ensures var host := HostOf(node);
      var (q, c) := Descend(b.cell);
      q < |host.children| && Add(b.(cell := c), host.children[q]).Ok? &&
      Add(b, node) == Ok(Inner(host.cell, Absorb(host.totals, MPos(End(b))),
                               host.children[q := Add(b.(cell := c), host.children[q]).value]))
  {
    var host := HostOf(node);
    var (q, c) := Descend(b.cell);
    AddNeverAborts(b.(cell := c), host.children[q]);
    AddUnfold(b, node);
  }

  /**
   * The residual cases: into no node the body goes as it is, and a node
   * narrower than `smallest_quadrant` is returned unchanged, the body
   * being dropped.
   */
  lemma AddResidual(b: Body, node: Quad)
    ensures node.Nil? ==> Add(b, node) == Ok(End(b))
    ensures !node.Nil? && Side(node) < SMALLEST_QUADRANT ==> Add(b, node) == Ok(node)
  {
  }

  /**
   * Steps 2 and 3 update the mass and the mass-weighted position: the
   * returned node's totals are the old ones plus the body's, unless the
   * quadrant was too small.
   */
  lemma AddTotals(b: Body, node: Quad)
    requires Quaternary(node) && (node.Nil? || Side(node) >= SMALLEST_QUADRANT)
    ensures MPos(Added(b, node)) == Absorb(MPos(node), MPos(End(b)))
  {
    if !node.Nil? {
      AddStep(b, node);
    }
  }

  /** Each node is at the depth its side says: the children of a node of side `s` have side `s/2`. */
  predicate Levelled(q: Quad, s: real) {
    match q
    case Nil => true
    case End(b) => b.cell.s == s
    case Inner(c, _, cs) => c.s == s && forall i :: 0 <= i < |cs| ==> Levelled(cs[i], s * 0.5)
  }

  /** Added at the root's level, a body keeps every node at the level its side says. */
  lemma {:induction false} AddLevelled(b: Body, node: Quad, s: real)
    requires Quaternary(node) && Levelled(node, s) && b.cell.s == s
    ensures Levelled(Added(b, node), s)
    decreases Weight(node)
  {
    if !node.Nil? && Side(node) >= SMALLEST_QUADRANT {
      var host := HostOf(node);
      var (q, c) := Descend(b.cell);
      HostLevelled(node, s);
      HostLighter(node, q);
      AddLevelled(b.(cell := c), host.children[q], s * 0.5);
      LevelledStep(b, node, s);
    } else {
      AddResidual(b, node);
    }
  }

  /** One level of `AddLevelled`: a levelled subtree put back into the host keeps it levelled. */
  lemma LevelledStep(b: Body, node: Quad, s: real)
    requires Quaternary(node) && !node.Nil? && Side(node) >= SMALLEST_QUADRANT
    requires Levelled(node, s)
    requires Levelled(Added(b.(cell := Descend(b.cell).1), HostOf(node).children[Descend(b.cell).0]), s * 0.5)
    ensures Levelled(Added(b, node), s)
  {
    AddStep(b, node);
    HostLevelled(node, s);
    var host := HostOf(node);
    var (q, c) := Descend(b.cell);
    LevelledUpdate(host, Absorb(host.totals, MPos(End(b))), q, Added(b.(cell := c), host.children[q]), s);
  }

  lemma HostLevelled(node: Quad, s: real)
    requires !node.Nil? && Quaternary(node) && Levelled(node, s)
    ensures Levelled(HostOf(node), s)
  {
    if node.End? {
      var (q0, c0) := Descend(node.body.cell);
      assert HostOf(node).children == [Nil, Nil, Nil, Nil][q0 := End(node.body.(cell := c0))];
    }
  }

  lemma LevelledUpdate(host: Quad, totals: Summary, q: nat, sub: Quad, s: real)
    requires host.Inner? && Levelled(host, s) && q < |host.children| && Levelled(sub, s * 0.5)
    ensures Levelled(Inner(host.cell, totals, host.children[q := sub]), s)
  {
  }

  /** Every node's relative position lies in its quadrant. */
  predicate Placed(q: Quad) {
    match q
    case Nil => true
    case End(b) => InUnit(b.cell)
    case Inner(c, _, cs) => InUnit(c) && forall i :: 0 <= i < |cs| ==> Placed(cs[i])
  }

  /** A body placed in the root square keeps every relative position in `[0, 1)²`. */
  lemma {:induction false} AddPlaced(b: Body, node: Quad)
    requires Quaternary(node) && Placed(node) && InUnit(b.cell)
    ensures Placed(Added(b, node))
    decreases Weight(node)
  {
    if !node.Nil? && Side(node) >= SMALLEST_QUADRANT {
      AddStep(b, node);
      var host := HostOf(node);
      var (q, c) := Descend(b.cell);
      HostPlaced(node);
      HostLighter(node, q);
      AddPlaced(b.(cell := c), host.children[q]);
      PlacedUpdate(host, Absorb(host.totals, MPos(End(b))), q, Added(b.(cell := c), host.children[q]));
    }
  }

  lemma HostPlaced(node: Quad)
    requires !node.Nil? && Quaternary(node) && Placed(node)
    ensures Placed(HostOf(node))
  {
    if node.End? {
      var (q0, c0) := Descend(node.body.cell);
      assert HostOf(node).children == [Nil, Nil, Nil, Nil][q0 := End(node.body.(cell := c0))];
    }
  }

  lemma PlacedUpdate(host: Quad, totals: Summary, q: nat, sub: Quad)
    requires host.Inner? && Placed(host) && q < |host.children| && Placed(sub)
    ensures Placed(Inner(host.cell, totals, host.children[q := sub]))
  {
  }

  /** How many bodies of the tree carry the data `p`. */
  function Count(q: Quad, p: Particle): nat {
    match q
    case Nil => 0
    case End(b) => if b.p == p then 1 else 0
    case Inner(_, _, cs) => CountAll(cs, p)
  }

  function CountAll(cs: seq<Quad>, p: Particle): nat {
    if cs == [] then 0 else Count(cs[0], p) + CountAll(cs[1..], p)
  }

  /** Replacing one child changes the count by the difference between the two. */
  lemma {:induction false} CountAllUpdate(cs: seq<Quad>, i: nat, c: Quad, p: Particle)
    requires i < |cs|
    ensures CountAll(cs[i := c], p) + Count(cs[i], p) == CountAll(cs, p) + Count(c, p)
  {
    if i == 0 {
      assert cs[i := c][1..] == cs[1..];
    } else {
      assert cs[i := c][1..] == cs[1..][i - 1 := c];
      CountAllUpdate(cs[1..], i - 1, c, p);
    }
  }

  lemma {:induction false} NoBodies(cs: seq<Quad>, p: Particle)
    requires forall i :: 0 <= i < |cs| ==> cs[i] == Nil
    ensures CountAll(cs, p) == 0
  {
    if cs != [] {
      NoBodies(cs[1..], p);
    }
  }

  /**
   * `add` loses no body already in the tree and adds no other: bodies
   * with other data are counted as before, and the new body is counted
   * once more, or not at all when its quadrant became too small.
   */
  lemma {:induction false} AddKeepsBodies(b: Body, node: Quad, p: Particle)
    requires Quaternary(node)
    ensures p != b.p ==> Count(Added(b, node), p) == Count(node, p)
    ensures p == b.p ==> Count(node, p) <= Count(Added(b, node), p) <= Count(node, p) + 1
    ensures node.Nil? ==> Count(Added(b, node), b.p) == 1
    decreases Weight(node)
  {
    if !node.Nil? && Side(node) >= SMALLEST_QUADRANT {
      AddStep(b, node);
      var host := HostOf(node);
      var (q, c) := Descend(b.cell);
      assert Count(host, p) == Count(node, p) by {
        if node.End? {
          var (q0, c0) := Descend(node.body.cell);
          var nils: seq<Quad> := [Nil, Nil, Nil, Nil];
          NoBodies(nils, p);
          CountAllUpdate(nils, q0, End(node.body.(cell := c0)), p);
        }
      }
      HostLighter(node, q);
      AddKeepsBodies(b.(cell := c), host.children[q], p);
      CountAllUpdate(host.children, q, Add(b.(cell := c), host.children[q]).value, p);
    }
  }

  // ---------------------------------------------------------------------
  // The tree of one time step.

  function Weighed(p: Particle): Summary {
    MPos(End(Body(p, Zeroth(p.x, p.y))))
  }

  /** The bodies' totals accumulated in order from no mass. */
  function TotalOf(ps: seq<Particle>): Summary {
    if ps == [] then NO_MASS else Absorb(TotalOf(ps[..|ps| - 1]), Weighed(ps[|ps| - 1]))
  }

  /** How many of the bodies carry the data `p`. */
  function Multiplicity(ps: seq<Particle>, p: Particle): nat {
    if ps == [] then 0 else Multiplicity(ps[..|ps| - 1], p) + (if ps[|ps| - 1] == p then 1 else 0)
  }

  predicate InPlane(p: Particle) {
    0.0 <= p.x < 1.0 && 0.0 <= p.y < 1.0
  }

  /**
   * The loop of `main` that rebuilds the tree: each body is put back into
   * the root square and added, starting from a null root.  The root is a
   * four-way tree whose nodes sit at the depth their side says, whose
   * totals are those of all bodies (a dropped body's mass stays in the
   * nodes above it), and which holds no body more often than it was added;
   * with every position in the unit square, every relative position lies
   * in its quadrant.
   */
  method BuildTree(ps: seq<Particle>) returns (root: Quad)
    ensures Quaternary(root) && Levelled(root, 1.0)
    ensures MPos(root) == TotalOf(ps)
    ensures forall p :: Count(root, p) <= Multiplicity(ps, p)
    ensures (forall i :: 0 <= i < |ps| ==> InPlane(ps[i])) ==> Placed(root)
  {
    root := Nil;
    for i := 0 to |ps|
      invariant Quaternary(root) && Levelled(root, 1.0)
      invariant MPos(root) == TotalOf(ps[..i])
      invariant forall p :: Count(root, p) <= Multiplicity(ps[..i], p)
      invariant (forall k :: 0 <= k < i ==> InPlane(ps[k])) ==> Placed(root)
    {
      var b := Body(ps[i], Zeroth(ps[i].x, ps[i].y));
      assert ps[..i + 1][..i] == ps[..i] && ps[..i + 1][i] == ps[i];
      AddStays(b, root, 1.0);
      root := Added(b, root);
    }
    assert ps[..|ps|] == ps;
  }

  /** One iteration of the loop keeps its invariants. */
  lemma AddStays(b: Body, root: Quad, s: real)
    requires Quaternary(root) && Levelled(root, s) && b.cell.s == s && s >= SMALLEST_QUADRANT
    ensures Quaternary(Added(b, root)) && Levelled(Added(b, root), s)
    ensures MPos(Added(b, root)) == Absorb(MPos(root), MPos(End(b)))
    ensures forall p :: Count(Added(b, root), p) <= Count(root, p) + (if p == b.p then 1 else 0)
    ensures Placed(root) && InUnit(b.cell) ==> Placed(Added(b, root))
  {
    AddNeverAborts(b, root);
    AddLevelled(b, root, s);
    AddTotals(b, root);
    forall p {
      AddKeepsBodies(b, root, p);
    }
    if Placed(root) && InUnit(b.cell) {
      AddPlaced(b, root);
    }
  }
}
