/**
 * csrc's `TreeVerifier`, a visitor that checks a finished tree: every
 * particle is met in exactly one External node (`visit_external`), and
 * every Internal node's children cover its eight octants once each
 * (`visit_internal` pushes a block of eight flags, `accumulate` sets the
 * flag of each child's octant, `depart` checks all eight and pops).  A
 * failed C `assert` aborts the program: the state records the failure and
 * the visitor stops.
 */
module TreeVerifier {
  import opened Wrappers
  import opened Octree
  import opened Traversal
  import TreeCreate

  /** The default `tolerance=0.000001` of `_get_index`. */
  const TOLERANCE: real := 0.000001

  /** The half of axis `a` that child `o` covers: its bit on that axis, x first. */
  function BitOf(o: nat, a: nat): nat
    requires a < 3
  {
    var (i, j, k) := OctantBits(o);
    if a == 0 then i else if a == 1 then j else k
  }

  /**
   * `_get_index(node, child, i)` as written: `abs(...) && abs(...)` is true
   * when both differences are NOT zero, so the lower-half test passes for
   * an upper-half child and the other way round.
   */
  function GetIndexAsWritten(node: Box, child: Box, a: nat): Result<nat>
    requires a < 3
  {
    var mean := Mean(Lo(node, a), Hi(node, a));
    if Abs(Lo(node, a) - Lo(child, a)) != 0.0 && Abs(mean - Hi(child, a)) != 0.0 then Ok(0)
    else if Abs(Hi(node, a) - Hi(child, a)) != 0.0 && Abs(mean - Lo(child, a)) != 0.0 then Ok(1)
    else Err(LogicError)
  }

  /** As written, each axis of every child of a box with positive width is given the other half's index. */
  lemma AsWrittenInverted(b: Box, o: nat, a: nat)
    requires o < N_CHILDREN && a < 3 && Width(b, a) > 0.0
    ensures GetIndexAsWritten(b, ChildBox(b, o), a) == Ok(1 - BitOf(o, a))
  {
    ChildEnds(b, o, a);
  }

  /** The ends of child `o` on axis `a`: the node's lower half for bit 0, its upper half for bit 1. */
  lemma ChildEnds(b: Box, o: nat, a: nat)
    requires o < N_CHILDREN && a < 3
    ensures IsBit(BitOf(o, a))
    ensures Lo(ChildBox(b, o), a) == if BitOf(o, a) == 0 then Lo(b, a) else Mean(Lo(b, a), Hi(b, a))
    ensures Hi(ChildBox(b, o), a) == if BitOf(o, a) == 0 then Mean(Lo(b, a), Hi(b, a)) else Hi(b, a)
  {
    OctantBitsInverse(o);
  }

  /**
   * `_get_index` as its comment describes it: 0 when the child spans the
   * lower half of axis `a` (its ends lie within `tolerance` of the node's
   * minimum and mean), 1 for the upper half, and otherwise a logic error.
   */
  function GetIndex(node: Box, child: Box, a: nat): Result<nat>
    requires a < 3
  {
    var mean := Mean(Lo(node, a), Hi(node, a));
    if Abs(Lo(node, a) - Lo(child, a)) < TOLERANCE && Abs(mean - Hi(child, a)) < TOLERANCE then Ok(0)
    else if Abs(Hi(node, a) - Hi(child, a)) < TOLERANCE && Abs(mean - Lo(child, a)) < TOLERANCE then Ok(1)
    else Err(LogicError)
  }

  /** Each axis of a child of a box at least `2·tolerance` wide gets the child's own bit. */
  lemma IndexOfChild(b: Box, o: nat, a: nat)
    requires o < N_CHILDREN && a < 3 && Width(b, a) >= 2.0 * TOLERANCE
    ensures GetIndex(b, ChildBox(b, o), a) == Ok(BitOf(o, a))
  {
    ChildEnds(b, o, a);
  }

  /** The lower-x child of the cube `[0, 2]³`: 1 as written, 0 as intended. */
  lemma LowerChildMisplaced()
    ensures GetIndexAsWritten(Box(0.0, 2.0, 0.0, 2.0, 0.0, 2.0), ChildBox(Box(0.0, 2.0, 0.0, 2.0, 0.0, 2.0), 0), 0) == Ok(1)
    ensures GetIndex(Box(0.0, 2.0, 0.0, 2.0, 0.0, 2.0), ChildBox(Box(0.0, 2.0, 0.0, 2.0, 0.0, 2.0), 0), 0) == Ok(0)
  {
    var b := Box(0.0, 2.0, 0.0, 2.0, 0.0, 2.0);
    assert OctantBits(0) == (0, 0, 0);
    assert ChildBox(b, 0) == Box(0.0, 1.0, 0.0, 1.0, 0.0, 1.0);
  }

  /** As written, a box with no width on an axis places none of its children on that axis. */
  lemma AsWrittenNeedsWidth(b: Box, o: nat, a: nat)
    requires o < N_CHILDREN && a < 3 && Width(b, a) == 0.0
    ensures GetIndexAsWritten(b, ChildBox(b, o), a) == Err(LogicError)
  {
    ChildEnds(b, o, a);
  }

  /**
   * Corrected, a box narrower than the tolerance cannot tell its halves
   * apart: on `[0, 1e-6]` both x-halves are given index 0.  As written they
   * are told apart.
   */
  lemma NarrowHalvesCollide()
    ensures GetIndex(Box(0.0, 0.000001, 0.0, 2.0, 0.0, 2.0), ChildBox(Box(0.0, 0.000001, 0.0, 2.0, 0.0, 2.0), 0), 0) == Ok(0)
    ensures GetIndex(Box(0.0, 0.000001, 0.0, 2.0, 0.0, 2.0), ChildBox(Box(0.0, 0.000001, 0.0, 2.0, 0.0, 2.0), 4), 0) == Ok(0)
    ensures GetIndexAsWritten(Box(0.0, 0.000001, 0.0, 2.0, 0.0, 2.0), ChildBox(Box(0.0, 0.000001, 0.0, 2.0, 0.0, 2.0), 0), 0) == Ok(1)
    ensures GetIndexAsWritten(Box(0.0, 0.000001, 0.0, 2.0, 0.0, 2.0), ChildBox(Box(0.0, 0.000001, 0.0, 2.0, 0.0, 2.0), 4), 0) == Ok(0)
  {
    var b := Box(0.0, 0.000001, 0.0, 2.0, 0.0, 2.0);
    assert OctantBits(0) == (0, 0, 0) && OctantBits(4) == (1, 0, 0);
    assert ChildBox(b, 0) == Box(0.0, 0.0000005, 0.0, 1.0, 0.0, 1.0);
    assert ChildBox(b, 4) == Box(0.0000005, 0.000001, 0.0, 1.0, 0.0, 1.0);
  }

  /** Which `_get_index` the verifier calls: the code's, or the one its comment describes. */
  datatype Indexing = AsWritten | Corrected

  function IndexBy(ix: Indexing, node: Box, child: Box, a: nat): Result<nat>
    requires a < 3
  {
    if ix.AsWritten? then GetIndexAsWritten(node, child, a) else GetIndex(node, child, a)
  }

  /** The octant `accumulate` computes for a child: `_get_index` on the three axes. */
  function ChildOctant(node: Box, child: Box, ix: Indexing): Result<nat> {
    var i :- IndexBy(ix, node, child, 0);
    var j :- IndexBy(ix, node, child, 1);
    var k :- IndexBy(ix, node, child, 2);
    Ok(4 * i + 2 * j + k)
  }

  /**
   * The flag that child `o` of a split sets: as written every bit is
   * flipped, so child `o` sets the flag of octant `7 - o`; corrected, its own.
   */
  function Marks(ix: Indexing, o: nat): nat
    requires o < N_CHILDREN
  {
    if ix.AsWritten? then N_CHILDREN - 1 - o else o
  }

  /** The widths `_get_index` needs: positive as written, at least `2·tolerance` corrected. */
  predicate Separates(ix: Indexing, b: Box) {
    forall a :: 0 <= a < 3 ==> if ix.AsWritten? then Width(b, a) > 0.0 else Width(b, a) >= 2.0 * TOLERANCE
  }

  /**
   * `accumulate` finds for each child of a box wide enough the flag of
   * `Marks`: octant `7 - o` as written, `o` corrected.  Either way distinct
   * children set distinct flags, so a correct tree fills the block.
   */
  lemma OctantOfChild(b: Box, o: nat, ix: Indexing)
    requires o < N_CHILDREN && Separates(ix, b)
    ensures ChildOctant(b, ChildBox(b, o), ix) == Ok(Marks(ix, o))
    ensures Marks(ix, o) < N_CHILDREN && forall o' :: 0 <= o' < N_CHILDREN && o' != o ==> Marks(ix, o') != Marks(ix, o)
  {
    if ix.AsWritten? {
      assert Width(b, 0) > 0.0 && Width(b, 1) > 0.0 && Width(b, 2) > 0.0;
      AsWrittenInverted(b, o, 0);
      AsWrittenInverted(b, o, 1);
      AsWrittenInverted(b, o, 2);
    } else {
      assert Width(b, 0) >= 2.0 * TOLERANCE && Width(b, 1) >= 2.0 * TOLERANCE && Width(b, 2) >= 2.0 * TOLERANCE;
      IndexOfChild(b, o, 0);
      IndexOfChild(b, o, 1);
      IndexOfChild(b, o, 2);
    }
    OctantBitsInverse(o);
  }

  // ---------------------------------------------------------------------
  // The verifier's state and its callbacks.

  /**
   * `_particle_verified`, the stack `_child_within_limits` of 2×2×2 blocks
   * (flattened: octant `4i+2j+k`), and the failure that aborted the run.
   */
  datatype State = State(verified: seq<bool>, stack: seq<seq<bool>>, failure: Option<Error>)

  /** A fresh block: all eight octants unmarked. */
  const FRESH: seq<bool> := [false, false, false, false, false, false, false, false]

  /** The constructor: `n` particles, none verified yet, no block. */
  function Initial(n: nat): State {
    State(seq(n, _ => false), [], None)
  }

  function Top(st: State): seq<bool>
    requires st.stack != []
  {
    st.stack[|st.stack| - 1]
  }

  /**
   * `visit`: an Internal node goes to `visit_internal` (push a fresh
   * block), an External node to `visit_external` (assert its particle was
   * not yet seen, then mark it); Unused nodes need nothing.
   */
  function VisitStep(st: State, t: Tree): (State, Status) {
    if st.failure.Some? then (st, Stop)
    else
      match t
      case Internal(_, _) => (st.(stack := st.stack + [FRESH]), Continue)
      case External(_, index) =>
        if index >= |st.verified| then (st.(failure := Some(Undefined)), Stop)
        else if st.verified[index] then (st.(failure := Some(AssertionFailed)), Stop)
        else (st.(verified := st.verified[index := true]), Continue)
      case Unused(_) => (st, Continue)
  }

  /** `accumulate(node, child)`: find the child's octant, assert it is unmarked, mark it. */
  function AccumulateStep(st: State, node: Tree, child: Tree, ix: Indexing): State {
    if st.failure.Some? then st
    else
      match ChildOctant(node.box, child.box, ix)
      case Err(e) => st.(failure := Some(e))
      case Ok(o) =>
        if st.stack == [] || o >= |Top(st)| then st.(failure := Some(Undefined))
        else if Top(st)[o] then st.(failure := Some(AssertionFailed))
        else st.(stack := st.stack[..|st.stack| - 1] + [Top(st)[o := true]])
  }

  /** All eight octants of a block are marked. */
  predicate Complete(block: seq<bool>) {
    MarkedBelow(block, N_CHILDREN)
  }

  /** The octants before `n` are marked. */
  predicate MarkedBelow(block: seq<bool>, n: nat) {
    forall o :: 0 <= o < n ==> o < |block| && block[o]
  }

  lemma Incomplete(block: seq<bool>, o: nat)
    requires o < N_CHILDREN && !(o < |block| && block[o])
    ensures !Complete(block)
  {
  }

  /** `depart(node)`: assert that all eight octants were marked, then pop the block. */
  function DepartStep(st: State, node: Tree): (State, bool) {
    if st.failure.Some? then (st, false)
    else if st.stack == [] then (st.(failure := Some(Undefined)), false)
    else if !Complete(Top(st)) then (st.(failure := Some(AssertionFailed)), false)
    else (st.(stack := st.stack[..|st.stack| - 1]), true)
  }

  /** The verifier's callbacks, `accumulate` calling `_get_index` as `ix` says. */
  function Verifier(ix: Indexing): Visitor<State> {
    Visitor((st: State, t: Tree) => VisitStep(st, t),
            (st: State, t: Tree, c: Tree) => AccumulateStep(st, t, c, ix),
            (st: State, t: Tree) => DepartStep(st, t))
  }

  /** `has_been_verified()`: false if a particle was not seen, else assert the stack is empty. */
  function Verdict(st: State): Result<bool> {
    if st.failure.Some? then Err(st.failure.value)
    else if exists i :: 0 <= i < |st.verified| && !st.verified[i] then Ok(false)
    else if st.stack != [] then Err(AssertionFailed)
    else Ok(true)
  }

  // ---------------------------------------------------------------------
  // The verifier accepts every tree `create` builds.

  /** Every Internal node's box is wide enough for `_get_index` to place its children. */
  predicate Resolvable(t: Tree, ix: Indexing) {
    match t
    case Internal(b, cs) => Separates(ix, b) && forall o :: 0 <= o < |cs| ==> Resolvable(cs[o], ix)
    case _ => true
  }

  /**
   * As written, a well-formed tree whose box has positive width on every
   * axis is resolvable throughout: each split halves the widths.
   */
  lemma {:induction false} PositiveResolvable(t: Tree, points: seq<Point>)
    requires WellFormed(t, points) && forall a :: 0 <= a < 3 ==> Width(t.box, a) > 0.0
    ensures Resolvable(t, AsWritten)
  {
    if t.Internal? {
      forall o | 0 <= o < |t.children|
        ensures Resolvable(t.children[o], AsWritten)
      {
        var c := t.children[o];
        assert c.box == ChildBox(t.box, o) && WellFormed(c, points);
        assert Width(t.box, 0) > 0.0 && Width(t.box, 1) > 0.0 && Width(t.box, 2) > 0.0;
        ChildSides(t.box, o, 0);
        ChildSides(t.box, o, 1);
        ChildSides(t.box, o, 2);
        assert forall a :: 0 <= a < 3 ==> Width(c.box, a) > 0.0;
        PositiveResolvable(c, points);
      }
    }
  }

  /** `after` is `before` with every particle of `t` marked. */
  predicate Marked(before: seq<bool>, after: seq<bool>, t: Tree) {
    |after| == |before| && forall i :: 0 <= i < |before| ==> after[i] == (before[i] || Occurrences(t, i) > 0)
  }

  predicate MarkedAll(before: seq<bool>, after: seq<bool>, cs: seq<Tree>) {
    |after| == |before| && forall i :: 0 <= i < |before| ==> after[i] == (before[i] || OccurrencesAll(cs, i) > 0)
  }

  /** No particle occurs twice. */
  ghost predicate Once(t: Tree) {
    forall i: nat :: Occurrences(t, i) <= 1
  }

  ghost predicate OnceAll(cs: seq<Tree>) {
    forall i: nat :: OccurrencesAll(cs, i) <= 1
  }

  /** Every particle of `t` is a valid index, not yet marked. */
  ghost predicate Unmarked(verified: seq<bool>, t: Tree) {
    forall i: nat :: Occurrences(t, i) > 0 ==> i < |verified| && !verified[i]
  }

  ghost predicate UnmarkedAll(verified: seq<bool>, cs: seq<Tree>) {
    forall i: nat :: OccurrencesAll(cs, i) > 0 ==> i < |verified| && !verified[i]
  }

  /** The top block is open with exactly the flags of children before `i` marked, and nothing failed. */
  predicate Opened(st: State, i: nat, ix: Indexing) {
    st.failure.None? && st.stack != [] && |Top(st)| == N_CHILDREN &&
    forall o :: 0 <= o < N_CHILDREN ==> Top(st)[Marks(ix, o)] == (o < i)
  }

  /** Once all eight children have set their flags, the block is complete. */
  lemma OpenedComplete(st: State, ix: Indexing)
    requires Opened(st, N_CHILDREN, ix)
    ensures Complete(Top(st))
  {
    forall q | 0 <= q < N_CHILDREN
      ensures Top(st)[q]
    {
      assert Marks(ix, Marks(ix, q)) == q;
    }
  }

  lemma OnceSplit(cs: seq<Tree>)
    requires cs != [] && OnceAll(cs)
    ensures Once(cs[0]) && OnceAll(cs[1..])
  {
    forall i: nat
      ensures Occurrences(cs[0], i) <= 1 && OccurrencesAll(cs[1..], i) <= 1
    {
      assert OccurrencesAll(cs, i) == Occurrences(cs[0], i) + OccurrencesAll(cs[1..], i);
    }
  }

  lemma FirstUnmarked(verified: seq<bool>, cs: seq<Tree>)
    requires cs != [] && UnmarkedAll(verified, cs)
    ensures Unmarked(verified, cs[0])
  {
    forall i: nat | Occurrences(cs[0], i) > 0
      ensures i < |verified| && !verified[i]
    {
      assert OccurrencesAll(cs, i) == Occurrences(cs[0], i) + OccurrencesAll(cs[1..], i);
    }
  }

  /** Marking the first child leaves the rest unmarked, their particles being different. */
  lemma RestUnmarked(verified: seq<bool>, verified': seq<bool>, cs: seq<Tree>)
    requires cs != [] && OnceAll(cs) && UnmarkedAll(verified, cs) && Marked(verified, verified', cs[0])
    ensures UnmarkedAll(verified', cs[1..])
  {
    forall i: nat | OccurrencesAll(cs[1..], i) > 0
      ensures i < |verified'| && !verified'[i]
    {
      assert OccurrencesAll(cs, i) == Occurrences(cs[0], i) + OccurrencesAll(cs[1..], i);
    }
  }

  lemma MarkedJoin(verified: seq<bool>, verified': seq<bool>, verified'': seq<bool>, cs: seq<Tree>)
    requires cs != [] && Marked(verified, verified', cs[0]) && MarkedAll(verified', verified'', cs[1..])
    ensures MarkedAll(verified, verified'', cs)
  {
    forall i | 0 <= i < |verified|
      ensures verified''[i] == (verified[i] || OccurrencesAll(cs, i) > 0)
    {
      assert OccurrencesAll(cs, i) == Occurrences(cs[0], i) + OccurrencesAll(cs[1..], i);
    }
  }

  /**
   * Walking a well-formed subtree whose particles occur once and are still
   * unmarked: nothing fails, the traversal goes on, the stack is as before
   * and exactly the subtree's particles become verified.
   */
  lemma {:induction false} WalkVerifies(t: Tree, points: seq<Point>, st: State, ix: Indexing)
    requires WellFormed(t, points) && Resolvable(t, ix) && st.failure.None?
    requires Once(t) && Unmarked(st.verified, t)
    ensures Walk(Departing, Verifier(ix), st, t).1
    ensures Walk(Departing, Verifier(ix), st, t).0.failure.None?
    ensures Walk(Departing, Verifier(ix), st, t).0.stack == st.stack
    ensures Marked(st.verified, Walk(Departing, Verifier(ix), st, t).0.verified, t)
    decreases t, 1
  {
    assert Verifier(ix).visit(st, t) == VisitStep(st, t);
    match t
    case Unused(_) =>
    case External(_, index) =>
      assert Occurrences(t, index) == 1;
    case Internal(b, cs) =>
      var st1 := st.(stack := st.stack + [FRESH]);
      assert Verifier(ix).visit(st, t) == (st1, Continue);
      assert Top(st1) == FRESH;
      assert cs[0..] == cs;
      forall j: nat
        ensures OccurrencesAll(cs, j) <= 1
        ensures OccurrencesAll(cs, j) > 0 ==> j < |st1.verified| && !st1.verified[j]
      {
        assert Occurrences(t, j) == OccurrencesAll(cs, j);
      }
      ChildrenVerify(t, points, st1, 0, ix);
      var st2 := Children(Departing, Verifier(ix), st1, t, 0).0;
      assert Verifier(ix).depart(st2, t) == DepartStep(st2, t);
      assert st2.stack[..|st2.stack| - 1] == st.stack;
  }

  /**
   * The loop over the children from `i` on: each child verifies, its
   * octant `i` is marked, and after the eighth the block is complete.
   */
  lemma {:induction false} ChildrenVerify(t: Tree, points: seq<Point>, st: State, i: nat, ix: Indexing)
    requires t.Internal? && WellFormed(t, points) && Resolvable(t, ix) && i <= N_CHILDREN
    requires Opened(st, i, ix) && OnceAll(t.children[i..]) && UnmarkedAll(st.verified, t.children[i..])
    ensures var (st', go) := Children(Departing, Verifier(ix), st, t, i);
      go && st'.failure.None? && st'.stack != [] && |st'.stack| == |st.stack| &&
      st'.stack[..|st'.stack| - 1] == st.stack[..|st.stack| - 1] && Complete(Top(st')) &&
      MarkedAll(st.verified, st'.verified, t.children[i..])
    decreases t, 0, N_CHILDREN - i, 1
  {
    var cs := t.children;
    if i == N_CHILDREN {
      assert cs[i..] == [];
      OpenedComplete(st, ix);
    } else {
      var ds := cs[i..];
      assert ds[0] == cs[i] && ds[1..] == cs[i + 1..];
      OnceSplit(ds);
      FirstUnmarked(st.verified, ds);
      ChildVerifies(t, points, st, i, ix);
      var s2 := Verifier(ix).farewell(Walk(Departing, Verifier(ix), st, cs[i]).0, t, cs[i]);
      RestUnmarked(st.verified, s2.verified, ds);
      ChildrenVerify(t, points, s2, i + 1, ix);
      MarkedJoin(st.verified, s2.verified, Children(Departing, Verifier(ix), s2, t, i + 1).0.verified, ds);
    }
  }

  /** One turn of the loop: child `i` verifies, and `accumulate` marks its flag. */
  lemma ChildVerifies(t: Tree, points: seq<Point>, st: State, i: nat, ix: Indexing)
    requires t.Internal? && WellFormed(t, points) && Resolvable(t, ix) && i < N_CHILDREN
    requires Opened(st, i, ix) && Once(t.children[i]) && Unmarked(st.verified, t.children[i])
    ensures var (s1, go) := Walk(Departing, Verifier(ix), st, t.children[i]);
      var s2 := Verifier(ix).farewell(s1, t, t.children[i]);
      go && Opened(s2, i + 1, ix) && |s2.stack| == |st.stack| &&
      s2.stack[..|s2.stack| - 1] == st.stack[..|st.stack| - 1] &&
      Marked(st.verified, s2.verified, t.children[i])
    decreases t, 0, N_CHILDREN - i, 0
  {
    var c := t.children[i];
    WalkVerifies(c, points, st, ix);
    var s1 := Walk(Departing, Verifier(ix), st, c).0;
    assert Verifier(ix).farewell(s1, t, c) == AccumulateStep(s1, t, c, ix);
    OctantOfChild(t.box, i, ix);
    assert Top(s1) == Top(st);
  }

  /**
   * Run over a tree `create` built from `n` particles, the verifier finds
   * every particle once and every octant filled: `has_been_verified()`.
   */
  lemma VerifierAccepts(tree: Tree, box: Box, points: seq<Point>, ix: Indexing)
    requires TreeCreate.HoldsFirst(tree, box, points, |points|) && Resolvable(tree, ix)
    ensures Walk(Departing, Verifier(ix), Initial(|points|), tree).1
    ensures Verdict(Walk(Departing, Verifier(ix), Initial(|points|), tree).0) == Ok(true)
  {
    assert Once(tree) && Unmarked(Initial(|points|).verified, tree);
    WalkVerifies(tree, points, Initial(|points|), ix);
    var st := Walk(Departing, Verifier(ix), Initial(|points|), tree).0;
    forall i | 0 <= i < |st.verified|
      ensures st.verified[i]
    {
      assert Occurrences(tree, i) == 1;
    }
  }

  /**
   * The verifier as written accepts every tree `create` builds over a box
   * with positive width on each axis, however deep the splits go.
   */
  lemma VerifierAcceptsCreated(tree: Tree, box: Box, points: seq<Point>)
    requires TreeCreate.HoldsFirst(tree, box, points, |points|)
    requires forall a :: 0 <= a < 3 ==> Width(box, a) > 0.0
    ensures Walk(Departing, Verifier(AsWritten), Initial(|points|), tree).1
    ensures Verdict(Walk(Departing, Verifier(AsWritten), Initial(|points|), tree).0) == Ok(true)
  {
    PositiveResolvable(tree, points);
    VerifierAccepts(tree, box, points, AsWritten);
  }

  // ---------------------------------------------------------------------
  // Conversely, what the verifier accepts holds every particle once.

  /** The first child's particles were marked, so none of them occurs again in the rest. */
  lemma OnceJoin(verified: seq<bool>, verified': seq<bool>, cs: seq<Tree>)
    requires cs != [] && Once(cs[0]) && OnceAll(cs[1..])
    requires Unmarked(verified, cs[0]) && Marked(verified, verified', cs[0]) && UnmarkedAll(verified', cs[1..])
    ensures OnceAll(cs)
  {
    forall i: nat
      ensures OccurrencesAll(cs, i) <= 1
    {
      assert OccurrencesAll(cs, i) == Occurrences(cs[0], i) + OccurrencesAll(cs[1..], i);
      if Occurrences(cs[0], i) > 0 {
        assert verified'[i];
      }
    }
  }

  lemma UnmarkedJoin(verified: seq<bool>, verified': seq<bool>, cs: seq<Tree>)
    requires cs != [] && Unmarked(verified, cs[0]) && Marked(verified, verified', cs[0]) && UnmarkedAll(verified', cs[1..])
    ensures UnmarkedAll(verified, cs)
  {
    forall i: nat | OccurrencesAll(cs, i) > 0
      ensures i < |verified| && !verified[i]
    {
      assert OccurrencesAll(cs, i) == Occurrences(cs[0], i) + OccurrencesAll(cs[1..], i);
    }
  }

  /**
   * A walk that ends without a failure began without one, went on to the
   * end, met every particle of the subtree once and unmarked, and marked
   * exactly those.
   */
  lemma {:induction false} WalkClean(t: Tree, st: State, ix: Indexing)
    requires Walk(Departing, Verifier(ix), st, t).0.failure.None?
    ensures st.failure.None? && Walk(Departing, Verifier(ix), st, t).1
    ensures Once(t) && Unmarked(st.verified, t)
    ensures Marked(st.verified, Walk(Departing, Verifier(ix), st, t).0.verified, t)
    decreases t, 1
  {
    assert Verifier(ix).visit(st, t) == VisitStep(st, t);
    match t
    case Unused(_) =>
    case External(_, index) =>
    case Internal(b, cs) =>
      var st1 := st.(stack := st.stack + [FRESH]);
      assert Verifier(ix).visit(st, t) == (st1, Continue);
      var (st2, go) := Children(Departing, Verifier(ix), st1, t, 0);
      assert Verifier(ix).depart(st2, t) == DepartStep(st2, t);
      ChildrenClean(t, st1, 0, ix);
      assert cs[0..] == cs;
      forall j: nat
        ensures Occurrences(t, j) <= 1
        ensures Occurrences(t, j) > 0 ==> j < |st.verified| && !st.verified[j]
      {
        assert Occurrences(t, j) == OccurrencesAll(cs, j);
      }
  }

  /** The loop over the children from `i` on, ending without a failure. */
  lemma {:induction false} ChildrenClean(t: Tree, st: State, i: nat, ix: Indexing)
    requires t.Internal? && i <= |t.children|
    requires Children(Departing, Verifier(ix), st, t, i).0.failure.None?
    ensures st.failure.None? && Children(Departing, Verifier(ix), st, t, i).1
    ensures OnceAll(t.children[i..]) && UnmarkedAll(st.verified, t.children[i..])
    ensures MarkedAll(st.verified, Children(Departing, Verifier(ix), st, t, i).0.verified, t.children[i..])
    decreases t, 0, |t.children| - i
  {
    var cs := t.children;
    if i == |cs| {
      assert cs[i..] == [];
    } else {
      var ds := cs[i..];
      assert ds[0] == cs[i] && ds[1..] == cs[i + 1..];
      var (s1, go) := Walk(Departing, Verifier(ix), st, cs[i]);
      var s2 := Verifier(ix).farewell(s1, t, cs[i]);
      assert s2 == AccumulateStep(s1, t, cs[i], ix);
      assert s1.failure.None? by {
        if !go {
          assert Children(Departing, Verifier(ix), st, t, i).0 == s2;
        } else {
          ChildrenClean(t, s2, i + 1, ix);
        }
      }
      WalkClean(cs[i], st, ix);
      ChildrenClean(t, s2, i + 1, ix);
      OnceJoin(st.verified, s2.verified, ds);
      UnmarkedJoin(st.verified, s2.verified, ds);
      MarkedJoin(st.verified, s2.verified, Children(Departing, Verifier(ix), s2, t, i + 1).0.verified, ds);
    }
  }

  /**
   * `has_been_verified()` holds only for a tree whose External nodes hold
   * each of the `n` particles exactly once and no other index: with
   * `VerifierAccepts`, the verifier accepts exactly such trees.
   */
  lemma VerifierSound(tree: Tree, n: nat, ix: Indexing)
    requires Verdict(Walk(Departing, Verifier(ix), Initial(n), tree).0) == Ok(true)
    ensures forall i: nat :: Occurrences(tree, i) == if i < n then 1 else 0
  {
    var st := Walk(Departing, Verifier(ix), Initial(n), tree).0;
    WalkClean(tree, Initial(n), ix);
    forall i: nat
      ensures Occurrences(tree, i) == if i < n then 1 else 0
    {
      if i < n {
        assert st.verified[i];
      }
    }
  }

  // ---------------------------------------------------------------------
  // The class itself: the same steps on its fields.

  class TreeVerifier {
    var verified: seq<bool>
    var stack: seq<seq<bool>>
    var failure: Option<Error>

    function Get(): State
      reads this
    {
      State(verified, stack, failure)
    }

    /** `TreeVerifier(n)`: one `false` pushed for each particle. */
    constructor (n: nat)
      ensures Get() == Initial(n)
    {
      var flags: seq<bool> := [];
      for i := 0 to n
        invariant flags == seq(i, _ => false)
      {
        flags := flags + [false];
      }
      verified := flags;
      stack := [];
      failure := None;
    }

    /** `visit`, dispatching to `visit_internal` and `visit_external`. */
    method Visit(t: Tree) returns (status: Status)
      modifies this
      ensures (Get(), status) == VisitStep(old(Get()), t)
    {
      if failure.Some? {
        return Stop;
      }
      match t
      case Internal(_, _) =>
        var block: seq<bool> := [];
        for i := 0 to 2
          invariant block == seq(4 * i, _ => false)
        {
          for j := 0 to 2
            invariant block == seq(4 * i + 2 * j, _ => false)
          {
            for k := 0 to 2
              invariant block == seq(4 * i + 2 * j + k, _ => false)
            {
              block := block + [false];
            }
          }
        }
        assert block == FRESH;
        stack := stack + [block];
        status := Continue;
      case External(_, index) =>
        if index >= |verified| {
          failure := Some(Undefined);
          return Stop;
        }
        if verified[index] {
          failure := Some(AssertionFailed);
          return Stop;
        }
        verified := verified[index := true];
        status := Continue;
      case Unused(_) =>
        status := Continue;
    }

    /** `accumulate(node, child)`, with `_get_index` as written. */
    method Accumulate(node: Tree, child: Tree)
      modifies this
      ensures Get() == AccumulateStep(old(Get()), node, child, AsWritten)
    {
      if failure.Some? {
        return;
      }
      var i := GetIndexAsWritten(node.box, child.box, 0);
      var j := GetIndexAsWritten(node.box, child.box, 1);
      var k := GetIndexAsWritten(node.box, child.box, 2);
      if i.Err? || j.Err? || k.Err? {
        failure := Some(LogicError);
        return;
      }
      var o := 4 * i.value + 2 * j.value + k.value;
      if stack == [] || o >= |stack[|stack| - 1]| {
        failure := Some(Undefined);
        return;
      }
      var top := stack[|stack| - 1];
      if top[o] {
        failure := Some(AssertionFailed);
        return;
      }
      stack := stack[..|stack| - 1] + [top[o := true]];
    }

    /** `depart(node)`: the loops over `i`, `j`, `k` assert each octant, then the block is popped. */
    method Depart(node: Tree) returns (go: bool)
      modifies this
      ensures (Get(), go) == DepartStep(old(Get()), node)
    {
      if failure.Some? {
        return false;
      }
      if stack == [] {
        failure := Some(Undefined);
        return false;
      }
      var top := stack[|stack| - 1];
      for i := 0 to 2
        invariant stack == old(stack) && failure == old(failure)
        invariant MarkedBelow(top, 4 * i)
      {
        for j := 0 to 2
          invariant stack == old(stack) && failure == old(failure)
          invariant MarkedBelow(top, 4 * i + 2 * j)
        {
          for k := 0 to 2
            invariant stack == old(stack) && failure == old(failure)
            invariant MarkedBelow(top, 4 * i + 2 * j + k)
          {
            if 4 * i + 2 * j + k >= |top| || !top[4 * i + 2 * j + k] {
              Incomplete(top, 4 * i + 2 * j + k);
              failure := Some(AssertionFailed);
              return false;
            }
          }
        }
      }
      stack := stack[..|stack| - 1];
      go := true;
    }

    /** `has_been_verified()`. */
    method HasBeenVerified() returns (r: Result<bool>)
      ensures r == Verdict(Get())
    {
      if failure.Some? {
        return Err(failure.value);
      }
      for i := 0 to |verified|
        invariant forall k :: 0 <= k < i ==> verified[k]
      {
        if !verified[i] {
          return Ok(false);
        }
      }
      if stack != [] {
        return Err(AssertionFailed);
      }
      r := Ok(true);
    }
  }
}
