/**
 * The node allocations of the oct-tree: the constructor and `_split_node`
 * raise the static `Node::_count`, the destructor lowers it once for every
 * node of the subtree it deletes.
 */
module TreeNodes {
  import opened Octree

  /** The static `Node::_count`, read by `get_count`. */
  class Census {
    var count: int

    constructor ()
      ensures count == 0
    {
      count := 0;
    }

    /** `Node(xmin, xmax, ymin, ymax, zmin, zmax)`: a new Unused node over the box, counted. */
    method NewNode(b: Box) returns (t: Tree)
      modifies this
      ensures t == Unused(b)
      ensures count == old(count) + 1
    {
      t := Unused(b);
      count := count + 1;
    }

    /**
     * `_split_node`: the loops over `i`, `j`, `k` in `{0, 1}` allocate the
     * child `4i+2j+k` over the refined bounds of each axis, so the children
     * are the eight halved boxes and eight nodes are counted.
     */
    method SplitNode(b: Box) returns (children: seq<Tree>)
      modifies this
      ensures children == SplitChildren(b)
      ensures count == old(count) + N_CHILDREN
    {
      var child := new Tree[N_CHILDREN](_ => Unused(b));
      for i := 0 to 2
        invariant count == old(count) + 4 * i
        invariant Filled(child[..], b, 4 * i)
      {
        for j := 0 to 2
          invariant count == old(count) + 4 * i + 2 * j
          invariant Filled(child[..], b, 4 * i + 2 * j)
        {
          SplitRow(child, b, i, j);
        }
      }
      children := child[..];
    }

    /** The innermost loop of `_split_node`: the two children `4i+2j` and `4i+2j+1`. */
    method SplitRow(child: array<Tree>, b: Box, i: nat, j: nat)
      requires IsBit(i) && IsBit(j) && Filled(child[..], b, 4 * i + 2 * j)
      modifies this, child
      ensures Filled(child[..], b, 4 * i + 2 * j + 2)
      ensures count == old(count) + 2
    {
      for k := 0 to 2
        invariant count == old(count) + k
        invariant Filled(child[..], b, 4 * i + 2 * j + k)
      {
        var o := TripleToOctant(i, j, k);
        var node := NewNode(RefinedBox(b, i, j, k));
        ghost var before := child[..];
        FilledStep(before, b, i, j, k, node);
        child[o] := node;
        assert child[..] == before[o := node];
      }
    }

    /**
     * `~Node`: every child is deleted, then the node itself is uncounted;
     * the count drops by the number of nodes in the subtree.
     */
    method Destroy(t: Tree)
      modifies this
      ensures count == old(count) - Count(t)
      decreases t
    {
      if t.Internal? {
        var cs := t.children;
        for o := 0 to |cs|
          invariant count == old(count) - CountAll(cs[..o])
        {
          Destroy(cs[o]);
          CountAllSnoc(cs[..o], cs[o]);
          assert cs[..o + 1] == cs[..o] + [cs[o]];
        }
        assert cs[..|cs|] == cs;
      }
      count := count - 1;
    }
  }

  /** The first `n` of the eight slots hold their Unused children. */
  predicate Filled(child: seq<Tree>, b: Box, n: nat) {
    |child| == N_CHILDREN && n <= N_CHILDREN &&
    forall o :: 0 <= o < n ==> child[o] == Unused(ChildBox(b, o))
  }

  /**
   * The box `_split_node` allocates for indices `i`, `j`, `k`: the refined
   * bounds of each axis, lower half for 0 and upper half for 1.
   */
  function RefinedBox(b: Box, i: nat, j: nat, k: nat): Box {
    var (xmin, xmax) := RefinedBounds(i, b.xmin, b.xmax, Mean(b.xmin, b.xmax));
    var (ymin, ymax) := RefinedBounds(j, b.ymin, b.ymax, Mean(b.ymin, b.ymax));
    var (zmin, zmax) := RefinedBounds(k, b.zmin, b.zmax, Mean(b.zmin, b.zmax));
    Box(xmin, xmax, ymin, ymax, zmin, zmax)
  }

  /** Filling slot `4i+2j+k` with its child extends the filled prefix by one. */
  lemma FilledStep(child: seq<Tree>, b: Box, i: nat, j: nat, k: nat, c: Tree)
    requires IsBit(i) && IsBit(j) && IsBit(k)
    requires Filled(child, b, TripleToOctant(i, j, k)) && c == Unused(RefinedBox(b, i, j, k))
    ensures TripleToOctant(i, j, k) < N_CHILDREN
    ensures Filled(child[TripleToOctant(i, j, k) := c], b, TripleToOctant(i, j, k) + 1)
  {
    OctantBijection(i, j, k);
  }

  /** Counting the children one more at a time. */
  lemma {:induction false} CountAllSnoc(cs: seq<Tree>, c: Tree)
    ensures CountAll(cs + [c]) == CountAll(cs) + Count(c)
  {
    if cs == [] {
      assert [] + [c] == [c];
      assert [c][1..] == [];
    } else {
      assert (cs + [c])[1..] == cs[1..] + [c];
      CountAllSnoc(cs[1..], c);
    }
  }
}
