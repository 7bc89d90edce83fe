/**
 * The two orders in which the code enumerates the unordered pairs of `n`
 * items: the C++ `for i, for j > i` loops, and the Python `for i, for j < i`
 * generator.  Both list every pair exactly once, in increasing order.
 */
module Pairs {

  /** `(a, b)` comes before `(c, d)` when `a < c`, or `a == c` and `b < d`. */
  predicate Before(p: (nat, nat), q: (nat, nat)) {
    p.0 < q.0 || (p.0 == q.0 && p.1 < q.1)
  }

  /** A sequence whose elements increase strictly, so none occurs twice. */
  predicate Increasing(ps: seq<(nat, nat)>) {
    forall a, b :: 0 <= a < b < |ps| ==> Before(ps[a], ps[b])
  }

  /** `(i, j)` for `j` from `from` to `n - 1`. */
  function RowFrom(i: nat, from: nat, n: nat): (r: seq<(nat, nat)>)
    ensures |r| == if from < n then n - from else 0
    ensures forall k :: 0 <= k < |r| ==> r[k] == (i, from + k)
    decreases n - from
  {
    if from >= n then [] else [(i, from)] + RowFrom(i, from + 1, n)
  }

  /** `(i, j)` for `j` from `i + 1` to `n - 1`. */
  function UpperRow(i: nat, n: nat): (r: seq<(nat, nat)>)
    ensures |r| == if i < n then n - i - 1 else 0
    ensures forall k :: 0 <= k < |r| ==> r[k] == (i, i + 1 + k)
  {
    RowFrom(i, i + 1, n)
  }

  /** `for (i = from; i < n; i++) for (j = i + 1; j < n; j++)`. */
  function UpperFrom(from: nat, n: nat): seq<(nat, nat)>
    decreases n - from
  {
    if from >= n then [] else UpperRow(from, n) + UpperFrom(from + 1, n)
  }

  /** The pairs `i < j < n`, by `i` then `j`. */
  function Upper(n: nat): seq<(nat, nat)> { UpperFrom(0, n) }

  /** `(i, j)` for `j` from 0 to `i - 1`. */
  function LowerRow(i: nat): (r: seq<(nat, nat)>)
    ensures |r| == i
    ensures forall k :: 0 <= k < i ==> r[k] == (i, k)
  {
    seq(i, k requires 0 <= k < i => (i, k))
  }

  /** `for i in range(n): for j in range(i)`: the pairs `j < i < n`, by `i` then `j`. */
  function Lower(n: nat): (r: seq<(nat, nat)>)
    ensures forall k :: 0 <= k < |r| ==> r[k].1 < r[k].0 < n
  {
    if n == 0 then [] else Lower(n - 1) + LowerRow(n - 1)
  }

  /** Every pair of the C++ order satisfies `from <= i < j < n`, and every such pair occurs. */
  lemma {:induction false} UpperFromMembers(from: nat, n: nat)
    ensures forall p: (nat, nat) :: p in UpperFrom(from, n) <==> from <= p.0 < p.1 < n
    decreases n - from
  {
    if from < n {
      UpperFromMembers(from + 1, n);
      forall p: (nat, nat) | from <= p.0 < p.1 < n && p.0 == from ensures p in UpperRow(from, n) {
        assert UpperRow(from, n)[p.1 - from - 1] == p;
      }
    }
  }

  lemma {:induction false} UpperFromIncreasing(from: nat, n: nat)
    ensures Increasing(UpperFrom(from, n))
    decreases n - from
  {
    if from < n {
      UpperFromIncreasing(from + 1, n);
      UpperFromMembers(from + 1, n);
      var row, rest := UpperRow(from, n), UpperFrom(from + 1, n);
      forall a, b | 0 <= a < b < |row + rest| ensures Before((row + rest)[a], (row + rest)[b]) {
        if b < |row| {
        } else if a < |row| {
          assert rest[b - |row|] in rest;
        } else {
          assert (row + rest)[a] == rest[a - |row|] && (row + rest)[b] == rest[b - |row|];
        }
      }
    }
  }

  lemma {:induction false} UpperFromLength(from: nat, n: nat)
    requires from <= n
    ensures 2 * |UpperFrom(from, n)| == (n - from) * (n - from - 1)
    decreases n - from
  {
    if from < n {
      UpperFromLength(from + 1, n);
    }
  }

  /**
   * The C++ loops visit each unordered pair exactly once: the pairs are
   * exactly those with `i < j < n`, they strictly increase, and there are
   * n(n-1)/2 of them.
   */
  lemma UpperPairs(n: nat)
    ensures forall p: (nat, nat) :: p in Upper(n) <==> p.0 < p.1 < n
    ensures Increasing(Upper(n))
    ensures 2 * |Upper(n)| == n * (n - 1)
  {
    UpperFromMembers(0, n);
    UpperFromIncreasing(0, n);
    UpperFromLength(0, n);
  }

  lemma {:induction false} LowerMembers(n: nat)
    ensures forall p: (nat, nat) :: p in Lower(n) <==> p.1 < p.0 < n
  {
    if n > 0 {
      LowerMembers(n - 1);
      forall p: (nat, nat) | p.1 < p.0 == n - 1 ensures p in LowerRow(n - 1) {
        assert LowerRow(n - 1)[p.1] == p;
      }
    }
  }

  lemma {:induction false} LowerIncreasing(n: nat)
    ensures Increasing(Lower(n))
  {
    if n > 0 {
      LowerIncreasing(n - 1);
      LowerMembers(n - 1);
      var front, row := Lower(n - 1), LowerRow(n - 1);
      forall a, b | 0 <= a < b < |front + row| ensures Before((front + row)[a], (front + row)[b]) {
        if b < |front| {
          assert (front + row)[a] == front[a] && (front + row)[b] == front[b];
        } else if a < |front| {
          assert front[a] in front;
        }
      }
    }
  }

  lemma {:induction false} LowerLength(n: nat)
    ensures 2 * |Lower(n)| == n * (n - 1)
  {
    if n > 0 {
      LowerLength(n - 1);
    }
  }

  /**
   * The Python generator yields each unordered pair exactly once: the pairs
   * are exactly those with `j < i < n`, they strictly increase by `i` then
   * `j`, and there are n(n-1)/2 of them.
   */
  lemma LowerPairs(n: nat)
    ensures forall p: (nat, nat) :: p in Lower(n) <==> p.1 < p.0 < n
    ensures Increasing(Lower(n))
    ensures 2 * |Lower(n)| == n * (n - 1)
  {
    LowerMembers(n);
    LowerIncreasing(n);
    LowerLength(n);
  }
}
