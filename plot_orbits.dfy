/**
 * `read_files.get_n` of the orbit plotter: how many of the `n` saved
 * configurations to sample, skipping a power of two between samples so that
 * at most `maxsamples` remain.  Its `get_file_name` is the one in `PyPaths`.
 */
module PlotOrbits {

  function Pow2(k: nat): (p: nat)
    ensures p >= 1
  {
    if k == 0 then 1 else 2 * Pow2(k - 1)
  }

  /** The loop condition: sampling is limited and `n // skip` still exceeds the limit. */
  predicate TooMany(n: nat, skip: nat, maxsamples: int)
    requires skip >= 1
  {
    maxsamples > 0 && n / skip > maxsamples
  }

  /**
   * `get_n(path_names, maxsamples)` for `n = len(path_names)`: `skip` is
   * the first power of two, counting up from 1, for which the loop stops,
   * and the count is `n // skip`.
   */
  method GetN(n: nat, maxsamples: int) returns (skip: nat, count: nat)
    ensures exists k: nat :: skip == Pow2(k) && forall j: nat :: j < k ==> TooMany(n, Pow2(j), maxsamples)
    ensures skip >= 1 && !TooMany(n, skip, maxsamples)
    ensures count == n / skip
    ensures maxsamples <= 0 ==> skip == 1 && count == n
    ensures maxsamples > 0 ==> count <= maxsamples
  {
    skip := 1;
    ghost var k: nat := 0;
    while maxsamples > 0 && n / skip > maxsamples
      invariant skip == Pow2(k) && forall j: nat :: j < k ==> TooMany(n, Pow2(j), maxsamples)
      decreases n / skip
    {
      HalvedQuotient(n, skip);
      skip := skip * 2;
      k := k + 1;
    }
    count := n / skip;
  }

  /** Doubling a divisor at least halves the quotient, so the loop ends. */
  lemma HalvedQuotient(n: nat, skip: nat)
    requires skip >= 1 && n / skip >= 2
    ensures n / (skip * 2) < n / skip
  {
    var q := n / skip;
    var q2 := n / (skip * 2);
    assert q2 * (skip * 2) <= n;
    assert n < (q + 1) * skip;
    assert (q2 * 2) * skip == q2 * (skip * 2);
    FactorLess(q2 * 2, q + 1, skip);
  }

  /** A common positive factor can be cancelled from a strict inequality. */
  lemma FactorLess(a: int, b: int, c: int)
    requires c > 0 && a * c < b * c
    ensures a < b
  {
  }

  /** Every sampled index `skip * t` for `t < n // skip` names an existing file. */
  lemma SampledIndicesExist(n: nat, skip: nat, t: nat)
    requires skip >= 1 && t < n / skip
    ensures skip * t < n
  {
    var q := n / skip;
    assert q * skip <= n;
    assert t + 1 <= q;
    assert skip * (t + 1) <= skip * q;
  }
}
