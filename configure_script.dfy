/**
 * The Python configuration script: `Body.encode`, `create_with_offset`,
 * the factory lookup, `save_configuration` and `generate_pairs`.  A Python
 * body's position and velocity are lists of any length.
 */
module ConfigureScript {
  import opened Wrappers
  import opened Strings
  import opened Codec
  import opened Bodies
  import opened Pairs

  /** A Python `Body`; coordinates are 64-bit patterns when encoded and reals when added. */
  datatype PyBody<T> = PyBody(position: seq<T>, mass: T, velocity: seq<T>)

  /** `self.position + [self.mass] + self.velocity`. */
  function FieldList<T>(b: PyBody<T>): (f: seq<T>)
    ensures |f| == |b.position| + 1 + |b.velocity|
    ensures f[..|b.position|] == b.position && f[|b.position|] == b.mass && f[|b.position| + 1..] == b.velocity
  {
    b.position + [b.mass] + b.velocity
  }

  /** The Python body holding the same fields as a C++ body. */
  function FromBody(b: Body): PyBody<Bits64> {
    PyBody([b.position.x, b.position.y, b.position.z], b.mass, [b.velocity.x, b.velocity.y, b.velocity.z])
  }

  /** A three-dimensional body lists its fields in the file order x, y, z, mass, vx, vy, vz. */
  lemma FromBodyFields(b: Body)
    ensures FieldList(FromBody(b)) == ToFields(b)
  {
  }

  /** `Body.encode`: every field through the signed `encode`, joined by commas. */
  function EncodeBody(b: PyBody<Bits64>): string {
    JoinWith(PyEncodeAll(FieldList(b)), ',')
  }

  /** The signed decimal of a pattern holds no delimiter of any reader and no newline. */
  lemma PyEncodeFree(v: Bits64)
    ensures Free(PyEncode(v), "=,\n")
  {
    Numerals.SignedDecimalChars(ToSigned(v));
    var s := PyEncode(v);
    forall k | 0 <= k < |s| ensures s[k] !in "=,\n" {
      assert s[k] == '-' || Numerals.IsDigitIn(s[k], 10);
    }
  }

  /**
   * An encoded body splits back, on `,` (or on `=` and `,`), into one
   * token per field, and the tokens decode to the fields: for a
   * three-dimensional body, exactly seven of them.
   */
  lemma EncodeBodyFields(b: PyBody<Bits64>, delims: string)
    requires ',' in delims && delims <= "=,"
    ensures Fields(EncodeBody(b), delims) == PyEncodeAll(FieldList(b))
    ensures DecodeFields(Fields(EncodeBody(b), delims)) == Ok(FieldList(b))
  {
    var fs := FieldList(b);
    var ts := PyEncodeAll(fs);
    forall k | 0 <= k < |ts| ensures Free(ts[k], delims) {
      PyEncodeFree(fs[k]);
    }
    FieldsJoinWith(ts, ',', delims);
    DecodeEncodedFields(fs);
  }

  /** An encoded body line holds no newline and does not start with `End`. */
  lemma EncodeBodyShape(b: PyBody<Bits64>)
    ensures IsLine(EncodeBody(b)) && '=' !in EncodeBody(b) && !StartsWith(EncodeBody(b), "End")
  {
    var fs := FieldList(b);
    var ts := PyEncodeAll(fs);
    forall k | 0 <= k < |ts| ensures Free(ts[k], "\n") && Free(ts[k], "=") {
      PyEncodeFree(fs[k]);
    }
    JoinFree(ts, ',', "\n");
    JoinFree(ts, ',', "=");
    var line := EncodeBody(b);
    assert forall k :: 0 <= k < |line| ==> line[k] != '=';
    PyEncodeFree(fs[0]);
    Numerals.SignedDecimalChars(ToSigned(fs[0]));
    assert line[0] == ts[0][0];
  }

  /** `[sum(u) for u in zip(a, b)]`: elementwise sums, as long as the shorter list. */
  function ZipSum(a: seq<real>, b: seq<real>): (r: seq<real>)
    ensures |r| == if |a| <= |b| then |a| else |b|
    ensures forall k :: 0 <= k < |r| ==> r[k] == a[k] + b[k]
  {
    if a == [] || b == [] then [] else [a[0] + b[0]] + ZipSum(a[1..], b[1..])
  }

  /** `create_with_offset`: a new body, shifted in position and velocity, with the same mass. */
  function CreateWithOffset(b: PyBody<real>, offset: seq<real>, vel: seq<real>): (r: PyBody<real>)
    ensures r.mass == b.mass
    ensures r.position == ZipSum(b.position, offset) && r.velocity == ZipSum(b.velocity, vel)
  {
    PyBody(ZipSum(b.position, offset), b.mass, ZipSum(b.velocity, vel))
  }

  function Negated(v: seq<real>): (r: seq<real>)
    ensures |r| == |v| && forall k :: 0 <= k < |v| ==> r[k] == -v[k]
  {
    seq(|v|, k requires 0 <= k < |v| => -v[k])
  }

  lemma ZipSumAssoc(a: seq<real>, b: seq<real>, c: seq<real>)
    ensures ZipSum(ZipSum(a, b), c) == ZipSum(a, ZipSum(b, c))
  {
    var l, r := ZipSum(ZipSum(a, b), c), ZipSum(a, ZipSum(b, c));
    assert |l| == |r|;
    forall k | 0 <= k < |l| ensures l[k] == r[k] {
      assert l[k] == a[k] + b[k] + c[k];
    }
  }

  /** Two shifts add up to one, by the summed offsets. */
  lemma OffsetsCompose(b: PyBody<real>, o1: seq<real>, v1: seq<real>, o2: seq<real>, v2: seq<real>)
    ensures CreateWithOffset(CreateWithOffset(b, o1, v1), o2, v2) ==
      CreateWithOffset(b, ZipSum(o1, o2), ZipSum(v1, v2))
  {
    ZipSumAssoc(b.position, o1, o2);
    ZipSumAssoc(b.velocity, v1, v2);
  }

  /** Shifting back by the negated offsets restores a body whose lists the offsets cover. */
  lemma OffsetUndone(b: PyBody<real>, offset: seq<real>, vel: seq<real>)
    requires |offset| == |b.position| && |vel| == |b.velocity|
    ensures CreateWithOffset(CreateWithOffset(b, offset, vel), Negated(offset), Negated(vel)) == b
  {
    var r := CreateWithOffset(CreateWithOffset(b, offset, vel), Negated(offset), Negated(vel));
    assert r.position == b.position;
    assert r.velocity == b.velocity;
  }

  /** The only model the factory knows. */
  datatype ConfigFactory = Plummer

  /** `create_config_factory`: `'plummer'` gives a Plummer factory, any other name `RuntimeError`. */
  function CreateConfigFactory(model: string): (r: Result<ConfigFactory>)
    ensures r.Ok? <==> model == "plummer"
    ensures r.Err? ==> r.error == RuntimeError
  {
    var factories := map["plummer" := Plummer];
    if model in factories then Ok(factories[model]) else Err(RuntimeError)
  }

  /** `str(1.1)`, the default `config_version`. */
  const DEFAULT_VERSION: string := "1.1"

  /** One `Body.encode` line per body. */
  function EncodeLines(bodies: seq<PyBody<Bits64>>): (ls: seq<string>)
    ensures |ls| == |bodies|
    ensures forall k :: 0 <= k < |bodies| ==> ls[k] == EncodeBody(bodies[k])
  {
    if bodies == [] then [] else EncodeLines(bodies[..|bodies| - 1]) + [EncodeBody(bodies[|bodies| - 1])]
  }

  lemma EncodeLinesSnoc(bodies: seq<PyBody<Bits64>>, i: nat)
    requires i < |bodies|
    ensures EncodeLines(bodies[..i + 1]) == EncodeLines(bodies[..i]) + [EncodeBody(bodies[i])]
  {
    assert bodies[..i + 1][..i] == bodies[..i];
  }

  /** The lines `save_configuration` writes: `Version=`, the bodies, `End`. */
  function ConfigurationLines(version: string, bodies: seq<PyBody<Bits64>>): (ls: seq<string>)
    ensures |ls| == |bodies| + 2
  {
    ["Version=" + version] + EncodeLines(bodies) + ["End"]
  }

  /**
   * `save_configuration`: the file opened for writing gets the version
   * line, one line per body, and `End`, each ended by a newline; any
   * earlier content of the file is lost.
   */
  method SaveConfiguration(files: map<string, string>, output: string, bodies: seq<PyBody<Bits64>>, version: string)
    returns (files': map<string, string>)
    ensures output in files' && files'[output] == Unlines(ConfigurationLines(version, bodies))
    ensures forall f :: f in files && f != output ==> f in files' && files'[f] == files[f]
    ensures forall f :: f in files' ==> f in files || f == output
  {
    var head := ["Version=" + version];
    var text := "Version=" + version + "\n";
    assert Unlines(head + EncodeLines(bodies[..0])) == text by {
      assert head + EncodeLines(bodies[..0]) == head;
      assert Unlines(head) == head[0] + "\n" + Unlines([]);
    }
    for i := 0 to |bodies|
      invariant text == Unlines(head + EncodeLines(bodies[..i]))
    {
      EncodeLinesSnoc(bodies, i);
      AppendAssoc(head, EncodeLines(bodies[..i]), [EncodeBody(bodies[i])]);
      UnlinesSnoc(head + EncodeLines(bodies[..i]), EncodeBody(bodies[i]));
      text := text + EncodeBody(bodies[i]) + "\n";
    }
    assert bodies[..|bodies|] == bodies;
    UnlinesSnoc(head + EncodeLines(bodies), "End");
    text := text + "End\n";
    files' := files[output := text];
  }

  /** Every index pair points into a list of length `n`. */
  predicate Within(ps: seq<(nat, nat)>, n: nat) {
    forall k :: 0 <= k < |ps| ==> ps[k].0 < n && ps[k].1 < n
  }

  /** The items at the index pairs, in order. */
  function Pick<T>(items: seq<T>, ps: seq<(nat, nat)>): (r: seq<(T, T)>)
    requires Within(ps, |items|)
    ensures |r| == |ps|
    ensures forall k :: 0 <= k < |ps| ==> r[k] == (items[ps[k].0], items[ps[k].1])
  {
    if ps == [] then []
    else Pick(items, ps[..|ps| - 1]) + [(items[ps[|ps| - 1].0], items[ps[|ps| - 1].1])]
  }

  /**
   * `generate_pairs`: `for i in range(len(bodies)): for j in range(i):
   * yield (bodies[i], bodies[j])`, as the list of what it yields.
   */
  method GeneratePairs<T>(bodies: seq<T>) returns (pairs: seq<(T, T)>)
    ensures pairs == Pick(bodies, Lower(|bodies|))
  {
    pairs := [];
    LowerWithin(0, |bodies|);
    for i := 0 to |bodies|
      invariant Within(Lower(i), |bodies|)
      invariant pairs == Pick(bodies, Lower(i))
    {
      pairs := PairRow(bodies, i, pairs);
      LowerWithin(i + 1, |bodies|);
    }
  }

  /** The first `i` rows point into any list longer than `i - 1`. */
  lemma LowerWithin(i: nat, n: nat)
    requires i <= n
    ensures Within(Lower(i), n)
  {
  }

  /** The inner loop `for j in range(i)`: row `i` appended after the rows before it. */
  method PairRow<T>(bodies: seq<T>, i: nat, pairs: seq<(T, T)>) returns (pairs': seq<(T, T)>)
    requires i < |bodies| && Within(Lower(i), |bodies|)
    requires pairs == Pick(bodies, Lower(i))
    ensures pairs' == Pick(bodies, Lower(i + 1))
  {
    pairs' := pairs;
    assert Lower(i) + LowerRow(i)[..0] == Lower(i);
    for j := 0 to i
      invariant Within(Lower(i) + LowerRow(i)[..j], |bodies|)
      invariant pairs' == Pick(bodies, Lower(i) + LowerRow(i)[..j])
    {
      RowStep(i, j);
      PickSnoc(bodies, Lower(i) + LowerRow(i)[..j], (i, j));
      pairs' := pairs' + [(bodies[i], bodies[j])];
    }
    assert LowerRow(i)[..i] == LowerRow(i);
  }

  /** Row `i` of the Python order grows one column at a time. */
  lemma RowStep(i: nat, j: nat)
    requires j < i
    ensures Lower(i) + LowerRow(i)[..j + 1] == (Lower(i) + LowerRow(i)[..j]) + [(i, j)]
  {
    assert LowerRow(i)[..j + 1] == LowerRow(i)[..j] + [(i, j)];
  }

  lemma PickSnoc<T>(items: seq<T>, ps: seq<(nat, nat)>, p: (nat, nat))
    requires Within(ps, |items|) && p.0 < |items| && p.1 < |items|
    ensures Within(ps + [p], |items|)
    ensures Pick(items, ps + [p]) == Pick(items, ps) + [(items[p.0], items[p.1])]
  {
    assert (ps + [p])[..|ps|] == ps;
  }

  /**
   * The Python generator yields `(bodies[i], bodies[j])` for exactly the
   * index pairs `j < i`, each once, by `i` then `j`: n(n-1)/2 pairs.
   */
  lemma GeneratedPairs<T>(bodies: seq<T>)
    ensures |Pick(bodies, Lower(|bodies|))| * 2 == |bodies| * (|bodies| - 1)
    ensures forall i: nat, j: nat :: (i, j) in Lower(|bodies|) <==> j < i < |bodies|
    ensures forall k :: 0 <= k < |Lower(|bodies|)| ==>
      Pick(bodies, Lower(|bodies|))[k] == (bodies[Lower(|bodies|)[k].0], bodies[Lower(|bodies|)[k].1])
    ensures Increasing(Lower(|bodies|))
  {
    LowerPairs(|bodies|);
  }
}
