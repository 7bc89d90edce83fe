/**
 * The passive particle records the configuration files carry.  Every file
 * format stores seven doubles per body in the order x, y, z, mass, vx, vy, vz;
 * each double is held as its 64-bit pattern.
 */
module Bodies {
  import opened Wrappers
  import opened Codec

  datatype Vec3 = Vec3(x: Bits64, y: Bits64, z: Bits64)

  /** One body: position, mass and velocity. */
  datatype Body = Body(position: Vec3, mass: Bits64, velocity: Vec3)

  /** The seven fields of a body in file order: x, y, z, mass, vx, vy, vz. */
  function ToFields(b: Body): (f: seq<Bits64>)
    ensures |f| == 7
    ensures f[..3] == [b.position.x, b.position.y, b.position.z]
    ensures f[3] == b.mass
    ensures f[4..] == [b.velocity.x, b.velocity.y, b.velocity.z]
  {
    [b.position.x, b.position.y, b.position.z, b.mass, b.velocity.x, b.velocity.y, b.velocity.z]
  }

  /** Fields 0-2 are the position, 3 the mass and 4-6 the velocity. */
  function OfFields(f: seq<Bits64>): (b: Body)
    requires |f| >= 7
    ensures ToFields(b) == f[..7]
  {
    Body(Vec3(f[0], f[1], f[2]), f[3], Vec3(f[4], f[5], f[6]))
  }

  /** Reading the fields of a body back gives the same body. */
  lemma OfToFields(b: Body)
    ensures OfFields(ToFields(b)) == b
  {
  }

  /** The fields of all bodies, one block of seven after another. */
  function Flatten(bodies: seq<Body>): (f: seq<Bits64>)
    ensures |f| == 7 * |bodies|
  {
    if bodies == [] then [] else ToFields(bodies[0]) + Flatten(bodies[1..])
  }

  /** Block `k` of the flattened fields holds body `k`. */
  lemma {:induction false} FlattenBlock(bodies: seq<Body>, k: nat)
    requires k < |bodies|
    ensures Flatten(bodies)[7 * k..7 * k + 7] == ToFields(bodies[k])
  {
    if k > 0 {
      FlattenBlock(bodies[1..], k - 1);
      assert Flatten(bodies)[7 * k..7 * k + 7] == Flatten(bodies[1..])[7 * (k - 1)..7 * (k - 1) + 7];
    }
  }

  /**
   * `decode` applied to each token in turn; the first token that `stoull`
   * refuses decides the error.
   */
  function DecodeFields(tokens: seq<string>): (r: Result<seq<Bits64>>)
    ensures r.Ok? ==> |r.value| == |tokens|
  {
    if tokens == [] then Ok([])
    else
      var front :- DecodeFields(tokens[..|tokens| - 1]);
      var last :- Decode(tokens[|tokens| - 1]);
      Ok(front + [last])
  }

  /**
   * The loop `for (i = 0; i < 7; i++) value = decode(tokens[i]) …` of the
   * C++ readers: the seven fields in file order, with an access past the
   * last token when there are fewer than seven.
   */
  function DecodeBody(tokens: seq<string>): (r: Result<Body>)
    ensures r.Ok? ==> |tokens| >= 7
  {
    var f :- DecodeFields(if |tokens| < 7 then tokens else tokens[..7]);
    if |tokens| < 7 then Err(Undefined) else Ok(OfFields(f))
  }

  /** The C++ decoding loop, proved to compute `DecodeBody`. */
  method DecodeRecord(tokens: seq<string>) returns (r: Result<Body>)
    ensures r == DecodeBody(tokens)
  {
    var fields: seq<Bits64> := [];
    for i := 0 to 7
      invariant i <= |tokens|
      invariant DecodeFields(tokens[..i]) == Ok(fields)
    {
      if i >= |tokens| {
        assert tokens[..i] == tokens;
        return Err(Undefined);
      }
      var value := Decode(tokens[i]);
      assert tokens[..i + 1][..i] == tokens[..i];
      if value.Err? {
        DecodeFieldsFails(tokens, i, if |tokens| < 7 then |tokens| else 7);
        assert tokens[..|tokens|] == tokens;
        return Err(value.error);
      }
      fields := fields + [value.value];
    }
    assert |tokens| >= 7 && tokens[..7] == tokens[..7];
    return Ok(OfFields(fields));
  }

  /** A prefix that decodes, extended by a token that decodes, decodes to one more value. */
  lemma DecodeFieldsSnoc(tokens: seq<string>, i: nat, fields: seq<Bits64>)
    requires i < |tokens| && DecodeFields(tokens[..i]) == Ok(fields) && Decode(tokens[i]).Ok?
    ensures DecodeFields(tokens[..i + 1]) == Ok(fields + [Decode(tokens[i]).value])
  {
    assert tokens[..i + 1][..i] == tokens[..i];
  }

  /** Once a token fails to decode, every longer prefix fails with its error. */
  lemma {:induction false} DecodeFieldsFails(tokens: seq<string>, i: nat, j: nat)
    requires i < j <= |tokens|
    requires DecodeFields(tokens[..i]).Ok? && Decode(tokens[i]).Err?
    ensures DecodeFields(tokens[..j]) == Err(Decode(tokens[i]).error)
  {
    assert tokens[..j][..j - 1] == tokens[..j - 1];
    if j > i + 1 {
      DecodeFieldsFails(tokens, i, j - 1);
    } else {
      assert tokens[..j][j - 1] == tokens[i];
    }
  }

  /** The C++ `encode` of each value. */
  function EncodeAll(fs: seq<Bits64>): (ts: seq<string>)
    ensures |ts| == |fs| && forall k :: 0 <= k < |fs| ==> ts[k] == Encode(fs[k])
  {
    seq(|fs|, k requires 0 <= k < |fs| => Encode(fs[k]))
  }

  /** The Python `encode` of each value. */
  function PyEncodeAll(fs: seq<Bits64>): (ts: seq<string>)
    ensures |ts| == |fs| && forall k :: 0 <= k < |fs| ==> ts[k] == PyEncode(fs[k])
  {
    seq(|fs|, k requires 0 <= k < |fs| => PyEncode(fs[k]))
  }

  /** Decoding tokens that each decode to the matching value gives all the values. */
  lemma {:induction false} DecodeFieldsExact(tokens: seq<string>, fs: seq<Bits64>)
    requires |tokens| == |fs|
    requires forall k :: 0 <= k < |fs| ==> Decode(tokens[k]) == Ok(fs[k])
    ensures DecodeFields(tokens) == Ok(fs)
  {
    if tokens != [] {
      var n := |tokens| - 1;
      DecodeFieldsExact(tokens[..n], fs[..n]);
      assert fs == fs[..n] + [fs[n]];
    }
  }

  /** The C++ decoder reads back what either writer encoded. */
  lemma DecodeEncodedFields(fs: seq<Bits64>)
    ensures DecodeFields(EncodeAll(fs)) == Ok(fs)
    ensures DecodeFields(PyEncodeAll(fs)) == Ok(fs)
  {
    forall k | 0 <= k < |fs| ensures Decode(EncodeAll(fs)[k]) == Ok(fs[k]) && Decode(PyEncodeAll(fs)[k]) == Ok(fs[k]) {
      DecodeEncode(fs[k]);
      DecodePyEncode(fs[k]);
    }
    DecodeFieldsExact(EncodeAll(fs), fs);
    DecodeFieldsExact(PyEncodeAll(fs), fs);
  }
}
