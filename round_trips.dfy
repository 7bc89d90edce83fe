/**
 * How the file formats of the generations meet: what the second- and
 * third-generation C++ readers make of the configuration files the Python
 * `configure.py` script and the first-generation `save_config` write.
 */
module RoundTrips {
  import opened Wrappers
  import opened Strings
  import opened Numerals
  import opened Codec
  import opened Bodies
  import CS = ConfigureScript
  import C1 = ConfigCsrc
  import C2 = ConfigCsrc2
  import C0 = Configs0

  /** `key=value` splits into the key and the value when neither holds a delimiter. */
  lemma KeyValueFields(key: string, value: string)
    requires Free(key, "=,") && Free(value, "=,")
    ensures Fields(key + "=" + value, "=,") == [key, value]
  {
    var ts := [key, value];
    assert ts[1..] == [value];
    assert JoinWith(ts, '=') == key + "=" + value;
    FieldsJoinWith(ts, '=', "=,");
  }

  /** A signed decimal holds no delimiter. */
  lemma SignedDecimalFree(v: int)
    ensures Free(SignedDecimal(v), "=,\n")
  {
    SignedDecimalChars(v);
    var s := SignedDecimal(v);
    forall k | 0 <= k < |s| ensures s[k] !in "=,\n" {
      assert s[k] == '-' || IsDigitIn(s[k], 10);
    }
  }

  /** The digits `encode` writes hold no delimiter. */
  lemma EncodeFreeDelims(b: Bits64)
    ensures Free(Encode(b), "=,\n")
  {
    var s := Encode(b);
    forall k | 0 <= k < |s| ensures s[k] !in "=,\n" {
      assert IsDigitIn(s[k], 10);
    }
  }

  /** A string made of signs and digits differs from a word starting with a letter. */
  lemma NotKey(s: string, key: string)
    requires forall k :: 0 <= k < |s| ==> s[k] == '-' || IsDigitIn(s[k], 10)
    requires |key| >= 1 && 'A' <= key[0] <= 'z'
    ensures s != key
  {
    assert !(key[0] == '-' || IsDigitIn(key[0], 10));
    if |s| >= 1 {
      assert s[0] != key[0];
    }
  }

  // ---------------------------------------------------------------------
  // Counting lines the way the second generation does.

  /** Lines carrying `=` that are not `End` lines add nothing to the count. */
  lemma {:induction false} TallyHeader(ls: seq<string>)
    requires forall k :: 0 <= k < |ls| ==> '=' in ls[k] && !StartsWith(ls[k], "End")
    ensures C1.Tally(ls) == 0
  {
    if ls != [] {
      TallyHeader(ls[..|ls| - 1]);
    }
  }

  /** Body lines after a header each count once. */
  lemma {:induction false} TallyBodies(h: seq<string>, bs: seq<string>)
    requires C1.Tally(h) == 0
    requires forall k :: 0 <= k < |bs| ==> '=' !in bs[k] && !StartsWith(bs[k], "End")
    ensures C1.Tally(h + bs) == |bs|
  {
    if bs != [] {
      var front := bs[..|bs| - 1];
      var last := bs[|bs| - 1];
      TallyBodies(h, front);
      assert C1.LineWeight(last) == 1;
      assert (h + bs)[..|h + bs| - 1] == h + front;
      assert (h + bs)[|h + bs| - 1] == last;
      assert C1.Tally(h + bs) == C1.Tally(h + front) + C1.LineWeight(last);
    } else {
      assert h + bs == h;
    }
  }

  /** A header, counted body lines and a final `End`: the count is the number of body lines. */
  lemma TallyFile(h: seq<string>, bs: seq<string>)
    requires forall k :: 0 <= k < |h| ==> '=' in h[k] && !StartsWith(h[k], "End")
    requires forall k :: 0 <= k < |bs| ==> '=' !in bs[k] && !StartsWith(bs[k], "End")
    ensures C1.LineCount(h + bs + ["End"]) == Ok(|bs| + 6)
  {
    TallyHeader(h);
    TallyBodies(h, bs);
    var ls := h + bs + ["End"];
    assert ls[..|ls| - 1] == h + bs;
    assert StartsWith("End", "End");
  }

  // ---------------------------------------------------------------------
  // configure.py's output read by the second-generation reader.

  /** The Python bodies hold the fields of the C++ bodies. */
  predicate Holds(pbs: seq<CS.PyBody<Bits64>>, bodies: seq<Body>) {
    |pbs| == |bodies| && forall k :: 0 <= k < |bodies| ==> pbs[k] == CS.FromBody(bodies[k])
  }

  /** The slots after the first `j` bodies: particle `k` with id `k`. */
  function Slots(bodies: seq<Body>, j: nat): (s: seq<Option<C1.Particle>>)
    ensures |s| == |bodies|
  {
    seq(|bodies|, k requires 0 <= k < |bodies| => if k < j then Some(C1.Particle(bodies[k], k)) else None)
  }

  /** A `Version=` line stores its value. */
  lemma CsrcReadsVersion(c: C1.Cursor, version: string)
    requires Free(version, "=,")
    ensures C1.ReadLine(c, "Version=" + version) == Ok(C1.Cursor(version, c.index, c.particles))
  {
    assert Free("Version", "=,");
    KeyValueFields("Version", version);
    assert "Version=" + version == "Version" + "=" + version;
  }

  /** A body line the Python script writes becomes the next particle. */
  lemma CsrcReadsPyBody(c: C1.Cursor, b: Body)
    requires c.index < |c.particles|
    ensures C1.ReadLine(c, CS.EncodeBody(CS.FromBody(b))) ==
      Ok(C1.Cursor(c.version, c.index + 1, c.particles[c.index := Some(C1.Particle(b, c.index))]))
  {
    PyBodyTokens(b);
  }

  /** The tokens of a Python body line: seven, the first not a key, decoding to the body. */
  lemma PyBodyTokens(b: Body)
    ensures var tokens := Fields(CS.EncodeBody(CS.FromBody(b)), "=,");
      |tokens| == 7 && tokens[0] != "Version" && DecodeBody(tokens) == Ok(b)
  {
    var pb := CS.FromBody(b);
    var tokens := Fields(CS.EncodeBody(pb), "=,");
    CS.EncodeBodyFields(pb, "=,");
    CS.FromBodyFields(b);
    PyBodyNotKey(pb, "Version");
    assert tokens[..7] == tokens;
    OfToFields(b);
  }

  /** The body lines from `j` on, then `End`, fill the remaining slots in order. */
  lemma {:induction false} CsrcReadsPyBodies(version: string, bodies: seq<Body>, pbs: seq<CS.PyBody<Bits64>>, j: nat)
    requires Holds(pbs, bodies) && j <= |bodies|
    ensures C1.ReadLines(C1.Cursor(version, j, Slots(bodies, j)), CS.EncodeLines(pbs)[j..] + ["End"]) ==
      Ok(C1.Cursor(version, |bodies|, Slots(bodies, |bodies|)))
    decreases |bodies| - j
  {
    var ls := CS.EncodeLines(pbs)[j..] + ["End"];
    if j == |bodies| {
      assert ls == ["End"];
      assert StartsWith(ls[0], "End");
    } else {
      SuffixStep(CS.EncodeLines(pbs), j, ["End"]);
      CS.EncodeBodyShape(pbs[j]);
      var c := C1.Cursor(version, j, Slots(bodies, j));
      CsrcReadsPyBody(c, bodies[j]);
      SlotsStep(bodies, j);
      C1.ReadLinesStep(c, ls, C1.Cursor(version, j + 1, Slots(bodies, j + 1)));
      CsrcReadsPyBodies(version, bodies, pbs, j + 1);
    }
  }

  /** The suffix from `j`, then a tail: its head is element `j`, and the rest starts at `j + 1`. */
  lemma SuffixStep<T>(xs: seq<T>, j: nat, tail: seq<T>)
    requires j < |xs|
    ensures (xs[j..] + tail)[0] == xs[j] && (xs[j..] + tail)[1..] == xs[j + 1..] + tail
  {
  }

  lemma SlotsStep(bodies: seq<Body>, j: nat)
    requires j < |bodies|
    ensures Slots(bodies, j)[j := Some(C1.Particle(bodies[j], j))] == Slots(bodies, j + 1)
  {
  }

  /** `configure.py`'s lines count as a version line, one line per body and `End`. */
  lemma PyLineCount(version: string, pbs: seq<CS.PyBody<Bits64>>)
    requires Free(version, "=,\n")
    ensures C1.LineCount(CS.ConfigurationLines(version, pbs)) == Ok(|pbs| + 6)
    ensures forall k :: 0 <= k < |CS.ConfigurationLines(version, pbs)| ==> IsLine(CS.ConfigurationLines(version, pbs)[k])
  {
    PyTally(version, pbs);
    PyLinesAreLines(version, pbs);
  }

  /** The script's header counts as a header line, each body line as a body, `End` ends. */
  lemma PyTally(version: string, pbs: seq<CS.PyBody<Bits64>>)
    ensures C1.LineCount(CS.ConfigurationLines(version, pbs)) == Ok(|pbs| + 6)
  {
    var h := ["Version=" + version];
    var bs := CS.EncodeLines(pbs);
    assert ('=' in h[0] && !StartsWith(h[0], "End")) by {
      assert h[0][7] == '=';
      assert h[0][0] == 'V';
    }
    forall k | 0 <= k < |bs| ensures '=' !in bs[k] && !StartsWith(bs[k], "End") {
      CS.EncodeBodyShape(pbs[k]);
    }
    TallyFile(h, bs);
  }

  /** No line the script writes holds a line break. */
  lemma PyLinesAreLines(version: string, pbs: seq<CS.PyBody<Bits64>>)
    requires Free(version, "=,\n")
    ensures forall k :: 0 <= k < |CS.ConfigurationLines(version, pbs)| ==> IsLine(CS.ConfigurationLines(version, pbs)[k])
  {
    var h := "Version=" + version;
    var bs := CS.EncodeLines(pbs);
    var ls := CS.ConfigurationLines(version, pbs);
    assert IsLine(h) by {
      assert Free("Version=", "\n");
      C0.PrefixedLine("Version=", version);
    }
    assert IsLine("End");
    forall k | 0 <= k < |ls| ensures IsLine(ls[k]) {
      if k == 0 {
        assert ls[0] == h;
      } else if k <= |bs| {
        assert ls[k] == bs[k - 1];
        CS.EncodeBodyShape(pbs[k - 1]);
      } else {
        assert ls[k] == "End";
      }
    }
  }

  /** The parts of `configure.py`'s lines. */
  lemma PyLinesParts(version: string, pbs: seq<CS.PyBody<Bits64>>)
    ensures var ls := CS.ConfigurationLines(version, pbs);
      ls[0] == "Version" + "=" + version && ls[0][0] == 'V' &&
      ls[1..] == CS.EncodeLines(pbs)[0..] + ["End"] &&
      (pbs != [] ==> ls[1] == CS.EncodeBody(pbs[0]))
  {
    var ls := CS.ConfigurationLines(version, pbs);
    var bs := CS.EncodeLines(pbs);
    assert ls == ["Version=" + version] + bs + ["End"];
    assert "Version=" + version == "Version" + "=" + version;
    assert ls[0] == "Version=" + version;
    assert ls[1..] == bs + ["End"];
    assert bs[0..] == bs;
    if pbs != [] {
      assert ls[1] == bs[0];
    }
  }

  /**
   * The second-generation reader loads what `configure.py` writes for
   * three-dimensional bodies: the version, and particle `k` with id `k`
   * for every body, in order.
   */
  lemma PythonToCsrc(version: string, bodies: seq<Body>, pbs: seq<CS.PyBody<Bits64>>)
    requires Holds(pbs, bodies) && Free(version, "=,\n")
    ensures C1.Read(Some(Unlines(CS.ConfigurationLines(version, pbs)))) ==
      Ok(C1.Configuration(version, seq(|bodies|, k requires 0 <= k < |bodies| => Some(C1.Particle(bodies[k], k)))))
  {
    PyReadStart(version, bodies, pbs);
    PyReadLines(version, bodies, pbs);
    SlotsFull(bodies);
  }

  /** Once every body is read, every slot holds its particle. */
  lemma SlotsFull(bodies: seq<Body>)
    ensures Slots(bodies, |bodies|) == seq(|bodies|, k requires 0 <= k < |bodies| => Some(C1.Particle(bodies[k], k)))
  {
  }

  /** Reading the script's text runs the loop over its lines from empty slots. */
  lemma PyReadStart(version: string, bodies: seq<Body>, pbs: seq<CS.PyBody<Bits64>>)
    requires Holds(pbs, bodies) && Free(version, "=,\n")
    ensures var ls := CS.ConfigurationLines(version, pbs);
      C1.ReadLines(C1.Cursor("", 0, Slots(bodies, 0)), ls) == Ok(C1.Cursor(version, |bodies|, Slots(bodies, |bodies|))) ==>
      C1.Read(Some(Unlines(ls))) == Ok(C1.Configuration(version, Slots(bodies, |bodies|)))
  {
    var ls := CS.ConfigurationLines(version, pbs);
    PyLineCount(version, pbs);
    GetlineLinesUnlines(ls);
    assert C1.Empty(|bodies|) == C1.Cursor("", 0, Slots(bodies, 0));
  }

  /** The loop reads the version line, then every body line, into the slots in order. */
  lemma PyReadLines(version: string, bodies: seq<Body>, pbs: seq<CS.PyBody<Bits64>>)
    requires Holds(pbs, bodies) && Free(version, "=,\n")
    ensures C1.ReadLines(C1.Cursor("", 0, Slots(bodies, 0)), CS.ConfigurationLines(version, pbs)) ==
      Ok(C1.Cursor(version, |bodies|, Slots(bodies, |bodies|)))
  {
    PyReadVersion(version, bodies, pbs);
    CsrcReadsPyBodies(version, bodies, pbs, 0);
  }

  /** The `Version=` line sets the version and leaves the body lines to read. */
  lemma PyReadVersion(version: string, bodies: seq<Body>, pbs: seq<CS.PyBody<Bits64>>)
    requires Free(version, "=,\n")
    ensures C1.ReadLines(C1.Cursor("", 0, Slots(bodies, 0)), CS.ConfigurationLines(version, pbs)) ==
      C1.ReadLines(C1.Cursor(version, 0, Slots(bodies, 0)), CS.EncodeLines(pbs)[0..] + ["End"])
  {
    var ls := CS.ConfigurationLines(version, pbs);
    PyLinesParts(version, pbs);
    var c0 := C1.Cursor("", 0, Slots(bodies, 0));
    assert !StartsWith(ls[0], "End");
    CsrcReadsVersion(c0, version);
    C1.ReadLinesStep(c0, ls, C1.Cursor(version, 0, Slots(bodies, 0)));
  }

  /** The third-generation reader takes a `Version=` line as line 0. */
  lemma Csrc2ReadsVersion(c: C2.Configuration, version: string)
    requires Free(version, "=,")
    ensures C2.ReadLine(c, 0, "Version" + "=" + version) == Ok(c.(version := version))
  {
    assert Free("Version", "=,");
    KeyValueFields("Version", version);
  }

  /** A Python body line is not the `iteration` line the third-generation reader expects. */
  lemma Csrc2RejectsPyBody(c: C2.Configuration, pb: CS.PyBody<Bits64>)
    ensures C2.ReadLine(c, 1, CS.EncodeBody(pb)) == Err(InvalidArgument)
  {
    PyBodyNotKey(pb, "iteration");
    assert C2.KEYS[1] == "iteration";
  }

  /** The first token of a Python body line, a signed decimal, is no key. */
  lemma PyBodyNotKey(pb: CS.PyBody<Bits64>, key: string)
    requires |key| >= 1 && 'A' <= key[0] <= 'z'
    ensures Fields(CS.EncodeBody(pb), "=,")[0] != key
  {
    CS.EncodeBodyFields(pb, "=,");
    SignedDecimalChars(ToSigned(CS.FieldList(pb)[0]));
    NotKey(Fields(CS.EncodeBody(pb), "=,")[0], key);
  }

  /** A line before `End` that fails ends the third-generation reading loop with its error. */
  lemma Csrc2ReadLinesFail(c: C2.Configuration, lineNumber: nat, lines: seq<string>, e: Error)
    requires lines != [] && !C2.IsEnd(lines[0])
    requires C2.ReadLine(c, lineNumber, lines[0]) == Err(e)
    ensures C2.ReadLines(c, lineNumber, lines) == Err(e)
  {
  }

  /** A line before `End` that reads cleanly hands the rest to the third-generation loop. */
  lemma Csrc2ReadLinesStep(c: C2.Configuration, lineNumber: nat, lines: seq<string>, next: C2.Configuration)
    requires lines != [] && !C2.IsEnd(lines[0])
    requires C2.ReadLine(c, lineNumber, lines[0]) == Ok(next)
    ensures C2.ReadLines(c, lineNumber, lines) == C2.ReadLines(next, lineNumber + 1, lines[1..])
  {
  }

  /**
   * The third-generation reader rejects what `configure.py` writes: with
   * fewer than four bodies the file has fewer than six lines; otherwise
   * line 1, a body, is not the `iteration` line it expects.
   */
  lemma PythonRejectedByCsrc2(version: string, pbs: seq<CS.PyBody<Bits64>>)
    requires Free(version, "=,\n")
    ensures C2.Read(Some(Unlines(CS.ConfigurationLines(version, pbs)))) ==
      if |pbs| < 4 then Err(BadArrayLength) else Err(InvalidArgument)
  {
    var ls := CS.ConfigurationLines(version, pbs);
    PyLineCount(version, pbs);
    GetlineLinesUnlines(ls);
    if |pbs| >= 4 {
      PyLinesParts(version, pbs);
      var c0 := C2.Empty(|ls| - 6);
      Csrc2ReadsVersion(c0, version);
      var c1 := c0.(version := version);
      Csrc2ReadLinesStep(c0, 0, ls, c1);
      CS.EncodeBodyShape(pbs[0]);
      Csrc2RejectsPyBody(c1, pbs[0]);
      Csrc2ReadLinesFail(c1, 1, ls[1..], InvalidArgument);
    }
  }

  // ---------------------------------------------------------------------
  // save_config's output read by the second- and third-generation readers.

  /** The five header lines are `key=value` lines, none of them an `End` line. */
  lemma HeaderParts(version: string, iter: int, theta: Bits64, g: Bits64, dt: Bits64)
    ensures var h := C0.Header(version, iter, theta, g, dt);
      h[0] == "Version" + "=" + version && h[1] == "iteration" + "=" + SignedDecimal(iter) &&
      h[2] == "theta" + "=" + Encode(theta) && h[3] == "G" + "=" + Encode(g) && h[4] == "dt" + "=" + Encode(dt) &&
      forall k :: 0 <= k < 5 ==> '=' in h[k] && !StartsWith(h[k], "End")
  {
    var h := C0.Header(version, iter, theta, g, dt);
    assert h[0] == "Version" + "=" + version;
    assert h[1] == "iteration" + "=" + SignedDecimal(iter);
    assert h[2] == "theta" + "=" + Encode(theta);
    assert h[3] == "G" + "=" + Encode(g);
    assert h[4] == "dt" + "=" + Encode(dt);
    KeyValueLine("Version", version);
    KeyValueLine("iteration", SignedDecimal(iter));
    KeyValueLine("theta", Encode(theta));
    KeyValueLine("G", Encode(g));
    KeyValueLine("dt", Encode(dt));
  }

  /** A `key=value` line with a key not starting with `E` holds `=` and is no `End` line. */
  lemma KeyValueLine(key: string, value: string)
    requires |key| >= 1 && key[0] != 'E'
    ensures '=' in key + "=" + value && !StartsWith(key + "=" + value, "End")
  {
    var l := key + "=" + value;
    assert l[|key|] == '=' && l[0] == key[0];
  }

  /** A `save_config` body line holds no `=` and is no `End` line. */
  lemma BodyLineCounted(b: Body)
    ensures '=' !in C0.BodyLine(b) && !StartsWith(C0.BodyLine(b), "End")
  {
    var ts := EncodeAll(ToFields(b));
    forall k | 0 <= k < 7 ensures Free(ts[k], "=") { C0.EncodeFree(ToFields(b)[k]); }
    JoinFree(ts, ',', "=");
    C0.BodyLineShape(b);
  }

  /** `save_config`'s lines: the header, the body lines, `End`, each a line. */
  lemma SavedLinesParts(version: string, iter: int, theta: Bits64, g: Bits64, dt: Bits64, bodies: seq<Body>)
    requires IsLine(version)
    ensures var ls := C0.SavedLines(version, iter, theta, g, dt, bodies);
      ls == C0.Header(version, iter, theta, g, dt) + C0.BodyLines(bodies) + ["End"] &&
      ls[5..] == C0.BodyLines(bodies)[0..] + ["End"] &&
      (forall k :: 0 <= k < 5 ==> ls[k] == C0.Header(version, iter, theta, g, dt)[k]) &&
      forall k :: 0 <= k < |ls| ==> IsLine(ls[k])
  {
    C0.SavedLinesAreLines(version, iter, theta, g, dt, bodies);
  }

  /** The first-generation file's line count: its header and `End` count nothing. */
  lemma SavedLineCount(version: string, iter: int, theta: Bits64, g: Bits64, dt: Bits64, bodies: seq<Body>)
    ensures C1.LineCount(C0.SavedLines(version, iter, theta, g, dt, bodies)) == Ok(|bodies| + 6)
  {
    HeaderParts(version, iter, theta, g, dt);
    var bs := C0.BodyLines(bodies);
    forall k | 0 <= k < |bs| ensures '=' !in bs[k] && !StartsWith(bs[k], "End") {
      BodyLineCounted(bodies[k]);
    }
    TallyFile(C0.Header(version, iter, theta, g, dt), bs);
  }

  /** The tokens of a `save_config` body line decode to the body. */
  lemma BodyLineTokens(b: Body)
    ensures var tokens := Fields(C0.BodyLine(b), "=,");
      |tokens| == 7 && DecodeBody(tokens) == Ok(b)
  {
    var fs := ToFields(b);
    var ts := EncodeAll(fs);
    forall k | 0 <= k < 7 ensures Free(ts[k], "=,") { EncodeFreeDelims(fs[k]); }
    FieldsJoinWith(ts, ',', "=,");
    DecodeEncodedFields(fs);
    assert ts[..7] == ts;
    OfToFields(b);
  }

  /** The third-generation reader takes `iteration=` with `stoi`. */
  lemma Csrc2ReadsIteration(c: C2.Configuration, iter: int)
    requires INT_MIN <= iter <= INT_MAX
    ensures C2.ReadLine(c, 1, "iteration" + "=" + SignedDecimal(iter)) == Ok(c.(iteration := Some(iter)))
  {
    assert Free("iteration", "=,");
    SignedDecimalFree(iter);
    KeyValueFields("iteration", SignedDecimal(iter));
    StoiSignedDecimal(iter);
  }

  /** The third-generation reader decodes lines 2 to 4 into `theta`, `G` and `dt`. */
  lemma Csrc2ReadsDouble(c: C2.Configuration, lineNumber: nat, x: Bits64)
    requires 2 <= lineNumber <= 4
    ensures C2.ReadLine(c, lineNumber, C2.KEYS[lineNumber] + "=" + Encode(x)) ==
      Ok(if lineNumber == 2 then c.(theta := Some(x)) else if lineNumber == 3 then c.(g := Some(x)) else c.(dt := Some(x)))
  {
    var key := C2.KEYS[lineNumber];
    assert Free(key, "=,");
    EncodeFreeDelims(x);
    KeyValueFields(key, Encode(x));
    DecodeEncode(x);
  }

  /** Line `5 + k` of a `save_config` file fills slot `k`. */
  lemma Csrc2ReadsBody(c: C2.Configuration, lineNumber: nat, b: Body)
    requires 5 <= lineNumber < 5 + |c.particles|
    ensures C2.ReadLine(c, lineNumber, C0.BodyLine(b)) == Ok(c.(particles := c.particles[lineNumber - 5 := Some(b)]))
  {
    BodyLineTokens(b);
  }

  /** The slots after the first `j` bodies. */
  function Slots2(bodies: seq<Body>, j: nat): (s: seq<Option<Body>>)
    ensures |s| == |bodies|
  {
    seq(|bodies|, k requires 0 <= k < |bodies| => if k < j then Some(bodies[k]) else None)
  }

  lemma Slots2Step(bodies: seq<Body>, j: nat)
    requires j < |bodies|
    ensures Slots2(bodies, j)[j := Some(bodies[j])] == Slots2(bodies, j + 1)
  {
  }

  /** The body lines from `j` on, then `End`, fill the remaining slots in order. */
  lemma {:induction false} Csrc2ReadsBodies(version: string, iteration: Option<int>, theta: Option<Bits64>,
                                             g: Option<Bits64>, dt: Option<Bits64>, bodies: seq<Body>, j: nat)
    requires j <= |bodies|
    ensures C2.ReadLines(C2.Configuration(version, iteration, theta, g, dt, Slots2(bodies, j)), 5 + j,
                         C0.BodyLines(bodies)[j..] + ["End"]) ==
      Ok(C2.Configuration(version, iteration, theta, g, dt, Slots2(bodies, |bodies|)))
    decreases |bodies| - j
  {
    var ls := C0.BodyLines(bodies)[j..] + ["End"];
    if j == |bodies| {
      assert ls == ["End"];
      assert C2.IsEnd(ls[0]);
    } else {
      SuffixStep(C0.BodyLines(bodies), j, ["End"]);
      C0.BodyLineShape(bodies[j]);
      var c := C2.Configuration(version, iteration, theta, g, dt, Slots2(bodies, j));
      Csrc2ReadsBody(c, 5 + j, bodies[j]);
      Slots2Step(bodies, j);
      Csrc2ReadLinesStep(c, 5 + j, ls, C2.Configuration(version, iteration, theta, g, dt, Slots2(bodies, j + 1)));
      Csrc2ReadsBodies(version, iteration, theta, g, dt, bodies, j + 1);
    }
  }

  /** Dropping one more element of a suffix. */
  lemma DropStep<T>(xs: seq<T>, k: nat)
    requires k < |xs|
    ensures xs[k..][0] == xs[k] && xs[k..][1..] == xs[k + 1..]
  {
  }

  /** The five header lines fill the header fields and leave the slots alone. */
  lemma Csrc2ReadsHeader(version: string, iter: int, theta: Bits64, g: Bits64, dt: Bits64,
                         ls: seq<string>, slots: seq<Option<Body>>)
    requires Free(version, "=,") && INT_MIN <= iter <= INT_MAX
    requires |ls| >= 5 && forall k :: 0 <= k < 5 ==> ls[k] == C0.Header(version, iter, theta, g, dt)[k]
    ensures C2.ReadLines(C2.Configuration("", None, None, None, None, slots), 0, ls) ==
      C2.ReadLines(C2.Configuration(version, Some(iter), Some(theta), Some(g), Some(dt), slots), 5, ls[5..])
  {
    Csrc2ReadsHeaderFront(version, iter, theta, g, dt, ls, slots);
    Csrc2ReadsHeaderBack(version, iter, theta, g, dt, ls, slots);
  }

  /** The `Version` and `iteration` lines. */
  lemma Csrc2ReadsHeaderFront(version: string, iter: int, theta: Bits64, g: Bits64, dt: Bits64,
                              ls: seq<string>, slots: seq<Option<Body>>)
    requires Free(version, "=,") && INT_MIN <= iter <= INT_MAX
    requires |ls| >= 5 && forall k :: 0 <= k < 5 ==> ls[k] == C0.Header(version, iter, theta, g, dt)[k]
    ensures C2.ReadLines(C2.Configuration("", None, None, None, None, slots), 0, ls) ==
      C2.ReadLines(C2.Configuration(version, Some(iter), None, None, None, slots), 2, ls[2..])
  {
    HeaderParts(version, iter, theta, g, dt);
    var c0 := C2.Configuration("", None, None, None, None, slots);
    Csrc2VersionStep(c0, version, ls);
    Csrc2IterationStep(c0.(version := version), iter, ls);
  }

  /** The `Version=` line read as line 0. */
  lemma Csrc2VersionStep(c: C2.Configuration, version: string, ls: seq<string>)
    requires Free(version, "=,") && |ls| >= 1 && ls[0] == "Version" + "=" + version && !C2.IsEnd(ls[0])
    ensures C2.ReadLines(c, 0, ls) == C2.ReadLines(c.(version := version), 1, ls[1..])
  {
    Csrc2ReadsVersion(c, version);
    assert ls[0..] == ls;
    Csrc2HeaderStep(c, 0, ls, c.(version := version));
  }

  /** The `iteration=` line read as line 1. */
  lemma Csrc2IterationStep(c: C2.Configuration, iter: int, ls: seq<string>)
    requires INT_MIN <= iter <= INT_MAX && |ls| >= 2 && ls[1] == "iteration" + "=" + SignedDecimal(iter) && !C2.IsEnd(ls[1])
    ensures C2.ReadLines(c, 1, ls[1..]) == C2.ReadLines(c.(iteration := Some(iter)), 2, ls[2..])
  {
    Csrc2ReadsIteration(c, iter);
    Csrc2HeaderStep(c, 1, ls, c.(iteration := Some(iter)));
  }

  /** The `theta`, `G` and `dt` lines. */
  lemma Csrc2ReadsHeaderBack(version: string, iter: int, theta: Bits64, g: Bits64, dt: Bits64,
                             ls: seq<string>, slots: seq<Option<Body>>)
    requires |ls| >= 5 && forall k :: 0 <= k < 5 ==> ls[k] == C0.Header(version, iter, theta, g, dt)[k]
    ensures C2.ReadLines(C2.Configuration(version, Some(iter), None, None, None, slots), 2, ls[2..]) ==
      C2.ReadLines(C2.Configuration(version, Some(iter), Some(theta), Some(g), Some(dt), slots), 5, ls[5..])
  {
    HeaderParts(version, iter, theta, g, dt);
    var c2 := C2.Configuration(version, Some(iter), None, None, None, slots);
    var c3 := C2.Configuration(version, Some(iter), Some(theta), None, None, slots);
    var c4 := C2.Configuration(version, Some(iter), Some(theta), Some(g), None, slots);
    var c5 := C2.Configuration(version, Some(iter), Some(theta), Some(g), Some(dt), slots);
    assert C2.KEYS[2] == "theta" && C2.KEYS[3] == "G" && C2.KEYS[4] == "dt";
    Csrc2ReadsDouble(c2, 2, theta);
    Csrc2ReadsDouble(c3, 3, g);
    Csrc2ReadsDouble(c4, 4, dt);
    Csrc2HeaderStep(c2, 2, ls, c3);
    Csrc2HeaderStep(c3, 3, ls, c4);
    Csrc2HeaderStep(c4, 4, ls, c5);
  }

  /** Line `k` of the file read as the loop's line `k`. */
  lemma Csrc2HeaderStep(c: C2.Configuration, k: nat, ls: seq<string>, next: C2.Configuration)
    requires k < |ls| && !C2.IsEnd(ls[k]) && C2.ReadLine(c, k, ls[k]) == Ok(next)
    ensures C2.ReadLines(c, k, ls[k..]) == C2.ReadLines(next, k + 1, ls[k + 1..])
  {
    DropStep(ls, k);
    Csrc2ReadLinesStep(c, k, ls[k..], next);
  }

  /**
   * The third-generation reader loads what the first generation's
   * `save_config` writes: every header field and every body, in order.
   */
  lemma SavedToCsrc2(version: string, iter: int, theta: Bits64, g: Bits64, dt: Bits64, bodies: seq<Body>)
    requires Free(version, "=,\n") && INT_MIN <= iter <= INT_MAX
    ensures C2.Read(Some(Unlines(C0.SavedLines(version, iter, theta, g, dt, bodies)))) ==
      Ok(C2.Configuration(version, Some(iter), Some(theta), Some(g), Some(dt),
                          seq(|bodies|, k requires 0 <= k < |bodies| => Some(bodies[k]))))
  {
    SavedReadsSlots(version, iter, theta, g, dt, bodies);
    Slots2Full(bodies);
  }

  /** The saved text read line by line, with the slots as the loop fills them. */
  lemma SavedReadsSlots(version: string, iter: int, theta: Bits64, g: Bits64, dt: Bits64, bodies: seq<Body>)
    requires Free(version, "=,\n") && INT_MIN <= iter <= INT_MAX
    ensures C2.Read(Some(Unlines(C0.SavedLines(version, iter, theta, g, dt, bodies)))) ==
      Ok(C2.Configuration(version, Some(iter), Some(theta), Some(g), Some(dt), Slots2(bodies, |bodies|)))
  {
    SavedReadPrefix(version, iter, theta, g, dt, bodies);
    SavedReadBodies(version, iter, theta, g, dt, bodies);
  }

  /** Reading the saved text arrives at its first body line with the header read. */
  lemma SavedReadPrefix(version: string, iter: int, theta: Bits64, g: Bits64, dt: Bits64, bodies: seq<Body>)
    requires Free(version, "=,\n") && INT_MIN <= iter <= INT_MAX
    ensures C2.Read(Some(Unlines(C0.SavedLines(version, iter, theta, g, dt, bodies)))) ==
      C2.ReadLines(C2.Configuration(version, Some(iter), Some(theta), Some(g), Some(dt), Slots2(bodies, 0)), 5 + 0,
                   C0.BodyLines(bodies)[0..] + ["End"])
  {
    SavedReadStart(version, iter, theta, g, dt, bodies);
    SavedReadHeader(version, iter, theta, g, dt, bodies);
  }

  /** From the first body line on, the saved body lines fill every slot. */
  lemma SavedReadBodies(version: string, iter: int, theta: Bits64, g: Bits64, dt: Bits64, bodies: seq<Body>)
    ensures C2.ReadLines(C2.Configuration(version, Some(iter), Some(theta), Some(g), Some(dt), Slots2(bodies, 0)), 5 + 0,
                         C0.BodyLines(bodies)[0..] + ["End"]) ==
      Ok(C2.Configuration(version, Some(iter), Some(theta), Some(g), Some(dt), Slots2(bodies, |bodies|)))
  {
    Csrc2ReadsBodies(version, Some(iter), Some(theta), Some(g), Some(dt), bodies, 0);
  }

  /** Once every body is read, every slot holds its body. */
  lemma Slots2Full(bodies: seq<Body>)
    ensures Slots2(bodies, |bodies|) == seq(|bodies|, k requires 0 <= k < |bodies| => Some(bodies[k]))
  {
  }

  /** Reading the saved text starts the loop on its lines with every slot empty. */
  lemma SavedReadStart(version: string, iter: int, theta: Bits64, g: Bits64, dt: Bits64, bodies: seq<Body>)
    requires Free(version, "=,\n")
    ensures var ls := C0.SavedLines(version, iter, theta, g, dt, bodies);
      C2.Read(Some(Unlines(ls))) == C2.ReadLines(C2.Configuration("", None, None, None, None, Slots2(bodies, 0)), 0, ls)
  {
    var ls := C0.SavedLines(version, iter, theta, g, dt, bodies);
    assert IsLine(version);
    SavedLinesParts(version, iter, theta, g, dt, bodies);
    GetlineLinesUnlines(ls);
    assert C2.Empty(|bodies|) == C2.Configuration("", None, None, None, None, Slots2(bodies, 0));
  }

  /** The saved header lines take the loop to the first body line. */
  lemma SavedReadHeader(version: string, iter: int, theta: Bits64, g: Bits64, dt: Bits64, bodies: seq<Body>)
    requires Free(version, "=,\n") && INT_MIN <= iter <= INT_MAX
    ensures var ls := C0.SavedLines(version, iter, theta, g, dt, bodies);
      C2.ReadLines(C2.Configuration("", None, None, None, None, Slots2(bodies, 0)), 0, ls) ==
      C2.ReadLines(C2.Configuration(version, Some(iter), Some(theta), Some(g), Some(dt), Slots2(bodies, 0)), 5 + 0,
                   C0.BodyLines(bodies)[0..] + ["End"])
  {
    var ls := C0.SavedLines(version, iter, theta, g, dt, bodies);
    assert IsLine(version) && Free(version, "=,");
    SavedLinesParts(version, iter, theta, g, dt, bodies);
    Csrc2ReadsHeader(version, iter, theta, g, dt, ls, Slots2(bodies, 0));
  }

  /**
   * The second-generation reader rejects what `save_config` writes: the
   * `iteration` line has two tokens where a body needs seven.
   */
  lemma SavedRejectedByCsrc(version: string, iter: int, theta: Bits64, g: Bits64, dt: Bits64, bodies: seq<Body>)
    requires Free(version, "=,\n")
    ensures C1.Read(Some(Unlines(C0.SavedLines(version, iter, theta, g, dt, bodies)))) == Err(LogicError)
  {
    var ls := C0.SavedLines(version, iter, theta, g, dt, bodies);
    assert IsLine(version) && Free(version, "=,");
    SavedLinesParts(version, iter, theta, g, dt, bodies);
    GetlineLinesUnlines(ls);
    SavedLineCount(version, iter, theta, g, dt, bodies);
    HeaderParts(version, iter, theta, g, dt);
    var c0 := C1.Empty(|bodies|);
    CsrcReadsVersion(c0, version);
    var c1 := C1.Cursor(version, 0, c0.particles);
    C1.ReadLinesStep(c0, ls, c1);
    CsrcRejectsIteration(c1, iter);
    DropStep(ls, 1);
  }

  /** The `iteration` line is neither a `Version` line nor a seven-field body. */
  lemma CsrcRejectsIteration(c: C1.Cursor, iter: int)
    ensures C1.ReadLine(c, "iteration" + "=" + SignedDecimal(iter)) == Err(LogicError)
  {
    assert Free("iteration", "=,");
    SignedDecimalFree(iter);
    KeyValueFields("iteration", SignedDecimal(iter));
  }
}
