/**
 * The configuration reader of the third-generation simulator: five header
 * lines keyed `Version`, `iteration`, `theta`, `G` and `dt`, one line of
 * seven encoded doubles per body, and `End`; and the `iterate` loops that
 * hand particles and pairs of particles to visitors.
 */
module ConfigCsrc2 {
  import opened Wrappers
  import opened Strings
  import opened Numerals
  import opened Codec
  import opened Bodies
  import opened Pairs

  /**
   * A loaded configuration.  A header field the file never reached is
   * `None`: the C++ leaves it uninitialised.  `particles` has `_n` slots; a
   * slot no body line filled stays `None`.
   */
  datatype Configuration = Configuration(
    version: string,
    iteration: Option<int>,
    theta: Option<Bits64>,
    g: Option<Bits64>,
    dt: Option<Bits64>,
    particles: seq<Option<Body>>)

  /** `_get_line_count`: the number of lines. */
  method GetLineCount(lines: seq<string>) returns (count: int)
    ensures count == |lines|
  {
    count := 0;
    while count < |lines|
      invariant 0 <= count <= |lines|
    {
      count := count + 1;
    }
  }

  /** `line.compare(0, 3, "End", 0, 3) == 0`: the first three characters are `End`. */
  predicate IsEnd(line: string) {
    StartsWith(line, "End")
  }

  /** The header keys, in the order lines 0 to 4 must carry them. */
  const KEYS: seq<string> := ["Version", "iteration", "theta", "G", "dt"]

  /**
   * Line `lineNumber` (before `End`), split on `=` and `,` keeping empty
   * tokens: a header line whose key is wrong raises `invalid_argument`;
   * `iteration` is read with `stoi`, the doubles with `decode`; line
   * `k + 5` fills slot `k`.
   */
  function ReadLine(c: Configuration, lineNumber: nat, line: string): (r: Result<Configuration>)
    ensures r.Ok? ==> |r.value.particles| == |c.particles|
  {
    var tokens := Fields(line, "=,");
    if lineNumber < 5 then
      if tokens[0] != KEYS[lineNumber] then Err(InvalidArgument)
      else if |tokens| < 2 then Err(Undefined)
      else if lineNumber == 0 then Ok(c.(version := tokens[1]))
      else if lineNumber == 1 then
        var p :- Stoi(tokens[1]);
        Ok(c.(iteration := Some(p.value)))
      else
        var v :- Decode(tokens[1]);
        if lineNumber == 2 then Ok(c.(theta := Some(v)))
        else if lineNumber == 3 then Ok(c.(g := Some(v)))
        else Ok(c.(dt := Some(v)))
    else
      var body :- DecodeBody(tokens);
      if lineNumber - 5 >= |c.particles| then Err(Undefined)
      else Ok(c.(particles := c.particles[lineNumber - 5 := Some(body)]))
  }

  /** The reading loop from line `lineNumber` on, up to the first `End`. */
  function ReadLines(c: Configuration, lineNumber: nat, lines: seq<string>): (r: Result<Configuration>)
    ensures r.Ok? ==> |r.value.particles| == |c.particles|
    decreases |lines|
  {
    if lines == [] || IsEnd(lines[0]) then Ok(c)
    else
      var c' :- ReadLine(c, lineNumber, lines[0]);
      ReadLines(c', lineNumber + 1, lines[1..])
  }

  /** Nothing read yet: `_n` empty slots. */
  function Empty(n: nat): (c: Configuration)
    ensures |c.particles| == n
  {
    Configuration("", None, None, None, None, seq(n, _ => None))
  }

  /**
   * `Configuration(file_name)`: `invalid_argument` when the file cannot be
   * opened, `_n = line count - 6`, then the reading loop.
   */
  function Read(file: Option<string>): (r: Result<Configuration>)
    ensures file.None? ==> r == Err(InvalidArgument)
    ensures file.Some? && |GetlineLines(file.value)| < 6 ==> r == Err(BadArrayLength)
    ensures r.Ok? ==> |r.value.particles| == |GetlineLines(file.value)| - 6
  {
    match file
    case None => Err(InvalidArgument)
    case Some(text) =>
      var lines := GetlineLines(text);
      if |lines| - 6 < 0 then Err(BadArrayLength)
      else ReadLines(Empty(|lines| - 6), 0, lines)
  }

  /** One round of the reading loop, on a line before `End`. */
  lemma ReadLinesStep(c: Configuration, lineNumber: nat, lines: seq<string>, k: nat)
    requires k < |lines| && !IsEnd(lines[k])
    ensures ReadLines(c, lineNumber, lines[k..]) ==
      match ReadLine(c, lineNumber, lines[k])
      case Err(e) => Err(e)
      case Ok(c') => ReadLines(c', lineNumber + 1, lines[k + 1..])
  {
    assert lines[k..][0] == lines[k] && lines[k..][1..] == lines[k + 1..];
  }

  /** The constructor as the C++ writes it: a `line_number` counter drives a switch. */
  method Load(file: Option<string>) returns (r: Result<Configuration>)
    ensures r == Read(file)
  {
    if file.None? {
      return Err(InvalidArgument);
    }
    var lines := GetlineLines(file.value);
    var count := GetLineCount(lines);
    var n := count - 6;
    if n < 0 {
      return Err(BadArrayLength);
    }
    var slots := new Option<Body>[n](_ => None);
    var c := Empty(n);
    assert slots[..] == c.particles;
    var lineNumber: nat := 0;
    while lineNumber < |lines| && !IsEnd(lines[lineNumber])
      invariant lineNumber <= |lines|
      invariant slots[..] == c.particles
      invariant Read(file) == ReadLines(c, lineNumber, lines[lineNumber..])
      decreases |lines| - lineNumber
    {
      var line := lines[lineNumber];
      var h;
      if lineNumber < 5 {
        h := HeaderLine(c, lineNumber, line);
      } else {
        h := BodyLine(slots, c, lineNumber, line);
      }
      ReadLinesStep(c, lineNumber, lines, lineNumber);
      if h.Err? {
        return Err(h.error);
      }
      c := h.value;
      lineNumber := lineNumber + 1;
    }
    assert lineNumber < |lines| ==> lines[lineNumber..][0] == lines[lineNumber];
    return Ok(c);
  }

  /** The cases `0` to `4` of the constructor's switch, on the tokens of a header line. */
  method HeaderLine(c: Configuration, lineNumber: nat, line: string) returns (r: Result<Configuration>)
    requires lineNumber < 5
    ensures r == ReadLine(c, lineNumber, line)
  {
    var tokens := Split(line, "=,", true);
    if tokens[0] != KEYS[lineNumber] {
      return Err(InvalidArgument);
    }
    if |tokens| < 2 {
      return Err(Undefined);
    }
    if lineNumber == 0 {
      return Ok(c.(version := tokens[1]));
    }
    if lineNumber == 1 {
      var p := Stoi(tokens[1]);
      if p.Err? {
        return Err(p.error);
      }
      return Ok(c.(iteration := Some(p.value.value)));
    }
    var v := Decode(tokens[1]);
    if v.Err? {
      return Err(v.error);
    }
    if lineNumber == 2 {
      return Ok(c.(theta := Some(v.value)));
    } else if lineNumber == 3 {
      return Ok(c.(g := Some(v.value)));
    }
    return Ok(c.(dt := Some(v.value)));
  }

  /** The `default:` case of the switch: decode the seven tokens into slot `lineNumber - 5`. */
  method BodyLine(slots: array<Option<Body>>, c: Configuration, lineNumber: nat, line: string) returns (r: Result<Configuration>)
    requires 5 <= lineNumber && slots[..] == c.particles
    modifies slots
    ensures r == ReadLine(c, lineNumber, line)
    ensures r.Ok? ==> slots[..] == r.value.particles
  {
    var tokens := Split(line, "=,", true);
    var body := DecodeRecord(tokens);
    if body.Err? {
      return Err(body.error);
    }
    if lineNumber - 5 >= slots.Length {
      return Err(Undefined);
    }
    slots[lineNumber - 5] := Some(body.value);
    r := Ok(c.(particles := slots[..]));
  }

  /** One call a visitor receives. */
  datatype Call =
    | Visit(i: int, particle: Option<Body>)                    // Visitor::visit(i, particle)
    | VisitPair(first: Option<Body>, second: Option<Body>)     // PairVisitor::visit_pair

  /** The visits `iterate(Visitor&)` makes: `visit(i, particles[i])` for each `i` in order. */
  function SingleCalls(particles: seq<Option<Body>>): (calls: seq<Call>)
    ensures |calls| == |particles|
  {
    seq(|particles|, i requires 0 <= i < |particles| => Visit(i, particles[i]))
  }

  /** `iterate(Visitor&)`. */
  method Iterate(particles: seq<Option<Body>>) returns (calls: seq<Call>)
    ensures calls == SingleCalls(particles)
  {
    calls := [];
    for i := 0 to |particles|
      invariant calls == SingleCalls(particles[..i])
    {
      calls := calls + [Visit(i, particles[i])];
    }
    assert particles[..|particles|] == particles;
  }

  /** Each particle is visited exactly once, together with its own index. */
  lemma SingleCallsOnce(particles: seq<Option<Body>>, i: int)
    requires 0 <= i < |particles|
    ensures forall k :: 0 <= k < |particles| && SingleCalls(particles)[k].i == i ==> k == i
    ensures SingleCalls(particles)[i] == Visit(i, particles[i])
  {
  }

  /** The pair calls that `for (j = from; j < n; j++)` makes in row `i`. */
  function RowCalls(particles: seq<Option<Body>>, i: nat, from: nat): (calls: seq<Call>)
    requires i < |particles|
    decreases |particles| - from
  {
    if from >= |particles| then [] else [VisitPair(particles[i], particles[from])] + RowCalls(particles, i, from + 1)
  }

  /** The pair calls of rows `from` onwards. */
  function PairCallsFrom(particles: seq<Option<Body>>, from: nat): (calls: seq<Call>)
    decreases |particles| - from
  {
    if from >= |particles| then [] else RowCalls(particles, from, from + 1) + PairCallsFrom(particles, from + 1)
  }

  /**
   * The pair calls of the evidently intended loop
   * `visit_pair(_particles[i], _particles[j])` for `i < j`.
   */
  function PairCalls(particles: seq<Option<Body>>): seq<Call> {
    PairCallsFrom(particles, 0)
  }

  /** Row `i` as written: the second particle is always `_particles[2]`. */
  function RowCallsAsWritten(particles: seq<Option<Body>>, i: nat, from: nat): (calls: seq<Call>)
    requires i < |particles| && |particles| > 2
    decreases |particles| - from
  {
    if from >= |particles| then [] else [VisitPair(particles[i], particles[2])] + RowCallsAsWritten(particles, i, from + 1)
  }

  function PairCallsFromAsWritten(particles: seq<Option<Body>>, from: nat): (calls: seq<Call>)
    requires |particles| > 2
    decreases |particles| - from
  {
    if from >= |particles| then []
    else RowCallsAsWritten(particles, from, from + 1) + PairCallsFromAsWritten(particles, from + 1)
  }

  /**
   * The pair calls as written: `visit_pair(_particles[i], _particles[2])`,
   * which reads past the end when there are pairs but fewer than three
   * particles.
   */
  function PairCallsAsWritten(particles: seq<Option<Body>>): (r: Result<seq<Call>>)
    ensures |particles| < 2 ==> r == Ok([])
  {
    if |particles| == 2 then Err(Undefined)
    else if |particles| < 2 then Ok([])
    else Ok(PairCallsFromAsWritten(particles, 0))
  }

  /**
   * `iterate(PairVisitor&)` as written: the nested loop over `i < j`, each
   * call reading `_particles[2]`, which lies past the end unless there are
   * three particles or more.
   */
  method IteratePairsAsWritten(particles: seq<Option<Body>>) returns (r: Result<seq<Call>>)
    ensures r == PairCallsAsWritten(particles)
  {
    var calls: seq<Call> := [];
    for i := 0 to |particles|
      invariant AsWrittenSoFar(particles, i, calls)
    {
      var row := RowAsWritten(particles, i, calls);
      AsWrittenRowStep(particles, i, calls, row);
      if row.Err? {
        return row;
      }
      calls := row.value;
    }
    AsWrittenDone(particles, calls);
    r := Ok(calls);
  }

  /**
   * The rows before `i` have been visited: with three particles or more,
   * `calls` is the part of the as-written calls they make; with fewer, no
   * call has been made and, for two, no row has been finished.
   */
  predicate AsWrittenSoFar(particles: seq<Option<Body>>, i: nat, calls: seq<Call>) {
    if |particles| > 2 then PairCallsAsWritten(particles).value == calls + PairCallsFromAsWritten(particles, i)
    else calls == [] && (|particles| == 2 ==> i == 0)
  }

  /** One row of the loop: it either goes on to the next row or reads past the end. */
  lemma AsWrittenRowStep(particles: seq<Option<Body>>, i: nat, calls: seq<Call>, row: Result<seq<Call>>)
    requires i < |particles| && AsWrittenSoFar(particles, i, calls)
    requires |particles| > 2 ==> row == Ok(calls + RowCallsAsWritten(particles, i, i + 1))
    requires |particles| <= 2 && i + 1 < |particles| ==> row == Err(Undefined)
    requires |particles| <= 2 && i + 1 >= |particles| ==> row == Ok(calls)
    ensures row.Err? ==> row == PairCallsAsWritten(particles)
    ensures row.Ok? ==> AsWrittenSoFar(particles, i + 1, row.value)
  {
    if |particles| > 2 {
      RowsAsWrittenStep(particles, i, calls);
    }
  }

  /** One more row of the as-written calls appended to `calls`. */
  lemma RowsAsWrittenStep(particles: seq<Option<Body>>, i: nat, calls: seq<Call>)
    requires |particles| > 2 && i < |particles|
    ensures calls + PairCallsFromAsWritten(particles, i) ==
      (calls + RowCallsAsWritten(particles, i, i + 1)) + PairCallsFromAsWritten(particles, i + 1)
  {
    assert PairCallsFromAsWritten(particles, i) == RowCallsAsWritten(particles, i, i + 1) + PairCallsFromAsWritten(particles, i + 1);
  }

  /** After the last row, the calls made are all the as-written calls. */
  lemma AsWrittenDone(particles: seq<Option<Body>>, calls: seq<Call>)
    requires AsWrittenSoFar(particles, |particles|, calls)
    ensures PairCallsAsWritten(particles) == Ok(calls)
  {
    if |particles| > 2 {
      assert calls + PairCallsFromAsWritten(particles, |particles|) == calls;
    }
  }

  /** Row `i` of the pair loop as written, appended to `calls`. */
  method RowAsWritten(particles: seq<Option<Body>>, i: nat, calls: seq<Call>) returns (r: Result<seq<Call>>)
    requires i < |particles|
    ensures |particles| > 2 ==> r == Ok(calls + RowCallsAsWritten(particles, i, i + 1))
    ensures |particles| <= 2 && i + 1 < |particles| ==> r == Err(Undefined)
    ensures |particles| <= 2 && i + 1 >= |particles| ==> r == Ok(calls)
  {
    var n := |particles|;
    var calls' := calls;
    for j := i + 1 to n
      invariant n > 2 ==> calls + RowCallsAsWritten(particles, i, i + 1) == calls' + RowCallsAsWritten(particles, i, j)
      invariant n <= 2 ==> calls' == calls && j == i + 1
    {
      if n <= 2 {
        return Err(Undefined);
      }
      calls' := calls' + [VisitPair(particles[i], particles[2])];
    }
    assert n > 2 ==> calls' + RowCallsAsWritten(particles, i, n) == calls';
    r := Ok(calls');
  }

  /** `iterate(PairVisitor&)` with the second argument corrected to `_particles[j]`. */
  method IteratePairs(particles: seq<Option<Body>>) returns (calls: seq<Call>)
    ensures calls == PairCalls(particles)
  {
    var n := |particles|;
    calls := [];
    for i := 0 to n
      invariant PairCalls(particles) == calls + PairCallsFrom(particles, i)
    {
      for j := i + 1 to n
        invariant PairCalls(particles) ==
          calls + RowCalls(particles, i, j) + PairCallsFrom(particles, i + 1)
      {
        calls := calls + [VisitPair(particles[i], particles[j])];
      }
    }
  }

  /** Every pair within range of `n` items. */
  predicate InRange(ps: seq<(nat, nat)>, n: nat) {
    forall k :: 0 <= k < |ps| ==> ps[k].0 < n && ps[k].1 < n
  }

  /** `visit_pair(particles[i], particles[j])` for each pair `(i, j)` in turn. */
  function Visits(particles: seq<Option<Body>>, ps: seq<(nat, nat)>): (calls: seq<Call>)
    requires InRange(ps, |particles|)
    ensures |calls| == |ps|
    ensures forall k :: 0 <= k < |ps| ==> calls[k] == VisitPair(particles[ps[k].0], particles[ps[k].1])
  {
    if ps == [] then [] else [VisitPair(particles[ps[0].0], particles[ps[0].1])] + Visits(particles, ps[1..])
  }

  lemma {:induction false} RowCallsVisits(particles: seq<Option<Body>>, i: nat, from: nat)
    requires i < |particles|
    ensures InRange(RowFrom(i, from, |particles|), |particles|)
    ensures RowCalls(particles, i, from) == Visits(particles, RowFrom(i, from, |particles|))
    decreases |particles| - from
  {
    if from < |particles| {
      RowCallsVisits(particles, i, from + 1);
    }
  }

  /** The rows of the loop, concatenated, visit the pairs of `UpperFrom(from, n)` in order. */
  lemma {:induction false} PairCallsFromVisits(particles: seq<Option<Body>>, from: nat)
    requires from <= |particles|
    ensures InRange(UpperFrom(from, |particles|), |particles|)
    ensures PairCallsFrom(particles, from) == Visits(particles, UpperFrom(from, |particles|))
    decreases |particles| - from
  {
    var n := |particles|;
    if from < n {
      PairCallsFromVisits(particles, from + 1);
      RowCallsVisits(particles, from, from + 1);
      var row, rest := UpperRow(from, n), UpperFrom(from + 1, n);
      assert UpperFrom(from, n) == row + rest;
      VisitsConcat(particles, row, rest);
      assert PairCallsFrom(particles, from) == RowCalls(particles, from, from + 1) + PairCallsFrom(particles, from + 1);
    }
  }

  lemma {:induction false} VisitsConcat(particles: seq<Option<Body>>, a: seq<(nat, nat)>, b: seq<(nat, nat)>)
    requires InRange(a, |particles|) && InRange(b, |particles|)
    ensures InRange(a + b, |particles|)
    ensures Visits(particles, a + b) == Visits(particles, a) + Visits(particles, b)
  {
    assert InRange(a + b, |particles|) by {
      forall k | 0 <= k < |a + b| ensures (a + b)[k].0 < |particles| && (a + b)[k].1 < |particles| {
        if k >= |a| { assert (a + b)[k] == b[k - |a|]; }
      }
    }
  }

  /**
   * The intended pair loop visits each unordered pair of particles exactly
   * once: call `k` hands over the particles of the `k`-th pair `i < j`, the
   * pairs are exactly those with `i < j < n`, they strictly increase (so none
   * repeats), and there are n(n-1)/2 calls.
   */
  lemma PairCallsOnce(particles: seq<Option<Body>>)
    ensures |PairCalls(particles)| == |Upper(|particles|)|
    ensures forall k :: 0 <= k < |PairCalls(particles)| ==>
      Upper(|particles|)[k].0 < Upper(|particles|)[k].1 < |particles| &&
      PairCalls(particles)[k] == VisitPair(particles[Upper(|particles|)[k].0], particles[Upper(|particles|)[k].1])
    ensures forall p: (nat, nat) :: p in Upper(|particles|) <==> p.0 < p.1 < |particles|
    ensures Increasing(Upper(|particles|))
    ensures 2 * |PairCalls(particles)| == |particles| * (|particles| - 1)
  {
    PairCallsFromVisits(particles, 0);
    UpperPairs(|particles|);
  }

  /**
   * As written, the pair loop hands `_particles[2]` as the second particle of
   * every pair: with three or more particles the first call is
   * `(particles[0], particles[2])` where `(particles[0], particles[1])` is
   * meant, and with exactly two particles it reads past the end.
   */
  lemma PairCallsAsWrittenDiffer(particles: seq<Option<Body>>)
    ensures |particles| == 2 ==> PairCallsAsWritten(particles) == Err(Undefined)
    ensures |particles| >= 3 ==>
      PairCallsAsWritten(particles).Ok? &&
      PairCallsAsWritten(particles).value[0] == VisitPair(particles[0], particles[2]) &&
      PairCalls(particles)[0] == VisitPair(particles[0], particles[1])
  {
    if |particles| >= 3 {
      RowCallsVisits(particles, 0, 1);
      assert UpperRow(0, |particles|)[0] == (0, 1);
    }
  }

  /** The calls with the second particle of every pair call replaced by `p`. */
  function Redirect(calls: seq<Call>, p: Option<Body>): (r: seq<Call>)
    ensures |r| == |calls|
    ensures forall k :: 0 <= k < |calls| ==> r[k] == if calls[k].VisitPair? then VisitPair(calls[k].first, p) else calls[k]
  {
    if calls == [] then []
    else [if calls[0].VisitPair? then VisitPair(calls[0].first, p) else calls[0]] + Redirect(calls[1..], p)
  }

  lemma {:induction false} RedirectConcat(a: seq<Call>, b: seq<Call>, p: Option<Body>)
    ensures Redirect(a + b, p) == Redirect(a, p) + Redirect(b, p)
  {
  }

  lemma {:induction false} RowRedirect(particles: seq<Option<Body>>, i: nat, from: nat)
    requires i < |particles| && |particles| > 2
    ensures RowCallsAsWritten(particles, i, from) == Redirect(RowCalls(particles, i, from), particles[2])
    decreases |particles| - from
  {
    if from < |particles| {
      RowRedirect(particles, i, from + 1);
      RedirectConcat([VisitPair(particles[i], particles[from])], RowCalls(particles, i, from + 1), particles[2]);
    }
  }

  lemma {:induction false} PairsRedirect(particles: seq<Option<Body>>, from: nat)
    requires |particles| > 2
    ensures PairCallsFromAsWritten(particles, from) == Redirect(PairCallsFrom(particles, from), particles[2])
    decreases |particles| - from
  {
    if from < |particles| {
      PairsRedirect(particles, from + 1);
      RowRedirect(particles, from, from + 1);
      RedirectConcat(RowCalls(particles, from, from + 1), PairCallsFrom(particles, from + 1), particles[2]);
    }
  }

  /**
   * As written, the pair loop makes as many calls as the intended one, in
   * the same order of `i < j`: call `k` hands over the first particle of the
   * `k`-th pair and, in place of the second, `particles[2]`.
   */
  lemma PairCallsAsWrittenShape(particles: seq<Option<Body>>)
    requires |particles| > 2
    ensures PairCallsAsWritten(particles).Ok?
    ensures |PairCallsAsWritten(particles).value| == |Upper(|particles|)|
    ensures forall k :: 0 <= k < |Upper(|particles|)| ==>
      Upper(|particles|)[k].0 < |particles| &&
      PairCallsAsWritten(particles).value[k] == VisitPair(particles[Upper(|particles|)[k].0], particles[2])
  {
    PairsRedirect(particles, 0);
    PairCallsOnce(particles);
  }

  /**
   * `iterate(CompoundVisitor&)`: every single visit, then the pair loop,
   * which as written repeats the `_particles[2]` of `iterate(PairVisitor&)`.
   */
  method IterateCompound(particles: seq<Option<Body>>) returns (r: Result<seq<Call>>)
    ensures PairCallsAsWritten(particles).Ok? ==> r == Ok(SingleCalls(particles) + PairCallsAsWritten(particles).value)
    ensures PairCallsAsWritten(particles).Err? ==> r == Err(Undefined)
  {
    var singles := Iterate(particles);
    var pairs := IteratePairsAsWritten(particles);
    if pairs.Err? {
      return Err(pairs.error);
    }
    r := Ok(singles + pairs.value);
  }

  /** `iterate(CompoundVisitor&)` with its pair loop corrected to `_particles[j]`. */
  method IterateCompoundCorrected(particles: seq<Option<Body>>) returns (calls: seq<Call>)
    ensures calls == SingleCalls(particles) + PairCalls(particles)
  {
    var singles := Iterate(particles);
    var pairs := IteratePairs(particles);
    calls := singles + pairs;
  }

  /** No single visit comes after a pair visit. */
  predicate SinglesFirst(calls: seq<Call>) {
    forall a, b :: 0 <= a < b < |calls| && calls[b].Visit? ==> calls[a].Visit?
  }

  /** Singles followed by calls that are all pair visits keep the singles first. */
  lemma SinglesThenPairs(particles: seq<Option<Body>>, pairs: seq<Call>)
    requires forall k :: 0 <= k < |pairs| ==> pairs[k].VisitPair?
    ensures SinglesFirst(SingleCalls(particles) + pairs)
  {
    var calls := SingleCalls(particles) + pairs;
    forall b | |SingleCalls(particles)| <= b < |calls| ensures calls[b].VisitPair? {
      assert calls[b] == pairs[b - |SingleCalls(particles)|];
    }
  }

  /**
   * In the compound order, as written and corrected, all single visits come
   * before any pair visit.
   */
  lemma CompoundOrder(particles: seq<Option<Body>>)
    ensures PairCallsAsWritten(particles).Ok? ==> SinglesFirst(SingleCalls(particles) + PairCallsAsWritten(particles).value)
    ensures SinglesFirst(SingleCalls(particles) + PairCalls(particles))
  {
    PairCallsFromVisits(particles, 0);
    SinglesThenPairs(particles, PairCalls(particles));
    if |particles| > 2 {
      PairCallsAsWrittenShape(particles);
      SinglesThenPairs(particles, PairCallsAsWritten(particles).value);
    } else if |particles| < 2 {
      SinglesThenPairs(particles, []);
    }
  }

}
