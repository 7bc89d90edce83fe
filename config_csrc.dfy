/**
 * The configuration reader of the second-generation simulator: a
 * `Version=` line, one line of seven comma-separated encoded doubles per
 * body, and an `End` line.  The file is seen as the lines `getline` returns.
 */
module ConfigCsrc {
  import opened Wrappers
  import opened Strings
  import opened Codec
  import opened Bodies

  /** A particle of this generation carries its index as its id. */
  datatype Particle = Particle(body: Body, id: int)

  /**
   * A loaded configuration: `_version` and the `_n` slots of `_particles`;
   * a slot the file never fills stays `None`.
   */
  datatype Configuration = Configuration(version: string, particles: seq<Option<Particle>>)

  /** How one line moves `_get_line_count`'s counter. */
  function LineWeight(line: string): int {
    (if '=' in line then 0 else 1) - (if StartsWith(line, "End") then 1 else 0)
  }

  /** The counter after the given lines. */
  function Tally(lines: seq<string>): int {
    if lines == [] then 0 else Tally(lines[..|lines| - 1]) + LineWeight(lines[|lines| - 1])
  }

  /** The file ends cleanly: its last line starts with `End`. */
  predicate Ended(lines: seq<string>) {
    lines != [] && StartsWith(lines[|lines| - 1], "End")
  }

  /**
   * `_get_line_count`: lines without `=` are counted and every `End` line
   * is taken off again; `logic_error` when the last line is not `End`;
   * the result is the count plus 6.
   */
  function LineCount(lines: seq<string>): (r: Result<int>)
    ensures r.Ok? <==> Ended(lines)
    ensures r.Err? ==> r.error == LogicError
    ensures r.Ok? ==> r.value == Tally(lines) + 6
  {
    if Ended(lines) then Ok(Tally(lines) + 6) else Err(LogicError)
  }

  /** The counting loop of `_get_line_count`. */
  method GetLineCount(lines: seq<string>) returns (r: Result<int>)
    ensures r == LineCount(lines)
  {
    var lineCount := 0;
    var ended := false;
    var i := 0;
    while i < |lines|
      invariant 0 <= i <= |lines|
      invariant lineCount == Tally(lines[..i])
      invariant ended <==> i > 0 && StartsWith(lines[i - 1], "End")
    {
      var line := lines[i];
      if '=' !in line {
        lineCount := lineCount + 1;
      }
      ended := StartsWith(line, "End");
      if ended {
        lineCount := lineCount - 1;
      }
      i := i + 1;
      assert lines[..i][..i - 1] == lines[..i - 1];
    }
    assert lines[..|lines|] == lines;
    if !ended {
      return Err(LogicError);
    }
    return Ok(lineCount + 5 + 1);
  }

  /** A body line: no `=`, seven fields, not `End`. */
  predicate IsBodyLine(line: string) {
    '=' !in line && !StartsWith(line, "End")
  }

  /** A line of a file shaped as written: a key line, a body line, or an `End` line without `=`. */
  predicate Shaped(line: string) {
    IsBodyLine(line) || ('=' in line && !StartsWith(line, "End")) || ('=' !in line && StartsWith(line, "End"))
  }

  /**
   * On a file shaped as written — key lines with `=`, body lines, and `End`
   * lines — the counter is the number of body lines, and when the last line
   * is `End` the count is that number plus 6, so `_n` is the number of bodies.
   */
  lemma {:induction false} TallyCountsBodyLines(lines: seq<string>)
    requires forall k :: 0 <= k < |lines| ==> Shaped(lines[k])
    ensures Tally(lines) == |BodyLines(lines)|
    ensures Ended(lines) ==> LineCount(lines) == Ok(|BodyLines(lines)| + 6)
  {
    if lines != [] {
      TallyCountsBodyLines(lines[..|lines| - 1]);
    }
  }

  /** The lines that `_get_line_count` counts as bodies. */
  function BodyLines(lines: seq<string>): (r: seq<string>)
    ensures |r| <= |lines|
  {
    if lines == [] then []
    else BodyLines(lines[..|lines| - 1]) + (if IsBodyLine(lines[|lines| - 1]) then [lines[|lines| - 1]] else [])
  }

  /** What the reading loop has built so far. */
  datatype Cursor = Cursor(version: string, index: nat, particles: seq<Option<Particle>>)

  /**
   * One line before `End`: split on `=` and `,` keeping empty tokens; a
   * `Version` line stores its value; any other line must have seven tokens
   * (`logic_error`), and becomes particle `index`.
   */
  function ReadLine(c: Cursor, line: string): (r: Result<Cursor>)
    ensures r.Ok? ==> |r.value.particles| == |c.particles|
    ensures r.Ok? ==> r.value.index == c.index || r.value.index == c.index + 1
  {
    var tokens := Fields(line, "=,");
    if tokens[0] == "Version" then
      if |tokens| < 2 then Err(Undefined) else Ok(c.(version := tokens[1]))
    else if |tokens| != 7 then Err(LogicError)
    else
      var body :- DecodeBody(tokens);
      if c.index >= |c.particles| then Err(Undefined)
      else Ok(c.(index := c.index + 1, particles := c.particles[c.index := Some(Particle(body, c.index))]))
  }

  /** The reading loop: every line up to the first that starts with `End`. */
  function ReadLines(c: Cursor, lines: seq<string>): (r: Result<Cursor>)
    ensures r.Ok? ==> |r.value.particles| == |c.particles|
    decreases |lines|
  {
    if lines == [] || StartsWith(lines[0], "End") then Ok(c)
    else
      var c' :- ReadLine(c, lines[0]);
      ReadLines(c', lines[1..])
  }

  /** One line before `End` that reads cleanly hands the rest to the loop. */
  lemma ReadLinesStep(c: Cursor, lines: seq<string>, next: Cursor)
    requires lines != [] && !StartsWith(lines[0], "End")
    requires ReadLine(c, lines[0]) == Ok(next)
    ensures ReadLines(c, lines) == ReadLines(next, lines[1..])
  {
  }

  /** The slots before anything is read. */
  function Empty(n: int): (c: Cursor)
    requires n >= 0
    ensures |c.particles| == n && c.index == 0
  {
    Cursor("", 0, seq(n, _ => None))
  }

  /**
   * `Configuration(file_name)`: `invalid_argument` when the file cannot be
   * opened (`None`), then `_n = _get_line_count() - 6` slots, then the
   * reading loop.
   */
  function Read(file: Option<string>): (r: Result<Configuration>)
    ensures file.None? ==> r == Err(InvalidArgument)
  {
    match file
    case None => Err(InvalidArgument)
    case Some(text) =>
      var lines := GetlineLines(text);
      var count :- LineCount(lines);
      if count - 6 < 0 then Err(BadArrayLength)
      else
        var c :- ReadLines(Empty(count - 6), lines);
        Ok(Configuration(c.version, c.particles))
  }

  /**
   * The constructor as the C++ writes it: the count, an array of `_n`
   * slots, and a `getline` loop that fills slot `index` for each body line.
   */
  method Load(file: Option<string>) returns (r: Result<Configuration>)
    ensures r == Read(file)
  {
    if file.None? {
      return Err(InvalidArgument);
    }
    var lines := GetlineLines(file.value);
    var count := GetLineCount(lines);
    if count.Err? {
      return Err(count.error);
    }
    var n := count.value - 6;
    if n < 0 {
      return Err(BadArrayLength);
    }
    var slots := new Option<Particle>[n](_ => None);
    assert slots[..] == Empty(n).particles;
    var version := "";
    var index: nat := 0;
    var i := 0;
    while i < |lines| && !StartsWith(lines[i], "End")
      invariant 0 <= i <= |lines| && index <= slots.Length
      invariant ReadLines(Empty(n), lines) == ReadLines(Cursor(version, index, slots[..]), lines[i..])
      decreases |lines| - i
    {
      assert lines[i..][0] == lines[i] && lines[i..][1..] == lines[i + 1..];
      ghost var c := Cursor(version, index, slots[..]);
      var step := ReadInto(slots, version, index, lines[i]);
      if step.Err? {
        return Err(step.error);
      }
      version, index := step.value.version, step.value.index;
      ReadLinesStep(c, lines[i..], step.value);
      i := i + 1;
    }
    assert i < |lines| ==> lines[i..][0] == lines[i];
    return Ok(Configuration(version, slots[..]));
  }

  /**
   * The body of the `getline` loop for one line before `End`, storing a
   * body line's particle in `slots[index]`.
   */
  method ReadInto(slots: array<Option<Particle>>, version: string, index: nat, line: string) returns (r: Result<Cursor>)
    modifies slots
    ensures r == ReadLine(Cursor(version, index, old(slots[..])), line)
    ensures r.Ok? ==> slots[..] == r.value.particles
  {
    var tokens := Split(line, "=,", true);
    if tokens[0] == "Version" {
      if |tokens| < 2 {
        return Err(Undefined);
      }
      return Ok(Cursor(tokens[1], index, slots[..]));
    }
    if |tokens| != 7 {
      return Err(LogicError);
    }
    var body := DecodeRecord(tokens);
    if body.Err? {
      return Err(body.error);
    }
    if index >= slots.Length {
      return Err(Undefined);
    }
    slots[index] := Some(Particle(body.value, index));
    return Ok(Cursor(version, index + 1, slots[..]));
  }

  /** The particles of test constructor `Configuration(n, params)`. */
  function ParamsParticles(params: seq<Bits64>, n: nat): (ps: seq<Option<Particle>>)
    requires |params| >= 7 * n
    ensures |ps| == n
  {
    seq(n, k requires 0 <= k < n => Some(Particle(OfFields(params[7 * k..7 * k + 7]), k)))
  }

  /**
   * `Configuration(n, particles[])`: particle `index` reads
   * `particles[7*index .. 7*index+6]` in file order and gets id `index`.
   */
  method FromParams(n: nat, params: array<Bits64>) returns (particles: seq<Option<Particle>>)
    requires params.Length >= 7 * n
    ensures particles == ParamsParticles(params[..], n)
  {
    var slots := new Option<Particle>[n](_ => None);
    for index := 0 to n
      invariant forall k :: 0 <= k < index ==> slots[k] == ParamsParticles(params[..], n)[k]
    {
      var position := Vec3(params[7 * index], params[7 * index + 1], params[7 * index + 2]);
      var mass := params[7 * index + 3];
      var velocity := Vec3(params[7 * index + 4], params[7 * index + 5], params[7 * index + 6]);
      slots[index] := Some(Particle(Body(position, mass, velocity), index));
    }
    particles := slots[..];
  }

  /** Parameters laid out as the bodies' fields give those bodies, numbered in order. */
  lemma ParamsFlatten(bodies: seq<Body>)
    ensures ParamsParticles(Flatten(bodies), |bodies|) ==
      seq(|bodies|, k requires 0 <= k < |bodies| => Some(Particle(bodies[k], k)))
  {
    forall k | 0 <= k < |bodies|
      ensures ParamsParticles(Flatten(bodies), |bodies|)[k] == Some(Particle(bodies[k], k))
    {
      ParamsFlattenAt(bodies, k);
    }
  }

  lemma ParamsFlattenAt(bodies: seq<Body>, k: nat)
    requires k < |bodies|
    ensures ParamsParticles(Flatten(bodies), |bodies|)[k] == Some(Particle(bodies[k], k))
  {
    FlattenBlock(bodies, k);
    OfToFields(bodies[k]);
  }
}
