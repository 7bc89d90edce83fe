/**
 * The configuration object of the first-generation simulator: saving a
 * restart file, restoring it with a line-by-line state machine, extracting
 * one body from a comma-separated line, choosing the model factory, the
 * gate that decides whether the centre of mass is zeroed, and the fix that
 * makes the output path end with a slash.
 */
module Configs0 {
  import opened Wrappers
  import opened Strings
  import opened Numerals
  import opened Codec
  import opened Bodies

  /** `Configuration::Plummer`, the only value of `enum Model`. */
  const PLUMMER: int := 0

  /** The 64-bit patterns of the default doubles 0.5, 1e-2 and 1.0. */
  const HALF: Bits64 := 0x3FE0_0000_0000_0000
  const ONE_HUNDREDTH: Bits64 := 0x3F84_7AE1_47AE_147B
  const ONE: Bits64 := 0x3FF0_0000_0000_0000

  /** The factory `_createFactory` returns. */
  datatype Factory = PlummerFactory(numbodies: int, iniRadius: Bits64, a: Bits64, m: Bits64, seed: int)

  /** The states of `restore_config`, in the order a file runs through them. */
  datatype State = ExpectVersion | ExpectIteration | ExpectTheta | ExpectG | ExpectDt | ExpectBody | ExpectEof

  /** What `restore_config` has changed so far: its state, `iter`, the three doubles and `particles`. */
  datatype Restored = Restored(state: State, iter: int, theta: Bits64, g: Bits64, dt: Bits64, particles: seq<Body>)

  /** How `restore_config` ended: its return value or exception, and the state it left behind. */
  datatype Outcome = Outcome(result: Result<bool>, restored: Restored)

  /** One line of the restore loop: go on, or leave with a result. */
  datatype Step = Next(restored: Restored) | Finish(outcome: Outcome)

  /**
   * `line.substr(1 + line.find("="))`: the text after the first `=`; when
   * there is none, `npos + 1` wraps to 0 and the whole line is taken.
   */
  function AfterEquals(line: string): (token: string)
    ensures '=' !in line ==> token == line
    ensures '=' in line ==> exists k :: 0 <= k < |line| && line[k] == '=' && '=' !in line[..k] && token == line[k + 1..]
  {
    var pos := FindFirstOf(line, "=", 0);
    FindFirstOfOne(line, '=');
    if pos < |line| then line[pos + 1..] else line
  }

  /**
   * `line.find(",")` stored in an `int` (so `npos` is -1): the text before
   * the comma and the text after it; with no comma both are the whole line.
   */
  function NextToken(line: string): (r: (string, string))
    ensures ',' !in line ==> r == (line, line)
    ensures |r.1| <= |line|
  {
    var pos := FindFirstOf(line, ",", 0);
    FindFirstOfOne(line, ',');
    if pos < |line| then (line[..pos], line[pos + 1..]) else (line, line)
  }

  /** The tokens `count` rounds of `extract_particle`'s loop cut from the line. */
  function Cuts(line: string, count: nat): (ts: seq<string>)
    ensures |ts| == count
  {
    if count == 0 then []
    else
      var (token, rest) := NextToken(line);
      [token] + Cuts(rest, count - 1)
  }

  /**
   * `extract_particle(line)`: the seven tokens decoded in the order x, y, z,
   * m, vx, vy, vz; the first that `decode` refuses decides the error.
   */
  function Extract(line: string): (r: Result<Body>) {
    var f :- DecodeFields(Cuts(line, 7));
    Ok(OfFields(f))
  }

  /** `extract_particle` as the C++ writes it: a state counter walks the seven fields. */
  method ExtractParticle(line: string) returns (r: Result<Body>)
    ensures r == Extract(line)
  {
    ghost var tokens := Cuts(line, 7);
    var rest := line;
    var values: seq<Bits64> := [];
    var field := 0;
    while field < 7
      invariant 0 <= field <= 7
      invariant |tokens| == 7 && Remaining(tokens, field, rest)
      invariant DecodeFields(tokens[..field]) == Ok(values)
    {
      var token, next := NextToken(rest).0, NextToken(rest).1;
      CutsStep(tokens, field, rest);
      var value := Decode(token);
      if value.Err? {
        DecodeFieldsFails(tokens, field, 7);
        assert tokens[..7] == tokens;
        return Err(value.error);
      }
      DecodeFieldsSnoc(tokens, field, values);
      values := values + [value.value];
      rest := next;
      field := field + 1;
    }
    assert tokens[..7] == tokens;
    return Ok(OfFields(values));
  }

  /** The tokens from `field` on are the ones the rest of the line gives. */
  predicate Remaining(tokens: seq<string>, field: nat, rest: string) {
    field <= |tokens| == 7 && tokens[field..] == Cuts(rest, 7 - field)
  }

  /** One round of the loop cuts the next token of what is left of the line. */
  lemma CutsStep(tokens: seq<string>, field: nat, rest: string)
    requires field < 7 && |tokens| == 7 && Remaining(tokens, field, rest)
    ensures tokens[field] == NextToken(rest).0 && Remaining(tokens, field + 1, NextToken(rest).1)
  {
    assert tokens[field..][0] == tokens[field] && tokens[field..][1..] == tokens[field + 1..];
  }

  /** One line of the restore loop in state `r.state`. */
  function StepLine(r: Restored, line: string): Step {
    match r.state
    case ExpectVersion => Next(r.(state := ExpectIteration))
    case ExpectIteration =>
      (match Atoi(AfterEquals(line))
       case Err(e) => Finish(Outcome(Err(e), r))
       case Ok(v) => Next(r.(state := ExpectTheta, iter := v)))
    case ExpectTheta =>
      (match Decode(AfterEquals(line))
       case Err(e) => Finish(Outcome(Err(e), r))
       case Ok(v) => Next(r.(state := ExpectG, theta := v)))
    case ExpectG =>
      (match Decode(AfterEquals(line))
       case Err(e) => Finish(Outcome(Err(e), r))
       case Ok(v) => Next(r.(state := ExpectDt, g := v)))
    case ExpectDt =>
      (match Decode(AfterEquals(line))
       case Err(e) => Finish(Outcome(Err(e), r))
       case Ok(v) => Next(r.(state := ExpectBody, dt := v)))
    case ExpectBody =>
      if StartsWith(line, "End") then Next(r.(state := ExpectEof))
      else
        (match Extract(line)
         case Err(e) => Finish(Outcome(Err(e), r))
         case Ok(b) => Next(r.(particles := r.particles + [b])))
    case ExpectEof =>
      if |line| > 0 then Finish(Outcome(Ok(false), r)) else Next(r)
  }

  /** The `while (!eof)` loop over the lines, then `return state == expect_eof`. */
  function RestoreLines(r: Restored, lines: seq<string>): Outcome
    decreases |lines|
  {
    if lines == [] then Outcome(Ok(r.state == ExpectEof), r)
    else
      match StepLine(r, lines[0])
      case Next(r') => RestoreLines(r', lines[1..])
      case Finish(out) => out
  }

  /** `path + config_file_name`, with `~` appended for the backup. */
  function ConfigFileName(path: string, name: string, useBackup: bool): string {
    path + name + (if useBackup then "~" else "")
  }

  /**
   * `restore_config`: `false` when the file does not exist; otherwise the
   * state machine over the lines a `while (!eof)` loop reads.
   */
  function Restore(files: map<string, string>, fileName: string,
                   iter: int, theta: Bits64, g: Bits64, dt: Bits64, particles: seq<Body>): (out: Outcome)
    ensures fileName !in files ==> out.result == Ok(false) && out.restored.particles == particles
  {
    var start := Restored(ExpectVersion, iter, theta, g, dt, particles);
    if fileName !in files then Outcome(Ok(false), start)
    else RestoreLines(start, EofLines(files[fileName]))
  }

  /** `save_config`'s line for one body: the seven encoded fields joined by commas. */
  function BodyLine(b: Body): string {
    JoinWith(EncodeAll(ToFields(b)), ',')
  }

  /** One line per body, in order. */
  function BodyLines(bodies: seq<Body>): (ls: seq<string>)
    ensures |ls| == |bodies|
    ensures forall k :: 0 <= k < |bodies| ==> ls[k] == BodyLine(bodies[k])
  {
    if bodies == [] then [] else [BodyLine(bodies[0])] + BodyLines(bodies[1..])
  }

  /** The five header lines `save_config` writes. */
  function Header(version: string, iter: int, theta: Bits64, g: Bits64, dt: Bits64): (h: seq<string>)
    ensures |h| == 5
  {
    ["Version=" + version, "iteration=" + SignedDecimal(iter),
     "theta=" + Encode(theta), "G=" + Encode(g), "dt=" + Encode(dt)]
  }

  /** The lines `save_config` writes. */
  function SavedLines(version: string, iter: int, theta: Bits64, g: Bits64, dt: Bits64, bodies: seq<Body>): (ls: seq<string>)
    ensures |ls| == |bodies| + 6
  {
    Header(version, iter, theta, g, dt) + BodyLines(bodies) + ["End"]
  }

  /**
   * The files after `save_config`: `backup` copies an existing file to
   * `name~`, then the new text replaces the file.
   */
  function Saved(files: map<string, string>, name: string, text: string): (r: map<string, string>)
    ensures name in r && r[name] == text
    ensures name in files ==> name + "~" in r && r[name + "~"] == files[name]
    ensures forall f :: f in files && f != name && f != name + "~" ==> f in r && r[f] == files[f]
    ensures forall f :: f in r ==> f in files || f == name || f == name + "~"
  {
    var backed := if name in files then files[name + "~" := files[name]] else files;
    backed[name := text]
  }

  /** `path` with a `/` appended unless it already ends with one. */
  function WithSlash(path: string): (r: string)
    ensures EndsWith(r, "/")
    ensures r == path || r == path + "/"
    ensures EndsWith(path, "/") <==> r == path
  {
    if EndsWith(path, "/") then path
    else
      EndsWithConcat(path, "/");
      path + "/"
  }

  /** Appending the slash is idempotent. */
  lemma WithSlashIdempotent(path: string)
    ensures WithSlash(WithSlash(path)) == WithSlash(path)
  {
  }

  /**
   * The gate of `zero_centre_mass_and_linear_momentum`: never when
   * `_needToZero == 0`, only when `iter <= 0` when it is 1, always otherwise.
   */
  predicate ShouldZero(needToZero: int, iter: int) {
    !(needToZero == 0) && !(needToZero == 1 && iter > 0)
  }

  /** With `-z 1` only the starting iteration is zeroed; with `-z 2` every one is. */
  lemma ShouldZeroCases(iter: nat)
    ensures !ShouldZero(0, iter)
    ensures ShouldZero(1, iter) <==> iter == 0
    ensures ShouldZero(2, iter)
  {
  }

  /** `_createFactory`: the Plummer factory for the Plummer model, `logic_error` for any other. */
  function CreateFactory(model: int, numbodies: int, iniRadius: Bits64, a: Bits64, m: Bits64, seed: int): (r: Result<Factory>)
    ensures r.Ok? <==> model == PLUMMER
    ensures r.Err? ==> r.error == LogicError
    ensures r.Ok? ==> r.value == PlummerFactory(numbodies, iniRadius, a, m, seed)
  {
    if model == PLUMMER then Ok(PlummerFactory(numbodies, iniRadius, a, m, seed)) else Err(LogicError)
  }

  /** The fields of `Configuration` that these operations read and write. */
  class Configuration {
    var configVersion: string
    var theta: Bits64
    var g: Bits64
    var dt: Bits64
    var needToZero: int
    var path: string
    var configFileName: string

    /** The declared defaults. */
    constructor ()
      ensures configVersion == "1.0" && theta == HALF && dt == ONE_HUNDREDTH && g == ONE
      ensures needToZero == 2 && path == "./configs" && configFileName == "config.txt"
    {
      configVersion := "1.0";
      theta := HALF;
      dt := ONE_HUNDREDTH;
      g := ONE;
      needToZero := 2;
      path := "./configs";
      configFileName := "config.txt";
    }

    /** The end of `extract_options`: `_path` gets its trailing slash. */
    method FixPath()
      modifies this
      ensures path == WithSlash(old(path))
      ensures configVersion == old(configVersion) && theta == old(theta) && g == old(g) && dt == old(dt)
      ensures needToZero == old(needToZero) && configFileName == old(configFileName)
    {
      if !EndsWith(path, "/") {
        path := path + "/";
      }
    }

    /**
     * `save_config(bodies, iter)`: the file name and the text written,
     * header, one line per body, `End`.
     */
    method SaveConfig(files: map<string, string>, bodies: seq<Body>, iter: int)
      returns (files': map<string, string>, fileName: string, text: string)
      ensures fileName == ConfigFileName(path, configFileName, false)
      ensures text == Unlines(SavedLines(configVersion, iter, theta, g, dt, bodies))
      ensures files' == Saved(files, fileName, text)
    {
      fileName := path + configFileName;
      assert fileName == ConfigFileName(path, configFileName, false);
      ghost var ls := SavedLines(configVersion, iter, theta, g, dt, bodies);
      var version := "Version=" + configVersion;
      var iteration := "iteration=" + SignedDecimal(iter);
      var th := "theta=" + Encode(theta);
      var gravity := "G=" + Encode(g);
      var step := "dt=" + Encode(dt);
      text := version + "\n" + iteration + "\n" + th + "\n" + gravity + "\n" + step + "\n";
      SavedLinesShape(configVersion, iter, theta, g, dt, bodies);
      UnlinesFive(version, iteration, th, gravity, step);
      for i := 0 to |bodies|
        invariant text == Unlines(ls[..5 + i])
      {
        UnlinesSnoc(ls[..5 + i], ls[5 + i]);
        TakeSnoc(ls, 5 + i);
        text := text + BodyLine(bodies[i]) + "\n";
      }
      UnlinesSnoc(ls[..5 + |bodies|], "End");
      TakeSnoc(ls, 5 + |bodies|);
      text := text + "End\n";
      files' := if fileName in files then files[fileName + "~" := files[fileName]] else files;
      files' := files'[fileName := text];
    }

    /**
     * `restore_config(particles, iter, use_backup)`: runs the state
     * machine, assigning `_theta`, `_G` and `_dt` and appending to
     * `particles` as it goes.
     */
    method RestoreConfig(files: map<string, string>, particles: seq<Body>, iter: int, useBackup: bool)
      returns (result: Result<bool>, particles': seq<Body>, iter': int)
      modifies this
      ensures var out := Restore(files, ConfigFileName(old(path), old(configFileName), useBackup),
                                 iter, old(theta), old(g), old(dt), particles);
        result == out.result && particles' == out.restored.particles && iter' == out.restored.iter &&
        theta == out.restored.theta && g == out.restored.g && dt == out.restored.dt
      ensures configVersion == old(configVersion) && needToZero == old(needToZero)
      ensures path == old(path) && configFileName == old(configFileName)
    {
      var fileName := path + configFileName + (if useBackup then "~" else "");
      assert fileName == ConfigFileName(path, configFileName, useBackup);
      ghost var goal := Restore(files, fileName, iter, theta, g, dt, particles);
      particles', iter' := particles, iter;
      if fileName !in files {
        return Ok(false), particles', iter';
      }
      var lines := EofLines(files[fileName]);
      var state := ExpectVersion;
      var i := 0;
      while i < |lines|
        invariant 0 <= i <= |lines|
        invariant goal == RestoreLines(Restored(state, iter', theta, g, dt, particles'), lines[i..])
        invariant configVersion == old(configVersion) && needToZero == old(needToZero)
        invariant path == old(path) && configFileName == old(configFileName)
      {
        ghost var here := Restored(state, iter', theta, g, dt, particles');
        assert lines[i..][0] == lines[i] && lines[i..][1..] == lines[i + 1..];
        var step := ReadLine(state, lines[i], iter', particles');
        if step.Finish? {
          return step.outcome.result, step.outcome.restored.particles, step.outcome.restored.iter;
        }
        RestoreStep(here, lines[i..], step.restored);
        state, iter', particles' := step.restored.state, step.restored.iter, step.restored.particles;
        i := i + 1;
      }
      assert lines[i..] == [];
      return Ok(state == ExpectEof), particles', iter';
    }

    /**
     * One pass of `restore_config`'s loop body: the `switch` on the state
     * for one line, assigning `_theta`, `_G` or `_dt` when their line is read.
     */
    method ReadLine(state: State, line: string, iter: int, particles: seq<Body>) returns (step: Step)
      modifies this
      ensures step == StepLine(Restored(state, iter, old(theta), old(g), old(dt), particles), line)
      ensures step.Next? ==> theta == step.restored.theta && g == step.restored.g && dt == step.restored.dt
      ensures step.Finish? ==> theta == old(theta) && g == old(g) && dt == old(dt)
      ensures step.Finish? ==> step.outcome.restored == Restored(state, iter, theta, g, dt, particles)
      ensures configVersion == old(configVersion) && needToZero == old(needToZero)
      ensures path == old(path) && configFileName == old(configFileName)
    {
      var here := Restored(state, iter, theta, g, dt, particles);
      match state {
        case ExpectVersion =>
          return Next(here.(state := ExpectIteration));
        case ExpectIteration =>
          var v := Atoi(AfterEquals(line));
          if v.Err? { return Finish(Outcome(Err(v.error), here)); }
          return Next(here.(state := ExpectTheta, iter := v.value));
        case ExpectTheta =>
          var v := Decode(AfterEquals(line));
          if v.Err? { return Finish(Outcome(Err(v.error), here)); }
          theta := v.value;
          return Next(here.(state := ExpectG, theta := v.value));
        case ExpectG =>
          var v := Decode(AfterEquals(line));
          if v.Err? { return Finish(Outcome(Err(v.error), here)); }
          g := v.value;
          return Next(here.(state := ExpectDt, g := v.value));
        case ExpectDt =>
          var v := Decode(AfterEquals(line));
          if v.Err? { return Finish(Outcome(Err(v.error), here)); }
          dt := v.value;
          return Next(here.(state := ExpectBody, dt := v.value));
        case ExpectBody =>
          if StartsWith(line, "End") {
            return Next(here.(state := ExpectEof));
          }
          var b := ExtractParticle(line);
          if b.Err? { return Finish(Outcome(Err(b.error), here)); }
          return Next(here.(particles := particles + [b.value]));
        case ExpectEof =>
          if |line| > 0 { return Finish(Outcome(Ok(false), here)); }
          return Next(here);
      }
    }
  }

  lemma UnlinesFive(a: string, b: string, c: string, d: string, e: string)
    ensures Unlines([a, b, c, d, e]) == a + "\n" + b + "\n" + c + "\n" + d + "\n" + e + "\n"
  {
    assert [e][1..] == [];
    assert Unlines([e]) == e + "\n";
    assert [d, e][1..] == [e];
    assert Unlines([d, e]) == d + "\n" + (e + "\n");
    assert [c, d, e][1..] == [d, e];
    assert Unlines([c, d, e]) == c + "\n" + (d + "\n" + (e + "\n"));
    assert [b, c, d, e][1..] == [c, d, e];
    assert Unlines([b, c, d, e]) == b + "\n" + (c + "\n" + (d + "\n" + (e + "\n")));
    assert [a, b, c, d, e][1..] == [b, c, d, e];
  }

  /** A key ending in its only `=`: the value is what follows. */
  lemma AfterEqualsKey(key: string, value: string)
    requires |key| >= 1 && key[|key| - 1] == '=' && '=' !in key[..|key| - 1]
    ensures AfterEquals(key + value) == value
  {
    var line := key + value;
    var pos := |key| - 1;
    forall k | 0 <= k < pos ensures line[k] !in "=" { assert line[k] == key[..pos][k]; }
    FindFirstOfAt(line, "=", 0, pos);
    assert line[pos + 1..] == value;
  }

  /** A joined line splits at the first comma into its first token and the rest. */
  lemma NextTokenJoin(ts: seq<string>)
    requires |ts| >= 1
    requires forall k :: 0 <= k < |ts| ==> Free(ts[k], ",")
    ensures NextToken(JoinWith(ts, ',')) == if |ts| == 1 then (ts[0], ts[0]) else (ts[0], JoinWith(ts[1..], ','))
  {
    var line := JoinWith(ts, ',');
    if |ts| == 1 {
      assert Free(ts[0], ",");
    } else {
      var head, rest := ts[0], JoinWith(ts[1..], ',');
      assert line == head + [','] + rest;
      assert Free(head, ",");
      forall k | 0 <= k < |head| ensures line[k] !in "," { assert line[k] == head[k]; }
      FindFirstOfAt(line, ",", 0, |head|);
      assert line[..|head|] == head && line[|head| + 1..] == rest;
    }
  }

  /** `extract_particle`'s loop cuts a comma-joined line back into its tokens. */
  lemma {:induction false} CutsJoin(ts: seq<string>)
    requires |ts| >= 1
    requires forall k :: 0 <= k < |ts| ==> Free(ts[k], ",")
    ensures Cuts(JoinWith(ts, ','), |ts|) == ts
  {
    if |ts| > 1 {
      FreeTail(ts, ",");
      CutsJoin(ts[1..]);
    }
    CutsJoinStep(ts);
  }

  /** The tokens after the first are free of `chars` too. */
  lemma FreeTail(ts: seq<string>, chars: string)
    requires |ts| >= 1 && forall k :: 0 <= k < |ts| ==> Free(ts[k], chars)
    ensures forall k :: 0 <= k < |ts[1..]| ==> Free(ts[1..][k], chars)
  {
    forall k | 0 <= k < |ts[1..]| ensures Free(ts[1..][k], chars) {
      assert ts[1..][k] == ts[k + 1];
    }
  }

  /** One round of the loop: the first token is cut, and the rest is the line joined from the others. */
  lemma CutsJoinStep(ts: seq<string>)
    requires |ts| >= 1
    requires forall k :: 0 <= k < |ts| ==> Free(ts[k], ",")
    requires |ts| > 1 ==> Cuts(JoinWith(ts[1..], ','), |ts| - 1) == ts[1..]
    ensures Cuts(JoinWith(ts, ','), |ts|) == ts
  {
    NextTokenJoin(ts);
    if |ts| == 1 {
      assert Cuts(JoinWith(ts, ','), 1) == [ts[0]] + Cuts(ts[0], 0);
    } else {
      assert Cuts(JoinWith(ts, ','), |ts|) == [ts[0]] + Cuts(JoinWith(ts[1..], ','), |ts| - 1);
      assert ts == [ts[0]] + ts[1..];
    }
  }

  /** The digits `encode` writes hold no comma, newline or `=`. */
  lemma EncodeFree(b: Bits64)
    ensures Free(Encode(b), ",") && Free(Encode(b), "\n") && Free(Encode(b), "=")
  {
  }

  /** `extract_particle` reads back the line `save_config` writes for a body. */
  lemma ExtractBodyLine(b: Body)
    ensures Extract(BodyLine(b)) == Ok(b)
  {
    var fs := ToFields(b);
    var ts := EncodeAll(fs);
    forall k | 0 <= k < 7 ensures Free(ts[k], ",") { EncodeFree(fs[k]); }
    CutsJoin(ts);
    DecodeEncodedFields(fs);
  }

  /**
   * A line without commas is cut into the same token seven times, so a
   * single value fills every field.
   */
  lemma ExtractRepeats(token: string, v: Bits64)
    requires Free(token, ",") && Decode(token) == Ok(v)
    ensures Extract(token) == Ok(Body(Vec3(v, v, v), v, Vec3(v, v, v)))
  {
    assert ',' !in token by {
      forall k | 0 <= k < |token| ensures token[k] != ',' { assert token[k] !in ","; }
    }
    CutsSame(token, 7);
    var fs := [v, v, v, v, v, v, v];
    DecodeFieldsExact(Cuts(token, 7), fs);
  }

  lemma {:induction false} CutsSame(token: string, n: nat)
    requires ',' !in token
    ensures forall k :: 0 <= k < n ==> Cuts(token, n)[k] == token
  {
    if n > 0 {
      CutsSame(token, n - 1);
      assert NextToken(token) == (token, token);
    }
  }

  /** A body line's first character is a digit, so it never starts with `End`. */
  lemma BodyLineShape(b: Body)
    ensures !StartsWith(BodyLine(b), "End")
    ensures IsLine(BodyLine(b))
  {
    var ts := EncodeAll(ToFields(b));
    forall k | 0 <= k < 7 ensures Free(ts[k], "\n") { EncodeFree(ToFields(b)[k]); }
    JoinFree(ts, ',', "\n");
    assert BodyLine(b)[0] == ts[0][0];
  }


  /** One line that the state machine consumes without leaving. */
  lemma RestoreStep(r: Restored, lines: seq<string>, r': Restored)
    requires lines != [] && StepLine(r, lines[0]) == Next(r')
    ensures RestoreLines(r, lines) == RestoreLines(r', lines[1..])
  {
  }

  /** In state `expect_body`, a body line appends its body. */
  lemma StepBodyLine(iter: int, theta: Bits64, g: Bits64, dt: Bits64, ps: seq<Body>, b: Body)
    ensures StepLine(Restored(ExpectBody, iter, theta, g, dt, ps), BodyLine(b))
         == Next(Restored(ExpectBody, iter, theta, g, dt, ps + [b]))
  {
    BodyLineShape(b);
    ExtractBodyLine(b);
  }

  /** In state `expect_body`, body lines append their bodies in order. */
  lemma {:induction false} RestoreBodies(iter: int, theta: Bits64, g: Bits64, dt: Bits64, ps: seq<Body>,
                                         bodies: seq<Body>, rest: seq<string>)
    decreases |bodies|
    ensures RestoreLines(Restored(ExpectBody, iter, theta, g, dt, ps), BodyLines(bodies) + rest)
         == RestoreLines(Restored(ExpectBody, iter, theta, g, dt, ps + bodies), rest)
  {
    var ls := BodyLines(bodies) + rest;
    if bodies == [] {
      assert ls == rest;
      assert ps + bodies == ps;
    } else {
      var ps' := ps + [bodies[0]];
      ConsConcat(BodyLine(bodies[0]), BodyLines(bodies[1..]), rest);
      StepBodyLine(iter, theta, g, dt, ps, bodies[0]);
      RestoreStep(Restored(ExpectBody, iter, theta, g, dt, ps), ls, Restored(ExpectBody, iter, theta, g, dt, ps'));
      RestoreBodies(iter, theta, g, dt, ps', bodies[1..], rest);
      SnocConcat(ps, bodies);
    }
  }

  /** Where the header, the body lines and `End` sit among the saved lines. */
  lemma SavedLinesShape(version: string, iter: int, theta: Bits64, g: Bits64, dt: Bits64, bodies: seq<Body>)
    ensures var ls := SavedLines(version, iter, theta, g, dt, bodies);
      ls[..5] == Header(version, iter, theta, g, dt) && ls[5 + |bodies|] == "End" &&
      forall k :: 0 <= k < |bodies| ==> ls[5 + k] == BodyLine(bodies[k])
  {
    ThreeParts(Header(version, iter, theta, g, dt), BodyLines(bodies), ["End"]);
  }

  lemma ThreeParts<T>(a: seq<T>, b: seq<T>, c: seq<T>)
    ensures (a + b + c)[..|a|] == a
    ensures forall k :: 0 <= k < |b| ==> (a + b + c)[|a| + k] == b[k]
    ensures forall k :: 0 <= k < |c| ==> (a + b + c)[|a| + |b| + k] == c[k]
  {
  }

  lemma TakeSnoc<T>(s: seq<T>, i: nat)
    requires i < |s|
    ensures s[..i + 1] == s[..i] + [s[i]]
    ensures i + 1 == |s| ==> s[..i + 1] == s
  {
  }

  lemma ConsConcat<T>(x: T, xs: seq<T>, ys: seq<T>)
    ensures ([x] + xs + ys)[0] == x && ([x] + xs + ys)[1..] == xs + ys
  {
  }

  lemma SnocConcat<T>(xs: seq<T>, ys: seq<T>)
    requires ys != []
    ensures xs + [ys[0]] + ys[1..] == xs + ys
  {
  }

  /** Every line `save_config` writes is free of newlines, given a one-line version string. */
  lemma SavedLinesAreLines(version: string, iter: int, theta: Bits64, g: Bits64, dt: Bits64, bodies: seq<Body>)
    requires IsLine(version)
    ensures forall k :: 0 <= k < |SavedLines(version, iter, theta, g, dt, bodies)| ==>
      IsLine(SavedLines(version, iter, theta, g, dt, bodies)[k])
  {
    var ls := SavedLines(version, iter, theta, g, dt, bodies);
    var h := Header(version, iter, theta, g, dt);
    SavedLinesShape(version, iter, theta, g, dt, bodies);
    HeaderAreLines(version, iter, theta, g, dt);
    forall k | 0 <= k < |ls| ensures IsLine(ls[k]) {
      if k < 5 {
        assert ls[k] == ls[..5][k] == h[k];
      } else if k < 5 + |bodies| {
        BodyLineShape(bodies[k - 5]);
      }
    }
  }

  /** The header lines hold no newline, given a one-line version string. */
  lemma HeaderAreLines(version: string, iter: int, theta: Bits64, g: Bits64, dt: Bits64)
    requires IsLine(version)
    ensures forall k :: 0 <= k < 5 ==> IsLine(Header(version, iter, theta, g, dt)[k])
  {
    var h := Header(version, iter, theta, g, dt);
    SignedDecimalChars(iter);
    EncodeFree(theta);
    EncodeFree(g);
    EncodeFree(dt);
    PrefixedLine("Version=", version);
    PrefixedLine("iteration=", SignedDecimal(iter));
    PrefixedLine("theta=", Encode(theta));
    PrefixedLine("G=", Encode(g));
    PrefixedLine("dt=", Encode(dt));
  }

  lemma PrefixedLine(key: string, value: string)
    requires IsLine(key) && IsLine(value)
    ensures IsLine(key + value)
  {
    assert forall j :: |key| <= j < |key + value| ==> (key + value)[j] == value[j - |key|];
  }


  /** `expect_iteration` takes the value after `=` with `atoi`. */
  lemma StepIteration(iter0: int, theta: Bits64, g: Bits64, dt: Bits64, ps: seq<Body>, iter: int)
    requires INT_MIN <= iter <= INT_MAX
    ensures StepLine(Restored(ExpectIteration, iter0, theta, g, dt, ps), "iteration=" + SignedDecimal(iter))
         == Next(Restored(ExpectTheta, iter, theta, g, dt, ps))
  {
    AfterEqualsKey("iteration=", SignedDecimal(iter));
    AtoiSignedDecimal(iter);
  }

  /** An iteration beyond the `int` range is undefined behaviour of `atoi`, and the restore stops there. */
  lemma StepIterationTooLarge(r: Restored, iter: int)
    requires r.state == ExpectIteration && (iter < INT_MIN || INT_MAX < iter)
    ensures StepLine(r, "iteration=" + SignedDecimal(iter)) == Finish(Outcome(Err(Undefined), r))
  {
    AfterEqualsKey("iteration=", SignedDecimal(iter));
    AtoiTooLarge(iter);
  }

  /** `expect_theta` decodes the value after `=`. */
  lemma StepTheta(iter: int, theta0: Bits64, g: Bits64, dt: Bits64, ps: seq<Body>, theta: Bits64)
    ensures StepLine(Restored(ExpectTheta, iter, theta0, g, dt, ps), "theta=" + Encode(theta))
         == Next(Restored(ExpectG, iter, theta, g, dt, ps))
  {
    AfterEqualsKey("theta=", Encode(theta));
    DecodeEncode(theta);
  }

  /** `expect_g` decodes the value after `=`. */
  lemma StepG(iter: int, theta: Bits64, g0: Bits64, dt: Bits64, ps: seq<Body>, g: Bits64)
    ensures StepLine(Restored(ExpectG, iter, theta, g0, dt, ps), "G=" + Encode(g))
         == Next(Restored(ExpectDt, iter, theta, g, dt, ps))
  {
    AfterEqualsKey("G=", Encode(g));
    DecodeEncode(g);
  }

  /** `expect_dt` decodes the value after `=`. */
  lemma StepDt(iter: int, theta: Bits64, g: Bits64, dt0: Bits64, ps: seq<Body>, dt: Bits64)
    ensures StepLine(Restored(ExpectDt, iter, theta, g, dt0, ps), "dt=" + Encode(dt))
         == Next(Restored(ExpectBody, iter, theta, g, dt, ps))
  {
    AfterEqualsKey("dt=", Encode(dt));
    DecodeEncode(dt);
  }

  /**
   * The five header lines take the machine from `expect_version` to
   * `expect_body`, setting the iteration and the three parameters.
   */
  lemma RestoreHeader(version: string, iter: int, theta: Bits64, g: Bits64, dt: Bits64,
                      iter0: int, theta0: Bits64, g0: Bits64, dt0: Bits64, ps: seq<Body>, rest: seq<string>)
    requires INT_MIN <= iter <= INT_MAX
    ensures RestoreLines(Restored(ExpectVersion, iter0, theta0, g0, dt0, ps), Header(version, iter, theta, g, dt) + rest)
         == RestoreLines(Restored(ExpectBody, iter, theta, g, dt, ps), rest)
  {
    var h := Header(version, iter, theta, g, dt);
    var l0 := h + rest;
    var l1, l2, l3, l4 := l0[1..], l0[2..], l0[3..], l0[4..];
    assert l0[0] == h[0] && l1[0] == h[1] && l2[0] == h[2] && l3[0] == h[3] && l4[0] == h[4];
    assert l1 == l0[1..] && l2 == l1[1..] && l3 == l2[1..] && l4 == l3[1..] && l4[1..] == rest;
    StepIteration(iter0, theta0, g0, dt0, ps, iter);
    StepTheta(iter, theta0, g0, dt0, ps, theta);
    StepG(iter, theta, g0, dt0, ps, g);
    StepDt(iter, theta, g, dt0, ps, dt);
    RestoreStep(Restored(ExpectVersion, iter0, theta0, g0, dt0, ps), l0,
                Restored(ExpectIteration, iter0, theta0, g0, dt0, ps));
    RestoreStep(Restored(ExpectIteration, iter0, theta0, g0, dt0, ps), l1,
                Restored(ExpectTheta, iter, theta0, g0, dt0, ps));
    RestoreStep(Restored(ExpectTheta, iter, theta0, g0, dt0, ps), l2,
                Restored(ExpectG, iter, theta, g0, dt0, ps));
    RestoreStep(Restored(ExpectG, iter, theta, g0, dt0, ps), l3,
                Restored(ExpectDt, iter, theta, g, dt0, ps));
    RestoreStep(Restored(ExpectDt, iter, theta, g, dt0, ps), l4,
                Restored(ExpectBody, iter, theta, g, dt, ps));
  }

  /**
   * Restoring the text `save_config` wrote gives back its iteration, its
   * three parameters and its bodies after the particles already held, and
   * returns `true`.
   */
  lemma RestoreSavedText(version: string, iter: int, theta: Bits64, g: Bits64, dt: Bits64, bodies: seq<Body>,
                         iter0: int, theta0: Bits64, g0: Bits64, dt0: Bits64, ps: seq<Body>)
    requires IsLine(version) && INT_MIN <= iter <= INT_MAX
    ensures RestoreLines(Restored(ExpectVersion, iter0, theta0, g0, dt0, ps),
                         EofLines(Unlines(SavedLines(version, iter, theta, g, dt, bodies))))
         == Outcome(Ok(true), Restored(ExpectEof, iter, theta, g, dt, ps + bodies))
  {
    var ls := SavedLines(version, iter, theta, g, dt, bodies);
    SavedLinesAreLines(version, iter, theta, g, dt, bodies);
    EofLinesUnlines(ls);
    var tail := ["End", ""];
    var afterHeader := BodyLines(bodies) + tail;
    assert ls + [""] == Header(version, iter, theta, g, dt) + afterHeader;
    RestoreHeader(version, iter, theta, g, dt, iter0, theta0, g0, dt0, ps, afterHeader);
    RestoreBodies(iter, theta, g, dt, ps, bodies, tail);
    RestoreEnd(Restored(ExpectBody, iter, theta, g, dt, ps + bodies));
  }

  /** `End` and the empty piece after the last newline finish the file cleanly. */
  lemma RestoreEnd(r: Restored)
    requires r.state == ExpectBody
    ensures RestoreLines(r, ["End", ""]) == Outcome(Ok(true), r.(state := ExpectEof))
  {
    var r' := r.(state := ExpectEof);
    assert ["End", ""][1..] == [""] && [""][1..] == [];
    assert StepLine(r, "End") == Next(r');
    assert StepLine(r', "") == Next(r');
  }

  /** `restore_config` of the file `save_config` just wrote restores what it saved. */
  lemma SaveThenRestore(files: map<string, string>, name: string, version: string, iter: int,
                        theta: Bits64, g: Bits64, dt: Bits64, bodies: seq<Body>,
                        iter0: int, theta0: Bits64, g0: Bits64, dt0: Bits64, ps: seq<Body>)
    requires IsLine(version) && INT_MIN <= iter <= INT_MAX
    ensures Restore(Saved(files, name, Unlines(SavedLines(version, iter, theta, g, dt, bodies))), name,
                    iter0, theta0, g0, dt0, ps)
         == Outcome(Ok(true), Restored(ExpectEof, iter, theta, g, dt, ps + bodies))
  {
    RestoreSavedText(version, iter, theta, g, dt, bodies, iter0, theta0, g0, dt0, ps);
  }

  /** After a save, restoring from the backup reads the file that was there before. */
  lemma BackupKeepsPrevious(files: map<string, string>, name: string, text: string,
                            iter: int, theta: Bits64, g: Bits64, dt: Bits64, ps: seq<Body>)
    requires name in files
    ensures Restore(Saved(files, name, text), name + "~", iter, theta, g, dt, ps)
         == Restore(files, name, iter, theta, g, dt, ps)
  {
  }
}
