/**
 * The reporters that record the configuration in numbered files.  Opening
 * the file is the only I/O the model keeps: whether it succeeds is an
 * argument, and the text written is left out.
 */
module Reporting {
  import opened Numerals

  /** `_get_file_name`: path, base, the sequence number zero-padded to width 10, `.`, extension. */
  function FileName(path: string, base: string, sequence: nat, extension: string): (name: string)
    ensures |name| >= |path| + |base| + 10 + 1 + |extension|
  {
    ZeroPaddedValue(sequence, 10);
    path + base + ZeroPadded(sequence, 10) + "." + extension
  }

  /** Different sequence numbers give different file names, so no report overwrites another. */
  lemma FileNameInjective(path: string, base: string, extension: string, a: nat, b: nat)
    requires FileName(path, base, a, extension) == FileName(path, base, b, extension)
    ensures a == b
  {
    var za, zb := ZeroPadded(a, 10), ZeroPadded(b, 10);
    var prefix := path + base;
    var s := FileName(path, base, a, extension);
    assert |za| == |zb|;
    assert s == prefix + za + ("." + extension);
    assert s == prefix + zb + ("." + extension);
    assert s[|prefix|..|prefix| + |za|] == za;
    assert s[|prefix|..|prefix| + |zb|] == zb;
    ZeroPaddedValue(a, 10);
    ZeroPaddedValue(b, 10);
  }
}

/** The second-generation reporter: a countdown decides which calls write a file. */
module ReporterCsrc {
  import opened Wrappers
  import opened Reporting

  /** `_sequence` and `_count_down`. */
  datatype Counter = Counter(sequence: nat, countDown: int)

  /**
   * The bookkeeping of one `report()`: the sequence number always goes up
   * by one; a file is due when the decremented countdown is at most 0, and
   * the countdown then restarts at `frequency`.
   */
  function Tick(c: Counter, frequency: int): (r: (Counter, bool))
    ensures r.0.sequence == c.sequence + 1
    ensures r.1 <==> c.countDown - 1 <= 0
    ensures r.0.countDown == if r.1 then frequency else c.countDown - 1
  {
    var countDown := c.countDown - 1;
    if countDown > 0 then (Counter(c.sequence + 1, countDown), false)
    else (Counter(c.sequence + 1, frequency), true)
  }

  /** The counters after `calls` reports by a fresh reporter. */
  function Run(frequency: int, calls: nat): Counter {
    if calls == 0 then Counter(0, frequency) else Tick(Run(frequency, calls - 1), frequency).0
  }

  /** Whether report number `call` (counting from 1) writes a file. */
  function Writes(frequency: int, call: nat): bool
    requires call >= 1
  {
    Tick(Run(frequency, call - 1), frequency).1
  }

  /**
   * After `q * frequency + r` reports (`r < frequency`), the sequence
   * number is the number of calls and the countdown `frequency - r`.
   */
  lemma {:induction false} RunPhase(frequency: int, q: nat, r: nat)
    requires frequency >= 1 && r < frequency
    ensures Run(frequency, q * frequency + r) == Counter(q * frequency + r, frequency - r)
    decreases q, r
  {
    if r > 0 {
      RunPhase(frequency, q, r - 1);
    } else if q > 0 {
      RunPhase(frequency, q - 1, frequency - 1);
      assert (q - 1) * frequency + (frequency - 1) == q * frequency - 1;
    }
  }

  /**
   * With `frequency >= 1`, report number `q * frequency + r` (with
   * `0 <= r < frequency`) writes a file exactly when `r == 0`: every
   * `frequency`-th report writes, and its file carries the call's number,
   * so the written files are numbered frequency, 2 frequency, …
   */
  lemma WritesEvery(frequency: int, q: nat, r: nat)
    requires frequency >= 1 && r < frequency && q * frequency + r >= 1
    ensures Writes(frequency, q * frequency + r) <==> r == 0
    ensures Run(frequency, q * frequency + r).sequence == q * frequency + r
  {
    RunPhase(frequency, q, r);
    if r > 0 {
      SkipsWithinCycle(frequency, q, r);
    } else {
      WritesAtCycleEnd(frequency, q - 1);
      assert (q - 1) * frequency + frequency == q * frequency + r;
    }
  }

  lemma SkipsWithinCycle(frequency: int, q: nat, r: nat)
    requires frequency >= 1 && 0 < r < frequency
    ensures !Writes(frequency, q * frequency + r)
  {
    RunPhase(frequency, q, r - 1);
    assert q * frequency + (r - 1) == q * frequency + r - 1;
  }

  lemma WritesAtCycleEnd(frequency: int, q: nat)
    requires frequency >= 1
    ensures Writes(frequency, q * frequency + frequency)
  {
    RunPhase(frequency, q, frequency - 1);
    assert q * frequency + (frequency - 1) == q * frequency + frequency - 1;
  }

  /** With `frequency <= 0` every report writes a file. */
  lemma {:induction false} WritesAlways(frequency: int, call: nat)
    requires frequency <= 0 && call >= 1
    ensures Writes(frequency, call)
    ensures Run(frequency, call - 1).countDown == frequency
  {
    if call > 1 {
      WritesAlways(frequency, call - 1);
    }
  }

  class Reporter {
    var sequence: nat
    var countDown: int
    const frequency: int
    const base: string
    const path: string
    const extension: string
    const killfile: string

    /** `Reporter(configuration, base, path, extension, killfile, frequency)` with its defaults. */
    constructor (base: string := "galaxy", path: string := "configs/", extension: string := "csv",
                 killfile: string := "kill", frequency: int := 1)
      ensures this.base == base && this.path == path && this.extension == extension
      ensures this.killfile == killfile && this.frequency == frequency
      ensures sequence == 0 && countDown == frequency
      ensures Counter(sequence, countDown) == Run(frequency, 0)
    {
      this.base := base;
      this.path := path;
      this.extension := extension;
      this.killfile := killfile;
      this.frequency := frequency;
      sequence := 0;
      countDown := frequency;
    }

    /**
     * `report()`: advance the counters as `Tick` says; when a file is due,
     * open the file named after the new sequence number, and raise
     * `logic_error` when it cannot be opened (the counters have already
     * moved).  The result is the name of the file written, if any.
     */
    method Report(opens: bool) returns (r: Result<Option<string>>)
      modifies this
      ensures (Counter(sequence, countDown), r != Ok(None)) == Tick(old(Counter(sequence, countDown)), frequency)
      ensures r == Ok(None) || r == (if opens then Ok(Some(FileName(path, base, sequence, extension))) else Err(LogicError))
    {
      sequence := sequence + 1;
      countDown := countDown - 1;
      if countDown > 0 {
        return Ok(None);
      }
      countDown := frequency;
      var fileName := FileName(path, base, sequence, extension);
      if opens {
        return Ok(Some(fileName));
      }
      return Err(LogicError);
    }
  }
}

/** The third-generation reporter: every call writes the next numbered file. */
module ReporterCsrc2 {
  import opened Wrappers
  import opened Reporting

  /** The sequence numbers of the files written by reports whose opens succeed as `opens` says. */
  function Written(start: nat, opens: seq<bool>): seq<nat>
    decreases |opens|
  {
    if opens == [] then []
    else if opens[0] then [start] + Written(start + 1, opens[1..])
    else Written(start, opens[1..])
  }

  /** How many opens succeed. */
  function Successes(opens: seq<bool>): nat {
    if opens == [] then 0 else (if opens[0] then 1 else 0) + Successes(opens[1..])
  }

  /**
   * Failed opens leave no gap: the written files are numbered `start`,
   * `start + 1`, … in order, one per successful open.
   */
  lemma {:induction false} WrittenConsecutive(start: nat, opens: seq<bool>)
    ensures |Written(start, opens)| == Successes(opens)
    ensures forall k :: 0 <= k < |Written(start, opens)| ==> Written(start, opens)[k] == start + k
    decreases |opens|
  {
    if opens != [] {
      if opens[0] {
        WrittenConsecutive(start + 1, opens[1..]);
      } else {
        WrittenConsecutive(start, opens[1..]);
      }
    }
  }

  /** The file names of a run of reports from sequence 0 are pairwise different. */
  lemma WrittenNamesDistinct(path: string, base: string, extension: string, opens: seq<bool>, i: nat, j: nat)
    requires i < j < |Written(0, opens)|
    ensures FileName(path, base, Written(0, opens)[i], extension) != FileName(path, base, Written(0, opens)[j], extension)
  {
    WrittenConsecutive(0, opens);
    if FileName(path, base, Written(0, opens)[i], extension) == FileName(path, base, Written(0, opens)[j], extension) {
      FileNameInjective(path, base, extension, Written(0, opens)[i], Written(0, opens)[j]);
    }
  }

  class Reporter {
    var sequence: nat
    const base: string
    const extension: string
    const path: string

    /** `Reporter(configuration, base, extension, path)` with its defaults. */
    constructor (base: string := "foo", extension: string := "csv", path: string := "configs/")
      ensures this.base == base && this.extension == extension && this.path == path
      ensures sequence == 0
    {
      this.base := base;
      this.extension := extension;
      this.path := path;
      sequence := 0;
    }

    /**
     * `report()`: write the file named after the current sequence number
     * and only then count it; `logic_error`, with the number unchanged,
     * when the file cannot be opened.
     */
    method Report(opens: bool) returns (r: Result<string>)
      modifies this
      ensures opens ==> r == Ok(FileName(path, base, old(sequence), extension)) && sequence == old(sequence) + 1
      ensures !opens ==> r == Err(LogicError) && sequence == old(sequence)
    {
      var fileName := FileName(path, base, sequence, extension);
      if !opens {
        return Err(LogicError);
      }
      sequence := sequence + 1;
      return Ok(fileName);
    }

    /** A run of reports: the names written are those of `Written(sequence, opens)`, in order. */
    method ReportAll(opens: seq<bool>) returns (names: seq<string>)
      modifies this
      ensures |names| == |Written(old(sequence), opens)|
      ensures forall k :: 0 <= k < |names| ==> names[k] == FileName(path, base, Written(old(sequence), opens)[k], extension)
      ensures sequence == old(sequence) + Successes(opens)
    {
      names := [];
      var i := 0;
      ghost var start := sequence;
      while i < |opens|
        invariant 0 <= i <= |opens|
        invariant Written(start, opens) == Written(start, opens[..i]) + Written(sequence, opens[i..])
        invariant sequence == start + Successes(opens[..i])
        invariant |names| == |Written(start, opens[..i])|
        invariant forall k :: 0 <= k < |names| ==> names[k] == FileName(path, base, Written(start, opens[..i])[k], extension)
      {
        WrittenStep(start, opens, i, sequence);
        var r := Report(opens[i]);
        if r.Ok? {
          names := names + [r.value];
        }
        i := i + 1;
      }
      assert opens[..|opens|] == opens;
    }
  }

  /** One more report: the names so far grow by the file this report writes, if any. */
  lemma WrittenStep(start: nat, opens: seq<bool>, i: nat, sequence: nat)
    requires i < |opens| && sequence == start + Successes(opens[..i])
    ensures Successes(opens[..i + 1]) == Successes(opens[..i]) + (if opens[i] then 1 else 0)
    ensures Written(start, opens[..i + 1]) == Written(start, opens[..i]) + (if opens[i] then [sequence] else [])
    ensures Written(sequence, opens[i..]) == (if opens[i] then [sequence] else []) + Written(if opens[i] then sequence + 1 else sequence, opens[i + 1..])
  {
    assert opens[i..][0] == opens[i] && opens[i..][1..] == opens[i + 1..];
    SnocCounts(start, opens[..i], opens[i]);
    assert opens[..i + 1] == opens[..i] + [opens[i]];
  }

  lemma {:induction false} SnocCounts(start: nat, opens: seq<bool>, last: bool)
    ensures Successes(opens + [last]) == Successes(opens) + (if last then 1 else 0)
    ensures Written(start, opens + [last]) == Written(start, opens) + (if last then [start + Successes(opens)] else [])
    decreases |opens|
  {
    if opens == [] {
      assert [] + [last] == [last];
    } else {
      assert (opens + [last])[1..] == opens[1..] + [last];
      if opens[0] {
        SnocCounts(start + 1, opens[1..], last);
      } else {
        SnocCounts(start, opens[1..], last);
      }
    }
  }
}
