/**
 * Text helpers shared by the configuration readers and writers:
 * `ends_with`, `find_first_of`, the `StringSplitter::split` tokenizer,
 * and the two ways the readers cut a file into lines.
 */
module Strings {

  predicate StartsWith(s: string, prefix: string) {
    |prefix| <= |s| && s[..|prefix|] == prefix
  }

  /** No character of `s` is one of `chars`. */
  predicate Free(s: string, chars: string) {
    forall k :: 0 <= k < |s| ==> s[k] !in chars
  }

  /**
   * `std::equal(ending.rbegin(), ending.rend(), value.rbegin())`: compare the
   * two strings character by character from the back.
   */
  function EqualFromBack(ending: string, value: string): (r: bool)
    requires |ending| <= |value|
    ensures r <==> value[|value| - |ending|..] == ending
  {
    if ending == [] then true
    else
      var e, v := |ending| - 1, |value| - 1;
      var rest := EqualFromBack(ending[..e], value[..v]);
      assert value[..v][v - e..] == value[|value| - |ending|..][..e];
      assert value[|value| - |ending|..] == value[|value| - |ending|..][..e] + [value[v]];
      ending[e] == value[v] && rest
  }

  /** `ends_with(value, ending)`. */
  function EndsWith(value: string, ending: string): (r: bool)
    ensures r <==> |ending| <= |value| && value[|value| - |ending|..] == ending
  {
    if |ending| > |value| then false
    else EqualFromBack(ending, value)
  }

  lemma EndsWithConcat(front: string, ending: string)
    ensures EndsWith(front + ending, ending)
  {
    assert (front + ending)[|front|..] == ending;
  }

  /**
   * `str.find_first_of(delims, from)`: the first index at or after `from`
   * holding one of `delims`, or `|s|` standing for `npos`.
   */
  function FindFirstOf(s: string, delims: string, from: nat): (r: nat)
    decreases |s| - from
    ensures from <= r <= |s| || (r == |s| && from > |s|)
    ensures r < |s| ==> s[r] in delims
    ensures forall k :: from <= k < r ==> s[k] !in delims
  {
    if from >= |s| then |s|
    else if s[from] in delims then from
    else FindFirstOf(s, delims, from + 1)
  }

  /** Searching for one character: the text before the result does not hold it, nor does the whole text when it is absent. */
  lemma FindFirstOfOne(s: string, c: char)
    ensures var p := FindFirstOf(s, [c], 0);
      (p < |s| ==> s[p] == c && c !in s[..p]) && (p == |s| ==> c !in s)
  {
    var p := FindFirstOf(s, [c], 0);
    forall k | 0 <= k < p ensures s[..p][k] != c {
      assert s[..p][k] == s[k] && s[k] !in [c];
    }
  }

  /** The first delimiter at or after `from` is where `find_first_of` stops. */
  lemma FindFirstOfAt(s: string, delims: string, from: nat, pos: nat)
    requires from <= pos < |s| && s[pos] in delims
    requires forall k :: from <= k < pos ==> s[k] !in delims
    ensures FindFirstOf(s, delims, from) == pos
  {
  }

  /**
   * The fields of `s`: the pieces between delimiter characters, empty ones
   * included.  This is what `split(s, delims, true)` returns.
   */
  function Fields(s: string, delims: string): (r: seq<string>)
    ensures |r| >= 1
  {
    if s == [] then [""]
    else
      var rest := Fields(s[1..], delims);
      if s[0] in delims then [""] + rest
      else [[s[0]] + rest[0]] + rest[1..]
  }

  /** A delimiter-free prefix becomes part of the first field. */
  lemma {:induction false} FieldsFreePrefix(a: string, b: string, delims: string)
    requires Free(a, delims)
    ensures Fields(a + b, delims) == [a + Fields(b, delims)[0]] + Fields(b, delims)[1..]
  {
    if a == [] {
      var f := Fields(b, delims);
      assert a + b == b && a + f[0] == f[0];
      assert [f[0]] + f[1..] == f;
    } else {
      assert (a + b)[0] == a[0] && a[0] !in delims;
      assert (a + b)[1..] == a[1..] + b;
      FieldsFreePrefix(a[1..], b, delims);
      var rest, f := Fields(a[1..] + b, delims), Fields(b, delims);
      assert Fields(a + b, delims) == [[a[0]] + rest[0]] + rest[1..];
      assert [a[0]] + (a[1..] + f[0]) == a + f[0];
    }
  }

  /** The first field of `s[prev..]` ends at the next delimiter found from `prev`. */
  lemma FieldsAt(s: string, delims: string, prev: nat)
    requires prev <= |s|
    ensures var p := FindFirstOf(s, delims, prev);
      Fields(s[prev..], delims) ==
        if p == |s| then [s[prev..]] else [s[prev..p]] + Fields(s[p + 1..], delims)
  {
    var p := FindFirstOf(s, delims, prev);
    assert s[prev..] == s[prev..p] + s[p..];
    assert Free(s[prev..p], delims);
    FieldsFreePrefix(s[prev..p], s[p..], delims);
    if p < |s| {
      assert s[p..][0] == s[p] && s[p..][1..] == s[p + 1..];
      assert s[prev..p] + "" == s[prev..p];
    } else {
      assert s[p..] == [];
    }
  }

  /** The fields with the empty ones removed: `split(s, delims, false)`. */
  function NonEmpty(ts: seq<string>): (r: seq<string>)
    ensures forall k :: 0 <= k < |r| ==> r[k] != ""
    ensures |r| <= |ts|
  {
    if ts == [] then []
    else if ts[0] == "" then NonEmpty(ts[1..])
    else [ts[0]] + NonEmpty(ts[1..])
  }

  lemma {:induction false} NonEmptyConcat(a: seq<string>, b: seq<string>)
    ensures NonEmpty(a + b) == NonEmpty(a) + NonEmpty(b)
  {
    if a == [] {
      assert a + b == b;
    } else {
      assert (a + b)[0] == a[0];
      assert (a + b)[1..] == a[1..] + b;
      NonEmptyConcat(a[1..], b);
    }
  }

  /** What `split(s, delims, keepEmpty)` returns. */
  function Tokens(s: string, delims: string, keepEmpty: bool): seq<string> {
    if keepEmpty then Fields(s, delims) else NonEmpty(Fields(s, delims))
  }

  /** The token list a single field contributes. */
  function Emit(t: string, keepEmpty: bool): seq<string> {
    if keepEmpty || t != "" then [t] else []
  }

  /** One round of the `split` loop: the field up to `pos`, then the rest. */
  lemma TokensAt(s: string, delims: string, keepEmpty: bool, prev: nat)
    requires prev <= |s|
    ensures var p := FindFirstOf(s, delims, prev);
      Tokens(s[prev..], delims, keepEmpty) ==
        if p == |s| then Emit(s[prev..], keepEmpty)
        else Emit(s[prev..p], keepEmpty) + Tokens(s[p + 1..], delims, keepEmpty)
  {
    FieldsAt(s, delims, prev);
    var p := FindFirstOf(s, delims, prev);
    var t := if p == |s| then s[prev..] else s[prev..p];
    NonEmptySingle(t);
    if p < |s| && !keepEmpty {
      NonEmptyConcat([t], Fields(s[p + 1..], delims));
    }
  }

  /** A round of the loop that finds a delimiter. */
  lemma TokensAtDelim(s: string, delims: string, keepEmpty: bool, prev: nat)
    requires prev <= |s| && FindFirstOf(s, delims, prev) < |s|
    ensures var p := FindFirstOf(s, delims, prev);
      Tokens(s[prev..], delims, keepEmpty) == Emit(s[prev..p], keepEmpty) + Tokens(s[p + 1..], delims, keepEmpty)
  {
    TokensAt(s, delims, keepEmpty, prev);
  }

  /** A single field is kept by `NonEmpty` exactly when `Emit` keeps it. */
  lemma NonEmptySingle(t: string)
    ensures NonEmpty([t]) == Emit(t, false)
  {
    assert [t][0] == t && [t][1..] == [];
  }

  /**
   * `StringSplitter::split`: tokens of `str` separated by any character of
   * `delims`; empty tokens are kept only when `keepEmpty` holds.
   */
  method Split(str: string, delims: string, keepEmpty: bool) returns (tokens: seq<string>)
    ensures tokens == if keepEmpty then Fields(str, delims) else NonEmpty(Fields(str, delims))
  {
    tokens := [];
    var prev: nat := 0;
    var pos := FindFirstOf(str, delims, prev);
    assert str[prev..] == str;
    while pos != |str|
      invariant prev <= pos <= |str|
      invariant pos == FindFirstOf(str, delims, prev)
      invariant SplitSoFar(tokens, str, delims, keepEmpty, prev)
      decreases |str| - prev
    {
      ghost var before := tokens;
      var token := str[prev..pos];
      if keepEmpty || |token| > 0 {
        tokens := tokens + [token];
      }
      assert tokens == before + Emit(token, keepEmpty);
      SplitStep(before, str, delims, keepEmpty, prev);
      prev := pos + 1;
      pos := FindFirstOf(str, delims, prev);
    }
    TokensAt(str, delims, keepEmpty, prev);
    ghost var before := tokens;
    if prev < |str| {
      tokens := tokens + [str[prev..]];
    } else if keepEmpty && prev == |str| {
      tokens := tokens + [""];
    }
    assert tokens == before + Emit(str[prev..], keepEmpty);
  }

  /** The tokens so far, followed by those of the rest from `prev`, are all the tokens. */
  predicate SplitSoFar(tokens: seq<string>, str: string, delims: string, keepEmpty: bool, prev: nat) {
    prev <= |str| && tokens + Tokens(str[prev..], delims, keepEmpty) == Tokens(str, delims, keepEmpty)
  }

  /** One round of the loop: the field up to the delimiter found from `prev` is emitted. */
  lemma SplitStep(tokens: seq<string>, str: string, delims: string, keepEmpty: bool, prev: nat)
    requires SplitSoFar(tokens, str, delims, keepEmpty, prev) && FindFirstOf(str, delims, prev) < |str|
    ensures var pos := FindFirstOf(str, delims, prev);
      SplitSoFar(tokens + Emit(str[prev..pos], keepEmpty), str, delims, keepEmpty, pos + 1)
  {
    var pos := FindFirstOf(str, delims, prev);
    TokensAtDelim(str, delims, keepEmpty, prev);
    Regroup(tokens, Emit(str[prev..pos], keepEmpty), Tokens(str[pos + 1..], delims, keepEmpty),
            Tokens(str[prev..], delims, keepEmpty), Tokens(str, delims, keepEmpty));
  }

  /** What is emitted moves from the rest to the tokens so far. */
  lemma Regroup(tokens: seq<string>, e: seq<string>, r: seq<string>, rest: seq<string>, all: seq<string>)
    requires tokens + rest == all && rest == e + r
    ensures (tokens + e) + r == all
  {
    AppendAssoc(tokens, e, r);
  }

  lemma AppendAssoc<T>(a: seq<T>, b: seq<T>, c: seq<T>)
    ensures (a + b) + c == a + (b + c)
  {
  }

  /** Number of characters of `s` that are delimiters. */
  function CountOf(s: string, delims: string): nat {
    if s == [] then 0 else (if s[0] in delims then 1 else 0) + CountOf(s[1..], delims)
  }

  /** `split` with `keepEmpty` yields one more token than there are delimiters. */
  lemma {:induction false} FieldsCount(s: string, delims: string)
    ensures |Fields(s, delims)| == CountOf(s, delims) + 1
  {
    if s != [] { FieldsCount(s[1..], delims); }
  }

  /** No token contains a delimiter. */
  lemma {:induction false} FieldsFree(s: string, delims: string)
    ensures forall k :: 0 <= k < |Fields(s, delims)| ==> Free(Fields(s, delims)[k], delims)
  {
    if s != [] {
      FieldsFree(s[1..], delims);
      var rest := Fields(s[1..], delims);
      var r := Fields(s, delims);
      forall k | 0 <= k < |r| ensures Free(r[k], delims) {
        if s[0] in delims {
          if k > 0 { assert r[k] == rest[k - 1]; }
        } else if k > 0 {
          assert r[k] == rest[k];
        } else {
          assert Free(rest[0], delims);
        }
      }
    }
  }

  /** The delimiter characters of `s`, in order. */
  function Separators(s: string, delims: string): string {
    if s == [] then [] else (if s[0] in delims then [s[0]] else []) + Separators(s[1..], delims)
  }

  /** `ts[0] + seps[0] + ts[1] + seps[1] + …`. */
  function Interleave(ts: seq<string>, seps: string): string
    requires |ts| == |seps| + 1
  {
    if seps == [] then ts[0] else ts[0] + [seps[0]] + Interleave(ts[1..], seps[1..])
  }

  /** Re-joining the tokens with the original delimiters reproduces the text. */
  lemma {:induction false} FieldsRejoin(s: string, delims: string)
    ensures |Fields(s, delims)| == |Separators(s, delims)| + 1
    ensures Interleave(Fields(s, delims), Separators(s, delims)) == s
  {
    if s != [] {
      FieldsRejoin(s[1..], delims);
      var rest, seps := Fields(s[1..], delims), Separators(s[1..], delims);
      if s[0] in delims {
        assert Fields(s, delims)[1..] == rest;
        assert s == [s[0]] + s[1..];
      } else {
        assert Separators(s, delims) == seps;
        InterleaveHead(rest, seps, [s[0]]);
        assert s == [s[0]] + s[1..];
      }
    }
  }

  /** Prepending text to the first token prepends it to the interleaving. */
  lemma InterleaveHead(ts: seq<string>, seps: string, a: string)
    requires |ts| == |seps| + 1
    ensures Interleave([a + ts[0]] + ts[1..], seps) == a + Interleave(ts, seps)
  {
    var ts' := [a + ts[0]] + ts[1..];
    assert ts'[1..] == ts[1..];
  }

  /** `ts[0] + [sep] + ts[1] + …`: what a writer produces with one separator. */
  function JoinWith(ts: seq<string>, sep: char): (r: string)
    requires |ts| >= 1
  {
    if |ts| == 1 then ts[0] else ts[0] + [sep] + JoinWith(ts[1..], sep)
  }

  /** Joining tokens free of `chars` with a separator outside `chars` gives a line free of `chars`. */
  lemma {:induction false} JoinFree(ts: seq<string>, sep: char, chars: string)
    requires |ts| >= 1 && sep !in chars
    requires forall k :: 0 <= k < |ts| ==> Free(ts[k], chars)
    ensures Free(JoinWith(ts, sep), chars)
    ensures |JoinWith(ts, sep)| >= |ts[0]| && JoinWith(ts, sep)[..|ts[0]|] == ts[0]
  {
    if |ts| > 1 {
      JoinFree(ts[1..], sep, chars);
      var j := JoinWith(ts, sep);
      assert j == ts[0] + [sep] + JoinWith(ts[1..], sep);
      forall k | 0 <= k < |j| ensures j[k] !in chars {
        if k < |ts[0]| {
          assert j[k] == ts[0][k];
        } else if k > |ts[0]| {
          assert j[k] == JoinWith(ts[1..], sep)[k - |ts[0]| - 1];
        }
      }
    }
  }

  /** Splitting a joined line recovers the tokens: the writer/reader inverse. */
  lemma {:induction false} FieldsJoinWith(ts: seq<string>, sep: char, delims: string)
    requires |ts| >= 1 && sep in delims
    requires forall k :: 0 <= k < |ts| ==> Free(ts[k], delims)
    ensures Fields(JoinWith(ts, sep), delims) == ts
  {
    if |ts| == 1 {
      FieldsFreePrefix(ts[0], [], delims);
      assert ts[0] + [] == ts[0];
    } else {
      var rest := JoinWith(ts[1..], sep);
      FieldsJoinWith(ts[1..], sep, delims);
      assert JoinWith(ts, sep) == ts[0] + ([sep] + rest);
      FieldsFreePrefix(ts[0], [sep] + rest, delims);
      assert ([sep] + rest)[0] == sep && ([sep] + rest)[1..] == rest;
      assert Fields([sep] + rest, delims) == [""] + Fields(rest, delims);
      assert ts[0] + "" == ts[0];
      assert ts == [ts[0]] + ts[1..];
    }
  }

  /** The text of a file whose lines are `ls`, each terminated by a newline. */
  function Unlines(ls: seq<string>): string {
    if ls == [] then [] else ls[0] + "\n" + Unlines(ls[1..])
  }

  /** Appending a line appends it, with its newline, to the text. */
  lemma {:induction false} UnlinesSnoc(ls: seq<string>, l: string)
    ensures Unlines(ls + [l]) == Unlines(ls) + l + "\n"
  {
    if ls != [] {
      UnlinesSnoc(ls[1..], l);
      assert (ls + [l])[1..] == ls[1..] + [l];
    }
  }

  predicate IsLine(l: string) { Free(l, "\n") }

  /**
   * The values a `while (!in.eof()) { getline(in, line); … }` loop sees:
   * every newline-separated piece, so a final empty piece when the text ends
   * with a newline, and one empty line for an empty file.
   */
  function EofLines(text: string): (r: seq<string>)
    ensures |r| >= 1
  {
    Fields(text, "\n")
  }

  /**
   * The values a `while (getline(in, line))` loop sees: the same pieces, but
   * a final newline does not start another line.
   */
  function GetlineLines(text: string): (r: seq<string>) {
    var f := Fields(text, "\n");
    if f[|f| - 1] == "" then f[..|f| - 1] else f
  }

  lemma {:induction false} EofLinesUnlines(ls: seq<string>)
    requires forall k :: 0 <= k < |ls| ==> IsLine(ls[k])
    ensures EofLines(Unlines(ls)) == ls + [""]
  {
    if ls == [] {
      assert Unlines(ls) == [];
    } else {
      var rest := Unlines(ls[1..]);
      assert Unlines(ls) == ls[0] + ("\n" + rest);
      FieldsFreePrefix(ls[0], "\n" + rest, "\n");
      assert ("\n" + rest)[0] == '\n' && ("\n" + rest)[1..] == rest;
      assert Fields("\n" + rest, "\n") == [""] + Fields(rest, "\n");
      assert ls[0] + "" == ls[0];
      EofLinesUnlines(ls[1..]);
      assert ls == [ls[0]] + ls[1..];
    }
  }

  /** Reading a file written line by line with `getline` gives back its lines. */
  lemma GetlineLinesUnlines(ls: seq<string>)
    requires forall k :: 0 <= k < |ls| ==> IsLine(ls[k])
    ensures GetlineLines(Unlines(ls)) == ls
  {
    EofLinesUnlines(ls);
    assert (ls + [""])[..|ls|] == ls;
  }
}
