/**
 * The file-name helper the Python scripts share: `get_file_name` built on
 * POSIX `os.path.splitext` and `os.path.join`.
 */
module PyPaths {
  import opened Wrappers
  import opened Strings
  import opened Numerals

  /** `s.rfind(c)`: the last index holding `c`, or -1. */
  function RFind(s: string, c: char): (r: int)
    ensures -1 <= r < |s|
    ensures r >= 0 ==> s[r] == c
    ensures forall k :: r < k < |s| ==> s[k] != c
  {
    if s == [] then -1
    else if s[|s| - 1] == c then |s| - 1
    else RFind(s[..|s| - 1], c)
  }

  /** Some character of `s[from..to]` is not a dot. */
  predicate NonDotBetween(s: string, from: int, to: int)
    requires 0 <= from && to <= |s|
  {
    exists k :: from <= k < to && s[k] != '.'
  }

  /**
   * `posixpath.splitext`: the extension runs from the last dot of the last
   * path component, unless only dots precede that dot in the component.
   */
  function SplitExt(p: string): (r: (string, string))
    ensures r.0 + r.1 == p
    ensures r.1 == "" || (r.1[0] == '.' && '/' !in r.1 && '.' !in r.1[1..])
  {
    var sepIndex := RFind(p, '/');
    var dotIndex := RFind(p, '.');
    if dotIndex > sepIndex && NonDotBetween(p, sepIndex + 1, dotIndex) then
      assert p[..dotIndex] + p[dotIndex..] == p;
      assert forall k :: 0 <= k < |p[dotIndex..]| ==> p[dotIndex..][k] == p[dotIndex + k];
      (p[..dotIndex], p[dotIndex..])
    else
      assert p + "" == p;
      (p, "")
  }

  /** `posixpath.join(a, b)`. */
  function Join(a: string, b: string): (r: string)
    ensures StartsWith(b, "/") ==> r == b
    ensures !StartsWith(b, "/") && (a == "" || EndsWith(a, "/")) ==> r == a + b
    ensures !StartsWith(b, "/") && a != "" && !EndsWith(a, "/") ==> r == a + "/" + b
  {
    if StartsWith(b, "/") then b
    else if a == "" || EndsWith(a, "/") then a + b
    else a + "/" + b
  }

  /** `f'{base}{seq}'` when a sequence number is given. */
  function WithSeq(base: string, seqNo: Option<int>): string {
    if seqNo.Some? then base + SignedDecimal(seqNo.value) else base
  }

  /**
   * `get_file_name(name, default_ext, figs, seq)` as written: the default
   * extension replaces a missing one, the sequence number follows the base,
   * and the name goes under `figs` only for `png`.  `splitext` keeps the
   * dot, so an explicit extension gets a second dot.
   */
  function GetFileName(name: string, defaultExt: string, figs: string, seqNo: Option<int>): string {
    var (base, ext0) := SplitExt(name);
    var ext := if |ext0| == 0 then defaultExt else ext0;
    var qualified := WithSeq(base, seqNo) + "." + ext;
    if ext == "png" then Join(figs, qualified) else qualified
  }

  /** The evidently intended `get_file_name`: an explicit extension loses its dot first. */
  function GetFileNameIntended(name: string, defaultExt: string, figs: string, seqNo: Option<int>): string {
    var (base, ext0) := SplitExt(name);
    var ext := if |ext0| == 0 then defaultExt else ext0[1..];
    var qualified := WithSeq(base, seqNo) + "." + ext;
    if ext == "png" then Join(figs, qualified) else qualified
  }

  /** The defaults of both scripts: `png` files under `./figs`. */
  const DEFAULT_EXT: string := "png"
  const DEFAULT_FIGS: string := "./figs"

  /**
   * A name without an extension gets the default one, after the sequence
   * number; with the default `png` it lands under `figs`.  Both versions
   * agree here.
   */
  lemma NoExtension(name: string, defaultExt: string, figs: string, seqNo: Option<int>)
    requires SplitExt(name).1 == ""
    ensures GetFileName(name, defaultExt, figs, seqNo) == GetFileNameIntended(name, defaultExt, figs, seqNo)
    ensures var q := WithSeq(name, seqNo) + "." + defaultExt;
      GetFileName(name, defaultExt, figs, seqNo) == if defaultExt == "png" then Join(figs, q) else q
  {
    assert SplitExt(name).0 == name by {
      assert SplitExt(name).0 + "" == name;
    }
  }

  /**
   * As written, an explicit extension `.e` yields `base..e` and is never put
   * under `figs`, even for `.png`.
   */
  lemma ExplicitExtensionAsWritten(name: string, defaultExt: string, figs: string, seqNo: Option<int>)
    requires SplitExt(name).1 != ""
    ensures var (base, ext0) := SplitExt(name);
      GetFileName(name, defaultExt, figs, seqNo) == WithSeq(base, seqNo) + ".." + ext0[1..]
  {
    var (base, ext0) := SplitExt(name);
    assert ext0 != "png" by { assert ext0[0] == '.'; }
    assert ext0 == "." + ext0[1..];
    assert WithSeq(base, seqNo) + "." + ext0 == WithSeq(base, seqNo) + ".." + ext0[1..];
  }

  /** `splitext("orbits.png") == ("orbits", ".png")`. */
  lemma SplitExtExample()
    ensures SplitExt("orbits.png") == ("orbits", ".png")
  {
    var name := "orbits.png";
    assert name[..9] == "orbits.pn" && name[..9][..8] == "orbits.p" && name[..9][..8][..7] == "orbits.";
    assert RFind("orbits.", '.') == 6;
    assert RFind("orbits.p", '.') == 6;
    assert RFind(name, '.') == 6;
    assert RFind(name, '/') == -1 by {
      assert name == ['o', 'r', 'b', 'i', 't', 's', '.', 'p', 'n', 'g'];
      assert '/' !in name;
    }
    assert name[0] != '.';
    assert SplitExt(name) == (name[..6], name[6..]);
    assert name[..6] == "orbits" && name[6..] == ".png";
  }

  /** The named counterexample: `orbits.png` becomes `orbits..png`, outside `./figs`. */
  lemma ExplicitPngExample()
    ensures GetFileName("orbits.png", DEFAULT_EXT, DEFAULT_FIGS, None) == "orbits..png"
    ensures GetFileNameIntended("orbits.png", DEFAULT_EXT, DEFAULT_FIGS, None) == "./figs/orbits.png"
  {
    SplitExtExample();
    assert !EndsWith(DEFAULT_FIGS, "/") by { assert DEFAULT_FIGS[5] == 's'; }
    assert !StartsWith("orbits.png", "/") by { assert "orbits.png"[0] == 'o'; }
    assert Join(DEFAULT_FIGS, "orbits.png") == DEFAULT_FIGS + "/" + "orbits.png";
  }

  /**
   * The intended version keeps an explicit name as it is (without a
   * sequence number), under `figs` when its extension is `.png`.
   */
  lemma IntendedKeepsName(name: string, defaultExt: string, figs: string)
    requires SplitExt(name).1 != ""
    ensures GetFileNameIntended(name, defaultExt, figs, None) ==
      if SplitExt(name).1 == ".png" then Join(figs, name) else name
  {
    var (base, ext0) := SplitExt(name);
    assert "." + ext0[1..] == ext0;
    assert base + "." + ext0[1..] == base + ext0;
    assert ext0[1..] == "png" <==> ext0 == ".png";
  }
}
