/**
 * Integer text, as far as the modelled code needs it: rendering a natural
 * number in base 10 or 16 (what `ostream << uint64_t` and Python's `str`
 * and `hex` produce), zero padding (`setw` with `setfill('0')`), and the C
 * library parsers behind `std::stoull`, `std::stoi` and `atoi`.
 */
module Numerals {
  import opened Wrappers

  const TWO_64: nat := 0x1_0000_0000_0000_0000
  const TWO_63: nat := 0x8000_0000_0000_0000
  const INT_MAX: int := 0x7fff_ffff
  const INT_MIN: int := -0x8000_0000

  /** `isspace` in the C locale: space, and `\t` `\n` `\v` `\f` `\r`. */
  predicate IsSpace(c: char) { c == ' ' || '\t' <= c <= '\r' }

  /** The value of an alphanumeric character as a digit; 36 for anything else. */
  function CharValue(c: char): (d: nat)
    ensures d <= 36
  {
    if '0' <= c <= '9' then c as nat - '0' as nat
    else if 'a' <= c <= 'z' then c as nat - 'a' as nat + 10
    else if 'A' <= c <= 'Z' then c as nat - 'A' as nat + 10
    else 36
  }

  predicate IsDigitIn(c: char, base: nat) { CharValue(c) < base }

  /** The character a renderer emits for digit `d` (lower-case letters above 9). */
  function DigitChar(d: nat): (c: char)
    requires d < 16
    ensures CharValue(c) == d
  {
    if d < 10 then ('0' as nat + d) as char else ('a' as nat + d - 10) as char
  }

  /** The digits of `n` in `base`, most significant first, without leading zeros. */
  function Render(n: nat, base: nat): (s: string)
    requires base == 10 || base == 16
    ensures |s| >= 1
  {
    if n < base then [DigitChar(n)] else Render(n / base, base) + [DigitChar(n % base)]
  }

  /** `operator<<` on an unsigned integer, Python's `str` on a natural number. */
  function Decimal(n: nat): string { Render(n, 10) }

  /** Python's `str` on any integer. */
  function SignedDecimal(v: int): string {
    if v < 0 then "-" + Decimal(-v) else Decimal(v)
  }

  /** The digits Python's `hex` writes after its `0x`. */
  function LowerHex(n: nat): string { Render(n, 16) }

  /** A signed decimal holds nothing but a leading minus and decimal digits. */
  lemma SignedDecimalChars(v: int)
    ensures forall k :: 0 <= k < |SignedDecimal(v)| ==> SignedDecimal(v)[k] == '-' || IsDigitIn(SignedDecimal(v)[k], 10)
  {
    var m := if v < 0 then -v else v;
    RenderDigits(m, 10);
    if v < 0 {
      forall k | 1 <= k < |SignedDecimal(v)| ensures IsDigitIn(SignedDecimal(v)[k], 10) {
        assert SignedDecimal(v)[k] == Decimal(m)[k - 1];
      }
    }
  }

  /** The value of a digit string, read most significant digit first. */
  function ValueOf(d: string, base: nat): nat {
    if d == [] then 0 else ValueOf(d[..|d| - 1], base) * base + CharValue(d[|d| - 1])
  }

  lemma {:induction false} RenderDigits(n: nat, base: nat)
    requires base == 10 || base == 16
    ensures forall k :: 0 <= k < |Render(n, base)| ==> IsDigitIn(Render(n, base)[k], base)
    ensures ValueOf(Render(n, base), base) == n
    ensures Render(n, base)[0] != '0' || n == 0
  {
    var s := Render(n, base);
    if n >= base {
      RenderDigits(n / base, base);
      assert s[..|s| - 1] == Render(n / base, base);
    }
  }

  function Pow16(k: nat): (p: nat)
    ensures p >= 1
  {
    if k == 0 then 1 else 16 * Pow16(k - 1)
  }

  /** The `k` lowest hexadecimal digits of `n`, leading zeros included. */
  function FixedHex(n: nat, k: nat): (s: string)
    ensures |s| == k
  {
    if k == 0 then [] else FixedHex(n / 16, k - 1) + [DigitChar(n % 16)]
  }

  /** A string of `k` digits denotes less than `base^k`. */
  lemma {:induction false} ValueOfBound(d: string, base: nat)
    requires base == 16
    requires forall k :: 0 <= k < |d| ==> IsDigitIn(d[k], base)
    ensures ValueOf(d, base) < Pow16(|d|)
  {
    if d != [] {
      var front := d[..|d| - 1];
      ValueOfBound(front, base);
      assert ValueOf(d, base) <= (Pow16(|front|) - 1) * 16 + 15;
    }
  }

  /** `setw(width) << setfill('0') << n` for a non-negative `n`. */
  function ZeroPadded(n: nat, width: nat): (s: string) {
    var d := Decimal(n);
    if |d| >= width then d else seq(width - |d|, _ => '0') + d
  }

  lemma {:induction false} ValueOfZeros(z: nat, d: string, base: nat)
    ensures ValueOf(seq(z, _ => '0') + d, base) == ValueOf(d, base)
  {
    var zs: string := seq(z, _ => '0');
    if d == [] {
      assert zs + d == zs;
      ZerosValue(z, base);
    } else {
      var d' := d[..|d| - 1];
      assert (zs + d)[..|zs + d| - 1] == zs + d';
      ValueOfZeros(z, d', base);
    }
  }

  lemma {:induction false} ZerosValue(z: nat, base: nat)
    ensures ValueOf(seq(z, _ => '0'), base) == 0
  {
    if z > 0 {
      assert seq(z, _ => '0')[..z - 1] == seq(z - 1, _ => '0');
      ZerosValue(z - 1, base);
    }
  }

  /** The padded text is at least `width` long and still denotes `n`. */
  lemma ZeroPaddedValue(n: nat, width: nat)
    ensures |ZeroPadded(n, width)| == if |Decimal(n)| >= width then |Decimal(n)| else width
    ensures forall k :: 0 <= k < |ZeroPadded(n, width)| ==> IsDigitIn(ZeroPadded(n, width)[k], 10)
    ensures ValueOf(ZeroPadded(n, width), 10) == n
  {
    RenderDigits(n, 10);
    var d := Decimal(n);
    if |d| < width {
      ValueOfZeros(width - |d|, d, 10);
      var s := ZeroPadded(n, width);
      forall k | 0 <= k < |s| ensures IsDigitIn(s[k], 10) {
        if k >= width - |d| { assert s[k] == d[k - (width - |d|)]; }
      }
    }
  }

  /** The first index at or after `i` that is not white space. */
  function SkipSpaces(s: string, i: nat): (r: nat)
    requires i <= |s|
    decreases |s| - i
    ensures i <= r <= |s|
    ensures r < |s| ==> !IsSpace(s[r])
  {
    if i < |s| && IsSpace(s[i]) then SkipSpaces(s, i + 1) else i
  }

  /** The end of the run of `base` digits that starts at `i`. */
  function DigitRun(s: string, i: nat, base: nat): (r: nat)
    requires i <= |s|
    decreases |s| - i
    ensures i <= r <= |s|
  {
    if i < |s| && IsDigitIn(s[i], base) then DigitRun(s, i + 1, base) else i
  }

  /** A `0x`/`0X` prefix that `strtoull` skips in base 16: only when a hex digit follows. */
  predicate HexPrefixAt(s: string, j: nat) {
    j + 2 < |s| && s[j] == '0' && (s[j + 1] == 'x' || s[j + 1] == 'X') && IsDigitIn(s[j + 2], 16)
  }

  /** What the C `strto*` family recognises: sign, magnitude and where it stopped. */
  datatype Scan = Scan(negative: bool, magnitude: nat, end: nat)

  /**
   * The common front end of `strtoull`, `strtol` and `atoi`: leading white
   * space, an optional sign, in base 16 an optional `0x`, then a maximal run of
   * digits.  `None` when there is no digit at all.
   */
  function ScanInteger(s: string, base: nat): (r: Option<Scan>)
    requires base == 10 || base == 16
    ensures r.Some? ==> r.value.end <= |s|
  {
    var i := SkipSpaces(s, 0);
    var signed := i < |s| && (s[i] == '+' || s[i] == '-');
    var j := if signed then i + 1 else i;
    var start := if base == 16 && HexPrefixAt(s, j) then j + 2 else j;
    var end := DigitRun(s, start, base);
    if end == start then None
    else Some(Scan(signed && s[i] == '-', ValueOf(s[start..end], base), end))
  }

  /** A parsed value and the number of characters consumed (`*idx`). */
  datatype Parsed = Parsed(value: int, consumed: nat)

  /**
   * `std::stoull(s, &idx, base)`: `invalid_argument` when nothing can be
   * parsed, `out_of_range` when the magnitude exceeds 2^64 - 1, and a leading
   * `-` negates modulo 2^64.
   */
  function Stoull(s: string, base: nat): (r: Result<Parsed>)
    requires base == 10 || base == 16
    ensures r.Ok? ==> 0 <= r.value.value < TWO_64 && r.value.consumed <= |s|
    ensures r.Err? ==> r.error == InvalidArgument || r.error == OutOfRange
  {
    match ScanInteger(s, base)
    case None => Err(InvalidArgument)
    case Some(sc) =>
      if sc.magnitude >= TWO_64 then Err(OutOfRange)
      else Ok(Parsed(if sc.negative then (TWO_64 - sc.magnitude) % TWO_64 else sc.magnitude, sc.end))
  }

  /** `stoull` reports `invalid_argument` exactly when there is no digit to parse. */
  lemma StoullInvalid(s: string, base: nat)
    requires base == 10 || base == 16
    ensures Stoull(s, base) == Err(InvalidArgument) <==> ScanInteger(s, base).None?
  {
  }

  /**
   * `std::stoi(s, &idx)`: base 10; `invalid_argument` when nothing can be
   * parsed, `out_of_range` when the value does not fit an `int`.
   */
  function Stoi(s: string): (r: Result<Parsed>)
    ensures r.Ok? ==> INT_MIN <= r.value.value <= INT_MAX && r.value.consumed <= |s|
    ensures r.Err? ==> r.error == InvalidArgument || r.error == OutOfRange
  {
    match ScanInteger(s, 10)
    case None => Err(InvalidArgument)
    case Some(sc) =>
      var v: int := if sc.negative then -(sc.magnitude as int) else sc.magnitude;
      if v < INT_MIN || v > INT_MAX then Err(OutOfRange) else Ok(Parsed(v, sc.end))
  }

  /**
   * `atoi(s)` into an `int`: the parsed value, 0 when there is nothing to
   * parse, and undefined behaviour when the value does not fit an `int`.
   * Where `stoi` succeeds the two agree; where `stoi` finds the value out of
   * range, `atoi` is undefined.
   */
  function Atoi(s: string): (r: Result<int>)
    ensures ScanInteger(s, 10).None? ==> r == Ok(0)
    ensures r.Ok? ==> INT_MIN <= r.value <= INT_MAX
    ensures r.Err? ==> r.error == Undefined
    ensures Stoi(s).Ok? ==> r == Ok(Stoi(s).value.value)
    ensures Stoi(s) == Err(OutOfRange) <==> r.Err?
  {
    match ScanInteger(s, 10)
    case None => Ok(0)
    case Some(sc) =>
      var v: int := if sc.negative then -(sc.magnitude as int) else sc.magnitude;
      if v < INT_MIN || v > INT_MAX then Err(Undefined) else Ok(v)
  }

  /** Rendered digits are scanned back in full, as a non-negative number. */
  lemma ScanRender(n: nat, base: nat)
    requires base == 10 || base == 16
    ensures ScanInteger(Render(n, base), base) == Some(Scan(false, n, |Render(n, base)|))
  {
    RenderDigits(n, base);
    ScanDigits(Render(n, base), base);
  }

  /** A plain run of digits is scanned whole, unsigned, as the number it denotes. */
  lemma ScanDigits(s: string, base: nat)
    requires base == 10 || base == 16
    requires |s| >= 1 && forall k :: 0 <= k < |s| ==> IsDigitIn(s[k], base)
    ensures ScanInteger(s, base) == Some(Scan(false, ValueOf(s, base), |s|))
  {
    assert SkipSpaces(s, 0) == 0 by { assert !IsSpace(s[0]); }
    assert !(s[0] == '+' || s[0] == '-');
    assert !HexPrefixAt(s, 0) by {
      if 2 < |s| { assert IsDigitIn(s[1], base); }
    }
    DigitRunAll(s, 0, base);
    assert s[0..|s|] == s;
  }

  lemma {:induction false} DigitRunAll(s: string, i: nat, base: nat)
    requires i <= |s|
    requires forall k :: i <= k < |s| ==> IsDigitIn(s[k], base)
    ensures DigitRun(s, i, base) == |s|
    decreases |s| - i
  {
    if i < |s| { DigitRunAll(s, i + 1, base); }
  }

  /** A minus sign before rendered decimal digits is scanned as a negation. */
  lemma ScanNegativeDecimal(m: nat)
    ensures ScanInteger("-" + Decimal(m), 10) == Some(Scan(true, m, 1 + |Decimal(m)|))
  {
    var d := Decimal(m);
    var s := "-" + d;
    RenderDigits(m, 10);
    assert SkipSpaces(s, 0) == 0;
    forall k | 1 <= k < |s| ensures IsDigitIn(s[k], 10) { assert s[k] == d[k - 1]; }
    DigitRunAll(s, 1, 10);
    assert s[1..|s|] == d;
  }

  /** `stoull` inverts the decimal rendering of every 64-bit value. */
  lemma StoullDecimal(n: nat)
    requires n < TWO_64
    ensures Stoull(Decimal(n), 10) == Ok(Parsed(n, |Decimal(n)|))
  {
    ScanRender(n, 10);
  }

  /** `stoull` reads a signed decimal back as its two's-complement pattern. */
  lemma StoullSignedDecimal(v: int)
    requires -(TWO_63 as int) <= v < TWO_63
    ensures Stoull(SignedDecimal(v), 10) ==
      Ok(Parsed(if v < 0 then v + TWO_64 else v, |SignedDecimal(v)|))
  {
    var s := SignedDecimal(v);
    if v < 0 {
      ScanNegativeDecimal(-v);
      assert s == "-" + Decimal(-v);
      assert ScanInteger(s, 10) == Some(Scan(true, -v, |s|));
      ModBelow(TWO_64 - (-v), TWO_64);
    } else {
      ScanRender(v, 10);
      assert s == Render(v, 10);
      assert ScanInteger(s, 10) == Some(Scan(false, v, |s|));
    }
  }

  lemma ModBelow(a: int, m: int)
    requires 0 <= a < m
    ensures a % m == a
  {
  }

  /** `stoi` reads back the decimal rendering of every `int`. */
  lemma StoiSignedDecimal(v: int)
    requires INT_MIN <= v <= INT_MAX
    ensures Stoi(SignedDecimal(v)) == Ok(Parsed(v, |SignedDecimal(v)|))
  {
    var s := SignedDecimal(v);
    if v < 0 {
      ScanNegativeDecimal(-v);
      assert s == "-" + Decimal(-v);
      assert ScanInteger(s, 10) == Some(Scan(true, -v, |s|));
    } else {
      ScanRender(v, 10);
      assert s == Render(v, 10);
      assert ScanInteger(s, 10) == Some(Scan(false, v, |s|));
    }
  }


  /** `atoi` reads back the decimal rendering of every `int`. */
  lemma AtoiSignedDecimal(v: int)
    requires INT_MIN <= v <= INT_MAX
    ensures Atoi(SignedDecimal(v)) == Ok(v)
  {
    if v < 0 {
      ScanNegativeDecimal(-v);
    } else {
      ScanRender(v, 10);
    }
  }

  /** Beyond the `int` range the decimal text is read as undefined behaviour. */
  lemma AtoiTooLarge(v: int)
    requires v < INT_MIN || INT_MAX < v
    ensures Atoi(SignedDecimal(v)) == Err(Undefined)
  {
    if v < 0 {
      ScanNegativeDecimal(-v);
    } else {
      ScanRender(v, 10);
    }
  }
}
