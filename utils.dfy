/**
 * The command-line helpers: `get_number` and `get_double` parse a parameter
 * with `stoi`/`stod`, insist that the whole text was consumed and that the
 * value lies strictly inside a range, and `sqr` squares a number.
 */
module Utils {
  import opened Wrappers
  import opened Numerals

  /** The declared defaults `high = numeric_limits<int>::max()`, `low = 0`. */
  const NUMBER_HIGH: int := INT_MAX
  const NUMBER_LOW: int := 0

  /**
   * `get_number(name, param, high, low)`: `stoi` errors propagate; a value
   * with unconsumed text after it, or outside the open interval (low, high),
   * is refused with `out_of_range`.
   */
  function GetNumber(param: string, high: int, low: int): (r: Result<int>)
    ensures r.Ok? <==>
      Stoi(param).Ok? && Stoi(param).value.consumed == |param| &&
      low < Stoi(param).value.value < high
    ensures r.Ok? ==> r.value == Stoi(param).value.value
    ensures Stoi(param).Err? ==> r == Err(Stoi(param).error)
    ensures Stoi(param).Ok? && r.Err? ==> r.error == OutOfRange
  {
    var p :- Stoi(param);
    if p.consumed == |param| && low < p.value && p.value < high then Ok(p.value)
    else Err(OutOfRange)
  }

  /** `get_number` with its default bounds accepts exactly the positive `int`s below `INT_MAX`. */
  function GetNumberDefault(param: string): (r: Result<int>)
    ensures r.Ok? ==> 0 < r.value < INT_MAX
  {
    GetNumber(param, NUMBER_HIGH, NUMBER_LOW)
  }

  /**
   * With the default bounds, the decimal of an `int` is accepted exactly when
   * the value is positive and below `INT_MAX`, and then returned unchanged.
   */
  lemma GetNumberDefaultDecimal(v: int)
    requires INT_MIN <= v <= INT_MAX
    ensures GetNumberDefault(SignedDecimal(v)).Ok? <==> 0 < v < INT_MAX
    ensures GetNumberDefault(SignedDecimal(v)).Ok? ==> GetNumberDefault(SignedDecimal(v)).value == v
  {
    GetNumberDecimal(v, NUMBER_HIGH, NUMBER_LOW);
  }

  /**
   * A parameter written as the decimal of an `int` is accepted iff the value
   * lies strictly between the bounds, and then it is returned unchanged.
   */
  lemma GetNumberDecimal(v: int, high: int, low: int)
    requires INT_MIN <= v <= INT_MAX
    ensures GetNumber(SignedDecimal(v), high, low) ==
      if low < v < high then Ok(v) else Err(OutOfRange)
  {
    StoiSignedDecimal(v);
  }

  /** Trailing text after the number is refused, whatever the value. */
  lemma GetNumberTrailing(v: int, tail: string, high: int, low: int)
    requires INT_MIN <= v <= INT_MAX
    requires tail != [] && !IsDigitIn(tail[0], 10)
    ensures GetNumber(SignedDecimal(v) + tail, high, low) == Err(OutOfRange)
  {
    StoiSignedDecimal(v);
    ScanPrefix(SignedDecimal(v), tail);
  }

  /** Appending text that starts with a non-digit does not change what is scanned. */
  lemma ScanPrefix(d: string, tail: string)
    requires ScanInteger(d, 10).Some? && ScanInteger(d, 10).value.end == |d|
    requires tail != [] && !IsDigitIn(tail[0], 10)
    ensures ScanInteger(d + tail, 10) == ScanInteger(d, 10)
  {
    var s := d + tail;
    SkipSpacesPrefix(d, tail, 0);
    var i := SkipSpaces(d, 0);
    assert i < |d|;
    var signed := s[i] == '+' || s[i] == '-';
    var j := if signed then i + 1 else i;
    DigitRunPrefix(d, tail, j);
    assert s[j..DigitRun(d, j, 10)] == d[j..DigitRun(d, j, 10)];
  }

  lemma {:induction false} SkipSpacesPrefix(d: string, tail: string, i: nat)
    requires i <= |d| && SkipSpaces(d, i) < |d|
    ensures SkipSpaces(d + tail, i) == SkipSpaces(d, i)
    decreases |d| - i
  {
    assert (d + tail)[i] == d[i];
    if IsSpace(d[i]) { SkipSpacesPrefix(d, tail, i + 1); }
  }

  lemma {:induction false} DigitRunPrefix(d: string, tail: string, i: nat)
    requires i <= |d| && DigitRun(d, i, 10) == |d|
    requires tail != [] && !IsDigitIn(tail[0], 10)
    ensures DigitRun(d + tail, i, 10) == |d|
    decreases |d| - i
  {
    if i < |d| {
      assert (d + tail)[i] == d[i];
      DigitRunPrefix(d, tail, i + 1);
    } else {
      assert (d + tail)[i] == tail[0];
    }
  }

  /** What `std::stod(param, &sz)` produced: a value and the characters consumed. */
  datatype RealParse = RealParse(value: real, consumed: nat)

  /**
   * `get_double(name, param, high, low)`: the same rule as `get_number` for
   * reals.  Decimal-to-double conversion is not modelled: `stod` is the
   * outcome of `std::stod` on `param`.
   */
  function GetDouble(param: string, stod: Result<RealParse>, high: real, low: real): (r: Result<real>)
    ensures r.Ok? <==>
      stod.Ok? && stod.value.consumed == |param| && low < stod.value.value < high
    ensures r.Ok? ==> r.value == stod.value.value
    ensures stod.Ok? && r.Err? ==> r.error == OutOfRange
  {
    var p :- stod;
    if p.consumed == |param| && low < p.value && p.value < high then Ok(p.value)
    else Err(OutOfRange)
  }

  /** `sqr(x)`: the square, which is never negative and ignores the sign of `x`. */
  function Sqr(x: real): (r: real)
    ensures r >= 0.0
    ensures r == (-x) * (-x)
  {
    x * x
  }

  /** The magnitude of a real. */
  function Magnitude(x: real): real {
    if x < 0.0 then -x else x
  }

  /**
   * Comparing squares compares magnitudes, which is what lets the callers
   * test `sqr(side) / dsq < theta²` and distances squared in place of the
   * distances themselves.
   */
  lemma SqrComparesMagnitudes(x: real, y: real)
    ensures Sqr(x) < Sqr(y) <==> Magnitude(x) < Magnitude(y)
  {
    var a, b := Magnitude(x), Magnitude(y);
    assert Sqr(x) == a * a && Sqr(y) == b * b;
    if a < b {
      SquareBelow(a, b);
    } else {
      SquareBelow(b, a);
    }
  }

  lemma SquareBelow(a: real, b: real)
    requires 0.0 <= a <= b
    ensures a * a <= b * b
    ensures a < b ==> a * a < b * b
  {
    var gap := (b - a) * (b + a);
    assert gap == b * b - a * a;
    NonNegativeProduct(b - a, b + a);
    if a < b {
      PositiveProduct(b - a, b + a);
    }
  }

  lemma NonNegativeProduct(p: real, q: real)
    requires 0.0 <= p && 0.0 <= q
    ensures 0.0 <= p * q
  {
  }

  lemma PositiveProduct(p: real, q: real)
    requires 0.0 < p && 0.0 < q
    ensures 0.0 < p * q
  {
  }
}
