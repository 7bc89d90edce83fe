/**
 * The bit-exact double codec.  A double is stored as the 64-bit pattern of
 * its IEEE-754 representation: `encode` prints the pattern reinterpreted as
 * `uint64_t` in decimal, `decode` reads it back with `stoull`, the Python
 * writer prints the pattern reinterpreted as a signed `'!q'` integer, and
 * `deserialize` reads a hexadecimal pattern.  The model never interprets a
 * pattern as a floating-point number.
 */
module Codec {
  import opened Wrappers
  import opened Numerals

  /** The bit pattern of one double. */
  type Bits64 = n: nat | n < TWO_64

  /**
   * `encode(value)`: the unsigned decimal digits of the pattern; no sign and no
   * leading zero.
   */
  function Encode(b: Bits64): (s: string)
    ensures |s| >= 1 && (s[0] != '0' || b == 0)
    ensures forall k :: 0 <= k < |s| ==> IsDigitIn(s[k], 10)
  {
    RenderDigits(b, 10);
    Decimal(b)
  }

  /** `decode(str)`: `stoull(str)` taken as the pattern of the result. */
  function Decode(s: string): (r: Result<Bits64>)
    ensures r.Err? ==> r.error == InvalidArgument || r.error == OutOfRange
  {
    match Stoull(s, 10)
    case Ok(p) => Ok(p.value as Bits64)
    case Err(e) => Err(e)
  }

  /** Decoding what `encode` wrote gives back the same 64-bit pattern. */
  lemma DecodeEncode(b: Bits64)
    ensures Decode(Encode(b)) == Ok(b)
  {
    StoullDecimal(b);
  }

  /** `encode` emits nothing but decimal digits, so its text is never signed. */
  lemma EncodeUnsigned(b: Bits64)
    ensures Encode(b)[0] != '-' && Encode(b)[0] != '+'
    ensures ValueOf(Encode(b), 10) == b
  {
    RenderDigits(b, 10);
  }

  /**
   * `stoull` throws `invalid_argument` on text that does not start, after
   * white space and a sign, with a digit: the empty string, and text starting
   * with anything but white space, a sign or a digit.
   */
  lemma DecodeRejectsNonNumeric(s: string)
    requires s == [] || !(IsSpace(s[0]) || s[0] == '+' || s[0] == '-' || IsDigitIn(s[0], 10))
    ensures Decode(s) == Err(InvalidArgument)
  {
  }

  /** Text whose magnitude needs more than 64 bits is refused with `out_of_range`. */
  lemma DecodeTooLarge(n: nat)
    requires n >= TWO_64
    ensures Decode(Decimal(n)) == Err(OutOfRange)
  {
    ScanRender(n, 10);
  }

  /** `unpack('!q', pack('!d', x))[0]`: the pattern read as a two's-complement integer. */
  function ToSigned(b: Bits64): (v: int)
    ensures -(TWO_63 as int) <= v < TWO_63
    ensures v >= 0 <==> b < TWO_63
    ensures (v + TWO_64) % TWO_64 == b
  {
    if b < TWO_63 then b else b - TWO_64
  }

  /** The Python `encode(x)`: the signed decimal of the pattern. */
  function PyEncode(b: Bits64): string {
    SignedDecimal(ToSigned(b))
  }

  /**
   * The C++ readers accept what the Python writer produces: a leading `-` is
   * negated modulo 2^64 by `stoull`, which restores the unsigned pattern.
   */
  lemma DecodePyEncode(b: Bits64)
    ensures Decode(PyEncode(b)) == Ok(b)
  {
    StoullSignedDecimal(ToSigned(b));
  }

  /** The two writers agree exactly on patterns whose sign bit is clear. */
  lemma PyEncodeNonNegative(b: Bits64)
    ensures PyEncode(b) == Encode(b) <==> b < TWO_63
  {
    if b >= TWO_63 {
      assert PyEncode(b)[0] == '-';
      RenderDigits(b, 10);
    }
  }

  /**
   * `hex(unpack('!q', pack('!d', x))[0])[2:]`: Python's `hex` writes `0x…`
   * or `-0x…`, and dropping two characters leaves the digits, or `x…` for a
   * negative value.
   */
  function PyHexField(b: Bits64): string {
    var v := ToSigned(b);
    var h := if v >= 0 then "0x" + LowerHex(v) else "-0x" + LowerHex(-v);
    h[2..]
  }

  /**
   * `deserialize(hexstr)`: `stoull(hexstr, nullptr, 16)` taken as the pattern,
   * or the pattern of 0.0 when `stoull` throws.
   */
  function Deserialize(hexstr: string): (b: Bits64)
    ensures Stoull(hexstr, 16).Err? ==> b == 0
  {
    match Stoull(hexstr, 16)
    case Ok(p) => p.value as Bits64
    case Err(_) => 0
  }

  /** `deserialize` reads back every rendered 64-bit hexadecimal pattern. */
  lemma DeserializeRender(b: Bits64, s: string)
    requires s == LowerHex(b)
    ensures Deserialize(s) == b
  {
    ScanRender(b, 16);
  }

  /** `deserialize` inverts the Python hex encoder on patterns with sign bit 0. */
  lemma DeserializePyHex(b: Bits64)
    requires b < TWO_63
    ensures Deserialize(PyHexField(b)) == b
  {
    DeserializeRender(b, PyHexField(b));
  }

  /**
   * For a negative value the Python field starts with `x`; `stoull` finds no
   * digit and `deserialize` falls back to 0.0.
   */
  lemma DeserializePyHexNegative(b: Bits64)
    requires b >= TWO_63
    ensures PyHexField(b)[0] == 'x'
    ensures Deserialize(PyHexField(b)) == 0
  {
    var s := PyHexField(b);
    assert s == "x" + LowerHex(-ToSigned(b));
    assert ScanInteger(s, 16).None?;
  }

  lemma Pow16Sixteen()
    ensures Pow16(16) == TWO_64
  {
    assert Pow16(4) == 0x1_0000;
    assert Pow16(8) == 0x1_0000 * Pow16(4) by { Pow16Add(4, 4); }
    assert Pow16(16) == Pow16(8) * Pow16(8) by { Pow16Add(8, 8); }
  }

  lemma {:induction false} Pow16Add(j: nat, k: nat)
    ensures Pow16(j + k) == Pow16(j) * Pow16(k)
  {
    if k > 0 {
      Pow16Add(j, k - 1);
      assert Pow16(j + k) == 16 * Pow16(j + k - 1);
    }
  }

  /**
   * `deserialize` reads every string of at most sixteen hexadecimal digits
   * as the number they denote; the accepted test vectors are all of this form.
   */
  lemma DeserializeDigits(s: string)
    requires 1 <= |s| <= 16
    requires forall k :: 0 <= k < |s| ==> IsDigitIn(s[k], 16)
    ensures Deserialize(s) == ValueOf(s, 16)
  {
    ValueOfBound(s, 16);
    Pow16Sixteen();
    Pow16Monotone(|s|, 16);
    ScanDigits(s, 16);
  }

  lemma {:induction false} Pow16Monotone(j: nat, k: nat)
    requires j <= k
    ensures Pow16(j) <= Pow16(k)
  {
    if j < k { Pow16Monotone(j, k - 1); }
  }
}
