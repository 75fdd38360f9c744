/** The pieces of Java's integer semantics the launcher relies on: the 32-bit
    `int` range, the signed 8-bit `byte` with its wrapping narrowing
    conversion, and `Integer.parseInt` as a partial function on strings. */
module JavaInt {
  import opened Wrappers

  const INT_MIN: int := -0x8000_0000
  const INT_MAX: int := 0x7fff_ffff

  /** True of the values a Java `int` can hold. */
  predicate IsInt(x: int) {
    INT_MIN <= x <= INT_MAX
  }

  /** Java's `byte`: a signed two's-complement 8-bit integer. */
  newtype Byte = x: int | -128 <= x < 128

  /** The narrowing conversion `(byte) x`: the unique byte congruent to `x`
      modulo 256, so values past 127 wrap round to negative ones. */
  function ToByte(x: int): (b: Byte)
    ensures (b as int - x) % 256 == 0
    ensures -128 <= x < 128 ==> b as int == x
  {
    ((x + 128) % 256 - 128) as Byte
  }

  /** Pre-incrementing a byte that holds `(byte) x` leaves `(byte) (x + 1)` in
      it: the counter of a loop that only ever increments a byte is the
      wrapped number of increments. */
  lemma ByteIncrement(x: int)
    ensures ToByte(ToByte(x) as int + 1) == ToByte(x + 1)
  {
    var b := ToByte(x) as int;
    assert (b + 1 - (x + 1)) % 256 == 0;
    ByteCongruence(b + 1, x + 1);
  }

  /** Two integers congruent modulo 256 narrow to the same byte. */
  lemma ByteCongruence(x: int, y: int)
    requires (x - y) % 256 == 0
    ensures ToByte(x) == ToByte(y)
  {
    var q := (x - y) / 256;
    assert x == y + 256 * q;
    assert x + 128 == (y + 128) + 256 * q;
    assert (x + 128) % 256 == (y + 128) % 256;
  }

  /** `Integer.parseInt` fails with a NumberFormatException naming its input. */
  datatype NumberFormatException = NumberFormatException(input: string)

  predicate IsDigit(c: char) {
    '0' <= c <= '9'
  }

  function DigitValue(c: char): nat
    requires IsDigit(c)
  {
    c as int - '0' as int
  }

  function DigitChar(d: nat): (c: char)
    requires d < 10
    ensures IsDigit(c) && DigitValue(c) == d
  {
    ('0' as int + d) as char
  }

  predicate AllDigits(s: string) {
    forall k :: 0 <= k < |s| ==> IsDigit(s[k])
  }

  /** The value of a string of decimal digits, most significant digit first. */
  function DigitsValue(s: string): nat
    requires AllDigits(s)
  {
    if |s| == 0 then 0 else 10 * DigitsValue(s[..|s| - 1]) + DigitValue(s[|s| - 1])
  }

  /** The digits that follow an optional leading sign. */
  function Magnitude(s: string): string {
    if |s| > 0 && (s[0] == '-' || s[0] == '+') then s[1..] else s
  }

  /** An optional `+` or `-` followed by at least one decimal digit. */
  predicate IsNumeral(s: string) {
    |Magnitude(s)| > 0 && AllDigits(Magnitude(s))
  }

  /** The mathematical value a numeral denotes. */
  function NumeralValue(s: string): int
    requires IsNumeral(s)
  {
    if s[0] == '-' then -(DigitsValue(Magnitude(s)) as int) else DigitsValue(Magnitude(s))
  }

  /** `Integer.parseInt(s)`, a partial function: anything that is not a
      numeral fails with an error naming the input. An accepted string is an
      optional sign, leading zeros and the canonical decimal spelling of the
      result's magnitude, and a negative result carries a minus sign. Java
      also accepts non-ASCII Unicode digits; this model does not. */
  function ParseInt(s: string): (r: Result<int, NumberFormatException>)
    ensures !IsNumeral(s) ==> r == Failure(NumberFormatException(s))
    ensures r.Failure? ==> r.error == NumberFormatException(s)
    ensures r.Success? ==> IsInt(r.value)
    ensures r.Success? ==> exists z: nat :: Magnitude(s) == Zeros(z) + DecimalString(Abs(r.value))
    ensures r.Success? ==> |s| > 0 && (r.value < 0 ==> s[0] == '-') && (s[0] == '-' ==> r.value <= 0)
  {
    if IsNumeral(s) && IsInt(NumeralValue(s)) then
      DigitsCanonical(Magnitude(s));
      Success(NumeralValue(s))
    else Failure(NumberFormatException(s))
  }

  function Abs(n: int): nat {
    if n < 0 then -n else n
  }

  /** A run of `z` zero digits. */
  function Zeros(z: nat): (s: string)
    ensures |s| == z
  {
    seq(z, _ => '0')
  }

  /** The decimal spelling of a natural number, without sign or leading zeros. */
  function DecimalString(n: nat): (s: string)
    ensures |s| > 0
  {
    if n < 10 then [DigitChar(n)] else DecimalString(n / 10) + [DigitChar(n % 10)]
  }

  /** `Integer.toString(n)`: a minus sign for negative values, then the
      decimal spelling of the magnitude. */
  function DecimalSpelling(n: int): string {
    if n < 0 then "-" + DecimalString(-n) else DecimalString(n)
  }

  /** Reading back a decimal spelling gives the number that was spelt. */
  lemma {:induction false} DecimalStringValue(n: nat)
    ensures AllDigits(DecimalString(n))
    ensures DigitsValue(DecimalString(n)) == n
  {
    var s := DecimalString(n);
    if n < 10 {
      assert s[..|s| - 1] == [];
    } else {
      DecimalStringValue(n / 10);
      var p := DecimalString(n / 10);
      assert s == p + [DigitChar(n % 10)];
      assert s[..|s| - 1] == p;
      assert forall k :: 0 <= k < |s| ==> IsDigit(s[k]) by {
        forall k | 0 <= k < |s|
          ensures IsDigit(s[k])
        {
          if k < |p| {
            assert s[k] == p[k];
          }
        }
      }
    }
  }

  /** Every non-empty string of digits is some leading zeros followed by the
      canonical decimal spelling of its value. */
  lemma {:induction false} DigitsCanonical(d: string)
    requires |d| > 0 && AllDigits(d)
    ensures exists z: nat :: d == Zeros(z) + DecimalString(DigitsValue(d))
    decreases |d|
  {
    var p := d[..|d| - 1];
    var c := d[|d| - 1];
    var v := DigitsValue(d);
    assert d == p + [c];
    assert v == 10 * DigitsValue(p) + DigitValue(c);
    if |p| == 0 {
      assert DecimalString(v) == [c];
      assert d == Zeros(0) + DecimalString(v);
    } else {
      DigitsCanonical(p);
      var vp := DigitsValue(p);
      var z: nat :| p == Zeros(z) + DecimalString(vp);
      if vp == 0 {
        assert DecimalString(0) == ['0'];
        assert p == Zeros(z + 1);
        assert DecimalString(v) == [c];
        assert d == Zeros(z + 1) + DecimalString(v);
      } else {
        assert v / 10 == vp && v % 10 == DigitValue(c);
        assert DecimalString(v) == DecimalString(vp) + [c];
        assert d == Zeros(z) + DecimalString(v);
      }
    }
  }

  /** `Integer.parseInt` reads back every `int` as `Integer.toString` spells
      it, `Integer.MIN_VALUE` included. */
  lemma ParseIntDecimal(n: int)
    requires IsInt(n)
    ensures ParseInt(DecimalSpelling(n)) == Success(n)
  {
    DecimalStringValue(Abs(n));
    var s := DecimalString(Abs(n));
    assert IsDigit(s[0]);
    assert Magnitude(s) == s;
    var t := "-" + s;
    assert t[0] == '-';
    assert Magnitude(t) == s;
  }

  /** A minus sign followed by anything but digits is not a numeral; in
      particular the option names `-s` and `-c` never parse. */
  lemma ParseIntRejectsOption(s: string)
    requires |s| >= 2 && s[0] == '-' && !IsDigit(s[1])
    ensures ParseInt(s) == Failure(NumberFormatException(s))
  {
    assert Magnitude(s)[0] == s[1];
  }
}
