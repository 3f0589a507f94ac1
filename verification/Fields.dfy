/**
 The field parsers of src/dump1090.cpp, lines 188-328. Integer fields are parsed into an
 intermediate type of some width and then clamped or rejected; each is shown to depend on the
 unbounded value of the text only, whatever that width.
 */
module Fields {
  import opened Limits
  import opened Wrappers
  import opened Numerals
  import opened Text

  const ICAO_ADDRESS_MAX := 0xFFFFFF
  const SQUAWK_MAX := 7777

  /** The integer type can hold every value from lo to hi. */
  predicate Holds(t: IntType, lo: int, hi: int) {
    t.Min() <= lo && hi <= t.Max()
  }

  function Clamp(v: int, lo: int, hi: int): int
    requires lo <= hi
  {
    if v < lo then lo else if v > hi then hi else v
  }

  /** Clamping gives the value of the range that is nearest. */
  lemma ClampIsNearest(v: int, lo: int, hi: int, w: int)
    requires lo <= w <= hi
    ensures lo <= Clamp(v, lo, hi) <= hi
    ensures if Clamp(v, lo, hi) <= v then v - Clamp(v, lo, hi) <= (if w <= v then v - w else w - v)
            else Clamp(v, lo, hi) - v <= (if w <= v then v - w else w - v)
  {
  }

  predicate LooksNegative(s: string) {
    s != "" && s[0] == '-'
  }

  // ---------------------------------------------------------------- address

  /** sbs1_to_address, into a uint32_t. */
  function ToAddress(s: string): Option<nat> {
    var c := FromChars(s, 16, Unsigned(32));
    if c.ec != Ok || c.end != |s| || c.value <= 0 || c.value > ICAO_ADDRESS_MAX then None else Some(c.value)
  }

  /** Exactly the strings of hexadecimal digits whose value is a 24-bit address other than 0. */
  lemma AddressIsHexValue(s: string)
    ensures ToAddress(s) == if s != "" && AllDigits(s, 16) && 1 <= Value(s, 16) <= ICAO_ADDRESS_MAX
                            then Some(Value(s, 16)) else None
  {
    FullUnsigned(s, 16, Unsigned(32));
    PowersOfTwo();
  }

  // ---------------------------------------------------------------- altitude and vertical rate

  /** The common part: parse in full, and saturate the intermediate type on overflow. */
  function ParseSaturated(s: string, t: IntType): Option<int> {
    var c := FromChars(s, 10, t);
    if c.end != |s| || c.ec == InvalidArgument then None
    else if c.ec == ResultOutOfRange then Some(if LooksNegative(s) then t.Min() else t.Max())
    else Some(c.value)
  }

  /** sbs1_to_altitude; the intermediate type is long long. */
  function ToAltitude(s: string, longLong: IntType): Option<nat> {
    match ParseSaturated(s, longLong)
    case None => None
    case Some(v) => Some(Clamp(v, 0, UINT32_MAX))
  }

  /** sbs1_to_vertrate; the intermediate type is long. */
  function ToVertrate(s: string, long: IntType): Option<int> {
    match ParseSaturated(s, long)
    case None => None
    case Some(v) => Some(Clamp(v, INT16_MIN, INT16_MAX))
  }

  /** The unbounded decimal value, clamped: what both parsers are for. */
  function ClampedInteger(s: string, lo: int, hi: int): Option<int>
    requires lo <= hi
  {
    if IsInteger(s) then Some(Clamp(IntegerValue(s), lo, hi)) else None
  }

  lemma SaturationIsInvisible(s: string, t: IntType, lo: int, hi: int)
    requires t.Signed? && lo <= 0 <= hi && Holds(t, lo, hi)
    ensures (match ParseSaturated(s, t) case None => None case Some(v) => Some(Clamp(v, lo, hi)))
         == ClampedInteger(s, lo, hi)
  {
    FullSigned(s, t);
  }

  /** Altitude parsing does not depend on the width of long long, as long as it holds the range of a uint32_t. */
  lemma AltitudeIsClampedValue(s: string, longLong: IntType)
    requires longLong.Signed? && Holds(longLong, 0, UINT32_MAX)
    ensures ToAltitude(s, longLong) == ClampedInteger(s, 0, UINT32_MAX)
  {
    SaturationIsInvisible(s, longLong, 0, UINT32_MAX);
  }

  /** Vertical-rate parsing does not depend on the width of long, as long as it holds the range of an int16_t. */
  lemma VertrateIsClampedValue(s: string, long: IntType)
    requires long.Signed? && Holds(long, INT16_MIN, INT16_MAX)
    ensures ToVertrate(s, long) == ClampedInteger(s, INT16_MIN, INT16_MAX)
  {
    SaturationIsInvisible(s, long, INT16_MIN, INT16_MAX);
  }

  // ---------------------------------------------------------------- squawk

  function StripZeros(s: string): string {
    if s != "" && s[0] == '0' then StripZeros(s[1..]) else s
  }

  /** All digits, and without leading zeros at most four of them, each from 0 to 7. */
  predicate IsSquawk(s: string) {
    s != "" && AllDigits(s, 10) && |StripZeros(s)| <= 4 && AllDigits(StripZeros(s), 8)
  }

  function SquawkIn(s: string): Option<nat> {
    if IsSquawk(s) then Some(Value(s, 10)) else None
  }

  /** No decimal digit of v is an 8 or a 9. */
  predicate OctalDigits(v: nat) {
    v == 0 || (v % 10 <= 7 && OctalDigits(v / 10))
  }

  lemma OctalDigitsSnoc(v: nat, d: nat)
    requires d < 10
    ensures OctalDigits(v * 10 + d) <==> OctalDigits(v) && d <= 7
  {
    assert (v * 10 + d) % 10 == d && (v * 10 + d) / 10 == v;
  }

  lemma {:induction false} OctalDigitsOfValue(s: string)
    requires AllDigits(s, 10)
    ensures OctalDigits(Value(s, 10)) <==> AllDigits(s, 8)
  {
    if s != "" {
      var front, last := s[..|s| - 1], s[|s| - 1];
      OctalDigitsOfValue(front);
      OctalDigitsSnoc(Value(front, 10), DigitValue(last).value);
      assert AllDigits(s, 8) <==> AllDigits(front, 8) && IsDigit(last, 8) by {
        assert s == front + [last];
      }
    }
  }

  lemma {:induction false} StripKeepsValue(s: string)
    requires AllDigits(s, 10)
    ensures AllDigits(StripZeros(s), 10) && Value(StripZeros(s), 10) == Value(s, 10)
    ensures StripZeros(s) == "" || StripZeros(s)[0] != '0'
  {
    if s != "" && s[0] == '0' {
      StripKeepsValue(s[1..]);
      ValueConcat(s[..1], s[1..], 10);
      assert s[..1][..0] == "" && s == s[..1] + s[1..];
    }
  }

  /** The number of digits of a number written without leading zeros. */
  lemma {:induction false} LengthOfValue(z: string)
    requires AllDigits(z, 10) && z != "" && z[0] != '0'
    ensures Pow(10, |z| - 1) <= Value(z, 10) < Pow(10, |z|)
  {
    var front := z[..|z| - 1];
    if front == "" {
      assert z[..0] == "";
    } else {
      LengthOfValue(front);
    }
  }

  lemma {:induction false} OctalBound(v: nat, k: nat)
    requires OctalDigits(v) && v < Pow(10, k)
    ensures 9 * v <= 7 * (Pow(10, k) - 1)
  {
    if k > 0 && v > 0 {
      OctalBound(v / 10, k - 1);
    }
  }

  /** The code's test on the value is the test on the digits. */
  lemma SquawkByValue(s: string)
    requires s != "" && AllDigits(s, 10)
    ensures IsSquawk(s) <==> Value(s, 10) <= SQUAWK_MAX && OctalDigits(Value(s, 10))
  {
    var z := StripZeros(s);
    StripKeepsValue(s);
    OctalDigitsOfValue(z);
    assert Pow(10, 4) == 10000;
    if z != "" {
      LengthOfValue(z);
      if |z| <= 4 {
        PowMonotone(10, |z|, 4);
        if OctalDigits(Value(z, 10)) {
          OctalBound(Value(z, 10), 4);
        }
      } else {
        PowMonotone(10, 4, |z| - 1);
      }
    }
  }

  /** sbs1_to_squawk: into an unsigned long, then digit by digit. */
  method ToSquawk(s: string, unsignedLong: IntType) returns (r: Option<nat>)
    requires unsignedLong.Unsigned? && Holds(unsignedLong, 0, SQUAWK_MAX)
    ensures r == SquawkIn(s)
  {
    FullUnsigned(s, 10, unsignedLong);
    var c := FromChars(s, 10, unsignedLong);
    if s != "" && AllDigits(s, 10) {
      SquawkByValue(s);
    }
    if c.end != |s| || c.ec != Ok || c.value > SQUAWK_MAX {
      return None;
    }
    var digits: nat := c.value;
    while digits > 0
      invariant OctalDigits(c.value) <==> OctalDigits(digits)
    {
      if digits % 10 > 7 {
        return None;
      }
      digits := digits / 10;
    }
    return Some(c.value);
  }

  /** A stored squawk read as the octal number its digits spell. */
  function OctalReading(v: nat): nat {
    if v == 0 then 0 else OctalReading(v / 10) * 8 + v % 10
  }

  /** The stored form of a 12-bit identity code: its octal digits, as a decimal number. */
  function FromOctal(o: nat): nat {
    if o == 0 then 0 else FromOctal(o / 8) * 10 + o % 8
  }

  lemma {:induction false} OctalRoundTrip(o: nat, k: nat)
    requires o < Pow(8, k)
    ensures OctalDigits(FromOctal(o)) && OctalReading(FromOctal(o)) == o && FromOctal(o) < Pow(10, k)
  {
    PowMonotone(10, 0, k);
    if k > 0 && o > 0 {
      OctalRoundTrip(o / 8, k - 1);
      var f := FromOctal(o / 8);
      assert FromOctal(o) % 10 == o % 8 && FromOctal(o) / 10 == f;
    }
  }

  lemma {:induction false} DecimalRoundTrip(v: nat, k: nat)
    requires OctalDigits(v) && v < Pow(10, k)
    ensures FromOctal(OctalReading(v)) == v && OctalReading(v) < Pow(8, k)
  {
    PowMonotone(8, 0, k);
    if k > 0 && v > 0 {
      DecimalRoundTrip(v / 10, k - 1);
      var o := OctalReading(v / 10);
      assert OctalReading(v) % 8 == v % 10 && OctalReading(v) / 8 == o;
    }
  }

  /** The values the parser accepts, and the 4096 identity codes, correspond one to one. */
  lemma SquawksAreIdentityCodes(v: nat, o: nat)
    ensures o < 4096 ==> FromOctal(o) <= SQUAWK_MAX && OctalDigits(FromOctal(o)) && OctalReading(FromOctal(o)) == o
    ensures v <= SQUAWK_MAX && OctalDigits(v) ==> OctalReading(v) < 4096 && FromOctal(OctalReading(v)) == v
  {
    assert Pow(8, 4) == 4096 && Pow(10, 4) == 10000;
    if o < 4096 {
      OctalRoundTrip(o, 4);
      OctalBound(FromOctal(o), 4);
    }
    if v <= SQUAWK_MAX && OctalDigits(v) {
      DecimalRoundTrip(v, 4);
    }
  }

  lemma {:induction false} SameDigits(s: string)
    requires AllDigits(s, 8)
    ensures AllDigits(s, 10) && Value(s, 10) == FromOctal(Value(s, 8))
  {
    if s != "" {
      var front, d := s[..|s| - 1], DigitValue(s[|s| - 1]).value;
      SameDigits(front);
      assert Value(s, 8) % 8 == d && Value(s, 8) / 8 == Value(front, 8);
    }
  }

  /** A squawk as it stands in a record: four octal digits. */
  function PrintSquawk(o: nat): (s: string)
    requires o < 4096
  {
    assert Pow(8, 4) == 4096;
    Padded(o, 8, 4)
  }

  /** Printing an identity code and parsing it back stores exactly that code. */
  lemma SquawkRoundTrip(o: nat)
    requires o < 4096
    ensures SquawkIn(PrintSquawk(o)) == Some(FromOctal(o))
  {
    var s := PrintSquawk(o);
    SameDigits(s);
    SquawksAreIdentityCodes(0, o);
    SquawkByValue(s);
  }

  // ---------------------------------------------------------------- decimal fields

  /** n times ten to the power e. */
  function Scaled(n: nat, e: int): real {
    PowMonotone(10, 0, if e < 0 then -e else 0);
    if e >= 0 then (n * Pow(10, e)) as real else n as real / Pow(10, -e) as real
  }

  function ParseExponent(s: string): Option<int> {
    var digits := if s != "" && (s[0] == '-' || s[0] == '+') then s[1..] else s;
    if digits == "" || !AllDigits(digits, 10) then None
    else Some(if s[0] == '-' then 0 - Value(digits, 10) else Value(digits, 10))
  }

  /** The part after the sign: digits with at most one point among them, and perhaps an exponent. */
  function ParseUnsigned(body: string): Option<real> {
    var e := FindFirstOf(body, "eE", 0);
    var exponent := if e == |body| then Some(0) else ParseExponent(body[e + 1..]);
    var mantissa := body[..e];
    var p := FindFirstOf(mantissa, ".", 0);
    var fraction := if p == |mantissa| then "" else mantissa[p + 1..];
    var digits := mantissa[..p] + fraction;
    if exponent == None || digits == "" || !AllDigits(digits, 10) then None
    else Some(Scaled(Value(digits, 10), exponent.value - |fraction|))
  }

  /** A number in the general format of from_chars for floating point, in full, and not nan or inf. */
  function ParseReal(s: string): Option<real> {
    match ParseUnsigned(if LooksNegative(s) then s[1..] else s)
    case None => None
    case Some(magnitude) => Some(if LooksNegative(s) then -magnitude else magnitude)
  }

  /** sbs1_to_double. The largest finite double bounds no real number: `hi` is None for it. */
  function ToDouble(s: string, lo: real, hi: Option<real>): Option<real> {
    match ParseReal(s)
    case None => None
    case Some(v) => if v < lo || (hi.Some? && v > hi.value) then None else Some(v)
  }

  /** A decimal number with a fixed number of places. */
  datatype Fixed = Fixed(negative: bool, scaled: nat, places: nat)

  /** n divided by ten to the power of places. */
  function Shifted(n: nat, places: nat): real {
    PowMonotone(10, 0, places);
    n as real / Pow(10, places) as real
  }

  function WithSign(negative: bool, body: string): string {
    if negative then "-" + body else body
  }

  function Negated(negative: bool, v: real): real {
    if negative then -v else v
  }

  function FixedValue(x: Fixed): real {
    Negated(x.negative, Shifted(x.scaled, x.places))
  }

  function WholePart(n: nat, places: nat): (s: string)
    ensures s != "" && AllDigits(s, 10)
  {
    PowMonotone(10, 0, places);
    Decimal(n / Pow(10, places))
  }

  function FractionPart(n: nat, places: nat): (s: string)
    ensures |s| == places && AllDigits(s, 10)
  {
    PowMonotone(10, 0, places);
    Padded(n % Pow(10, places), 10, places)
  }

  /** As printf's %.*f writes the magnitude. */
  function PrintUnsigned(n: nat, places: nat): string {
    WholePart(n, places) + if places == 0 then "" else "." + FractionPart(n, places)
  }

  function PrintFixed(x: Fixed): string {
    WithSign(x.negative, PrintUnsigned(x.scaled, x.places))
  }

  lemma DigitsHaveNone(s: string, seps: string)
    requires AllDigits(s, 10) && forall c | c in seps :: !IsDigit(c, 10)
    ensures Free(s, seps)
  {
  }

  /** The text of a Fixed without its sign: whole digits, and a point and a fraction if it has places. */
  lemma UnsignedText(body: string, whole: string, fraction: string)
    requires AllDigits(whole, 10) && AllDigits(fraction, 10)
    requires body == whole + if fraction == "" then "" else "." + fraction
    ensures FindFirstOf(body, "eE", 0) == |body| && body[..|body|] == body
    ensures var p := FindFirstOf(body, ".", 0);
            body[..p] == whole && (if p == |body| then "" else body[p + 1..]) == fraction
  {
    DigitsHaveNone(whole, "eE.");
    DigitsHaveNone(fraction, "eE.");
    assert Free(body, "eE");
    FirstIs(body, "eE", 0, |body|);
    FirstIs(body, ".", 0, |whole|);
  }

  lemma SignedText(negative: bool, body: string)
    requires body != "" && IsDigit(body[0], 10)
    ensures var s := WithSign(negative, body);
            (LooksNegative(s) <==> negative) && (if LooksNegative(s) then s[1..] else s) == body
  {
  }

  lemma PartsValue(n: nat, places: nat)
    ensures var digits := WholePart(n, places) + FractionPart(n, places);
            AllDigits(digits, 10) && Value(digits, 10) == n
  {
    PowMonotone(10, 0, places);
    ValueConcat(WholePart(n, places), FractionPart(n, places), 10);
    DivMod(n, Pow(10, places));
  }

  lemma ScaledBack(n: nat, places: nat)
    ensures Scaled(n, 0 - places) == Shifted(n, places)
  {
  }

  lemma UnsignedRoundTrip(n: nat, places: nat)
    ensures ParseUnsigned(PrintUnsigned(n, places)) == Some(Shifted(n, places))
    ensures PrintUnsigned(n, places) != "" && IsDigit(PrintUnsigned(n, places)[0], 10)
  {
    UnsignedText(PrintUnsigned(n, places), WholePart(n, places), FractionPart(n, places));
    PartsValue(n, places);
    ScaledBack(n, places);
    assert PrintUnsigned(n, places)[0] == WholePart(n, places)[0];
  }

  lemma ParseSigned(negative: bool, body: string, v: real)
    requires body != "" && IsDigit(body[0], 10) && ParseUnsigned(body) == Some(v)
    ensures ParseReal(WithSign(negative, body)) == Some(Negated(negative, v))
  {
    SignedText(negative, body);
  }

  /** What is printed is parsed back as the very same number. */
  lemma FixedRoundTrip(x: Fixed)
    ensures ParseReal(PrintFixed(x)) == Some(FixedValue(x))
  {
    UnsignedRoundTrip(x.scaled, x.places);
    ParseSigned(x.negative, PrintUnsigned(x.scaled, x.places), Shifted(x.scaled, x.places));
  }
}
