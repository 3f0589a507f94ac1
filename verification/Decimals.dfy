/**
 What the parser of decimal fields accepts (src/dump1090.cpp, lines 210-231): exactly the general format
 of std::from_chars (section 20.19.3 of ISO/IEC 14882:2020, [charconv.from.chars]), in full, with the
 value that the text writes.
 */
module Decimals {
  import opened Wrappers
  import opened Numerals
  import opened Text
  import opened Fields

  /** The parts of a decimal number as it is written. */
  datatype Numeral = Numeral(negative: bool, whole: string, point: bool, fraction: string, exponent: Option<Exponent>)

  datatype Exponent = Exponent(mark: char, sign: string, digits: string)

  predicate WellFormedExponent(x: Exponent) {
    && (x.mark == 'e' || x.mark == 'E') && (x.sign == "" || x.sign == "+" || x.sign == "-")
    && x.digits != "" && AllDigits(x.digits, 10)
  }

  /** An optional minus sign, digits with at most one point and at least one digit, and perhaps an exponent. */
  predicate WellFormed(n: Numeral) {
    && AllDigits(n.whole, 10) && AllDigits(n.fraction, 10) && (n.whole != "" || n.fraction != "")
    && (!n.point ==> n.fraction == "")
    && (n.exponent.Some? ==> WellFormedExponent(n.exponent.value))
  }

  function MantissaText(n: Numeral): string {
    n.whole + if n.point then "." + n.fraction else ""
  }

  function ExponentText(x: Option<Exponent>): string {
    match x
    case None => ""
    case Some(e) => [e.mark] + (e.sign + e.digits)
  }

  function Body(n: Numeral): string {
    MantissaText(n) + ExponentText(n.exponent)
  }

  function TextOf(n: Numeral): string {
    WithSign(n.negative, Body(n))
  }

  function ExponentValue(x: Option<Exponent>): int
    requires x.Some? ==> WellFormedExponent(x.value)
  {
    match x
    case None => 0
    case Some(e) => if e.sign == "-" then 0 - Value(e.digits, 10) else Value(e.digits, 10)
  }

  function Digits(n: Numeral): (d: string)
    requires WellFormed(n)
    ensures AllDigits(d, 10) && d != ""
  {
    n.whole + n.fraction
  }

  // ---------------------------------------------------------------- what is written is parsed

  lemma UnsignedExponent(digits: string)
    requires digits != "" && AllDigits(digits, 10)
    ensures ParseExponent(digits) == Some(Value(digits, 10))
  {
    hide Value;
    assert IsDigit(digits[0], 10);
  }

  lemma SignedExponent(sign: char, digits: string)
    requires (sign == '-' || sign == '+') && digits != "" && AllDigits(digits, 10)
    ensures ParseExponent([sign] + digits) == Some(if sign == '-' then 0 - Value(digits, 10) else Value(digits, 10))
  {
    hide Value, AllDigits;
    assert ([sign] + digits)[1..] == digits;
  }

  lemma ExponentParsed(e: Exponent)
    requires WellFormedExponent(e)
    ensures ParseExponent(e.sign + e.digits) == Some(ExponentValue(Some(e)))
  {
    hide Value, AllDigits, ParseExponent;
    if e.sign == "" {
      assert e.sign + e.digits == e.digits;
      UnsignedExponent(e.digits);
    } else {
      assert e.sign == [e.sign[0]];
      SignedExponent(e.sign[0], e.digits);
    }
  }

  lemma MantissaIsFree(n: Numeral)
    requires WellFormed(n)
    ensures Free(MantissaText(n), "eE")
  {
    DigitsHaveNone(n.whole, "eE.");
    DigitsHaveNone(n.fraction, "eE.");
  }

  lemma MantissaSplit(n: Numeral)
    requires WellFormed(n)
    ensures var m := MantissaText(n);
            var p := FindFirstOf(m, ".", 0);
            m[..p] == n.whole && (if p == |m| then "" else m[p + 1..]) == n.fraction
  {
    DigitsHaveNone(n.whole, "eE.");
    FirstIs(MantissaText(n), ".", 0, |n.whole|);
  }

  lemma BodySplit(n: Numeral)
    requires WellFormed(n)
    ensures var body := Body(n);
            var e := FindFirstOf(body, "eE", 0);
            && body[..e] == MantissaText(n) && (n.exponent == None <==> e == |body|)
            && (n.exponent.Some? ==> body[e + 1..] == n.exponent.value.sign + n.exponent.value.digits)
  {
    hide MantissaText;
    MantissaIsFree(n);
    var body, m := Body(n), MantissaText(n);
    FirstIs(body, "eE", 0, |m|);
    if n.exponent.Some? {
      var e := n.exponent.value;
      assert body[|m|..] == [e.mark] + (e.sign + e.digits);
    }
  }

  /** ParseUnsigned, given where its text comes apart. */
  lemma UnsignedOf(body: string, whole: string, fraction: string, exponent: int)
    requires var e := FindFirstOf(body, "eE", 0);
             var p := FindFirstOf(body[..e], ".", 0);
             && body[..e][..p] == whole && (if p == |body[..e]| then "" else body[..e][p + 1..]) == fraction
             && (if e == |body| then Some(0) else ParseExponent(body[e + 1..])) == Some(exponent)
    requires whole + fraction != "" && AllDigits(whole + fraction, 10)
    ensures ParseUnsigned(body) == Some(Scaled(Value(whole + fraction, 10), exponent - |fraction|))
  {
    hide FindFirstOf, ParseExponent, Scaled, Value, AllDigits;
  }

  lemma BodyParsed(n: Numeral)
    requires WellFormed(n)
    ensures ParseUnsigned(Body(n)) == Some(Scaled(Value(Digits(n), 10), ExponentValue(n.exponent) - |n.fraction|))
  {
    hide FindFirstOf, ParseExponent, Scaled, Value, ParseUnsigned, MantissaText, Body;
    BodySplit(n);
    MantissaSplit(n);
    if n.exponent.Some? {
      ExponentParsed(n.exponent.value);
    }
    assert Digits(n) == n.whole + n.fraction;
    UnsignedOf(Body(n), n.whole, n.fraction, ExponentValue(n.exponent));
  }

  lemma BodyIsUnsigned(n: Numeral)
    requires WellFormed(n)
    ensures Body(n) != "" && Body(n)[0] != '-'
  {
  }

  /** Every decimal number is parsed, with its sign and the value of its digits and exponent. */
  lemma NumeralParsed(n: Numeral)
    requires WellFormed(n)
    ensures ParseReal(TextOf(n))
         == Some(Negated(n.negative, Scaled(Value(Digits(n), 10), ExponentValue(n.exponent) - |n.fraction|)))
  {
    hide Body, ParseUnsigned, Scaled, Value;
    BodyParsed(n);
    BodyIsUnsigned(n);
    var s := TextOf(n);
    assert LooksNegative(s) <==> n.negative;
    assert (if LooksNegative(s) then s[1..] else s) == Body(n);
  }

  // ---------------------------------------------------------------- what is parsed is written

  lemma ExponentRead(s: string) returns (e: Exponent)
    requires ParseExponent(s).Some?
    ensures e.sign + e.digits == s && WellFormedExponent(e.(mark := 'e'))
  {
    if s[0] == '-' || s[0] == '+' {
      e := Exponent('e', s[..1], s[1..]);
      assert s == s[..1] + s[1..];
    } else {
      e := Exponent('e', "", s);
    }
  }

  lemma MantissaRead(m: string) returns (n: Numeral)
    requires var p := FindFirstOf(m, ".", 0);
             var digits := m[..p] + if p == |m| then "" else m[p + 1..];
             digits != "" && AllDigits(digits, 10)
    ensures n.exponent == None && !n.negative && WellFormed(n) && MantissaText(n) == m
  {
    var p := FindFirstOf(m, ".", 0);
    var fraction := if p == |m| then "" else m[p + 1..];
    n := Numeral(false, m[..p], p < |m|, fraction, None);
    AllDigitsParts(m[..p], fraction);
    assert m == MantissaText(n);
  }

  lemma AllDigitsParts(a: string, b: string)
    requires AllDigits(a + b, 10)
    ensures AllDigits(a, 10) && AllDigits(b, 10)
  {
    assert forall i | 0 <= i < |a| :: (a + b)[i] == a[i];
    assert forall i | 0 <= i < |b| :: (a + b)[|a| + i] == b[i];
  }

  lemma Around(s: string, i: nat)
    requires i < |s|
    ensures s == s[..i] + ([s[i]] + s[i + 1..])
  {
  }

  lemma BodyParts(body: string)
    requires ParseUnsigned(body).Some?
    ensures var e := FindFirstOf(body, "eE", 0);
            var m := body[..e];
            var p := FindFirstOf(m, ".", 0);
            var digits := m[..p] + if p == |m| then "" else m[p + 1..];
            && digits != "" && AllDigits(digits, 10)
            && (e < |body| ==> ParseExponent(body[e + 1..]).Some?)
  {
    hide FindFirstOf, ParseExponent, Scaled, Value, AllDigits;
  }

  lemma PlainBodyRead(body: string) returns (n: Numeral)
    requires ParseUnsigned(body).Some? && FindFirstOf(body, "eE", 0) == |body|
    ensures WellFormed(n) && !n.negative && Body(n) == body
  {
    BodyParts(body);
    hide *;
    n := MantissaRead(body[..|body|]);
    PlainBody(n);
    assert body[..|body|] == body;
  }

  lemma ExponentBodyRead(body: string, e: nat) returns (n: Numeral)
    requires ParseUnsigned(body).Some? && e == FindFirstOf(body, "eE", 0) && e < |body|
    ensures WellFormed(n) && !n.negative && Body(n) == body
  {
    BodyParts(body);
    IsMark(body[e]);
    hide *;
    n := MantissaRead(body[..e]);
    var x := ExponentRead(body[e + 1..]);
    Around(body, e);
    Remarked(x, body[e]);
    n := WithExponent(n, x.(mark := body[e]));
  }

  lemma IsMark(c: char)
    ensures c in "eE" ==> c == 'e' || c == 'E'
  {
  }

  lemma Remarked(x: Exponent, c: char)
    requires WellFormedExponent(x.(mark := 'e')) && (c == 'e' || c == 'E')
    ensures WellFormedExponent(x.(mark := c))
  {
  }

  lemma BodyRead(body: string) returns (n: Numeral)
    requires ParseUnsigned(body).Some?
    ensures WellFormed(n) && !n.negative && Body(n) == body
  {
    hide *;
    if FindFirstOf(body, "eE", 0) == |body| {
      n := PlainBodyRead(body);
    } else {
      n := ExponentBodyRead(body, FindFirstOf(body, "eE", 0));
    }
  }

  lemma PlainBody(n: Numeral)
    requires n.exponent == None
    ensures Body(n) == MantissaText(n)
  {
    assert MantissaText(n) + "" == MantissaText(n);
  }

  lemma WithExponent(n: Numeral, x: Exponent) returns (m: Numeral)
    requires WellFormed(n) && n.exponent == None && WellFormedExponent(x)
    ensures WellFormed(m) && m.negative == n.negative && Body(m) == MantissaText(n) + ([x.mark] + (x.sign + x.digits))
  {
    m := n.(exponent := Some(x));
  }

  /** Nothing else is parsed: no empty or partial number, no plus sign, no space, no nan or inf, nothing trailing. */
  lemma NumeralRead(s: string) returns (n: Numeral)
    requires ParseReal(s).Some?
    ensures WellFormed(n) && TextOf(n) == s
  {
    n := BodyRead(if LooksNegative(s) then s[1..] else s);
    n := n.(negative := LooksNegative(s));
    if LooksNegative(s) {
      assert s == "-" + s[1..];
    }
  }

  // ---------------------------------------------------------------- the value

  lemma RealMulAssoc(x: real, y: real, z: real)
    ensures x * (y * z) == (x * y) * z
  {
  }

  lemma PowsOfTen(m: nat, n: nat)
    ensures Pow(10, m) >= 1 && Pow(10, n) >= 1
    ensures Pow(10, m + n) as real == (Pow(10, m) as real) * (Pow(10, n) as real)
  {
    PowMonotone(10, 0, m);
    PowMonotone(10, 0, n);
    PowSum(10, m, n);
  }

  lemma QuotientTimes(n: real, p: real)
    requires p != 0.0
    ensures (n / p) * p == n
  {
  }

  /** The positive and the negative part of an exponent, as powers of ten. */
  function Up(e: int): real {
    if e >= 0 then Pow(10, e) as real else 1.0
  }

  function Down(e: int): real {
    if e >= 0 then 1.0 else Pow(10, 0 - e) as real
  }

  lemma ScaleUp(s: real, n: real, t: real, p: real, u: real)
    requires s == n * t && t * p == u
    ensures s * p == n * u
  {
    RealMulAssoc(n, t, p);
  }

  lemma ScaleDown(s: real, n: real, q: real, p: real, u: real)
    requires s * q == n && q * u == p
    ensures s * p == n * u
  {
    RealMulAssoc(s, q, u);
  }

  lemma ScaleFurtherDown(s: real, n: real, q: real, p: real, d: real)
    requires s * q == n && p * d == q
    ensures s * p * d == n
  {
    RealMulAssoc(s, p, d);
  }

  lemma Scalings(digits: nat, k: int)
    ensures k >= 0 ==> Scaled(digits, k) == (digits as real) * (Pow(10, k) as real)
    ensures k < 0 ==> Scaled(digits, k) * (Pow(10, 0 - k) as real) == digits as real
  {
    if k < 0 {
      PowMonotone(10, 0, 0 - k);
      QuotientTimes(digits as real, Pow(10, 0 - k) as real);
    }
  }

  lemma UpAndDown(e: int)
    ensures e >= 0 ==> Up(e) == Pow(10, e) as real && Down(e) == 1.0
    ensures e < 0 ==> Up(e) == 1.0 && Down(e) == Pow(10, 0 - e) as real
  {
    hide Pow;
  }

  lemma ScaledAbove(digits: nat, k: nat, places: nat)
    ensures Scaled(digits, k) * (Pow(10, places) as real) == (digits as real) * (Pow(10, k + places) as real)
  {
    hide *;
    Scalings(digits, k);
    PowsOfTen(k, places);
    ScaleUp(Scaled(digits, k), digits as real, Pow(10, k) as real,
            Pow(10, places) as real, Pow(10, k + places) as real);
  }

  lemma ScaledBelow(digits: nat, q: nat, e: nat)
    requires q > 0
    ensures Scaled(digits, 0 - q) * (Pow(10, q + e) as real) == (digits as real) * (Pow(10, e) as real)
  {
    hide *;
    Scalings(digits, 0 - q);
    assert 0 - (0 - q) == q;
    PowsOfTen(q, e);
    ScaleDown(Scaled(digits, 0 - q), digits as real, Pow(10, q) as real, Pow(10, q + e) as real, Pow(10, e) as real);
  }

  lemma ScaledByPositive(digits: nat, e: nat, places: nat)
    ensures Scaled(digits, e - places) * (Pow(10, places) as real) == (digits as real) * (Pow(10, e) as real)
  {
    hide *;
    if e >= places {
      ScaledAbove(digits, e - places, places);
      assert e - places + places == e;
    } else {
      ScaledBelow(digits, places - e, e);
      assert places - e + e == places && 0 - (places - e) == e - places;
    }
  }

  lemma ScaledByNegative(digits: nat, d: nat, places: nat)
    requires d > 0
    ensures Scaled(digits, 0 - d - places) * (Pow(10, places) as real) * (Pow(10, d) as real) == digits as real
  {
    hide *;
    Scalings(digits, 0 - d - places);
    PowsOfTen(places, d);
    assert 0 - (0 - d - places) == places + d;
    ScaleFurtherDown(Scaled(digits, 0 - d - places), digits as real, Pow(10, places + d) as real,
                     Pow(10, places) as real, Pow(10, d) as real);
  }

  /** Scaling, without a division: places and negative exponents on one side, positive exponents on the other. */
  lemma ScaledIs(digits: nat, e: int, places: nat)
    ensures Scaled(digits, e - places) * (Pow(10, places) as real) * Down(e) == (digits as real) * Up(e)
  {
    hide *;
    UpAndDown(e);
    if e >= 0 {
      ScaledByPositive(digits, e, places);
    } else {
      ScaledByNegative(digits, 0 - e, places);
      assert 0 - (0 - e) == e;
    }
  }

  /** The magnitude is the one that the digits, the point and the exponent write. */
  ghost predicate Writes(n: Numeral, magnitude: real)
    requires WellFormed(n)
  {
    magnitude * (Pow(10, |n.fraction|) as real) * Down(ExponentValue(n.exponent))
    == (Value(Digits(n), 10) as real) * Up(ExponentValue(n.exponent))
  }

  /**
   What sbs1_to_double accepts, exactly: the texts of decimal numbers whose value lies in the range, and
   its result is that value.
   */
  lemma DoublesExactly(s: string, lo: real, hi: Option<real>)
    ensures ToDouble(s, lo, hi).Some? <==>
              exists n, v :: && WellFormed(n) && TextOf(n) == s && Writes(n, v)
                             && lo <= Negated(n.negative, v) && (hi.Some? ==> Negated(n.negative, v) <= hi.value)
    ensures forall n, v | WellFormed(n) && TextOf(n) == s && Writes(n, v) ::
              ToDouble(s, lo, hi).Some? ==> ToDouble(s, lo, hi).value == Negated(n.negative, v)
  {
    hide WellFormed, TextOf, Writes, Negated, ParseReal;
    forall n, v | WellFormed(n) && TextOf(n) == s && Writes(n, v) ensures ParseReal(s) == Some(Negated(n.negative, v)) {
      ParsedAsWritten(n, v);
    }
    if ParseReal(s).Some? {
      var n := NumeralRead(s);
      var v := WrittenValue(n);
      assert ParseReal(s) == Some(Negated(n.negative, v));
    }
  }

  lemma WrittenValue(n: Numeral) returns (v: real)
    requires WellFormed(n)
    ensures Writes(n, v)
  {
    hide Scaled, Pow, Value, Digits, Up, Down;
    v := Scaled(Value(Digits(n), 10), ExponentValue(n.exponent) - |n.fraction|);
    ScaledIs(Value(Digits(n), 10), ExponentValue(n.exponent), |n.fraction|);
  }

  lemma CancelOne(x: real, y: real, p: real)
    requires p > 0.0 && x * p == y * p
    ensures x == y
  {
    assert (x - y) * p == 0.0;
  }

  lemma Cancel(x: real, y: real, p: real, q: real, z: real)
    requires p > 0.0 && q > 0.0 && x * p * q == z && y * p * q == z
    ensures x == y
  {
    CancelOne(x * p, y * p, q);
    CancelOne(x, y, p);
  }

  lemma PowersArePositive(e: int, places: nat)
    ensures Pow(10, places) as real > 0.0 && Down(e) > 0.0
  {
    PowMonotone(10, 0, places);
    PowMonotone(10, 0, if e < 0 then 0 - e else 0);
  }

  lemma ParsedAsWritten(n: Numeral, v: real)
    requires WellFormed(n) && Writes(n, v)
    ensures ParseReal(TextOf(n)) == Some(Negated(n.negative, v))
  {
    hide Scaled, Pow, Value, Digits, Up, Down, ParseReal, TextOf;
    NumeralParsed(n);
    var e, digits, p := ExponentValue(n.exponent), Value(Digits(n), 10), Pow(10, |n.fraction|) as real;
    var u := Scaled(digits, e - |n.fraction|);
    ScaledIs(digits, e, |n.fraction|);
    PowersArePositive(e, |n.fraction|);
    Cancel(u, v, p, Down(e), (digits as real) * Up(e));
  }
}
