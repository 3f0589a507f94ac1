/**
 Number syntax: std::from_chars (section 20.19.3 of ISO/IEC 14882:2020, [charconv.from.chars]) and
 strtol (section 7.22.1.4 of ISO C11), for integer types of any width.
 */
module Numerals {
  import opened Limits
  import opened Wrappers

  /** The value of a character as a digit of some base up to 16. */
  function DigitValue(c: char): Option<nat> {
    if '0' <= c <= '9' then Some(c as int - '0' as int)
    else if 'a' <= c <= 'f' then Some(c as int - 'a' as int + 10)
    else if 'A' <= c <= 'F' then Some(c as int - 'A' as int + 10)
    else None
  }

  predicate IsDigit(c: char, base: nat) {
    DigitValue(c).Some? && DigitValue(c).value < base
  }

  predicate AllDigits(s: string, base: nat) {
    forall i | 0 <= i < |s| :: IsDigit(s[i], base)
  }

  /** The unbounded value of a string of digits. */
  function Value(s: string, base: nat): nat
    requires AllDigits(s, base)
  {
    if s == "" then 0 else Value(s[..|s| - 1], base) * base + DigitValue(s[|s| - 1]).value
  }

  /** The length of the longest prefix of digits. */
  function DigitRun(s: string, base: nat): (n: nat)
    ensures n <= |s| && AllDigits(s[..n], base)
    ensures n < |s| ==> !IsDigit(s[n], base)
  {
    if s == "" || !IsDigit(s[0], base) then 0 else
      var n := DigitRun(s[1..], base);
      assert s[..n + 1] == [s[0]] + s[1..][..n];
      n + 1
  }

  function Pow(base: nat, n: nat): nat {
    if n == 0 then 1 else base * Pow(base, n - 1)
  }

  lemma {:induction false} PowMonotone(base: nat, m: nat, n: nat)
    requires base >= 1 && m <= n
    ensures 1 <= Pow(base, m) <= Pow(base, n)
    decreases n
  {
    if m == n {
      if n > 0 {
        PowMonotone(base, m - 1, n - 1);
      }
    } else {
      PowMonotone(base, m, n - 1);
    }
  }

  lemma MulAssoc(x: int, y: int, z: int)
    ensures x * (y * z) == (x * y) * z
  {
  }

  lemma DivMod(n: nat, p: nat)
    requires p > 0
    ensures (n / p) * p + n % p == n
  {
  }

  lemma {:induction false} PowSum(base: nat, m: nat, n: nat)
    ensures Pow(base, m + n) == Pow(base, m) * Pow(base, n)
  {
    if m > 0 {
      PowSum(base, m - 1, n);
      MulAssoc(base, Pow(base, m - 1), Pow(base, n));
    }
  }

  /** The widths the program's integer types have. */
  lemma PowersOfTwo()
    ensures Pow(2, 15) == 0x8000 && Pow(2, 16) == 0x1_0000 && Pow(2, 24) == 0x100_0000
    ensures Pow(2, 31) == 0x8000_0000 && Pow(2, 32) == 0x1_0000_0000
    ensures Pow(2, 63) == 0x8000_0000_0000_0000
  {
    assert Pow(2, 7) == 0x80 && Pow(2, 8) == 0x100;
    PowSum(2, 8, 7);
    PowSum(2, 8, 8);
    PowSum(2, 16, 8);
    PowSum(2, 16, 15);
    PowSum(2, 16, 16);
    PowSum(2, 32, 31);
  }

  lemma {:induction false} ValueConcat(a: string, b: string, base: nat)
    requires AllDigits(a, base) && AllDigits(b, base)
    ensures AllDigits(a + b, base)
    ensures Value(a + b, base) == Value(a, base) * Pow(base, |b|) + Value(b, base)
  {
    if b == "" {
      assert a + b == a;
    } else {
      var front, d := b[..|b| - 1], DigitValue(b[|b| - 1]).value;
      ValueConcat(a, front, base);
      assert (a + b)[..|a + b| - 1] == a + front;
      AppendDigit(Value(a, base), Pow(base, |front|), Value(front, base), base, d);
    }
  }

  lemma AppendDigit(x: nat, p: nat, y: nat, base: nat, d: nat)
    ensures (x * p + y) * base + d == x * (base * p) + (y * base + d)
  {
    assert (x * p) * base == x * (base * p) by {
      MulAssoc(x, p, base);
    }
  }

  // ---------------------------------------------------------------- from_chars

  datatype IntType = Signed(bits: nat) | Unsigned(bits: nat) {
    function Min(): int {
      if Signed? && bits >= 1 then 0 - Pow(2, bits - 1) else 0
    }

    function Max(): int {
      if Signed? then (if bits >= 1 then Pow(2, bits - 1) - 1 else 0) else Pow(2, bits) - 1
    }
  }

  /** The limits are those of the widths. */
  lemma LimitsOfWidths()
    ensures UINT8_MAX == Unsigned(8).Max() && UINT16_MAX == Unsigned(16).Max() && UINT32_MAX == Unsigned(32).Max()
    ensures INT16_MIN == Signed(16).Min() && INT16_MAX == Signed(16).Max()
    ensures UINT64_MAX == Unsigned(64).Max() && UINT64_RANGE == Pow(2, 64)
  {
    PowersOfTwo();
    assert Pow(2, 8) == 0x100;
    PowSum(2, 32, 32);
  }

  datatype Errc = Ok | InvalidArgument | ResultOutOfRange

  /** Where the conversion stopped, its error code, and the value: as initialised, unless it succeeded. */
  datatype Conversion = Conversion(end: nat, ec: Errc, value: int)

  /** A leading minus sign is part of the pattern for signed types only; a plus sign never is. */
  function FromChars(s: string, base: nat, t: IntType): Conversion {
    var negative := t.Signed? && s != "" && s[0] == '-';
    var start := if negative then 1 else 0;
    var n := DigitRun(s[start..], base);
    if n == 0 then Conversion(0, InvalidArgument, 0)
    else
      var magnitude := Value(s[start..][..n], base);
      var v := if negative then 0 - magnitude else magnitude;
      if t.Min() <= v <= t.Max() then Conversion(start + n, Ok, v)
      else Conversion(start + n, ResultOutOfRange, 0)
  }

  /** An optional minus sign and at least one decimal digit, nothing else. */
  predicate IsInteger(s: string) {
    var digits := if s != "" && s[0] == '-' then s[1..] else s;
    digits != "" && AllDigits(digits, 10)
  }

  function IntegerValue(s: string): int
    requires IsInteger(s)
  {
    if s[0] == '-' then 0 - Value(s[1..], 10) else Value(s, 10)
  }

  /** What a full-field conversion to a signed type amounts to. */
  lemma FullSigned(s: string, t: IntType)
    requires t.Signed?
    ensures var c := FromChars(s, 10, t);
            && (c.end == |s| && c.ec != InvalidArgument <==> IsInteger(s))
            && (IsInteger(s) ==> if t.Min() <= IntegerValue(s) <= t.Max() then c.ec == Ok && c.value == IntegerValue(s)
                                 else c.ec == ResultOutOfRange)
  {
    var digits := if s != "" && s[0] == '-' then s[1..] else s;
    var n := DigitRun(digits, 10);
    assert digits[..|digits|] == digits;
    assert AllDigits(digits, 10) ==> n == |digits|;
    assert s[0..] == s;
  }

  /** And to an unsigned type. */
  lemma FullUnsigned(s: string, base: nat, t: IntType)
    requires t.Unsigned?
    ensures var c := FromChars(s, base, t);
            && (c.end == |s| && c.ec != InvalidArgument <==> s != "" && AllDigits(s, base))
            && (s != "" && AllDigits(s, base) ==>
                  if Value(s, base) <= t.Max() then c.ec == Ok && c.value == Value(s, base)
                  else c.ec == ResultOutOfRange)
  {
    assert s[0..] == s;
    var n := DigitRun(s, base);
    assert s[..|s|] == s;
    assert AllDigits(s, base) ==> n == |s|;
  }

  // ---------------------------------------------------------------- strtol

  predicate IsSpace(c: char) {
    c == ' ' || '\t' <= c <= '\r'
  }

  function SkipSpaces(s: string): string {
    if s != "" && IsSpace(s[0]) then SkipSpaces(s[1..]) else s
  }

  /** The unbounded value of the subject sequence; 0 when there is none. */
  function StrtolValue(s: string): int {
    var t := SkipSpaces(s);
    var signed := t != "" && (t[0] == '-' || t[0] == '+');
    var digits := if signed then t[1..] else t;
    var magnitude := Value(digits[..DigitRun(digits, 10)], 10);
    if signed && t[0] == '-' then 0 - magnitude else magnitude
  }

  /** strtol proper saturates at the ends of long. */
  function Strtol(s: string, long: IntType): int {
    var v := StrtolValue(s);
    if v < long.Min() then long.Min() else if v > long.Max() then long.Max() else v
  }

  /** Tab, line feed, vertical tab, form feed, carriage return and space. */
  predicate AllWhite(s: string) {
    forall i | 0 <= i < |s| :: s[i] as int in {9, 10, 11, 12, 13, 32}
  }

  /** Where a run of digits ends. */
  lemma {:induction false} RunEnds(digits: string, rest: string, base: nat)
    requires AllDigits(digits, base) && (rest == "" || !IsDigit(rest[0], base))
    ensures DigitRun(digits + rest, base) == |digits|
  {
    if digits == "" {
      assert digits + rest == rest;
    } else {
      RunEnds(digits[1..], rest, base);
      assert (digits + rest)[1..] == digits[1..] + rest;
    }
  }

  lemma {:induction false} SpacesSkipped(white: string, s: string)
    requires AllWhite(white) && (s == "" || !IsSpace(s[0]))
    ensures SkipSpaces(white + s) == s
  {
    if white == "" {
      assert white + s == s;
    } else {
      SpacesSkipped(white[1..], s);
      assert (white + s)[1..] == white[1..] + s;
    }
  }

  /**
   What strtol reads: after white space, an optional sign and the digits that follow it, however many;
   whatever comes after them is passed over, and without digits the value is 0.
   */
  lemma StrtolReads(white: string, sign: string, digits: string, rest: string)
    requires AllWhite(white) && (sign == "" || sign == "+" || sign == "-")
    requires AllDigits(digits, 10) && (rest == "" || !IsDigit(rest[0], 10))
    requires sign == "" && digits == "" && rest != "" ==> !IsSpace(rest[0]) && rest[0] != '+' && rest[0] != '-'
    ensures StrtolValue(white + (sign + (digits + rest)))
         == if sign == "-" then 0 - Value(digits, 10) else Value(digits, 10)
  {
    var number := digits + rest;
    SpacesSkipped(white, sign + number);
    RunEnds(digits, rest, 10);
    assert number[..|digits|] == digits;
    if sign == "" {
      assert sign + number == number;
    } else {
      assert (sign + number)[1..] == number;
    }
  }

  // ---------------------------------------------------------------- printing

  function DigitChar(d: nat): char
    requires d < 16
  {
    if d < 10 then ('0' as int + d) as char else ('A' as int + d - 10) as char
  }

  const UPPER_DIGITS := "0123456789ABCDEF"
  const LOWER_DIGITS := "0123456789abcdef"

  /** Digits are those of either case, in their usual order, and nothing else. */
  lemma DigitsOfEitherCase(c: char, d: nat)
    ensures d < 16 ==> DigitValue(UPPER_DIGITS[d]) == Some(d) && DigitValue(LOWER_DIGITS[d]) == Some(d)
    ensures DigitValue(c).Some? ==> DigitValue(c).value < 16
    ensures DigitValue(c).Some? ==> c == UPPER_DIGITS[DigitValue(c).value] || c == LOWER_DIGITS[DigitValue(c).value]
  {
  }

  lemma DigitCharValue(d: nat)
    requires d < 16
    ensures DigitValue(DigitChar(d)) == Some(d)
  {
  }

  /** n in the given number of digits, padded with zeros. */
  function Padded(n: nat, base: nat, width: nat): (s: string)
    requires 2 <= base <= 16 && n < Pow(base, width)
    ensures |s| == width && AllDigits(s, base) && Value(s, base) == n
    decreases width
  {
    if width == 0 then ""
    else
      DivBelow(n, base, Pow(base, width - 1));
      DigitCharValue(n % base);
      var front := Padded(n / base, base, width - 1);
      var s := front + [DigitChar(n % base)];
      assert s[..|s| - 1] == front;
      s
  }

  lemma MulLess(x: nat, y: nat, z: nat)
    requires x * z < y * z
    ensures x < y
  {
  }

  lemma DivBelow(n: nat, base: nat, p: nat)
    requires base >= 1 && n < base * p
    ensures n / base < p && n == (n / base) * base + n % base
  {
    DivMod(n, base);
    MulLess(n / base, p, base);
  }

  /** n in decimal without leading zeros, as printf's %u writes it. */
  function Decimal(n: nat): (s: string)
    ensures s != "" && AllDigits(s, 10) && Value(s, 10) == n
    ensures s[0] != '-'
  {
    DigitCharValue(n % 10);
    var last := [DigitChar(n % 10)];
    assert last[..0] == "";
    if n < 10 then last
    else
      var s := Decimal(n / 10) + last;
      assert s[..|s| - 1] == Decimal(n / 10);
      s
  }

  /** And %d. */
  function SignedDecimal(n: int): (s: string)
    ensures IsInteger(s) && IntegerValue(s) == n
  {
    if n >= 0 then Decimal(n)
    else
      var s := "-" + Decimal(-n);
      assert s[1..] == Decimal(-n);
      s
  }
}
