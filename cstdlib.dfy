/**
 * The C and C++ standard-library behaviour the engine relies on, stated over
 * unbounded integers and reals: the character classes of the "C" locale, the
 * leading-prefix number conversions std::stoul, std::stoi and std::stod/std::stof
 * (decimal notation only), std::round, and the conversion of a double to size_t.
 */
module CStdlib {
  import opened Outcomes

  /** std::isspace in the "C" locale. */
  predicate IsSpace(c: char) {
    c == ' ' || c == '\t' || c == '\n' || c == '\r' || c == '\U{0B}' || c == '\U{0C}'
  }

  predicate IsDigit(c: char) {
    '0' <= c <= '9'
  }

  predicate AllDigits(s: string) {
    forall k | 0 <= k < |s| :: IsDigit(s[k])
  }

  function DigitValue(c: char): (d: nat)
    requires IsDigit(c)
    ensures d < 10
  {
    c as int - '0' as int
  }

  function DigitChar(d: nat): (c: char)
    requires d < 10
    ensures IsDigit(c) && DigitValue(c) == d
  {
    ('0' as int + d) as char
  }

  /** The value of a run of decimal digits, most significant first. */
  function DigitsValue(ds: string): nat
    requires AllDigits(ds)
  {
    if ds == [] then 0 else 10 * DigitsValue(ds[..|ds| - 1]) + DigitValue(ds[|ds| - 1])
  }

  /** The decimal text of a natural number (what std::to_string prints for it). */
  function NatToDecimal(n: nat): (s: string)
    ensures |s| > 0 && AllDigits(s)
    ensures DigitsValue(s) == n
  {
    if n < 10 then [DigitChar(n)]
    else
      var s := NatToDecimal(n / 10) + [DigitChar(n % 10)];
      assert s[..|s| - 1] == NatToDecimal(n / 10);
      s
  }

  function Pow10(k: nat): (p: nat)
    ensures p >= 1
  {
    if k == 0 then 1 else 10 * Pow10(k - 1)
  }

  /** The value of the digits after a decimal point. */
  function FractionValue(ds: string): real
    requires AllDigits(ds)
  {
    DigitsValue(ds) as real / Pow10(|ds|) as real
  }

  /** The first index at or after i that does not satisfy std::isspace. */
  function SkipSpaces(s: string, i: nat): (j: nat)
    requires i <= |s|
    ensures i <= j <= |s|
    ensures forall k | i <= k < j :: IsSpace(s[k])
    ensures j < |s| ==> !IsSpace(s[j])
    decreases |s| - i
  {
    if i < |s| && IsSpace(s[i]) then SkipSpaces(s, i + 1) else i
  }

  /** The end of the run of digits that starts at i. */
  function DigitsEnd(s: string, i: nat): (j: nat)
    requires i <= |s|
    ensures i <= j <= |s|
    ensures AllDigits(s[i..j])
    ensures j < |s| ==> !IsDigit(s[j])
    decreases |s| - i
  {
    if i < |s| && IsDigit(s[i]) then
      var j := DigitsEnd(s, i + 1);
      assert s[i..j] == [s[i]] + s[i + 1..j];
      j
    else i
  }

  /** A number read from the front of a string and the count of characters it used. */
  datatype Parsed<T> = Parsed(value: T, end: nat)

  /**
   * std::stoul: skips leading white space, accepts an optional '+' and reads the
   * longest run of digits; None where std::stoul throws std::invalid_argument.
   */
  function ParseUnsignedPrefix(s: string): (r: Option<Parsed<nat>>)
    ensures r.Some? ==> 0 < r.value.end <= |s| && IsDigit(s[r.value.end - 1])
    ensures r.Some? && r.value.end < |s| ==> !IsDigit(s[r.value.end])
  {
    var i := SkipSpaces(s, 0);
    var j := if i < |s| && s[i] == '+' then i + 1 else i;
    var k := DigitsEnd(s, j);
    if k == j then None else Some(Parsed(DigitsValue(s[j..k]), k))
  }

  /**
   * std::stoi before its range check: white space, an optional sign and the
   * longest run of digits; None where std::stoi throws std::invalid_argument.
   */
  function ParseIntPrefix(s: string): (r: Option<Parsed<int>>)
    ensures r.Some? ==> 0 < r.value.end <= |s| && IsDigit(s[r.value.end - 1])
    ensures r.Some? && r.value.end < |s| ==> !IsDigit(s[r.value.end])
  {
    var i := SkipSpaces(s, 0);
    var negative := i < |s| && s[i] == '-';
    var j := if i < |s| && (s[i] == '+' || s[i] == '-') then i + 1 else i;
    var k := DigitsEnd(s, j);
    if k == j then None
    else
      var magnitude: int := DigitsValue(s[j..k]);
      Some(Parsed(if negative then -magnitude else magnitude, k))
  }

  /** The range of a 32-bit int, outside which std::stoi throws std::out_of_range. */
  const IntMin: int := -0x8000_0000
  const IntMax: int := 0x7FFF_FFFF

  /**
   * std::stod and std::stof on decimal notation: white space, an optional sign,
   * then an unsigned decimal; None where the conversion throws std::invalid_argument.
   */
  function ParseRealPrefix(s: string): (r: Option<Parsed<real>>)
    ensures r.Some? ==> 0 < r.value.end <= |s|
    ensures r.Some? && r.value.end < |s| ==> !IsDigit(s[r.value.end])
  {
    var i := SkipSpaces(s, 0);
    var negative := i < |s| && s[i] == '-';
    var j := if i < |s| && (s[i] == '+' || s[i] == '-') then i + 1 else i;
    match UnsignedDecimalAt(s, j)
    case None => None
    case Some(p) => Some(Parsed(if negative then -p.value else p.value, p.end))
  }

  /**
   * Digits, and an optional '.' followed by digits, from position j, with at
   * least one digit in all.
   */
  function UnsignedDecimalAt(s: string, j: nat): (r: Option<Parsed<real>>)
    requires j <= |s|
    ensures r.Some? ==> j < r.value.end <= |s|
    ensures r.Some? && r.value.end < |s| ==> !IsDigit(s[r.value.end])
  {
    var k := DigitsEnd(s, j);
    var hasPoint := k < |s| && s[k] == '.';
    var fracStart := if hasPoint then k + 1 else k;
    var m := DigitsEnd(s, fracStart);
    if k == j && m == fracStart then None
    else Some(Parsed(DigitsValue(s[j..k]) as real + FractionValue(s[fracStart..m]), m))
  }

  /** Text that starts with a digit is read as an unsigned decimal from its first character. */
  lemma RealPrefixFromDigit(s: string)
    requires s != [] && IsDigit(s[0])
    ensures ParseRealPrefix(s) == UnsignedDecimalAt(s, 0)
  {
    assert SkipSpaces(s, 0) == 0;
  }

  /** A digit run followed by something that cannot extend it. */
  lemma {:induction false} DigitsEndOfBlock(ds: string, rest: string, i: nat)
    requires AllDigits(ds) && i <= |ds|
    requires rest == [] || !IsDigit(rest[0])
    ensures DigitsEnd(ds + rest, i) == |ds|
    decreases |ds| - i
  {
    var s := ds + rest;
    if i < |ds| {
      assert IsDigit(s[i]);
      DigitsEndOfBlock(ds, rest, i + 1);
    } else {
      assert i == |s| || s[i] == rest[0];
    }
  }

  /** std::stoul reads back the decimal text of n, and stops where that text ends. */
  lemma UnsignedPrefixOfDecimal(n: nat, rest: string)
    requires rest == [] || !IsDigit(rest[0])
    ensures ParseUnsignedPrefix(NatToDecimal(n) + rest) == Some(Parsed(n, |NatToDecimal(n)|))
  {
    var d := NatToDecimal(n);
    var s := d + rest;
    assert s[0] == d[0];
    DigitsEndOfBlock(d, rest, 0);
    assert s[0..|d|] == d;
  }

  /** std::stoi reads back the decimal text of n. */
  lemma IntPrefixOfDecimal(n: nat, rest: string)
    requires rest == [] || !IsDigit(rest[0])
    ensures ParseIntPrefix(NatToDecimal(n) + rest) == Some(Parsed(n as int, |NatToDecimal(n)|))
  {
    var d := NatToDecimal(n);
    var s := d + rest;
    assert s[0] == d[0];
    DigitsEndOfBlock(d, rest, 0);
    assert s[0..|d|] == d;
  }

  /** std::stod reads back "<n>". */
  lemma RealPrefixOfInteger(n: nat, rest: string)
    requires rest == [] || (!IsDigit(rest[0]) && rest[0] != '.')
    ensures ParseRealPrefix(NatToDecimal(n) + rest) == Some(Parsed(n as real, |NatToDecimal(n)|))
  {
    var d := NatToDecimal(n);
    var s := d + rest;
    assert s[0] == d[0];
    RealPrefixFromDigit(s);
    DigitsEndOfBlock(d, rest, 0);
    assert s[0..|d|] == d;
    assert |d| < |s| ==> s[|d|] == rest[0];
    IntegerShape(s, d);
  }

  /** UnsignedDecimalAt on text that starts with the digit run d, not followed by a point. */
  lemma IntegerShape(s: string, d: string)
    requires 0 < |d| <= |s|
    requires s[0..|d|] == d && DigitsEnd(s, 0) == |d|
    requires |d| < |s| ==> s[|d|] != '.'
    ensures UnsignedDecimalAt(s, 0) == Some(Parsed(DigitsValue(d) as real, |d|))
  {
    var k := DigitsEnd(s, 0);
    assert DigitsEnd(s, k) == k;
    assert s[k..k] == [];
    assert FractionValue([]) == 0.0;
  }

  /** std::stod reads back "<n>.<f>" for a run of fraction digits f. */
  lemma RealPrefixOfFraction(n: nat, f: string, rest: string)
    requires AllDigits(f)
    requires rest == [] || (!IsDigit(rest[0]) && rest[0] != '.')
    ensures ParseRealPrefix(NatToDecimal(n) + "." + f + rest)
         == Some(Parsed(n as real + FractionValue(f), |NatToDecimal(n)| + 1 + |f|))
  {
    var d := NatToDecimal(n);
    var s := d + "." + f + rest;
    IntegerRunOfFractionText(d, f, rest);
    FractionRunOfFractionText(d, f, rest);
    SlicesOfFractionText(d, f, rest);
    assert IsDigit(s[0]);
    RealPrefixFromDigit(s);
    RealPrefixShape(s, d, f);
    assert UnsignedDecimalAt(s, 0) == Some(Parsed(DigitsValue(d) as real + FractionValue(f), |d| + 1 + |f|));
    assert DigitsValue(d) == n;
  }

  lemma IntegerRunOfFractionText(d: string, f: string, rest: string)
    requires AllDigits(d)
    ensures DigitsEnd(d + "." + f + rest, 0) == |d|
  {
    assert d + "." + f + rest == d + ("." + f + rest);
    DigitsEndOfBlock(d, "." + f + rest, 0);
  }

  lemma FractionRunOfFractionText(d: string, f: string, rest: string)
    requires AllDigits(f)
    requires rest == [] || (!IsDigit(rest[0]) && rest[0] != '.')
    ensures DigitsEnd(d + "." + f + rest, |d| + 1) == |d| + 1 + |f|
  {
    DigitsEndOfFraction(d + ".", f, rest);
  }

  lemma SlicesOfFractionText(d: string, f: string, rest: string)
    requires d != []
    ensures var s := d + "." + f + rest;
      |d| + 1 + |f| <= |s| && s[0] == d[0] && s[|d|] == '.' &&
      s[0..|d|] == d && s[|d| + 1..|d| + 1 + |f|] == f
  {
    var s := d + "." + f + rest;
    assert s[0..|d|] == d;
    assert s[|d| + 1..|d| + 1 + |f|] == f;
  }

  /** UnsignedDecimalAt on text that starts with digits d, a point, and the digit run f. */
  lemma RealPrefixShape(s: string, d: string, f: string)
    requires 0 < |d| && |d| + 1 + |f| <= |s|
    requires s[|d|] == '.'
    requires s[0..|d|] == d && s[|d| + 1..|d| + 1 + |f|] == f
    requires DigitsEnd(s, 0) == |d| && DigitsEnd(s, |d| + 1) == |d| + 1 + |f|
    ensures UnsignedDecimalAt(s, 0)
         == Some(Parsed(DigitsValue(d) as real + FractionValue(f), |d| + 1 + |f|))
  {
    var k := DigitsEnd(s, 0);
    assert k < |s| && s[k] == '.';
    var m := DigitsEnd(s, k + 1);
    assert s[0..k] == d && s[k + 1..m] == f;
  }

  lemma DigitsEndOfFraction(t: string, f: string, rest: string)
    requires AllDigits(f)
    requires rest == [] || (!IsDigit(rest[0]) && rest[0] != '.')
    ensures DigitsEnd(t + f + rest, |t|) == |t| + |f|
  {
    var s := t + f + rest;
    var j := DigitsEnd(s, |t|);
    assert forall k | 0 <= k < |f| :: s[|t| + k] == f[k];
    DigitsRunFrom(s, |t|, |t| + |f|);
    if |t| + |f| < |s| {
      assert s[|t| + |f|] == rest[0];
    }
  }

  /** Where every character in [i, e) is a digit and s[e] is not, the run from i ends at e. */
  lemma {:induction false} DigitsRunFrom(s: string, i: nat, e: nat)
    requires i <= e <= |s|
    requires forall k | i <= k < e :: IsDigit(s[k])
    requires e < |s| ==> !IsDigit(s[e])
    ensures DigitsEnd(s, i) == e
    decreases e - i
  {
    if i < e {
      DigitsRunFrom(s, i + 1, e);
    }
  }

  /** Truncation toward zero, as a floating-to-integer cast performs it. */
  function TruncTowardZero(x: real): (r: int)
    ensures 0.0 <= x ==> 0 <= r && r as real <= x < r as real + 1.0
    ensures x < 0.0 ==> r <= 0 && r as real - 1.0 < x <= r as real
  {
    if x >= 0.0 then x.Floor else -((-x).Floor)
  }

  function AbsReal(x: real): real {
    if x < 0.0 then -x else x
  }

  /** std::round: the nearest integer, halfway cases rounded away from zero. */
  function RoundHalfAwayFromZero(x: real): (r: int)
    ensures AbsReal(r as real - x) <= 0.5
    ensures AbsReal(r as real - x) == 0.5 ==> AbsReal(r as real) > AbsReal(x)
  {
    if x >= 0.0 then (x + 0.5).Floor else -((-x + 0.5).Floor)
  }

  /** 2^64: size_t is 64 bits wide. */
  const SizeModulus: nat := 0x1_0000_0000_0000_0000

  /**
   * The conversion (size_t) x of a double. C++ defines it only for 0 <= x < 2^64,
   * where it truncates; elsewhere the model reduces the truncated value modulo 2^64.
   */
  function CastToSize(x: real): (r: nat)
    ensures r < SizeModulus
    ensures 0.0 <= x < SizeModulus as real ==> r == x.Floor
  {
    TruncTowardZero(x) % SizeModulus
  }
}
