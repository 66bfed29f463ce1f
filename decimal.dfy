/**
 * Text as the Java code builds and reads file names: string concatenation
 * of an `int` or `long`, `Integer.valueOf` on a run of ASCII digits (the
 * only input the `\d+` groups of the core's file-name patterns can hand it),
 * `String.startsWith`/`endsWith` and `File.getName`.
 */
module Decimal {
  import opened Wrappers

  /** Largest value of a Java `int`. */
  const IntMax: int := 0x7fff_ffff

  predicate IsDigit(c: char) {
    '0' <= c <= '9'
  }

  predicate AllDigits(s: string) {
    forall i :: 0 <= i < |s| ==> IsDigit(s[i])
  }

  function DigitChar(d: nat): (c: char)
    requires d < 10
    ensures IsDigit(c)
  {
    (('0' as int) + d) as char
  }

  function DigitValue(c: char): (d: nat)
    requires IsDigit(c)
    ensures d < 10 && DigitChar(d) == c
  {
    (c as int) - ('0' as int)
  }

  /** The decimal digits of `n`, without leading zeros. */
  function NatToDecimal(n: nat): (s: string)
    ensures |s| > 0 && AllDigits(s)
  {
    if n < 10 then [DigitChar(n)] else NatToDecimal(n / 10) + [DigitChar(n % 10)]
  }

  /** Java's decimal rendering of an `int` or a `long`. */
  function IntToDecimal(i: int): string {
    if i < 0 then "-" + NatToDecimal(-i) else NatToDecimal(i)
  }

  /** The number a string of decimal digits denotes (leading zeros allowed). */
  function DigitsValue(s: string): nat
    requires AllDigits(s)
  {
    if s == [] then 0 else DigitsValue(s[..|s| - 1]) * 10 + DigitValue(s[|s| - 1])
  }

  lemma {:induction false} DecimalRoundTrip(n: nat)
    ensures DigitsValue(NatToDecimal(n)) == n
  {
    if n >= 10 {
      var s := NatToDecimal(n);
      assert s[..|s| - 1] == NatToDecimal(n / 10);
      DecimalRoundTrip(n / 10);
    }
  }

  /** The length of the longest all-digit prefix of `s`. */
  function DigitRun(s: string): (r: nat)
    ensures r <= |s| && AllDigits(s[..r])
    ensures r < |s| ==> !IsDigit(s[r])
  {
    if s == [] || !IsDigit(s[0]) then 0
    else
      var r := 1 + DigitRun(s[1..]);
      assert s[..r] == [s[0]] + s[1..][..r - 1];
      r
  }

  lemma {:induction false} DigitRunOfDigits(d: string, rest: string)
    requires AllDigits(d)
    requires rest == [] || !IsDigit(rest[0])
    ensures DigitRun(d + rest) == |d|
  {
    if d != [] {
      assert (d + rest)[1..] == d[1..] + rest;
      DigitRunOfDigits(d[1..], rest);
    } else {
      assert d + rest == rest;
    }
  }

  /** `Integer.valueOf` on a run of ASCII digits: fails above 2^31 - 1. */
  function ParseInt(s: string): (r: Result<int, Error>)
    requires AllDigits(s)
    ensures r.Success? <==> s != [] && DigitsValue(s) <= IntMax
    ensures r.Success? ==> r.value == DigitsValue(s)
    ensures r.Failure? ==> r.error == NumberFormat
  {
    if s == [] || DigitsValue(s) > IntMax then Failure(NumberFormat) else Success(DigitsValue(s))
  }

  /** Largest value of a Java `long`. */
  const LongMax: int := 0x7fff_ffff_ffff_ffff

  predicate StartsWith(s: string, prefix: string) {
    |prefix| <= |s| && s[..|prefix|] == prefix
  }

  predicate EndsWith(s: string, suffix: string) {
    |suffix| <= |s| && s[|s| - |suffix|..] == suffix
  }

  /** The path with its trailing `/` characters dropped, as `java.io.File` normalises it. */
  function TrimSlashes(path: string): (r: string)
    ensures |r| <= |path| && r == path[..|r|]
    ensures r == [] || r[|r| - 1] != '/'
  {
    if path != [] && path[|path| - 1] == '/' then TrimSlashes(path[..|path| - 1]) else path
  }

  /** The text after the last `/` of `path`. */
  function LastSegment(path: string): (r: string)
    ensures '/' !in r
    ensures '/' !in path ==> r == path
    ensures |r| <= |path| && r == path[|path| - |r|..]
  {
    if path == [] || path[|path| - 1] == '/' then []
    else LastSegment(path[..|path| - 1]) + [path[|path| - 1]]
  }

  /** `new File(path).getName()`. */
  function BaseName(path: string): (r: string)
    ensures '/' !in r
    ensures '/' !in path ==> r == path
  {
    LastSegment(TrimSlashes(path))
  }
}
