/**
 * Base-10 rendering and parsing of 64-bit unsigned task IDs, as `%d` and
 * `strconv.ParseUint(_, 10, 64)` perform them.
 */
module Decimal {
  import opened Wrappers

  /** The first value a 64-bit unsigned integer cannot hold. */
  const UINT64_LIMIT: nat := 0x1_0000_0000_0000_0000

  predicate IsDigit(c: char) {
    '0' <= c <= '9'
  }

  predicate AllDigits(s: string) {
    forall c | c in s :: IsDigit(c)
  }

  function DigitValue(c: char): (v: nat)
    requires IsDigit(c)
    ensures v < 10
  {
    (c as int) - ('0' as int)
  }

  function DigitChar(v: nat): (c: char)
    requires v < 10
    ensures IsDigit(c) && DigitValue(c) == v
  {
    (('0' as int) + v) as char
  }

  function DecimalValue(s: string): nat
    requires AllDigits(s)
  {
    if s == "" then 0 else DecimalValue(s[..|s| - 1]) * 10 + DigitValue(s[|s| - 1])
  }

  /** Digits only, at least one of them, leading zeros allowed, value below 2^64. */
  function ParseUint(s: string): Option<nat> {
    if s != "" && AllDigits(s) && DecimalValue(s) < UINT64_LIMIT then Some(DecimalValue(s)) else None
  }

  function FormatUint(n: nat): string {
    if n < 10 then [DigitChar(n)] else FormatUint(n / 10) + [DigitChar(n % 10)]
  }

  lemma {:induction false} FormatUintDigits(n: nat)
    ensures FormatUint(n) != "" && AllDigits(FormatUint(n))
    ensures DecimalValue(FormatUint(n)) == n
  {
    if n < 10 {
      assert FormatUint(n)[..0] == "";
    } else {
      FormatUintDigits(n / 10);
      var s := FormatUint(n);
      assert s[..|s| - 1] == FormatUint(n / 10);
    }
  }

  /** Rendering then parsing gives back every ID that fits in 64 bits, and nothing else parses. */
  lemma ParseFormatRoundTrip(n: nat)
    ensures ParseUint(FormatUint(n)) == if n < UINT64_LIMIT then Some(n) else None
  {
    FormatUintDigits(n);
  }

  lemma FormatUintInjective(a: nat, b: nat)
    requires FormatUint(a) == FormatUint(b)
    ensures a == b
  {
    FormatUintDigits(a);
    FormatUintDigits(b);
  }
}
