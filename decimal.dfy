/**
 * Decimal rendering and parsing of Go `int` values: `strconv.Itoa` (also the `%d` verb)
 * and `strconv.Atoi` on a 64-bit platform.
 */
module Decimal {
  import opened Wrappers

  const MinInt64: int := -0x8000_0000_0000_0000
  const MaxInt64: int := 0x7fff_ffff_ffff_ffff

  predicate IsInt64(n: int) {
    MinInt64 <= n <= MaxInt64
  }

  predicate IsDigit(c: char) {
    '0' <= c <= '9'
  }

  predicate AllDigits(s: string) {
    forall i :: 0 <= i < |s| ==> IsDigit(s[i])
  }

  function DigitChar(d: nat): (c: char)
    requires d < 10
    ensures IsDigit(c) && c as int - '0' as int == d
  {
    ('0' as int + d) as char
  }

  /** The value of a string of decimal digits. */
  function DigitsValue(s: string): nat
    requires AllDigits(s)
  {
    if s == [] then 0 else DigitsValue(s[..|s| - 1]) * 10 + (s[|s| - 1] as int - '0' as int)
  }

  /** The shortest decimal digits of `n`. */
  function NaturalToString(n: nat): (s: string)
    ensures |s| > 0 && AllDigits(s)
    ensures n >= 10 ==> s[0] != '0'
  {
    if n < 10 then [DigitChar(n)] else NaturalToString(n / 10) + [DigitChar(n % 10)]
  }

  /** strconv.Itoa: a minus sign for negative values, then the shortest digits of the magnitude. */
  function IntToString(n: int): (s: string)
    ensures IsIntegerText(s) && TextValue(s) == n
    ensures s[0] != '+' && (s[0] == '-' <==> n < 0)
  {
    if n < 0 then
      var digits := NaturalToString(-n);
      NaturalToStringValue(-n);
      var s := "-" + digits;
      assert s[1..] == digits;
      s
    else
      NaturalToStringValue(n);
      NaturalToString(n)
  }

  /** The message of the `*strconv.NumError` that Atoi returns for `s`. */
  function SyntaxError(s: string): string {
    "strconv.Atoi: parsing \"" + s + "\": invalid syntax"
  }

  function RangeError(s: string): string {
    "strconv.Atoi: parsing \"" + s + "\": value out of range"
  }

  /** An optional sign followed by at least one digit. */
  predicate IsIntegerText(s: string) {
    if |s| > 0 && (s[0] == '+' || s[0] == '-') then |s| > 1 && AllDigits(s[1..]) else |s| > 0 && AllDigits(s)
  }

  /** The integer that an integer text denotes (unbounded). */
  function TextValue(s: string): int
    requires IsIntegerText(s)
  {
    if s[0] == '-' then -(DigitsValue(s[1..]) as int) else if s[0] == '+' then DigitsValue(s[1..]) else DigitsValue(s)
  }

  /** `s` without its leading sign, if it has one: what `ParseInt` hands to `ParseUint`. */
  function Unsigned(s: string): string {
    if |s| > 0 && (s[0] == '+' || s[0] == '-') then s[1..] else s
  }

  /** The longest run of digits that `s` starts with. */
  function LeadingDigits(s: string): (p: string)
    ensures p <= s && AllDigits(p)
    ensures |p| < |s| ==> !IsDigit(s[|p|])
  {
    if s == [] || !IsDigit(s[0]) then []
    else
      var rest := LeadingDigits(s[1..]);
      assert forall i :: 0 <= i < |rest| ==> ([s[0]] + rest)[i] == (if i == 0 then s[0] else rest[i - 1]);
      [s[0]] + rest
  }

  const MaxUint64: int := 0xffff_ffff_ffff_ffff

  /**
   * `ParseUint` accumulates digit by digit and reports `ErrRange` as soon as
   * the value passes 2^64 - 1, before it looks at the next character; a
   * non-digit counts as a syntax error only when it is reached first.
   */
  predicate OverflowsBeforeEnd(s: string) {
    DigitsValue(LeadingDigits(Unsigned(s))) > MaxUint64
  }

  /**
   * strconv.Atoi: accepts an optional sign and decimal digits only (no spaces, no
   * underscores).  A text whose leading digit run exceeds 2^64 - 1 is a range
   * error even when a non-digit follows; a syntactically valid text outside
   * the 64-bit range is a range error too; any other text is a syntax error.
   */
  function ParseInt(s: string): (r: Result<int>)
    ensures r.Ok? <==> IsIntegerText(s) && IsInt64(TextValue(s))
    ensures r.Ok? ==> r.value == TextValue(s)
    ensures IsIntegerText(s) && !IsInt64(TextValue(s)) ==> r == Err(RangeError(s))
    ensures OverflowsBeforeEnd(s) ==> r == Err(RangeError(s))
    ensures !IsIntegerText(s) && !OverflowsBeforeEnd(s) ==> r == Err(SyntaxError(s))
  {
    if IsIntegerText(s) then
      if IsInt64(TextValue(s)) then
        assert LeadingDigits(Unsigned(s)) == Unsigned(s);
        Ok(TextValue(s))
      else Err(RangeError(s))
    else if OverflowsBeforeEnd(s) then Err(RangeError(s))
    else Err(SyntaxError(s))
  }

  lemma {:induction false} LeadingDigitsOfRun(p: string, rest: string)
    requires AllDigits(p) && (rest == [] || !IsDigit(rest[0]))
    ensures LeadingDigits(p + rest) == p
    decreases |p|
  {
    if p != [] {
      assert (p + rest)[1..] == p[1..] + rest;
      LeadingDigitsOfRun(p[1..], rest);
    }
  }

  /**
   * A digit run past 2^64 - 1, optionally signed, is a range error whatever
   * follows it: "99999999999999999999x" gets "value out of range".
   */
  lemma RangeErrorBeforeSyntax(sign: string, p: string, rest: string)
    requires sign == "" || sign == "+" || sign == "-"
    requires AllDigits(p) && DigitsValue(p) > MaxUint64 && (rest == [] || !IsDigit(rest[0]))
    ensures ParseInt(sign + p + rest) == Err(RangeError(sign + p + rest))
  {
    var s := sign + p + rest;
    if sign == "" {
      assert s == p + rest;
      assert p != [];
      assert Unsigned(s) == p + rest;
    } else {
      assert s[1..] == p + rest;
    }
    LeadingDigitsOfRun(p, rest);
  }

  /** Twenty nines then a letter: the digits overflow before the letter is read. */
  lemma TwentyNinesThenLetter()
    ensures DigitsValue(Nines(20)) > MaxUint64
    ensures ParseInt(Nines(20) + "x") == Err(RangeError(Nines(20) + "x"))
  {
    DigitsNines(20);
    assert Pow10(4) == 10_000;
    assert Pow10(8) == 100_000_000;
    assert Pow10(12) == 1_000_000_000_000;
    assert Pow10(16) == 10_000_000_000_000_000;
    assert Pow10(20) == 100_000_000_000_000_000_000;
    RangeErrorBeforeSyntax("", Nines(20), "x");
    assert "" + Nines(20) + "x" == Nines(20) + "x";
  }

  /** A run of `n` nines. */
  function Nines(n: nat): (s: string)
    ensures |s| == n && AllDigits(s)
  {
    if n == 0 then [] else Nines(n - 1) + ['9']
  }

  lemma {:induction false} DigitsNines(n: nat)
    ensures DigitsValue(Nines(n)) + 1 == Pow10(n)
  {
    if n > 0 {
      DigitsNines(n - 1);
      assert Nines(n)[..n - 1] == Nines(n - 1);
    }
  }

  function Pow10(n: nat): nat {
    if n == 0 then 1 else 10 * Pow10(n - 1)
  }

  lemma {:induction false} DigitsValuePrefix(s: string, c: char)
    requires AllDigits(s) && IsDigit(c)
    ensures AllDigits(s + [c]) && DigitsValue(s + [c]) == DigitsValue(s) * 10 + (c as int - '0' as int)
  {
    assert (s + [c])[..|s + [c]| - 1] == s;
  }

  lemma {:induction false} NaturalToStringValue(n: nat)
    ensures DigitsValue(NaturalToString(n)) == n
  {
    if n >= 10 {
      NaturalToStringValue(n / 10);
      DigitsValuePrefix(NaturalToString(n / 10), DigitChar(n % 10));
    }
  }

  /** Atoi undoes Itoa on every 64-bit integer. */
  lemma ParseIntToString(n: int)
    requires IsInt64(n)
    ensures ParseInt(IntToString(n)) == Ok(n)
  {
    var s := IntToString(n);
    if n < 0 {
      var digits := NaturalToString(-n);
      NaturalToStringValue(-n);
      assert s == "-" + digits;
      assert s[1..] == digits;
      assert IsIntegerText(s);
      assert TextValue(s) == n;
    } else {
      var digits := NaturalToString(n);
      NaturalToStringValue(n);
      assert s == digits;
      assert IsDigit(s[0]);
      assert IsIntegerText(s);
      assert TextValue(s) == n;
    }
  }

  /** Itoa is injective, so distinct ids render as distinct texts. */
  lemma IntToStringInjective(m: int, n: int)
    requires IsInt64(m) && IsInt64(n) && IntToString(m) == IntToString(n)
    ensures m == n
  {
    ParseIntToString(m);
    ParseIntToString(n);
  }
}
