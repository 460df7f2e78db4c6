/**
 * The small pieces of Rust's standard library that monitor selection and
 * monitor listing rely on: lower-casing, substring search, and decimal
 * parsing and formatting of a `usize`.
 */
module Text {
  import opened Wrappers

  // ---------------------------------------------------------------------
  // Lower-casing (ASCII only; see README)
  // ---------------------------------------------------------------------

  function LowerChar(c: char): char {
    if 'A' <= c <= 'Z' then (c as int + 32) as char else c
  }

  function ToLower(s: string): string {
    seq(|s|, i requires 0 <= i < |s| => LowerChar(s[i]))
  }

  // ---------------------------------------------------------------------
  // Substring search, as `str::contains`
  // ---------------------------------------------------------------------

  /** `needle` occurs in `hay` starting at position `i`. */
  predicate OccursAt(hay: string, needle: string, i: nat) {
    i + |needle| <= |hay| && hay[i..i + |needle|] == needle
  }

  /** `str::contains`: a left-to-right scan for `needle` as a prefix of a suffix of `hay`. */
  predicate Contains(hay: string, needle: string)
    decreases |hay|
  {
    needle <= hay || (|hay| > 0 && Contains(hay[1..], needle))
  }

  /** An occurrence at any position is found by the scan. */
  lemma {:induction false} OccursImpliesContains(hay: string, needle: string, i: nat)
    requires OccursAt(hay, needle, i)
    ensures Contains(hay, needle)
    decreases i
  {
    if i == 0 {
      assert hay[..|needle|] == needle;
    } else {
      assert hay[1..][i - 1..i - 1 + |needle|] == hay[i..i + |needle|];
      OccursImpliesContains(hay[1..], needle, i - 1);
    }
  }

  /** The scan agrees with the positional definition of a substring. */
  lemma {:induction false} ContainsIffOccurs(hay: string, needle: string)
    ensures Contains(hay, needle) <==> exists i: nat :: OccursAt(hay, needle, i)
    decreases |hay|
  {
    forall i: nat | OccursAt(hay, needle, i) ensures Contains(hay, needle) {
      OccursImpliesContains(hay, needle, i);
    }
    if needle <= hay {
      assert OccursAt(hay, needle, 0);
    } else if |hay| > 0 && Contains(hay[1..], needle) {
      ContainsIffOccurs(hay[1..], needle);
      var i: nat :| OccursAt(hay[1..], needle, i);
      assert hay[i + 1..i + 1 + |needle|] == hay[1..][i..i + |needle|];
      assert OccursAt(hay, needle, i + 1);
    }
  }

  /** Every string contains the empty string (so an absent needle matches any name). */
  lemma {:induction false} ContainsEmpty(hay: string)
    ensures Contains(hay, "")
  {
    assert "" <= hay;
  }

  // ---------------------------------------------------------------------
  // Decimal formatting (`format!("{n}")`) and parsing (`str::parse::<usize>`)
  // ---------------------------------------------------------------------

  /** The largest `usize` on a 64-bit target. */
  const USIZE_MAX: nat := 0xFFFF_FFFF_FFFF_FFFF

  predicate IsDigit(c: char) {
    '0' <= c <= '9'
  }

  predicate AllDigits(s: string) {
    forall i :: 0 <= i < |s| ==> IsDigit(s[i])
  }

  function DigitChar(d: nat): (c: char)
    requires d < 10
    ensures IsDigit(c)
  {
    ('0' as int + d) as char
  }

  /** The value of a string of decimal digits, most significant first. */
  function DigitsValue(s: string): nat
    requires AllDigits(s)
    decreases |s|
  {
    if |s| == 0 then 0
    else DigitsValue(s[..|s| - 1]) * 10 + (s[|s| - 1] as int - '0' as int)
  }

  /** Decimal rendering of `n` without sign or leading zeros. */
  function NatToString(n: nat): string
    decreases n
  {
    if n < 10 then [DigitChar(n)] else NatToString(n / 10) + [DigitChar(n % 10)]
  }

  /**
   * `usize::from_str`: an optional single '+', then one or more ASCII digits
   * whose value fits in 64 bits; anything else (empty, a '-', a space, an
   * overflowing value) is an error.
   */
  function ParseUsize(s: string): (r: Option<nat>)
    ensures r.Some? ==> r.value <= USIZE_MAX && |s| > 0
  {
    var digits := if |s| > 0 && s[0] == '+' then s[1..] else s;
    if |digits| == 0 || !AllDigits(digits) then None
    else
      var v := DigitsValue(digits);
      if v <= USIZE_MAX then Some(v) else None
  }

  lemma {:induction false} NatToStringDigits(n: nat)
    ensures |NatToString(n)| > 0 && AllDigits(NatToString(n))
    ensures DigitsValue(NatToString(n)) == n
    decreases n
  {
    if n >= 10 {
      NatToStringDigits(n / 10);
      var s := NatToString(n);
      assert s[..|s| - 1] == NatToString(n / 10);
    }
  }

  /** Parsing what `format!` printed gives the number back. */
  lemma ParseFormatRoundTrip(n: nat)
    requires n <= USIZE_MAX
    ensures ParseUsize(NatToString(n)) == Some(n)
  {
    NatToStringDigits(n);
  }

  /** A sign other than '+' is never accepted by the unsigned parser. */
  lemma ParseRejectsMinus(s: string)
    ensures ParseUsize("-" + s) == None
  {
    assert !IsDigit(("-" + s)[0]);
  }
}
