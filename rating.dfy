/** The user's rating, read from the contest site's profile page. Locating the
    rating in the page is a regular-expression match whose captured group is a
    run of decimal digits; the model is given that capture, or None when the
    pattern does not occur (an unrated user, or changed markup). */
module RatingExtractor {
  import opened Domain

  predicate IsDigit(ch: char)
  {
    '0' <= ch <= '9'
  }

  predicate AllDigits(s: string)
  {
    forall i :: 0 <= i < |s| ==> IsDigit(s[i])
  }

  /** What the capture group `[0-9]+` can hold. */
  predicate IsDigitString(s: string)
  {
    |s| > 0 && AllDigits(s)
  }

  function DigitValue(ch: char): (v: nat)
    requires IsDigit(ch)
    ensures v < 10
  {
    ch as int - '0' as int
  }

  function DigitChar(v: nat): (ch: char)
    requires v < 10
    ensures IsDigit(ch) && DigitValue(ch) == v
  {
    (v + '0' as int) as char
  }

  /** Decimal reading, most significant digit first. */
  function DecimalValue(s: string): nat
    requires AllDigits(s)
  {
    if s == [] then 0 else DecimalValue(s[..|s| - 1]) * 10 + DigitValue(s[|s| - 1])
  }

  /** The rating: 0 when there is no match, otherwise the decimal value of the
      captured digits. */
  function ParseRating(capture: Option<string>): (rating: nat)
    requires capture.Some? ==> IsDigitString(capture.value)
    ensures capture.None? ==> rating == 0
    ensures capture.Some? ==> rating == DecimalValue(capture.value)
  {
    match capture
    case None => 0
    case Some(digits) => DecimalValue(digits)
  }

  /** The shortest decimal rendering of `n`, as the profile page shows a rating. */
  function DecimalString(n: nat): (s: string)
    ensures IsDigitString(s)
  {
    if n < 10 then [DigitChar(n)] else DecimalString(n / 10) + [DigitChar(n % 10)]
  }

  lemma {:induction false} DecimalRoundTrip(n: nat)
    ensures DecimalValue(DecimalString(n)) == n
  {
    if n >= 10 {
      var s := DecimalString(n);
      DecimalRoundTrip(n / 10);
      assert s[..|s| - 1] == DecimalString(n / 10);
    }
  }

  /** Any rating shown on the page is read back as itself. */
  lemma ParseRatingReadsRendered(n: nat)
    ensures ParseRating(Some(DecimalString(n))) == n
  {
    DecimalRoundTrip(n);
  }

  /** Leading zeros do not change the value. */
  lemma {:induction false} LeadingZeroIgnored(s: string)
    requires AllDigits(s)
    ensures AllDigits(['0'] + s) && DecimalValue(['0'] + s) == DecimalValue(s)
  {
    var z := ['0'] + s;
    if s != [] {
      assert z[..|z| - 1] == ['0'] + s[..|s| - 1];
      LeadingZeroIgnored(s[..|s| - 1]);
    } else {
      assert z == ['0'];
      assert z[..0] == [];
    }
  }
}
