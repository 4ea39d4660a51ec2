/** The two pieces of Rust's string library that `Arguments::new` relies on:
    `str::contains` with a string pattern, and `str::parse::<u16>`. */
module Text {
  import opened Types

  /** `pat` occurs in `s` starting at index `i`. */
  ghost predicate OccursAt(s: string, pat: string, i: int)
  {
    0 <= i && i + |pat| <= |s| && s[i..i + |pat|] == pat
  }

  /** `s.contains(pat)`: true iff `pat` is a substring of `s` (the empty
      pattern is contained in every string). */
  function Contains(s: string, pat: string): (b: bool)
    ensures b <==> exists i :: OccursAt(s, pat, i)
    decreases |s|
  {
    if |s| < |pat| then
      assert forall i :: !OccursAt(s, pat, i);
      false
    else if s[..|pat|] == pat then
      assert OccursAt(s, pat, 0);
      true
    else
      var b := Contains(s[1..], pat);
      assert forall i :: OccursAt(s[1..], pat, i) <==> OccursAt(s, pat, i + 1) by {
        forall i ensures OccursAt(s[1..], pat, i) <==> OccursAt(s, pat, i + 1) {
          if 0 <= i && i + |pat| <= |s| - 1 {
            assert s[1..][i..i + |pat|] == s[i + 1..i + 1 + |pat|];
          }
        }
      }
      assert !OccursAt(s, pat, 0);
      assert (exists i :: OccursAt(s, pat, i)) ==> exists i :: OccursAt(s[1..], pat, i) by {
        if exists i :: OccursAt(s, pat, i) {
          var i :| OccursAt(s, pat, i);
          assert i != 0;
          assert OccursAt(s[1..], pat, i - 1);
        }
      }
      b
  }

  /** Because "-h" is a prefix of "-help", `contains("-help")` implies
      `contains("-h")`; this is what makes src/main.rs:37 unreachable. */
  lemma HelpImpliesH(s: string)
    ensures Contains(s, "-help") ==> Contains(s, "-h")
  {
  }

  // ---------------------------------------------------------------------------
  // `str::parse::<u16>`: an optional leading '+', then one or more ASCII
  // decimal digits whose value is at most 65535. A lone sign, the empty string,
  // any other character (a '-' included, since u16 is unsigned) and a value
  // that does not fit are errors.

  predicate IsDigit(c: char) { '0' <= c <= '9' }

  predicate AllDigits(s: string) { forall k :: 0 <= k < |s| ==> IsDigit(s[k]) }

  function DigitValue(c: char): (d: nat)
    requires IsDigit(c)
    ensures d < 10
  {
    c as int - '0' as int
  }

  /** The value of a digit string read left to right, as the parser folds it. */
  function DecimalValue(s: string): nat
    requires AllDigits(s)
  {
    if |s| == 0 then 0 else DecimalValue(s[..|s| - 1]) * 10 + DigitValue(s[|s| - 1])
  }

  function ParseU16(s: string): Option<u16>
  {
    var digits := if |s| > 0 && s[0] == '+' then s[1..] else s;
    if |digits| == 0 || !AllDigits(digits) then None
    else
      var v := DecimalValue(digits);
      if v <= MAX as int then Some(v as u16) else None
  }

  // The canonical decimal rendering of a number, the inverse of the parser.

  function DigitChar(d: nat): (c: char)
    requires d < 10
    ensures IsDigit(c) && DigitValue(c) == d
  {
    ('0' as int + d) as char
  }

  function Decimal(n: nat): (s: string)
    ensures |s| > 0 && AllDigits(s) && s[0] != '+'
  {
    if n < 10 then [DigitChar(n)] else Decimal(n / 10) + [DigitChar(n % 10)]
  }

  lemma {:induction false} DecimalValueOfDecimal(n: nat)
    ensures DecimalValue(Decimal(n)) == n
  {
    if n >= 10 {
      var s := Decimal(n);
      assert s[..|s| - 1] == Decimal(n / 10);
      DecimalValueOfDecimal(n / 10);
    }
  }

  /** The other half of the round trip: the decimal rendering of a number
      above 65535 does not parse as a u16. */
  lemma ParseOverflow(n: nat)
    requires n > MAX as int
    ensures ParseU16(Decimal(n)).None?
  {
    DecimalValueOfDecimal(n);
  }

  /** Round trip: parsing the decimal rendering of any u16 gives it back. */
  lemma ParseDecimal(n: u16)
    ensures ParseU16(Decimal(n as nat)) == Some(n)
  {
    DecimalValueOfDecimal(n as nat);
  }
}
