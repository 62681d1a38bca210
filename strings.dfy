/**
 * The parts of Kotlin's `String` API the display logic relies on:
 * `indexOf`, `contains` (case-sensitive) and the decimal rendering of a
 * non-negative `Int` in a string template.
 */
module Strings {

  /** `q` occurs in `s` starting at index `i`. */
  ghost predicate OccursAt(s: string, q: string, i: int)
  {
    0 <= i && i + |q| <= |s| && s[i..i + |q|] == q
  }

  /** `q` is a substring of `s`: the reference meaning of `s.contains(q)`. */
  ghost predicate IsSubstring(q: string, s: string)
  {
    exists i :: OccursAt(s, q, i)
  }

  /** The first occurrence of `q` in `s` at or after `from`, or -1 when there is none. */
  function IndexOfFrom(s: string, q: string, from: nat): (r: int)
    requires from <= |s|
    ensures r == -1 || (from <= r && OccursAt(s, q, r))
    ensures forall j :: from <= j && (r == -1 || j < r) ==> !OccursAt(s, q, j)
    decreases |s| - from
  {
    if from + |q| > |s| then -1
    else if s[from..from + |q|] == q then from
    else
      assert q != [];
      IndexOfFrom(s, q, from + 1)
  }

  /**
   * `s.indexOf(q)`: the index of the first occurrence of `q` in `s`, or -1.
   * The empty string occurs at index 0 of every string.
   */
  function IndexOf(s: string, q: string): (r: int)
    ensures r == -1 <==> !IsSubstring(q, s)
    ensures r != -1 ==> OccursAt(s, q, r) && forall j :: 0 <= j < r ==> !OccursAt(s, q, j)
  {
    IndexOfFrom(s, q, 0)
  }

  /** `s.contains(q)`, which Kotlin defines as `s.indexOf(q) >= 0`. */
  function Contains(s: string, q: string): (b: bool)
    ensures b <==> IsSubstring(q, s)
    ensures q == [] ==> b
  {
    assert q == [] ==> OccursAt(s, q, 0);
    IndexOf(s, q) >= 0
  }

  /** A first occurrence is unique: any occurrence with none before it is what `IndexOf` returns. */
  lemma IndexOfIsFirstOccurrence(s: string, q: string, k: nat)
    requires OccursAt(s, q, k)
    requires forall j :: 0 <= j < k ==> !OccursAt(s, q, j)
    ensures IndexOf(s, q) == k
  {
  }

  predicate IsDigit(c: char)
  {
    '0' <= c <= '9'
  }

  predicate AllDigits(s: string)
  {
    forall i :: 0 <= i < |s| ==> IsDigit(s[i])
  }

  /** A decimal numeral as `Int.toString` writes it: digits, none leading zero except "0" itself. */
  predicate IsNumeral(s: string)
  {
    s != [] && AllDigits(s) && (s[0] == '0' ==> s == "0")
  }

  /** The decimal rendering of `n`, as a string template renders a list size. */
  function DecimalString(n: nat): (s: string)
    ensures IsNumeral(s)
    ensures n == 0 <==> s == "0"
  {
    if n < 10 then [('0' as int + n) as char]
    else DecimalString(n / 10) + [('0' as int + n % 10) as char]
  }

  /** The value of a string of decimal digits. */
  function DecimalValue(s: string): (n: nat)
    requires AllDigits(s)
  {
    if s == [] then 0
    else DecimalValue(s[..|s| - 1]) * 10 + (s[|s| - 1] as int - '0' as int)
  }

  /** Reading back a rendered number gives the number. */
  lemma {:induction false} DecimalRoundTrip(n: nat)
    ensures DecimalValue(DecimalString(n)) == n
  {
    var s := DecimalString(n);
    if n >= 10 {
      DecimalRoundTrip(n / 10);
      assert s[..|s| - 1] == DecimalString(n / 10);
    }
  }

  /** A string of digits whose first digit is not zero has a positive value. */
  lemma {:induction false} LeadingDigitPositive(s: string)
    requires s != [] && AllDigits(s) && s[0] != '0'
    ensures DecimalValue(s) >= 1
    decreases |s|
  {
    if |s| > 1 {
      LeadingDigitPositive(s[..|s| - 1]);
    }
  }

  /** Rendering the value of a numeral gives the numeral back. */
  lemma {:induction false} NumeralRoundTrip(s: string)
    requires IsNumeral(s)
    ensures DecimalString(DecimalValue(s)) == s
    decreases |s|
  {
    if |s| > 1 {
      var p := s[..|s| - 1];
      assert p[0] == s[0];
      LeadingDigitPositive(p);
      NumeralRoundTrip(p);
      assert s == p + [s[|s| - 1]];
    }
  }
}
