/** String functions over `seq<char>` that the components rely on: substring
    search, JavaScript's `String.prototype.replace` with a string pattern, the
    last piece of `split(c)`, and decimal rendering of integers. */
module Strings {
  import opened Wrappers

  /** `pat` occurs in `s` starting at index `i`. */
  predicate OccursAt(pat: string, s: string, i: nat) {
    i + |pat| <= |s| && s[i..i + |pat|] == pat
  }

  /** `i` is the leftmost occurrence of `pat` in `s`. */
  predicate FirstOccurrence(pat: string, s: string, i: nat) {
    OccursAt(pat, s, i) && forall j: nat :: j < i ==> !OccursAt(pat, s, j)
  }

  /** The leftmost occurrence of `pat` in `s` at or after `from`, if any. */
  function FindFrom(pat: string, s: string, from: nat): (r: Option<nat>)
    decreases |s| - from
    ensures r.Some? ==> from <= r.value && OccursAt(pat, s, r.value)
    ensures r.Some? ==> forall j: nat :: from <= j < r.value ==> !OccursAt(pat, s, j)
    ensures r.None? ==> forall j: nat :: from <= j ==> !OccursAt(pat, s, j)
  {
    if from + |pat| > |s| then None
    else if s[from..from + |pat|] == pat then Some(from)
    else FindFrom(pat, s, from + 1)
  }

  /** The leftmost occurrence of `pat` in `s` (`String.prototype.indexOf`). */
  function FindFirst(pat: string, s: string): (r: Option<nat>)
    ensures r.Some? <==> exists i: nat :: OccursAt(pat, s, i)
    ensures r.Some? ==> FirstOccurrence(pat, s, r.value)
  {
    FindFrom(pat, s, 0)
  }

  /** `s.replace(pat, rep)` for a string `pat`: only the leftmost occurrence is
      replaced; when `pat` does not occur the string is returned unchanged. */
  function ReplaceFirst(s: string, pat: string, rep: string): (r: string)
    ensures (forall j: nat :: !OccursAt(pat, s, j)) ==> r == s
    ensures forall i: nat :: FirstOccurrence(pat, s, i) ==> r == s[..i] + rep + s[i + |pat|..]
  {
    match FindFirst(pat, s)
    case None => s
    case Some(i) =>
      assert forall k: nat :: FirstOccurrence(pat, s, k) ==> k == i by {
        forall k: nat | FirstOccurrence(pat, s, k) ensures k == i {
          assert !(k < i) && !(i < k);
        }
      }
      s[..i] + rep + s[i + |pat|..]
  }

  /** The last element of `s.split([c])`: the text after the last `c`, or all
      of `s` when it contains no `c`. */
  function AfterLast(s: string, c: char): (r: string)
    ensures c !in r
    ensures |r| <= |s| && r == s[|s| - |r|..]
    ensures c in s ==> |r| < |s| && s[|s| - |r| - 1] == c
    ensures c !in s ==> r == s
  {
    if |s| == 0 then ""
    else if s[|s| - 1] == c then ""
    else
      var init := s[..|s| - 1];
      var rest := AfterLast(init, c);
      assert s == init + [s[|s| - 1]];
      assert rest + [s[|s| - 1]] == s[|s| - |rest| - 1..];
      rest + [s[|s| - 1]]
  }

  /** The decimal digit character for `d`. */
  function DigitChar(d: nat): (ch: char)
    requires d < 10
    ensures '0' <= ch <= '9' && ch as int - '0' as int == d
  {
    ('0' as int + d) as char
  }

  predicate IsDigit(ch: char) {
    '0' <= ch <= '9'
  }

  predicate AllDigits(s: string) {
    forall i :: 0 <= i < |s| ==> IsDigit(s[i])
  }

  /** The decimal rendering of `n` (`String(n)` for a non-negative integer). */
  function NatToDecimal(n: nat): (r: string)
    decreases n
    ensures |r| >= 1 && AllDigits(r)
    ensures |r| > 1 ==> r[0] != '0'
  {
    if n < 10 then [DigitChar(n)]
    else NatToDecimal(n / 10) + [DigitChar(n % 10)]
  }

  /** The value of a string of decimal digits. */
  function DecimalValue(s: string): nat
    requires AllDigits(s)
  {
    if |s| == 0 then 0
    else DecimalValue(s[..|s| - 1]) * 10 + (s[|s| - 1] as int - '0' as int)
  }

  /** Reading back the decimal rendering gives the number. */
  lemma {:induction false} DecimalRoundTrip(n: nat)
    ensures DecimalValue(NatToDecimal(n)) == n
  {
    if n >= 10 {
      var r := NatToDecimal(n);
      assert r[..|r| - 1] == NatToDecimal(n / 10);
      DecimalRoundTrip(n / 10);
    }
  }

  /** The decimal rendering of an integer, with a leading `-` when negative.
      This is how JavaScript interpolates an integral number below 1e21; the
      exponent form it uses from 1e21 up is not modelled, since question ids
      grow by one from 2 and never come near it. */
  function IntToDecimal(n: int): (r: string)
    ensures n >= 0 ==> AllDigits(r) && DecimalValue(r) == n
    ensures n < 0 ==> |r| >= 2 && r[0] == '-' && AllDigits(r[1..]) && DecimalValue(r[1..]) == -n
  {
    if n < 0 then
      var d := NatToDecimal(-n);
      DecimalRoundTrip(-n);
      assert ("-" + d)[1..] == d;
      "-" + d
    else
      DecimalRoundTrip(n);
      NatToDecimal(n)
  }

  /** Distinct integers render to distinct strings. */
  lemma IntToDecimalInjective(a: int, b: int)
    requires IntToDecimal(a) == IntToDecimal(b)
    ensures a == b
  {
  }
}
