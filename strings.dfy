/** The JavaScript string built-ins the Fal.ai adapter relies on, over `seq<char>`. */
module Strings {
  import opened Wrappers

  /** `s.startsWith(p)`. */
  predicate StartsWith(s: string, p: string)
  {
    |p| <= |s| && s[..|p|] == p
  }

  /** `s.endsWith(p)`. */
  predicate EndsWith(s: string, p: string)
  {
    |p| <= |s| && s[|s| - |p|..] == p
  }

  /** The pattern `p` occurs in `s` starting at index `i`. */
  predicate OccursAt(s: string, p: string, i: nat)
  {
    i + |p| <= |s| && s[i..i + |p|] == p
  }

  /** OccursAt, stated character by character. */
  lemma OccursAtPointwise(s: string, p: string, i: nat)
    ensures OccursAt(s, p, i) <==> i + |p| <= |s| && forall t :: 0 <= t < |p| ==> s[i + t] == p[t]
  {
  }

  /** `s.includes(p)`. */
  predicate Contains(s: string, p: string)
  {
    exists i: nat | i <= |s| :: OccursAt(s, p, i)
  }

  /** The leftmost occurrence of `p` in `s` at or after `start` (the search of `String.prototype.indexOf`). */
  function IndexFrom(s: string, p: string, start: nat): (r: Option<nat>)
    decreases |s| - start
    ensures r.Some? ==> start <= r.value && OccursAt(s, p, r.value)
    ensures r.Some? ==> forall j: nat :: start <= j < r.value ==> !OccursAt(s, p, j)
    ensures r.None? ==> forall j: nat :: start <= j ==> !OccursAt(s, p, j)
  {
    if |s| < start + |p| then None
    else if s[start..start + |p|] == p then Some(start)
    else IndexFrom(s, p, start + 1)
  }

  /** `s.indexOf(p)`, with `None` for JavaScript's -1. An empty pattern is found at index 0. */
  function IndexOf(s: string, p: string): (r: Option<nat>)
    ensures r.Some? <==> Contains(s, p)
    ensures r.Some? ==> OccursAt(s, p, r.value) && forall j: nat :: j < r.value ==> !OccursAt(s, p, j)
  {
    IndexFrom(s, p, 0)
  }

  /**
   * `s.replace(p, rep)` for a string pattern `p` and a replacement without `$` patterns:
   * only the leftmost occurrence of `p` is replaced.
   */
  function ReplaceFirst(s: string, p: string, rep: string): (r: string)
  {
    match IndexOf(s, p)
    case None => s
    case Some(i) => s[..i] + rep + s[i + |p|..]
  }

  /**
   * When the pattern occurs, the result is the text before its leftmost occurrence, the
   * replacement, and the text after that occurrence, and no occurrence starts further left.
   */
  lemma ReplaceFirstSplits(s: string, p: string, rep: string)
    requires Contains(s, p)
    ensures exists i: nat ::
      && OccursAt(s, p, i)
      && (forall j: nat :: j < i ==> !OccursAt(s, p, j))
      && ReplaceFirst(s, p, rep) == s[..i] + rep + s[i + |p|..]
      && |ReplaceFirst(s, p, rep)| == |s| - |p| + |rep|
  {
    var i :| IndexOf(s, p) == Some(i);
  }

  /** A digit character of a decimal numeral. */
  predicate IsDigit(c: char)
  {
    '0' <= c <= '9'
  }

  /** The character of the decimal digit `d`. */
  function DigitChar(d: nat): (c: char)
    requires d < 10
    ensures IsDigit(c)
  {
    "0123456789"[d]
  }

  /** The value of a decimal digit character. */
  function DigitValue(c: char): (d: nat)
    requires IsDigit(c)
    ensures d < 10
  {
    (c as int - '0' as int) as nat
  }

  /** `String(n)` for a non-negative integer: its decimal numeral without leading zeros. */
  function NatToString(n: nat): (r: string)
    ensures |r| > 0
    ensures forall k :: 0 <= k < |r| ==> IsDigit(r[k])
    ensures |r| > 1 ==> r[0] != '0'
  {
    if n < 10 then [DigitChar(n)] else NatToString(n / 10) + [DigitChar(n % 10)]
  }

  /** The value of a decimal numeral (the partner of NatToString). */
  function DecimalValue(s: string): nat
    requires forall k :: 0 <= k < |s| ==> IsDigit(s[k])
  {
    if |s| == 0 then 0 else DecimalValue(s[..|s| - 1]) * 10 + DigitValue(s[|s| - 1])
  }

  lemma DigitRoundTrip(d: nat)
    requires d < 10
    ensures DigitValue(DigitChar(d)) == d
  {
  }

  /** Reading back the numeral NatToString writes gives the number: distinct numbers print differently. */
  lemma {:induction false} NatToStringRoundTrip(n: nat)
    ensures DecimalValue(NatToString(n)) == n
  {
    if n < 10 {
      DigitRoundTrip(n);
    } else {
      var s := NatToString(n / 10);
      var r := s + [DigitChar(n % 10)];
      assert r[..|r| - 1] == s;
      NatToStringRoundTrip(n / 10);
      DigitRoundTrip(n % 10);
    }
  }

  /** Corollary: NatToString is injective. */
  lemma NatToStringInjective(m: nat, n: nat)
    requires NatToString(m) == NatToString(n)
    ensures m == n
  {
    NatToStringRoundTrip(m);
    NatToStringRoundTrip(n);
  }
}
