/**
 * The two JavaScript string built-ins the core relies on, restricted to the
 * way the core calls them: `String.prototype.replaceAll` with a one-character
 * search string, and `String.prototype.replace` with a global regular
 * expression that matches one literal character. For a one-character pattern
 * both replace every occurrence, left to right, and the matches never overlap,
 * so both are the character-wise map `ReplaceAll` below.
 */
module Strings {

  /** Number of occurrences of `c` in `s`. */
  function Count(s: string, c: char): (n: nat)
    ensures n <= |s|
    ensures n == 0 <==> c !in s
  {
    if s == [] then 0 else (if s[0] == c then 1 else 0) + Count(s[1..], c)
  }

  /** Every occurrence of `target` in `s` replaced by `replacement`. */
  function ReplaceAll(s: string, target: char, replacement: string): (r: string)
    ensures target !in replacement ==> target !in r
  {
    if s == [] then []
    else (if s[0] == target then replacement else [s[0]]) + ReplaceAll(s[1..], target, replacement)
  }

  lemma {:induction false} CountAppend(a: string, b: string, c: char)
    ensures Count(a + b, c) == Count(a, c) + Count(b, c)
  {
    if a != [] {
      assert (a + b)[1..] == a[1..] + b;
      CountAppend(a[1..], b, c);
    } else {
      assert a + b == b;
    }
  }

  /** Replacing in a concatenation is replacing in each part. */
  lemma {:induction false} ReplaceAllAppend(a: string, b: string, target: char, replacement: string)
    ensures ReplaceAll(a + b, target, replacement) == ReplaceAll(a, target, replacement) + ReplaceAll(b, target, replacement)
  {
    if a == [] {
      assert a + b == b;
    } else {
      assert (a + b)[0] == a[0];
      assert (a + b)[1..] == a[1..] + b;
      ReplaceAllAppend(a[1..], b, target, replacement);
    }
  }

  /** A string without the target is returned unchanged. */
  lemma {:induction false} ReplaceAllAbsent(s: string, target: char, replacement: string)
    requires target !in s
    ensures ReplaceAll(s, target, replacement) == s
  {
    if s != [] {
      assert target !in s[1..];
      ReplaceAllAbsent(s[1..], target, replacement);
    }
  }

  /** A two-character replacement grows the string by one per occurrence. */
  lemma {:induction false} ReplaceAllLength(s: string, target: char, replacement: string)
    requires |replacement| == 2
    ensures |ReplaceAll(s, target, replacement)| == |s| + Count(s, target)
  {
    if s != [] {
      ReplaceAllLength(s[1..], target, replacement);
    }
  }
}
