/**
 * The substitution rule of the content script: every capital sharp s
 * (U+1E9E) becomes "SS" and every small sharp s (U+00DF) becomes "ss".
 * Strings are sequences of Unicode code points. Both targets lie in the
 * Basic Multilingual Plane, as does every character whose UTF-16 form is a
 * single code unit; on such text a JavaScript `length` is the length of the
 * Dafny sequence.
 */
module Eszett {
  import opened Strings

  const SharpS: char := '\U{DF}'
  const CapitalSharpS: char := '\U{1E9E}'

  /** A string the rule leaves alone: it holds neither target character. */
  predicate Clean(s: string) {
    SharpS !in s && CapitalSharpS !in s
  }

  /** The replacement text of one character. */
  function ExpandChar(c: char): (r: string)
    ensures c == CapitalSharpS ==> r == "SS"
    ensures c == SharpS ==> r == "ss"
    ensures c != SharpS && c != CapitalSharpS ==> r == [c]
  {
    if c == CapitalSharpS then "SS" else if c == SharpS then "ss" else [c]
  }

  /**
   * Reference definition of the rule, independent of the order in which the
   * two replacements are applied: each character replaced by its expansion.
   */
  function Expand(s: string): (r: string) {
    if s == [] then [] else ExpandChar(s[0]) + Expand(s[1..])
  }

  /**
   * `replaceEszett` of the content script: `replaceAll("ẞ", "SS")` followed
   * by `replaceAll("ß", "ss")`; the empty string is returned as it is. The
   * result is the character-wise expansion.
   */
  function ReplaceEszett(s: string): (r: string)
    ensures r == Expand(s)
  {
    CapitalFirstIsExpand(s);
    if s == [] then s
    else ReplaceAll(ReplaceAll(s, CapitalSharpS, "SS"), SharpS, "ss")
  }

  lemma {:induction false} ExpandAppend(a: string, b: string)
    ensures Expand(a + b) == Expand(a) + Expand(b)
  {
    if a == [] {
      assert a + b == b;
    } else {
      assert (a + b)[0] == a[0];
      assert (a + b)[1..] == a[1..] + b;
      ExpandAppend(a[1..], b);
    }
  }

  /** The chained `replaceAll` calls compute the character-wise expansion. */
  lemma {:induction false} CapitalFirstIsExpand(s: string)
    ensures ReplaceAll(ReplaceAll(s, CapitalSharpS, "SS"), SharpS, "ss") == Expand(s)
  {
    if s != [] {
      var head := if s[0] == CapitalSharpS then "SS" else [s[0]];
      var rest := ReplaceAll(s[1..], CapitalSharpS, "SS");
      assert ReplaceAll(s, CapitalSharpS, "SS") == head + rest;
      ReplaceAllAppend(head, rest, SharpS, "ss");
      assert ReplaceAll(head, SharpS, "ss") == ExpandChar(s[0]) by {
        if s[0] == CapitalSharpS {
          assert ReplaceAll("S", SharpS, "ss") == "S";
          assert head == "S" + "S";
          ReplaceAllAppend("S", "S", SharpS, "ss");
        }
      }
      CapitalFirstIsExpand(s[1..]);
    }
  }

  /** The rule's output holds no target character. */
  lemma {:induction false} ExpandIsClean(s: string)
    ensures Clean(Expand(s))
  {
    if s != [] {
      ExpandIsClean(s[1..]);
    }
  }

  /** A clean string is its own expansion. */
  lemma {:induction false} ExpandOfClean(s: string)
    requires Clean(s)
    ensures Expand(s) == s
  {
    if s != [] {
      assert Clean(s[1..]);
      ExpandOfClean(s[1..]);
    }
  }

  lemma {:induction false} ExpandLength(s: string)
    ensures |Expand(s)| == |s| + Count(s, SharpS) + Count(s, CapitalSharpS)
  {
    if s != [] {
      ExpandLength(s[1..]);
    }
  }

  // ---- Properties of the rule ----

  /** The output contains neither target character. */
  lemma ReplaceEszettIsClean(s: string)
    ensures Clean(ReplaceEszett(s))
  {
    ExpandIsClean(s);
  }

  /**
   * Every other character is kept, in order: the rule distributes over
   * concatenation and maps each single character to its expansion.
   */
  lemma ReplaceEszettCharwise(a: string, b: string, c: char)
    ensures ReplaceEszett(a + b) == ReplaceEszett(a) + ReplaceEszett(b)
    ensures ReplaceEszett([c]) == ExpandChar(c)
  {
    ExpandAppend(a, b);
    assert [c][1..] == [] && [c][0] == c;
    assert Expand([c]) == ExpandChar(c) + Expand([]);
  }

  /** Applying the rule twice gives the same result as applying it once. */
  lemma ReplaceEszettIdempotent(s: string)
    ensures ReplaceEszett(ReplaceEszett(s)) == ReplaceEszett(s)
  {
    ReplaceEszettIsClean(s);
    ReplaceEszettFixesClean(ReplaceEszett(s));
  }

  /** Each replaced character adds exactly one to the length. */
  lemma ReplaceEszettLength(s: string)
    ensures |ReplaceEszett(s)| == |s| + Count(s, SharpS) + Count(s, CapitalSharpS)
  {
    ExpandLength(s);
  }

  /**
   * The rule returns its input unchanged exactly when the input is clean,
   * which is what lets the callers skip the write after comparing.
   */
  lemma ReplaceEszettFixesClean(s: string)
    ensures ReplaceEszett(s) == s <==> Clean(s)
  {
    if Clean(s) {
      ExpandOfClean(s);
    } else {
      ExpandLength(s);
    }
  }

  /** The rule on a clean part, a target, and a clean part. */
  lemma ReplaceAround(a: string, c: char, b: string)
    requires Clean(a) && Clean(b)
    ensures ReplaceEszett(a + [c] + b) == a + ExpandChar(c) + b
  {
    ReplaceEszettCharwise(a + [c], b, c);
    ReplaceEszettCharwise(a, [c], c);
    ReplaceEszettFixesClean(a);
    ReplaceEszettFixesClean(b);
  }

  /** Worked cases of the substitution. */
  lemma ReplaceEszettStrasse()
    ensures ReplaceEszett("Stra\U{DF}e") == "Strasse"
  {
    var a, b := "Stra", "e";
    assert "Stra\U{DF}e" == a + [SharpS] + b;
    ReplaceAround(a, SharpS, b);
    assert a + ExpandChar(SharpS) + b == "Strasse";
  }

  lemma ReplaceEszettGrosse()
    ensures ReplaceEszett("GROSSE \U{1E9E}ASS") == "GROSSE SSASS"
  {
    var a, b := "GROSSE ", "ASS";
    assert "GROSSE \U{1E9E}ASS" == a + [CapitalSharpS] + b;
    ReplaceAround(a, CapitalSharpS, b);
    assert a + ExpandChar(CapitalSharpS) + b == "GROSSE SSASS";
  }

  lemma ReplaceEszettGroesse()
    ensures ReplaceEszett("Gr\U{F6}\U{DF}e") == "Gr\U{F6}sse"
  {
    var a, b := "Gr\U{F6}", "e";
    assert "Gr\U{F6}\U{DF}e" == a + [SharpS] + b;
    ReplaceAround(a, SharpS, b);
    assert a + ExpandChar(SharpS) + b == "Gr\U{F6}sse";
  }
}
