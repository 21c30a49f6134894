/**
 * The demo page's own copy of the rule: two global regular-expression
 * replacements, small sharp s first and capital sharp s second, the opposite
 * order from the content script, and no guard for the empty string.
 */
module DemoScript {
  import opened Strings
  import Eszett

  /**
   * `text.replace(/ß/g, 'ss')` followed by `text.replace(/ẞ/g, 'SS')`: the
   * character-wise expansion.
   */
  function ReplaceEszett(text: string): (r: string)
    ensures r == Eszett.Expand(text)
  {
    SmallFirstIsExpand(text);
    ReplaceAll(ReplaceAll(text, Eszett.SharpS, "ss"), Eszett.CapitalSharpS, "SS")
  }

  /** `beautify`: the text passed through `replaceEszett`. */
  function Beautify(text: string): (r: string)
    ensures r == Eszett.ReplaceEszett(text)
  {
    ReplaceEszett(text)
  }

  /** The two global replacements, small sharp s first, compute the character-wise expansion. */
  lemma {:induction false} SmallFirstIsExpand(s: string)
    ensures ReplaceAll(ReplaceAll(s, Eszett.SharpS, "ss"), Eszett.CapitalSharpS, "SS") == Eszett.Expand(s)
  {
    if s != [] {
      var head := if s[0] == Eszett.SharpS then "ss" else [s[0]];
      var rest := ReplaceAll(s[1..], Eszett.SharpS, "ss");
      assert ReplaceAll(s, Eszett.SharpS, "ss") == head + rest;
      ReplaceAllAppend(head, rest, Eszett.CapitalSharpS, "SS");
      assert ReplaceAll(head, Eszett.CapitalSharpS, "SS") == Eszett.ExpandChar(s[0]) by {
        if s[0] == Eszett.SharpS {
          assert ReplaceAll("s", Eszett.CapitalSharpS, "SS") == "s";
          assert head == "s" + "s";
          ReplaceAllAppend("s", "s", Eszett.CapitalSharpS, "SS");
        }
      }
      SmallFirstIsExpand(s[1..]);
    }
  }

  /**
   * The demo page and the content script agree on every string, although
   * they apply the two replacements in opposite orders.
   */
  lemma AgreesWithContentScript(s: string)
    ensures ReplaceEszett(s) == Eszett.ReplaceEszett(s)
  {
  }

  /** Every small sharp s becomes "ss", every capital one "SS", the rest stays in order. */
  lemma ReplaceEszettCharwise(a: string, b: string, c: char)
    ensures ReplaceEszett(a + b) == ReplaceEszett(a) + ReplaceEszett(b)
    ensures ReplaceEszett([c]) == Eszett.ExpandChar(c)
  {
    Eszett.ExpandAppend(a, b);
    assert [c][1..] == [] && [c][0] == c;
    assert Eszett.Expand([c]) == Eszett.ExpandChar(c) + Eszett.Expand([]);
  }

  /** The output holds no sharp s, and a second pass changes nothing. */
  lemma ReplaceEszettCleanAndIdempotent(s: string)
    ensures Eszett.Clean(ReplaceEszett(s))
    ensures ReplaceEszett(ReplaceEszett(s)) == ReplaceEszett(s)
  {
    AgreesWithContentScript(s);
    AgreesWithContentScript(ReplaceEszett(s));
    Eszett.ReplaceEszettIsClean(s);
    Eszett.ReplaceEszettIdempotent(s);
  }
}
