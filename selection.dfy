/**
 * What `processEditable` does to an `input` or `textarea`: the value gets
 * the substitution rule and, when the value changed and both selection
 * offsets are numbers, both offsets are shifted by the value's growth.
 */
module Selection {
  import opened Options
  import opened Strings
  import opened Dom
  import opened Eszett

  /** How many characters the rule adds to `s`: one per target character. */
  function Targets(s: string): (n: nat) {
    Count(s, SharpS) + Count(s, CapitalSharpS)
  }

  /**
   * The state of an `input` or `textarea` after `processEditable`: nothing
   * changes when the value is clean; otherwise the value is replaced and,
   * when both selection offsets are numbers, each is shifted by the growth
   * of the whole value.
   */
  function EditedState(c: ControlState): (r: ControlState)
    ensures r.value == ReplaceEszett(c.value)
    ensures Clean(c.value) ==> r == c
    ensures !Clean(c.value) && c.selectionStart.Some? && c.selectionEnd.Some? ==>
      && r.selectionStart == Some(c.selectionStart.value + Targets(c.value))
      && r.selectionEnd == Some(c.selectionEnd.value + Targets(c.value))
    ensures !(c.selectionStart.Some? && c.selectionEnd.Some?) ==>
      r.selectionStart == c.selectionStart && r.selectionEnd == c.selectionEnd
  {
    ReplaceEszettFixesClean(c.value);
    ReplaceEszettLength(c.value);
    var v := ReplaceEszett(c.value);
    if v == c.value then c
    else if c.selectionStart.Some? && c.selectionEnd.Some? then
      var delta := |v| - |c.value|;
      ControlState(v, Some(c.selectionStart.value + delta), Some(c.selectionEnd.value + delta))
    else ControlState(v, c.selectionStart, c.selectionEnd)
  }

  /** Editing a control a second time changes nothing. */
  lemma EditedIdempotent(c: ControlState)
    ensures EditedState(EditedState(c)) == EditedState(c)
  {
    ReplaceEszettIsClean(c.value);
  }

  /**
   * Offsets that lay within the old value lie within the new one: the
   * shift never moves a cursor past the end, so no clamping is needed.
   */
  lemma EditedKeepsRange(c: ControlState)
    requires c.selectionStart.Some? && c.selectionEnd.Some?
    requires 0 <= c.selectionStart.value <= c.selectionEnd.value <= |c.value|
    ensures EditedState(c).selectionStart.Some? && EditedState(c).selectionEnd.Some?
    ensures 0 <= EditedState(c).selectionStart.value <= EditedState(c).selectionEnd.value <= |EditedState(c).value|
  {
    ReplaceEszettLength(c.value);
  }

  /**
   * A cursor with no target character after it stays after the same text:
   * what precedes the new cursor is the rule applied to what preceded the
   * old one. This is the case of a character just typed at the end.
   */
  lemma CursorAnchored(c: ControlState, s: nat)
    requires c.selectionStart == Some(s) && c.selectionEnd.Some? && s <= |c.value|
    requires Clean(c.value[s..])
    ensures EditedState(c).selectionStart == Some(|ReplaceEszett(c.value[..s])|)
    ensures ReplaceEszett(c.value[..s]) <= EditedState(c).value
  {
    var pre, suf := c.value[..s], c.value[s..];
    assert c.value == pre + suf;
    CleanSuffix(pre, suf);
    if Clean(c.value) {
      assert EditedState(c).selectionStart == Some(s);
    } else {
      assert EditedState(c).selectionStart == Some(s + Targets(c.value));
    }
  }

  lemma CleanSuffix(pre: string, suf: string)
    requires Clean(suf)
    ensures ReplaceEszett(pre + suf) == ReplaceEszett(pre) + suf
    ensures Targets(pre + suf) == Targets(pre)
    ensures |ReplaceEszett(pre)| == |pre| + Targets(pre)
  {
    ReplaceEszettCharwise(pre, suf, 'a');
    ReplaceEszettFixesClean(suf);
    CountAppend(pre, suf, SharpS);
    CountAppend(pre, suf, CapitalSharpS);
    ReplaceEszettLength(pre);
  }

  /**
   * The shift is the growth of the whole value, not of the text before the
   * cursor: a cursor in front of a target character moves into its
   * replacement.
   */
  lemma CursorBeforeTargetMoves()
    ensures EditedState(ControlState("\U{DF}a", Some(0), Some(0))) == ControlState("ssa", Some(1), Some(1))
  {
    ReplaceAround([], SharpS, "a");
    ReplaceEszettLength("\U{DF}a");
  }

  /** "Straße" with the cursor at its end (offset 6) becomes "Strasse" with the cursor at its end (offset 7). */
  lemma EditedStrasse()
    ensures EditedState(ControlState("Stra\U{DF}e", Some(6), Some(6))) == ControlState("Strasse", Some(7), Some(7))
  {
    ReplaceEszettStrasse();
    ReplaceEszettLength("Stra\U{DF}e");
  }
}
