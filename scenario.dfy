/**
 * An end-to-end run of the extension on a small page: start-up, then one
 * insertion reported to the observer.
 */
module PageScenario {
  import opened Options
  import opened Eszett
  import opened Dom
  import opened Selection
  import opened Effects
  import opened ContentScript

  /** The body of the page: an input field and an empty contenteditable region. */
  function PageBody(input: FormControl): Node {
    Element("BODY", None, false, [Control(input), Element("DIV", Some("true"), true, [])])
  }

  /** The body's subtree: the field and the region, and no text node. */
  lemma BodyShape(input: FormControl)
    ensures Descendants(PageBody(input)) == [Control(input), Element("DIV", Some("true"), true, [])]
    ensures Occurrences(PageBody(input)) == []
  {
    var region := Element("DIV", Some("true"), true, []);
    var kids := [Control(input), region];
    assert kids[1..] == [region] && [region][1..] == [];
    assert ChildDescendants([region]) == [region];
    assert ChildOccurrences("BODY", [region]) == [];
  }

  /** The page holds no text node and exactly one form control. */
  lemma PageParts(doc: Document, input: FormControl)
    requires doc.head == None && doc.body == Some(PageBody(input))
    ensures DocTexts(doc) == {} && DocHit(doc) == {}
    ensures DocControls(doc) == {input}
  {
    BodyShape(input);
    var nodes := DocNodes(doc);
    assert nodes == [PageBody(input), Control(input), Element("DIV", Some("true"), true, [])];
    assert nodes[..2] == [PageBody(input), Control(input)] && nodes[..2][..1] == [PageBody(input)];
    assert nodes[..2][..1][..0] == [];
    assert Union(nodes[..1], OwnControl) == {};
    assert Union(nodes[..2], OwnControl) == {input};
  }

  /** A `childList` record adding one text node concerns that node only. */
  lemma OneInsertion(t: TextNode)
    ensures Union([ChildList([Text(t)])], RecordTexts) == {t}
    ensures Union([ChildList([Text(t)])], RecordHit) == {t}
    ensures Union([ChildList([Text(t)])], RecordControls) == {}
  {
    var added := [Text(t)];
    var ms := [ChildList(added)];
    assert added[..0] == [] && ms[..0] == [];
    assert Descendants(Text(t)) == [];
    assert NodeControls(Text(t)) == {};
    assert Union(added, NodeTexts) == {t};
    assert Union(added, NodeControls) == {};
    assert Union(ms, RecordTexts) == RecordTexts(ms[0]);
    assert Union(ms, RecordControls) == RecordControls(ms[0]);
  }

  /**
   * A page whose title is "Größe" and whose body holds an input with
   * "Straße" and the cursor at its end (offset 6), and an empty
   * contenteditable region. After start-up the title is "Grösse" (the "ö"
   * stays) and the input holds "Strasse" with the cursor at its end
   * (offset 7); a text node "ẞ" then inserted into the region is reported
   * in a `childList` record and becomes "SS".
   */
  method Scenario() returns (title: string, field: ControlState, typed: string)
    ensures title == "Gr\U{F6}sse"
    ensures field == ControlState("Strasse", Some(7), Some(7))
    ensures typed == "SS"
  {
    var input := new FormControl(Input, "Stra\U{DF}e", Some(6), Some(6));
    var doc := new Document("Gr\U{F6}\U{DF}e", None, Some(PageBody(input)));
    var q := new RecordQueue();
    PageParts(doc, input);
    ghost var c0 := ControlSnapshot({input});
    Startup(doc, q, {}, {input});
    assert ControlSnapshot({input})[input] == EditedState(c0[input]);
    ReplaceEszettGroesse();
    EditedStrasse();
    title, field := doc.title, input.State();
    var inserted := new TextNode("\U{1E9E}");
    ghost var v0 := Snapshot({inserted});
    OneInsertion(inserted);
    MutationObserver([ChildList([Text(inserted)])], q, {inserted}, {});
    assert Snapshot({inserted})[inserted] == ReplaceEszett(v0[inserted]);
    ReplaceEszettCharwise([], [], CapitalSharpS);
    typed := inserted.nodeValue;
  }
}
