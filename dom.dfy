/**
 * The part of the host document the content script touches.
 *
 * Apart from the title's text, which the browser replaces when the title is
 * assigned, the script does not change the shape of the tree; it only writes
 * the data of text nodes, the value and selection of form controls, and the
 * document title. So the shape is an immutable datatype `Node`, and the state the
 * script writes lives in objects (`TextNode`, `FormControl`, `Document`) that
 * the tree refers to. The browser's queue of mutation records, which receives
 * a `characterData` record whenever a text node's data is assigned, is the
 * object `RecordQueue`.
 */
module Dom {
  import opened Options

  /** A DOM Text node; `nodeValue` is its character data. */
  class TextNode {
    var nodeValue: string

    constructor (data: string)
      ensures nodeValue == data
    {
      nodeValue := data;
    }
  }

  /** What a form control exposes to the script: its value and its selection offsets (null when the control has none). */
  datatype ControlState = ControlState(value: string, selectionStart: Option<int>, selectionEnd: Option<int>)

  /** Which of the two form-control elements a control is. */
  datatype ControlKind = Input | TextArea

  /** An `input` or `textarea` element. */
  class FormControl {
    const kind: ControlKind
    var value: string
    var selectionStart: Option<int>
    var selectionEnd: Option<int>

    constructor (kind: ControlKind, value: string, selectionStart: Option<int>, selectionEnd: Option<int>)
      ensures this.kind == kind
      ensures State() == ControlState(value, selectionStart, selectionEnd)
    {
      this.kind := kind;
      this.value := value;
      this.selectionStart := selectionStart;
      this.selectionEnd := selectionEnd;
    }

    /** `setSelectionRange`; the browser's clamping to the value's length is not modelled. */
    method SetSelectionRange(start: int, end: int)
      modifies this
      ensures value == old(value)
      ensures selectionStart == Some(start) && selectionEnd == Some(end)
    {
      selectionStart, selectionEnd := Some(start), Some(end);
    }

    function State(): ControlState
      reads this
    {
      ControlState(value, selectionStart, selectionEnd)
    }
  }

  /**
   * A node of the tree. `Element` is any element other than a form control:
   * its upper-case tag name, the value of its `contenteditable` attribute
   * (None when absent), the browser's `isContentEditable` (given, since the
   * browser computes it by inheritance), and its children in order.
   * `OtherNode` is a comment, processing instruction or other node that is
   * neither text nor element.
   */
  datatype Node =
    | Text(text: TextNode)
    | Control(control: FormControl)
    | Element(tagName: string, contentEditable: Option<string>, isContentEditable: bool, children: seq<Node>)
    | OtherNode

  /** A mutation record as the observer receives it. */
  datatype Mutation =
    | CharacterData(node: TextNode)
    | ChildList(addedNodes: seq<Node>)
    | Attributes(element: Node, attributeName: string)

  /** The document: its title and its optional head and body elements. */
  class Document {
    var title: string
    const head: Option<Node>
    const body: Option<Node>

    constructor (title: string, head: Option<Node>, body: Option<Node>)
      ensures this.title == title && this.head == head && this.body == body
    {
      this.title := title;
      this.head := head;
      this.body := body;
    }
  }

  /** The records the browser queues for the document's mutation observer. */
  class RecordQueue {
    var records: seq<Mutation>

    constructor ()
      ensures records == []
    {
      records := [];
    }
  }

  /** Assigning `nodeValue`: the data changes and a `characterData` record is queued. */
  method SetNodeValue(node: TextNode, data: string, q: RecordQueue)
    modifies node, q
    ensures node.nodeValue == data
    ensures q.records == old(q.records) + [CharacterData(node)]
  {
    node.nodeValue := data;
    q.records := q.records + [CharacterData(node)];
  }

  /** The text nodes targeted by the `characterData` records among `rs`. */
  ghost function Written(rs: seq<Mutation>): set<TextNode> {
    set i | 0 <= i < |rs| && rs[i].CharacterData? :: rs[i].node
  }

  lemma WrittenAppend(a: seq<Mutation>, b: seq<Mutation>)
    ensures Written(a + b) == Written(a) + Written(b)
  {
    forall t | t in Written(a + b) ensures t in Written(a) + Written(b) {
      var i :| 0 <= i < |a + b| && (a + b)[i].CharacterData? && (a + b)[i].node == t;
      if i < |a| { assert a[i] == (a + b)[i]; } else { assert b[i - |a|] == (a + b)[i]; }
    }
    forall t | t in Written(a) + Written(b) ensures t in Written(a + b) {
      if t in Written(a) {
        var i :| 0 <= i < |a| && a[i].CharacterData? && a[i].node == t;
        assert (a + b)[i] == a[i];
      } else {
        var i :| 0 <= i < |b| && b[i].CharacterData? && b[i].node == t;
        assert (a + b)[|a| + i] == b[i];
      }
    }
  }

  lemma WrittenOne(t: TextNode)
    ensures Written([]) == {}
    ensures Written([CharacterData(t)]) == {t}
  {
    assert [CharacterData(t)][0].node == t;
  }

  /** The data of each text node of `texts`, for stating what a sweep changed. */
  ghost function Snapshot(texts: set<TextNode>): (m: map<TextNode, string>)
    reads texts
    ensures m.Keys == texts
  {
    map t | t in texts :: t.nodeValue
  }

  /** The state of each control of `controls`. */
  ghost function ControlSnapshot(controls: set<FormControl>): (m: map<FormControl, ControlState>)
    reads controls
    ensures m.Keys == controls
  {
    map c | c in controls :: c.State()
  }

  // ---- Unions over lists ----

  /** The union of `f(x)` over the elements `x` of `xs`. */
  ghost function Union<X, Y>(xs: seq<X>, f: X -> set<Y>): set<Y> {
    if xs == [] then {} else Union(xs[..|xs| - 1], f) + f(xs[|xs| - 1])
  }

  lemma UnionStep<X, Y>(xs: seq<X>, k: nat, f: X -> set<Y>)
    requires k < |xs|
    ensures Union(xs[..k + 1], f) == Union(xs[..k], f) + f(xs[k])
  {
    assert xs[..k + 1][..k] == xs[..k];
  }

  lemma {:induction false} UnionAppend<X, Y>(a: seq<X>, b: seq<X>, f: X -> set<Y>)
    ensures Union(a + b, f) == Union(a, f) + Union(b, f)
    decreases |b|
  {
    if b == [] {
      assert a + b == a;
    } else {
      var b' := b[..|b| - 1];
      assert (a + b)[..|a + b| - 1] == a + b';
      UnionAppend(a, b', f);
    }
  }

  /** A union is bounded by any set that bounds each of its parts. */
  lemma {:induction false} UnionBounded<X, Y>(xs: seq<X>, f: X -> set<Y>, bound: set<Y>)
    requires forall i | 0 <= i < |xs| :: f(xs[i]) <= bound
    ensures Union(xs, f) <= bound
    decreases |xs|
  {
    if xs != [] {
      UnionBounded(xs[..|xs| - 1], f, bound);
    }
  }

  /** A union of smaller parts is smaller. */
  lemma {:induction false} UnionMono<X, Y>(xs: seq<X>, f: X -> set<Y>, g: X -> set<Y>)
    requires forall i | 0 <= i < |xs| :: f(xs[i]) <= g(xs[i])
    ensures Union(xs, f) <= Union(xs, g)
    decreases |xs|
  {
    if xs != [] {
      UnionMono(xs[..|xs| - 1], f, g);
    }
  }

  lemma {:induction false} UnionMember<X, Y>(xs: seq<X>, f: X -> set<Y>, i: nat)
    requires i < |xs|
    ensures f(xs[i]) <= Union(xs, f)
    decreases |xs|
  {
    if i < |xs| - 1 {
      UnionMember(xs[..|xs| - 1], f, i);
    }
  }

  // ---- Structure ----

  /** A text node below an element, with the tag of its parent element. */
  datatype Occurrence = Occurrence(leaf: TextNode, parentTag: string)

  /**
   * Every text node strictly below `root`, in document order, paired with
   * its parent's tag: the nodes a `SHOW_TEXT` tree walker rooted at `root`
   * hands to its filter.
   */
  function Occurrences(root: Node): (r: seq<Occurrence>)
    ensures !root.Element? ==> r == []
    ensures root.Element? ==> forall c | c in root.children && c.Text? :: Occurrence(c.text, root.tagName) in r
    ensures forall o | o in r :: Text(o.leaf) in Descendants(root)
    decreases root
  {
    match root
    case Element(tag, _, _, children) => ChildOccurrences(tag, children)
    case _ => []
  }

  function ChildOccurrences(tag: string, children: seq<Node>): (r: seq<Occurrence>)
    ensures forall c | c in children && c.Text? :: Occurrence(c.text, tag) in r
    ensures forall o | o in r :: Text(o.leaf) in ChildDescendants(children)
    decreases children
  {
    if children == [] then []
    else
      (match children[0]
       case Text(t) => [Occurrence(t, tag)]
       case _ => Occurrences(children[0]))
      + ChildOccurrences(tag, children[1..])
  }

  /** Every node strictly below `root`, in document order. */
  function Descendants(root: Node): (r: seq<Node>)
    ensures !root.Element? ==> r == []
    ensures root.Element? ==> forall c | c in root.children :: c in r
    decreases root
  {
    match root
    case Element(_, _, _, children) => ChildDescendants(children)
    case _ => []
  }

  function ChildDescendants(children: seq<Node>): (r: seq<Node>)
    ensures forall c | c in children :: c in r
    decreases children
  {
    if children == [] then []
    else [children[0]] + Descendants(children[0]) + ChildDescendants(children[1..])
  }

  /** The text nodes strictly below `root`. */
  ghost function TextLeaves(root: Node): set<TextNode> {
    set o | o in Occurrences(root) :: o.leaf
  }

  /** The node's own form control, if it is one. */
  ghost function OwnControl(n: Node): set<FormControl> {
    if n.Control? then {n.control} else {}
  }

  /** The form controls strictly below `root`. */
  ghost function ControlsUnder(root: Node): set<FormControl> {
    Union(Descendants(root), OwnControl)
  }

  /** `e` is the parent element of the occurrence's text node and carries its tag. */
  predicate ParentOf(e: Node, o: Occurrence) {
    e.Element? && Text(o.leaf) in e.children && e.tagName == o.parentTag
  }

  /**
   * The tag paired with a listed text node is its real parent's: the root or
   * an element below it holds the text node as a child and has that tag.
   */
  lemma {:induction false} OccurrenceParent(root: Node, o: Occurrence)
    requires o in Occurrences(root)
    ensures exists p | p in [root] + Descendants(root) :: ParentOf(p, o)
    decreases root, if root.Element? then |root.children| + 1 else 0
  {
    ChildOccurrenceParent(root, 0, o);
  }

  lemma {:induction false} ChildOccurrenceParent(e: Node, k: nat, o: Occurrence)
    requires e.Element? && k <= |e.children|
    requires o in ChildOccurrences(e.tagName, e.children[k..])
    ensures exists p | p in [e] + Descendants(e) :: ParentOf(p, o)
    decreases e, |e.children| - k
  {
    var rest := e.children[k..];
    var c := rest[0];
    assert c == e.children[k] && rest[1..] == e.children[k + 1..];
    var first := match c case Text(t) => [Occurrence(t, e.tagName)] case _ => Occurrences(c);
    assert ChildOccurrences(e.tagName, rest) == first + ChildOccurrences(e.tagName, rest[1..]);
    if o in first {
      if c.Text? {
        assert ParentOf(e, o);
        assert e in [e] + Descendants(e);
      } else {
        OccurrenceParent(c, o);
        var p :| p in [c] + Descendants(c) && ParentOf(p, o);
        assert c in Descendants(e);
        DescendantInclusion(e, c);
        assert p in [e] + Descendants(e);
      }
    } else {
      ChildOccurrenceParent(e, k + 1, o);
    }
  }

  /** What lies below a descendant lies below its ancestor. */
  lemma {:induction false} DescendantInclusion(n: Node, d: Node)
    requires d in Descendants(n)
    ensures forall o | o in Occurrences(d) :: o in Occurrences(n)
    ensures forall x | x in Descendants(d) :: x in Descendants(n)
    decreases n
  {
    match n
    case Element(tag, _, _, children) => ChildInclusion(tag, children, d);
    case _ =>
  }

  lemma {:induction false} ChildInclusion(tag: string, children: seq<Node>, d: Node)
    requires d in ChildDescendants(children)
    ensures forall o | o in Occurrences(d) :: o in ChildOccurrences(tag, children)
    ensures forall x | x in Descendants(d) :: x in ChildDescendants(children)
    decreases children
  {
    var c := children[0];
    var first := match c case Text(t) => [Occurrence(t, tag)] case _ => Occurrences(c);
    assert ChildOccurrences(tag, children) == first + ChildOccurrences(tag, children[1..]);
    if d == c {
    } else if d in Descendants(c) {
      DescendantInclusion(c, d);
    } else {
      ChildInclusion(tag, children[1..], d);
    }
  }
}
