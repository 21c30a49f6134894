/**
 * The content script: the substitution rule applied to the text nodes, form
 * controls and title of a live document, once at start-up and again for
 * every mutation record and `input` event.
 *
 * Every operation is specified by what it does to snapshots of the state it
 * may change: `Swept` says which text nodes had the rule applied, `Edits`
 * which form controls were edited, and `QueuedFrom` which mutation records
 * the browser queued in response to the writes. An operation also takes, as
 * ghost parameters, the text nodes `texts` and controls `controls` its
 * caller watches (any supersets of what it may change), and states its
 * effect on snapshots of these, so that callers compose effects without
 * reasoning about frames.
 */
module ContentScript {
  import opened Options
  import opened Strings
  import opened Dom
  import opened Eszett
  import opened Selection
  import opened Effects

  // ---- Text nodes ----

  /**
   * `processTextNode`: read, transform, compare, and write back only when
   * the text changed. No other node changes.
   */
  method ProcessTextNode(node: TextNode, q: RecordQueue, ghost texts: set<TextNode>, ghost controls: set<FormControl>)
    requires node in texts
    modifies node, q
    ensures node.nodeValue == ReplaceEszett(old(node.nodeValue))
    ensures q.records == old(q.records) + if Clean(old(node.nodeValue)) then [] else [CharacterData(node)]
    ensures Swept(Snapshot(texts), old(Snapshot(texts)), {node})
    ensures QueuedFrom(q.records, old(q.records), DirtyIn({node}, old(Snapshot(texts))))
    ensures ControlSnapshot(controls) == old(ControlSnapshot(controls))
  {
    QueuedOne(q.records, node, Snapshot(texts));
    var oldText := node.nodeValue;
    var newText := ReplaceEszett(oldText);
    ReplaceEszettFixesClean(oldText);
    if newText != oldText {
      SetNodeValue(node, newText, q);
    }
  }

  datatype FilterResult = FilterAccept | FilterReject

  const ExcludedTags: set<string> := {"SCRIPT", "STYLE", "NOSCRIPT"}

  /**
   * `acceptTextNode`, given the tag of the node's parent element (None when
   * it has none): rejected exactly when there is no parent element or the
   * parent is a script, style or noscript element.
   */
  function AcceptTextNode(parentTag: Option<string>): (r: FilterResult)
    ensures r == FilterReject <==> parentTag == None || parentTag.value in ExcludedTags
  {
    if parentTag.None? then FilterReject
    else if parentTag.value == "SCRIPT" || parentTag.value == "STYLE" || parentTag.value == "NOSCRIPT" then FilterReject
    else FilterAccept
  }

  predicate Accepted(o: Occurrence) {
    AcceptTextNode(Some(o.parentTag)) == FilterAccept
  }

  ghost function AcceptedIn(os: seq<Occurrence>): set<TextNode> {
    set o | o in os && Accepted(o) :: o.leaf
  }

  /** The text nodes below `root` that a walk from `root` transforms. */
  ghost function AcceptedLeaves(root: Node): (r: set<TextNode>)
    ensures r <= TextLeaves(root)
  {
    AcceptedIn(Occurrences(root))
  }

  /** The accepted text nodes among the first `k` a walk from `root` visits. */
  ghost function AcceptedPrefix(root: Node, k: nat): set<TextNode>
    requires k <= |Occurrences(root)|
  {
    AcceptedIn(Occurrences(root)[..k])
  }

  lemma AcceptedPrefixStep(root: Node, k: nat)
    requires k < |Occurrences(root)|
    ensures Occurrences(root)[k].leaf in TextLeaves(root)
    ensures AcceptedPrefix(root, k + 1) ==
      AcceptedPrefix(root, k) + if Accepted(Occurrences(root)[k]) then {Occurrences(root)[k].leaf} else {}
  {
    var occs := Occurrences(root);
    assert occs[..k + 1] == occs[..k] + [occs[k]];
  }

  /**
   * `walkAndProcess`: the tree walker's loop. Every accepted text node below
   * `root` has the rule applied, every other text node keeps its data, and
   * only the nodes whose data the rule changes are written.
   */
  method WalkAndProcess(root: Node, q: RecordQueue, ghost texts: set<TextNode>, ghost controls: set<FormControl>)
    requires TextLeaves(root) <= texts
    modifies TextLeaves(root), q
    ensures Swept(Snapshot(texts), old(Snapshot(texts)), AcceptedLeaves(root))
    ensures QueuedFrom(q.records, old(q.records), DirtyIn(AcceptedLeaves(root), old(Snapshot(texts))))
    ensures ControlSnapshot(controls) == old(ControlSnapshot(controls))
  {
    ghost var v0, c0, r0 := Snapshot(texts), ControlSnapshot(controls), q.records;
    ghost var hit: set<TextNode> := {};
    Nothing(v0, map[], r0);
    var occs := Occurrences(root);
    var k := 0;
    while k < |occs|
      invariant 0 <= k <= |occs| && hit == AcceptedPrefix(root, k)
      invariant Swept(Snapshot(texts), v0, hit) && QueuedFrom(q.records, r0, DirtyIn(hit, v0))
      invariant ControlSnapshot(controls) == c0
    {
      var o := occs[k];
      AcceptedPrefixStep(root, k);
      if AcceptTextNode(Some(o.parentTag)) == FilterAccept {
        ghost var v1, r1 := Snapshot(texts), q.records;
        ProcessTextNode(o.leaf, q, texts, controls);
        SweepThen(v0, v1, Snapshot(texts), r0, r1, q.records, hit, {o.leaf});
        hit := hit + {o.leaf};
      }
      k := k + 1;
    }
    assert occs[..k] == occs;
  }

  /** No text node occurs twice below `root`, as in any real document. */
  ghost predicate DistinctText(root: Node) {
    var os := Occurrences(root);
    forall i, j | 0 <= i < j < |os| :: os[i].leaf != os[j].leaf
  }

  /**
   * In a document where no text node occurs twice, a text node whose parent
   * is excluded is not among those a walk transforms, so it keeps its data.
   */
  lemma RejectedNotTransformed(root: Node, i: nat)
    requires DistinctText(root)
    requires i < |Occurrences(root)| && !Accepted(Occurrences(root)[i])
    ensures Occurrences(root)[i].leaf in TextLeaves(root) - AcceptedLeaves(root)
  {
    var occs := Occurrences(root);
    forall o | o in occs && o.leaf == occs[i].leaf ensures !Accepted(o) {
      var j :| 0 <= j < |occs| && occs[j] == o;
      assert j == i;
    }
  }

  // ---- Inputs, textareas and contenteditable elements ----

  /**
   * The `input`/`textarea` branch of `processEditable`: read the value,
   * transform, compare; on change read the selection, write the value and,
   * when both offsets are numbers, shift them by the value's growth.
   */
  method EditControl(c: FormControl, ghost texts: set<TextNode>, ghost controls: set<FormControl>)
    requires c in controls
    modifies c
    ensures c.State() == EditedState(old(c.State()))
    ensures Edits(ControlSnapshot(controls), old(ControlSnapshot(controls)), {c})
    ensures Snapshot(texts) == old(Snapshot(texts))
  {
    var oldVal := c.value;
    var newVal := ReplaceEszett(oldVal);
    if newVal != oldVal {
      var start, end := c.selectionStart, c.selectionEnd;
      c.value := newVal;
      if start.Some? && end.Some? {
        var delta := |newVal| - |oldVal|;
        c.SetSelectionRange(start.value + delta, end.value + delta);
      }
    }
  }

  /** The text nodes `processEditable(n)` transforms: those below a contenteditable element. */
  ghost function EditableHit(n: Node): (r: set<TextNode>)
    ensures r <= AcceptedLeaves(n)
  {
    if n.Element? && n.isContentEditable then AcceptedLeaves(n) else {}
  }

  /**
   * `processEditable`: a form control is edited; a contenteditable element
   * has the walk applied to it; anything else is left alone.
   */
  method ProcessEditable(el: Node, q: RecordQueue, ghost texts: set<TextNode>, ghost controls: set<FormControl>)
    requires TextLeaves(el) <= texts && OwnControl(el) <= controls
    modifies OwnControl(el), TextLeaves(el), q
    ensures Swept(Snapshot(texts), old(Snapshot(texts)), EditableHit(el))
    ensures Edits(ControlSnapshot(controls), old(ControlSnapshot(controls)), OwnControl(el))
    ensures QueuedFrom(q.records, old(q.records), DirtyIn(EditableHit(el), old(Snapshot(texts))))
  {
    Nothing(Snapshot(texts), ControlSnapshot(controls), q.records);
    if el.Control? {
      EditControl(el.control, texts, controls);
    } else if el.Element? && el.isContentEditable {
      WalkAndProcess(el, q, texts, controls);
    }
  }

  /** A simple selector of the kinds the list `queryline` uses. */
  datatype Selector = TypeSelector(localName: string) | AttributeEquals(attribute: string, value: string)

  /** `input, textarea, [contenteditable=''], [contenteditable='true']`. */
  const Queryline: seq<Selector> :=
    [TypeSelector("input"), TypeSelector("textarea"),
     AttributeEquals("contenteditable", ""), AttributeEquals("contenteditable", "true")]

  /**
   * Whether a node matches one simple selector. A form control carries no
   * `contenteditable` attribute in this model.
   */
  predicate Matches(sel: Selector, n: Node) {
    match sel
    case TypeSelector(name) =>
      n.Control? && ((name == "input" && n.control.kind == Input) || (name == "textarea" && n.control.kind == TextArea))
    case AttributeEquals(attribute, value) =>
      n.Element? && attribute == "contenteditable" && n.contentEditable == Some(value)
  }

  /**
   * The test `querySelectorAll(queryline)` applies to each node: form
   * controls, and elements whose `contenteditable` attribute is empty or
   * `true`. It holds exactly when some selector of the list matches.
   */
  predicate IsEditableMatch(n: Node): (r: bool)
    ensures r <==> exists sel | sel in Queryline :: Matches(sel, n)
  {
    assert n.Control? && n.control.kind == Input ==> Matches(Queryline[0], n);
    assert n.Control? && n.control.kind == TextArea ==> Matches(Queryline[1], n);
    assert n.Element? && n.contentEditable == Some("") ==> Matches(Queryline[2], n);
    assert n.Element? && n.contentEditable == Some("true") ==> Matches(Queryline[3], n);
    n.Control? || (n.Element? && (n.contentEditable == Some("") || n.contentEditable == Some("true")))
  }

  /** The nodes of `ns` that match the selector, in order. */
  function EditableIn(ns: seq<Node>): (r: seq<Node>)
    ensures forall x | x in r :: x in ns && IsEditableMatch(x)
    ensures forall x | x in ns && IsEditableMatch(x) :: x in r
  {
    if ns == [] then []
    else EditableIn(ns[..|ns| - 1]) + if IsEditableMatch(ns[|ns| - 1]) then [ns[|ns| - 1]] else []
  }

  /** What `el.querySelectorAll` returns: the matching nodes strictly below `n`. */
  function EditableDescendants(n: Node): (r: seq<Node>)
    ensures forall x | x in r :: x in Descendants(n) && IsEditableMatch(x)
    ensures forall x | x in Descendants(n) && IsEditableMatch(x) :: x in r
  {
    EditableIn(Descendants(n))
  }

  /** Filtering keeps a union within the unfiltered one. */
  lemma {:induction false} UnionEditableIn<Y>(ns: seq<Node>, f: Node -> set<Y>)
    ensures Union(EditableIn(ns), f) <= Union(ns, f)
  {
    if ns != [] {
      var init, last := ns[..|ns| - 1], ns[|ns| - 1];
      UnionEditableIn(init, f);
      UnionAppend(EditableIn(init), if IsEditableMatch(last) then [last] else [], f);
      assert Union([last], f) == f(last) by { assert [last][..0] == []; }
    }
  }

  /** Filtering loses no form control: every control matches the selector. */
  lemma {:induction false} EditableInControls(ns: seq<Node>)
    ensures Union(EditableIn(ns), OwnControl) == Union(ns, OwnControl)
  {
    if ns != [] {
      var init, last := ns[..|ns| - 1], ns[|ns| - 1];
      EditableInControls(init);
      UnionAppend(EditableIn(init), if IsEditableMatch(last) then [last] else [], OwnControl);
      assert Union([last], OwnControl) == OwnControl(last) by { assert [last][..0] == []; }
    }
  }

  /**
   * `forEach(processEditable)` over a list of nodes: every form control
   * among them is edited, and the text below every contenteditable element
   * among them is swept.
   */
  method ProcessEditables(ns: seq<Node>, q: RecordQueue, ghost texts: set<TextNode>, ghost controls: set<FormControl>)
    requires Union(ns, TextLeaves) <= texts && Union(ns, OwnControl) <= controls
    modifies Union(ns, TextLeaves), Union(ns, OwnControl), q
    ensures Swept(Snapshot(texts), old(Snapshot(texts)), Union(ns, EditableHit))
    ensures Edits(ControlSnapshot(controls), old(ControlSnapshot(controls)), Union(ns, OwnControl))
    ensures QueuedFrom(q.records, old(q.records), DirtyIn(Union(ns, EditableHit), old(Snapshot(texts))))
  {
    ghost var v0, c0, r0 := Snapshot(texts), ControlSnapshot(controls), q.records;
    ghost var hit: set<TextNode>, edited: set<FormControl> := {}, {};
    Nothing(v0, c0, r0);
    var k := 0;
    while k < |ns|
      invariant k <= |ns| && hit == Union(ns[..k], EditableHit) && edited == Union(ns[..k], OwnControl)
      invariant Swept(Snapshot(texts), v0, hit) && QueuedFrom(q.records, r0, DirtyIn(hit, v0))
      invariant Edits(ControlSnapshot(controls), c0, edited)
    {
      UnionMember(ns, TextLeaves, k);
      UnionMember(ns, OwnControl, k);
      UnionStep(ns, k, EditableHit);
      UnionStep(ns, k, OwnControl);
      ghost var v1, c1, r1 := Snapshot(texts), ControlSnapshot(controls), q.records;
      ProcessEditable(ns[k], q, texts, controls);
      SweepThen(v0, v1, Snapshot(texts), r0, r1, q.records, hit, EditableHit(ns[k]));
      EditsCompose(c0, c1, ControlSnapshot(controls), edited, OwnControl(ns[k]));
      hit, edited := hit + EditableHit(ns[k]), edited + OwnControl(ns[k]);
      k := k + 1;
    }
    assert ns[..k] == ns;
  }

  // ---- Added and changed nodes ----

  /** The text nodes `processNodeIfRelevant(n)` may write: a text node itself, or those below an element. */
  ghost function NodeTexts(n: Node): set<TextNode> {
    if n.Text? then {n.text} else TextLeaves(n)
  }

  /** The text nodes it transforms. */
  ghost function NodeHit(n: Node): (r: set<TextNode>)
    ensures r <= NodeTexts(n)
  {
    if n.Text? then {n.text} else AcceptedLeaves(n)
  }

  /** The form controls it edits: the node itself and every control below it. */
  ghost function NodeControls(n: Node): set<FormControl> {
    OwnControl(n) + ControlsUnder(n)
  }

  lemma Absorb<T>(a: set<T>, b: set<T>, c: set<T>)
    requires a <= b && c <= b
    ensures a + b + c == b && b + c == b
  {
  }

  /** What lies below a node of the subtree of `n` lies below `n`. */
  lemma BelowBound(n: Node, d: Node)
    requires d == n || d in Descendants(n)
    ensures TextLeaves(d) <= TextLeaves(n)
    ensures AcceptedLeaves(d) <= AcceptedLeaves(n)
    ensures EditableHit(d) <= AcceptedLeaves(n)
  {
    if d != n {
      DescendantInclusion(n, d);
    }
  }

  /** The editables below `n` write only text below `n`, and transform only text a walk from `n` transforms. */
  lemma EditablesBelow(n: Node)
    ensures Union(EditableDescendants(n), TextLeaves) <= TextLeaves(n)
    ensures Union(EditableDescendants(n), EditableHit) <= AcceptedLeaves(n)
    ensures Union(EditableDescendants(n), OwnControl) == ControlsUnder(n)
  {
    var ds := Descendants(n);
    forall i | 0 <= i < |ds| ensures TextLeaves(ds[i]) <= TextLeaves(n) && EditableHit(ds[i]) <= AcceptedLeaves(n) {
      BelowBound(n, ds[i]);
    }
    UnionBounded(ds, TextLeaves, TextLeaves(n));
    UnionBounded(ds, EditableHit, AcceptedLeaves(n));
    UnionEditableIn(ds, TextLeaves);
    UnionEditableIn(ds, EditableHit);
    EditableInControls(ds);
  }

  /**
   * `processNodeIfRelevant`: a text node is processed; an element is
   * processed as an editable when it is one, then walked, then every
   * editable below it is processed; any other node is ignored. Every
   * accepted text node of the subtree is transformed and every form control
   * in it is edited.
   */
  method ProcessNodeIfRelevant(n: Node, q: RecordQueue, ghost texts: set<TextNode>, ghost controls: set<FormControl>)
    requires NodeTexts(n) <= texts && NodeControls(n) <= controls
    modifies NodeTexts(n), NodeControls(n), q
    ensures Swept(Snapshot(texts), old(Snapshot(texts)), NodeHit(n))
    ensures Edits(ControlSnapshot(controls), old(ControlSnapshot(controls)), NodeControls(n))
    ensures QueuedFrom(q.records, old(q.records), DirtyIn(NodeHit(n), old(Snapshot(texts))))
  {
    ghost var v0, c0, r0 := Snapshot(texts), ControlSnapshot(controls), q.records;
    Nothing(v0, c0, r0);
    if n.Text? {
      ProcessTextNode(n.text, q, texts, controls);
      return;
    }
    if !(n.Element? || n.Control?) {
      return;
    }
    if n.Control? {
      ProcessEditable(n, q, texts, controls);
    } else if n.isContentEditable {
      ProcessEditable(n, q, texts, controls);
    }
    ghost var v1, c1, r1 := Snapshot(texts), ControlSnapshot(controls), q.records;
    WalkAndProcess(n, q, texts, controls);
    SweepThen(v0, v1, Snapshot(texts), r0, r1, q.records, EditableHit(n), AcceptedLeaves(n));
    ghost var v2, r2 := Snapshot(texts), q.records;
    EditablesBelow(n);
    ProcessEditables(EditableDescendants(n), q, texts, controls);
    SweepThen(v0, v2, Snapshot(texts), r0, r2, q.records, EditableHit(n) + AcceptedLeaves(n),
              Union(EditableDescendants(n), EditableHit));
    EditsCompose(c0, c1, ControlSnapshot(controls), OwnControl(n), ControlsUnder(n));
    Absorb(EditableHit(n), AcceptedLeaves(n), Union(EditableDescendants(n), EditableHit));
  }

  /**
   * `eventListener` for an `input` event: its target is processed as an
   * editable when it is a form control or a contenteditable element.
   */
  method EventListener(target: Node, q: RecordQueue, ghost texts: set<TextNode>, ghost controls: set<FormControl>)
    requires TextLeaves(target) <= texts && OwnControl(target) <= controls
    modifies OwnControl(target), TextLeaves(target), q
    ensures Swept(Snapshot(texts), old(Snapshot(texts)), EditableHit(target))
    ensures Edits(ControlSnapshot(controls), old(ControlSnapshot(controls)), OwnControl(target))
    ensures QueuedFrom(q.records, old(q.records), DirtyIn(EditableHit(target), old(Snapshot(texts))))
  {
    Nothing(Snapshot(texts), ControlSnapshot(controls), q.records);
    if target.Control? {
      ProcessEditable(target, q, texts, controls);
    } else if target.Element? && target.isContentEditable {
      ProcessEditable(target, q, texts, controls);
    }
  }

  /**
   * `m.addedNodes.forEach(processNodeIfRelevant)`: every added node is
   * processed.
   */
  method ProcessAddedNodes(added: seq<Node>, q: RecordQueue, ghost texts: set<TextNode>, ghost controls: set<FormControl>)
    requires Union(added, NodeTexts) <= texts && Union(added, NodeControls) <= controls
    modifies Union(added, NodeTexts), Union(added, NodeControls), q
    ensures Swept(Snapshot(texts), old(Snapshot(texts)), Union(added, NodeHit))
    ensures Edits(ControlSnapshot(controls), old(ControlSnapshot(controls)), Union(added, NodeControls))
    ensures QueuedFrom(q.records, old(q.records), DirtyIn(Union(added, NodeHit), old(Snapshot(texts))))
  {
    ghost var v0, c0, r0 := Snapshot(texts), ControlSnapshot(controls), q.records;
    ghost var hit: set<TextNode>, edited: set<FormControl> := {}, {};
    Nothing(v0, c0, r0);
    var k := 0;
    while k < |added|
      invariant k <= |added| && hit == Union(added[..k], NodeHit) && edited == Union(added[..k], NodeControls)
      invariant Swept(Snapshot(texts), v0, hit) && QueuedFrom(q.records, r0, DirtyIn(hit, v0))
      invariant Edits(ControlSnapshot(controls), c0, edited)
    {
      UnionMember(added, NodeTexts, k);
      UnionMember(added, NodeControls, k);
      UnionStep(added, k, NodeHit);
      UnionStep(added, k, NodeControls);
      ghost var v1, c1, r1 := Snapshot(texts), ControlSnapshot(controls), q.records;
      ProcessNodeIfRelevant(added[k], q, texts, controls);
      SweepThen(v0, v1, Snapshot(texts), r0, r1, q.records, hit, NodeHit(added[k]));
      EditsCompose(c0, c1, ControlSnapshot(controls), edited, NodeControls(added[k]));
      hit, edited := hit + NodeHit(added[k]), edited + NodeControls(added[k]);
      k := k + 1;
    }
    assert added[..k] == added;
  }

  // ---- The mutation observer ----

  /** The text nodes a record's processing may write. */
  ghost function RecordTexts(m: Mutation): set<TextNode> {
    match m
    case CharacterData(t) => {t}
    case ChildList(added) => Union(added, NodeTexts)
    case Attributes(el, name) => if name == "contenteditable" then NodeTexts(el) else {}
  }

  /** The text nodes a record's processing transforms. */
  ghost function RecordHit(m: Mutation): (r: set<TextNode>)
    ensures r <= RecordTexts(m)
  {
    match m
    case CharacterData(t) => {t}
    case ChildList(added) =>
      UnionMono(added, NodeHit, NodeTexts);
      Union(added, NodeHit)
    case Attributes(el, name) => if name == "contenteditable" then NodeHit(el) else {}
  }

  /** The form controls a record's processing edits. */
  ghost function RecordControls(m: Mutation): set<FormControl> {
    match m
    case CharacterData(_) => {}
    case ChildList(added) => Union(added, NodeControls)
    case Attributes(el, name) => if name == "contenteditable" then NodeControls(el) else {}
  }

  /**
   * The body of `mutationObserver`'s loop for one record: a
   * `characterData` record has its target processed, a `childList` record
   * each added node, and an `attributes` record its target only when the
   * attribute is `contenteditable`.
   */
  method DispatchMutation(m: Mutation, q: RecordQueue, ghost texts: set<TextNode>, ghost controls: set<FormControl>)
    requires RecordTexts(m) <= texts && RecordControls(m) <= controls
    modifies RecordTexts(m), RecordControls(m), q
    ensures Swept(Snapshot(texts), old(Snapshot(texts)), RecordHit(m))
    ensures Edits(ControlSnapshot(controls), old(ControlSnapshot(controls)), RecordControls(m))
    ensures QueuedFrom(q.records, old(q.records), DirtyIn(RecordHit(m), old(Snapshot(texts))))
  {
    Nothing(Snapshot(texts), ControlSnapshot(controls), q.records);
    match m
    case CharacterData(t) =>
      ProcessTextNode(t, q, texts, controls);
    case ChildList(added) =>
      ProcessAddedNodes(added, q, texts, controls);
    case Attributes(el, name) =>
      if name == "contenteditable" {
        ProcessNodeIfRelevant(el, q, texts, controls);
      }
  }

  /**
   * `mutationObserver`: the records of a batch are processed in order; the
   * effect is that of processing each of them once.
   */
  method MutationObserver(ms: seq<Mutation>, q: RecordQueue, ghost texts: set<TextNode>, ghost controls: set<FormControl>)
    requires Union(ms, RecordTexts) <= texts && Union(ms, RecordControls) <= controls
    modifies Union(ms, RecordTexts), Union(ms, RecordControls), q
    ensures Swept(Snapshot(texts), old(Snapshot(texts)), Union(ms, RecordHit))
    ensures Edits(ControlSnapshot(controls), old(ControlSnapshot(controls)), Union(ms, RecordControls))
    ensures QueuedFrom(q.records, old(q.records), DirtyIn(Union(ms, RecordHit), old(Snapshot(texts))))
  {
    ghost var v0, c0, r0 := Snapshot(texts), ControlSnapshot(controls), q.records;
    ghost var hit: set<TextNode>, edited: set<FormControl> := {}, {};
    Nothing(v0, c0, r0);
    for k := 0 to |ms|
      invariant hit == Union(ms[..k], RecordHit) && edited == Union(ms[..k], RecordControls)
      invariant Swept(Snapshot(texts), v0, hit) && QueuedFrom(q.records, r0, DirtyIn(hit, v0))
      invariant Edits(ControlSnapshot(controls), c0, edited)
    {
      UnionMember(ms, RecordTexts, k);
      UnionMember(ms, RecordControls, k);
      UnionStep(ms, k, RecordHit);
      UnionStep(ms, k, RecordControls);
      ghost var v1, c1, r1 := Snapshot(texts), ControlSnapshot(controls), q.records;
      DispatchMutation(ms[k], q, texts, controls);
      SweepThen(v0, v1, Snapshot(texts), r0, r1, q.records, hit, RecordHit(ms[k]));
      EditsCompose(c0, c1, ControlSnapshot(controls), edited, RecordControls(ms[k]));
      hit, edited := hit + RecordHit(ms[k]), edited + RecordControls(ms[k]);
    }
    assert ms[..|ms|] == ms;
  }

  /**
   * The records of the script's own writes are `characterData` records, so
   * processing them may write, and transforms, exactly the nodes they
   * target, and touches no form control.
   */
  lemma {:induction false} OwnRecords(rs: seq<Mutation>)
    requires forall i | 0 <= i < |rs| :: rs[i].CharacterData?
    ensures Union(rs, RecordTexts) == Written(rs) && Union(rs, RecordHit) == Written(rs)
    ensures Union(rs, RecordControls) == {}
  {
    if rs != [] {
      var init, last := rs[..|rs| - 1], rs[|rs| - 1];
      OwnRecords(init);
      assert rs == init + [last];
      WrittenAppend(init, [last]);
      WrittenOne(last.node);
    }
  }

  /**
   * Delivering records of the script's own writes, each a `characterData`
   * record on a node whose data is already clean, changes nothing and
   * queues nothing.
   */
  method DeliverOwnRecords(own: seq<Mutation>, q: RecordQueue, ghost texts: set<TextNode>, ghost controls: set<FormControl>)
    requires forall i | 0 <= i < |own| :: own[i].CharacterData? && own[i].node in texts && Clean(own[i].node.nodeValue)
    modifies Written(own), q
    ensures q.records == old(q.records)
    ensures Snapshot(texts) == old(Snapshot(texts))
    ensures ControlSnapshot(controls) == old(ControlSnapshot(controls))
  {
    ghost var v0, c0, r0 := Snapshot(texts), ControlSnapshot(controls), q.records;
    OwnRecords(own);
    forall t | t in Written(own) ensures t in texts && Clean(v0[t]) {
      var i :| 0 <= i < |own| && own[i].CharacterData? && own[i].node == t;
    }
    MutationObserver(own, q, texts, controls);
    forall t | t in v0 ensures Snapshot(texts)[t] == v0[t] {
      if t in Written(own) {
        ReplaceEszettFixesClean(v0[t]);
      }
    }
    assert DirtyIn(Written(own), v0) == {};
    QueuedNothing(q.records, r0);
  }

  /**
   * The browser delivers to the observer, after a batch `ms`, the records
   * `own` of the observer's own writes. Each of them is a `characterData`
   * record on a node the batch left clean, so that second delivery changes
   * nothing and queues nothing: the script does not feed itself.
   */
  method ObserveOwnRecords(ms: seq<Mutation>, q: RecordQueue, ghost texts: set<TextNode>, ghost controls: set<FormControl>)
    returns (own: seq<Mutation>)
    requires Union(ms, RecordTexts) <= texts && Union(ms, RecordControls) <= controls
    modifies Union(ms, RecordTexts), Union(ms, RecordControls), q
    ensures Swept(Snapshot(texts), old(Snapshot(texts)), Union(ms, RecordHit))
    ensures Edits(ControlSnapshot(controls), old(ControlSnapshot(controls)), Union(ms, RecordControls))
    ensures q.records == old(q.records) + own
    ensures QueuedFrom(q.records, old(q.records), DirtyIn(Union(ms, RecordHit), old(Snapshot(texts))))
    ensures forall i | 0 <= i < |own| :: own[i].CharacterData? && own[i].node in texts && Clean(own[i].node.nodeValue)
  {
    ghost var v0 := Snapshot(texts);
    ghost var hit := Union(ms, RecordHit);
    var before := q.records;
    MutationObserver(ms, q, texts, controls);
    var after := q.records;
    own := after[|before|..];
    assert after == before + own;
    forall i | 0 <= i < |own| ensures own[i].CharacterData? && own[i].node in texts && Clean(own[i].node.nodeValue) {
      var t := own[i].node;
      assert t in Written(own);
      ReplaceEszettIsClean(v0[t]);
    }
    OwnRecords(own);
    DeliverOwnRecords(own, q, texts, controls);
  }

  // ---- Start-up ----

  /** `processDocumentTitle`: the title gets the rule, written back only on change. */
  method ProcessDocumentTitle(doc: Document, ghost texts: set<TextNode>, ghost controls: set<FormControl>)
    modifies doc
    ensures doc.title == ReplaceEszett(old(doc.title))
    ensures Clean(doc.title)
    ensures Clean(old(doc.title)) ==> doc.title == old(doc.title)
    ensures Snapshot(texts) == old(Snapshot(texts)) && ControlSnapshot(controls) == old(ControlSnapshot(controls))
  {
    var oldTitle := doc.title;
    var newTitle := ReplaceEszett(oldTitle);
    ReplaceEszettIsClean(oldTitle);
    ReplaceEszettFixesClean(oldTitle);
    if newTitle != oldTitle {
      doc.title := newTitle;
    }
  }

  /** The nodes of an optional subtree, root first. */
  function Subtree(p: Option<Node>): (r: seq<Node>) {
    if p.Some? then [p.value] + Descendants(p.value) else []
  }

  /** The nodes `document.querySelectorAll` searches: the head and the body subtrees. */
  function DocNodes(doc: Document): (r: seq<Node>)
    ensures doc.head.Some? ==> doc.head.value in r && forall x | x in Descendants(doc.head.value) :: x in r
    ensures doc.body.Some? ==> doc.body.value in r && forall x | x in Descendants(doc.body.value) :: x in r
  {
    Subtree(doc.head) + Subtree(doc.body)
  }
  /** The search reaches nothing outside the head and the body. */
  lemma DocNodesWithin(doc: Document, x: Node)
    requires x in DocNodes(doc)
    ensures || (doc.head.Some? && (x == doc.head.value || x in Descendants(doc.head.value)))
            || (doc.body.Some? && (x == doc.body.value || x in Descendants(doc.body.value)))
  {
  }


  ghost function PartTexts(p: Option<Node>): set<TextNode> {
    if p.Some? then TextLeaves(p.value) else {}
  }

  ghost function PartHit(p: Option<Node>): set<TextNode> {
    if p.Some? then AcceptedLeaves(p.value) else {}
  }

  /** The text nodes start-up may write. */
  ghost function DocTexts(doc: Document): set<TextNode> {
    PartTexts(doc.head) + PartTexts(doc.body)
  }

  /** The text nodes start-up transforms: those the walks of the head and the body accept. */
  ghost function DocHit(doc: Document): set<TextNode> {
    PartHit(doc.head) + PartHit(doc.body)
  }

  /** The form controls start-up edits: every control in the head or the body. */
  ghost function DocControls(doc: Document): set<FormControl> {
    Union(DocNodes(doc), OwnControl)
  }

  /** The editables of the document write only its text and transform only what the walks transform. */
  lemma DocEditables(doc: Document)
    ensures Union(EditableIn(DocNodes(doc)), TextLeaves) <= DocTexts(doc)
    ensures Union(EditableIn(DocNodes(doc)), EditableHit) <= DocHit(doc)
    ensures Union(EditableIn(DocNodes(doc)), OwnControl) == DocControls(doc)
  {
    var ns, h, b := DocNodes(doc), Subtree(doc.head), Subtree(doc.body);
    forall i | 0 <= i < |ns| ensures TextLeaves(ns[i]) <= DocTexts(doc) && EditableHit(ns[i]) <= DocHit(doc) {
      if i < |h| {
        BelowBound(doc.head.value, ns[i]);
      } else {
        assert ns[i] == b[i - |h|];
        BelowBound(doc.body.value, ns[i]);
      }
    }
    UnionBounded(ns, TextLeaves, DocTexts(doc));
    UnionBounded(ns, EditableHit, DocHit(doc));
    UnionEditableIn(ns, TextLeaves);
    UnionEditableIn(ns, EditableHit);
    EditableInControls(ns);
  }

  /**
   * `main`'s initial pass: walk the head and the body when present, process
   * the title, then process every editable of the document.
   */
  method Startup(doc: Document, q: RecordQueue, ghost texts: set<TextNode>, ghost controls: set<FormControl>)
    requires DocTexts(doc) <= texts && DocControls(doc) <= controls
    modifies DocTexts(doc), DocControls(doc), doc, q
    ensures doc.title == ReplaceEszett(old(doc.title))
    ensures Swept(Snapshot(texts), old(Snapshot(texts)), DocHit(doc))
    ensures Edits(ControlSnapshot(controls), old(ControlSnapshot(controls)), DocControls(doc))
    ensures QueuedFrom(q.records, old(q.records), DirtyIn(DocHit(doc), old(Snapshot(texts))))
  {
    ghost var v0, c0, r0 := Snapshot(texts), ControlSnapshot(controls), q.records;
    Nothing(v0, c0, r0);
    if doc.head.Some? {
      WalkAndProcess(doc.head.value, q, texts, controls);
    }
    ghost var v1, r1 := Snapshot(texts), q.records;
    if doc.body.Some? {
      WalkAndProcess(doc.body.value, q, texts, controls);
    } else {
      Nothing(v1, c0, r1);
    }
    SweepThen(v0, v1, Snapshot(texts), r0, r1, q.records, PartHit(doc.head), PartHit(doc.body));
    ProcessDocumentTitle(doc, texts, controls);
    ghost var v2, r2 := Snapshot(texts), q.records;
    DocEditables(doc);
    ProcessEditables(EditableIn(DocNodes(doc)), q, texts, controls);
    SweepThen(v0, v2, Snapshot(texts), r0, r2, q.records, DocHit(doc), Union(EditableIn(DocNodes(doc)), EditableHit));
    Absorb({}, DocHit(doc), Union(EditableIn(DocNodes(doc)), EditableHit));
  }
}
