# eszett — a Dafny model

This project models eszett, a browser extension. Its content script replaces
every capital sharp s `ẞ` (U+1E9E) with `SS` and every sharp s `ß` (U+00DF)
with `ss` on a web page. The rewrite covers:

- the text nodes of the page, skipping those whose parent is a `SCRIPT`,
  `STYLE` or `NOSCRIPT` element;
- the values of `input` and `textarea` fields, keeping the cursor or
  selection shifted by the change in length;
- `contenteditable` regions and the document title.

It runs once at start-up. After that, a mutation observer sees `characterData`,
`childList` and `contenteditable` attribute changes, and a listener sees
`input` events. The model also covers the demo page's `beautify` function,
which applies the same rule with the two replacements in the other order.

The model has these modules:

- `Strings`: the per-character replace-all and a character count.
- `Eszett`: the rule itself. `Expand`, a character-wise reference definition,
  is proved equal to it. The lemmas show that the output is clean, the rule is
  idempotent, its length law holds, and it leaves a string unchanged exactly
  when the string is clean.
- `DemoScript`: the demo page's `replaceEszett` and `beautify`. They are proved
  to agree with the content script.
- `Dom`: the page. The shape of the tree is an immutable datatype `Node`,
  because the script does not change it, apart from the `<title>` element's
  text, which the browser replaces when the title is assigned. What the script writes lives in
  objects:
  - `TextNode.nodeValue`;
  - `FormControl` value and selection;
  - `Document.title`;
  - the browser's queue of mutation records, `RecordQueue.records`. Every
    assignment to a text node's data appends a `characterData` record to it.
- `Selection`: the new state of a form control, `EditedState`, with its laws.
- `Effects`: three predicates that relate a snapshot of the page before and
  after an operation:
  - `Swept`: the rule was applied to exactly a given set of text nodes;
  - `Edits`: exactly a given set of controls was edited;
  - `QueuedFrom`: records were queued for exactly the nodes whose text
    changed.

  Lemmas compose these predicates.
- `ContentScript`: the functions of `content.js` other than `replaceEszett`,
  which is in `Eszett`. `acceptTextNode` is a function. Every other one is a
  method, and `main`'s initial pass is `Startup`. Each method states its full
  effect through the three predicates. It takes, as ghost parameters,
  the sets of text nodes and controls that the caller observes.
- `PageScenario`: an end-to-end run on a small page.

The tree walker and `querySelectorAll` become recursion over the tree.
`Occurrences` lists the text nodes in document order, each with its parent's
tag. `Descendants` lists the nodes below an element in document order.

`replaceEszett` (content.js line 6) touches only the two sharp s characters.
Other letters, such as `ö`, are kept, so a title "Größe" becomes "Grösse" (see
`Eszett.ReplaceEszettGroesse` and `PageScenario.Scenario`).

Only the tree walk (content.js lines 18-40) rejects text inside `SCRIPT`,
`STYLE` and `NOSCRIPT` elements. Two paths reach a text node without that
filter:

- a `characterData` record, whose target `processTextNode` rewrites directly
  (lines 104-105);
- a text node that is itself an added node of a `childList` record (lines
  69-71 and 107).

Both paths rewrite the text wherever it is.
`ContentScript.RecordHit` is `{t}` for a `characterData` record on `t`,
whatever its parent.

## Model

| member | source | states |
|---|---|---|
| Strings.ReplaceAll | src/eszett/content.js:6 | `replaceAll` with a one-character pattern: if the pattern does not occur in the replacement, it does not occur in the result |
| Strings.Count | src/eszett/content.js:6 | the number of occurrences of a character: at most the length, and zero exactly when the character is absent |
| Strings.CountAppend | src/eszett/content.js:6 | the count of a concatenation is the sum of the counts |
| Strings.ReplaceAllAppend | src/eszett/content.js:6 | replace-all distributes over concatenation |
| Strings.ReplaceAllAbsent | src/eszett/content.js:6 | replace-all leaves a string without the pattern unchanged |
| Strings.ReplaceAllLength | src/eszett/content.js:6 | with a two-character replacement, the result is longer by the number of occurrences |
| Eszett.ExpandChar | src/eszett/content.js:3-6 | `ẞ` becomes `SS`, `ß` becomes `ss`, every other character stays |
| Eszett.ExpandAppend | src/eszett/content.js:3-6 | the character-wise reference rule distributes over concatenation |
| Eszett.ReplaceEszett | src/eszett/content.js:4-7 | `replaceEszett`, including its return of the empty string as is, equals the character-wise reference rule |
| Eszett.CapitalFirstIsExpand | src/eszett/content.js:6 | the two chained `replaceAll` calls equal the character-wise reference rule |
| Eszett.ExpandIsClean | src/eszett/content.js:3-6 | the reference rule leaves no sharp s of either case |
| Eszett.ExpandOfClean | src/eszett/content.js:3-6 | the reference rule is the identity on clean text |
| Eszett.ExpandLength | src/eszett/content.js:3-6 | the reference rule lengthens text by one per sharp s of either case |
| Eszett.ReplaceEszettIsClean | src/eszett/content.js:4-7 | the output holds neither `ß` nor `ẞ` |
| Eszett.ReplaceEszettCharwise | src/eszett/content.js:4-7 | the rule distributes over concatenation, and on one character it is `ExpandChar` |
| Eszett.ReplaceEszettIdempotent | src/eszett/content.js:4-7 | applying the rule twice equals applying it once |
| Eszett.ReplaceEszettLength | src/eszett/content.js:4-7 | the output length is the input length plus the counts of `ß` and `ẞ` |
| Eszett.ReplaceEszettFixesClean | src/eszett/content.js:4-7 | the output equals the input if and only if the input holds no sharp s |
| Eszett.ReplaceAround | src/eszett/content.js:4-7 | one character between clean text is expanded and the text around it is kept |
| Eszett.ReplaceEszettStrasse | src/eszett/content.js:4-7 | "Straße" becomes "Strasse" |
| Eszett.ReplaceEszettGrosse | src/eszett/content.js:4-7 | "GROSSE ẞASS" becomes "GROSSE SSASS" |
| Eszett.ReplaceEszettGroesse | src/eszett/content.js:4-7 | "Größe" becomes "Grösse": the `ö` is not touched |
| DemoScript.ReplaceEszett | docs/script.js:6-10 | the demo page's `replaceEszett` equals the character-wise reference rule |
| DemoScript.Beautify | docs/script.js:2-5 | `beautify` returns what the content script's `replaceEszett` returns |
| DemoScript.SmallFirstIsExpand | docs/script.js:7-8 | replacing `ß` first, then `ẞ`, equals the character-wise reference rule |
| DemoScript.AgreesWithContentScript | docs/script.js:6-10 | the demo page's `replaceEszett` and the content script's agree on every string |
| DemoScript.ReplaceEszettCharwise | docs/script.js:6-10 | the demo page's rule distributes over concatenation and maps one character by `ExpandChar` |
| DemoScript.ReplaceEszettCleanAndIdempotent | docs/script.js:6-10 | the demo page's output is clean, and applying it twice equals applying it once |
| Dom.FormControl.SetSelectionRange | src/eszett/content.js:55 | `setSelectionRange` sets both ends and keeps the value |
| Dom.SetNodeValue | src/eszett/content.js:14 | assigning a text node's data sets it and queues one `characterData` record for that node |
| Dom.WrittenAppend | src/eszett/content.js:14 | the nodes written by a concatenation of records are those of each part |
| Dom.WrittenOne | src/eszett/content.js:14 | no records write nothing; one `characterData` record writes its node |
| Dom.Occurrences | src/eszett/content.js:30-37 | the text nodes a `SHOW_TEXT` walker visits, in document order, each with its parent's tag. A node that is not an element has none. Every text child of the root is listed with the root's tag. Every listed text node is a descendant of the root |
| Dom.OccurrenceParent | src/eszett/content.js:20-22 | the tag paired with every listed text node is its parent's: the root or an element below it has the text node as a child and carries that tag |
| Dom.Descendants | src/eszett/content.js:88-89 | the nodes below an element in document order, as `querySelectorAll` searches them: a node that is not an element has none, and every child of an element is one |
| Selection.EditedState | src/eszett/content.js:45-58 | the new value is the rule applied to the old. Clean text leaves the state unchanged. Changed text with numeric ends shifts both ends by the number of sharp s characters, which is the whole-string length delta. With a non-numeric end only the value is written |
| Selection.EditedIdempotent | src/eszett/content.js:45-58 | processing a control twice equals processing it once |
| Selection.EditedKeepsRange | src/eszett/content.js:49-55 | a selection within the old value stays a selection within the new value |
| Selection.CursorAnchored | src/eszett/content.js:53-55 | when no sharp s follows the cursor, the shifted cursor sits just after the rewritten text before it |
| Selection.CursorBeforeTargetMoves | src/eszett/content.js:53-55 | the shift is by the whole-string delta: a cursor before "ß" in "ßa" moves from 0 to 1 |
| Selection.EditedStrasse | src/eszett/content.js:45-58 | a field "Straße" with the cursor at 6 becomes "Strasse" with the cursor at 7 |
| Effects.SweptCompose | src/eszett/content.js:13-15 | sweeping `a` and then `b` equals sweeping `a + b` once, because the rule is idempotent |
| Effects.QueuedCompose | src/eszett/content.js:37-39 | queued records compose, and the written sets add up |
| Effects.QueuedNothing | src/eszett/content.js:102-115 | a queue that records no writes got no new records |
| Effects.QueuedSame | src/eszett/content.js:13 | a queue that got no new records records no writes |
| Effects.QueuedOne | src/eszett/content.js:13-15 | one node processed queues a record exactly when its text was not clean |
| Effects.EditsCompose | src/eszett/content.js:45-58 | editing `a` and then `b` equals editing `a + b` once |
| Effects.Nothing | src/eszett/content.js:62-65 | doing nothing sweeps nothing, edits nothing and queues nothing |
| Effects.SweepThen | src/eszett/content.js:84-89 | two sweeps in a row, each with its own records, form one sweep of the union with the union's records |
| Effects.OwnWritesSettle | src/eszett/content.js:102-115 | sweeping the nodes that the first sweep wrote changes nothing more, and leaves nothing more to write |
| ContentScript.ProcessTextNode | src/eszett/content.js:10-16 | the node's new text is the rule applied to the old. A record is queued only when the text changed. No other text node and no form control changes |
| ContentScript.AcceptTextNode | src/eszett/content.js:18-27 | rejected if and only if there is no parent element or the parent is `SCRIPT`, `STYLE` or `NOSCRIPT` |
| ContentScript.AcceptedLeaves | src/eszett/content.js:29-40 | the text nodes the walk accepts are text nodes below the root |
| ContentScript.AcceptedPrefixStep | src/eszett/content.js:36-39 | one step of the walk adds its node exactly when the filter accepts it |
| ContentScript.WalkAndProcess | src/eszett/content.js:29-40 | exactly the accepted text nodes below the root have the rule applied. Records are queued for exactly those that changed. No control changes |
| ContentScript.RejectedNotTransformed | src/eszett/content.js:18-40 | a text node the filter rejects is below the root but not among the transformed nodes, so the walk leaves it unchanged |
| ContentScript.EditControl | src/eszett/content.js:45-59 | the control's new state is `EditedState` of its old state. No other control and no text node changes |
| ContentScript.EditableHit | src/eszett/content.js:61-65 | a contenteditable element's transformed nodes are its accepted text nodes; other nodes transform none |
| ContentScript.ProcessEditable | src/eszett/content.js:43-66 | a form control is edited. A contenteditable element has exactly its accepted text nodes transformed. Anything else is left alone |
| ContentScript.IsEditableMatch | src/eszett/content.js:1 | a node passes the test exactly when one of the four selectors of `queryline` matches it: an `input`, a `textarea`, or an element whose `contenteditable` is empty or `true` |
| ContentScript.EditableDescendants | src/eszett/content.js:88-89 | `el.querySelectorAll(queryline)` returns exactly the descendants of the element that match the selector list |
| ContentScript.EditableIn | src/eszett/content.js:1 | the selector keeps exactly the nodes that are form controls or whose `contenteditable` is empty or `true` |
| ContentScript.UnionEditableIn | src/eszett/content.js:1 | what the selected nodes reach is within what all the nodes reach |
| ContentScript.EditableInControls | src/eszett/content.js:1 | selecting keeps every form control |
| ContentScript.ProcessEditables | src/eszett/content.js:89 | `forEach(processEditable)` sweeps the union of each node's hit and edits every listed control |
| ContentScript.NodeHit | src/eszett/content.js:68-91 | the text nodes `processNodeIfRelevant` transforms lie within those it may reach |
| ContentScript.EditablesBelow | src/eszett/content.js:87-90 | the editables below a node reach only its own text nodes. They transform only accepted ones. They hold exactly its controls |
| ContentScript.ProcessNodeIfRelevant | src/eszett/content.js:68-91 | a text node is processed. An element has its accepted text nodes transformed, and its own and inner controls edited. Any other node is left alone |
| ContentScript.EventListener | src/eszett/content.js:93-100 | an `input` event's target is processed as an editable when it is a control or a contenteditable element; otherwise nothing changes |
| ContentScript.ProcessAddedNodes | src/eszett/content.js:107 | every added node is processed as `processNodeIfRelevant` does |
| ContentScript.RecordHit | src/eszett/content.js:102-115 | the text nodes a record's processing transforms lie within those it may reach |
| ContentScript.DispatchMutation | src/eszett/content.js:104-113 | a `characterData` record processes its target. A `childList` record processes each added node. An `attributes` record processes its target only for `contenteditable` |
| ContentScript.MutationObserver | src/eszett/content.js:102-115 | a batch of records sweeps, edits and queues the union of what each record does |
| ContentScript.OwnRecords | src/eszett/content.js:102-106 | records that are all `characterData` reach and transform exactly the nodes they name, and no control |
| ContentScript.DeliverOwnRecords | src/eszett/content.js:102-106 | delivering `characterData` records on nodes whose data is clean leaves the text, the controls and the record queue exactly as they were |
| ContentScript.ObserveOwnRecords | src/eszett/content.js:102-115 | one batch, then delivery of the records its writes queued: the combined effect is the batch's own. The records left are all `characterData` records on clean nodes, so their delivery appends no record |
| ContentScript.ProcessDocumentTitle | src/eszett/content.js:117-123 | the new title is the rule applied to the old, and it is clean. A clean title is unchanged. No text node or control changes |
| ContentScript.DocNodes | src/eszett/content.js:134 | `document.querySelectorAll` searches the head and every node below it, and the body and every node below it |
| ContentScript.DocNodesWithin | src/eszett/content.js:134 | the search reaches nothing outside the head and the body subtrees |
| ContentScript.DocEditables | src/eszett/content.js:134 | the document's editables reach only text of the head and the body, transform only accepted text, and hold every control |
| ContentScript.Startup | src/eszett/content.js:125-134 | the initial pass rewrites the title. It transforms exactly the accepted text nodes of the head and the body, and edits every control of the document. Records are queued for exactly the nodes that changed |
| PageScenario.BodyShape | src/eszett/content.js:125-134 | the sample body's descendants are the field and the region, and it holds no text node |
| PageScenario.PageParts | src/eszett/content.js:125-134 | the sample page holds no text node and one form control |
| PageScenario.OneInsertion | src/eszett/content.js:106-107 | a `childList` record adding one text node concerns that node alone |
| PageScenario.Scenario | src/eszett/content.js:102-134 | after start-up, the title "Größe" is "Grösse" and the field "Straße" is "Strasse" with the cursor moved from 6 to 7. A text node "ẞ" inserted later becomes "SS" |

## Left out

- The non-string guard of `replaceEszett` (content.js line 5) is not modelled. Every value is a string, and every caller passes one.
- Installing the observer and the `input` listener is not modelled: the `MutationObserver` registration, its options, and `addEventListener`. Event timing, batching and the browser's scheduling are left out too. The model's observer and listener operations take the records or the event target as parameters.
- `setSelectionRange` clamping of out-of-range positions is left out. The model stores the positions it is given. `Selection.EditedKeepsRange` shows the positions stay in range for any selection that starts in range.
- The browser resets the selection when a control's value is assigned. The model does not represent that reset; the positions are set right after it, or are left as they were when an end is not numeric.
- `TreeWalker` and `querySelectorAll` are replaced by recursion over the tree shape, in document order.
- `characterData` records on Comment and ProcessingInstruction nodes are not modelled. The code observes `characterData` over the whole subtree (lines 139-145), and `processTextNode` rewrites such a node's data too (lines 104-105). In the model a `characterData` record targets a text node only, and other non-element nodes carry no data.
- Strings are sequences of Unicode code points, and values and selection offsets are modelled in code points. JavaScript counts UTF-16 code units. The two agree for text inside the Basic Multilingual Plane. Outside it the source's offsets are larger than the model's. The length change of line 54 is the same in both, because each sharp s is one unit in either count. `Selection.EditedKeepsRange` and `Selection.CursorAnchored` read offsets as code-point indices.
- ContentScript.EditControl: a file input is not modelled. Its value reads `C:\fakepath\<name>`, and assigning a non-empty string to it throws. With a file "Straße.pdf", the write on line 51 would throw. `processEditable` would then change nothing, and inside `mutationObserver`'s loop the rest of the batch would be dropped. The model has only text-like controls, whose value can be written.
- A form control's own `contenteditable` attribute is not modelled. A control matches the selector list as an `input` or a `textarea`.
- `isContentEditable` is a field the browser computes by inheritance; the model takes it as given. Whether the node is an HTML element and not SVG is folded into that flag.
- The `if (el.querySelectorAll)` test on line 88 is always true for an element, so it is not a branch in the model.
- A `textarea`'s child text node is not modelled; a form control has no children in the tree.
- `document.title` is a field of the document. The model does not reflect an assignment to it back into the `<title>` element's text node. It does not model the `childList` record that assignment queues, or the getter's whitespace collapsing. The `<title>` text node is walked in the head like any other text.
- A document has only its head and body subtrees. Other children of the root element are not modelled. The code's start-up pass searches them only through `querySelectorAll`, and the observer reaches them only through records, which the model takes as parameters.
- During the initial pass the observer is not yet installed, so the records queued then are never delivered. The model still queues them. `RecordQueue` abstracts the browser's queue.
- ContentScript.ObserveOwnRecords: `QueuedFrom` tracks which nodes had records queued, not how many records each node got or in what order.
- `DispatchMutation` is the body of `mutationObserver`'s loop, split out so that each record kind is stated on its own.
- `updateLabel` in docs/script.js reads and writes page elements by id. It is user-interface glue and is not modelled.
- Selection.EditedState: the shift is by the whole-string length change, as the code does. A cursor before a rewritten sharp s is moved as well (see `Selection.CursorBeforeTargetMoves`). The model states this behaviour and does not treat it as a defect.
