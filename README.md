# editable-tree, modelled in Dafny

This project models the core of *editable-tree*, a React widget that shows a
flat list of parent-referencing records as a tree whose nodes can be renamed,
given children or deleted in place. Two parts are modelled:

- **The tree builder** `translateDataToTree` (`src/library/utils.ts`). It splits
  the records into roots (`parentId === 0`) and the rest. For each root it scans
  the rest in order. Every record naming the current node as parent becomes a
  child. That child is built from a copy of the rest without itself, then
  appended to the parent's children. The functions `Utils.Attach`, `Utils.Kids` and `Utils.Forest`
  state this recursion as values. The methods `Utils.Translator`, `Utils.Partition`
  and `Utils.TranslateDataToTree` run the source's loops and are proved equal
  to those functions. The lemmas in `TreeProps` and `ExactlyOnce` prove what the
  builder promises. With unique ids, every record whose `parentId` links
  reach a root appears exactly once, and no other record appears.
- **The edit/create/expand state** of the `EditableTree` component
  (`src/EditableTree.tsx`) and of the demo page `App` (`src/App.tsx`). Each is a
  class whose fields are the React state variables (`lineList`, `treeList`, the
  expanded and selected keys, the auto-expand flag, the input flag). There is
  one method per handler, and each handler runs as one atomic step. The two flag
  rewrites and the key dedup `[...new Set(keys)]` are shared functions
  (`LineList.EditFocus`, `LineList.CreateFocus`, `Keys.Distinct`). Each class
  invariant `Valid()` holds these conjuncts. The lines carry exactly the current
  records. Every line is well formed: key = id, title = name, no children
  (`LineList.WellFormed`). At most one key, with one flag, is in focus
  (`LineList.SingleFocus`). The rendered tree is always `Forest(lineList)`.
  The demo page's invariant also holds that the expanded keys never repeat,
  which its `ToggleLeafCreate` relies on.

Records and lines are the datatypes `Types.Record` and `Types.Leaf`
(`src/type/type.ts`). Ids and keys are `int`, and a line's `key` is always its
`id`. The optional callbacks `onEdit`, `onCreate` and `onDelete` are
modelled as the returned value `LineList.Commit`. The demo page's toasts are the
returned value `Demo.Toast`. A missing callback is a `false` flag on the component.

Behaviour of the code worth noting:

- Selected keys are stored as given. Only the expanded keys are deduplicated.
- A new `list` rebuilds the lines, which clears every flag. The expanded keys,
  the selected keys and the auto-expand flag are not reset.
- `EditableTree` forwards an empty value to `onEdit`/`onCreate`. Only the demo
  `App` checks for an empty value, and it warns.
- The single-focus guarantee covers a whole tree only when keys are unique.
  With a repeated key, a toggle flags every line that has that key.

## Model

| member | source | states |
|---|---|---|
| `Utils.IsNotEmptyArray` | src/library/utils.ts:3-4 | true exactly when the argument is present and has at least one element |
| `Utils.FilterMembers` | src/library/utils.ts:9-17 | the roots are exactly the records with parentId 0, and the rest exactly those with another parentId. The records naming a given parent are exactly the matches of the scan |
| `Utils.Roots` | src/library/utils.ts:9-12 | the first reduce: the records with parentId 0, in input order, never more than the input. Membership is stated by `Utils.FilterMembers`, order by `TreeProps.PartitionOrder` |
| `Utils.NonRoots` | src/library/utils.ts:14-17 | the second reduce: the records with a non-zero parentId, in input order, never more than the input. Membership is stated by `Utils.FilterMembers`, order by `TreeProps.PartitionOrder` |
| `Utils.Attach` | src/library/utils.ts:19-33 | `translator([parent], rest)`: the result keeps every field of the parent except its children. It has at least the parent's children and at most one more per candidate. Order and links are stated by `TreeProps.AttachChildren` and `TreeProps.AttachLinked`, exactly-once by `ExactlyOnce.AttachComplete`, `ExactlyOnce.AttachSound` and `ExactlyOnce.AttachNoDup` |
| `Utils.Kids` | src/library/utils.ts:21-31 | the scan of the first n candidates attaches at most n subtrees. One step is stated by `ExactlyOnce.KidsStep`, order by `TreeProps.KidsOrder`, links by `TreeProps.KidsLinked`, and no duplicates by `ExactlyOnce.KidsNoDup` |
| `Utils.Remove` | src/library/utils.ts:23-24 | the copy handed to a recursive call is one shorter and holds only the candidates' records. This is the termination measure |
| `Utils.Forest` | src/library/utils.ts:6-36 | the top level has one node per root and keeps the roots' order and fields. It holds no record with a non-zero parentId. Empty input gives an empty forest |
| `Utils.Partition` | src/library/utils.ts:9-17 | the two reduce passes produce exactly the roots and the non-roots, each in input order |
| `Utils.Translator` | src/library/utils.ts:19-33 | the scan-and-recurse loop over a parent's candidates produces exactly the parent built by `Attach` |
| `Utils.TranslateDataToTree` | src/library/utils.ts:6-36 | the whole builder returns exactly `Forest(data)` |
| `TreeProps.PartitionOrder` | src/library/utils.ts:9-17 | both partitions commute with concatenation, so each keeps input order |
| `TreeProps.PartitionSplits` | src/library/utils.ts:9-17 | every record lands in exactly one partition (multiset union) |
| `TreeProps.PartitionUnique` | src/library/utils.ts:9-17 | unique ids stay unique in each partition |
| `TreeProps.KidsOrder` | src/library/utils.ts:21-31 | the scan attaches one subtree per matching record, in input order |
| `TreeProps.AttachChildren` | src/library/utils.ts:21-30 | a parent keeps its own fields and existing children. Its new children, one per matching record in input order, are appended after them |
| `TreeProps.KidsLinked` | src/library/utils.ts:21-31 | each attached child has the parent's id as its parentId, recursively |
| `TreeProps.AttachLinked` | src/library/utils.ts:22-29 | every edge of a built subtree is a parentId link |
| `TreeProps.ForestLinked` | src/library/utils.ts:19-35 | every edge of the built forest is a parentId link |
| `ExactlyOnce.KidsStep` | src/library/utils.ts:21-30 | visiting one more candidate appends its subtree when it names the parent, and changes nothing otherwise |
| `ExactlyOnce.KidsContain` | src/library/utils.ts:20-31 | a matching record's subtree is part of the parent's children |
| `ExactlyOnce.AttachComplete` | src/library/utils.ts:19-33 | a path of distinct records leading up to a parent ends up in that parent's subtree |
| `ExactlyOnce.KidsSound` | src/library/utils.ts:20-31 | anything among a parent's children lies in the subtree of one matching record |
| `ExactlyOnce.SubtreeChain` | src/library/utils.ts:22-29 | each node of a matched record's subtree starts a path of distinct candidate records that ends at that record |
| `ExactlyOnce.AttachSound` | src/library/utils.ts:19-33 | each node below a parent starts a path of distinct candidate records up to the parent |
| `ExactlyOnce.ChainsAgree` | src/library/utils.ts:22 | with unique ids, a record's upward path through the candidates is unique |
| `ExactlyOnce.SiblingsDisjoint` | src/library/utils.ts:21-29 | two records matched by one scan have disjoint subtrees |
| `ExactlyOnce.NotInOwnSubtree` | src/library/utils.ts:23-26 | each recursive call runs without the record it builds, so a record never appears inside its own subtree |
| `ExactlyOnce.KidsNoDup` | src/library/utils.ts:20-31 | the subtrees attached by one scan together hold no record twice |
| `ExactlyOnce.AttachNoDup` | src/library/utils.ts:19-33 | a built subtree holds no record twice |
| `ExactlyOnce.RootIdNotCandidate` | src/library/utils.ts:9-17 | with unique ids, no root's id belongs to a candidate child |
| `ExactlyOnce.RootsDisjoint` | src/library/utils.ts:19-21 | subtrees of different roots share no record |
| `ExactlyOnce.ForestSound` | src/library/utils.ts:19-35 | every rendered node is a record whose parentId links reach a root |
| `ExactlyOnce.ForestComplete` | src/library/utils.ts:19-35 | every record whose parentId links reach a root is rendered |
| `ExactlyOnce.ForestNoDup` | src/library/utils.ts:6-36 | with unique ids, no record is rendered twice |
| `ExactlyOnce.ForestExactlyOnce` | src/library/utils.ts:6-36 | with unique ids, the forest holds no record twice. A record is in it exactly when its parentId links reach a root, so orphans and cycles are dropped |
| `Scenarios.TwoRecordForest` | src/library/utils.ts:6-36 | records A (root) and B (child of A) render as A with the single child B |
| `Scenarios.OrphansDropped` | src/library/utils.ts:19-35 | a record with a missing parent and one naming itself as parent are not rendered |
| `Keys.Distinct` | src/EditableTree.tsx:112-115 | the deduplicated keys have no repeats and the same members as the input |
| `Keys.DistinctPrefix` | src/EditableTree.tsx:113 | adding keys never moves kept keys, so each key keeps its first-occurrence position |
| `Keys.DistinctOfNoDup` | src/EditableTree.tsx:113 | a list without repeats is kept as it is |
| `Keys.DistinctIdempotent` | src/App.tsx:90 | deduplicating twice equals deduplicating once |
| `Keys.AddKey` | src/App.tsx:64 | appending a key to a repeat-free list adds it at the end unless already present |
| `Keys.Dedup` | src/EditableTree.tsx:113 | the set-based pass returns exactly `Distinct(keys)` |
| `LineList.LineOf` | src/EditableTree.tsx:41-48 | the line a record becomes reads back as that record, shows id as key and name as title, and has no flag and no children (the same map is at src/App.tsx:22-29) |
| `LineList.Lines` | src/App.tsx:21-31 | one unflagged, childless line per record with key = id and title = name. Reading the records back gives the input |
| `LineList.LineListOf` | src/EditableTree.tsx:39-51 | the lines of a non-empty list (records read back equal the list). An empty or missing list gives no lines |
| `LineList.EditFocus` | src/EditableTree.tsx:66-74 | only flags change. No line is in create mode, and a line is in edit mode exactly when the flag is on and its key matches. The result has a single focus, and no focus when the flag is off |
| `LineList.CreateFocus` | src/EditableTree.tsx:76-85 | only flags change. No line is in edit mode, and a line is in create mode exactly when the flag is on and its key matches. The result has a single focus, and no focus when the flag is off |
| `LineList.RewritesKeepLines` | src/EditableTree.tsx:66-85 | the flag rewrites keep the lines well formed and their keys unique |
| `LineList.AtMostOneFlagged` | src/EditableTree.tsx:66-85 | with unique keys, single focus means at most one flagged line |
| `LineList.FocusMoves` | src/EditableTree.tsx:66-85 | opening an edit or create on an existing key flags that line only and closes any other focus |
| `LineList.SameFocusedLine` | src/EditableTree.tsx:66-85 | with unique ids, two flagged lines are the same line |
| `LineList.TreeSingleFocus` | src/EditableTree.tsx:53-57 | with unique ids, at most one node of the rendered tree is in edit or create mode |
| `Component.EditableTree.constructor` | src/EditableTree.tsx:32-51 | input shown, keys and auto-expand taken from the props, lines built from the list, and tree built from the lines |
| `Component.EditableTree.ReceiveList` | src/EditableTree.tsx:39-51 | a new list gives fresh unflagged lines and a rebuilt tree. Other state is kept |
| `Component.EditableTree.RebuildTree` | src/EditableTree.tsx:53-57 | the tree is rebuilt from the lines, and the lines are left unchanged |
| `Component.EditableTree.ToggleLeafEdit` | src/EditableTree.tsx:66-74 | lines become `EditFocus(old, key, isEdit)`, the input shows exactly when editing, and the invariant holds |
| `Component.EditableTree.ToggleLeafCreate` | src/EditableTree.tsx:76-85 | lines become `CreateFocus(old, key, isCreate)`. The key joins the expanded keys even when closing, and auto-expand turns off |
| `Component.EditableTree.HandleLeafEdit` | src/EditableTree.tsx:87-90 | every flag is cleared and the input hidden, then `onEdit(value, key)` is called with the raw value when given |
| `Component.EditableTree.HandleLeafCreate` | src/EditableTree.tsx:92-95 | every flag is cleared and the parent expanded, then `onCreate(value, parentId)` is called with the raw value when given |
| `Component.EditableTree.HandleLeafDelete` | src/EditableTree.tsx:97-99 | only `onDelete(key)` is called, and no state changes |
| `Component.EditableTree.HandleTreeNodeSelect` | src/EditableTree.tsx:101-110 | the selection is replaced unless the click target is the inline input, and the invariant is kept |
| `Component.EditableTree.HandleExpand` | src/EditableTree.tsx:112-115 | the expanded keys become the deduplicated keys, auto-expand turns off for good, and the invariant is kept |
| `Demo.App.constructor` | src/App.tsx:14-31 | the input is hidden, no keys are expanded or selected, and auto-expand is on. Lines are seeded from the records, unflagged and childless, and the tree is built from them |
| `Demo.App.RebuildTree` | src/App.tsx:33-37 | the tree is rebuilt from the lines |
| `Demo.App.ToggleLeafEdit` | src/App.tsx:46-54 | same flag rewrite as the component, and the invariant is kept |
| `Demo.App.ToggleLeafCreate` | src/App.tsx:56-65 | same flag rewrite as the component. The key is appended to the expanded keys unless present, and auto-expand turns off |
| `Demo.App.HandleLeafDelete` | src/App.tsx:67-69 | only a success toast for the key, and no state changes |
| `Demo.App.HandleEdit` | src/App.tsx:71-76 | a warning for an empty value, otherwise success. The edit flag is cleared either way |
| `Demo.App.HandleCreate` | src/App.tsx:78-83 | a warning for an empty value, otherwise success. The create flag is cleared and the parent expanded either way |
| `Demo.App.HandleTreeNodeSelect` | src/App.tsx:85-87 | the selection is replaced unconditionally, and the invariant is kept |
| `Demo.App.HandleExpand` | src/App.tsx:89-92 | the expanded keys become the deduplicated keys, auto-expand turns off for good, and the invariant is kept |

No handler of `Demo.App` writes `id`, `name` or `parentId`. Its invariant
`Records(lineList) == response` is kept by every method, so the tree's shape is
fixed after seeding. In both classes, auto-expand is written only by
`HandleExpand` and `ToggleLeafCreate`, and always set to false. Each
method's `modifies` frame leaves it untouched everywhere else.

## Left out

- Rendering: `renderTree`, the JSX, the icons, the props forwarded to the tree and input widgets, and the focus callback `inputNode`. They are presentation over an external widget library. The placeholder key of the inline create row is also left out.
- The toast texts: `message.success`/`message.warn` become the `Demo.Toast` tags with the committed values. The formatted strings are not modelled.
- React scheduling: state batching and effect timing are not modelled. Each handler is one atomic step, and the two effects run inside the step that changes their input.
- Deep copies through JSON: modelled as value semantics, which is what they achieve.
- In-place mutation in `translateDataToTree`: children are pushed into shared objects, and with duplicate ids the same object can be extended twice. The model builds values. The exactly-once lemmas assume unique ids, the case in which the two agree.
- src/index.tsx: only seed data and logging callbacks. The `./list` module read by `App` is not part of this model. Its records are the constructor argument `response`.
- Deleting a record's descendants, an input length limit and counter, and a "value changed" flag: none of these is in this code.
- `Types.Leaf` fields inherited from the external tree library's node type: only `key`, `title` and `children` are modelled.
