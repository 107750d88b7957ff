# json-differ in Dafny

This project models the core of the `json-differ` crate. The crate compares two JSON
documents and lists the deltas between them. Each delta is an Add, a Change or a Delete
at a JSONPath. The crate then replays such a list onto a base document.

## Modules

- `Json` (json.dfy): JSON values. Numbers are integers. An object is a list of members
  kept strictly sorted by key, as serde_json's default `BTreeMap` keeps them. Because
  the order is fixed, Dafny's `==` is JSON equality. `Wf` says every object is sorted.
- `Text` (text.dfy): decimal rendering, splitting on a character, and lexicographic
  order on keys.
- `Deltas` (delta.rs): `Operation`, `Delta`, `Delta::new` and the hash over a delta.
- `PathAnalysis`, `ArrayMutators`, `Pruning` (utils.rs):
  - `get_key`, the `[digits]` scan of `is_multi_dimensional_array`, `PathItem`,
    `analyse_path`;
  - `insert_element`, `change_element`, `remove_element`;
  - `remove_empty_levels` and `is_empty`.
- `Options`, `Patcher`, `PatcherProperties` (patcher.rs): `PatchOptions`,
  `patch_by_path` and `patch`.
- `LeafPaths` (differ.rs and lib.rs): the leaves of a document with their path
  segments, the path rendering shared by both walks, and the JSONPath subset the
  rendered paths use.
- `Differs`, `DifferProperties` (differ.rs): the `Differ` class and its explicit-stack
  walk `do_diff`.
- `LibDiff`, `LibProperties` (lib.rs): the older recursive `diff` with its own
  `Operation` and `Delta` types.
- `RoundTrip`: diffing `{}` against a document and patching `{}` with the result.
- `DifferFindings`, `PatcherFindings`: the defects listed under "## Findings", each with
  a corrected definition beside the as-written one.

## How operations are modelled

Each imperative routine is a `method` proved equal to a specification function. The
properties are lemmas about that function:
- `patch_by_path`: the method `Patcher.PatchByPath` keeps the mutable cursor as a zipper,
  a stack of frames plus the current subtree. It equals the recursive `Patcher.SetByPath`.
- `patch`: `Patcher.Patch` equals `Patcher.PatchResult`.
- The mutators: the recursion of `insert_element`, `change_element` and `remove_element`
  on `&mut` inner arrays is a tail call. The methods `InsertElement`, `ChangeElement` and
  `RemoveElement` run it as a loop that keeps the enclosing arrays as a stack of slots
  and the indices still to use. They equal `AfterInsert`, `AfterChange` and `AfterRemove`.
- `remove_empty_levels`: `Pruning.RemoveEmptyLevels` equals `Pruning.Pruned`.
- `do_diff`: `Differs.Differ.DoDiff` runs the stack loop. It equals a left-to-right fold
  `Differs.Pass` over `LeafPaths.Leaves(v, [], true)`. The `true` lists siblings in the
  order the stack pops them, last sibling first.
- lib.rs `diff`: `LibDiff.Diff` pushes and pops the current path around every child. It
  equals `LibDiff.LibPass` over `Leaves(v, [], false)`, with siblings in ascending order.

Rust's `&mut` borrows are exclusive, so passing values in and out is exact. Panics are an
explicit outcome:
- `unwrap` on `None`;
- out-of-range `Vec::insert` or indexing;
- the `usize` underflow of `is_multi_dimensional_array` on `[` with no digit group. This
  is the panic of a build with overflow checks on (debug and test builds). A release build
  wraps instead; src/utils.rs:57 discards the wrapped count, and the segment becomes a plain
  item;
- a JSONPath that does not parse.

`patch_by_path` has three outcomes: `Applied`, `Rejected` (its `Err`, returned with the
partly edited document) and `Panicked`. `patch` unwraps, so both `Rejected` and
`Panicked` make `patch` end in `Panic`.

The main model keeps the code as written, including the defects under "## Findings".

## Model

| member | source | states |
|---|---|---|
| Deltas.OperationNamesDistinct | src/delta.rs:13-25 | each operation feeds its own distinct name (`Add`, `Change`, `Delete`) to the hash |
| Deltas.NewDelta | src/delta.rs:37-47 | the delta holds the operation, path, old and new value exactly as passed; its hash is the decimal text of the hash of those four fields |
| Deltas.HashText | src/delta.rs:45 | the stored hash is decimal digits with no leading zero, and it reads back as the 64-bit hash |
| Deltas.CalculateHash | src/utils.rs:8-12 | the hash of a delta is a 64-bit word |
| Deltas.HashIgnoresStoredHash | src/delta.rs:50-56 | the hash does not read the `hash` field, so rehashing a built delta gives its stored hash |
| Deltas.SameFieldsSameDelta | src/delta.rs:50-56 | two built deltas with the same operation, path and values are equal, hash included |
| PathAnalysis.GetKey | src/utils.rs:143-150 | the key is the prefix of the segment before its first `[`, or the whole segment when it has none |
| PathAnalysis.ScanGroups | src/utils.rs:19-24 | every index read fits in `usize`; a segment without `[` yields no index |
| PathAnalysis.ScanBrackets | src/utils.rs:19-24 | a key followed by rendered `[i]` groups scans back to exactly those indices, and `get_key` gives back the key |
| PathAnalysis.ScanGroupsOfBrackets | src/utils.rs:19-24 | the scan reads rendered `[i]` groups back in order |
| PathAnalysis.MultiDimensional | src/utils.rs:14-30 | no `[` gives `(false, 0, [])`; otherwise the indices are the scanned groups, the flag says there are some, and the middle part is their count minus 1; a `[` with no digit group underflows and panics |
| PathAnalysis.NewPathItem | src/utils.rs:40-49 | the item's key is `get_key` of the segment; the other fields are stored as passed |
| PathAnalysis.PathItemsShape | src/utils.rs:51-66 | one item per `.`-separated segment, in order, with key `get_key(segment)`, indices from the scan, `is_array` exactly when there are indices, and `is_last` only on the final item; the analysis panics exactly when some segment's scan does |
| PathAnalysis.AnalysePath | src/utils.rs:51-66 | the loop that pushes one item per segment builds exactly `PathItems(path)` |
| PathAnalysis.AnalyseSegments | src/utils.rs:54-65 | the loop over the segments pushes exactly the items `SegmentItems` specifies, or panics exactly when a segment cannot be read |
| PathAnalysis.PathOfSegments | src/utils.rs:51-66 | joining readable segments with `.` and analysing the result gives one item per segment |
| ArrayMutators.AfterInsert | src/utils.rs:68-91 | no indices change nothing; one index inserts when it is at most the length and panics otherwise; a first index past the end of a deeper path panics; the top-level array grows by one (the inserted element or the pushed `[]` row) when there is one index or the first index is at or past the end, and keeps its length otherwise |
| ArrayMutators.InsertElement | src/utils.rs:68-91 | the descent loop, which keeps the enclosing arrays as slots and rebuilds through them, leaves exactly `AfterInsert`, panics included |
| ArrayMutators.InsertOverwrites | src/utils.rs:84-90 | with indices left after an in-range non-array element of a nested row, that element is overwritten by the value, and nothing else changes |
| ArrayMutators.InsertInPlace | src/utils.rs:73-87 | inserting at position i of a nested row reached through arrays gives `row[..i] + [v] + row[i..]` at that row, and nothing else changes |
| ArrayMutators.InsertPadsOnce | src/utils.rs:80-87 | a first index equal to the length pushes exactly one `[]` placeholder and inserts into it |
| ArrayMutators.AfterChange | src/utils.rs:93-115 | no indices change nothing; a single index past the end panics; a single index at the end appends; several indices whose first is out of range leave the array unchanged; otherwise the length is kept |
| ArrayMutators.ChangeElement | src/utils.rs:93-115 | the descent loop, which keeps the enclosing arrays as slots and rebuilds through them, leaves exactly `AfterChange`, panics included |
| ArrayMutators.ChangeInPlace | src/utils.rs:108-114 | an in-range non-array element at the end of the path is overwritten, and nothing else changes |
| ArrayMutators.ChangeAppends | src/utils.rs:100-104 | a last index equal to the row's length appends the value to that row |
| ArrayMutators.ChangeIdempotent | src/utils.rs:108-114 | overwriting an element twice with the same non-array value gives the same array as overwriting it once |
| ArrayMutators.AfterRemove | src/utils.rs:117-141 | an out-of-range or missing first index is a no-op; a non-array element is removed and later ones shift left; a single index at a nested array is a no-op; the length drops by at most one |
| ArrayMutators.RemoveElement | src/utils.rs:117-141 | the descent loop, which keeps the enclosing arrays as slots and rebuilds through them, leaves exactly `AfterRemove` |
| ArrayMutators.RemoveInPlace | src/utils.rs:128-140 | removing an in-range non-array element of a nested row gives `row[..i] + row[i+1..]` at that row, and nothing else changes |
| ArrayMutators.RemoveCollapsesRow | src/utils.rs:130-135 | with two indices, a one-element inner row and `omit_empty`, the row itself is removed whatever the second index is |
| ArrayMutators.InsertRemoveRoundTrip | src/utils.rs:68-141 | removing what was just inserted at the same indices gives back the original array |
| ArrayMutators.InsertWf | src/utils.rs:68-91 | inserting keeps every object sorted |
| ArrayMutators.ChangeWf | src/utils.rs:93-115 | changing keeps every object sorted |
| ArrayMutators.RemoveWf | src/utils.rs:117-141 | removing keeps every object sorted |
| Pruning.IsEmpty | src/utils.rs:181-189 | true exactly for `null`, `""`, `[]` and `{}`; never for a number or a boolean |
| Pruning.Pruned | src/utils.rs:152-179 | pruning keeps the root: an array stays an array, an object stays an object, and a leaf is unchanged |
| Pruning.PrunedHasNoEmpty | src/utils.rs:152-189 | after pruning, no value below the root is empty (Null, `""`, `[]` or `{}`; `false` and `0` are not empty) |
| Pruning.PruneKeepsClean | src/utils.rs:152-189 | a document with no empty value below the root is left unchanged |
| Pruning.PruneIdempotent | src/utils.rs:152-189 | a second pruning changes nothing |
| Pruning.PrunedWf | src/utils.rs:152-179 | pruning keeps every object sorted |
| Pruning.GetPruned | src/utils.rs:154-165 | after pruning, a key maps to its pruned value, or to nothing when that value became empty |
| Pruning.RemoveEmptyLevels | src/utils.rs:152-179 | the in-place pass computes `Pruned` |
| Pruning.RemoveEmptyMembers | src/utils.rs:154-165 | the loop that takes each key out, prunes it and puts it back unless empty computes `PrunedMembers` |
| Pruning.RemoveEmptyItems | src/utils.rs:166-176 | the `while i < arr.len()` loop that removes each element, prunes it and reinserts it unless empty computes `PrunedItems` |
| Options.New | src/patcher.rs:20-26 | `new` gives `force = false` and `omit_empty = false` |
| Options.Default | src/patcher.rs:14-18 | `default` equals `new` |
| Options.WithForce | src/patcher.rs:28-31 | the `force` setter sets `force` and keeps `omit_empty` |
| Options.WithOmitEmpty | src/patcher.rs:33-36 | the `omit_empty` setter sets `omit_empty` and keeps `force` |
| Options.BuildersCommute | src/patcher.rs:20-37 | the two setters commute, and from `new` they build exactly the options given |
| Patcher.Placeholder | src/patcher.rs:182-188 | the placeholder pushed is `{}` for a single index and `[]` otherwise; both are empty |
| Patcher.Last | src/patcher.rs:105-162 | at the last segment on an object the operation never returns `Err`: it applies or panics |
| Patcher.PatchLast | src/patcher.rs:105-162 | the last-segment dispatch on an object computes `Last` |
| Patcher.WalkSkip | src/patcher.rs:81-83 | a `$` segment is skipped |
| Patcher.WalkLastArray | src/patcher.rs:85-99 | at the last segment on an array cursor, a plain segment appends `{key: value}` whatever the operation, and a bracketed one is rejected |
| Patcher.WalkLastObject | src/patcher.rs:105-163 | at the last segment on an object cursor the walk does the last-segment operation |
| Patcher.WalkNotObject | src/patcher.rs:205-209 | a non-last segment on a non-object cursor is rejected |
| Patcher.WalkIntoMember | src/patcher.rs:166-204 | a non-last segment on an object creates a missing key as `{}` (plain) or `[]` (bracketed) and moves into it, through the indices when bracketed |
| Patcher.MoveDown | src/patcher.rs:166-204 | one downward move of the cursor keeps the plugged-in result of the walk unchanged |
| Patcher.PatchIndices | src/patcher.rs:176-191 | the index loop either pushes a placeholder under Add (empty row or index past the length) or moves into the element, and keeps the plugged-in result of the walk unchanged |
| Patcher.Advance | src/patcher.rs:70-211 | one turn of the cursor loop either finishes with the walk's outcome or moves on to the next segment with that outcome kept |
| Patcher.PatchByPath | src/patcher.rs:60-212 | the cursor loop computes the recursive specification `SetByPath` |
| Patcher.PatchItems | src/patcher.rs:68-211 | the loop over the items of an analysed path computes the recursive walk `Walk` from the first item |
| Patcher.SetByPathWf | src/patcher.rs:60-212 | applying one delta keeps every object sorted |
| Patcher.ApplyAllStep | src/patcher.rs:42-51 | the deltas are applied one at a time, in list order, each to the previous result |
| Patcher.Patch | src/patcher.rs:39-58 | the loop over the deltas, followed by pruning when `omit_empty` is set, computes `PatchResult` |
| PatcherProperties.PathTextItems | src/utils.rs:51-66 | the text of a readable path analyses to the expected items, the first one being `$` |
| PatcherProperties.SetByPathParts | src/patcher.rs:60-83 | patching by the text of a readable path is walking the items after `$` |
| PatcherProperties.RootIndicesIgnored | src/patcher.rs:81-83 | a path made only of `$` and brackets changes nothing |
| PatcherProperties.TopLevelKey | src/patcher.rs:143-162 | `$.k` under Add or Change sets `k` to the value; under Delete it removes `k`, which is a no-op when `k` is absent; other keys are untouched |
| PatcherProperties.NestedKeys | src/patcher.rs:143-203 | a path of plain keys through objects sets, or removes, the value at the end of that path |
| PatcherProperties.ArrayCursorAtLast | src/patcher.rs:85-99 | when the last segment lands on an array, a plain segment appends `{key: value}` and a bracketed one is rejected with the document unchanged |
| PatcherProperties.NotObjectRejects | src/patcher.rs:205-209 | descending through a leaf is rejected and leaves a sorted document unchanged |
| PatcherProperties.IndexedWalk | src/patcher.rs:105-139 | `$.k[i]...[j]` reaches the last-segment operation with the key and the indices |
| PatcherProperties.IndexedAdd | src/patcher.rs:110-123 | Add at `$.k[..][i]` creates `[]` under a missing key and inserts the value at position i of the addressed row |
| PatcherProperties.IndexedChange | src/patcher.rs:124-132 | Change at `$.k[..][i]` overwrites element i of the addressed row |
| PatcherProperties.IndexedDelete | src/patcher.rs:133-137 | Delete at `$.k[..][i]` removes element i of the addressed row |
| PatcherProperties.IndexedNeedsArray | src/patcher.rs:124-137 | Change or Delete at a bracketed path panics when the key is missing or does not hold an array |
| PatcherProperties.PatchIgnoresForce | src/patcher.rs:39-58 | `force` is never read: patching gives the same result whatever it is set to |
| PatcherProperties.ApplyAllAppend | src/patcher.rs:42-51 | applying two lists in a row is applying their concatenation |
| PatcherProperties.FailureAborts | src/patcher.rs:42-51 | if any delta is not applied, the whole patch panics and no partial result is returned |
| PatcherProperties.PatchShape | src/patcher.rs:39-58 | the patch succeeds exactly when every delta applies; without `omit_empty` it is exactly that sequential result; with it, that result pruned, with no empty value below the root; the result keeps objects sorted |
| LeafPaths.PopOrder | src/differ.rs:82-103 | the elements of a row are popped last first, so a row of three leaves is visited at `[2]`, `[1]`, `[0]` |
| LeafPaths.LeavesAreLeaves | src/differ.rs:83-105 | only leaves (neither object nor array) are visited, so empty containers contribute no delta |
| LeafPaths.JoinPath | src/differ.rs:106-113 | the rendering loop uses the first segment verbatim, appends segments containing `[` verbatim and prefixes all others with `.` |
| LeafPaths.NameRun | src/differ.rs:119 | the JSONPath name scanner stops exactly at the first character that cannot continue a name |
| LeafPaths.RenderSteps | src/differ.rs:86-113 | the rendered path is `$` followed by `.k` for each key and `[i]` for each index, e.g. `$.test[0][0].test[0][1]` |
| LeafPaths.ParseStepsText | src/differ.rs:119 | the JSONPath parser reads a rendered path back as its steps |
| LeafPaths.QueryRendered | src/differ.rs:119-120 | querying a rendered path resolves it step by step |
| LeafPaths.LeavesLocated | src/differ.rs:83-120 | every leaf's rendered path, queried in its own document, finds that leaf |
| Differs.Differ.GetDeltas | src/differ.rs:35-37 | the stored delta list itself, non-empty exactly when `has_changes` holds |
| Differs.Differ.GetDeltaByPath | src/differ.rs:39-42 | the first delta with exactly that path, or none when no delta has it |
| Differs.Differ.HasPathChanged | src/differ.rs:44-49 | true exactly when some delta has both that path and that operation |
| Differs.Differ.HasChanges | src/differ.rs:51-54 | true exactly when the list is not empty |
| Differs.Differ.NewFromJsonValues | src/differ.rs:26-32 | the two documents are stored as given, with no deltas |
| Differs.Differ.Default | src/differ.rs:15-23 | both documents are Null, with no deltas |
| Differs.Differ.Diff | src/differ.rs:56-68 | both passes share the deltas and the seen paths, and the list is rebuilt from scratch, so two calls leave the same list |
| Differs.Differ.DoDiff | src/differ.rs:70-165 | the stack loop visits exactly the leaves, in pop order, and computes the fold `Pass` |
| Differs.Differ.PushChildren | src/differ.rs:84-104 | pushing an object's members or an array's items leaves the pending leaves as the container's leaves followed by the rest |
| Differs.Differ.VisitLeaf | src/differ.rs:105-162 | the leaf step computes `Visit` |
| DifferProperties.VisitCases | src/differ.rs:115-161 | a seen path changes nothing; an unseen one adds the deltas for that leaf and enters `seen` |
| DifferProperties.EmittedFacts | src/differ.rs:121-158 | at most one delta per leaf, at that path, with its hash consistent, and never an Add in the first pass or a Delete in the reverse pass |
| DifferProperties.PassExtends | src/differ.rs:82-164 | a pass only extends the list and the seen set; every new delta is at a newly seen path; at most one delta per leaf |
| DifferProperties.PassTracked | src/differ.rs:115-161 | every delta's path is seen and no two deltas share a path, and a pass keeps this |
| DifferProperties.PassSucceeds | src/differ.rs:119 | a pass does not panic when every leaf path parses |
| DifferProperties.PassOriented | src/differ.rs:119-158 | every delta of a pass reads the visited document against the other |
| DifferProperties.DiffSucceeds | src/differ.rs:57-68 | documents with container roots and simple keys never make the diff panic |
| DifferProperties.DiffShape | src/differ.rs:57-68 | the reverse pass extends the first; the seen set is every leaf path of both documents; no two deltas share a path |
| DifferProperties.DiffPathsDistinct | src/differ.rs:58-161 | no path appears in two deltas |
| DifferProperties.DeletesBeforeAdds | src/differ.rs:61-157 | every Delete precedes every Add, and every delta's hash is that of its fields |
| DifferProperties.DiffOriented | src/differ.rs:119-157 | a first-pass Change has `old_value` from the left and `new_value` from the right, with the two different; a Delete is a left leaf absent on the right, with `new_value` Null; a reverse-pass delta reads the right against the left (Add: a right leaf absent on the left, with `old_value` Null) |
| DifferProperties.PassQuiet | src/differ.rs:119-135 | a pass of a document against itself adds no delta |
| DifferProperties.SelfDiffEmpty | src/differ.rs:119-135 | diffing a document with itself gives no deltas |
| DifferFindings.AsWrittenReverseChange | src/differ.rs:119-135 | as written, a reverse-pass Change takes `old_value` from the right and `new_value` from the left, so it does not describe the left-to-right difference |
| DifferFindings.AsWrittenEmptyContainer | src/differ.rs:83-135 | as written, `{"k":[]}` against `{"k":x}` gives Change old=x new=`[]`, and patching the left with it gives the left back |
| DifferFindings.EmittedFlips | src/differ.rs:121-135 | the corrected classification is the as-written one with reverse-pass Changes turned around |
| DifferFindings.DiffFixedFlips | src/differ.rs:57-68 | the corrected diff succeeds exactly when the as-written one does: the same first pass, then the reverse-pass deltas turned around |
| DifferFindings.FixedDescribes | src/differ.rs:119-157 | with the correction, every delta describes left to right: Change old from the left and new from the right, Delete present only on the left, Add present only on the right |
| DifferFindings.FixedEmptyContainer | src/differ.rs:83-135 | with the correction, `{"k":[]}` against `{"k":x}` gives Change old=`[]` new=x, and patching the left with it gives the right |
| PatcherFindings.AsWrittenRowPastEnd | src/patcher.rs:176-191 | as written, Add at `$.k[i].b` with i at or past the end of a row pushes `{}` and then appends `{b: v}` beside it, or panics when i equals the length of a non-empty row |
| PatcherFindings.AsWrittenFromEmpty | src/patcher.rs:176-191 | as written, Add at `$.k[0].b` on `{}` gives `{"k":[{},{"b":v}]}` |
| PatcherFindings.AsWrittenAtLength | src/patcher.rs:179-190 | as written, Add at `$.k[1].b` on `{"k":[x]}` panics |
| PatcherFindings.FixedRowPastEnd | src/patcher.rs:176-191 | corrected, Add at `$.k[i].b` past the end puts `{b: v}` as the row's new last element |
| PatcherFindings.FixedFromEmpty | src/patcher.rs:176-191 | corrected, Add at `$.k[0].b` on `{}` gives `{"k":[{"b":v}]}` |
| PatcherFindings.FixedAtLength | src/patcher.rs:179-190 | corrected, Add at `$.k[1].b` on `{"k":[x]}` gives `{"k":[x,{"b":v}]}` |
| LibDiff.Classify | src/lib.rs:71-101 | no delta when the other document holds an equal value; a Change when it holds a different one (old = this leaf, new = the other's value); when the path is absent, Add (old Null) in the reverse pass and Delete (new Null) otherwise |
| LibDiff.Diff | src/lib.rs:20-107 | the recursion visits the leaves in map and index order and computes the fold `LibPass`; on return, `current_path` is as it was on entry |
| LibDiff.DiffMembers | src/lib.rs:30-40 | each key is pushed, its value diffed, and the key popped; the result is the fold over the members' leaves in order |
| LibDiff.DiffItems | src/lib.rs:41-50 | each index is pushed, its item diffed, and the index popped; the result is the fold over the items' leaves in order |
| LibDiff.DiffLeaf | src/lib.rs:51-105 | a leaf renders its path, skips it when seen, and otherwise classifies it against the other document and records the path |
| LibDiff.LibPassAppend | src/lib.rs:29-50 | walking two runs of leaves in turn is walking their concatenation |
| LibProperties.VisitGrows | src/lib.rs:65-104 | a seen leaf adds nothing; an unseen one adds its path to `seen` and appends it once to `paths`, with at most one delta |
| LibProperties.LibPassGrows | src/lib.rs:20-107 | `deltas`, `paths` and `seen` only grow; `paths` gains exactly the paths newly added to `seen`, each once; at most one delta and one path per leaf |
| LibProperties.LibPassSeen | src/lib.rs:65-67 | leaves whose paths are all seen change nothing |
| LibProperties.ClassifyStripped | src/lib.rs:71-101 | the recursive version classifies a leaf exactly as the stack version does, apart from the hash |
| LibProperties.LibAgrees | src/lib.rs:20-107 | over the same leaves, the recursive walk panics exactly when the stack walk does, and ends with the same seen set and the same deltas, apart from the hashes |
| LibProperties.LibOriented | src/lib.rs:51-105 | on a document with a container root and simple keys the walk does not panic, and every delta reads the walked document against the other |
| LibProperties.LibSelfQuiet | src/lib.rs:51-105 | a walk of a document against itself appends no delta |
| RoundTrip.DiffFromEmpty | src/differ.rs:57-68 | diffing `{}` against `{a: x, t: [y]}` gives exactly an Add of `$.t[0]` followed by an Add of `$.a` |
| RoundTrip.PatchFromEmpty | src/patcher.rs:39-58 | patching `{}` with those two Adds, in that order, gives `{a: x, t: [y]}` |
| RoundTrip.PatchUndoesDiff | src/lib_test.rs:8-21 | for two simple keys `a` and `t` with `a` before `t`, and any two leaves, patching `{}` with the two deltas of diff(`{}`, `{a: x, t: [y]}`) gives that document back |
| RoundTrip.BracketKeyAlias | src/differ.rs:84-120 | a key `a[0]` renders as `$.a[0]`, which the query reads as key `a` then index 0, so diffing `{"a[0]": 1}` against `{"a": [1]}` gives no delta although the documents differ |
| RoundTrip.AgeAndTags | src/lib_test.rs:8-21 | diff(`{}`, `{"age":20,"tags":["test"]}`) has two deltas, and patching `{}` with them gives that object |
| Text.SplitJoin | src/utils.rs:52 | splitting on `.` and joining again give back the segments |
| Text.DigitsRoundTrip | src/differ.rs:99-100 | the decimal rendering of an index reads back as that index |

## Left out

- Hashing: `DefaultHasher` (SipHash) is replaced by a fixed 64-bit FNV-style `Fingerprint`. `Value::to_string` is a compact JSON writer (`Json.ToText`). Only structural facts about the hash are stated: which fields it reads, and that it fits 64 bits. The literal hash asserted in the test at src/delta.rs:71 is not reproduced.
- Deltas.CalculateHash: states only the 64-bit bound and which fields are read, not SipHash's value, because SipHash is not modelled.
- JSONPath (`serde_json_path`): `LeafPaths.Query` parses only `$`, `.name` (RFC 9535 shorthand names) and `[digits]`, and resolves them structurally. Any other path gives `Panic`. The real library implements all of RFC 9535, and the differ pushes keys into paths verbatim (src/differ.rs:108, src/lib.rs:54). A key that is not a shorthand name can do one of three things to the rendered path:
  - make it fail to parse: the model and the source both panic;
  - make it parse as a query outside the subset: the source runs that query, the model panics. A key `*` renders as `$.*`, a wildcard. A root key `.x` renders as `$..x`, a descendant query. Keys such as `a[*]`, `a[-1]` or `a['b']` read as bracket selectors. For example `Query(Obj([Member("*", Num(1))]), "$.*")` is `Panic`;
  - make it parse inside the subset with another meaning: the model and the source agree. A key `a[0]` renders as `$.a[0]`, which reads as the key `a` and then index 0. Diffing `{"a[0]": 1}` against `{"a": [1]}` therefore finds the leaf at that path on both sides and reports no delta, although the documents differ (`RoundTrip.BracketKeyAlias`).
- PathAnalysis.MultiDimensional: models the underflow of `indices_len - 1` as a panic, as a build with overflow checks reports it. The wrap-around of a release build, where the segment becomes a plain item, is not modelled.
- DifferProperties.DiffOriented: assumes every key is a shorthand name and both roots are containers. So do the other whole-walk properties: `DiffSucceeds`, `SelfDiffEmpty`, `LibOriented`, `LibSelfQuiet` and `FixedDescribes`. Outside them a scalar root renders as the empty path, and a key that is not a shorthand name can make the rendered path fail to parse, parse as a query outside the subset, or parse as a different path inside it (see the JSONPath line above). For such inputs the model states only the per-leaf facts.
- The `regex` scan `\[(\d+)]` is written out by hand (`PathAnalysis.ScanGroups`). A digit group too large for `usize` is skipped, as `parse().ok()` skips it.
- Floating-point numbers: JSON numbers are integers.
- Serde and I/O: parsing and printing JSON, and the test data files that src/differ_test.rs and src/lib.rs read, are not part of this model. So the delta counts asserted over those files are not stated.
- Object key order: objects are kept sorted by key, as serde_json's default map keeps them. The `preserve_order` feature is not modelled.
- Differs.Differ.DoDiff: visits siblings last first, because the stack pops the last pushed child (`LeafPaths.PopOrder`). So the code as written emits `$.test[2]`, `$.test[1]`, `$.test[0]` for a three-element row. The asserts at src/differ_test.rs:215-231 and src/differ_test.rs:265-281 expect ascending order and contradict the code. The model follows the code and states no ascending order. It states that every Delete precedes every Add, and it states the deltas' contents.
- src/errors.rs is reduced to one error outcome (`Rejected`), and the force and conflict checks the options suggest are not invented, because the code never reads `force`. src/errors.rs names the variant `UnknownError` while src/patcher.rs uses `ProcessError::Unknown`: the code is modelled as written.
- LibDiff.Diff: states that `current_path` is restored only when the walk does not panic, because a panic in the source unwinds the whole call.
- The test modules (src/patcher_test.rs, src/differ_test.rs, src/lib_test.rs) are evidence for the properties above, not modelled code. Their call of `set_by_path` names the function the code calls `patch_by_path`.

## Findings

| source | as written | input that shows it | evidently intended | confidence | as-written member | corrected member |
|---|---|---|---|---|---|---|
| src/patcher.rs:176-191 | Under Add, when the row is empty or the index is past its end, a placeholder is pushed but the cursor stays on the row. The plain last segment then sees an array cursor and appends `{b: v}` next to the placeholder. | Add `$.k[0].b` = v on `{}` gives `{"k":[{},{"b":v}]}`, so patching `{}` with diff(`{}`, `{"k":[{"b":v}]}`) does not give `{"k":[{"b":v}]}` unless `omit_empty` prunes the `{}` | the value lands inside the pushed element: `{"k":[{"b":v}]}` | medium; not executed | PatcherFindings.AsWrittenFromEmpty | PatcherFindings.FixedFromEmpty |
| src/patcher.rs:179-190 | The guard is `*_index > array.len()`, so an index equal to the length of a non-empty row skips the push and then indexes past the end | Add `$.k[1].b` = v on `{"k":[x]}` panics | an index equal to the length extends the row: `{"k":[x,{"b":v}]}` | high; not executed | PatcherFindings.AsWrittenAtLength | PatcherFindings.FixedAtLength |
| src/differ.rs:119-135 | The reverse pass walks the right document and records the visited leaf as `old_value` and the left's value as `new_value`, so its Changes point from right to left | `{"k":[]}` against `{"k":x}` for a leaf x: the first pass has no leaf, and the reverse pass emits Change old=x new=`[]`; patching `{"k":[]}` with it gives `{"k":[]}` back | a reverse-pass Change records the left's value as `old_value` and the right's as `new_value` | medium; not executed | DifferFindings.AsWrittenEmptyContainer | DifferFindings.FixedEmptyContainer |
