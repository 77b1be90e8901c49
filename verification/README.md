# Field ownership and apply: a verified model of structured-merge-diff

This project models how several managers share one object: each manager owns a set of field paths,
each write changes the object and the ownership records together, and an *apply* merges a partial
configuration, prunes what its manager no longer wants, and reports conflicts. It proves what these
operations compute and what every run of them keeps.

The model has two levels, and every operation of the second is proved against the first.

* **Meaning.** Pure functions over a value tree and over finite sets of paths say what each operation
  computes: `Ordering`, `Schemas`, `Merging`, `Comparing`, `Removing`, `Owning`, `Reconciling`, `Updating`.
  The modules named `*Theory` (and `Absorption`, `RemoveFusion`, `RemoveIff`, `RepeatedItems`, `ExtractLeaves`)
  prove laws about them, and the modules named `*Example` give inputs.
* **Algorithms.** Methods with loops, and walker classes with the fields the walkers update, work on the
  sorted field-set trie: `ElementSets`, `ElementMaps`, `TrieOps`, `TrieAccess`, `TrieViews`, `TrieClosures`,
  `Serialization`, `Equality`, `ValueLoops`, `ValidateWalk`, `MergeWalk`, `CompareWalk`, `RemoveWalk`, `FieldSetWalk`, `ReconcileWalk`,
  `Updaters`, `Runs`. Their postconditions equate what they produce with the functions above.

Vocabulary. A schema is *plain* (`PlainSetting.Plain`) if every reference resolves, every atom has one kind,
every list is atomic or associative and list keys are scalars; recursive types and defaults for list keys are
allowed. It is *anchored* (`PlainSetting.Anchored`) if, in addition, every list with keys has one without a
default, as ports keyed by port and protocol do. `AllPaths` is the set of paths to nodes through
containers that are not atomic, and `At` is the node at a path; results of the walkers are stated against
these two. An object is *solid* if no declared field that may have children is null or an empty map, and
*dense* if it has no empty container at all. A state is *leaf-safe* (`RunTheory.LeafSafe`) if no manager's set is
empty, every owned leaf is in the live object with the value its owner last wrote, and a list item is owned
exactly together with its keys, save keys that are at their defaults; every run of valid steps on a plain schema
keeps this. It is *safe* (`RunTheory.Safe`) if, besides, every owned list item and container is in the live object.

Where comments and code differ, the model follows the code: `Difference` is exact path difference
(fieldpath/set.go:87-91 says otherwise); the three sets of a comparison can overlap when list keys repeat
(typed/compare.go:314-325 against typed/compare.go:30-31); `RemoveItems` leaves null, not an empty container
(typed/remove.go:100-102, typed/remove.go:161-163); errors of merged list items are dropped
(typed/merge.go:216-217, `FailTheory.MergeFailsIff`); extraction goes on below a member with the parent's set (typed/remove.go:85).

Some properties one would expect turn out to be false of the code. Each has inputs that break it and the exact
condition under which it holds, on every plain schema, and the last one on every schema:

* A path of an applied configuration can be pruned at once, although its manager then owns it
  (`HollowExample.HollowConfigLost`, `KeyDefaultExample.DefaultedItemLost`). This happens exactly if some step
  of the path was owned before and, without what nobody owns, is a declared field with nothing but empty lists
  or a list item without any field (`PruneTheory.Loses`, exact by `PruneTheory.PruneKeepsIff`). Leaves are never
  lost, so runs stay leaf-safe (`RunTheory.RunLeafSafe`); they stay safe exactly if no apply loses a path
  (`LossTheory.RunSafeIff`), and what is missing was lost by its owner (`LossTheory.MissingWasLost`).
  Solid configurations on anchored schemas never lose one (`RunTheory.SolidLossless`), and dense ones lose none
  on any plain schema (`IdempotenceTheory.DenseLossless`).
* An apply of a valid configuration in a safe state can report a schema error
  (`KeyDefaultExample.EmptiedItemFails`): exactly if pruning leaves a list item that stays without any field
  (`RunTheory.ApplyFailsIff`). Such an item leaves all its keys to defaults, so this never happens on anchored
  schemas (`RunTheory.AnchoredApplies`).
* Removing a field of a list item without the item can leave an item that is no longer found at its path
  (`KeyDefaultExample.RemovalNotExact`); removal is exact if and only if no item that
  stays loses its last field or a key that is not at its default
  (`RemoveIff.RemoveExactIff`).
* A path that another manager owns and the configuration changes can go without a conflict
  (`HollowExample.LostWithoutConflict`), because pruning loses what leads to it; an unforced apply conflicts if
  and only if some such path is not lost (`ConflictTheory.ConflictsExact`), and leaves never are
  (`ConflictTheory.LeafContested`).
* A merge should let the right operand win where the two are of different kinds. Null over a map with fields, in a
  type that has other kinds besides, keeps the map (`KindTheory.ReplacedOrKept`); the left operand contributes
  nothing if and only if the right one is of a kind the type has or the left one is no granular map with fields
  (`KindTheory.KindsMerged`).

## Model

| member | source | states |
|---|---|---|
| `Ordering.ValuesOrdered` | value/value.go:259-347 | swapping operands flips the comparison of two values, and it is zero exactly if they are equal |
| `Ordering.ValuesTransitive` | value/value.go:259-347 | the order on values is transitive |
| `Ordering.Ordered` | fieldpath/element.go:51-99 | path elements: swapping flips the sign, and comparing equal is being equal |
| `Ordering.Transitive` | fieldpath/element.go:51-100 | the order on path elements is transitive |
| `Ordering.EntriesDetermine` | value/map.go:210-240 | the key-sorted entries determine the map |
| `OrderTheory.StringsLexicographic` | value/value.go:293-300 | strings are ordered by the first character that differs, a prefix first |
| `OrderTheory.ListsLexicographic` | value/list.go:111-139 | lists are ordered by the first items that differ, a prefix first |
| `OrderTheory.FieldsLexicographic` | value/fields.go:57-81 | field lists are ordered by the first fields that differ, by name and then by value, a prefix first |
| `OrderTheory.EntriesSorted` | value/map.go:210-240 | the entries by which maps are compared are all entries, each name once, in the order of the names |
| `OrderTheory.ValuesRanked` | value/value.go:259-347 | numbers, strings, booleans, lists, maps and null in this order; numbers by size, false before true, the others by their first difference |
| `OrderTheory.ElementsRanked` | fieldpath/element.go:51-99 | field names, keys, values and indices in this order; each kind by its own order |
| `Equality.ValuesEqual` | value/value.go:137-215 | deciding kind by kind whether two values are equal coincides with comparing to zero, and with equality |
| `Equality.ListsEqual` | value/list.go:78-96 | the length check with the loop over both lists decides equality, which is comparing to zero |
| `Equality.MapsEqual` | value/map.go:254-270 | the length check with entry-wise equality in any key order decides equality, which is comparing to zero |
| `Equality.FieldListsEqual` | value/fields.go:84-97 | the index loop over names and values decides equality, which is comparing to zero |
| `Equality.ElementsEqual` | fieldpath/element.go:102-136 | deciding kind by kind whether two path elements are equal coincides with comparing to zero, and with equality |
| `Equality.MembersEqual` | fieldpath/element.go:300-310 | the index loop over members decides equality of the member lists |
| `ValueLoops.CompareMaps` | value/map.go:144-240 | zipping two maps by sorted key with a step counter and stopping early is lexicographic comparison of key-sorted entries |
| `ValueLoops.CompareItems` | value/list.go:111-139 | the two-iterator loop is lexicographic comparison |
| `ValueLoops.CompareFieldLists` | value/fields.go:57-81 | the index loop is lexicographic comparison by name, then value |
| `ValueLoops.SortSorts` | value/fields.go:35-48 | sorting key fields orders them by name, loses none, and is stable |
| `ValueLoops.SortInPlace` | value/fields.go:35-48 | sorting in place, with its shortcut for two fields, is that stable sort |
| `ValueLoops.KeyedItemElement` | typed/helpers.go:187-226 | collecting keys or their defaults in a loop and sorting them gives the item's path element, or an error when a key is missing |
| `ListKeys.SameKeys` | typed/helpers.go:200-226 | items with the same path element agree on every key value, defaults included |
| `ListKeys.DefaultedIs` | typed/helpers.go:200-226 | a path element shows which keys of its item are at their defaults, written out or left out |
| `ElementTheory.KeyedElementIs` | typed/helpers.go:200-226 | an item of a list with keys has a path element exactly if it is a map with a value or default for every key; the element holds exactly these, sorted by name |
| `ElementTheory.SetElementIs` | typed/helpers.go:228-259 | without keys exactly scalars have a path element, themselves; items of lists that are not associative have none |
| `ValidateWalk.Validate` | typed/validate.go:84-205 | the validating walk succeeds exactly if the value is valid for its type, duplicates allowed or not |
| `ValidateWalk.VisitListItems` | typed/validate.go:126-155 | the loop with its observed keys accepts exactly lists of valid items with path elements, distinct unless allowed otherwise |
| `ValidateWalk.VisitMapItems` | typed/validate.go:173-191 | stopping at an undeclared field or going through all fields accepts exactly maps of valid, known fields |
| `ValidTheory.ValidIff` | typed/validate.go:84-205 | on every schema a value is valid exactly if every node, inside atomic containers too, is of a kind its type takes: numbers for numeric or untyped, null for any, maps with known fields, lists with distinct path elements |
| `NarrowTheory.Overridden` | schema/elements.go:286-353 | a reference's relationship replaces that of its map, or else of its list, and nothing more; on a scalar it is an error |
| `ElementSets.Search` | fieldpath/element.go:197-211 | binary search finds the first element that does not come before the one sought |
| `ElementSets.Has` | fieldpath/element.go:286-297 | membership |
| `ElementSets.Insert` | fieldpath/element.go:197-211 | adds one element and keeps the list strictly sorted |
| `ElementSets.Union` | fieldpath/element.go:214-238 | the two-pointer loop is set union, sorted |
| `ElementSets.Intersection` | fieldpath/element.go:241-258 | the two-pointer loop is set intersection, sorted |
| `ElementSets.Difference` | fieldpath/element.go:261-280 | the two-pointer loop is set difference, sorted |
| `ElementSets.SortedUnique` | fieldpath/element.go:300-310 | strictly sorted lists with the same elements are the same list |
| `ElementMaps.PathElementMap.Insert` | fieldpath/pathelementmap.go:84-99 | overwriting or shifting keeps the order and maps exactly that element to the new value |
| `ElementMaps.PathElementMap.Get` | fieldpath/pathelementmap.go:103-114 | binary search returns the mapped value, or nothing |
| `Tries.CanonicalUnique` | fieldpath/set.go:174-176 | canonical tries with the same paths are the same trie |
| `TrieAccess.Insert` | fieldpath/set.go:49-63 | adds exactly one path, not the empty one, and stays canonical |
| `TrieAccess.InsertBelow` | fieldpath/set.go:264-279 | descending creates or replaces one child and adds exactly the path |
| `TrieAccess.Has` | fieldpath/set.go:155-171 | membership in the path set |
| `TrieAccess.Get` | fieldpath/set.go:301-313 | finds the child of an element if there is one |
| `TrieAccess.WithPrefix` | fieldpath/set.go:201-207 | the paths below an element |
| `TrieOps.Union` | fieldpath/set.go:66-71 | union of path sets, canonical |
| `TrieOps.UnionNodes` | fieldpath/set.go:332-358 | the two-pointer loop over children: union of the paths below them |
| `TrieOps.Intersection` | fieldpath/set.go:76-81 | intersection of path sets, canonical |
| `TrieOps.IntersectNodes` | fieldpath/set.go:361-380 | the loop over children: intersection, with empty children dropped |
| `TrieOps.Difference` | fieldpath/set.go:92-97 | exact difference of path sets, canonical |
| `TrieOps.DifferenceNodes` | fieldpath/set.go:383-410 | the loop over children: exact difference, with empty children dropped |
| `TrieOps.RecursiveDifference` | fieldpath/set.go:108-113 | keeps exactly the paths that have no prefix in the other set |
| `TrieOps.RecursiveDifferenceNodes` | fieldpath/set.go:419-452 | the same for the paths below children |
| `TrieOps.Empty` | fieldpath/set.go:147-152 | empty exactly if it has no path |
| `TrieViews.Size` | fieldpath/set.go:140-142 | the number of paths |
| `TrieViews.Iterate` | fieldpath/set.go:190-197 | visits every path exactly once |
| `TrieViews.IteratePrefix` | fieldpath/set.go:194-197 | the same below a prefix: every path once, with the prefix in front |
| `TrieViews.Equals` | fieldpath/set.go:174-176 | true exactly if the path sets are equal |
| `TrieViews.EqualIff` | fieldpath/set.go:316-329 | structural equality of canonical tries is equality of path sets |
| `TrieClosures.Leaves` | fieldpath/set.go:211-241 | exactly the maximal paths, canonical |
| `TrieClosures.LeafMembers` | fieldpath/set.go:217-235 | the nested two-index loop keeps the members that have no child |
| `TrieClosures.EnsureNamedFieldsAreMembers` | fieldpath/set.go:119-137 | adds exactly the declared fields that lead to a path of the set |
| `TrieClosures.EnsureIsClosure` | fieldpath/set.go:115-137 | that closure is extensive, idempotent and distributes over union |
| `TrieClosures.RecursiveDifferences` | fieldpath/set.go:99-113 | recursive differences in a row are one recursive difference by the union |
| `Serialization.EmitContents` | fieldpath/serialize.go:79-165 | the entries written for a set, with a dot if its own path is a member too |
| `Serialization.EmitListed` | fieldpath/serialize.go:96-163 | the three loops over members and children write one entry per element, in order |
| `Serialization.EncodedKeys` | fieldpath/serialize.go:79-165 | written keys are distinct and, after an optional dot, strictly increasing |
| `Serialization.Read` | fieldpath/serialize.go:183-238 | reading gives a canonical set with exactly the paths the entries stand for, the last non-empty one counting for a repeated key, and its own membership |
| `Serialization.ReadChild` | fieldpath/serialize.go:202-231 | one entry sets the membership of its element and replaces what lies below it |
| `Serialization.AddMember` | fieldpath/serialize.go:207-215 | appending where possible and inserting otherwise adds the element in order |
| `Serialization.PutChild` | fieldpath/serialize.go:223-229 | appending where possible and replacing otherwise sets the child of the element |
| `Serialization.ReadEncoded` | fieldpath/serialize.go:79-238 | reading what was written restores the paths and the membership flag |
| `Serialization.RoundTrip` | fieldpath/serialize.go:36-180 | writing and reading back restores every canonical set |
| `Serialization.PermutedSame` | fieldpath/serialize.go:183-238 | permuting distinct keys at any level does not change what is read |
| `ListMergeTheory.PlanComplete` | typed/merge.go:192-275 | every right item is emitted once in the right's order and every left-only item once in the left's, also with duplicates on the left |
| `ListMergeTheory.PlanRestricted` | typed/merge.go:192-275 | the output keys restricted to the right are the right; restricted to others, the left's others |
| `ListMergeTheory.PlanKeepsLeft` | typed/merge.go:192-275 | if both sides agree on the order of shared keys, the output keeps the left's order as well |
| `ListMergeTheory.PlanIdentity` | typed/merge.go:192-275 | if the right is a subsequence of the left, the output has the left's order |
| `ListMergeTheory.PlanSources` | typed/merge.go:192-275 | no key is emitted twice if neither side repeats one |
| `ListMergeTheory.LeftNeighbours` | typed/merge.go:207-275 | without duplicates, a left-only item comes out directly after the item before it on the left, or first, unless the right orders that item elsewhere and it comes out later |
| `ListMergeTheory.TailPlaces` | typed/merge.go:207-275 | once the right has no more shared items, also with repeated keys on the left: the left's rest comes out in order, with the next right item in the place of each item already merged |
| `MergeWalk.IndexListPathElements` | typed/merge.go:285-315 | the index of a list by path element, null for repeated ones; errors for items without an element and for forbidden duplicates |
| `MergeWalk.SharedOrder` | typed/merge.go:192-198 | the shared keys in the right's order |
| `MergeWalk.Round` | typed/merge.go:207-275 | one round of the loop, with next shared key and merged keys kept up to date, makes exactly the planned move |
| `MergeWalk.MergingWalker.MergeListItems` | typed/merge.go:168-283 | the loop terminates and emits exactly the planned items |
| `MergeWalk.MergingWalker.Merge` | typed/merge.go:71-100 | the walker leaves the merged value and error status of the merge function; `KindTheory.KindsMerged` says what that is for operands of different kinds |
| `MergeWalk.MergingWalker.HandleAtom` | typed/helpers.go:142-158 | the walk of one kind: map before scalar before list, or an error |
| `MergeWalk.MergingWalker.DoMap` | typed/merge.go:401-427 | atomic or doubly empty maps as leaves, others field by field, nothing written if nothing remains |
| `MergeWalk.MergingWalker.DoList` | typed/merge.go:340-367 | atomic or doubly empty lists as leaves, others item by item |
| `MergeWalk.MergingWalker.DoScalar` | typed/merge.go:116-128 | an error exactly if neither side is a valid scalar |
| `MergeWalk.MergingWalker.VisitMapItems` | typed/merge.go:386-399 | visiting keys in any order merges every field once |
| `MergeWalk.MergingWalker.DoLeaf` | typed/merge.go:104-114 | a leaf is decided once, by the right operand if present |
| `MergeWalk.MergeObjects` | typed/typed.go:204-249 | merging two typed values |
| `MergeTheory.MergeValid` | typed/merge.go:71-427 | merging valid objects reports no error and gives a valid object |
| `MergeTheory.MergeAlone` | typed/merge.go:71-100 | merging with nothing gives the operand back, from either side |
| `MergeTheory.MergedElement` | typed/merge.go:317-327 | a merged list item keeps its path element, key defaults included |
| `MergeTheory.MergeAt` | typed/merge.go:340-427 | the node of the result at any path is the merge of the operands' nodes |
| `MergeTheory.MergePaths` | typed/merge.go:340-427 | the result has exactly the paths of both operands |
| `MergeTheory.MergeBias` | typed/merge.go:57-68 | what only one side has is kept unchanged; at leaves the right value wins |
| `DiffTheory.MergeChanges` | typed/merge.go:71-427 | comparing the left with the result: nothing removed, additions and modifications at the right's paths only |
| `Absorption.MergeHolds` | typed/merge.go:340-427 | the result holds every leaf of the right and its list order, duplicates on the left allowed |
| `Absorption.MergeHeld` | typed/merge.go:168-283 | merging what an object already holds changes nothing |
| `Absorption.MergeIdempotent` | typed/merge.go:71-114 | merging an object with itself gives it back |
| `Absorption.MergeAbsorbs` | typed/merge.go:340-427 | merging the right operand a second time changes nothing, null versus empty containers and left duplicates included |
| `KindTheory.KindsMerged` | typed/merge.go:81-94 | on every schema, operands that deduce different atoms: the left one contributes nothing, except exactly if the right one is of no kind of the type and the left one is a map to walk; then the right one contributes nothing |
| `KindTheory.KindReplaces` | typed/merge.go:81-94 | a right operand of a kind the type has replaces a left one of any other kind |
| `KindTheory.ScalarReplaces` | typed/merge.go:81-94 | where the type has a scalar kind, a scalar on the right comes out as it is |
| `KindTheory.OtherKindReplaces` | typed/merge.go:81-94 | a right operand of no kind of the type, such as null, replaces the left one unless that one has children to walk; then it is ignored |
| `KindTheory.ScalarFails` | typed/merge.go:116-128 | a merge with a scalar on the right fails exactly if the left operand alone does, or neither is a scalar that the type takes |
| `KindTheory.KindsFail` | typed/merge.go:81-94 | operands of different kinds: an error exactly if one alone gives one, or a scalar does not fit its type and the other operand is not null |
| `KindTheory.EmptyOnlyGiven` | typed/merge.go:277-280 | a merge makes no empty container of its own: one comes out only as the operand that is kept |
| `KindTheory.DeducedMerge` | typed/parser.go:129-147 | merging objects without a schema never fails and overlays the left with the right, key by key to any depth |
| `KindTheory.OverlayAbsorbs` | typed/parser.go:129-147 | overlaying once more changes nothing |
| `KindTheory.ReplacedOrKept` | typed/parser.go:129-147 | an input each way: a string replaces a map with fields, and null does not |
| `RepeatedItems.MergedRuns` | typed/merge.go:168-315 | with repeated keys on the left: under each path element the left's run if the right has none, the right's item alone if the left repeats it, else the two items merged |
| `RepeatedItems.MergeOverNull` | typed/merge.go:308-311 | null on the left counts as nothing |
| `FailTheory.MergeFailsIff` | typed/merge.go:71-100 | on every schema and for all values, a merge fails exactly if some pair of nodes it reaches through fields cannot be merged; what goes wrong inside list items is not reported |
| `NarrowTheory.Narrowed` | typed/helpers.go:120-140 | validating, merging, comparing, removing from and listing a value treat a type with several kinds as a type of the value's kind alone |
| `NarrowTheory.NarrowedPair` | typed/helpers.go:120-140 | so do merging and comparing two values of one kind |
| `CompareTheory.CompareSymmetric` | typed/compare.go:97-460 | swapping operands swaps added with removed and keeps modified, on every schema, duplicates and multi-kind atoms included |
| `CompareTheory.CompareAt` | typed/compare.go:97-152 | per path: added, removed or modified exactly if the nodes say so |
| `CompareTheory.CompareExact` | typed/compare.go:97-460 | no error; added and removed are the set differences of the paths, modified lies in both |
| `RepeatTheory.CompareRuns` | typed/compare.go:206-327 | with repeated keys, at every path and depth: removed exactly if the left has something and the right nothing, or one side repeats it and the other does not; added likewise; modified exactly if both repeat it and the runs differ, or single nodes differ as a whole |
| `RepeatTheory.RunsOk` | typed/compare.go:206-327 | comparing valid objects with repeated keys reports no error |
| `RepeatTheory.GroupExact` | typed/compare.go:206-268 | the run of a path element has all items with that element, in list order |
| `NarrowTheory.KindsCompared` | typed/compare.go:106-124 | on every schema, values of two kinds: what is below the left one is removed, what is below the right one added, and the node modified exactly if one of them is compared as a whole |
| `FailTheory.CompareFailsIff` | typed/compare.go:97-460 | on plain schemas and for all values, a comparison fails exactly if some pair of nodes it reaches cannot be compared |
| `RepeatTheory.NoDifferenceIff` | typed/compare.go:44-46 | with repeated keys or without, all three sets are empty exactly if every path element of a list selects equal runs where it is repeated and the same item up to order elsewhere, and all else is equal |
| `DiffTheory.SameObjectsIff` | typed/typed.go:142-181 | the same for whole objects with a map root, repeated keys included, where only null and an empty root are not told apart |
| `CompareWalk.GatherItems` | typed/compare.go:224-268 | items grouped by path element in order, and each element listed once |
| `CompareWalk.CompareWalker.Compare` | typed/compare.go:97-130 | the walker adds to the shared sets exactly the node's comparison, placed at its path |
| `CompareWalk.CompareWalker.HandleBoth` | typed/compare.go:112-121 | operands of different kinds are walked as both kinds, into the same sets |
| `CompareWalk.CompareWalker.VisitMapItems` | typed/compare.go:409-432 | visiting keys in any order adds every field's comparison, below its name |
| `CompareWalk.CompareWalker.VisitListItems` | typed/compare.go:206-330 | grouping and comparing adds every group's comparison, below its path element |
| `CompareWalk.CompareWalker.VisitGroup` | typed/compare.go:269-327 | items one to one, repeated ones as runs: the comparison that `RepeatTheory.CompareRuns` describes path by path |
| `CompareWalk.CompareWalker.DoLeaf` | typed/compare.go:134-152 | a leaf is compared once as a whole |
| `CompareWalk.Changes.IsSame` | typed/compare.go:44-46 | true exactly if nothing was recorded |
| `CompareWalk.Changes.ExcludeFields` | typed/compare.go:65-73 | drops the fields and everything below them from all three sets |
| `RemoveWalk.RemoveItemsWithSchema` | typed/remove.go:36-46 | the walker leaves what the remove or extract function gives |
| `RemoveWalk.RemovingWalker.DoMap` | typed/remove.go:106-165 | what is left of a map: null unless a field is kept |
| `RemoveWalk.RemovingWalker.DoList` | typed/remove.go:53-104 | what is left of a list: null unless an item is kept |
| `RemoveWalk.RemovingWalker.VisitItem` | typed/remove.go:76-99 | what is kept of a list item in both modes |
| `RemoveWalk.RemovingWalker.VisitField` | typed/remove.go:133-158 | what is kept of a map field in both modes; `ExtractLeaves.ExtractShows` and `RemoveTheory.KeptExact` say what that amounts to |
| `RemoveTheory.KeptExact` | typed/remove.go:36-165 | with key defaults or without: if kept list items keep their path elements, the result is valid, exactly the paths without a removed prefix survive, and leaf values are unchanged |
| `RemoveTheory.LeafLeft` | typed/remove.go:62-72 | a leaf that is not removed itself stays, except that null is left of an atomic container if something below it is to be removed |
| `RemoveIff.RemoveExactIff` | typed/remove.go:53-165 | a removal out of atomic containers is exact if and only if no item that is there and stays is left without any field or loses a key that is not at its default |
| `RemoveIff.KeysStayIff` | typed/remove.go:53-165 | kept list items keep their path elements under exactly that condition on the object and the removed set |
| `RemoveIff.NoElementChanges` | typed/remove.go:76-104 | if what is left of the items has the old path elements in any order, each item has kept its own |
| `ItemTheory.ElementStaysIff` | typed/remove.go:76-99 | one item keeps its path element exactly if it keeps some field and every key that is not at its default |
| `RemoveIff.RemoveExact` | typed/remove.go:36-165 | on anchored schemas removal is exact for any set that holds the item wherever it holds a key of it that is not at its default |
| `RemoveIff.RemoveAt` | typed/remove.go:53-165 | if removal is exact, the node left at a path is what remains of the node there, unless a prefix was removed |
| `RemoveFusion.RemoveFuses` | typed/remove.go:36-165 | on every schema, removing two sets in turn is removing their union, if the first leaves list keys alone |
| `DiffTheory.RemovalsFuse` | typed/remove.go:36-165 | removing two sets in turn is removing their union, under the condition on the object and the first set that makes its removal exact |
| `DiffTheory.CompareLeftIff` | typed/compare.go:206-268 | comparing with what a removal left reports an error exactly if a list item that stays was left without any field |
| `FieldSetWalk.ToFieldSet` | typed/typed.go:107-125 | the walker collects exactly the field set, and reports exactly its errors |
| `FieldSetWalk.FieldSetWalker.ToFieldSet` | typed/tofieldset.go:86-88 | a node's walker inserts exactly what the node mentions, placed at its path |
| `FieldSetWalk.FieldSetWalker.VisitMapItems` | typed/tofieldset.go:151-171 | inserts what every field mentions, and the field itself if it is null, an empty map or undeclared |
| `FieldSetWalk.FieldSetWalker.VisitListItems` | typed/tofieldset.go:96-130 | inserts repeated path elements, and the other items with what they mention |
| `FieldSetWalk.FieldSetWalker.MarkDuplicates` | typed/tofieldset.go:96-114 | the first loop inserts and returns exactly the repeated path elements |
| `FieldSetWalk.FieldSetWalker.VisitSingles` | typed/tofieldset.go:116-129 | the second loop visits exactly the other items |
| `OwningTheory.FieldSetIn` | typed/tofieldset.go:90-190 | a path is in the field set exactly if its node is a leaf, a list item, undeclared, null or an empty map |
| `RepeatedItems.FieldSetRuns` | typed/tofieldset.go:96-130 | the same with repeated keys: a repeated item is in the set once, and nothing below it is |
| `FailTheory.FieldSetFailsIff` | typed/tofieldset.go:86-190 | on every schema and for all values, a field set cannot be read exactly if the walk gets to a node whose type has no kind |
| `FailTheory.PruneFailsIff` | merge/update.go:219-329 | on every schema, pruning fails exactly if something was owned last time and the merged object, or what the first or second pass leaves, has such a node |
| `OwningTheory.FieldSetOwned` | typed/tofieldset.go:96-190 | the field set has only paths of the object, and list items exactly with their keys that are not at defaults |
| `OwningTheory.EnsureOwned` | fieldpath/set.go:115-137 | closing an owned set under named fields adds no leaf and no list item |
| `OwningTheory.EnsurePlausible` | fieldpath/set.go:115-137 | the same for paths that need not be in one object: the closure adds no leaf and no list item, and keeps items with their keys |
| `LeftoverTheory.LeftMentions` | typed/tofieldset.go:90-190 | what the closed field set of a removal's result has, items without path elements included, in terms of the object and the removed set |
| `LeftoverTheory.TouchesIff` | typed/tofieldset.go:90-190 | something at or below a path is still mentioned exactly if no step of it is removed or emptied and it is not a declared field with only empty lists left |
| `LeftoverTheory.SilentAt` | typed/tofieldset.go:132-171 | a node mentions nothing at or below itself exactly if it is a declared field with nothing but empty lists |
| `KeyTheory.ComparisonOwned` | typed/compare.go:206-327 | the sets of a comparison never split a list item from a key that is not at its default |
| `ReconcileTheory.TruncatedFirst` | typed/reconcile_schema.go:182-248 | a path is cut at the first atomic container it leads through, and only there |
| `ReconcileTheory.CutsTruncate` | typed/reconcile_schema.go:119-146 | removing all cuts recursively and adding them back truncates every path |
| `ReconcileTheory.ReconcileTwice` | typed/reconcile_schema.go:111-146 | reconciling twice changes nothing more |
| `CutTheory.TruncateIs` | typed/reconcile_schema.go:182-248 | on every schema, by the types a path leads to: it ends at its first step to an atomic map or list, if no untyped map comes before and the root is not atomic; otherwise it stays |
| `CutTheory.ReconciledIs` | typed/reconcile_schema.go:119-146 | a reconciled set has exactly the paths so shortened, and none of them goes on below a cut |
| `CutTheory.NoneBelowAtomic` | typed/reconcile_schema.go:182-248 | a reconciled path goes on below an atomic type only from an atomic root or through an untyped map |
| `CutTheory.UntypedStays` | typed/reconcile_schema.go:224-230 | paths that lead to an untyped map before anything atomic stay as they are |
| `CutTheory.AtomicRootStays` | typed/reconcile_schema.go:182-248 | if the root is atomic all paths stay as they are |
| `CutTheory.ReconcileFailsIff` | typed/reconcile_schema.go:148-155 | reconciling fails exactly if the walk along some path gets to a type without a kind |
| `CutTheory.ReachedIsTypeAt` | typed/reconcile_schema.go:200-222 | along the path of a node these types are the types of the nodes it leads through |
| `ReconcileWalk.Walker.Reconcile` | typed/reconcile_schema.go:148-155 | a walker accumulates exactly the cuts of its set in both sets, over whatever was accumulated before |
| `ReconcileWalk.Walker.DoMap` | typed/reconcile_schema.go:224-248 | deduced maps are left alone, atomic ones cut, others descended into |
| `ReconcileWalk.Walker.DoList` | typed/reconcile_schema.go:182-198 | atomic lists are cut, others descended into, as `CutTheory.ReconciledIs` describes by the types of the schema |
| `ReconcileWalk.Walker.VisitItems` | typed/reconcile_schema.go:161-222 | children that are no members, then members: together all cuts of the set |
| `ReconcileWalk.Walker.HandleElement` | typed/reconcile_schema.go:60-109 | a descent adds what it finds below one element to both sets |
| `ReconcileWalk.ReconcileFieldSet` | typed/reconcile_schema.go:119-146 | errors, no change or the new set: in each case the image of the set under truncation |
| `PruneTheory.PruneExact` | merge/update.go:219-329 | whatever managers own, in the merged object or not: leaves owned last time and by nobody now are gone, nothing goes that has no prefix in the closed last set, and what stays has its merged leaf values, unless a kept item is emptied; on anchored schemas none is, and all paths of solid configurations survive |
| `PruneTheory.ConfigKept` | merge/update.go:247-300 | on anchored schemas no prefix of a mentioned path of a solid configuration is removed |
| `PruneTheory.OrphanDropped` | merge/update.go:308-329 | a leaf that is there, owned last time and by nobody now, is removed |
| `PruneTheory.PassesAre` | merge/update.go:276-329 | what the second and third pass remove, in terms of the merged object, the managed set and the last set |
| `PruneTheory.PruneKeepsIff` | merge/update.go:219-329 | a configuration path survives pruning exactly if no step of it is lost, as an emptied item or as a barren field, whatever else managers own |
| `PruneTheory.LeafKept` | merge/update.go:219-329 | no managed leaf with managed steps is lost, nor anything that leads to it |
| `RunTheory.UpdateSafe` | merge/update.go:144-171 | an update always succeeds and keeps the state safe |
| `RunTheory.UpdateLeafSafe` | merge/update.go:144-171 | on every plain schema an update succeeds, keeps every owned leaf present with its written value, and makes no owned path missing |
| `TransferTheory.UpdateTakes` | merge/update.go:144-171 | after an update the writer owns exactly what it changed and what it owned and did not drop; every other manager exactly what it owned and the update neither changed nor dropped |
| `TransferTheory.LeafStaysIff` | merge/update.go:219-329 | an owned leaf, with all that leads to it declared, mentioned or owned by others, stays in an apply exactly if the configuration has it or another manager owns it |
| `TransferTheory.FlagsKept` | merge/update.go:144-213 | on every schema a manager is recorded as applied exactly if its last write was an apply |
| `TransferTheory.WritesReconcile` | merge/update.go:144-181 | on every schema and in every state an update or apply is that of the reconciled state, or fails if a set cannot be reconciled |
| `TransferTheory.NobodyBelowCuts` | merge/update.go:144-213 | so after any write no other manager owns a path that goes on below a cut |
| `RunTheory.ApplyLeafSafe` | merge/update.go:176-213 | on every plain schema an apply of any valid configuration keeps every owned leaf present with its written value; what its manager then misses is exactly what it lost, and others miss nothing new |
| `RunTheory.StepLeafSafe` | merge/update.go:144-213 | any one step of a valid object keeps the state leaf-safe; a schema error means an emptied item, a conflict an unforced apply |
| `RunTheory.RunLeafSafe` | merge/update.go:66-213 | on every plain schema: after every run of valid steps no entry is empty and every owned leaf is there with the value its manager last wrote |
| `RunTheory.ApplySafe` | merge/update.go:176-213 | on anchored schemas an apply of a solid configuration keeps the state safe and can fail by conflict only |
| `RunTheory.StepSafe` | merge/update.go:144-213 | on anchored schemas any one step keeps the state safe; only an unforced apply can fail, by conflict |
| `RunTheory.RunSafe` | merge/update.go:66-213 | on anchored schemas: after every run of updates, applies of solid configurations and forced applies, all that is owned is there, leaves with the value last written |
| `RunTheory.CoOwnersAgree` | merge/update.go:66-213 | on every plain schema and after every run of valid steps, co-owners of a leaf last wrote the same value, which is the live one |
| `RunTheory.ApplySafeIff` | merge/update.go:176-213 | on every plain schema an apply of any valid configuration fails exactly if it empties a kept item, and keeps the state safe exactly if it loses no path |
| `LossTheory.RunSafeIff` | merge/update.go:66-213 | on every plain schema a run of valid steps is safe throughout exactly if none of its applies loses a path, and leaf-safe in any case |
| `LossTheory.MissingWasLost` | merge/update.go:66-213 | after any run of valid steps, a path that a manager owns and that is not there was missing before or lost by an apply of that manager |
| `RunTheory.SolidLossless` | merge/update.go:176-213 | on anchored schemas solid configurations are applied without loss in every leaf-safe state |
| `RunTheory.ApplyFailsIff` | merge/update.go:66-72 | an apply in a leaf-safe state reports a schema error exactly if it leaves a kept list item without any field |
| `RunTheory.AnchoredApplies` | merge/update.go:176-213 | on anchored schemas no apply leaves a kept list item without any field |
| `RunTheory.FirstApply` | merge/update.go:176-213 | applying to an empty object gives the configuration, owned as its field set |
| `RunTheory.LostPath` | merge/update.go:176-213 | a lost path is owned by the applying manager and not in the object |
| `PortListExample.PortListAnchored` | merge/default_keys_test.go:27-50 | ports keyed by port and by a protocol with a default are anchored |
| `PortListExample.PortListSafe` | merge/default_keys_test.go:27-50 | ownership is safe over every run on such a list, with the protocol written out or not |
| `HollowExample.HollowConfigLost` | merge/update.go:219-329 | for every plain schema with a declared map holding a list and a leaf: after one apply from the empty object, an apply after which the manager owns a path that is not there |
| `HollowExample.LostWithoutConflict` | merge/update.go:108-120 | on the same schemas: after two applies from the empty object, an unforced apply that removes a path another manager owns and the configuration changes, without a conflict |
| `KeyDefaultExample.DefaultedItemLost` | merge/update.go:219-329 | for every plain schema with a list keyed by one defaulted key: after one apply from the empty object, an apply of a solid configuration that owns a list item it has just pruned |
| `KeyDefaultExample.EmptiedItemFails` | merge/update.go:66-72 | on the same schemas: after one apply and one update from the empty object, an apply of a valid configuration that reports a schema error, forced or not |
| `KeyDefaultExample.RemovalNotExact` | typed/remove.go:53-165 | on the same schemas: removing the one field of an item that leaves its key to the default also takes the item's own path |
| `ConflictTheory.ConflictsExact` | merge/update.go:108-120 | an unforced apply of any valid configuration in a leaf-safe state conflicts if and only if it empties no kept item and some path is contested, and names exactly the contested paths, leaves and containers alike, changed or put back |
| `ConflictTheory.ForcedTakesContested` | merge/update.go:118-134 | a forced apply takes exactly the contested and the removed paths away; others keep the rest |
| `ConflictTheory.LeafContested` | merge/update.go:108-120 | a leaf is contested exactly if another manager owns it and the configuration has another value |
| `ConflictTheory.AppliedLeaf` | merge/update.go:176-213 | the persisted object has the configuration's leaves, and otherwise leaves of the live object |
| `IdempotenceTheory.ApplyIdempotent` | merge/update.go:176-213 | on every plain schema and in every leaf-safe state, applying a dense configuration again, forced or not, has no conflict and changes neither the object nor any manager |
| `IdempotenceTheory.AppliedState` | merge/update.go:176-213 | after an apply of a dense configuration in any leaf-safe state the object holds it, and the manager owns exactly its field set, of which nothing is missing |
| `IdempotenceTheory.DenseLossless` | merge/update.go:176-213 | on every plain schema dense configurations are applied without loss in every leaf-safe state |
| `DenseTheory.HoldsTrimmed` | typed/remove.go:53-165 | an exact removal of other paths leaves a held dense configuration held |
| `IdempotenceTheory.ExtractUndoesApply` | typed/remove.go:36-165 | from the object after an apply, the leaves of the manager's set extract the configuration |
| `ExtractTheory.ExtractUndoesMerge` | typed/remove.go:36-165 | extracting the leaves a dense configuration mentions from the merge gives it back, list order included |
| `ExtractTheory.DenseLeaves` | fieldpath/set.go:209-241 | the leaves of a dense object's field set are the paths to its leaves |
| `ExtractLeaves.ExtractShows` | typed/remove.go:53-165 | for every plain schema, valid object and any set: extraction shows a leaf exactly if some path to it can be followed, each step being a member, after which the set stays, or leading to a path, after which what lies below is the set |
| `ExtractLeaves.ExtractNullIff` | typed/remove.go:100-103 | a granular container comes out as null exactly if none of its own elements starts a path of the set |
| `ExtractLeaves.MemberField` | typed/remove.go:142-148 | a field that is a member comes out, and a container there as null exactly if none of its own elements starts a path |
| `ExtractLeaves.MemberItem` | typed/remove.go:83-89 | the same for list items |
| `ExtractLeaves.ExtractedFields` | typed/remove.go:133-158 | exactly the fields that start a path come out |
| `ExtractLeaves.ExtractedItems` | typed/remove.go:74-99 | exactly the items that start a path come out, in list order, an item that is a member and has paths below twice |
| `Updaters.TakeOver` | merge/update.go:66-137 | the loops over managers give the state machine's outcome: conflicts, failure, or the remaining sets |
| `Updaters.ConflictSets` | merge/update.go:78-116 | exactly the other managers that own something modified or added, with what they own of it |
| `Updaters.Subtract` | merge/update.go:122-128 | takes from each named manager exactly its set |
| `Updaters.DropEmpty` | merge/update.go:130-134 | deletes exactly the managers that own nothing |
| `Updaters.Rest` | merge/update.go:113-134 | conflicts and removals subtracted and empty entries dropped: what is left to every manager |
| `Updaters.ReconcileManagers` | merge/update.go:337-358 | every set reconciled, or an error if one cannot be |
| `Updaters.Update` | merge/update.go:144-171 | the update of the state machine, on tries |
| `Updaters.Claim` | merge/update.go:154-170 | the writer owns what it changed besides what it owned, less what it removed, or has no entry |
| `Updaters.AddBackOwned` | merge/update.go:276-304 | the second pass of pruning, on tries |
| `Updaters.AddBackDangling` | merge/update.go:308-329 | the third pass of pruning, on tries |
| `Updaters.Prune` | merge/update.go:219-244 | the three passes of the state machine, on tries |
| `Updaters.ManagedSet` | merge/update.go:247-258 | the union of all managers' sets |
| `Updaters.Apply` | merge/update.go:176-213 | the apply of the state machine, on tries: no object is returned exactly if none is asked for on a no-op and the persisted object equals the live one; otherwise the persisted one is |
| `Updaters.ConflictsFromManagers` | merge/conflict.go:108-121 | lists every owned path of every manager in conflict exactly once |
| `Updaters.ToSet` | merge/conflict.go:99-105 | the set of all conflicting paths |
| `Runs.Run` | merge/update.go:66-213 | any run on tries, on any schema and whether or not unchanged objects are returned, ends in the state machine's state; that state is leaf-safe on plain schemas with valid steps, and safe on anchored schemas with admissible steps |
| `Runs.Perform` | internal/fixture/state.go:113-159 | one step on tries, with the live object kept where an apply returns none, gives the state machine's state or leaves everything as it is |
| `Runs.ApplyLeaves` | merge/update.go:209-212 | in a leaf-safe state a returned object has every leaf of the configuration with its value; none is returned only if the live object already has them all |

## Left out

- Reflection-backed values, allocators, freelists, pools and spare walkers: they are not meant to change results; values are an unstructured tree.
- Numbers are exact: integers beyond 2^53, whose comparison goes through float64, and infinities are not modelled.
- Byte-level JSON and YAML: the serialized form is a tree whose keys are already path elements, a dot or unknown; malformed keys and values that are not objects are not modelled.
- More than one API version: conversion between versions has no stated laws; all sets are at one version.
- Ignored fields in updates and applies; `ExcludeFields` itself is modelled.
- A merge that reports no error but leaves no value, which needs list items that fail to merge, counts as a failure of Apply here.
- In-place editing and aliasing inside tries: a trie is a value, the methods on it return the changed trie, and only the walkers' shared sets are updated in place.
- Error messages and their paths: an operation reports whether there is an error.
- Sorting of strings and of three or more key fields is a library call, modelled by its result.
- Schema equality, schema text and resolution caches.
- RunTheory.RunSafe: that owned list items and containers are there is not covered for configurations that are not solid or schemas on which a list has defaults for all its keys, because it is false of the code there (see above); owned leaves are covered by `RunTheory.RunLeafSafe`, and `LossTheory.RunSafeIff` gives the exact condition for the rest.
- RemoveIff.RemoveExact: does not cover schemas that are not anchored, because an item emptied by the removal loses its path element; `RemoveIff.RemoveExactIff` covers them.
- PruneTheory.ConfigKept: is stated for solid configurations on anchored schemas; `PruneTheory.PruneKeepsIff` gives the exact condition for all others.
