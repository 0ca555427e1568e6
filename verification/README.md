# function-kcl: a model of its stateful core

function-kcl is a Crossplane composition function. It renders KCL source into Kubernetes objects and folds them into
the desired state of a composite resource. This project models the parts of it that carry state and branching, and
proves what they promise.

* **The patch engine** (`pkg/resource/res.go`). `SetData` walks a patch, prints a field path for every leaf and writes
  each leaf through that path, into an object it shares with its caller. Map keys are visited in no fixed order. The
  main theorem: on patches whose keys a path text can carry, this run of path-addressed writes fails or succeeds as a
  recursive overlay of two trees does and builds the same object, whatever the order; and on every other patch it
  does not. For patches with any keys at all: exactly when all visiting orders agree, and exactly which scalars are
  left at which paths. Around it: which paths parse back, what an overlay keeps and changes, how patches are routed to
  named resources, and the five targets of `ProcessResources`.
* **The render cache** (`rendercache.go`). A hash map into a doubly linked ring, with real nodes, proved to refine a
  recency list; then, over whole traces: recency order, retention, the stack (inclusion) property, and soundness under
  every interleaving of handlers.
* **The drain protocol** (`recycle.go`). Calls, the goroutine that takes the write gate and the watchdog as interleaved
  atomic steps. Safety includes the calls that read the flag before it flipped and have not locked yet, and says which
  calls get no answer; progress is a measure that every drain step lowers and no new call raises.
* **One call of `RunFunction`** (`fn.go`): the recycler's bracket around the cached render.
* **Three smaller pieces**: the JSON printer for parameters (`render.go`), `SetConditions`
  (`pkg/resource/conditions.go`) and the YAML normalizer (`pkg/resource/res.go`).

## How to read it

| file | content |
|---|---|
| `JsonTree`, `PathText`, `FieldPath` | JSON values; printing and parsing of field paths; reading and setting at a path |
| `Overlay`, `AnyOrder`, `OverlayFacts` | the overlay; any order of leaf writes is the overlay; what an overlay guarantees |
| `SetDataSpec`, `SetDataOrders`, `SetData` | textual writes and their meaning; runs part way; SetData itself |
| `WrappedKeys`, `UnsafeKeys` | when keys are bracketed; what goes wrong with a dotted key |
| `Misreading`, `KeyCondition` | what an unsafe path is read as; the key condition is exact |
| `IndexReading`, `OrderAgreement`, `PatchOrders` | any keys: texts with list indexes; which two writes may change places; when all visiting orders agree |
| `LastWrites`, `Identity` | any keys: which leaf decides what is at a path; the protection of apiVersion, kind and name |
| `ResourceNames`, `Matching`, `PatchRuns`, `Patching`, `DesiredState`, `DefaultTarget`, `Processing` | names and annotations; routing; patches one after the other; the targets; the dispatcher |
| `TargetFacts`, `DefaultFacts` | what the targets come to, entry by entry and key by key |
| `NamesByPath`, `StatusMerge`, `DefaultByPath`, `TargetsByPath` | names, annotations, merges, items and targets said by paths into the trees |
| `CacheSpec`, `CacheTraces`, `CacheHandlers`, `EntryRing`, `RenderCache` | the cache as a list, over traces, under concurrency, as nodes |
| `Drain`, `Recycler`, `CachedRendering`, `FunctionRun` | the protocol; its object; the cached render; one call |
| `JsonText`, `ParamsJson`, `Conditions`, `Normalize` | RFC 8259 texts; the parameter printer; conditions; YAML trees |

An *ordered tree* (`AnyOrder.Ordered`) is a patch together with one visiting order for each of its maps, so "for every
ordered tree" means "for every order in which Go may range over the maps". Methods that range over a map take an
arbitrary remaining key in each turn; those that patch return, as a ghost result, the orders in which the maps of
their patches were visited, and what they have done is stated for those orders. With safe keys the orders drop out.

A *slot* is a place in a tree: `None` is a missing field, an index past the end or a null list element.

## Assumptions

Code outside the repository is stated here as concrete functions:

* `fieldpath`: a bracket segment made only of digits is an index, otherwise a field; a period needs a name after it; a
  path may not begin with a period and the empty path cannot be set. Reading through an absent place or a null is "not
  found"; through a scalar or the wrong container it is an error. Setting creates missing containers, grows lists with
  nulls and fills a null list element; a scalar, the wrong container or a null map field in the way is an error, and
  a failed set changes nothing.
* `GetAnnotations` is empty as soon as one annotation is not a string; `RemoveAnnotations` of an absent key changes
  nothing.
* `mergo.Merge` with override is a recursive right-biased merge of maps, lists being replaced whole. A null status reads as an empty one, a status that is
  a scalar or a list is a decoding error.
* Two inputs with the same cache digest render alike: the render is deterministic in its input, and the digest (SHA-256)
  does not collide on the inputs used. The cache's own lookup and store run under its mutex and count as atomic.
* `sync.RWMutex`: a pending writer keeps new readers out and waits for the readers inside.
* `encoding/json` escapes keys as `ParamsJson.Escape` does. `sort.Strings` compares the bytes of UTF-8, which is the
  order by code point that `ParamsJson.Less` has.

## Where the code and its documentation differ

The model follows the code. Except for the last one, each difference is shown by a lemma with an input for which it
occurs, beside the exact condition for it.

* `SetData`'s comment says a nil Resource is an error. It is one only if a leaf gets to be written: a patch without
  leaves, or on a composed resource with protected leaves only, succeeds and does nothing
  (`SetDataSpec.NilResourceCanPass`, `SetDataSpec.UnwritableTargetIff`).
* "Do not allow overwriting apiVersion, kind or name" is checked on the text of the path, and three texts do not cover
  all ways to those places. Exactly: through any successful run of patches on a composed resource, whatever the keys and
  orders, such a value stays if and only if no leaf whose text is none of the three is read as its path or as one above
  it, or the last such leaf has the same value (`Identity.ProtectionIff`, `Identity.ProtectionOfAllIff` and, entry by
  entry, `Identity.EntryProtectionIff`). Two families fail. A key spelled in brackets, `"[kind]"` beside the usual
  `metadata.name`, is read as the field kind and overwrites it in an entry of any name (`Identity.KindCanBeOverwritten`,
  `Identity.SpellingGetsThrough`). And with safe keys, a patch whose `metadata` is itself a leaf replaces all of
  metadata (`TargetFacts.MetadataPatchErasesName`); among patches with safe keys it is the only way
  (`OverlayFacts.ProtectedScalarStaysIff`), and since such a patch has no name to be filed by, only the entry filed
  under the empty name can lose its `metadata.name` to it (`TargetFacts.UnnamedEntryCanLoseName`,
  `TargetFacts.EntryIdentityIff`).
* `begin` is said to return false while the process is draining, so that a call is retried instead of being cut off. A
  call that has found the flag down and reaches the gate after the writer has announced itself gets no answer at all:
  it waits there until the process exits, also when the exit is by the drained branch (`Drain.DrainedExitCanCutOff`,
  `Drain.CutOffIffWaiting`).
* `SetConditions` is described as "ensuring no duplicates". A forced condition is appended after the one it overrides,
  so a type can occur several times; the types are distinct if and only if no request forces a type that an earlier
  one has set, and the last occurrence is the one that counts (`Conditions.ForcedTypeOccursTwice`,
  `Conditions.DistinctIffNothingForcedAgain`, `Conditions.LastSurvivorWins`).
* The comment on `AddResourcesTo` says that the Basename names or must match the resource; the code never reads it, and
  the model has none.

## Model

| member | source | states |
|---|---|---|
| `PathText.PrintedPathParsesBackIff` | pkg/resource/res.go:318-340 | the path printed for a list of segments parses back to that very list if and only if every key is safe where it stands |
| `PathText.DecimalReadsBack` | pkg/resource/res.go:336 | a printed list index is digits only and reads back as the same number |
| `WrappedKeys.BracketsExactlyUnderMetadata` | pkg/resource/res.go:314-321 | on safe paths the suffix test on the text brackets a key exactly when it stands under metadata.annotations or metadata.labels, at any depth |
| `UnsafeKeys.OrderMattersForDottedKeys` | pkg/resource/res.go:323-333 | a patch with a dotted key for which two visiting orders give two different results |
| `Misreading.UnsafePathLoses` | pkg/resource/res.go:318-345 | an unsafe path, if its text can be read at all, is read as a path whose keys are neither empty nor bracketed, and which has less key text if that held of its own keys too |
| `KeyCondition.UnsafeKeysShow` | pkg/resource/res.go:311-392 | every patch with an unsafe key above a leaf, in every visiting order, with and without overwrite, comes out differently from its overlay on the empty object |
| `KeyCondition.KeyConditionIsExact` | pkg/resource/res.go:311-392 | SetData is the overlay on every object if and only if all keys above leaves are safe |
| `FieldPath.GetAfterSet` | pkg/resource/res.go:358-366 | what was set at a path is read back there |
| `FieldPath.BrokenCannotBeSet` | pkg/resource/res.go:358-366 | wherever reading is an error setting is one too, so with overwrite the read never decides alone |
| `AnyOrder.AnyOrderIsOverlay` | pkg/resource/res.go:311-392 | leaf writes in any visiting order fail or succeed as the recursive overlay does and build the same tree |
| `SetDataSpec.PathsParseBackIff` | pkg/resource/res.go:318-345 | all leaf paths of a patch parse back to the segments walked down if and only if the keys above leaves are safe |
| `SetDataSpec.LeafPathsPrefixFree` | pkg/resource/res.go:323-345 | no two leaves of one patch have paths of which one is a prefix of the other |
| `SetDataSpec.PrintingIsInjective` | pkg/resource/res.go:318-345 | safe paths with equal texts are equal |
| `SetDataSpec.ProtectedTextIff` | pkg/resource/res.go:347-351 | among safe paths the three protected texts name exactly apiVersion, kind and metadata.name |
| `SetDataSpec.SetDataIsOverlay` | pkg/resource/res.go:311-392 | for every visiting order, SetData's textual run on composed and composite targets is the overlay of the patch without its protected leaves |
| `SetDataSpec.OrderIsIrrelevant` | pkg/resource/res.go:323-333 | with safe keys any two visiting orders of one patch both fail, or both succeed with the same object |
| `IndexReading.ItemsApart` | pkg/resource/res.go:334-340 | the texts of two elements of one list, whatever the keys before and behind, cannot both be read or lead to places neither of which is above the other |
| `OrderAgreement.SwapWrites` | pkg/resource/res.go:358-366 | two writes through incomparable paths may change places, failures included |
| `OrderAgreement.CommuteIff` | pkg/resource/res.go:341-389 | with overwrite the order of two leaves shows on no object if and only if one is left out or cannot be read, or they are read as incomparable paths, or they are the same write |
| `PatchOrders.SameTexts` | pkg/resource/res.go:323-333 | the visiting order permutes the leaf texts of a patch and changes nothing else about them |
| `PatchOrders.OrdersAgree` | pkg/resource/res.go:323-333 | for any keys, all visiting orders have one outcome on every object when some leaf text cannot be read or all leaves are pairwise compatible in that sense |
| `PatchOrders.OrdersAgreeIff` | pkg/resource/res.go:323-333 | for any keys and any object, all visiting orders have one outcome if and only if they all fail or the leaves are pairwise compatible |
| `PatchOrders.TwoLeavesAgreeIff` | pkg/resource/res.go:323-333 | with overwrite, the two orders of a patch of two leaves agree on every object if and only if the leaves are compatible |
| `PatchOrders.WithoutOverwriteAgree` | pkg/resource/res.go:358-362 | without overwrite the order of a patch that holds no null never shows, whatever its keys |
| `LastWrites.LastHitDecides` | pkg/resource/res.go:341-389 | after any successful run, for any keys, a scalar is at a path if and only if the last leaf read as that path or one above it is read as that path with that value, or there is no such leaf and it was there before |
| `LastWrites.LastPatchDecides` | pkg/resource/res.go:284-296 | the same over all patches of a target |
| `SetDataSpec.UnwritableTargetIff` | pkg/resource/res.go:353-356 | on a nil Resource or a foreign target SetData succeeds exactly when it never gets to write, and then changes nothing |
| `SetDataSpec.NilResourceCanPass` | pkg/resource/res.go:349-356 | a patch of the kind alone passes on a composed resource that is nil and fails on a nil composite |
| `SetDataRun.SetLeaf` | pkg/resource/res.go:341-389 | the leaf case as written, branch by branch, is one textual write of the target, and a refused one changes nothing |
| `SetDataRun.SetMap` | pkg/resource/res.go:313-333 | the loop over a map, in whatever order, is the run of the writes of that order; a failure ends it and leaves what was written before |
| `SetDataRun.SetList` | pkg/resource/res.go:334-340 | the loop over a list is the run of its elements' writes in order; a failure ends it and leaves what was written before |
| `SetDataRun.SetData` | pkg/resource/res.go:311-392 | failed or not, the target is left as the writes of some visiting order leave it; from the empty path with safe keys, it ends as the overlay says |
| `OverlayFacts.PatchLeavesPresent` | pkg/resource/res.go:364-366 | every leaf of an accepted patch is in the result at its own path |
| `OverlayFacts.OthersStay` | pkg/resource/res.go:364-366 | a scalar stays unless the patch has a leaf at its path or above |
| `OverlayFacts.NothingInvented` | pkg/resource/res.go:311-392 | every scalar of the result was at that path in the object or in the patch |
| `OverlayFacts.OverlayTwice` | pkg/resource/res.go:311-392 | applying the same patch again changes nothing |
| `OverlayFacts.ScalarsKept` | pkg/resource/res.go:358-362 | without overwrite every scalar present before is still at its path with its value |
| `OverlayFacts.NoOverwriteIff` | pkg/resource/res.go:358-362 | without overwrite a patch is accepted if and only if it is with overwrite and all its leaves go to absent or null places; the result is then the same |
| `OverlayFacts.ProtectedScalarStaysIff` | pkg/resource/res.go:347-351 | through the overlay, and so through a patch with safe keys, a composed resource keeps a protected scalar if and only if it is not the name under a patch whose metadata is a leaf |
| `OverlayFacts.ComposedPatchArrives` | pkg/resource/res.go:347-366 | through the overlay, and so through a patch with safe keys, no scalar appears at a protected path, and every other leaf of the patch arrives |
| `Identity.ProtectionIff` | pkg/resource/res.go:347-351 | for any keys and order, a composed resource keeps a protected scalar through a successful run if and only if no leaf past the three texts is read as its path or one above it, or the last such leaf puts the value back |
| `Identity.ProtectionOfAllIff` | pkg/resource/res.go:284-288 | the same over all patches of one resource |
| `Identity.EntryDecided` | pkg/resource/res.go:406-454 | after a patch target, for any keys, a scalar beside the ready annotation is in an entry exactly as the last leaf of its patches that is read as the path or one above it says |
| `Identity.EntryProtectionIff` | pkg/resource/res.go:406-454 | the protection condition for each entry of a patch target, for any keys |
| `Identity.SpellingGetsThrough` | pkg/resource/res.go:347-351 | a patch filed under any name that also spells a top-level key other than metadata in brackets is accepted and overwrites that key of the entry |
| `Identity.KindCanBeOverwritten` | pkg/resource/res.go:347-351 | in particular the kind of an entry of any name, ready step included |
| `ResourceNames.RemoveAnnotationFrame` | pkg/resource/res.go:597-604 | removing an annotation removes that one and leaves other annotations, name, apiVersion and kind |
| `ResourceNames.CleanTwice` | pkg/resource/res.go:597-604 | reading a resource's name twice is harmless and does not disturb the ready annotation |
| `ResourceNames.ReadyItemFacts` | pkg/resource/res.go:415-424 | after the ready step the annotation is gone and readiness is what it said |
| `ResourceNames.NamesOneMore` | pkg/resource/res.go:588-595 | a longer list has distinct names exactly when the shorter has and the new name is not among them |
| `NamesByPath.AnnotationIff` | pkg/resource/res.go:415-416 | an annotation counts if and only if it stands at its path and all annotations are strings |
| `NamesByPath.ResourceNameIff` | pkg/resource/res.go:597-604 | an object is named by its naming annotation if that counts, whatever its metadata.name, else by the string at metadata.name, else by the empty name |
| `NamesByPath.RemovedByPath` | pkg/resource/res.go:597-604 | after removal the annotation is no longer at its path; where annotations do not count nothing changes |
| `NamesByPath.ReadyOkIff` | pkg/resource/res.go:415-418 | the ready step is refused exactly on a ready annotation that counts and says none of True, False and Unspecified |
| `Patching.MatchOne` | pkg/resource/res.go:170-180 | one patch is filed under the entry it is named by, its naming annotation first, after those filed before, and under no other |
| `Patching.MatchResources` | pkg/resource/res.go:162-187 | each entry gets exactly the patches named by it in data order, no other object gets any, and it is an error if and only if some patch is named by no entry; an item annotated with an entry's name is filed there whatever its metadata.name |
| `PatchRuns.RunAllIsOverlayAll` | pkg/resource/res.go:284-296 | several patches with safe keys, each in any visiting order, come to their overlays one after the other |
| `PatchRuns.RunAllKeepsMap` | pkg/resource/res.go:284-296 | whatever the patches and their keys, an object stays an object |
| `Patching.PatchTarget` | pkg/resource/res.go:284-296 | any patches on any target, nil ones included: the runs of SetData one after the other in some visiting orders; the first failure is an error |
| `Patching.PatchMatches` | pkg/resource/res.go:278-289 | in whatever order the matched objects are taken, it succeeds exactly when the patches of each can be written, and leaves each as its own run does |
| `Patching.PatchComposite` | pkg/resource/res.go:290-296 | the XR ends as all patches written in order, which with safe keys is all overlaid in order |
| `TargetFacts.PatchesForAre` | pkg/resource/res.go:169-181 | the patches of a name are exactly the items named by it, each once, in data order, cleaned |
| `TargetFacts.IdentityKeptIff` | pkg/resource/res.go:284-288 | through any list of overlays, and so of patches with safe keys, a composed resource keeps apiVersion and kind, and loses its name exactly when some patch has a leaf for metadata |
| `TargetFacts.FiledLeafIff` | pkg/resource/res.go:169-181 | a patch with a leaf for metadata is filed under no name but the empty one |
| `TargetFacts.EntryIdentityIff` | pkg/resource/res.go:406-454 | after a patch target on patches with safe keys, in any orders, every entry has its apiVersion, kind and metadata.name, except that the entry of the empty name loses the latter exactly when some patch has a leaf for metadata |
| `TargetFacts.MetadataPatchErasesName` | pkg/resource/res.go:347-366 | with overwrite, SetData accepts a patch that is a leaf for metadata on every object and leaves no name |
| `TargetFacts.MetadataPatchRefused` | pkg/resource/res.go:358-362 | without overwrite it refuses such a patch on every object that has metadata |
| `TargetFacts.UnnamedEntryCanLoseName` | pkg/resource/res.go:406-426 | a run of the patch target in which the entry of the empty name loses its metadata.name |
| `TargetFacts.RemovalFrame` | pkg/resource/res.go:419-422 | removing an annotation changes the value at no path beside that annotation's |
| `TargetFacts.PatchedEntry` | pkg/resource/res.go:406-454 | with safe keys, after a patch target each entry is its base with its patches overlaid, then the ready step; unnamed entries get the ready step only |
| `TargetFacts.ResourcesEntry` | pkg/resource/res.go:242-277 | after the Resources target a named entry is the top-level merge of old and new, other entries keep their content, all have gone through the ready step |
| `DesiredState.ReadyEntry` | pkg/resource/res.go:415-424 | the ready step on one object, refused exactly on an invalid annotation value, which then changes nothing |
| `DesiredState.ProcessReady` | pkg/resource/res.go:459-469 | in whatever order, it succeeds exactly when all ready annotations are valid, and every entry goes through the ready step |
| `DesiredState.CleanIsPatch` | pkg/resource/res.go:597-604 | removing the naming annotation keeps a patch's keys safe |
| `DesiredState.AcceptedIffOverlaid` | pkg/resource/res.go:406-454 | with safe keys the visiting orders show neither in whether patching is accepted nor in what it gives |
| `DesiredState.ApplyMatches` | pkg/resource/res.go:411-413 | with the patches matched, it succeeds exactly when the patches of every entry can be written, and writes them |
| `DesiredState.ProcessPatchDesired` | pkg/resource/res.go:406-426 | succeeds exactly when all patches name an entry, all can be written and all ready annotations are then valid; gives all entries patched and readied; with safe keys, overlaid |
| `DesiredState.ProcessPatchResources` | pkg/resource/res.go:427-454 | the same on the desired state with the bases put in, a later base of one name winning |
| `TargetsByPath.AcceptedIff` | pkg/resource/res.go:406-454 | for any keys and orders, patching is accepted exactly when every item is named by some entry, each entry's patches can be written one after the other, and each object then has a valid ready annotation or none |
| `TargetsByPath.LastBaseWins` | pkg/resource/res.go:430-432 | of several bases of one name the last becomes the entry, whatever was there |
| `TargetsByPath.WithoutBase` | pkg/resource/res.go:430-432 | an entry without a base is as it was |
| `DesiredState.DuplicateChecker.CheckDuplicateName` | pkg/resource/res.go:588-595 | refuses exactly a name seen before and records a new one with kind and name |
| `DesiredState.AddedFacts` | pkg/resource/res.go:266-276 | with distinct names every item lands in its own entry as a merge with what was there, and other entries are untouched |
| `DesiredState.AddChecked` | pkg/resource/res.go:259-276 | one item is refused exactly if its name was seen, else it is merged in as a fresh entry |
| `DesiredState.AddResources` | pkg/resource/res.go:255-277 | succeeds exactly when all names are distinct and folds all items in |
| `DesiredState.ProcessResourcesTarget` | pkg/resource/res.go:455-473 | succeeds exactly when names are distinct and the merged ready annotations valid; gives the merged entries readied |
| `TargetsByPath.MergeTopAt` | pkg/resource/res.go:242-252 | top-level field by field the new object's value wins, and a field it does not have is the old one's |
| `TargetsByPath.ResourcesEntryAt` | pkg/resource/res.go:255-277 | after the Resources target an entry that was there has, beside the ready annotation, the item's value at every path whose top-level field the item has, and its own value elsewhere |
| `DefaultTarget.EachClassItsOwnPart` | pkg/resource/res.go:480-561 | each item is one of XR patch, meta resource and composed resource, and changes only that class's part of the state |
| `DefaultTarget.RunIsThreeRuns` | pkg/resource/res.go:474-566 | a run over a mixed list is three independent runs, one for each class in its own order, and fails exactly when one of them does |
| `DefaultTarget.CompositeChangesOnlyStatus` | pkg/resource/res.go:480-496 | the composite changes in status only, which becomes the in-order merge of the XR items' statuses |
| `StatusMerge.MergedAt` | pkg/resource/res.go:489 | a value that is no map stands in a merge at a path if and only if the source has it there, or the destination has it and the source has nothing there and only maps above that the path enters by a field |
| `StatusMerge.MergedMapAt` | pkg/resource/res.go:489 | maps stand in a merge where the source has one, or where the destination has one that is left alone |
| `DefaultByPath.ClassifyIff` | pkg/resource/res.go:480-498 | an item patches the XR exactly when both its apiVersion and its kind are the XR's, and is a meta resource exactly when it does not and has the meta apiVersion |
| `DefaultByPath.StatusByPath` | pkg/resource/res.go:481-488 | a status counts exactly if it is a map, null or absent |
| `DefaultByPath.LastStatusWins` | pkg/resource/res.go:480-496 | after a run, at each path below status the last XR item that gives something there decides, and where none does the composite's own value stays |
| `DefaultByPath.LastStatusIs` | pkg/resource/res.go:480-496 | that item is one that gives something, with none after it that does |
| `DefaultByPath.ItemStatusWins` | pkg/resource/res.go:489 | a status field of an XR item that is no map replaces the composite's |
| `DefaultTarget.DesiredIsReplacedByName` | pkg/resource/res.go:550-561 | the desired map is the old one with exactly the composed items' names, all distinct, replaced wholesale |
| `DefaultTarget.ComposedEntryFacts` | pkg/resource/res.go:550-558 | a composed entry keeps neither meta annotation and takes its readiness from the item |
| `DefaultTarget.ComposedRunIff` | pkg/resource/res.go:550-561 | the composed part succeeds exactly when names are distinct and ready annotations valid |
| `DefaultTarget.XrRunIff` | pkg/resource/res.go:480-496 | the XR part succeeds exactly when every status involved, the composite's included, is a map, null or absent |
| `DefaultTarget.PatchXr` | pkg/resource/res.go:480-496 | one XR item: refused exactly on a status that is no map, else the merge of the statuses is set and nothing else |
| `DefaultTarget.AddConnectionDetails` | pkg/resource/res.go:500-505 | the loop, in whatever order, adds all decoded details over the old ones |
| `DefaultTarget.AddSelectors` | pkg/resource/res.go:512-517 | the loop, in whatever order, succeeds exactly when no key is there already and adds all |
| `DefaultTarget.ProcessMeta` | pkg/resource/res.go:498-548 | one meta resource: each kind to its own place, an unknown kind or a missing payload an error |
| `DefaultByPath.DetailItem` | pkg/resource/res.go:500-505 | connection details are the decoded strings of data, if data holds strings only, and change nothing else |
| `DefaultByPath.SelectorItemIff` | pkg/resource/res.go:506-529 | selectors are decoded from requirements and added to their kind's own map, refused exactly when missing, undecodable or one key is there already |
| `DefaultByPath.PayloadIff` | pkg/resource/res.go:530-544 | conditions, events and context hand on what stands in their own field, refused exactly when missing or not accepted |
| `DefaultByPath.OtherKindFails` | pkg/resource/res.go:545-547 | any other kind of meta resource is an error |
| `DefaultTarget.ProcessComposed` | pkg/resource/res.go:550-561 | one composed item: refused exactly on an invalid ready annotation or a name seen before, else stored under its name |
| `DefaultByPath.ComposedItemLands` | pkg/resource/res.go:550-561 | an item that is neither XR nor meta goes under the name it is named by and changes no other entry, refused exactly on an invalid ready annotation or a name seen before |
| `DefaultTarget.CheckAndSetDesired` | pkg/resource/res.go:579-586 | the duplicate check, then the entry of that name is replaced |
| `DefaultTarget.ProcessItem` | pkg/resource/res.go:476-562 | one turn of the loop is one step of the run |
| `DefaultTarget.ProcessDefault` | pkg/resource/res.go:474-566 | the loop over all items is the run the lemmas above speak of |
| `DefaultFacts.LastDetailWins` | pkg/resource/res.go:500-505 | each connection detail ends as the last item that gives it says, or as it was |
| `DefaultFacts.EachSelectorOnce` | pkg/resource/res.go:506-529 | a successful run has no selector key given twice or given before; each holds what its one item says |
| `Processing.ProcessResources` | pkg/resource/res.go:394-570 | every target's outcome for any patches, each touching only its own part of the state; a target no case names succeeds and does nothing |
| `Processing.ProcessedAsMeant` | pkg/resource/res.go:394-570 | with safe keys each target's outcome is that of the overlays, whatever the visiting orders |
| `TargetsByPath.TargetsByName` | pkg/resource/res.go:399-474 | which outcome each target name stands for, and that any other name does nothing and succeeds |
| `CacheSpec.OperationsKeepGood` | rendercache.go:88-141 | no operation repeats a key or exceeds the size, and a stored key is found with its value and time |
| `CacheSpec.LookupHitsIff` | rendercache.go:92-109 | a lookup is a hit if and only if there is an entry of the key younger than the TTL, or of any age without TTL; it serves that entry and moves it to the front, and a miss leaves no entry of the key |
| `CacheSpec.RequestTouches` | fn.go:222-253 | a request without TTL moves its key to the front, hit or miss |
| `CacheSpec.SmallerCacheIsAPrefix` | rendercache.go:88-141 | after any trace without TTL the keys at size m are the first m of the keys at a larger size n |
| `CacheSpec.LargerCacheHitsToo` | rendercache.go:88-141 | a larger cache hits whenever a smaller one does |
| `CacheSpec.SmallerCacheServesTheSame` | rendercache.go:88-141 | with a deterministic render the values agree as well, and a larger cache serves the same bytes on every hit of the smaller |
| `CacheTraces.TraceIsGood` | rendercache.go:133-140 | after any trace of lookups and stores keys are unique and the size is within bounds |
| `CacheTraces.ListIsByRecency` | rendercache.go:107-132 | after any trace the list is ordered by last hit or store |
| `CacheTraces.RecentKeysAreHit` | rendercache.go:88-141 | a key is hit if fewer than max distinct keys were stored or hit since it last was and its entry is younger than the TTL, or there is no TTL |
| `CacheHandlers.EveryInterleavingIsSound` | fn.go:213-253 | under every interleaving each handler serves the render of its own input, a cached value was stored under its key less than ttl before, and hits plus misses count the lookups |
| `CacheHandlers.LookupDecides` | fn.go:219-226 | in every sound state a handler is served from the cache exactly when the cache has its key with an entry younger than the TTL |
| `CacheHandlers.StoreIsKept` | fn.go:252 | what a handler stores stands first in the cache, with the time of the store |
| `EntryRing.EntryList.PushFront` | rendercache.go:131 | the new node is linked in at the front of the ring |
| `EntryRing.EntryList.Remove` | rendercache.go:102 | the node is unlinked and the others keep their order |
| `EntryRing.EntryList.MoveToFront` | rendercache.go:107 | the node is first and the others keep their order |
| `EntryRing.EntryList.Back` | rendercache.go:134 | the last node, nil when the list is empty |
| `RenderCaching.RenderCache.constructor` | rendercache.go:68-74 | an empty cache with map and list in agreement |
| `RenderCaching.RenderCache.Lookup` | rendercache.go:92-109 | on real nodes, a hit exactly when some entry has the key of the input and is younger than the TTL, or there is no TTL; the entry served is first afterwards, a miss leaves none, the others stay in order; each lookup counts once |
| `RenderCaching.RenderCache.Evict` | rendercache.go:133-140 | the loop cuts the list down to the size, oldest first, and the map with it |
| `RenderCaching.RenderCache.Store` | rendercache.go:118-140 | on real nodes, the store of the recency list, keeping a copy of the output |
| `RenderCaching.NewRenderCache` | rendercache.go:64-75 | nil exactly for a size that is not positive |
| `RenderCaching.LookupIn` | rendercache.go:88-110 | nil misses and counts nothing; otherwise the lookup as said, counted once |
| `RenderCaching.StoreIn` | rendercache.go:114-141 | nil ignores the output |
| `Drain.Reachable` | recycle.go:132-226 | in every reachable state the counters and the gate agree with where the calls stand |
| `Drain.DrainedMeansQuiet` | recycle.go:213-216 | once the writer has the gate no call is in flight, inflight is 0 and count is the number of completed calls |
| `Drain.NoneAdmittedAfterwards` | recycle.go:136-143 | from then on no call is admitted, those that had already read the flag included |
| `Drain.PassesUntilAnnounced` | recycle.go:136-139 | a call that has found the flag down gets through the gate exactly until the writer announces itself |
| `Drain.TimeoutEndsTheWait` | recycle.go:218-225 | in every reachable state of a drain, however many calls are inside, the timeout can end the process undrained |
| `Drain.WaitingForever` | recycle.go:136-139 | once the writer has announced itself, nobody joins the calls that wait at the gate and none of them ever gets on, in any continuation |
| `Drain.UnansweredAtDrainedExit` | recycle.go:218-225 | at a drained exit a call is unanswered if and only if it has not looked at the flag or waits at the gate |
| `Drain.CutOffIffWaiting` | recycle.go:136-139 | a drained exit cuts off a call that had looked at the flag if and only if the call was waiting when the writer announced itself |
| `Drain.DrainAtOnce` | recycle.go:205-225 | from every reachable state with nobody inside a drained exit can follow with no call getting on |
| `Drain.DrainedExitCanCutOff` | recycle.go:136-139 | a run that exits drained while a call waits at the gate |
| `Drain.MeasureDrops` | recycle.go:136-151 | while draining every step of a call past the check, of the writer and of the watchdog lowers a natural number; nothing raises it |
| `Drain.NeverStuck` | recycle.go:205-226 | before the exit some such step is always possible without the timeout |
| `Drain.DrainIsBounded` | recycle.go:205-226 | the drain takes at most as many steps as the measure says at the flip, whatever calls arrive |
| `Recycling.Recycler.CallStep` | recycle.go:132-152 | every atomic step of a call keeps the protocol's invariant; a call is stuck exactly if it has been answered or waits at the gate, and the unlocking one always finds its reader |
| `Recycling.Recycler.Recycle` | recycle.go:205-226 | flip, spawn and select, with any steps of the other goroutines between the flip and the spawn and from there to the exit, are a run of the protocol and end in exactly the state these steps lead to; only the first recycler goes on, and a drained exit leaves nobody inside |
| `Recycling.WaitedIsRun` | recycle.go:205-226 | a schedule that fits between the recycler's own steps is carried out to the letter: `Recycle` ends where that run of the protocol does |
| `Recycling.Begin` | recycle.go:132-143 | without interleaving: admitted exactly when not draining, the gate being open then, with gate, inflight and count raised; nil admits |
| `Recycling.End` | recycle.go:146-152 | without interleaving: inflight and gate lowered, count kept |
| `Recycling.EnabledIff` | recycle.go:88-93 | the watchdog is enabled if and only if some reading makes it fire |
| `Recycling.ShouldRecycle` | recycle.go:180-201 | there is a reason exactly when an enabled limit has been reached or passed; an unreadable resident set size gives none |
| `Recycling.Watch` | recycle.go:167-201 | the watchdog fires on the first tick at which a trigger holds and on no other; an unreadable resident set size fires nothing |
| `CachedRendering.CachedRender` | fn.go:213-253 | whatever a sound cache holds, the answer is that of rendering every time; the cache stays sound, a cached render is promoted and counted as a hit, any other output is kept with its store time, and a miss is counted |
| `CachedRendering.RenderAndStore` | fn.go:226-252 | an output is kept first in the cache under its key with the time of the store, what was there behind it up to the size; a failure keeps nothing |
| `CachedRendering.RenderTwice` | fn.go:213-253 | of two calls on one input the second gives the same answer, and after an output whose entry is younger than the TTL it is a hit |
| `FunctionRun.RunFunction` | fn.go:52-59 | turned away exactly while draining, with nothing touched, the cache counters included; otherwise the bracket is closed on every way out, one call is counted and the cache holds the output as `CachedRender` leaves it |
| `ParamsJson.ParsesBack` | render.go:223-242 | the printed object is a JSON text and parses back to the map: the same keys and raw values, an empty raw as {} |
| `ParamsJson.ReadEscaped` | render.go:229-233 | an escaped key reads back as itself |
| `ParamsJson.EscapedIsPlain` | render.go:229-233 | an escaped key has no control character, none that HTML cares about and no line separator; a key with nothing to escape is printed as it is |
| `ParamsJson.SameBytes` | render.go:216-221 | sorted, any two enumerations of the keys give the same bytes |
| `ParamsJson.LessIff` | render.go:221 | the order of the keys is lexicographic: less where two keys first differ, or the one that ends first |
| `ParamsJson.SortStrings` | render.go:221 | sorted, with the same elements |
| `ParamsJson.CollectKeys` | render.go:217-220 | in whatever order, each key once |
| `ParamsJson.Write` | render.go:223-242 | the loop writes the members separated by commas |
| `ParamsJson.Print` | render.go:216-243 | the one sorted text of the map, which with valid raw values parses back to it |
| `JsonText.ValueInContext` | render.go:235-239 | a raw value is recognised as the same value before a comma, a closing brace or a closing bracket |
| `Conditions.SurvivorsAreExactly` | pkg/resource/conditions.go:90-105 | the appended conditions are, in order, exactly those that are first of their type or forced |
| `Conditions.SurvivesIff` | pkg/resource/conditions.go:95-98 | a request survives exactly if force is true or no request before it has its type |
| `Conditions.AppendedCarry` | pkg/resource/conditions.go:54-85 | each appended condition has its request's type, reason, message, status and target, an unknown status or target being the default |
| `Conditions.LastSurvivorWins` | pkg/resource/conditions.go:95-104 | the last one appended of a type is the last forced one after the first, or else the first |
| `Conditions.DistinctIffNothingForcedAgain` | pkg/resource/conditions.go:85-105 | the appended types are pairwise distinct if and only if no request forces a type that an earlier one has set |
| `Conditions.ForcedTypeOccursTwice` | pkg/resource/conditions.go:85-105 | a condition and a forced one of its type after it are both appended |
| `Conditions.SetConditions` | pkg/resource/conditions.go:87-107 | the survivors before the first reserved type are appended; a reserved type is fatal |
| `Normalization.NormalizeIff` | pkg/resource/res.go:96-124 | on decoded trees it fails exactly when some map at any depth has a key that is not a string |
| `Normalization.NormalizeReadsBack` | pkg/resource/res.go:96-124 | the result has string-keyed maps only and the shape of the input, which can be read back from it |
| `Normalization.NormalizeTwice` | pkg/resource/res.go:120-123 | normalizing again changes nothing |
| `Normalization.NormalizeMap` | pkg/resource/res.go:96-124 | the recursive method, keys in whatever order, computes that normalization |
| `Normalization.ManifestsIff` | pkg/resource/res.go:127-154 | a stream gives manifests exactly when every document is null or a map with string keys throughout |
| `Normalization.ManifestsAre` | pkg/resource/res.go:127-154 | the manifests are those of the documents that are not null, each once and in stream order, and each reads back as its document |
| `Normalization.FirstBadDecides` | pkg/resource/res.go:133-151 | the first document that is neither null nor a map with string keys decides: a panic if it decodes and its keys are strings, else an error |
| `Normalization.DataResourcesFromYaml` | pkg/resource/res.go:127-154 | the loop over documents lists exactly the manifests of the documents that are not null, in order, errors and the panic on a non-map document included |

## Left out

- KCL compilation and execution, kpm, sources other than the given input, temporary files: foreign code; rendering is a function that may fail.
- gRPC serving, command line, logging, messages (`setSuccessMsgs`) and error texts.
- Reading `/proc`, cgroup files and the environment: the watchdog's readings are parameters, and in the drain protocol a trigger may fire at any time.
- JSON numbers are integers: nothing here computes with them.
- The cache's `stats` accessor, input validation, deep copies, events, the selector conversions and `MergeContext`.
- Repeated `Conditions`, `Events` or `Context` items: the model records each payload handed to its decoder, not how decoding into an already filled value combines them.
- After an error of a target the contracts say that there was one; what SetData leaves in the object it fails on is said, what the targets leave in the desired state is not, as RunFunction discards it.
- Aliasing between the data list and the desired state: the patch methods work on cleaned copies where the code cleans the caller's objects in place, and the slice a cache hit returns is a value here.
- 64-bit wrap-around of the counters `count`, `inflight`, hits and misses.
- Quoted bracket segments, the 32-bit index parser and the maximum list index of `fieldpath`.
- ProcessPatchDesired and the other targets: entries are distinct objects with a non-nil Resource, as the SDK builds them.
- MergeValue: a source leaf that is empty (null, false, 0, an empty string or container) replaces its destination, where mergo may keep the destination; the merge statements are meant for statuses without such leaves.
- NormalizeMap: list slots are overwritten in a copy of the list, not in the caller's.
- RunFunction: one call with nobody interleaving; interleavings are the subject of EveryInterleavingIsSound and of the drain lemmas. Preparing the input and writing the response are not part of it.
- Begin: likewise; a call that finds the gate shut between its two steps is described by CallStep and by the drain lemmas.
