# ASSection, modelled in Dafny

This project models `ASSection`, one section of an ASCollectionView collection
or table view. A section holds a snapshot of items, each with an extracted,
hashable ID. Around it sit:

- identity resolution between positions and item unique IDs (section-ID hash, item-ID hash);
- the per-cell context (first, last, selected);
- event forwarding for appear, disappear, prefetch and cancel-prefetch;
- selection defaults and the deferred selection write;
- swipe to delete and the context menu;
- drag and drop, including the edits `applyRemove` and `applyInsert` make to the data binding;
- the header/footer dictionary;
- reuse of hosting controllers by content type.

Files:

- `wrappers.dfy`: `Option`.
- `collections.dfy`: the Swift standard-library operations the section uses, as functions on sequences with their algebra. These are `firstIndex(where:)`, `compactMap`, `filter`, `remove(atOffsets:)` and `insert(contentsOf:at:)`.
- `bindings.dfy`: a SwiftUI `Binding` as a shared object. It holds the writes queued on the main queue.
- `hosting.dfy`: the hosting controller. It keeps a content-type tag, the current view and the two drag/drop-disable flags.
- `section.dfy`: the section as a class.
  - Stored properties that nothing changes are constants.
  - `supplementaryViews` is a field that the `mutating` setters reassign.
  - `applyRemove`/`applyInsert` write through the data binding object.
  - `updateSelection` queues a write on the selection binding.
- `scenarios.dfy`: end-to-end scenarios, such as the insertion example `[1,2,3]` + `[2,4]` at 1 giving `[1,4,2,3]`.

The `onCellEvent` and `onSwipeToDelete` handlers return nothing, so a call to them is modelled by its arguments: `OnAppear` returns the event the handler would receive, or `None` when no call is made. The context-menu provider returns a value, so it is a function field that `GetContextMenu` applies to the index and the item.

Behaviour of the code worth knowing:

- Unique IDs are pairwise distinct only when the item-ID hashes are. `getIndex` compares hashes, so two distinct IDs whose hashes collide resolve to the first of them (`GetIndexCollision`).
- A hosting controller of the wrong type is not reported as "not applicable". `update` does nothing, and `updateOrCreateHostController` makes a new controller.
- `applyInsert` does not deduplicate within the inserted batch (`InsertKeepsBatchDuplicates`). It removes only items whose ID is already in the binding.
- `getDropItem` falls back to the drag item's local object in two cases: when no drop-item provider is set, and when the provider returns nil. This is because `provider?(…) ?? sourceItem` flattens the optional.

## Model

| member | source | states |
|---|---|---|
| `Collections.FirstIndexWhere` | Sources/ASCollectionView/Implementation/ASSection.swift:105 | `firstIndex(where:)`: the result is an index whose element satisfies the test, and no earlier index does. It is none exactly when no element does. |
| `Collections.CompactMap` | Sources/ASCollectionView/Implementation/ASSection.swift:215-218 | `compactMap` never yields more elements than it is given |
| `Collections.CompactMapAppend` | Sources/ASCollectionView/Implementation/ASSection.swift:215-218 | `compactMap` distributes over concatenation, so output order follows input order |
| `Collections.CompactMapAllPresent` | Sources/ASCollectionView/Implementation/ASSection.swift:215-218 | when every result is present, `compactMap` is an element-wise map of the same length |
| `Collections.CompactMapAllAbsent` | Sources/ASCollectionView/Implementation/ASSection.swift:224-227 | when no result is present, `compactMap` yields the empty sequence |
| `Collections.CompactMapMember` | Sources/ASCollectionView/Implementation/ASSection.swift:280 | a value is in the result iff some input element maps to it |
| `Collections.Filter` | Sources/ASCollectionView/Implementation/ASSection.swift:282 | `filter` is no longer than its input, and every kept element passes the test |
| `Collections.FilterAppend` | Sources/ASCollectionView/Implementation/ASSection.swift:282 | `filter` distributes over concatenation, so it keeps input order |
| `Collections.FilterMember` | Sources/ASCollectionView/Implementation/ASSection.swift:282 | an element survives iff it was in the input and passes the test |
| `Collections.FilterDistinctBy` | Sources/ASCollectionView/Implementation/ASSection.swift:282 | filtering a sequence whose keys are distinct keeps the keys distinct |
| `Collections.RemovingFrom` | Sources/ASCollectionView/Implementation/ASSection.swift:275 | `remove(atOffsets:)` over a part starting at a base offset never lengthens it |
| `Collections.RemovingFromAppend` | Sources/ASCollectionView/Implementation/ASSection.swift:275 | removal distributes over concatenation, with the second part's offsets shifted, so survivors keep their order |
| `Collections.RemovingFromNone` | Sources/ASCollectionView/Implementation/ASSection.swift:275 | a part whose offsets are all unnamed is kept whole |
| `Collections.RemovingFromAll` | Sources/ASCollectionView/Implementation/ASSection.swift:275 | a part whose offsets are all named is removed whole |
| `Collections.RemovingFromLength` | Sources/ASCollectionView/Implementation/ASSection.swift:275 | exactly one element is removed per named offset inside the part |
| `Collections.RemovingOffsetsLength` | Sources/ASCollectionView/Implementation/ASSection.swift:275 | with in-range offsets, the result is shorter by exactly the number of offsets |
| `Collections.InsertingContents` | Sources/ASCollectionView/Implementation/ASSection.swift:287 | `insert(contentsOf:at:)`: the prefix before the index, then the new elements, then the rest of the original |
| `Collections.RemovingInsertedContents` | Sources/ASCollectionView/Implementation/ASSection.swift:273-288 | removing the offsets an insertion filled gives back the original sequence (remove undoes insert) |
| `Bindings.Binding.WriteAsync` | Sources/ASCollectionView/Implementation/ASSection.swift:312-314 | an async write is only queued; the bound value does not change yet |
| `Bindings.Binding.RunPendingWrites` | Sources/ASCollectionView/Implementation/ASSection.swift:312-314 | the queued writes run in order: the value becomes the last write (or stays when none was queued), and the queue empties |
| `Hosting.HostingController.SetView` | Sources/ASCollectionView/Implementation/ASSection.swift:145 | `setView` replaces the content in place |
| `Sections.DisabledDragDrop` | Sources/ASCollectionView/Implementation/ASSection.swift:79 | the default drag/drop configuration, and the default of the section's `dragDropConfig`: it enables neither drag nor drop and has no data binding |
| `Sections.WithSupplementaryView` | Sources/ASCollectionView/Implementation/ASSection.swift:356-365 | a nil view removes the kind, and a view sets it. Every other kind keeps its presence and its view. |
| `Sections.Section.SafeItem` | Sources/ASCollectionView/Implementation/ASSection.swift:203 | `data[safe:]` is present iff the index is in range, and is then the item there |
| `Sections.Section.GetIndex` | Sources/ASCollectionView/Implementation/ASSection.swift:103-106 | the smallest position whose item-ID hash equals the unique ID's item hash, or none iff no item matches. The section hash is ignored. |
| `Sections.Section.GetItemID` | Sources/ASCollectionView/Implementation/ASSection.swift:183-191 | present iff the index is in range; it then carries the section's hash and the item's ID hash |
| `Sections.Section.GetUniqueItemIDs` | Sources/ASCollectionView/Implementation/ASSection.swift:193-199 | one unique ID per item. Entry i is what `getItemID(for: i)` gives, in data order. |
| `Sections.Section.GetIndexPaths` | Sources/ASCollectionView/Implementation/ASSection.swift:178-181 | exactly `(k, sectionIndex)` for every position k, ascending |
| `Sections.Section.GetIndexRoundTrip` | Sources/ASCollectionView/Implementation/ASSection.swift:183-191 | with distinct item-ID hashes, `getIndex(getItemID(for: i)) == i` for every in-range i |
| `Sections.Section.GetItemIDAfterGetIndex` | Sources/ASCollectionView/Implementation/ASSection.swift:103-106 | a resolved position gives back a unique ID with the same item hash and this section's hash |
| `Sections.Section.GetIndexCollision` | Sources/ASCollectionView/Implementation/ASSection.swift:103-106 | when a later item's ID hash collides with an earlier one's, its unique ID does not resolve back to it |
| `Sections.Section.UniqueItemIDsResolve` | Sources/ASCollectionView/Implementation/ASSection.swift:193-199 | with distinct item-ID hashes, the unique IDs are pairwise distinct and each resolves to its own position |
| `Sections.Section.IndexPathsResolve` | Sources/ASCollectionView/Implementation/ASSection.swift:178-181 | every index path yielded names this section and an item that exists |
| `Sections.Section.IsSelected` | Sources/ASCollectionView/Implementation/ASSection.swift:305-308 | true iff a selection binding exists and contains the index; false with no binding |
| `Sections.Section.CellContextFor` | Sources/ASCollectionView/Implementation/ASSection.swift:108-115 | first iff the index is 0 (the start index of data indexed from 0), and last iff it is the item count minus one. Selected iff `isSelected(index:)` holds. |
| `Sections.Section.CellContextEnds` | Sources/ASCollectionView/Implementation/ASSection.swift:108-115 | an in-range cell is both first and last iff the section has one item. Without a binding no cell is selected. |
| `Sections.Section.ShouldSelect` | Sources/ASCollectionView/Implementation/ASSection.swift:317-321 | out of range: whether a binding exists. In range: the predicate's result, or whether a binding exists when there is no predicate. |
| `Sections.Section.ShouldDeselect` | Sources/ASCollectionView/Implementation/ASSection.swift:323-327 | the same as `shouldSelect`, using the deselection predicate |
| `Sections.Section.UpdateSelection` | Sources/ASCollectionView/Implementation/ASSection.swift:310-315 | the new selection is queued on the binding, and the current selection is unchanged |
| `Sections.Section.GetTypeErasedData` | Sources/ASCollectionView/Implementation/ASSection.swift:173-176 | the item at the index path, or none when it is out of range |
| `Sections.Section.OnAppear` | Sources/ASCollectionView/Implementation/ASSection.swift:201-205 | an appear event for the item is sent iff a handler is set and the index is in range |
| `Sections.Section.OnDisappear` | Sources/ASCollectionView/Implementation/ASSection.swift:207-211 | a disappear event for the item is sent iff a handler is set and the index is in range |
| `Sections.Section.ItemsAtAppend` | Sources/ASCollectionView/Implementation/ASSection.swift:213-220 | a batch's forwarded items are those of its parts, in request order |
| `Sections.Section.ItemsAtSingle` | Sources/ASCollectionView/Implementation/ASSection.swift:213-220 | one index path forwards its item when in range, and nothing otherwise |
| `Sections.Section.ItemsAtAllInRange` | Sources/ASCollectionView/Implementation/ASSection.swift:213-220 | with all paths in range, each request yields its own item, position for position |
| `Sections.Section.ItemsAtNoneInRange` | Sources/ASCollectionView/Implementation/ASSection.swift:222-229 | with no path in range, nothing is forwarded |
| `Sections.Section.Prefetch` | Sources/ASCollectionView/Implementation/ASSection.swift:213-220 | the handler is called whenever one is set, even with an empty list. It receives the in-range items. |
| `Sections.Section.CancelPrefetch` | Sources/ASCollectionView/Implementation/ASSection.swift:222-229 | the handler is called whenever one is set, with the in-range items |
| `Sections.Section.SupportsDelete` | Sources/ASCollectionView/Implementation/ASSection.swift:231-235 | true iff a delete handler is set and the allow-predicate holds. The predicate counts as true when unset. |
| `Sections.Section.OnDelete` | Sources/ASCollectionView/Implementation/ASSection.swift:237-241 | the delete handler receives (index, item) iff a handler is set and the index is in range |
| `Sections.Section.OnDeleteIgnoresAllowPredicate` | Sources/ASCollectionView/Implementation/ASSection.swift:231-241 | `onDelete` runs the handler even for an index that `supportsDelete` rejects |
| `Sections.Section.GetContextMenu` | Sources/ASCollectionView/Implementation/ASSection.swift:290-298 | none without a provider or for an out-of-range index; otherwise the provider's result for (index, item) |
| `Sections.Section.GetDragItem` | Sources/ASCollectionView/Implementation/ASSection.swift:243-252 | present iff drag is enabled and the index is in range. The local object is the item. The provider is the configured provider applied to the item, or the empty one when none is set. |
| `Sections.Section.GetDropItem` | Sources/ASCollectionView/Implementation/ASSection.swift:259-265 | none while drop is disabled. Otherwise the provider's item, falling back to the local object. |
| `Sections.Section.WillAcceptDropItem` | Sources/ASCollectionView/Implementation/ASSection.swift:254-257 | accepted iff the drag item resolves to an item |
| `Sections.Section.GetItemIDForDragItem` | Sources/ASCollectionView/Implementation/ASSection.swift:267-271 | present iff the drop is accepted. It is then the unique ID of the resolved item. |
| `Sections.Section.DragDropRoundTrip` | Sources/ASCollectionView/Implementation/ASSection.swift:243-271 | with drag and drop enabled and no drop provider, dropping a dragged item gives back that item and its unique ID |
| `Sections.Section.ItemsToInsertMember` | Sources/ASCollectionView/Implementation/ASSection.swift:280-282 | an item is inserted iff some dragged item resolves to it and its ID is not yet in the binding |
| `Sections.Section.ItemsToInsertAppend` | Sources/ASCollectionView/Implementation/ASSection.swift:280-282 | survivors keep the order of the dragged items |
| `Sections.Section.InsertWhileDropDisabled` | Sources/ASCollectionView/Implementation/ASSection.swift:259-288 | with drop disabled nothing resolves, and an insert leaves the data unchanged |
| `Sections.Section.InsertKeepsOriginals` | Sources/ASCollectionView/Implementation/ASSection.swift:278-288 | the originals keep their relative order around the inserted block. The block is exactly the survivors, and no inserted item has an existing ID. |
| `Sections.Section.InsertKeepsIDsDistinct` | Sources/ASCollectionView/Implementation/ASSection.swift:278-288 | if the binding's IDs and the resolved batch's IDs are each distinct, the IDs after the insert are distinct |
| `Sections.Section.ApplyRemove` | Sources/ASCollectionView/Implementation/ASSection.swift:273-276 | the binding loses exactly the elements at the offsets and keeps the rest in order. Nothing happens without a binding. |
| `Sections.Section.ApplyInsert` | Sources/ASCollectionView/Implementation/ASSection.swift:278-288 | resolved items with new IDs are inserted at the index in input order. Nothing happens without a binding. |
| `Sections.Section.GetContent` | Sources/ASCollectionView/Implementation/ASSection.swift:165-171 | present iff the ID resolves. It is then the view for that item in its cell context. |
| `Sections.Section.UpdateOrCreateHostController` | Sources/ASCollectionView/Implementation/ASSection.swift:141-157 | a host of matching type is reused as the same instance; otherwise a fresh host of the type is made and the old one is untouched. Either way it shows the content, with the drop/drag flags set to `dropEnabled`/`dragEnabled`. |
| `Sections.Section.UpdateWithContent` | Sources/ASCollectionView/Implementation/ASSection.swift:159-163 | content is replaced only when the host's type matches; otherwise nothing changes |
| `Sections.Section.UpdateOrCreateHostControllerForItem` | Sources/ASCollectionView/Implementation/ASSection.swift:117-121 | none when the ID does not resolve. Otherwise the reused or new host shows the item's content. A host of the wrong type is left untouched and a fresh one of the section's container type is made. |
| `Sections.Section.UpdateForItem` | Sources/ASCollectionView/Implementation/ASSection.swift:123-127 | the host shows the item's content if the ID resolves and the type matches. Otherwise it is unchanged. |
| `Sections.Section.UpdateOrCreateHostControllerForSupplementary` | Sources/ASCollectionView/Implementation/ASSection.swift:129-133 | none when the kind has no view. Otherwise the reused or new `AnyView` host shows it. A host of another type is left untouched and a fresh `AnyView` host is made. |
| `Sections.Section.UpdateForSupplementary` | Sources/ASCollectionView/Implementation/ASSection.swift:135-139 | the host shows the kind's view if there is one and the host is an `AnyView` host. Otherwise it is unchanged. |
| `Sections.Section.Supplementary` | Sources/ASCollectionView/Implementation/ASSection.swift:372-375 | the view stored for the kind, or none |
| `Sections.Section.SupplementaryKinds` | Sources/ASCollectionView/Implementation/ASSection.swift:367-370 | a kind is listed iff `supplementary(ofKind:)` returns a view for it |
| `Sections.Section.SetSupplementaryView` | Sources/ASCollectionView/Implementation/ASSection.swift:356-365 | the dictionary after the call is `WithSupplementaryView` of the one before: a nil view removes the kind, and a view sets it |
| `Sections.Section.SetHeaderView` | Sources/ASCollectionView/Implementation/ASSection.swift:346-349 | sets or removes the header kind only |
| `Sections.Section.SetFooterView` | Sources/ASCollectionView/Implementation/ASSection.swift:351-354 | sets or removes the footer kind only |
| `SectionScenarios.InsertExample` | Sources/ASCollectionView/Implementation/ASSection.swift:278-288 | inserting `[2, 4]` at 1 into `[1, 2, 3]` gives `[1, 4, 2, 3]` |
| `SectionScenarios.InsertKeepsBatchDuplicates` | Sources/ASCollectionView/Implementation/ASSection.swift:281-282 | a new ID repeated within one batch is inserted twice |
| `SectionScenarios.SelectionLastWriteWins` | Sources/ASCollectionView/Implementation/ASSection.swift:310-315 | after two updates in one frame and a run of the main queue, the selection is the second set |
| `SectionScenarios.HostReusedAcrossPasses` | Sources/ASCollectionView/Implementation/ASSection.swift:117-127 | a host created for an item is returned again by the next request for that item, and after the update it shows the item's content |

## Left out

- The `ASSectionDataSourceProtocol` existential: the class exposes the same members directly.
- Rendering: SwiftUI views are an opaque type `V`. `container` and `content` are one function from item and cell context to `V`. A hosting controller's generic parameter is reduced to a type-name tag, and a Swift cast is a comparison of tags.
- The header and footer kind strings are the values of the UIKit constants. Their exact spelling plays no part in any proof.
- Event and delete handlers are modelled by the call they would receive, not by what they do. The completion handler passed to `onSwipeToDelete` is not modelled.
- `UIDragItem` and `NSItemProvider` are reduced to a provider value and an optional local object of the section's item type. A local object of another type counts as absent.
- `ASDragDropConfig` is not part of this model. Its fields are taken as stored values of the types the section uses them with.
- `getSelfSizingSettings`, `setSelfSizingConfig` and `shouldCacheCells` pass through to closures or flags, so they are not modelled.
- The table theming values (`disableDefaultTheming`, separator insets, estimated header/footer heights) are platform and floating-point values, so they are not modelled.
- The `#if DEBUG` diagnostic printed by `applyInsert` when it drops duplicates is a development-time message only.
- `DispatchQueue.main.async`: each binding keeps its own queue of pending writes. The interleaving of queued writes aimed at different bindings is not modelled.
- Swift traps when `applyRemove` gets an out-of-range offset or `applyInsert` an index past the end. These are stated as preconditions for when a data binding is present.
- The data is taken to be indexed from 0, as an `Array` is. A `DataCollection` whose `startIndex` is not 0 (an `ArraySlice`, a `Range`) is not modelled: `isFirstInSection`, `getIndexPaths`, `containsIndex` and `data[safe:]` all use positions `0..<count`.
- Hash values are unbounded integers; Swift's `Int` width and per-process hash seeding are not modelled.
