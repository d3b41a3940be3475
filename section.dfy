/**
 * `ASSection`: one section of a collection or table view. It holds a snapshot
 * of its items, the rule that extracts each item's ID, and the configuration
 * (selection, events, drag and drop, swipe to delete, context menu,
 * supplementary views) that the hosting container reaches only through
 * positions and item unique IDs.
 */
module Sections {
  import opened Wrappers
  import opened Collections
  import opened Bindings
  import opened Hosting

  /** `ASCollectionViewItemUniqueID`: the hash of the section's ID and the hash of the item's ID. */
  datatype ItemUniqueID = ItemUniqueID(sectionIDHash: int, itemIDHash: int)

  datatype IndexPath = IndexPath(item: int, section: int)

  /** `ASCellContext`, recomputed on every content request. */
  datatype CellContext = CellContext(isSelected: bool, index: int, isFirstInSection: bool, isLastInSection: bool)

  /** The argument of one call to the section's `onCellEvent` handler. */
  datatype CellEvent<Item> =
    | Appeared(item: Item)
    | Disappeared(item: Item)
    | PrefetchRequested(data: seq<Item>)
    | PrefetchCancelled(data: seq<Item>)

  /** An `NSItemProvider`: the empty one, or one built by the section's drag-item provider. */
  datatype ItemProvider = EmptyItemProvider | Provided(payload: string)

  /** A `UIDragItem`, reduced to its provider and its local object when that has the section's item type. */
  datatype DragItem<Item> = DragItem(itemProvider: ItemProvider, localObject: Option<Item>)

  /** `ASDragDropConfig` */
  datatype DragDropConfig<!Item> = DragDropConfig(
    dataBinding: Binding?<seq<Item>>,
    dragEnabled: bool,
    dropEnabled: bool,
    reorderingEnabled: bool,
    dragItemProvider: Option<Item -> ItemProvider>,
    dropItemProvider: Option<(Option<Item>, DragItem<Item>) -> Option<Item>>)

  /** `ASDragDropConfig.disabled`, the section's default. */
  function DisabledDragDrop<Item>(): (c: DragDropConfig<Item>)
    ensures !c.dragEnabled && !c.dropEnabled && c.dataBinding == null
  {
    DragDropConfig(null, false, false, false, None, None)
  }

  /** The arguments of one call to the section's `onSwipeToDelete` handler. */
  datatype SwipeToDeleteCall<Item> = SwipeToDeleteCall(index: int, item: Item)

  /** A `UIContextMenuConfiguration` */
  datatype ContextMenuConfiguration = ContextMenuConfiguration(identifier: string)

  const ELEMENT_KIND_SECTION_HEADER: string := "UICollectionElementKindSectionHeader"
  const ELEMENT_KIND_SECTION_FOOTER: string := "UICollectionElementKindSectionFooter"

  /** The static type of every supplementary view, which the section stores type-erased. */
  const ANY_VIEW_TYPE: TypeTag := "AnyView"

  /** `supplementaryViews[kind] = view`, or `removeValue(forKey: kind)` when there is no view. */
  function WithSupplementaryView<V>(views: map<string, V>, view: Option<V>, kind: string): (r: map<string, V>)
    ensures view.None? ==> kind !in r
    ensures view.Some? ==> kind in r && r[kind] == view.value
    ensures forall k :: k != kind ==> (k in r <==> k in views)
    ensures forall k :: k != kind && k in r ==> r[k] == views[k]
  {
    match view
    case None => views - {kind}
    case Some(v) => views[kind := v]
  }

  /**
   * The section. The struct's stored properties that no member changes are
   * constants; `supplementaryViews`, changed by the `mutating` setters, is a
   * field. The two bindings are shared objects the section writes through.
   * `V` is the erased type of rendered views.
   */
  class Section<Item, ItemID(==), V> {
    /** The hash of the section's `id`. */
    const idHash: int
    const data: seq<Item>
    /** `dataIDKeyPath` */
    const dataID: Item -> ItemID
    /** `hashValue` of an item ID */
    const hashValue: ItemID -> int
    /** The static type of `container(content(item, context))`. */
    const containerType: TypeTag
    /** `container` applied to `content` */
    const cellView: (Item, CellContext) -> V
    const selectedItems: Binding?<set<int>>
    const shouldAllowSelection: Option<int -> bool>
    const shouldAllowDeselection: Option<int -> bool>
    /** `onCellEvent != nil` */
    const hasCellEventHandler: bool
    const dragDropConfig: DragDropConfig<Item>
    const shouldAllowSwipeToDelete: Option<int -> bool>
    /** `onSwipeToDelete != nil` */
    const hasSwipeToDeleteHandler: bool
    const contextMenuProvider: Option<(int, Item) -> Option<ContextMenuConfiguration>>
    var supplementaryViews: map<string, V>

    constructor (idHash: int, data: seq<Item>, dataID: Item -> ItemID, hashValue: ItemID -> int,
                 containerType: TypeTag, cellView: (Item, CellContext) -> V,
                 selectedItems: Binding?<set<int>>,
                 shouldAllowSelection: Option<int -> bool>, shouldAllowDeselection: Option<int -> bool>,
                 hasCellEventHandler: bool, dragDropConfig: DragDropConfig<Item> := DisabledDragDrop(),
                 shouldAllowSwipeToDelete: Option<int -> bool>, hasSwipeToDeleteHandler: bool,
                 contextMenuProvider: Option<(int, Item) -> Option<ContextMenuConfiguration>>)
      ensures this.idHash == idHash && this.data == data && this.dataID == dataID
      ensures this.hashValue == hashValue && this.containerType == containerType
      ensures this.cellView == cellView && this.selectedItems == selectedItems
      ensures this.shouldAllowSelection == shouldAllowSelection
      ensures this.shouldAllowDeselection == shouldAllowDeselection
      ensures this.hasCellEventHandler == hasCellEventHandler && this.dragDropConfig == dragDropConfig
      ensures this.shouldAllowSwipeToDelete == shouldAllowSwipeToDelete
      ensures this.hasSwipeToDeleteHandler == hasSwipeToDeleteHandler
      ensures this.contextMenuProvider == contextMenuProvider
      ensures supplementaryViews == map[]
    {
      this.idHash := idHash;
      this.data := data;
      this.dataID := dataID;
      this.hashValue := hashValue;
      this.containerType := containerType;
      this.cellView := cellView;
      this.selectedItems := selectedItems;
      this.shouldAllowSelection := shouldAllowSelection;
      this.shouldAllowDeselection := shouldAllowDeselection;
      this.hasCellEventHandler := hasCellEventHandler;
      this.dragDropConfig := dragDropConfig;
      this.shouldAllowSwipeToDelete := shouldAllowSwipeToDelete;
      this.hasSwipeToDeleteHandler := hasSwipeToDeleteHandler;
      this.contextMenuProvider := contextMenuProvider;
      supplementaryViews := map[];
    }

    // ---------------------------------------------------------------
    // Identity resolution
    // ---------------------------------------------------------------

    /** `data.containsIndex(index)` */
    predicate ContainsIndex(index: int)
    {
      0 <= index < |data|
    }

    /** `data[safe: index]` */
    function SafeItem(index: int): (r: Option<Item>)
      ensures r.Some? <==> ContainsIndex(index)
      ensures r.Some? ==> r.value == data[index]
    {
      if ContainsIndex(index) then Some(data[index]) else None
    }

    /** The hash of the ID extracted from `item`. */
    function ItemIDHash(item: Item): int
    {
      hashValue(dataID(item))
    }

    /** `getItemID(for item:)` */
    function ItemUniqueIDOf(item: Item): ItemUniqueID
    {
      ItemUniqueID(idHash, ItemIDHash(item))
    }

    /** No two items of the snapshot have IDs with the same hash. */
    ghost predicate ItemIDHashesDistinct()
    {
      forall i, j :: 0 <= i < j < |data| ==> ItemIDHash(data[i]) != ItemIDHash(data[j])
    }

    /** The test `getIndex` applies to each item. */
    function HasItemIDHash(h: int): Item -> bool
    {
      (item: Item) => ItemIDHash(item) == h
    }

    /** `getIndex(of:)`: the first position whose item's ID hash is the unique ID's item hash. */
    function GetIndex(itemID: ItemUniqueID): (r: Option<nat>)
      ensures r.Some? ==> r.value < |data| && ItemIDHash(data[r.value]) == itemID.itemIDHash
      ensures r.Some? ==> forall j :: 0 <= j < r.value ==> ItemIDHash(data[j]) != itemID.itemIDHash
      ensures r.None? <==> forall j :: 0 <= j < |data| ==> ItemIDHash(data[j]) != itemID.itemIDHash
    {
      FirstIndexWhere(data, HasItemIDHash(itemID.itemIDHash))
    }

    /** `getItemID(for index:)`: the unique ID of the item at `index`, if there is one. */
    function GetItemID(index: int): (r: Option<ItemUniqueID>)
      ensures r.Some? <==> ContainsIndex(index)
      ensures r.Some? ==> r.value.sectionIDHash == idHash && r.value.itemIDHash == ItemIDHash(data[index])
    {
      match SafeItem(index)
      case Some(item) => Some(ItemUniqueIDOf(item))
      case None => None
    }

    /** `getUniqueItemIDs()`: one unique ID per item, in data order. */
    function GetUniqueItemIDs(): (r: seq<ItemUniqueID>)
      ensures |r| == |data|
      ensures forall i :: 0 <= i < |r| ==> GetItemID(i) == Some(r[i])
    {
      seq(|data|, i requires 0 <= i < |data| => ItemUniqueIDOf(data[i]))
    }

    /** `getIndexPaths(withSectionIndex:)`: one index path per position, ascending. */
    function GetIndexPaths(sectionIndex: int): (r: seq<IndexPath>)
      ensures |r| == |data|
      ensures forall k :: 0 <= k < |r| ==> r[k] == IndexPath(k, sectionIndex)
    {
      seq(|data|, k => IndexPath(k, sectionIndex))
    }

    /** Position to identity and back: with distinct ID hashes, `getIndex` undoes `getItemID`. */
    lemma GetIndexRoundTrip(index: int)
      requires ItemIDHashesDistinct()
      requires ContainsIndex(index)
      ensures GetIndex(GetItemID(index).value) == Some(index)
    {
      var h := ItemIDHash(data[index]);
      forall j | 0 <= j < index
        ensures ItemIDHash(data[j]) != h
      {
      }
      assert GetIndex(GetItemID(index).value).Some?;
    }

    /** Identity to position and back: a resolved index carries the same item hash. */
    lemma GetItemIDAfterGetIndex(itemID: ItemUniqueID)
      requires GetIndex(itemID).Some?
      ensures GetItemID(GetIndex(itemID).value) == Some(ItemUniqueID(idHash, itemID.itemIDHash))
    {
    }

    /** Without distinct hashes the round trip fails: a later item whose hash collides resolves to the earlier one. */
    lemma GetIndexCollision(i: int, j: int)
      requires 0 <= i < j < |data|
      requires ItemIDHash(data[i]) == ItemIDHash(data[j])
      ensures GetIndex(GetItemID(j).value) != Some(j)
    {
    }

    /** With distinct ID hashes the unique IDs are pairwise distinct, and each resolves to its own position. */
    lemma {:induction false} UniqueItemIDsResolve()
      requires ItemIDHashesDistinct()
      ensures forall i, j :: 0 <= i < j < |data| ==> GetUniqueItemIDs()[i] != GetUniqueItemIDs()[j]
      ensures forall i :: 0 <= i < |data| ==> GetIndex(GetUniqueItemIDs()[i]) == Some(i)
    {
      var ids := GetUniqueItemIDs();
      forall i | 0 <= i < |data|
        ensures GetIndex(ids[i]) == Some(i)
      {
        assert GetItemID(i) == Some(ids[i]);
        GetIndexRoundTrip(i);
      }
    }

    /** Every index path `getIndexPaths` yields addresses an item of this section. */
    lemma IndexPathsResolve(sectionIndex: int)
      ensures forall p :: p in GetIndexPaths(sectionIndex) ==> p.section == sectionIndex && SafeItem(p.item).Some?
      ensures forall k :: 0 <= k < |data| ==> GetIndexPaths(sectionIndex)[k].item == k
    {
    }

    // ---------------------------------------------------------------
    // Selection and cell context
    // ---------------------------------------------------------------

    /** `isSelected(index:)`: false when there is no selection binding. */
    function IsSelected(index: int): (r: bool)
      reads selectedItems
      ensures r <==> selectedItems != null && index in selectedItems.wrappedValue
    {
      if selectedItems == null then false else index in selectedItems.wrappedValue
    }

    /** `cellContext(for:)` */
    function CellContextFor(index: int): (c: CellContext)
      reads selectedItems
      ensures c.index == index
      ensures c.isFirstInSection <==> index == 0
      ensures c.isLastInSection <==> index == |data| - 1
      ensures c.isSelected <==> IsSelected(index)
    {
      CellContext(IsSelected(index), index, index == 0, index == |data| - 1)
    }

    /** Among the positions of a non-empty section exactly the first is first and exactly the last is last. */
    lemma CellContextEnds(index: int)
      requires ContainsIndex(index)
      ensures CellContextFor(index).isFirstInSection && CellContextFor(index).isLastInSection <==> |data| == 1
      ensures selectedItems == null ==> !CellContextFor(index).isSelected
    {
    }

    /** `shouldSelect(_:)`: the predicate for an index in range, otherwise whether there is a selection binding. */
    function ShouldSelect(indexPath: IndexPath): (r: bool)
      ensures !ContainsIndex(indexPath.item) ==> r == (selectedItems != null)
      ensures ContainsIndex(indexPath.item) && shouldAllowSelection.Some? ==> r == shouldAllowSelection.value(indexPath.item)
      ensures shouldAllowSelection.None? ==> r == (selectedItems != null)
    {
      if !ContainsIndex(indexPath.item) then selectedItems != null
      else shouldAllowSelection.GetOr(_ => selectedItems != null)(indexPath.item)
    }

    /** `shouldDeselect(_:)`: as `ShouldSelect`, with the deselection predicate. */
    function ShouldDeselect(indexPath: IndexPath): (r: bool)
      ensures !ContainsIndex(indexPath.item) ==> r == (selectedItems != null)
      ensures ContainsIndex(indexPath.item) && shouldAllowDeselection.Some? ==> r == shouldAllowDeselection.value(indexPath.item)
      ensures shouldAllowDeselection.None? ==> r == (selectedItems != null)
    {
      if !ContainsIndex(indexPath.item) then selectedItems != null
      else shouldAllowDeselection.GetOr(_ => selectedItems != null)(indexPath.item)
    }

    /** `updateSelection(_:)`: the write is queued on the main queue, not applied. */
    method UpdateSelection(indices: set<int>)
      modifies selectedItems
      ensures selectedItems != null ==> selectedItems.pendingWrites == old(selectedItems.pendingWrites) + [indices]
      ensures selectedItems != null ==> selectedItems.wrappedValue == old(selectedItems.wrappedValue)
    {
      if selectedItems != null {
        selectedItems.WriteAsync(indices);
      }
    }

    // ---------------------------------------------------------------
    // Events, swipe to delete, context menu
    // ---------------------------------------------------------------

    /** `getTypeErasedData(for:)` */
    function GetTypeErasedData(indexPath: IndexPath): (r: Option<Item>)
      ensures r.Some? <==> ContainsIndex(indexPath.item)
      ensures r.Some? ==> r.value == data[indexPath.item]
    {
      SafeItem(indexPath.item)
    }

    /** `onAppear(_:)`: the event sent to `onCellEvent`, or none. */
    function OnAppear(indexPath: IndexPath): (r: Option<CellEvent<Item>>)
      ensures r.Some? <==> hasCellEventHandler && ContainsIndex(indexPath.item)
      ensures r.Some? ==> r.value == Appeared(data[indexPath.item])
    {
      match SafeItem(indexPath.item)
      case None => None
      case Some(item) => if hasCellEventHandler then Some(Appeared(item)) else None
    }

    /** `onDisappear(_:)`: the event sent to `onCellEvent`, or none. */
    function OnDisappear(indexPath: IndexPath): (r: Option<CellEvent<Item>>)
      ensures r.Some? <==> hasCellEventHandler && ContainsIndex(indexPath.item)
      ensures r.Some? ==> r.value == Disappeared(data[indexPath.item])
    {
      match SafeItem(indexPath.item)
      case None => None
      case Some(item) => if hasCellEventHandler then Some(Disappeared(item)) else None
    }

    /** How `prefetch` and `cancelPrefetch` look an index path up. */
    function ItemAtPath(): IndexPath -> Option<Item>
    {
      (indexPath: IndexPath) => SafeItem(indexPath.item)
    }

    /** `indexPaths.compactMap { data[safe: $0.item] }` */
    function ItemsAt(indexPaths: seq<IndexPath>): seq<Item>
    {
      CompactMap(indexPaths, ItemAtPath())
    }

    /** The items forwarded for a batch are those of its parts, in request order. */
    lemma ItemsAtAppend(a: seq<IndexPath>, b: seq<IndexPath>)
      ensures ItemsAt(a + b) == ItemsAt(a) + ItemsAt(b)
    {
      CompactMapAppend(a, b, ItemAtPath());
    }

    /** A single index path forwards its item when in range, and nothing otherwise. */
    lemma ItemsAtSingle(indexPath: IndexPath)
      ensures ItemsAt([indexPath]) == if ContainsIndex(indexPath.item) then [data[indexPath.item]] else []
    {
      assert [indexPath][1..] == [];
    }

    /** When every path is in range, each request gets its item, position for position. */
    lemma ItemsAtAllInRange(indexPaths: seq<IndexPath>)
      requires forall k :: 0 <= k < |indexPaths| ==> 0 <= indexPaths[k].item < |data|
      ensures |ItemsAt(indexPaths)| == |indexPaths|
      ensures forall k :: 0 <= k < |indexPaths| ==> ItemsAt(indexPaths)[k] == data[indexPaths[k].item]
    {
      CompactMapAllPresent(indexPaths, ItemAtPath());
    }

    /** When no path is in range, nothing is forwarded. */
    lemma ItemsAtNoneInRange(indexPaths: seq<IndexPath>)
      requires forall k :: 0 <= k < |indexPaths| ==> !ContainsIndex(indexPaths[k].item)
      ensures ItemsAt(indexPaths) == []
    {
      CompactMapAllAbsent(indexPaths, ItemAtPath());
    }

    /** `prefetch(_:)`: the handler is called whenever there is one, with the items in range. */
    function Prefetch(indexPaths: seq<IndexPath>): (r: Option<CellEvent<Item>>)
      ensures r.Some? <==> hasCellEventHandler
      ensures r.Some? ==> r.value.PrefetchRequested? && |r.value.data| <= |indexPaths|
      ensures r.Some? ==> r.value.data == ItemsAt(indexPaths)
    {
      if hasCellEventHandler then Some(PrefetchRequested(ItemsAt(indexPaths))) else None
    }

    /** `cancelPrefetch(_:)`: the handler is called whenever there is one, with the items in range. */
    function CancelPrefetch(indexPaths: seq<IndexPath>): (r: Option<CellEvent<Item>>)
      ensures r.Some? <==> hasCellEventHandler
      ensures r.Some? ==> r.value.PrefetchCancelled? && |r.value.data| <= |indexPaths|
      ensures r.Some? ==> r.value.data == ItemsAt(indexPaths)
    {
      if hasCellEventHandler then Some(PrefetchCancelled(ItemsAt(indexPaths))) else None
    }

    /** `supportsDelete(at:)`: a delete handler is set and the allow-predicate, true by default, holds. */
    function SupportsDelete(indexPath: IndexPath): (r: bool)
      ensures r <==> hasSwipeToDeleteHandler
                     && (shouldAllowSwipeToDelete.None? || shouldAllowSwipeToDelete.value(indexPath.item))
    {
      if !hasSwipeToDeleteHandler then false
      else shouldAllowSwipeToDelete.GetOr(_ => true)(indexPath.item)
    }

    /** `onDelete(indexPath:completionHandler:)`: the call made to `onSwipeToDelete`, or none. */
    function OnDelete(indexPath: IndexPath): (r: Option<SwipeToDeleteCall<Item>>)
      ensures r.Some? <==> hasSwipeToDeleteHandler && ContainsIndex(indexPath.item)
      ensures r.Some? ==> r.value == SwipeToDeleteCall(indexPath.item, data[indexPath.item])
    {
      match SafeItem(indexPath.item)
      case None => None
      case Some(item) => if hasSwipeToDeleteHandler then Some(SwipeToDeleteCall(indexPath.item, item)) else None
    }

    /** `onDelete` does not consult the allow-predicate: the handler runs for an in-range index it rejects. */
    lemma OnDeleteIgnoresAllowPredicate(indexPath: IndexPath)
      requires hasSwipeToDeleteHandler && ContainsIndex(indexPath.item)
      requires !SupportsDelete(indexPath)
      ensures OnDelete(indexPath).Some?
    {
    }

    /** `getContextMenu(for:)`: the provider's menu for an in-range item, otherwise none. */
    function GetContextMenu(indexPath: IndexPath): (r: Option<ContextMenuConfiguration>)
      ensures contextMenuProvider.None? || !ContainsIndex(indexPath.item) ==> r.None?
      ensures contextMenuProvider.Some? && ContainsIndex(indexPath.item)
              ==> r == contextMenuProvider.value(indexPath.item, data[indexPath.item])
    {
      match contextMenuProvider
      case None => None
      case Some(menuProvider) =>
        match SafeItem(indexPath.item)
        case None => None
        case Some(item) => menuProvider(indexPath.item, item)
    }

    // ---------------------------------------------------------------
    // Drag and drop
    // ---------------------------------------------------------------

    /** `getDragItem(for:)`: an item carrying the section's item as its local object. */
    function GetDragItem(indexPath: IndexPath): (r: Option<DragItem<Item>>)
      ensures r.Some? <==> dragDropConfig.dragEnabled && ContainsIndex(indexPath.item)
      ensures r.Some? ==> r.value.localObject == Some(data[indexPath.item])
      ensures r.Some? && dragDropConfig.dragItemProvider.None? ==> r.value.itemProvider == EmptyItemProvider
      ensures r.Some? && dragDropConfig.dragItemProvider.Some? ==>
                r.value.itemProvider == dragDropConfig.dragItemProvider.value(data[indexPath.item])
    {
      if !dragDropConfig.dragEnabled then None
      else
        match SafeItem(indexPath.item)
        case None => None
        case Some(item) =>
          var provider := match dragDropConfig.dragItemProvider
            case Some(p) => p(item)
            case None => EmptyItemProvider;
          Some(DragItem(provider, Some(item)))
    }

    /**
     * `getDropItem(from:)`: none while drop is disabled; otherwise the drop-item
     * provider's item, falling back to the drag item's local object.
     */
    function GetDropItem(dragItem: DragItem<Item>): (r: Option<Item>)
      ensures !dragDropConfig.dropEnabled ==> r.None?
      ensures dragDropConfig.dropEnabled && dragDropConfig.dropItemProvider.None? ==> r == dragItem.localObject
      ensures dragDropConfig.dropEnabled && dragDropConfig.dropItemProvider.Some? ==>
                r == (var provided := dragDropConfig.dropItemProvider.value(dragItem.localObject, dragItem);
                      if provided.Some? then provided else dragItem.localObject)
    {
      if !dragDropConfig.dropEnabled then None
      else
        var sourceItem := dragItem.localObject;
        match dragDropConfig.dropItemProvider
        case None => sourceItem
        case Some(provider) =>
          match provider(sourceItem, dragItem)
          case Some(item) => Some(item)
          case None => sourceItem
    }

    /** `willAcceptDropItem(from:)` */
    function WillAcceptDropItem(dragItem: DragItem<Item>): (r: bool)
      ensures r <==> GetDropItem(dragItem).Some?
    {
      GetDropItem(dragItem) != None
    }

    /** `getItemID(for dragItem:)`: the unique ID of the item a drop would insert. */
    function GetItemIDForDragItem(dragItem: DragItem<Item>): (r: Option<ItemUniqueID>)
      ensures r.Some? <==> WillAcceptDropItem(dragItem)
      ensures r.Some? ==> r.value == ItemUniqueIDOf(GetDropItem(dragItem).value)
    {
      match GetDropItem(dragItem)
      case None => None
      case Some(item) => Some(ItemUniqueIDOf(item))
    }

    /**
     * Dragging an item out of a section that also accepts drops, without a
     * drop-item provider, yields the same item and the same unique ID back.
     */
    lemma DragDropRoundTrip(indexPath: IndexPath)
      requires dragDropConfig.dragEnabled && dragDropConfig.dropEnabled
      requires dragDropConfig.dropItemProvider.None?
      requires ContainsIndex(indexPath.item)
      ensures GetDragItem(indexPath).Some?
      ensures GetDropItem(GetDragItem(indexPath).value) == Some(data[indexPath.item])
      ensures GetItemIDForDragItem(GetDragItem(indexPath).value) == GetItemID(indexPath.item)
    {
    }

    /** `drop` resolution of each dragged item, as `compactMap` applies it. */
    function DropResolver(): DragItem<Item> -> Option<Item>
    {
      (dragItem: DragItem<Item>) => GetDropItem(dragItem)
    }

    /** `items.compactMap(getDropItem(from:))` */
    function ResolveDropItems(items: seq<DragItem<Item>>): seq<Item>
    {
      CompactMap(items, DropResolver())
    }

    /** The IDs of a sequence of items. */
    function IDsOf(s: seq<Item>): set<ItemID>
    {
      set i | 0 <= i < |s| :: dataID(s[i])
    }

    /** The filter `applyInsert` applies: the item's ID is not among `ids`. */
    function IDNotIn(ids: set<ItemID>): Item -> bool
    {
      (item: Item) => dataID(item) !in ids
    }

    /** `noDuplicates`: the resolved items whose ID is not already in `existing`, in input order. */
    function ItemsToInsert(existing: seq<Item>, items: seq<DragItem<Item>>): seq<Item>
    {
      Filter(ResolveDropItems(items), IDNotIn(IDsOf(existing)))
    }

    /** The new contents of the data binding after `applyInsert(items:at:)`. */
    function InsertingDropItems(existing: seq<Item>, items: seq<DragItem<Item>>, index: int): seq<Item>
      requires 0 <= index <= |existing|
    {
      InsertingContents(existing, ItemsToInsert(existing, items), index)
    }

    /** An item is inserted exactly when a dragged item resolves to it and its ID is new to the binding. */
    lemma ItemsToInsertMember(existing: seq<Item>, items: seq<DragItem<Item>>, x: Item)
      ensures x in ItemsToInsert(existing, items)
              <==> (exists k :: 0 <= k < |items| && GetDropItem(items[k]) == Some(x)) && dataID(x) !in IDsOf(existing)
    {
      FilterMember(ResolveDropItems(items), IDNotIn(IDsOf(existing)), x);
      CompactMapMember(items, DropResolver(), x);
    }

    /** Survivors keep the order of the dragged items: a batch inserts what its parts insert, in turn. */
    lemma ItemsToInsertAppend(existing: seq<Item>, a: seq<DragItem<Item>>, b: seq<DragItem<Item>>)
      ensures ItemsToInsert(existing, a + b) == ItemsToInsert(existing, a) + ItemsToInsert(existing, b)
    {
      CompactMapAppend(a, b, DropResolver());
      FilterAppend(ResolveDropItems(a), ResolveDropItems(b), IDNotIn(IDsOf(existing)));
    }

    /** With drop disabled nothing resolves, so an insert leaves the data as it was. */
    lemma InsertWhileDropDisabled(existing: seq<Item>, items: seq<DragItem<Item>>, index: int)
      requires !dragDropConfig.dropEnabled
      requires 0 <= index <= |existing|
      ensures ResolveDropItems(items) == []
      ensures InsertingDropItems(existing, items, index) == existing
    {
      CompactMapAllAbsent(items, DropResolver());
      assert existing[..index] + existing[index..] == existing;
    }

    /**
     * The original items keep their relative order around the inserted block,
     * and every item in the result whose ID was already present is an original.
     */
    lemma InsertKeepsOriginals(existing: seq<Item>, items: seq<DragItem<Item>>, index: int)
      requires 0 <= index <= |existing|
      ensures var n := |ItemsToInsert(existing, items)|;
              var r := InsertingDropItems(existing, items, index);
              r[..index] + r[index + n..] == existing
              && r[index..index + n] == ItemsToInsert(existing, items)
              && forall k :: 0 <= k < |r| && dataID(r[k]) in IDsOf(existing) ==> k < index || index + n <= k
    {
      var added := ItemsToInsert(existing, items);
      var n := |added|;
      var r := InsertingDropItems(existing, items, index);
      assert existing[..index] + existing[index..] == existing;
      forall k | index <= k < index + n
        ensures dataID(r[k]) !in IDsOf(existing)
      {
        assert r[k] == added[k - index];
        assert IDNotIn(IDsOf(existing))(added[k - index]);
      }
    }

    /** Unique IDs stay unique: distinct IDs in the binding and in the resolved batch give distinct IDs after the insert. */
    lemma InsertKeepsIDsDistinct(existing: seq<Item>, items: seq<DragItem<Item>>, index: int)
      requires 0 <= index <= |existing|
      requires DistinctBy(existing, dataID)
      requires DistinctBy(ResolveDropItems(items), dataID)
      ensures DistinctBy(InsertingDropItems(existing, items, index), dataID)
    {
      var ids := IDsOf(existing);
      var added := ItemsToInsert(existing, items);
      FilterDistinctBy(ResolveDropItems(items), IDNotIn(ids), dataID);
      var n := |added|;
      var r := InsertingDropItems(existing, items, index);
      forall i, j | 0 <= i < j < |r|
        ensures dataID(r[i]) != dataID(r[j])
      {
        var iNew := index <= i < index + n;
        var jNew := index <= j < index + n;
        if iNew && jNew {
          assert r[i] == added[i - index] && r[j] == added[j - index];
        } else if iNew {
          var oj := if j < index then j else j - n;
          assert r[j] == existing[oj];
          assert dataID(existing[oj]) in ids;
          assert IDNotIn(ids)(added[i - index]);
        } else if jNew {
          var oi := if i < index then i else i - n;
          assert r[i] == existing[oi];
          assert dataID(existing[oi]) in ids;
          assert IDNotIn(ids)(added[j - index]);
        } else {
          var oi := if i < index then i else i - n;
          var oj := if j < index then j else j - n;
          assert r[i] == existing[oi] && r[j] == existing[oj] && oi < oj;
        }
      }
    }

    /** `applyRemove(atOffsets:)`: the data binding loses exactly the elements at `offsets`. */
    method ApplyRemove(offsets: set<int>)
      requires dragDropConfig.dataBinding != null ==>
                 forall o :: o in offsets ==> 0 <= o < |dragDropConfig.dataBinding.wrappedValue|
      modifies dragDropConfig.dataBinding
      ensures dragDropConfig.dataBinding != null ==>
                dragDropConfig.dataBinding.wrappedValue == RemovingOffsets(old(dragDropConfig.dataBinding.wrappedValue), offsets)
      ensures dragDropConfig.dataBinding != null ==>
                dragDropConfig.dataBinding.pendingWrites == old(dragDropConfig.dataBinding.pendingWrites)
    {
      var binding := dragDropConfig.dataBinding;
      if binding != null {
        binding.wrappedValue := RemovingOffsets(binding.wrappedValue, offsets);
      }
    }

    /** `applyInsert(items:at:)`: resolved items with new IDs go in at `index`. */
    method ApplyInsert(items: seq<DragItem<Item>>, index: int)
      requires dragDropConfig.dataBinding != null ==> 0 <= index <= |dragDropConfig.dataBinding.wrappedValue|
      modifies dragDropConfig.dataBinding
      ensures dragDropConfig.dataBinding != null ==>
                dragDropConfig.dataBinding.wrappedValue
                == InsertingDropItems(old(dragDropConfig.dataBinding.wrappedValue), items, index)
      ensures dragDropConfig.dataBinding != null ==>
                dragDropConfig.dataBinding.pendingWrites == old(dragDropConfig.dataBinding.pendingWrites)
    {
      var binding := dragDropConfig.dataBinding;
      if binding != null {
        var actualItems := ResolveDropItems(items);
        var allDataIDs := IDsOf(binding.wrappedValue);
        var noDuplicates := Filter(actualItems, IDNotIn(allDataIDs));
        binding.wrappedValue := InsertingContents(binding.wrappedValue, noDuplicates, index);
      }
    }

    // ---------------------------------------------------------------
    // Hosting controllers
    // ---------------------------------------------------------------

    /** `getContent(forItemID:)`: the rendered view for the item the unique ID resolves to. */
    function GetContent(itemID: ItemUniqueID): (r: Option<V>)
      reads selectedItems
      ensures r.Some? <==> GetIndex(itemID).Some?
      ensures r.Some? ==> var i := GetIndex(itemID).value; r.value == cellView(data[i], CellContextFor(i))
    {
      match GetIndex(itemID)
      case None => None
      case Some(i) => Some(cellView(data[i], CellContextFor(i)))
    }

    /**
     * `updateOrCreateHostController(content:existingHC:)`: the existing
     * controller when it was made for `contentType`, updated in place;
     * otherwise a new one. Either way it shows `content` and its drag and
     * drop flags follow the section's.
     */
    method UpdateOrCreateHostController(content: V, contentType: TypeTag, existingHC: HostingController?<V>)
      returns (hc: HostingController<V>)
      modifies existingHC
      ensures IsHostFor(existingHC, contentType) ==> hc == existingHC
      ensures !IsHostFor(existingHC, contentType) ==> fresh(hc) && hc.contentType == contentType
      ensures !IsHostFor(existingHC, contentType) && existingHC != null ==> unchanged(existingHC)
      ensures hc.view == content
      ensures hc.disableSwiftUIDropInteraction == dragDropConfig.dropEnabled
      ensures hc.disableSwiftUIDragInteraction == dragDropConfig.dragEnabled
    {
      if IsHostFor(existingHC, contentType) {
        hc := existingHC;
        hc.SetView(content);
      } else {
        hc := new HostingController(contentType, content);
      }
      hc.disableSwiftUIDropInteraction := dragDropConfig.dropEnabled;
      hc.disableSwiftUIDragInteraction := dragDropConfig.dragEnabled;
    }

    /** `update(_:withContent:)`: replaces the content only when the controller was made for `contentType`. */
    method UpdateWithContent(hc: HostingController<V>, content: V, contentType: TypeTag)
      modifies hc`view
      ensures hc.view == if IsHostFor(hc, contentType) then content else old(hc.view)
    {
      if IsHostFor(hc, contentType) {
        hc.SetView(content);
      }
    }

    /** `updateOrCreateHostController(forItemID:existingHC:)`: none when the ID no longer resolves. */
    method UpdateOrCreateHostControllerForItem(itemID: ItemUniqueID, existingHC: HostingController?<V>)
      returns (hc: HostingController?<V>)
      modifies existingHC
      ensures GetContent(itemID).None? ==> hc == null && (existingHC != null ==> unchanged(existingHC))
      ensures GetContent(itemID).Some? ==> hc != null && hc.view == GetContent(itemID).value
      ensures GetContent(itemID).Some? && IsHostFor(existingHC, containerType) ==> hc == existingHC
      ensures GetContent(itemID).Some? && !IsHostFor(existingHC, containerType) ==>
                hc != null && fresh(hc) && hc.contentType == containerType
      ensures GetContent(itemID).Some? && !IsHostFor(existingHC, containerType) && existingHC != null ==>
                unchanged(existingHC)
      ensures hc != null ==> hc.disableSwiftUIDropInteraction == dragDropConfig.dropEnabled
                             && hc.disableSwiftUIDragInteraction == dragDropConfig.dragEnabled
    {
      var content := GetContent(itemID);
      if content.None? {
        return null;
      }
      hc := UpdateOrCreateHostController(content.value, containerType, existingHC);
    }

    /** `update(_:forItemID:)`: no effect when the ID no longer resolves or the type does not match. */
    method UpdateForItem(hc: HostingController<V>, itemID: ItemUniqueID)
      modifies hc`view
      ensures hc.view == if GetContent(itemID).Some? && IsHostFor(hc, containerType)
                         then GetContent(itemID).value else old(hc.view)
    {
      var content := GetContent(itemID);
      if content.Some? {
        UpdateWithContent(hc, content.value, containerType);
      }
    }

    // ---------------------------------------------------------------
    // Supplementary views
    // ---------------------------------------------------------------

    /** `supplementary(ofKind:)` */
    function Supplementary(kind: string): (r: Option<V>)
      reads this
      ensures r.Some? <==> kind in supplementaryViews
      ensures r.Some? ==> r.value == supplementaryViews[kind]
    {
      if kind in supplementaryViews then Some(supplementaryViews[kind]) else None
    }

    /** `supplementaryKinds`: exactly the kinds that have a view. */
    function SupplementaryKinds(): (r: set<string>)
      reads this
      ensures forall kind :: kind in r <==> Supplementary(kind).Some?
    {
      supplementaryViews.Keys
    }

    /** `setSupplementaryView(_:ofKind:)`: a view sets `kind`, none removes it; no other kind changes. */
    method SetSupplementaryView(view: Option<V>, kind: string)
      modifies this`supplementaryViews
      ensures supplementaryViews == WithSupplementaryView(old(supplementaryViews), view, kind)
    {
      match view
      case None => supplementaryViews := supplementaryViews - {kind};
      case Some(v) => supplementaryViews := supplementaryViews[kind := v];
    }

    /** `setHeaderView(_:)` */
    method SetHeaderView(view: Option<V>)
      modifies this`supplementaryViews
      ensures supplementaryViews == WithSupplementaryView(old(supplementaryViews), view, ELEMENT_KIND_SECTION_HEADER)
    {
      SetSupplementaryView(view, ELEMENT_KIND_SECTION_HEADER);
    }

    /** `setFooterView(_:)` */
    method SetFooterView(view: Option<V>)
      modifies this`supplementaryViews
      ensures supplementaryViews == WithSupplementaryView(old(supplementaryViews), view, ELEMENT_KIND_SECTION_FOOTER)
    {
      SetSupplementaryView(view, ELEMENT_KIND_SECTION_FOOTER);
    }

    /** `updateOrCreateHostController(forSupplementaryKind:existingHC:)`: none when `kind` has no view. */
    method UpdateOrCreateHostControllerForSupplementary(kind: string, existingHC: HostingController?<V>)
      returns (hc: HostingController?<V>)
      modifies existingHC
      ensures kind !in supplementaryViews ==> hc == null && (existingHC != null ==> unchanged(existingHC))
      ensures kind in supplementaryViews ==> hc != null && hc.view == supplementaryViews[kind]
      ensures kind in supplementaryViews && IsHostFor(existingHC, ANY_VIEW_TYPE) ==> hc == existingHC
      ensures kind in supplementaryViews && !IsHostFor(existingHC, ANY_VIEW_TYPE) ==>
                hc != null && fresh(hc) && hc.contentType == ANY_VIEW_TYPE
      ensures kind in supplementaryViews && !IsHostFor(existingHC, ANY_VIEW_TYPE) && existingHC != null ==>
                unchanged(existingHC)
      ensures hc != null ==> hc.disableSwiftUIDropInteraction == dragDropConfig.dropEnabled
                             && hc.disableSwiftUIDragInteraction == dragDropConfig.dragEnabled
    {
      if kind !in supplementaryViews {
        return null;
      }
      hc := UpdateOrCreateHostController(supplementaryViews[kind], ANY_VIEW_TYPE, existingHC);
    }

    /** `update(_:forSupplementaryKind:)`: no effect when `kind` has no view or the type does not match. */
    method UpdateForSupplementary(hc: HostingController<V>, kind: string)
      modifies hc`view
      ensures hc.view == if kind in supplementaryViews && IsHostFor(hc, ANY_VIEW_TYPE)
                         then supplementaryViews[kind] else old(hc.view)
    {
      if kind in supplementaryViews {
        UpdateWithContent(hc, supplementaryViews[kind], ANY_VIEW_TYPE);
      }
    }
  }
}
